/** What a reply of `list_expenses` holds, in terms of the expenses themselves. */
module ListingLaws {
  import opened Wrappers
  import opened Lists
  import opened Spliit
  import opened Paging
  import opened Listings

  /** Paid by the one, shared by the other, where these are asked for. */
  predicate AskedFor(payer: string, involved: string, e: Expense) {
    && (payer != "" ==> e.paidById == payer)
    && (involved != "" ==>
          exists j :: 0 <= j < |e.paidFor| && e.paidFor[j].Some? && e.paidFor[j].value.participantId == involved)
  }

  lemma {:induction false} SharesInMeaning(e: Expense, id: string, k: nat)
    requires k <= |e.paidFor|
    ensures SharesIn(e, id, k)
       <==> exists j :: 0 <= j < k && e.paidFor[j].Some? && e.paidFor[j].value.participantId == id
  {
    if k > 0 {
      SharesInMeaning(e, id, k - 1);
    }
  }

  lemma {:induction false} MatchesMeaning(q: Query, e: Expense)
    ensures Matches(q, e) <==> AskedFor(q.payer, q.involved, e)
  {
    SharesInMeaning(e, q.involved, |e.paidFor|);
  }

  /** The limit as the tool clamps it: 20 where none is given, and 100 at most. */
  predicate IsLimit(asked: int, limit: nat) {
    && (asked <= 0 ==> limit == 20)
    && (asked > 100 ==> limit == 100)
    && (1 <= asked <= 100 ==> limit == asked)
  }

  predicate IsStart(cursor: int, start: nat) {
    if cursor > 0 then start == cursor else start == 0
  }

  /** The entries stand in the list at the places `pos`, between the cursor and the
      next one, in order, and are asked for. */
  ghost predicate Genuine(list: seq<Expense>, q: Query, start: nat, r: Listing<Expense>, pos: seq<nat>) {
    && |pos| == |r.entries| && Increasing(pos)
    && forall k :: 0 <= k < |pos| ==>
         && start <= pos[k] < r.nextCursor && pos[k] < |list| && r.entries[k] == list[pos[k]]
         && AskedFor(q.payer, q.involved, r.entries[k])
  }

  /** What is asked for between the two cursors is in the reply, or comes after
      the entry that completes the limit. */
  ghost predicate Complete(list: seq<Expense>, q: Query, limit: nat, start: nat, r: Listing<Expense>, pos: seq<nat>) {
    forall i: nat :: start <= i < r.nextCursor && i < |list| && AskedFor(q.payer, q.involved, list[i])
      ==> i in pos || (|pos| == limit > 0 && pos[limit - 1] < i)
  }

  lemma {:induction false} TakenPlaces<T>(
    wanted: set<nat>, list: seq<T>, lo: nat, hi: nat, out: seq<T>, all: seq<nat>, limit: nat)
    requires Places(wanted, list, lo, hi, out, all)
    ensures var pos := Take(limit, all);
      && |pos| == |Take(limit, out)| && Increasing(pos)
      && (forall k :: 0 <= k < |pos| ==>
            && lo <= pos[k] < hi && pos[k] < |list| && pos[k] in wanted && Take(limit, out)[k] == list[pos[k]])
      && forall i: nat :: lo <= i < hi && i < |list| && i in wanted
           ==> i in pos || (|pos| == limit && (limit > 0 ==> pos[limit - 1] < i))
  {
    var pos := Take(limit, all);
    forall k | 0 <= k < |pos| ensures lo <= pos[k] < hi && pos[k] in wanted {
      assert all[k] in all;
    }
    forall i: nat | lo <= i < hi && i < |list| && i in wanted
      ensures i in pos || (|pos| == limit && (limit > 0 ==> pos[limit - 1] < i))
    {
      assert i in all;
      var k :| 0 <= k < |all| && all[k] == i;
      assert k < |pos| ==> pos[k] == i;
    }
  }

  /** The reply reads blocks up to the one that starts at `last`, and no further than
      it has to: what completes the limit, if anything does, is in that block. */
  ghost predicate Stops(list: seq<Expense>, limit: nat, start: nat, r: Listing<Expense>, pos: seq<nat>, last: nat) {
    && start <= last && r.nextCursor == last + limit && (r.hasMore <==> r.nextCursor < |list|)
    && (last == start || (last < |list| && (|pos| == limit > 0 ==> last <= pos[limit - 1])))
  }

  lemma {:induction false} PlacesOfBlocks<T>(wanted: set<nat>, list: seq<T>, start: nat, last: nat, next: nat)
    returns (all: seq<nat>)
    requires start <= last <= next
    ensures Places(wanted, list, start, next, Found(wanted, list, start, next), all)
    ensures forall k :: |Found(wanted, list, start, last)| <= k < |all| ==> last <= all[k]
  {
    var before := FoundPlaces(wanted, list, start, last);
    var after := FoundPlaces(wanted, list, last, next);
    FoundLonger(wanted, list, start, last, next);
    PlacesJoin(wanted, list, start, last, next, Found(wanted, list, start, last), Found(wanted, list, last, next),
               before, after);
    all := before + after;
    forall k | |before| <= k < |all| ensures last <= all[k] {
      assert after[k - |before|] in after;
    }
  }

  lemma {:induction false} ReplyPlaces(list: seq<Expense>, wanted: set<nat>, limit: nat, start: nat)
    returns (blocks: nat, last: nat, all: seq<nat>)
    requires limit > 0
    ensures var r := ListingFor(wanted, list, limit, start); var pos := Take(limit, all);
      && r.entries == Take(limit, Found(wanted, list, start, r.nextCursor))
      && Places(wanted, list, start, r.nextCursor, Found(wanted, list, start, r.nextCursor), all)
      && Stops(list, limit, start, r, pos, last)
      && 1 <= blocks <= MAX_PAGES && r.nextCursor == start + limit * blocks
      && (|r.entries| == limit || r.nextCursor >= |list| || blocks == MAX_PAGES)
  {
    blocks, last := ReplyBlocks(wanted, list, limit, start);
    AfterIsProduct(start, limit, blocks);
    all := PlacesOfBlocks(wanted, list, start, last, last + limit);
    TakeLonger(limit, Found(wanted, list, start, last + limit), []);
  }

  lemma {:induction false} MatchingMeaning(q: Query, list: seq<Expense>)
    ensures forall i: nat :: i in Matching(q, list) <==> i < |list| && AskedFor(q.payer, q.involved, list[i])
  {
    forall i: nat | i < |list| ensures Matches(q, list[i]) <==> AskedFor(q.payer, q.involved, list[i]) {
      MatchesMeaning(q, list[i]);
    }
  }

  lemma {:induction false} PlacesAreAskedFor(
    list: seq<Expense>, q: Query, limit: nat, start: nat, r: Listing<Expense>, all: seq<nat>)
    requires var found := Found(Matching(q, list), list, start, r.nextCursor);
      Places(Matching(q, list), list, start, r.nextCursor, found, all) && r.entries == Take(limit, found) && limit > 0
    ensures |r.entries| <= limit
    ensures Genuine(list, q, start, r, Take(limit, all)) && Complete(list, q, limit, start, r, Take(limit, all))
  {
    var wanted := Matching(q, list);
    TakenPlaces(wanted, list, start, r.nextCursor, Found(wanted, list, start, r.nextCursor), all, limit);
    MatchingMeaning(q, list);
  }

  /** A reply to a call that succeeds: the first expenses asked for, in order, at most
      the limit, from the cursor to the end of a block, which is the tenth, or ends the
      list, or completes the limit. */
  lemma {:induction false} ReplyToCall(feed: Feed<Expense>, q: Query, limitArg: int, cursorArg: int)
    returns (limit: nat, start: nat, blocks: nat, last: nat, pos: seq<nat>)
    requires ListingOrError(feed, Matching(q, feed.list), ClampLimit(limitArg), Position(cursorArg)).Ok?
    ensures var r := ListingOrError(feed, Matching(q, feed.list), ClampLimit(limitArg), Position(cursorArg)).value;
      && IsLimit(limitArg, limit) && IsStart(cursorArg, start) && |r.entries| <= limit
      && Genuine(feed.list, q, start, r, pos) && Complete(feed.list, q, limit, start, r, pos)
      && Stops(feed.list, limit, start, r, pos, last)
      && 1 <= blocks <= 10 && r.nextCursor == start + limit * blocks
      && (|r.entries| == limit || r.nextCursor >= |feed.list| || blocks == 10)
  {
    limit, start := ClampLimit(limitArg), Position(cursorArg);
    AnsweredListing(feed, Matching(q, feed.list), limit, start);
    var all;
    blocks, last, all := ReplyPlaces(feed.list, Matching(q, feed.list), limit, start);
    pos := Take(limit, all);
    PlacesAreAskedFor(feed.list, q, limit, start, ListingFor(Matching(q, feed.list), feed.list, limit, start), all);
  }

  /** A reply short of the limit holds everything asked for in the stretch it read. */
  lemma {:induction false} ShortReplyIsComplete(
    list: seq<Expense>, q: Query, limit: nat, start: nat, r: Listing<Expense>, pos: seq<nat>, i: nat)
    requires Genuine(list, q, start, r, pos) && Complete(list, q, limit, start, r, pos) && |r.entries| < limit
    requires start <= i < r.nextCursor && i < |list| && AskedFor(q.payer, q.involved, list[i])
    ensures list[i] in r.entries
  {
    var k :| 0 <= k < |pos| && pos[k] == i;
    assert r.entries[k] == list[i];
  }

  /** Request `p` of a call is made: the first always, a later one only when its block
      starts within the list and the limit has not been met before it. */
  predicate Requested(feed: Feed<Expense>, q: Query, limit: nat, start: nat, p: nat) {
    p == 0 || (start + limit * p < |feed.list|
               && |Found(Matching(q, feed.list), feed.list, start, start + limit * p)| < limit)
  }

  predicate FailedRequest(feed: Feed<Expense>, q: Query, limit: nat, start: nat, p: nat) {
    p in feed.failing && Requested(feed, q, limit, start, p)
  }

  lemma {:induction false} FailsAtMeaning(feed: Feed<Expense>, q: Query, limit: nat, start: nat, p: nat)
    ensures var goal := EnoughAt(Matching(q, feed.list), feed.list, limit, start, start);
      FailsAt(goal, feed.failing, limit, start, 0, p) <==> FailedRequest(feed, q, limit, start, p)
  {
    AfterIsProduct(start, limit, p);
    EnoughIff(Matching(q, feed.list), feed.list, limit, start, start, start + limit * p);
  }

  /** A call fails exactly when one of the requests it makes fails. */
  lemma {:induction false} CallFailsIff(feed: Feed<Expense>, q: Query, limit: nat, start: nat)
    requires limit > 0
    ensures ListingOrError(feed, Matching(q, feed.list), limit, start).Err?
       <==> exists p: nat :: p < MAX_PAGES && FailedRequest(feed, q, limit, start, p)
  {
    var goal := EnoughAt(Matching(q, feed.list), feed.list, limit, start, start);
    ScanFailsIff(goal, feed.failing, limit, start, 0);
    forall p: nat
      ensures FailsAt(goal, feed.failing, limit, start, 0, p) <==> FailedRequest(feed, q, limit, start, p)
    {
      FailsAtMeaning(feed, q, limit, start, p);
    }
    if p: nat :| p < MAX_PAGES && FailedRequest(feed, q, limit, start, p) {
      assert FailsAt(goal, feed.failing, limit, start, 0, p);
    }
  }
}
