/** The `list_expenses` tool: pages are fetched and filtered here, because Spliit
    itself can only filter by title. */
module Listings {
  import opened Wrappers
  import opened Spliit
  import opened Paging

  /** The participant filters, as IDs. An empty ID filters nothing. */
  datatype Query = Query(payer: string, involved: string)

  /** One of the first `k` shares is the participant's. */
  predicate SharesIn(e: Expense, id: string, k: nat)
    requires k <= |e.paidFor|
  {
    k > 0 && ((e.paidFor[k - 1].Some? && e.paidFor[k - 1].value.participantId == id) || SharesIn(e, id, k - 1))
  }

  predicate Matches(q: Query, e: Expense) {
    && (q.payer != "" ==> e.paidById == q.payer)
    && (q.involved != "" ==> SharesIn(e, q.involved, |e.paidFor|))
  }

  /** The positions of the matching expenses. */
  function Matching(q: Query, list: seq<Expense>): set<nat> {
    set i: nat | i < |list| && Matches(q, list[i])
  }

  function ClampLimit(limit: int): (r: nat)
    ensures 1 <= r <= 100
  {
    if limit <= 0 then 20 else if limit > 100 then 100 else limit
  }

  datatype Listing<T> = Listing(entries: seq<T>, hasMore: bool, nextCursor: nat)

  datatype ListError = Unavailable

  /** The first position from `cursor` on up to which there are enough matches or
      nothing is left. */
  function EnoughAt<T>(wanted: set<nat>, list: seq<T>, limit: nat, start: nat, cursor: nat): (r: nat)
    ensures r >= cursor
    decreases if cursor < |list| then |list| - cursor else 0
  {
    if |Found(wanted, list, start, cursor)| >= limit || cursor >= |list| then cursor
    else EnoughAt(wanted, list, limit, start, cursor + 1)
  }

  /** The first `limit` matches between the cursor and the end of a scan. */
  function ListingUpTo<T>(wanted: set<nat>, list: seq<T>, limit: nat, start: nat, end: nat): Listing<T> {
    Listing(Take(limit, Found(wanted, list, start, end)), end < |list|, end)
  }

  /** The listing a call returns when all its requests are answered: the scan goes
      on, block by block, until there are enough matches. */
  function ListingFor<T>(wanted: set<nat>, list: seq<T>, limit: nat, start: nat): Listing<T> {
    ListingUpTo(wanted, list, limit, start, ScanEnd(EnoughAt(wanted, list, limit, start, start), limit, start, 0))
  }

  /** The listing, unless a request the scan makes fails. */
  function ListingOrError<T>(feed: Feed<T>, wanted: set<nat>, limit: nat, start: nat): Result<Listing<T>, ListError> {
    match Scan(EnoughAt(wanted, feed.list, limit, start, start), feed.failing, limit, start, 0)
    case None => Err(Unavailable)
    case Some(end) => Ok(ListingUpTo(wanted, feed.list, limit, start, end))
  }

  /** A call that succeeds returns that listing, and one whose requests are all
      answered succeeds. */
  lemma {:induction false} AnsweredListing<T>(feed: Feed<T>, wanted: set<nat>, limit: nat, start: nat)
    ensures var r := ListingOrError(feed, wanted, limit, start);
      r.Ok? ==> r.value == ListingFor(wanted, feed.list, limit, start)
    ensures feed.failing == {} ==> ListingOrError(feed, wanted, limit, start).Ok?
  {
    ScanIsScanEnd(EnoughAt(wanted, feed.list, limit, start, start), feed.failing, limit, start, 0);
  }

  lemma {:induction false} FoundMore<T>(wanted: set<nat>, list: seq<T>, start: nat, mid: nat, hi: nat)
    requires start <= mid <= hi
    ensures Found(wanted, list, start, mid) <= Found(wanted, list, start, hi)
  {
    FoundLonger(wanted, list, start, mid, hi);
  }

  /** There is enough at a position exactly when it is past the goal. */
  lemma {:induction false} EnoughIff<T>(wanted: set<nat>, list: seq<T>, limit: nat, start: nat, cursor: nat, at: nat)
    requires start <= cursor <= at
    ensures at >= EnoughAt(wanted, list, limit, start, cursor)
       <==> |Found(wanted, list, start, at)| >= limit || at >= |list|
    decreases if cursor < |list| then |list| - cursor else 0
  {
    FoundMore(wanted, list, start, cursor, at);
    if |Found(wanted, list, start, cursor)| < limit && cursor < |list| && cursor < at {
      EnoughIff(wanted, list, limit, start, cursor + 1, at);
    }
  }

  // ---------------------------------------------------------------------
  // The tool

  /** `sharesIn` */
  method FindShare(e: Expense, id: string) returns (r: bool)
    ensures r == SharesIn(e, id, |e.paidFor|)
  {
    for i := 0 to |e.paidFor|
      invariant !SharesIn(e, id, i)
    {
      if e.paidFor[i].Some? && e.paidFor[i].value.participantId == id {
        SharesInMore(e, id, i + 1, |e.paidFor|);
        return true;
      }
    }
    return false;
  }

  lemma {:induction false} SharesInMore(e: Expense, id: string, i: nat, k: nat)
    requires i <= k <= |e.paidFor| && SharesIn(e, id, i)
    ensures SharesIn(e, id, k)
  {
    if i < k {
      SharesInMore(e, id, i, k - 1);
    }
  }

  /** The two `continue` tests of the filter loop. */
  method Wants(q: Query, e: Expense) returns (wanted: bool)
    ensures wanted == Matches(q, e)
  {
    if q.payer != "" && e.paidById != q.payer {
      return false;
    }
    wanted := true;
    if q.involved != "" {
      wanted := FindShare(e, q.involved);
    }
  }

  /** Adds one block's matches until the limit is met. */
  method TakeBlock(q: Query, block: seq<Expense>, limit: nat, soFar: seq<Expense>,
                   ghost list: seq<Expense>, ghost wanted: set<nat>, ghost start: nat, ghost lo: nat)
    returns (out: seq<Expense>)
    requires wanted == Matching(q, list)
    requires start <= lo && |block| == Min(lo + limit, |list|) - Min(lo, |list|)
    requires forall i :: 0 <= i < |block| ==> block[i] == list[lo + i]
    requires soFar == Found(wanted, list, start, lo) && |soFar| < limit
    ensures out == Take(limit, Found(wanted, list, start, lo + limit))
  {
    out := soFar;
    ghost var at := lo;
    for i := 0 to |block|
      invariant at == lo + i && out == Found(wanted, list, start, at) && |out| < limit
    {
      var e := block[i];
      var wants := Wants(q, e);
      FoundNextIff(wanted, list, start, at, e, wants);
      at := at + 1;
      if !wants {
        continue;
      }
      out := out + [e];
      if |out| == limit {
        BlockFull(wanted, list, start, at, lo + limit, limit, out);
        return;
      }
    }
    BlockIsAll(wanted, list, start, lo, limit, |block|, out);
  }

  lemma {:induction false} BlockFull<T>(
    wanted: set<nat>, list: seq<T>, start: nat, at: nat, hi: nat, limit: nat, out: seq<T>)
    requires start <= at <= hi && out == Found(wanted, list, start, at) && |out| == limit
    ensures out == Take(limit, Found(wanted, list, start, hi))
  {
    FoundLonger(wanted, list, start, at, hi);
    TakeLonger(limit, out, Found(wanted, list, at, hi));
  }

  /** A block short of the limit is the last one: nothing is found after it. */
  lemma {:induction false} BlockIsAll<T>(
    wanted: set<nat>, list: seq<T>, start: nat, lo: nat, limit: nat, n: nat, out: seq<T>)
    requires start <= lo && n == Min(lo + limit, |list|) - Min(lo, |list|)
    requires out == Found(wanted, list, start, lo + n) && |out| <= limit
    ensures out == Take(limit, Found(wanted, list, start, lo + limit))
  {
    FoundBarely(wanted, list, start, lo + n, lo + limit);
  }

  /** The cursor as Spliit reads it: one that is not positive is not sent. */
  function Position(cursor: int): nat {
    if cursor > 0 then cursor else 0
  }

  /** One turn of the paging loop: a request, and its matches added. */
  method FetchPage(list: seq<Expense>, q: Query, limit: nat, cursor: int, soFar: seq<Expense>, ghost start: nat)
    returns (out: seq<Expense>, more: bool, next: nat)
    requires start <= Position(cursor)
    requires soFar == Found(Matching(q, list), list, start, Position(cursor)) && |soFar| < limit
    ensures next == Position(cursor) + limit && more == (next < |list|)
    ensures out == Take(limit, Found(Matching(q, list), list, start, next))
  {
    var reply := Serve(list, limit, if cursor > 0 then Some(cursor as nat) else None);
    more, next := reply.hasMore, reply.nextCursor;
    out := TakeBlock(q, reply.entries, limit, soFar, list, Matching(q, list), start, Position(cursor));
  }

  /** A full or final page is exactly one that reaches the goal. */
  lemma {:induction false} PageSettles<T>(
    wanted: set<nat>, list: seq<T>, limit: nat, start: nat, out: seq<T>, next: nat)
    requires start <= next && out == Take(limit, Found(wanted, list, start, next))
    ensures next >= EnoughAt(wanted, list, limit, start, start) <==> |out| == limit || next >= |list|
    ensures |out| <= limit && (|out| < limit ==> out == Found(wanted, list, start, next))
  {
    TakeLonger(limit, Found(wanted, list, start, next), []);
    EnoughIff(wanted, list, limit, start, start, next);
  }

  /** `list_expenses` once its filters are resolved: pages are fetched until the
      limit is met, the list ends, or ten pages have been read. */
  method ListExpenses(feed: Feed<Expense>, q: Query, limitArg: int, cursorArg: int)
    returns (r: Result<Listing<Expense>, ListError>)
    ensures r == ListingOrError(feed, Matching(q, feed.list), ClampLimit(limitArg), Position(cursorArg))
  {
    var limit := ClampLimit(limitArg);
    ghost var start, wanted := Position(cursorArg), Matching(q, feed.list);
    ghost var goal := EnoughAt(wanted, feed.list, limit, start, start);
    ghost var end := Scan(goal, feed.failing, limit, start, 0);
    var out, more, next := [], Position(cursorArg) < |feed.list|, Position(cursorArg);
    var cursor := cursorArg;
    var page := 0;
    while page < MAX_PAGES
      invariant 0 <= page <= MAX_PAGES && start <= next == Position(cursor)
      invariant more == (next < |feed.list|)
      invariant page < MAX_PAGES ==> Scan(goal, feed.failing, limit, next, page) == end
      invariant page < MAX_PAGES ==> out == Found(wanted, feed.list, start, next) && |out| < limit
      invariant page == MAX_PAGES ==> end == Some(next) && out == Take(limit, Found(wanted, feed.list, start, next))
    {
      if page in feed.failing {
        return Err(Unavailable);
      }
      out, more, next := FetchPage(feed.list, q, limit, cursor, out, start);
      PageSettles(wanted, feed.list, limit, start, out, next);
      if |out| == limit || !more {
        break;
      }
      cursor := next;
      page := page + 1;
    }
    r := Ok(Listing(out, more, next));
  }

  // ---------------------------------------------------------------------
  // What one reply holds

  /** The blocks a reply reads: the last is the first to make enough, or the tenth. */
  lemma {:induction false} ReplyBlocks<T>(wanted: set<nat>, list: seq<T>, limit: nat, start: nat)
    returns (blocks: nat, last: nat)
    requires limit > 0
    ensures ListingFor(wanted, list, limit, start) == ListingUpTo(wanted, list, limit, start, last + limit)
    ensures start <= last && last + limit == After(start, limit, blocks) && 1 <= blocks <= MAX_PAGES
    ensures |Found(wanted, list, start, last)| <= limit
    ensures last == start || (last < |list| && |Found(wanted, list, start, last)| < limit)
    ensures |Found(wanted, list, start, last + limit)| >= limit || last + limit >= |list| || blocks == MAX_PAGES
  {
    var goal := EnoughAt(wanted, list, limit, start, start);
    blocks, last := ScanEndMeaning(goal, limit, start, 0);
    EnoughIff(wanted, list, limit, start, start, last);
    EnoughIff(wanted, list, limit, start, start, last + limit);
  }

  /** With `last` the start of the last block read: the reply is the first `limit`
      matches from the cursor to the end of that block, whose end is the next
      cursor. The matches it leaves out all lie in the last block, after the
      limit-th match; a short reply leaves none out, and then the list has ended
      or ten whole blocks were read. */
  lemma {:induction false} ReplyMeaning<T>(wanted: set<nat>, list: seq<T>, limit: nat, start: nat)
    returns (blocks: nat, last: nat, skipped: seq<T>)
    requires limit > 0
    ensures var r := ListingFor(wanted, list, limit, start);
      && start <= last && r.nextCursor == last + limit == After(start, limit, blocks)
      && (last == start || (last < |list| && |Found(wanted, list, start, last)| < limit))
      && 1 <= blocks <= MAX_PAGES
      && r.entries + skipped == Found(wanted, list, start, r.nextCursor)
      && Found(wanted, list, start, last) <= r.entries && |r.entries| <= limit
      && (skipped != [] ==> |r.entries| == limit)
      && (|r.entries| < limit ==> !r.hasMore || blocks == MAX_PAGES)
      && (r.hasMore <==> r.nextCursor < |list|)
  {
    blocks, last := ReplyBlocks(wanted, list, limit, start);
    var next := last + limit;
    FoundMore(wanted, list, start, last, next);
    skipped := TakeParts(limit, Found(wanted, list, start, last), Found(wanted, list, start, next));
    TakeLonger(limit, Found(wanted, list, start, next), []);
  }

  // ---------------------------------------------------------------------
  // Following the cursor

  /** Everything a caller collects by following the cursor until there is no
      more. */
  function Follow<T>(wanted: set<nat>, list: seq<T>, limit: nat, cursor: nat): seq<T>
    requires limit > 0
    decreases if cursor < |list| then |list| - cursor else 0
  {
    var r := ListingFor(wanted, list, limit, cursor);
    if !r.hasMore then r.entries else r.entries + Follow(wanted, list, limit, r.nextCursor)
  }

  /** No reply on the way leaves a match out. */
  predicate NothingSkipped<T>(wanted: set<nat>, list: seq<T>, limit: nat, cursor: nat)
    requires limit > 0
    decreases if cursor < |list| then |list| - cursor else 0
  {
    var r := ListingFor(wanted, list, limit, cursor);
    && |Found(wanted, list, cursor, r.nextCursor)| <= limit
    && (r.hasMore ==> NothingSkipped(wanted, list, limit, r.nextCursor))
  }

  /** Two parts, neither longer than its counterpart, make the same whole only
      when both are the same. */
  lemma {:induction false} SplitEqual<T>(a: seq<T>, b: seq<T>, c: seq<T>, d: seq<T>)
    requires |a| <= |c| && |b| <= |d|
    ensures a + b == c + d <==> a == c && b == d
  {
    if a + b == c + d {
      assert |a + b| == |a| + |b|;
      assert a == (a + b)[..|a|] && c == (c + d)[..|c|];
      assert b == (a + b)[|a|..] && d == (c + d)[|c|..];
    }
  }

  lemma {:induction false} FollowLosslessByReply<T>(wanted: set<nat>, list: seq<T>, limit: nat, cursor: nat)
    requires limit > 0
    ensures |Follow(wanted, list, limit, cursor)| <= |Found(wanted, list, cursor, |list|)|
    ensures Follow(wanted, list, limit, cursor) == Found(wanted, list, cursor, |list|)
       <==> NothingSkipped(wanted, list, limit, cursor)
    decreases if cursor < |list| then |list| - cursor else 0
  {
    var next := ListingFor(wanted, list, limit, cursor).nextCursor;
    var here := Found(wanted, list, cursor, next);
    TakeLonger(limit, here, []);
    if next < |list| {
      FollowLosslessByReply(wanted, list, limit, next);
      FoundLonger(wanted, list, cursor, next, |list|);
      SplitEqual(Take(limit, here), Follow(wanted, list, limit, next), here, Found(wanted, list, next, |list|));
    } else {
      FoundToEnd(wanted, list, cursor, next);
    }
  }

  /** How many of the positions from `lo` to before `hi` are wanted. */
  function Tally(wanted: set<nat>, size: nat, lo: nat, hi: nat): nat {
    if hi <= lo then 0
    else Tally(wanted, size, lo, hi - 1) + (if hi - 1 in wanted && hi - 1 < size then 1 else 0)
  }

  /** Cut into blocks of `limit` from the cursor on, the list has no block that takes
      the matches past `limit`. They are counted from `n` in `pages` blocks, and anew
      after a block that makes them exactly `limit`, or that is the tenth. */
  predicate BlocksFit(wanted: set<nat>, size: nat, limit: nat, cursor: nat, n: nat, pages: nat)
    requires limit > 0
    decreases if cursor < size then size - cursor else 0
  {
    var next := cursor + limit;
    var m := n + Tally(wanted, size, cursor, next);
    && m <= limit
    && (next < size ==>
          if m == limit || pages + 1 >= MAX_PAGES then BlocksFit(wanted, size, limit, next, 0, 0)
          else BlocksFit(wanted, size, limit, next, m, pages + 1))
  }

  lemma {:induction false} TallyOfFound<T>(wanted: set<nat>, list: seq<T>, lo: nat, hi: nat)
    ensures |Found(wanted, list, lo, hi)| == Tally(wanted, |list|, lo, hi)
  {
    if lo < hi {
      TallyOfFound(wanted, list, lo, hi - 1);
    }
  }

  lemma {:induction false} TallyLonger(wanted: set<nat>, size: nat, lo: nat, mid: nat, hi: nat)
    requires lo <= mid <= hi
    ensures Tally(wanted, size, lo, hi) == Tally(wanted, size, lo, mid) + Tally(wanted, size, mid, hi)
  {
    if mid < hi {
      TallyLonger(wanted, size, lo, mid, hi - 1);
    }
  }

  /** `goal` is where a scan from `start` has enough matches or nothing is left. */
  ghost predicate IsGoal(wanted: set<nat>, size: nat, limit: nat, start: nat, goal: nat) {
    forall at: nat :: start <= at ==> (at >= goal <==> Tally(wanted, size, start, at) >= limit || at >= size)
  }

  lemma {:induction false} EnoughIsGoal<T>(wanted: set<nat>, list: seq<T>, limit: nat, start: nat)
    ensures IsGoal(wanted, |list|, limit, start, EnoughAt(wanted, list, limit, start, start))
  {
    forall at: nat | start <= at
      ensures at >= EnoughAt(wanted, list, limit, start, start)
         <==> Tally(wanted, |list|, start, at) >= limit || at >= |list|
    {
      EnoughIff(wanted, list, limit, start, start, at);
      TallyOfFound(wanted, list, start, at);
    }
  }

  /** Within one reply, the blocks fit exactly when the reply leaves nothing out. */
  lemma {:induction false} ReplyFits(
    wanted: set<nat>, size: nat, limit: nat, start: nat, goal: nat, cursor: nat, pages: nat)
    requires limit > 0 && start <= cursor && pages < MAX_PAGES && IsGoal(wanted, size, limit, start, goal)
    requires Tally(wanted, size, start, cursor) < limit
    ensures var end := ScanEnd(goal, limit, cursor, pages);
      BlocksFit(wanted, size, limit, cursor, Tally(wanted, size, start, cursor), pages) <==>
        Tally(wanted, size, start, end) <= limit && (end < size ==> BlocksFit(wanted, size, limit, end, 0, 0))
    decreases MAX_PAGES - pages
  {
    var next := cursor + limit;
    TallyLonger(wanted, size, start, cursor, next);
    assert next >= goal <==> Tally(wanted, size, start, next) >= limit || next >= size;
    if next < goal && pages + 1 < MAX_PAGES {
      ReplyFits(wanted, size, limit, start, goal, next, pages + 1);
    }
  }

  lemma {:induction false} NothingSkippedIff<T>(wanted: set<nat>, list: seq<T>, limit: nat, cursor: nat)
    requires limit > 0
    ensures NothingSkipped(wanted, list, limit, cursor) <==> BlocksFit(wanted, |list|, limit, cursor, 0, 0)
    decreases if cursor < |list| then |list| - cursor else 0
  {
    var next := ListingFor(wanted, list, limit, cursor).nextCursor;
    EnoughIsGoal(wanted, list, limit, cursor);
    ReplyFits(wanted, |list|, limit, cursor, EnoughAt(wanted, list, limit, cursor, cursor), cursor, 0);
    TallyOfFound(wanted, list, cursor, next);
    if next < |list| {
      NothingSkippedIff(wanted, list, limit, next);
    }
  }

  /** Following the cursor returns every match once and in order if and only if the
      blocks of the list fit. */
  lemma {:induction false} FollowLosslessIff<T>(wanted: set<nat>, list: seq<T>, limit: nat, cursor: nat)
    requires limit > 0
    ensures Follow(wanted, list, limit, cursor) == Found(wanted, list, cursor, |list|)
       <==> BlocksFit(wanted, |list|, limit, cursor, 0, 0)
  {
    FollowLosslessByReply(wanted, list, limit, cursor);
    NothingSkippedIff(wanted, list, limit, cursor);
  }

  /** With a limit of two, a block of one match and then one of two: the third match
      is never returned. */
  lemma {:induction false} MatchIsLost(q: Query, a: Expense, b: Expense)
    requires !Matches(q, a) && Matches(q, b)
    ensures var list := [a, b, b, b, a]; var wanted := Matching(q, list);
      Follow(wanted, list, 2, 0) != Found(wanted, list, 0, |list|)
  {
    var list := [a, b, b, b, a];
    var wanted := Matching(q, list);
    assert Tally(wanted, 5, 0, 2) == Tally(wanted, 5, 0, 1) + 1;
    assert Tally(wanted, 5, 0, 1) == Tally(wanted, 5, 0, 0);
    assert Tally(wanted, 5, 2, 4) == Tally(wanted, 5, 2, 3) + 1;
    assert Tally(wanted, 5, 2, 3) == Tally(wanted, 5, 2, 2) + 1;
    assert !BlocksFit(wanted, 5, 2, 2, 1, 1);
    FollowLosslessIff(wanted, list, 2, 0);
  }

  /** Without a participant filter a reply is one whole block. */
  lemma {:induction false} UnfilteredReply<T>(wanted: set<nat>, list: seq<T>, limit: nat, cursor: nat)
    requires limit > 0 && cursor <= |list| && forall i: nat :: i < |list| ==> i in wanted
    ensures ListingFor(wanted, list, limit, cursor).nextCursor == cursor + limit
    ensures |Found(wanted, list, cursor, cursor + limit)| <= limit
  {
    var next := cursor + limit;
    var hi := Min(next, |list|);
    FoundEverything(wanted, list, cursor, hi);
    if next > |list| {
      FoundToEnd(wanted, list, cursor, next);
    }
    EnoughIff(wanted, list, limit, cursor, cursor, next);
  }

  lemma {:induction false} ReplySkipsNothing<T>(wanted: set<nat>, list: seq<T>, limit: nat, cursor: nat, next: nat)
    requires limit > 0 && ListingFor(wanted, list, limit, cursor).nextCursor == next
    requires |Found(wanted, list, cursor, next)| <= limit
    ensures NothingSkipped(wanted, list, limit, cursor)
       <==> (next < |list| ==> NothingSkipped(wanted, list, limit, next))
  {
  }

  /** Without a participant filter nothing is skipped. */
  lemma {:induction false} UnfilteredSkipsNothing<T>(wanted: set<nat>, list: seq<T>, limit: nat, cursor: nat)
    requires limit > 0 && cursor <= |list| && forall i: nat :: i < |list| ==> i in wanted
    ensures NothingSkipped(wanted, list, limit, cursor)
    decreases |list| - cursor
  {
    UnfilteredReply(wanted, list, limit, cursor);
    ReplySkipsNothing(wanted, list, limit, cursor, cursor + limit);
    if cursor + limit < |list| {
      UnfilteredSkipsNothing(wanted, list, limit, cursor + limit);
    }
  }

  /** With no participant filter, following the cursor from the start returns the
      whole list. */
  lemma {:induction false} UnfilteredFollow(list: seq<Expense>, limit: nat)
    requires limit > 0
    ensures Follow(Matching(Query("", ""), list), list, limit, 0) == list
  {
    var wanted := Matching(Query("", ""), list);
    UnfilteredSkipsNothing(wanted, list, limit, 0);
    FollowLosslessByReply(wanted, list, limit, 0);
    FoundEverything(wanted, list, 0, |list|);
  }
}
