/** The upstream list: Spliit's paging contract, bounded scans through it, and the
    plain filter such scans are compared with. */
module Paging {
  import opened Wrappers
  import opened Lists

  /** What Spliit answers to one request for a page. */
  datatype Reply<T> = Reply(entries: seq<T>, hasMore: bool, nextCursor: nat)

  /** A group's entries as one call sees them: the list, newest first and already
      narrowed to the title filter, and the numbers of the call's requests that
      fail. */
  datatype Feed<T> = Feed(list: seq<T>, failing: set<nat>)

  function Min(a: nat, b: nat): nat {
    if a < b then a else b
  }

  /** The assumed contract of `groups.expenses.list`: contiguous blocks, and a
      cursor that counts entries. */
  function Serve<T>(list: seq<T>, limit: nat, cursor: Option<nat>): Reply<T> {
    var from := if cursor.None? then 0 else cursor.value;
    Reply(list[Min(from, |list|)..Min(from + limit, |list|)], from + limit < |list|, from + limit)
  }

  // ---------------------------------------------------------------------
  // The plain filter

  /** The entry at a position, if it is wanted there. */
  function WantedAt<T>(wanted: set<nat>, list: seq<T>, i: nat): seq<T> {
    if i in wanted && i < |list| then [list[i]] else []
  }

  /** The entries at the wanted positions from `lo` to before `hi`, in order. */
  function Found<T>(wanted: set<nat>, list: seq<T>, lo: nat, hi: nat): seq<T> {
    if hi <= lo then [] else Found(wanted, list, lo, hi - 1) + WantedAt(wanted, list, hi - 1)
  }

  function Take<T>(n: nat, s: seq<T>): seq<T> {
    if |s| <= n then s else s[..n]
  }

  lemma {:induction false} FoundNext<T>(wanted: set<nat>, list: seq<T>, lo: nat, hi: nat)
    requires lo <= hi
    ensures Found(wanted, list, lo, hi + 1)
         == if hi in wanted && hi < |list| then Found(wanted, list, lo, hi) + [list[hi]]
            else Found(wanted, list, lo, hi)
  {
  }

  lemma {:induction false} FoundNextIff<T>(wanted: set<nat>, list: seq<T>, lo: nat, at: nat, e: T, likely: bool)
    requires lo <= at < |list| && list[at] == e && (at in wanted <==> likely)
    ensures Found(wanted, list, lo, at + 1)
         == if likely then Found(wanted, list, lo, at) + [e] else Found(wanted, list, lo, at)
  {
    FoundNext(wanted, list, lo, at);
  }

  lemma {:induction false} FoundLonger<T>(wanted: set<nat>, list: seq<T>, lo: nat, mid: nat, hi: nat)
    requires lo <= mid <= hi
    ensures Found(wanted, list, lo, hi) == Found(wanted, list, lo, mid) + Found(wanted, list, mid, hi)
  {
    if mid < hi {
      FoundLonger(wanted, list, lo, mid, hi - 1);
    }
  }

  /** Nothing is found where nothing is wanted, or past the end. */
  lemma {:induction false} FoundNothing<T>(wanted: set<nat>, list: seq<T>, lo: nat, hi: nat)
    requires forall i: nat :: lo <= i < hi && i < |list| ==> i !in wanted
    ensures Found(wanted, list, lo, hi) == []
  {
    if lo < hi {
      FoundNothing(wanted, list, lo, hi - 1);
    }
  }

  lemma {:induction false} FoundBarely<T>(wanted: set<nat>, list: seq<T>, lo: nat, mid: nat, hi: nat)
    requires lo <= mid <= hi
    requires forall i: nat :: mid <= i < hi && i < |list| ==> i !in wanted
    ensures Found(wanted, list, lo, hi) == Found(wanted, list, lo, mid)
  {
    FoundLonger(wanted, list, lo, mid, hi);
    FoundNothing(wanted, list, mid, hi);
  }

  lemma {:induction false} FoundToEnd<T>(wanted: set<nat>, list: seq<T>, lo: nat, hi: nat)
    requires |list| <= hi
    ensures Found(wanted, list, lo, hi) == Found(wanted, list, lo, |list|)
  {
    if lo <= |list| {
      FoundBarely(wanted, list, lo, |list|, hi);
    } else {
      FoundNothing(wanted, list, lo, hi);
    }
  }

  lemma {:induction false} FoundEverything<T>(wanted: set<nat>, list: seq<T>, lo: nat, hi: nat)
    requires lo <= hi <= |list|
    requires forall i: nat :: lo <= i < hi ==> i in wanted
    ensures Found(wanted, list, lo, hi) == list[lo..hi]
  {
    if lo < hi {
      FoundEverything(wanted, list, lo, hi - 1);
      assert list[lo..hi] == list[lo..hi - 1] + [list[hi - 1]];
    }
  }

  /** What is found stood at a wanted position. */
  lemma {:induction false} FoundSource<T>(wanted: set<nat>, list: seq<T>, lo: nat, hi: nat, k: nat) returns (i: nat)
    requires k < |Found(wanted, list, lo, hi)|
    ensures lo <= i < hi && i < |list| && i in wanted && list[i] == Found(wanted, list, lo, hi)[k]
  {
    if k < |Found(wanted, list, lo, hi - 1)| {
      i := FoundSource(wanted, list, lo, hi - 1, k);
    } else {
      i := hi - 1;
    }
  }

  /** `out` holds, in order, what stands at the places `pos`, and these are exactly the
      wanted positions from `lo` to before `hi`. */
  ghost predicate Places<T>(wanted: set<nat>, list: seq<T>, lo: nat, hi: nat, out: seq<T>, pos: seq<nat>) {
    && |pos| == |out| && Increasing(pos)
    && (forall k :: 0 <= k < |pos| ==> pos[k] < |list| && out[k] == list[pos[k]])
    && forall i: nat :: i in pos <==> lo <= i < hi && i < |list| && i in wanted
  }

  lemma {:induction false} OnePlaceMore<T>(
    wanted: set<nat>, list: seq<T>, lo: nat, hi: nat, out: seq<T>, pos: seq<nat>)
    requires lo <= hi < |list| && hi in wanted && Places(wanted, list, lo, hi, out, pos)
    ensures Places(wanted, list, lo, hi + 1, out + [list[hi]], pos + [hi])
  {
    var next := pos + [hi];
    forall i: nat ensures i in next <==> lo <= i < hi + 1 && i < |list| && i in wanted {
      assert next[|pos|] == hi;
      assert i in next <==> i in pos || i == hi;
    }
    forall i, j | 0 <= i < j < |next| ensures next[i] < next[j] {
      assert next[i] in pos;
    }
  }

  lemma {:induction false} NoPlaceMore<T>(
    wanted: set<nat>, list: seq<T>, lo: nat, hi: nat, out: seq<T>, pos: seq<nat>)
    requires !(hi in wanted && hi < |list|) && Places(wanted, list, lo, hi, out, pos)
    ensures Places(wanted, list, lo, hi + 1, out, pos)
  {
  }

  /** The plain filter finds exactly the wanted positions, in order. */
  lemma {:induction false} FoundPlaces<T>(wanted: set<nat>, list: seq<T>, lo: nat, hi: nat) returns (pos: seq<nat>)
    ensures Places(wanted, list, lo, hi, Found(wanted, list, lo, hi), pos)
  {
    if hi <= lo {
      pos := [];
    } else {
      var last := hi - 1;
      pos := FoundPlaces(wanted, list, lo, last);
      FoundNext(wanted, list, lo, last);
      if last in wanted && last < |list| {
        OnePlaceMore(wanted, list, lo, last, Found(wanted, list, lo, last), pos);
        pos := pos + [last];
      } else {
        NoPlaceMore(wanted, list, lo, last, Found(wanted, list, lo, last), pos);
      }
    }
  }

  lemma {:induction false} PlacesJoin<T>(
    wanted: set<nat>, list: seq<T>, lo: nat, mid: nat, hi: nat, a: seq<T>, b: seq<T>, pa: seq<nat>, pb: seq<nat>)
    requires lo <= mid <= hi && Places(wanted, list, lo, mid, a, pa) && Places(wanted, list, mid, hi, b, pb)
    ensures Places(wanted, list, lo, hi, a + b, pa + pb)
  {
    var pos := pa + pb;
    forall i: nat ensures i in pos <==> lo <= i < hi && i < |list| && i in wanted {
      assert i in pos <==> i in pa || i in pb;
    }
    forall i, j | 0 <= i < j < |pos| ensures pos[i] < pos[j] {
      assert i < |pa| ==> pa[i] in pa;
      assert j >= |pa| ==> pb[j - |pa|] in pb;
    }
  }

  lemma {:induction false} TakeLonger<T>(n: nat, s: seq<T>, t: seq<T>)
    ensures |Take(n, s)| == Min(n, |s|)
    ensures |s| >= n ==> Take(n, s + t) == Take(n, s)
    ensures |s| <= n ==> Take(n, s) == s
  {
    if |s| >= n {
      assert (s + t)[..n] == s[..n];
    }
  }

  lemma {:induction false} TakeParts<T>(limit: nat, before: seq<T>, all: seq<T>) returns (skipped: seq<T>)
    requires before <= all && |before| <= limit
    ensures Take(limit, all) + skipped == all && before <= Take(limit, all)
    ensures skipped != [] ==> |Take(limit, all)| == limit
  {
    skipped := all[|Take(limit, all)|..];
  }

  // ---------------------------------------------------------------------
  // Bounded scans

  const MAX_PAGES: nat := 10

  /** Where a scan in blocks of `limit` ends that has read `pages` of them up to
      `cursor`: at the first block end that reaches `goal`, or after ten blocks. */
  function ScanEnd(goal: nat, limit: nat, cursor: nat, pages: nat): (end: nat)
    ensures end >= cursor + limit
    decreases MAX_PAGES - pages, limit
  {
    if cursor + limit >= goal || pages + 1 >= MAX_PAGES then cursor + limit
    else ScanEnd(goal, limit, cursor + limit, pages + 1)
  }

  /** The same, but nowhere when the scan comes to a request that fails. */
  function Scan(goal: nat, failing: set<nat>, limit: nat, cursor: nat, pages: nat): Option<nat>
    decreases MAX_PAGES - pages, limit
  {
    if pages in failing then None
    else if cursor + limit >= goal || pages + 1 >= MAX_PAGES then Some(cursor + limit)
    else Scan(goal, failing, limit, cursor + limit, pages + 1)
  }

  lemma {:induction false} ScanIsScanEnd(goal: nat, failing: set<nat>, limit: nat, cursor: nat, pages: nat)
    ensures var end := Scan(goal, failing, limit, cursor, pages);
      end.Some? ==> end.value == ScanEnd(goal, limit, cursor, pages)
    ensures failing == {} ==> Scan(goal, failing, limit, cursor, pages).Some?
    decreases MAX_PAGES - pages, limit
  {
    if pages !in failing && cursor + limit < goal && pages + 1 < MAX_PAGES {
      ScanIsScanEnd(goal, failing, limit, cursor + limit, pages + 1);
    }
  }

  /** The cursor `k` blocks on. */
  function After(cursor: nat, limit: nat, k: nat): nat
    decreases k, limit
  {
    if k == 0 then cursor else After(cursor + limit, limit, k - 1)
  }

  /** A scan ends a whole number of blocks on, at most the ten. Its last block is
      the first to reach the goal, or the tenth. */
  lemma {:induction false} ScanEndMeaning(goal: nat, limit: nat, cursor: nat, pages: nat)
    returns (blocks: nat, last: nat)
    requires pages < MAX_PAGES
    ensures last + limit == ScanEnd(goal, limit, cursor, pages) && last >= cursor
    ensures 1 <= blocks <= MAX_PAGES - pages && last + limit == After(cursor, limit, blocks)
    ensures last == cursor || last < goal
    ensures last + limit >= goal || blocks == MAX_PAGES - pages
    decreases MAX_PAGES - pages, limit
  {
    if cursor + limit >= goal || pages + 1 >= MAX_PAGES {
      blocks, last := 1, cursor;
      assert After(cursor, limit, blocks) == After(cursor + limit, limit, 0);
    } else {
      blocks, last := ScanEndMeaning(goal, limit, cursor + limit, pages + 1);
      blocks := blocks + 1;
    }
  }

  lemma {:induction false} AfterIsProduct(cursor: nat, limit: nat, k: nat)
    ensures After(cursor, limit, k) == cursor + limit * k
    decreases k
  {
    if k > 0 {
      AfterIsProduct(cursor + limit, limit, k - 1);
      assert limit * k == limit + limit * (k - 1);
    }
  }

  /** One of the requests a scan comes to fails: the first, or one whose block starts
      before the goal. */
  predicate ComesToFailure(goal: nat, failing: set<nat>, limit: nat, cursor: nat, pages: nat) {
    exists p :: pages <= p < MAX_PAGES && FailsAt(goal, failing, limit, cursor, pages, p)
  }

  predicate FailsAt(goal: nat, failing: set<nat>, limit: nat, cursor: nat, pages: nat, p: nat)
    requires pages <= p
  {
    p in failing && (p == pages || After(cursor, limit, p - pages) < goal)
  }

  lemma {:induction false} AfterGrows(cursor: nat, limit: nat, k: nat)
    ensures After(cursor, limit, k) >= cursor
    decreases k
  {
    if k > 0 {
      AfterGrows(cursor + limit, limit, k - 1);
    }
  }

  lemma {:induction false} OneBlockOn(goal: nat, failing: set<nat>, limit: nat, cursor: nat, pages: nat, p: nat)
    requires cursor + limit < goal && pages + 1 <= p
    ensures FailsAt(goal, failing, limit, cursor, pages, p)
       <==> FailsAt(goal, failing, limit, cursor + limit, pages + 1, p)
  {
    assert After(cursor, limit, p - pages) == After(cursor + limit, limit, p - pages - 1);
    assert p == pages + 1 ==> After(cursor + limit, limit, p - pages - 1) == cursor + limit;
  }

  lemma {:induction false} ScanFailsIff(goal: nat, failing: set<nat>, limit: nat, cursor: nat, pages: nat)
    requires pages < MAX_PAGES
    ensures Scan(goal, failing, limit, cursor, pages) == None <==> ComesToFailure(goal, failing, limit, cursor, pages)
    decreases MAX_PAGES - pages
  {
    if pages in failing {
      assert FailsAt(goal, failing, limit, cursor, pages, pages);
    } else if cursor + limit < goal && pages + 1 < MAX_PAGES {
      ScanFailsIff(goal, failing, limit, cursor + limit, pages + 1);
      forall p | pages + 1 <= p < MAX_PAGES
        ensures FailsAt(goal, failing, limit, cursor, pages, p)
           <==> FailsAt(goal, failing, limit, cursor + limit, pages + 1, p)
      {
        OneBlockOn(goal, failing, limit, cursor, pages, p);
      }
      assert !FailsAt(goal, failing, limit, cursor, pages, pages);
      var next, later := cursor + limit, pages + 1;
      if p :| later <= p < MAX_PAGES && FailsAt(goal, failing, limit, next, later, p) {
        assert FailsAt(goal, failing, limit, cursor, pages, p);
      }
    } else {
      forall p | pages + 1 <= p < MAX_PAGES ensures !FailsAt(goal, failing, limit, cursor, pages, p) {
        AfterGrows(cursor + limit, limit, p - pages - 1);
      }
    }
  }
}
