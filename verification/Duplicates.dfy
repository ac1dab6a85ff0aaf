/** Recording an expense, and the check that keeps it from being recorded twice. */
module Duplicates {
  import opened Wrappers
  import opened Money
  import opened Spliit
  import opened Paging
  import opened Expenses

  const WINDOW: int := 172_800_000_000_000
  const PAGE: nat := 50
  const DEPTH: nat := 500

  /** Dated before the window around a date, and so not worth looking past. */
  predicate TooOld(e: Expense, date: int) {
    e.date < date - WINDOW
  }

  /** Same amount, dated within two days. */
  predicate Likely(e: Expense, amount: Amount, date: int) {
    e.amount == amount && date - WINDOW <= e.date <= date + WINDOW
  }

  function LikelyAt(list: seq<Expense>, amount: Amount, date: int): set<nat> {
    set i: nat | i < |list| && Likely(list[i], amount, date)
  }

  /** The first position from `i` on whose entry is too old, or the length. */
  function OldFrom(list: seq<Expense>, date: int, i: nat): (r: nat)
    requires i <= |list|
    ensures i <= r <= |list| && (r < |list| ==> TooOld(list[r], date))
    decreases |list| - i
  {
    if i < |list| && !TooOld(list[i], date) then OldFrom(list, date, i + 1) else i
  }

  /** One of the first `k` entries of a block is too old. */
  predicate AnyOld(block: seq<Expense>, date: int, k: nat)
    requires k <= |block|
  {
    k > 0 && (TooOld(block[k - 1], date) || AnyOld(block, date, k - 1))
  }

  lemma {:induction false} AnyOldIff(list: seq<Expense>, date: int, lo: nat, block: seq<Expense>, k: nat)
    requires k <= |block| && lo + |block| <= |list|
    requires forall i :: 0 <= i < |block| ==> block[i] == list[lo + i]
    ensures AnyOld(block, date, k) <==> OldFrom(list, date, lo) < lo + k
  {
    if k > 0 {
      AnyOldIff(list, date, lo, block, k - 1);
      OldLater(list, date, lo, lo + k - 1);
    }
  }

  /** How far the check means to read: through the first entry that is too old. */
  function Goal(list: seq<Expense>, date: int): nat {
    Min(OldFrom(list, date, 0) + 1, |list|)
  }

  datatype CheckError = Unavailable

  /** What the check returns: the likely duplicates in the blocks it reads, unless
      a request fails. */
  function Check(feed: Feed<Expense>, amount: Amount, date: int): Result<seq<Expense>, CheckError> {
    match Scan(Goal(feed.list, date), feed.failing, PAGE, 0, 0)
    case None => Err(Unavailable)
    case Some(end) => Ok(Found(LikelyAt(feed.list, amount, date), feed.list, 0, end))
  }

  /** One block of the check: its likely duplicates, and whether it reaches past
      the window. */
  method CheckBlock(block: seq<Expense>, amount: Amount, date: int, soFar: seq<Expense>,
                    ghost list: seq<Expense>, ghost lo: nat, ghost wanted: set<nat>)
    returns (out: seq<Expense>, past: bool)
    requires lo + |block| <= |list| && wanted == LikelyAt(list, amount, date)
    requires forall i :: 0 <= i < |block| ==> block[i] == list[lo + i]
    requires soFar == Found(wanted, list, 0, lo)
    ensures out == Found(wanted, list, 0, lo + |block|)
    ensures past <==> OldFrom(list, date, lo) < lo + |block|
  {
    out, past := soFar, false;
    ghost var at := lo;
    for i := 0 to |block|
      invariant at == lo + i && out == Found(wanted, list, 0, at)
      invariant past <==> AnyOld(block, date, i)
    {
      var e := block[i];
      FoundNextIff(wanted, list, 0, at, e, Likely(e, amount, date));
      at := at + 1;
      if e.date < date - WINDOW {
        past := true;
        continue;
      }
      if e.date <= date + WINDOW && e.amount == amount {
        out := out + [e];
      }
    }
    AnyOldIff(list, date, lo, block, |block|);
  }

  /** One turn of the check's loop: a request, and its likely duplicates added. */
  method CheckPage(list: seq<Expense>, amount: Amount, date: int, cursor: nat, soFar: seq<Expense>,
                   ghost wanted: set<nat>)
    returns (out: seq<Expense>, past: bool, more: bool, next: nat)
    requires cursor <= |list| && wanted == LikelyAt(list, amount, date)
    requires soFar == Found(wanted, list, 0, cursor)
    ensures next == cursor + PAGE && more == (next < |list|)
    ensures out == Found(wanted, list, 0, next)
    ensures past <==> OldFrom(list, date, cursor) < Min(next, |list|)
  {
    var reply := Serve(list, PAGE, if cursor > 0 then Some(cursor) else None);
    more, next := reply.hasMore, reply.nextCursor;
    ServedBlock(list, cursor);
    out, past := CheckBlock(reply.entries, amount, date, soFar, list, cursor, wanted);
    FoundToEndOf(wanted, list, cursor + PAGE);
  }

  /** `likelyDuplicates` */
  method LikelyDuplicates(feed: Feed<Expense>, amount: Amount, date: int)
    returns (r: Result<seq<Expense>, CheckError>)
    ensures r == Check(feed, amount, date)
  {
    ghost var wanted := LikelyAt(feed.list, amount, date);
    ghost var goal := Goal(feed.list, date);
    ghost var end := Scan(goal, feed.failing, PAGE, 0, 0);
    var matches: seq<Expense> := [];
    var cursor: nat := 0;
    var page := 0;
    while page < MAX_PAGES
      invariant 0 <= page <= MAX_PAGES && cursor <= |feed.list|
      invariant page < MAX_PAGES ==> Scan(goal, feed.failing, PAGE, cursor, page) == end
      invariant page < MAX_PAGES ==> OldFrom(feed.list, date, 0) == OldFrom(feed.list, date, cursor)
      invariant matches == Found(wanted, feed.list, 0, cursor)
      invariant page == MAX_PAGES ==> end == Some(cursor)
    {
      if page in feed.failing {
        CheckFails(feed, amount, date);
        return Err(Unavailable);
      }
      var past, more, next;
      matches, past, more, next := CheckPage(feed.list, amount, date, cursor, matches, wanted);
      BlockRead(feed.list, date, feed.failing, cursor, page);
      if past || !more {
        CheckEnds(feed, amount, date, next, matches);
        return Ok(matches);
      }
      cursor := next;
      page := page + 1;
    }
    CheckEnds(feed, amount, date, cursor, matches);
    r := Ok(matches);
  }

  /** After a block that succeeds, the scan ends if the block reaches past the window
      or the list ends with it, and goes on after it otherwise. */
  lemma {:induction false} BlockRead(list: seq<Expense>, date: int, failing: set<nat>, cursor: nat, page: nat)
    requires cursor <= |list| && page < MAX_PAGES && page !in failing
    requires OldFrom(list, date, 0) == OldFrom(list, date, cursor)
    ensures var next, goal := cursor + PAGE, Goal(list, date);
      var past := OldFrom(list, date, cursor) < Min(next, |list|);
      var end := Scan(goal, failing, PAGE, cursor, page);
      if past || next >= |list| || page + 1 == MAX_PAGES then end == Some(next)
      else end == Scan(goal, failing, PAGE, next, page + 1) && OldFrom(list, date, 0) == OldFrom(list, date, next)
  {
    OldLater(list, date, cursor, Min(cursor + PAGE, |list|));
  }

  lemma {:induction false} CheckFails(feed: Feed<Expense>, amount: Amount, date: int)
    requires Scan(Goal(feed.list, date), feed.failing, PAGE, 0, 0) == None
    ensures Check(feed, amount, date) == Err(Unavailable)
  {
  }

  lemma {:induction false} CheckEnds(feed: Feed<Expense>, amount: Amount, date: int, end: nat, matches: seq<Expense>)
    requires Scan(Goal(feed.list, date), feed.failing, PAGE, 0, 0) == Some(end)
    requires matches == Found(LikelyAt(feed.list, amount, date), feed.list, 0, end)
    ensures Check(feed, amount, date) == Ok(matches)
  {
  }

  lemma {:induction false} ServedBlock<T>(list: seq<T>, cursor: nat)
    requires cursor <= |list|
    ensures var block := Serve(list, PAGE, if cursor > 0 then Some(cursor) else None).entries;
      && |block| == Min(cursor + PAGE, |list|) - cursor
      && forall i :: 0 <= i < |block| ==> block[i] == list[cursor + i]
  {
  }

  lemma {:induction false} FoundToEndOf<T>(wanted: set<nat>, list: seq<T>, hi: nat)
    ensures Found(wanted, list, 0, hi) == Found(wanted, list, 0, Min(hi, |list|))
  {
    if hi > |list| {
      FoundToEnd(wanted, list, 0, hi);
    }
  }

  lemma {:induction false} OldLater(list: seq<Expense>, date: int, i: nat, j: nat)
    requires i <= j <= |list|
    ensures OldFrom(list, date, i) >= j ==> OldFrom(list, date, i) == OldFrom(list, date, j)
    decreases j - i
  {
    if i < j && !TooOld(list[i], date) {
      OldLater(list, date, i + 1, j);
    }
  }

  // ---------------------------------------------------------------------
  // Stopping early loses nothing

  predicate NewestFirst(list: seq<Expense>) {
    forall i, j :: 0 <= i < j < |list| ==> list[i].date >= list[j].date
  }

  lemma {:induction false} AfterIs(cursor: nat, k: nat)
    ensures After(cursor, PAGE, k) == cursor + PAGE * k
    decreases k
  {
    if k > 0 {
      AfterIs(cursor + PAGE, k - 1);
    }
  }

  /** Where the check stops: having read 500 entries, or the whole list, or through
      an entry too old to matter. */
  lemma {:induction false} CheckReach(list: seq<Expense>, date: int) returns (end: nat)
    ensures end == ScanEnd(Goal(list, date), PAGE, 0, 0) && end <= DEPTH
    ensures end == DEPTH || end >= |list| || (OldFrom(list, date, 0) < end && OldFrom(list, date, 0) < |list|)
  {
    var blocks, last := ScanEndMeaning(Goal(list, date), PAGE, 0, 0);
    AfterIs(0, blocks);
    end := last + PAGE;
  }

  /** On a list that is newest first, stopping after the first block that reaches
      past the window finds exactly what reading the first 500 entries would. */
  lemma {:induction false} CheckIsPlainFilter(list: seq<Expense>, amount: Amount, date: int)
    requires NewestFirst(list)
    ensures Check(Feed(list, {}), amount, date) == Ok(Found(LikelyAt(list, amount, date), list, 0, DEPTH))
  {
    var wanted := LikelyAt(list, amount, date);
    var end := CheckReach(list, date);
    ScanIsScanEnd(Goal(list, date), {}, PAGE, 0, 0);
    FoundBarely(wanted, list, 0, end, DEPTH);
  }

  /** Whatever the order of the list, and whichever requests fail, every reported
      expense is a true match. */
  lemma {:induction false} CheckReportsOnlyMatches(feed: Feed<Expense>, amount: Amount, date: int, k: nat)
    requires Check(feed, amount, date).Ok? && k < |Check(feed, amount, date).value|
    ensures Check(feed, amount, date).value[k] in feed.list
    ensures Likely(Check(feed, amount, date).value[k], amount, date)
  {
    var end := Scan(Goal(feed.list, date), feed.failing, PAGE, 0, 0).value;
    var _ := FoundSource(LikelyAt(feed.list, amount, date), feed.list, 0, end, k);
  }

  /** The check of a newest-first list comes back empty exactly when no likely
      duplicate is among the first 500. */
  lemma {:induction false} CheckEmptyIff(list: seq<Expense>, amount: Amount, date: int)
    requires NewestFirst(list)
    ensures Check(Feed(list, {}), amount, date) == Ok([])
       <==> forall i :: 0 <= i < Min(DEPTH, |list|) ==> !Likely(list[i], amount, date)
  {
    var wanted := LikelyAt(list, amount, date);
    CheckIsPlainFilter(list, amount, date);
    if i: nat :| i < Min(DEPTH, |list|) && Likely(list[i], amount, date) {
      FoundLonger(wanted, list, 0, i, DEPTH);
      FoundLonger(wanted, list, i, i + 1, DEPTH);
      assert Found(wanted, list, i, i + 1) == Found(wanted, list, i, i) + [list[i]];
    } else {
      FoundNothing(wanted, list, 0, DEPTH);
    }
  }

  // ---------------------------------------------------------------------
  // Recording

  /** One call of `create_expense`: its input, which of its listing requests fail,
      whether Spliit takes the form, and the ID Spliit then gives the expense. */
  datatype Call = Call(setting: Setting, input: Write, allowDuplicate: bool, failing: set<nat>,
                       accepted: bool, id: string)

  datatype CreateError =
    | BadForm(form: FormError)
    | PossibleDuplicate(matches: seq<Expense>)
    | Rejected

  /** The new list is the old one with one expense more, somewhere that keeps it
      newest first. */
  predicate Inserted(list: seq<Expense>, e: Expense, after: seq<Expense>) {
    && (exists k :: 0 <= k <= |list| && after == list[..k] + [e] + list[k..])
    && (NewestFirst(list) ==> NewestFirst(after))
  }

  /** What a call answers. A check that fails does not stop the recording. */
  function Outcome(list: seq<Expense>, call: Call): Result<string, CreateError> {
    match FormFor(call.setting, call.input)
    case Err(e) => Err(BadForm(e))
    case Ok(form) =>
      var check := Check(Feed(list, call.failing), form.amount, form.date);
      if !call.allowDuplicate && check.Ok? && check.value != [] then Err(PossibleDuplicate(check.value))
      else if !call.accepted then Err(Rejected)
      else Ok(call.id)
  }

  /** The expense a call asks for. */
  function Entry(call: Call): Expense
    requires FormFor(call.setting, call.input).Ok?
  {
    Recorded(call.setting.roster, FormFor(call.setting, call.input).value, call.id)
  }

  /** What a call does to the list of a group. */
  predicate CreateStep(list: seq<Expense>, call: Call, after: seq<Expense>) {
    if Outcome(list, call).Ok? then Inserted(list, Entry(call), after) else after == list
  }

  /** A group as Spliit holds it. */
  class Upstream {
    var expenses: seq<Expense>

    constructor ()
      ensures expenses == []
    {
      expenses := [];
    }

    /** Spliit's side of recording: among equal dates the newest entry comes
        first. */
    method Insert(e: Expense)
      modifies this
      ensures Inserted(old(expenses), e, expenses)
    {
      var k := 0;
      while k < |expenses| && expenses[k].date > e.date
        invariant 0 <= k <= |expenses|
        invariant forall i :: 0 <= i < k ==> expenses[i].date > e.date
      {
        k := k + 1;
      }
      InsertKeepsOrder(expenses, k, e);
      expenses := expenses[..k] + [e] + expenses[k..];
    }

    /** `createExpense` */
    method CreateExpense(call: Call) returns (r: Result<string, CreateError>)
      modifies this
      ensures r == Outcome(old(expenses), call)
      ensures CreateStep(old(expenses), call, expenses)
    {
      var form := BuildExpenseForm(call.setting, call.input);
      if form.Err? {
        return Err(BadForm(form.error));
      }
      if !call.allowDuplicate {
        var check := LikelyDuplicates(Feed(expenses, call.failing), form.value.amount, form.value.date);
        if check.Ok? && |check.value| > 0 {
          return Err(PossibleDuplicate(check.value));
        }
      }
      if !call.accepted {
        return Err(Rejected);
      }
      Insert(Entry(call));
      r := Ok(call.id);
    }
  }

  lemma {:induction false} InsertKeepsOrder(list: seq<Expense>, k: nat, e: Expense)
    requires k <= |list| && forall i :: 0 <= i < k ==> list[i].date > e.date
    requires k < |list| ==> list[k].date <= e.date
    ensures NewestFirst(list) ==> NewestFirst(list[..k] + [e] + list[k..])
  {
    var after := list[..k] + [e] + list[k..];
    if NewestFirst(list) {
      forall i, j | 0 <= i < j < |after| ensures after[i].date >= after[j].date {
        assert after[i] == if i < k then list[i] else if i == k then e else list[i - 1];
        assert after[j] == if j < k then list[j] else if j == k then e else list[j - 1];
      }
    }
  }

  // ---------------------------------------------------------------------
  // Clashes

  /** Two expenses that look like one entered twice. */
  predicate Clash(a: Expense, b: Expense) {
    a.amount == b.amount && -WINDOW <= a.date - b.date <= WINDOW
  }

  predicate Apart(list: seq<Expense>) {
    forall i, j :: 0 <= i < j < |list| ==> !Clash(list[i], list[j])
  }

  lemma {:induction false} InsertedAt(list: seq<Expense>, e: Expense, after: seq<Expense>, k: nat)
    requires k <= |list| && after == list[..k] + [e] + list[k..]
    ensures |after| == |list| + 1 && after[k] == e
    ensures forall i :: 0 <= i < k ==> after[i] == list[i]
    ensures forall i :: k < i < |after| ==> after[i] == list[i - 1]
  {
  }

  lemma {:induction false} ApartAfter(list: seq<Expense>, e: Expense, after: seq<Expense>, k: nat)
    requires k <= |list| && after == list[..k] + [e] + list[k..]
    requires Apart(list) && forall i :: 0 <= i < |list| ==> !Clash(list[i], e)
    ensures Apart(after)
  {
    InsertedAt(list, e, after, k);
  }

  lemma {:induction false} ApartBefore(list: seq<Expense>, e: Expense, after: seq<Expense>, k: nat)
    requires k <= |list| && after == list[..k] + [e] + list[k..]
    requires Apart(after)
    ensures Apart(list) && forall i :: 0 <= i < |list| ==> !Clash(list[i], e)
  {
    InsertedAt(list, e, after, k);
    forall i, j | 0 <= i < j < |list| ensures !Clash(list[i], list[j]) {
      assert !Clash(after[if i < k then i else i + 1], after[if j < k then j else j + 1]);
    }
    forall i | 0 <= i < |list| ensures !Clash(list[i], e) {
      if i < k {
        assert !Clash(after[i], after[k]);
      } else {
        assert !Clash(after[k], after[i + 1]);
      }
    }
  }

  /** An insertion keeps a list free of clashes exactly when the list was free of
      them and the new expense clashes with nothing in it. */
  lemma {:induction false} InsertApartIff(list: seq<Expense>, e: Expense, after: seq<Expense>)
    requires Inserted(list, e, after)
    ensures Apart(after) <==> Apart(list) && forall i :: 0 <= i < |list| ==> !Clash(list[i], e)
  {
    var k :| 0 <= k <= |list| && after == list[..k] + [e] + list[k..];
    if Apart(after) {
      ApartBefore(list, e, after, k);
    } else if Apart(list) && forall i :: 0 <= i < |list| ==> !Clash(list[i], e) {
      ApartAfter(list, e, after, k);
    }
  }

  /** What the check of a call, if it makes one, finds. */
  function CheckOf(list: seq<Expense>, call: Call): Result<seq<Expense>, CheckError>
    requires FormFor(call.setting, call.input).Ok?
  {
    Check(Feed(list, call.failing), Entry(call).amount, Entry(call).date)
  }

  /** A call that checks for duplicates, and whose check comes to an end. */
  predicate Guarded(list: seq<Expense>, call: Call) {
    !call.allowDuplicate && (FormFor(call.setting, call.input).Ok? ==> CheckOf(list, call).Ok?)
  }

  /** A check that comes to an end is not affected by requests that fail. */
  lemma {:induction false} AnsweredCheck(feed: Feed<Expense>, amount: Amount, date: int)
    requires Check(feed, amount, date).Ok?
    ensures Check(feed, amount, date) == Check(Feed(feed.list, {}), amount, date)
  {
    ScanIsScanEnd(Goal(feed.list, date), feed.failing, PAGE, 0, 0);
    ScanIsScanEnd(Goal(feed.list, date), {}, PAGE, 0, 0);
  }

  lemma {:induction false} RecordedUnmatched(list: seq<Expense>, call: Call)
    requires Guarded(list, call) && Outcome(list, call).Ok?
    ensures Check(Feed(list, {}), Entry(call).amount, Entry(call).date) == Ok([])
  {
    AnsweredCheck(Feed(list, call.failing), Entry(call).amount, Entry(call).date);
  }

  lemma {:induction false} UnmatchedIsClear(list: seq<Expense>, e: Expense)
    requires NewestFirst(list) && Check(Feed(list, {}), e.amount, e.date) == Ok([])
    ensures forall i :: 0 <= i < Min(DEPTH, |list|) ==> !Clash(list[i], e)
  {
    CheckEmptyIff(list, e.amount, e.date);
    forall i | 0 <= i < Min(DEPTH, |list|) ensures !Clash(list[i], e) {
      assert !Likely(list[i], e.amount, e.date);
    }
  }

  /** A guarded call that records leaves the list free of clashes exactly when it
      was free of them and no entry past the first 500 clashes with the new one. */
  lemma {:induction false} GuardedApartIff(list: seq<Expense>, call: Call, after: seq<Expense>)
    requires NewestFirst(list) && Guarded(list, call)
    requires Outcome(list, call).Ok? && CreateStep(list, call, after)
    ensures Apart(after)
       <==> Apart(list) && forall i :: DEPTH <= i < |list| ==> !Clash(list[i], Entry(call))
  {
    RecordedUnmatched(list, call);
    UnmatchedIsClear(list, Entry(call));
    InsertApartIff(list, Entry(call), after);
  }

  /** Recording without a check, because it was waived or because one of its requests
      failed, keeps a list free of clashes exactly when there was nothing to find: what
      the requests before the failing one found is not looked at. */
  lemma {:induction false} UnguardedApartIff(list: seq<Expense>, call: Call, after: seq<Expense>)
    requires FormFor(call.setting, call.input).Ok? && call.accepted && CreateStep(list, call, after)
    requires call.allowDuplicate || CheckOf(list, call).Err?
    ensures Apart(after) <==> Apart(list) && forall i :: 0 <= i < |list| ==> !Clash(list[i], Entry(call))
  {
    assert Outcome(list, call).Ok?;
    InsertApartIff(list, Entry(call), after);
  }

  // ---------------------------------------------------------------------
  // Where the check does not protect

  /** An amount other than the given one, a different one for each `i`. */
  function Other(amount: Amount, i: nat): (r: Amount)
    requires i < 1000
    ensures r != amount
  {
    if i < amount then i else i + 1
  }

  /** As many expenses of one date, all with other amounts except the one at `at`. */
  function Busy(e: Expense, at: nat, n: nat): seq<Expense>
    requires n < 1000
  {
    seq(n, i requires 0 <= i < n => if i == at then e else e.(amount := Other(e.amount, i)))
  }

  lemma {:induction false} BusyIsApart(e: Expense, at: nat, n: nat)
    requires n < 1000
    ensures NewestFirst(Busy(e, at, n)) && Apart(Busy(e, at, n))
  {
  }

  /** The call is made where it clashes with the expense at `at`. */
  predicate Repeats(list: seq<Expense>, call: Call, at: nat) {
    && NewestFirst(list) && Apart(list)
    && FormFor(call.setting, call.input).Ok? && at < |list| && Clash(list[at], Entry(call))
  }

  lemma {:induction false} RepeatIsRecorded(list: seq<Expense>, call: Call, at: nat)
    requires Repeats(list, call, at) && Outcome(list, call).Ok?
    ensures forall after :: CreateStep(list, call, after) ==> !Apart(after)
  {
    forall after | CreateStep(list, call, after) ensures !Apart(after) {
      InsertApartIff(list, Entry(call), after);
    }
  }

  /** None of the requests a check may make fails. */
  predicate Answered(call: Call) {
    forall page: nat :: page < MAX_PAGES ==> page !in call.failing
  }

  lemma {:induction false} ScanAnswered(goal: nat, failing: set<nat>, cursor: nat, page: nat)
    requires forall p: nat :: p < MAX_PAGES ==> p !in failing
    requires page < MAX_PAGES
    ensures Scan(goal, failing, PAGE, cursor, page).Some?
    decreases MAX_PAGES - page
  {
    if cursor + PAGE < goal && page + 1 < MAX_PAGES {
      ScanAnswered(goal, failing, cursor + PAGE, page + 1);
    }
  }

  /** For every call that is checked there is a group, free of clashes, in which it is
      recorded as a duplicate of entry 500. */
  lemma {:induction false} DuplicatePastDepth(call: Call) returns (list: seq<Expense>)
    requires FormFor(call.setting, call.input).Ok? && call.accepted && !call.allowDuplicate && Answered(call)
    ensures Repeats(list, call, DEPTH) && Outcome(list, call).Ok?
    ensures forall after :: CreateStep(list, call, after) ==> !Apart(after)
  {
    var e := Entry(call);
    list := Busy(e, DEPTH, DEPTH + 1);
    BusyIsApart(e, DEPTH, DEPTH + 1);
    CheckEmptyIff(list, e.amount, e.date);
    ScanAnswered(Goal(list, e.date), call.failing, 0, 0);
    AnsweredCheck(Feed(list, call.failing), e.amount, e.date);
    RepeatIsRecorded(list, call, DEPTH);
  }

  lemma {:induction false} NoneOld(list: seq<Expense>, date: int, i: nat)
    requires i <= |list| && forall j :: i <= j < |list| ==> !TooOld(list[j], date)
    ensures OldFrom(list, date, i) == |list|
    decreases |list| - i
  {
    if i < |list| {
      NoneOld(list, date, i + 1);
    }
  }

  /** Request `page` is the first that fails. */
  predicate FailsFirst(call: Call, page: nat) {
    page in call.failing && forall p: nat :: p < page ==> p !in call.failing
  }

  lemma {:induction false} ScanFails(goal: nat, failing: set<nat>, cursor: nat, page: nat, fails: nat)
    requires page <= fails < MAX_PAGES && fails in failing
    requires cursor == PAGE * page && goal > PAGE * fails
    ensures Scan(goal, failing, PAGE, cursor, page) == None
    decreases fails - page
  {
    if page < fails && page !in failing {
      ScanFails(goal, failing, cursor + PAGE, page + 1, fails);
    }
  }

  /** For every call that has a later request fail there is a group, free of clashes,
      in which it is recorded as a duplicate of the very first entry, which its first
      request returned. */
  lemma {:induction false} DuplicateAfterFailure(call: Call, page: nat) returns (list: seq<Expense>)
    requires FormFor(call.setting, call.input).Ok? && call.accepted && !call.allowDuplicate
    requires 1 <= page < MAX_PAGES && FailsFirst(call, page)
    ensures Repeats(list, call, 0) && Outcome(list, call).Ok?
    ensures forall after :: CreateStep(list, call, after) ==> !Apart(after)
  {
    var e := Entry(call);
    var n := PAGE * page + 1;
    list := Busy(e, 0, n);
    BusyIsApart(e, 0, n);
    NoneOld(list, e.date, 0);
    ScanFails(Goal(list, e.date), call.failing, 0, 0, page);
    assert CheckOf(list, call).Err?;
    RepeatIsRecorded(list, call, 0);
  }

  // ---------------------------------------------------------------------
  // Whole runs

  /** A run of calls: the list before each call and after the last. */
  predicate Run(states: seq<seq<Expense>>, calls: seq<Call>) {
    && |states| == |calls| + 1
    && forall i :: 0 <= i < |calls| ==> CreateStep(states[i], calls[i], states[i + 1])
  }

  /** Whole-run safety: guarded calls on a group of at most 500 expenses never
      record a pair of equal amount within two days of each other. */
  lemma {:induction false} RunStaysApart(states: seq<seq<Expense>>, calls: seq<Call>, n: nat)
    requires Run(states, calls) && n <= |calls|
    requires NewestFirst(states[0]) && Apart(states[0])
    requires forall i :: 0 <= i < |calls| ==> Guarded(states[i], calls[i]) && |states[i]| <= DEPTH
    ensures NewestFirst(states[n]) && Apart(states[n])
  {
    if n > 0 {
      RunStaysApart(states, calls, n - 1);
      var list, call, after := states[n - 1], calls[n - 1], states[n];
      assert CreateStep(list, call, after) && Guarded(list, call) && |list| <= DEPTH;
      if Outcome(list, call).Ok? {
        GuardedApartIff(list, call, after);
      }
    }
  }
}
