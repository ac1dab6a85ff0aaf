/** What a call of `create_expense` answers, in terms of the group's expenses. */
module DuplicateLaws {
  import opened Wrappers
  import opened Lists
  import opened Money
  import opened Spliit
  import opened Paging
  import opened Expenses
  import opened Duplicates

  /** Two days, in nanoseconds. */
  const TWO_DAYS: int := 2 * 24 * 60 * 60 * 1_000_000_000

  /** The same amount, dated no more than two days apart. */
  predicate Twice(e: Expense, amount: Amount, date: int) {
    e.amount == amount && -TWO_DAYS <= e.date - date <= TWO_DAYS
  }

  lemma {:induction false} ClashMeaning(a: Expense, b: Expense)
    ensures Clash(a, b) <==> Twice(a, b.amount, b.date)
    ensures Likely(a, b.amount, b.date) <==> Twice(a, b.amount, b.date)
  {
  }

  /** `matches` are, in order, the entries at `pos`, which are all those among the
      first 500 that were entered before. */
  ghost predicate AllMatches(list: seq<Expense>, amount: Amount, date: int, matches: seq<Expense>, pos: seq<nat>) {
    && |pos| == |matches| && Increasing(pos)
    && (forall k :: 0 <= k < |pos| ==> pos[k] < |list| && matches[k] == list[pos[k]])
    && forall i: nat :: i in pos <==> i < 500 && i < |list| && Twice(list[i], amount, date)
  }

  /** On a newest-first list, a check that comes to an end returns exactly the likely
      duplicates among the first 500 entries. */
  lemma {:induction false} CheckMeaning(feed: Feed<Expense>, amount: Amount, date: int) returns (pos: seq<nat>)
    requires NewestFirst(feed.list) && Check(feed, amount, date).Ok?
    ensures AllMatches(feed.list, amount, date, Check(feed, amount, date).value, pos)
  {
    var wanted := LikelyAt(feed.list, amount, date);
    AnsweredCheck(feed, amount, date);
    CheckIsPlainFilter(feed.list, amount, date);
    pos := FoundPlaces(wanted, feed.list, 0, DEPTH);
    assert forall i: nat :: i in wanted <==> i < |feed.list| && Twice(feed.list[i], amount, date);
  }

  lemma {:induction false} OldFromMeaning(list: seq<Expense>, date: int, i: nat, j: nat)
    requires i <= j <= |list|
    ensures j <= OldFrom(list, date, i) <==> forall k :: i <= k < j ==> list[k].date >= date - TWO_DAYS
    decreases j - i
  {
    if i < j && !TooOld(list[i], date) {
      OldFromMeaning(list, date, i + 1, j);
    }
  }

  /** Request `p` of a check is made and fails: the first always, a later one only when
      its block starts within the list and no entry before it is past the window. */
  predicate FailedRequest(feed: Feed<Expense>, date: int, p: nat) {
    && p in feed.failing
    && (p == 0 || (50 * p < |feed.list| && forall i :: 0 <= i < 50 * p ==> feed.list[i].date >= date - TWO_DAYS))
  }

  /** A check fails exactly when one of the requests it makes fails. */
  lemma {:induction false} CheckFailsIff(feed: Feed<Expense>, amount: Amount, date: int)
    ensures Check(feed, amount, date).Err? <==> exists p: nat :: p < 10 && FailedRequest(feed, date, p)
  {
    var goal := Goal(feed.list, date);
    ScanFailsIff(goal, feed.failing, PAGE, 0, 0);
    forall p: nat ensures FailsAt(goal, feed.failing, PAGE, 0, 0, p) <==> FailedRequest(feed, date, p) {
      AfterIsProduct(0, PAGE, p);
      if 50 * p <= |feed.list| {
        OldFromMeaning(feed.list, date, 0, 50 * p);
      }
    }
    if p: nat :| p < 10 && FailedRequest(feed, date, p) {
      assert FailsAt(goal, feed.failing, PAGE, 0, 0, p);
    }
  }

  /** The call is refused as a possible duplicate: it is checked, the check comes to
      an end, and one of the first 500 entries was entered before. */
  predicate IsDuplicate(list: seq<Expense>, call: Call, form: Form) {
    && !call.allowDuplicate
    && (forall p: nat :: p < 10 ==> !FailedRequest(Feed(list, call.failing), form.date, p))
    && exists i :: 0 <= i < 500 && i < |list| && Twice(list[i], form.amount, form.date)
  }

  /** What a call answers in a group whose expenses are newest first: the complaint
      about its form; or the likely duplicates, all of them and in order, if there are
      any and it is checked; or what Spliit answers. */
  lemma {:induction false} OutcomeMeaning(list: seq<Expense>, call: Call) returns (pos: seq<nat>)
    requires NewestFirst(list)
    ensures match FormFor(call.setting, call.input)
      case Err(e) => Outcome(list, call) == Err(BadForm(e))
      case Ok(form) =>
        if IsDuplicate(list, call, form) then
          && Outcome(list, call).Err? && Outcome(list, call).error.PossibleDuplicate?
          && AllMatches(list, form.amount, form.date, Outcome(list, call).error.matches, pos)
        else Outcome(list, call) == if call.accepted then Ok(call.id) else Err(Rejected)
  {
    pos := [];
    if FormFor(call.setting, call.input).Ok? {
      var form := FormFor(call.setting, call.input).value;
      var feed := Feed(list, call.failing);
      CheckFailsIff(feed, form.amount, form.date);
      if Check(feed, form.amount, form.date).Ok? {
        pos := CheckMeaning(feed, form.amount, form.date);
        assert pos != [] ==> pos[0] in pos;
      }
    }
  }

  /** A checked call that Spliit accepts is recorded if and only if it clashes with
      none of the first 500 entries. */
  lemma {:induction false} RecordedIff(list: seq<Expense>, call: Call)
    requires NewestFirst(list) && FormFor(call.setting, call.input).Ok? && call.accepted && Guarded(list, call)
    ensures Outcome(list, call) == Ok(call.id)
       <==> forall i :: 0 <= i < 500 && i < |list| ==> !Clash(list[i], Entry(call))
  {
    var e := Entry(call);
    var _ := OutcomeMeaning(list, call);
    CheckFailsIff(Feed(list, call.failing), e.amount, e.date);
    forall i | 0 <= i < 500 && i < |list| ensures Clash(list[i], e) <==> Twice(list[i], e.amount, e.date) {
      ClashMeaning(list[i], e);
    }
  }
}
