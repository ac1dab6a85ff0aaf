/** Updating an expense by naming only what changes. Spliit replaces the whole
    expense, so the untouched fields travel through text and name lookup and
    back; this module proves they arrive unchanged. */
module Updates {
  import opened Wrappers
  import opened Text
  import opened Money
  import opened Dates
  import opened Spliit
  import opened Expenses

  /** The form an update sends. */
  function UpdateFor(s: Setting, change: Change, current: Expense): Result<Form, FormError> {
    FormFor(s, Defaulted(AsWrite(change), current, change.reimbursement.None?))
  }

  /** `updateExpense` between fetching the expense and sending the form. */
  method UpdateExpense(s: Setting, change: Change, current: Expense) returns (r: Result<Form, FormError>)
    ensures r == UpdateFor(s, change, current)
  {
    var input := new WriteInput(AsWrite(change));
    input.ApplyDefaults(current, change.reimbursement.None?);
    var w := input.Value();
    r := BuildExpenseForm(s, w);
  }

  /** An omitted amount is printed, trimmed, parsed and converted to itself. */
  lemma {:induction false} AmountKept(cents: Amount)
    ensures ReadAmount(PrintCents(cents)) == if cents == 0 then Err(ZeroAmount) else Ok(cents)
    ensures PrintCents(cents) != ""
  {
    PrintedCentsParse(cents);
    CentsRoundTrip(cents);
    PrintedCentsBare(cents);
    TrimBare(White, PrintCents(cents));
  }

  /** An omitted date is printed, trimmed and read as the start of its day. */
  lemma {:induction false} DateKept(date: Instant, now: Instant)
    ensures ReadDate(FormatDate(date), now)
         == if DateOf(date).year < 10000 then Ok(StartOfDay(date)) else Err(BadDate)
    ensures FormatDate(date) != ""
  {
    DateRoundTrip(date);
    DateTextBare(DateOf(date));
    TrimBare(White, FormatDate(date));
  }

  // ---------------------------------------------------------------------
  // The frame theorem

  /** The form that states an expense exactly as it is. */
  function Exactly(e: Expense): Form {
    Form(e.date, e.title, e.categoryId, e.amount, e.paidById, Present(e.paidFor), e.splitMode,
         e.reimbursement, e.notes, e.recurrence)
  }

  /** Every field the caller did name can be read. */
  predicate Readable(s: Setting, c: Change) {
    && (c.amount != "" ==> ReadAmount(c.amount).Ok?)
    && (c.title != "" ==> ReadTitle(c.title).Ok?)
    && (c.date != "" ==> ReadDate(c.date, s.now).Ok?)
    && (c.paidBy != "" ==> ReadPayer(s, c.paidBy).Ok?)
    && (c.paidFor != [] ==> EvenShares(s, c.paidFor, |c.paidFor|).Ok?)
  }

  /** A form with the named fields replaced by what was asked for. */
  function Requested(s: Setting, c: Change, base: Form): Form
    requires Readable(s, c)
  {
    Form(
      if c.date == "" then base.date else ReadDate(c.date, s.now).value,
      if c.title == "" then base.title else ReadTitle(c.title).value,
      if c.categoryId == 0 then base.categoryId else c.categoryId,
      if c.amount == "" then base.amount else ReadAmount(c.amount).value,
      if c.paidBy == "" then base.paidBy else ReadPayer(s, c.paidBy).value,
      if c.paidFor == [] then base.paidFor else EvenShares(s, c.paidFor, |c.paidFor|).value,
      if c.paidFor == [] then base.splitMode else EVENLY,
      if c.reimbursement.None? then base.reimbursement else c.reimbursement.value,
      if c.notes == "" then base.notes else ReadNotes(c.notes),
      NEVER)
  }

  lemma {:induction false} TitleKept(title: string)
    ensures ReadTitle(title) == Ok(title) <==> title != "" && Bare(White, title)
    ensures title != "" && Bare(White, title) ==> !Blank(title)
  {
    if Bare(White, title) {
      TrimBare(White, title);
    }
    var _, _ := TrimSplits(White, title);
  }

  /** The update finds the recorded payer again: by the name of its nested
      object, or, when there is no name to go by, because it is the caller. */
  predicate PayerSurvives(s: Setting, e: Expense) {
    if e.paidBy.Some? && !Blank(e.paidBy.value.name)
    then ByName(s.fold, s.roster, e.paidBy.value.name).Some?
      && ByName(s.fold, s.roster, e.paidBy.value.name).value.id == e.paidById
    else s.me != "" && s.me == e.paidById && ById(s.roster, s.me).Some?
  }

  /** Every field the caller omitted comes through text and lookup as it was. */
  predicate OmittedSurvive(s: Setting, c: Change, e: Expense) {
    && (c.title == "" ==> e.title != "" && Bare(White, e.title))
    && (c.amount == "" ==> e.amount != 0)
    && (c.date == "" ==> Midnight(e.date) && DateOf(e.date).year < 10000)
    && (c.paidBy == "" ==> PayerSurvives(s, e))
    && (c.paidFor == [] ==> Present(e.paidFor) != [] && e.splitMode != "")
    && (c.notes == "" && e.notes.Some? ==> !Blank(e.notes.value))
  }

  /** A payer whose object is there and on the roster, among distinct names, is
      found again. */
  lemma {:induction false} ListedPayerSurvives(s: Setting, e: Expense)
    requires e.paidBy.Some? && e.paidBy.value.id == e.paidById && e.paidBy in s.roster
    requires !Blank(e.paidBy.value.name) && DistinctNames(s.fold, s.roster)
    ensures PayerSurvives(s, e)
  {
    FoundByName(s.fold, s.roster, e.paidBy.value, e.paidBy.value.name);
  }

  lemma {:induction false} PayerSurvivesIff(s: Setting, e: Expense)
    ensures ReadPayer(s, AsTyped(e).paidBy) == Ok(e.paidById) <==> PayerSurvives(s, e)
  {
    TrimBare(White, "");
  }

  lemma {:induction false} DateSurvivesIff(s: Setting, e: Expense)
    ensures ReadDate(FormatDate(e.date), s.now) == Ok(e.date)
       <==> Midnight(e.date) && DateOf(e.date).year < 10000
    ensures FormatDate(e.date) != ""
  {
    DateKept(e.date, s.now);
    MidnightIff(e.date);
  }

  lemma {:induction false} MidnightIff(t: Instant)
    ensures StartOfDay(t) == t <==> Midnight(t)
  {
  }

  lemma {:induction false} NotesSurviveIff(e: Expense)
    ensures ReadNotes(AsTyped(e).notes) == e.notes <==> (e.notes.Some? ==> !Blank(e.notes.value))
  {
    TrimBare(White, "");
  }

  lemma {:induction false} SplitSentIff(s: Setting, c: Change, e: Expense)
    requires Readable(s, c)
    ensures ReadSplit(s, Defaulted(AsWrite(c), e, c.reimbursement.None?))
         == Ok(Split(Requested(s, c, Exactly(e)).splitMode, Requested(s, c, Exactly(e)).paidFor))
       <==> (c.paidFor == [] ==> Present(e.paidFor) != [] && e.splitMode != "")
  {
    if c.paidFor != [] {
      EvenSharesAt(s, c.paidFor, |c.paidFor|);
    }
  }

  /** A partial update sends the current expense with exactly the named fields
      replaced if and only if the omitted ones survive, whatever the state of the
      fields that are named. Only the recurrence rule, which the form cannot carry
      over, is always reset. */
  lemma {:induction false} UpdateFrame(s: Setting, c: Change, e: Expense)
    requires Readable(s, c)
    ensures UpdateFor(s, c, e) == Ok(Requested(s, c, Exactly(e))) <==> OmittedSurvive(s, c, e)
  {
    PartsRead(s, Defaulted(AsWrite(c), e, c.reimbursement.None?), Requested(s, c, Exactly(e)));
    AmountKept(e.amount);
    TitleKept(e.title);
    DateSurvivesIff(s, e);
    PayerSurvivesIff(s, e);
    SplitSentIff(s, c, e);
    NotesSurviveIff(e);
  }

  /** Every field the caller named could be read, and the form has what was read. */
  predicate NamedAsRequested(s: Setting, c: Change, f: Form) {
    && (c.title != "" ==> ReadTitle(c.title) == Ok(f.title))
    && (c.amount != "" ==> ReadAmount(c.amount) == Ok(f.amount))
    && (c.date != "" ==> ReadDate(c.date, s.now) == Ok(f.date))
    && (c.paidBy != "" ==> ReadPayer(s, c.paidBy) == Ok(f.paidBy))
    && (c.paidFor != [] ==> EvenShares(s, c.paidFor, |c.paidFor|) == Ok(f.paidFor) && f.splitMode == EVENLY)
    && (c.categoryId != 0 ==> f.categoryId == c.categoryId)
    && (c.reimbursement.Some? ==> c.reimbursement.value == f.reimbursement)
    && (c.notes != "" ==> ReadNotes(c.notes) == f.notes)
  }

  lemma {:induction false} NamedSplit(s: Setting, c: Change, e: Expense, mode: string, shares: seq<Share>)
    requires c.paidFor != []
    requires ReadSplit(s, Defaulted(AsWrite(c), e, c.reimbursement.None?)) == Ok(Split(mode, shares))
    ensures EvenShares(s, c.paidFor, |c.paidFor|) == Ok(shares) && mode == EVENLY
  {
  }

  /** An update goes through only if what the caller named can be read, and then it
      takes effect, whether or not the omitted fields survive. */
  lemma {:induction false} NamedTakeEffect(s: Setting, c: Change, e: Expense, f: Form)
    requires UpdateFor(s, c, e) == Ok(f)
    ensures NamedAsRequested(s, c, f)
  {
    PartsRead(s, Defaulted(AsWrite(c), e, c.reimbursement.None?), f);
    if c.paidFor != [] {
      NamedSplit(s, c, e, f.splitMode, f.paidFor);
    }
  }

  // ---------------------------------------------------------------------
  // Exactly when nothing changes

  /** An update that names nothing sends the expense back exactly as it was if
      and only if its fields survive and it does not recur. */
  lemma {:induction false} UntouchedIff(s: Setting, e: Expense)
    ensures UpdateFor(s, NOTHING, e) == Ok(Exactly(e)) <==> OmittedSurvive(s, NOTHING, e) && e.recurrence == NEVER
  {
    UpdateFrame(s, NOTHING, e);
    if UpdateFor(s, NOTHING, e).Ok? {
      PartsRead(s, Defaulted(AsWrite(NOTHING), e, true), UpdateFor(s, NOTHING, e).value);
    }
  }

  /** Without a payer's name to go by, the payer becomes the caller, whoever paid. */
  lemma {:induction false} NamelessPayerReplaced(s: Setting, e: Expense)
    requires AsTyped(e).paidBy == "" && OmittedSurvive(s, NOTHING, e.(paidById := s.me))
    ensures UpdateFor(s, NOTHING, e) == Ok(Exactly(e).(paidBy := s.me, recurrence := NEVER))
  {
    var mine := e.(paidById := s.me);
    assert UpdateFor(s, NOTHING, e) == UpdateFor(s, NOTHING, mine);
    UpdateFrame(s, NOTHING, mine);
  }

  /** A group of one participant, as that participant sees it. */
  function Alone(me: Participant): Setting {
    Setting(map[], [Some(me)], me.id, 0)
  }

  /** An expense shared by that participant, with no payer object. */
  function Pizza(me: Participant, payer: string, date: Instant, recurrence: string): Expense {
    Expense("e1", "Pizza", 1250, date, payer, None, [Some(Share(me.id, 1))], EVENLY, 0, false, None, recurrence)
  }

  lemma {:induction false} TitleSurvives(title: string)
    requires title != "" && '!' <= title[0] <= '~' && '!' <= title[|title| - 1] <= '~'
    ensures Bare(White, title)
  {
    VisibleIsNotSpace(title[0]);
    VisibleIsNotSpace(title[|title| - 1]);
  }

  lemma {:induction false} PizzaSurvives(me: Participant, date: Instant, recurrence: string)
    requires me.id != "" && Midnight(date) && DateOf(date).year < 10000
    ensures OmittedSurvive(Alone(me), NOTHING, Pizza(me, me.id, date, recurrence))
  {
    var e := Pizza(me, me.id, date, recurrence);
    TitleSurvives(e.title);
    PresentAll([Share(me.id, 1)], e.paidFor);
    IdAtFirst(Alone(me).roster, me.id, 0);
  }

  /** What an update that names nothing does to an expense that somebody paid who has
      left the group, and to one that recurs. */
  lemma {:induction false} UntouchedFieldsLost(me: Participant, date: Instant)
    requires me.id != "" && me.id != "bob" && Midnight(date) && DateOf(date).year < 10000
    ensures var kept := Exactly(Pizza(me, me.id, date, NEVER));
      && UpdateFor(Alone(me), NOTHING, Pizza(me, "bob", date, NEVER)) == Ok(kept)
      && UpdateFor(Alone(me), NOTHING, Pizza(me, me.id, date, "MONTHLY")) == Ok(kept)
      && Exactly(Pizza(me, "bob", date, NEVER)) != kept
      && Exactly(Pizza(me, me.id, date, "MONTHLY")) != kept
  {
    PizzaSurvives(me, date, NEVER);
    PizzaSurvives(me, date, "MONTHLY");
    NamelessPayerReplaced(Alone(me), Pizza(me, "bob", date, NEVER));
    NamelessPayerReplaced(Alone(me), Pizza(me, me.id, date, "MONTHLY"));
    assert Exactly(Pizza(me, "bob", date, NEVER)).paidBy == "bob";
    assert Exactly(Pizza(me, me.id, date, "MONTHLY")).recurrence == "MONTHLY";
    assert |NEVER| != |"MONTHLY"|;
  }

  // ---------------------------------------------------------------------
  // Updating twice

  function Stored(s: Setting, f: Form, e: Expense): Expense {
    Recorded(s.roster, f, e.id)
  }

  lemma {:induction false} AmountAgain(c: Change, before: Amount, sent: Amount)
    requires ReadAmount(Or(c.amount, PrintCents(before))) == Ok(sent)
    ensures ReadAmount(Or(c.amount, PrintCents(sent))) == Ok(sent)
  {
    AmountKept(before);
  }

  lemma {:induction false} TitleAgain(c: Change, before: string, sent: string)
    requires ReadTitle(Or(c.title, before)) == Ok(sent)
    ensures ReadTitle(Or(c.title, sent)) == Ok(sent)
  {
    TrimTwice(White, before);
  }

  lemma {:induction false} DateAgain(s: Setting, c: Change, before: Instant, sent: Instant)
    requires ReadDate(Or(c.date, FormatDate(before)), s.now) == Ok(sent)
    ensures ReadDate(Or(c.date, FormatDate(sent)), s.now) == Ok(sent)
  {
    if c.date == "" {
      DateKept(before, s.now);
      SameDay(before);
      DateKept(sent, s.now);
    }
  }

  lemma {:induction false} SameDay(t: Instant)
    ensures DateOf(StartOfDay(t)) == DateOf(t) && StartOfDay(StartOfDay(t)) == StartOfDay(t)
  {
    assert StartOfDay(t) / DAY == t / DAY;
  }

  lemma {:induction false} BlankByKey(fold: Folding, a: string, b: string)
    requires NameKey(fold, a) == NameKey(fold, b)
    ensures Blank(a) <==> Blank(b)
  {
    assert |TrimSpace(a)| == |NameKey(fold, a)| && |TrimSpace(b)| == |NameKey(fold, b)|;
  }

  /** Whoever was found as the payer is found again by the name on its record. */
  lemma {:induction false} PayerAgain(s: Setting, name: string, sent: string)
    requires DistinctIds(s.roster) && DistinctNames(s.fold, s.roster)
    requires ReadPayer(s, name) == Ok(sent)
    ensures ById(s.roster, sent).Some? && ReadPayer(s, ById(s.roster, sent).value.name) == Ok(sent)
  {
    if !Blank(name) {
      var p := ByName(s.fold, s.roster, name).value;
      FoundById(s.roster, p);
      BlankByKey(s.fold, name, p.name);
      FoundByName(s.fold, s.roster, p, p.name);
    } else {
      var p := ById(s.roster, s.me).value;
      FoundByName(s.fold, s.roster, p, p.name);
    }
  }

  lemma {:induction false} NotesAgain(c: Change, e: Expense, sent: Option<string>)
    requires ReadNotes(Or(c.notes, AsTyped(e).notes)) == sent
    ensures ReadNotes(Or(c.notes, if sent.Some? then sent.value else "")) == sent
  {
    TrimBare(White, "");
  }

  lemma {:induction false} SplitAgain(s: Setting, c: Change, e: Expense, f: Form)
    requires ReadSplit(s, Defaulted(AsWrite(c), e, c.reimbursement.None?)) == Ok(Split(f.splitMode, f.paidFor))
    ensures ReadSplit(s, Defaulted(AsWrite(c), Stored(s, f, e), c.reimbursement.None?))
         == Ok(Split(f.splitMode, f.paidFor))
  {
    PresentAll(f.paidFor, Stored(s, f, e).paidFor);
  }

  lemma {:induction false} PartsRead(s: Setting, w: Write, f: Form)
    ensures FormFor(s, w) == Ok(f) <==>
            && ReadAmount(w.amount) == Ok(f.amount)
            && ReadTitle(w.title) == Ok(f.title)
            && ReadDate(w.date, s.now) == Ok(f.date)
            && ReadPayer(s, w.paidBy) == Ok(f.paidBy)
            && ReadSplit(s, w) == Ok(Split(f.splitMode, f.paidFor))
            && w.categoryId == f.categoryId && w.reimbursement == f.reimbursement
            && ReadNotes(w.notes) == f.notes && f.recurrence == NEVER
  {
  }

  /** A later reading of the clock. */
  function At(s: Setting, now: Instant): Setting {
    s.(now := now)
  }

  lemma {:induction false} SharesAnyTime(s: Setting, now: Instant, names: seq<string>, k: nat)
    requires k <= |names|
    ensures EvenShares(At(s, now), names, k) == EvenShares(s, names, k)
  {
    if k > 0 {
      SharesAnyTime(s, now, names, k - 1);
    }
  }

  lemma {:induction false} SplitAnyTime(s: Setting, now: Instant, w: Write)
    ensures ReadSplit(At(s, now), w) == ReadSplit(s, w)
  {
    SharesAnyTime(s, now, w.paidFor, |w.paidFor|);
  }

  lemma {:induction false} FormAnyTime(s: Setting, now: Instant, w: Write)
    requires w.date != ""
    ensures FormFor(At(s, now), w) == FormFor(s, w)
  {
    SplitAnyTime(s, now, w);
  }

  /** An update does not depend on when it is made: an omitted date is the expense's
      own and not today's. */
  lemma {:induction false} UpdateAnyTime(s: Setting, now: Instant, c: Change, e: Expense)
    ensures UpdateFor(At(s, now), c, e) == UpdateFor(s, c, e)
  {
    DateKept(e.date, now);
    FormAnyTime(s, now, Defaulted(AsWrite(c), e, c.reimbursement.None?));
  }

  lemma {:induction false} UpdateAtOnce(s: Setting, c: Change, e: Expense, f: Form)
    requires DistinctIds(s.roster) && DistinctNames(s.fold, s.roster)
    requires UpdateFor(s, c, e) == Ok(f)
    ensures UpdateFor(s, c, Stored(s, f, e)) == Ok(f)
  {
    var keep := c.reimbursement.None?;
    var w, again := Defaulted(AsWrite(c), e, keep), Defaulted(AsWrite(c), Stored(s, f, e), keep);
    PartsRead(s, w, f);
    AmountAgain(c, e.amount, f.amount);
    TitleAgain(c, e.title, f.title);
    DateAgain(s, c, e.date, f.date);
    PayerAgain(s, w.paidBy, f.paidBy);
    SplitAgain(s, c, e, f);
    NotesAgain(c, e, f.notes);
    PartsRead(s, again, f);
  }

  /** Repeating an update changes nothing: from the expense the first one left
      behind, the second sends the very same form, whenever it is made. */
  lemma {:induction false} UpdateTwice(s: Setting, c: Change, e: Expense, f: Form, now: Instant)
    requires DistinctIds(s.roster) && DistinctNames(s.fold, s.roster)
    requires UpdateFor(s, c, e) == Ok(f)
    ensures UpdateFor(At(s, now), c, Stored(s, f, e)) == Ok(f)
  {
    UpdateAtOnce(s, c, e, f);
    UpdateAnyTime(s, now, c, Stored(s, f, e));
  }
}
