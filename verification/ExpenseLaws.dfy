/** What the expense form says, in terms of what the caller typed. */
module ExpenseLaws {
  import opened Wrappers
  import opened Numerals
  import opened Text
  import opened Money
  import opened Dates
  import opened DecimalTexts
  import opened Spliit
  import opened Expenses
  import opened Updates

  // ---------------------------------------------------------------------
  // Amounts

  /** The text, trimmed, is a number that is not zero, and these are its cents. */
  ghost predicate AmountTyped(text: string, n: Number, cents: Amount) {
    && WellWritten(n) && TextOf(n) == TrimSpace(text) && Meant(n).coef != 0
    && cents == Wrap64(Nearest(Cents(Meant(n))))
  }

  /** An amount is read exactly when its text is a number that is not zero, and then
      it is the nearest cent to that number. */
  lemma {:induction false} AmountMeaning(text: string) returns (n: Option<Number>)
    ensures n.Some? ==> WellWritten(n.value) && TextOf(n.value) == TrimSpace(text)
    ensures n.None? ==> forall m :: WellWritten(m) ==> TextOf(m) != TrimSpace(text)
    ensures match n
      case None => ReadAmount(text) == Err(NotADecimal)
      case Some(m) =>
        if Meant(m).coef == 0 then ReadAmount(text) == Err(ZeroAmount)
        else ReadAmount(text) == Ok(Wrap64(Nearest(Cents(Meant(m)))))
  {
    if ParseDecimal(TrimSpace(text)).Some? {
      var m := ReadIsWritten(TrimSpace(text));
      n := Some(m);
      WrittenIsRead(m);
      ToAmountIsNearestCent(Meant(m));
    } else {
      n := None;
      forall m | WellWritten(m) ensures TextOf(m) != TrimSpace(text) {
        WrittenIsRead(m);
      }
    }
  }

  /** A whole number of units is a hundred times as many cents. */
  lemma {:induction false} WholeUnits(sign: string, digits: string)
    requires IsSign(sign) && IsNumeral(digits) && ValueOf(digits) != 0
    requires InInt64(100 * ValueOf(digits))
    ensures ReadAmount(sign + digits) == Ok(100 * Signed(sign, ValueOf(digits)))
  {
    var n := Number(sign, digits, None, None);
    var text := sign + digits;
    WrittenIsRead(n);
    NumeralIsBare(sign, digits);
    TrimBare(White, text);
    ToAmountIsNearestCent(Meant(n));
    UnitCents(Signed(sign, ValueOf(digits)));
  }

  lemma {:induction false} UnitCents(n: int)
    ensures Nearest(Cents(Decimal(n, 0))) == 100 * n
  {
    assert Pow10(0) == 1;
    assert Cents(Decimal(n, 0)) == (100 * n) as real;
    NearestInteger(100 * n);
  }

  lemma {:induction false} NumeralIsBare(sign: string, digits: string)
    requires IsSign(sign) && IsNumeral(digits)
    ensures Bare(White, sign + digits)
  {
    var text := sign + digits;
    assert IsDigit(digits[0]) && IsDigit(digits[|digits| - 1]);
    assert text[0] == (if sign == "" then digits[0] else sign[0]) && text[|text| - 1] == digits[|digits| - 1];
    VisibleIsNotSpace(text[0]);
    VisibleIsNotSpace(text[|text| - 1]);
  }

  // ---------------------------------------------------------------------
  // The other fields

  /** No date means today, and any other the first moment of the date written. */
  predicate DateTyped(text: string, now: Instant, date: Instant) {
    if text == "" then Midnight(date) && date <= now < date + DAY
    else
      && DateOf(date).year < 10000 && Midnight(date) && TrimSpace(text) == DateText(DateOf(date))
  }

  lemma {:induction false} DateMeaning(text: string, now: Instant, date: Instant)
    ensures ReadDate(text, now) == Ok(date) <==> DateTyped(text, now, date)
    ensures ReadDate(text, now).Err? ==> ReadDate(text, now) == Err(BadDate)
  {
    if text != "" {
      if ParseDate(TrimSpace(text)).Some? {
        var c := DateIsRead(TrimSpace(text));
        MidnightIsOfDate(c);
      }
      if DateTyped(text, now, date) {
        DateTextParses(DateOf(date));
        WholeDays(date);
      }
    }
  }

  /** The payer is the participant named, or the caller where none is. */
  ghost predicate PayerTyped(s: Setting, name: string, payer: string) {
    if !Blank(name) then exists i: nat :: FirstNamed(s.fold, s.roster, name, i) && s.roster[i].value.id == payer
    else s.me != "" && payer == s.me && Listed(s, s.me)
  }

  lemma {:induction false} OnlyOneFirst(s: Setting, name: string, i: nat, j: nat)
    requires FirstNamed(s.fold, s.roster, name, i) && FirstNamed(s.fold, s.roster, name, j)
    ensures i == j
  {
  }

  /** Whom a name that is not blank resolves to. */
  lemma {:induction false} NameResolves(s: Setting, name: string, id: string)
    ensures (exists i: nat :: FirstNamed(s.fold, s.roster, name, i) && s.roster[i].value.id == id)
       <==> ByName(s.fold, s.roster, name).Some? && ByName(s.fold, s.roster, name).value.id == id
    ensures ByName(s.fold, s.roster, name).None? <==> Nobody(s.fold, s.roster, name)
  {
    var at := NamedMeaning(s.fold, s.roster, name);
    if i: nat :| FirstNamed(s.fold, s.roster, name, i) && s.roster[i].value.id == id {
      assert ByName(s.fold, s.roster, name).Some? by {
        assert HasName(s.fold, s.roster[i], NameKey(s.fold, name));
      }
      OnlyOneFirst(s, name, i, at);
    }
  }

  predicate Listed(s: Setting, id: string) {
    exists i :: 0 <= i < |s.roster| && HasId(s.roster[i], id)
  }

  lemma {:induction false} ListedIff(s: Setting, id: string)
    ensures Listed(s, id) <==> ById(s.roster, id).Some?
  {
    IdAtFirst(s.roster, id, 0);
    var at := IdAt(s.roster, id, 0);
    assert at < |s.roster| ==> HasId(s.roster[at], id);
  }

  lemma {:induction false} PayerMeaning(s: Setting, name: string, payer: string)
    ensures ReadPayer(s, name) == Ok(payer) <==> PayerTyped(s, name, payer)
  {
    NameResolves(s, name, payer);
    ListedIff(s, s.me);
  }

  /** One share of one for each name, for the participant it names, in order. */
  ghost predicate SharersTyped(s: Setting, names: seq<string>, shares: seq<Share>) {
    && |shares| == |names|
    && forall k :: 0 <= k < |names| ==> SharerTyped(s, names[k], shares[k])
  }

  ghost predicate SharerTyped(s: Setting, name: string, share: Share) {
    && share.shares == 1
    && exists i: nat :: FirstNamed(s.fold, s.roster, name, i) && s.roster[i].value.id == share.participantId
  }

  lemma {:induction false} SharerMeaning(s: Setting, name: string, share: Share)
    ensures SharerTyped(s, name, share) <==> OneShareFor(s, share, name)
  {
    NameResolves(s, name, share.participantId);
  }

  function Unknown(s: Setting, names: seq<string>): set<nat> {
    set i: nat | i < |names| && Nobody(s.fold, s.roster, names[i])
  }

  lemma {:induction false} NextSharer(s: Setting, names: seq<string>, unknown: set<nat>, k: nat)
    requires k < |names| && unknown == Unknown(s, names)
    ensures EvenShares(s, names, k).Err? ==> EvenShares(s, names, k + 1) == EvenShares(s, names, k)
    ensures EvenShares(s, names, k).Ok? && k in unknown ==>
      EvenShares(s, names, k + 1) == Err(UnknownName(names[k]))
    ensures EvenShares(s, names, k).Ok? && k !in unknown ==> EvenShares(s, names, k + 1).Ok?
  {
    NameResolves(s, names[k], "");
  }

  lemma {:induction false} KnownAreRead(s: Setting, names: seq<string>, unknown: set<nat>, k: nat)
    requires k <= |names| && unknown == Unknown(s, names) && forall j: nat :: j < k ==> j !in unknown
    ensures EvenShares(s, names, k).Ok?
  {
    if k > 0 {
      KnownAreRead(s, names, unknown, k - 1);
      NextSharer(s, names, unknown, k - 1);
    }
  }

  lemma {:induction false} TypedIsKnown(s: Setting, name: string, share: Share)
    requires SharerTyped(s, name, share)
    ensures !Nobody(s.fold, s.roster, name)
  {
  }

  lemma {:induction false} TypedAreRead(s: Setting, names: seq<string>, shares: seq<Share>)
    requires SharersTyped(s, names, shares)
    ensures EvenShares(s, names, |names|).Ok?
  {
    var unknown := Unknown(s, names);
    forall j: nat | j < |names| ensures j !in unknown {
      TypedIsKnown(s, names[j], shares[j]);
    }
    KnownAreRead(s, names, unknown, |names|);
  }

  lemma {:induction false} SharersMeaning(s: Setting, names: seq<string>, shares: seq<Share>)
    ensures EvenShares(s, names, |names|) == Ok(shares) <==> SharersTyped(s, names, shares)
  {
    forall k | 0 <= k < |names| && k < |shares|
      ensures SharerTyped(s, names[k], shares[k]) <==> OneShareFor(s, shares[k], names[k])
    {
      SharerMeaning(s, names[k], shares[k]);
    }
    if SharersTyped(s, names, shares) {
      TypedAreRead(s, names, shares);
    }
    if EvenShares(s, names, |names|).Ok? {
      EvenSharesAt(s, names, |names|);
      SameShares(s, names, EvenShares(s, names, |names|).value, shares);
    }
  }

  lemma {:induction false} SameShares(s: Setting, names: seq<string>, a: seq<Share>, b: seq<Share>)
    requires |a| == |names| && forall k :: 0 <= k < |names| ==> OneShareFor(s, a[k], names[k])
    ensures |b| == |names| && (forall k :: 0 <= k < |names| ==> OneShareFor(s, b[k], names[k])) ==> a == b
  {
  }

  // ---------------------------------------------------------------------
  // The whole form

  /** Who shares: as kept from the current expense, or as named, or everyone present
      with a share each. The first and the last may come to nobody, which is refused. */
  ghost predicate SplitTyped(s: Setting, w: Write, mode: string, shares: seq<Share>) {
    && shares != []
    && if w.keepSplit.Some? then
         && shares == Present(w.keepSplit.value.paidFor)
         && mode == (if w.keepSplit.value.splitMode == "" then "EVENLY" else w.keepSplit.value.splitMode)
       else if w.paidFor != [] then mode == "EVENLY" && SharersTyped(s, w.paidFor, shares)
       else
         && mode == "EVENLY" && |shares| == |Present(s.roster)|
         && forall k :: 0 <= k < |shares| ==> shares[k] == Share(Present(s.roster)[k].id, 1)
  }

  lemma {:induction false} EveryoneMeaning(ps: seq<Participant>, shares: seq<Share>)
    ensures Everyone(ps) == shares
       <==> |shares| == |ps| && forall k :: 0 <= k < |shares| ==> shares[k] == Share(ps[k].id, 1)
  {
  }

  lemma {:induction false} SplitMeaning(s: Setting, w: Write, mode: string, shares: seq<Share>)
    ensures ReadSplit(s, w) == Ok(Split(mode, shares)) <==> SplitTyped(s, w, mode, shares)
  {
    SharersMeaning(s, w.paidFor, shares);
    EveryoneMeaning(Present(s.roster), shares);
  }

  /** What the caller typed, field by field, makes this form. */
  ghost predicate FormTyped(s: Setting, w: Write, n: Number, f: Form) {
    && AmountTyped(w.amount, n, f.amount)
    && f.title == TrimSpace(w.title) != ""
    && DateTyped(w.date, s.now, f.date)
    && PayerTyped(s, w.paidBy, f.paidBy)
    && SplitTyped(s, w, f.splitMode, f.paidFor)
    && f.categoryId == w.categoryId && f.reimbursement == w.reimbursement
    && f.notes == (if TrimSpace(w.notes) == "" then None else Some(w.notes))
    && f.recurrence == "NONE"
  }

  /** A form is built exactly when every field can be understood, and then it says
      what was typed. */
  lemma {:induction false} FormMeaning(s: Setting, w: Write, f: Form)
    ensures FormFor(s, w) == Ok(f) <==> exists n :: FormTyped(s, w, n, f)
  {
    PartsRead(s, w, f);
    DateMeaning(w.date, s.now, f.date);
    PayerMeaning(s, w.paidBy, f.paidBy);
    SplitMeaning(s, w, f.splitMode, f.paidFor);
    AmountTypedIff(w.amount, f.amount);
    if n :| AmountTyped(w.amount, n, f.amount) {
      assert FormFor(s, w) == Ok(f) ==> FormTyped(s, w, n, f);
    }
  }

  lemma {:induction false} AmountTypedIff(text: string, cents: Amount)
    ensures ReadAmount(text) == Ok(cents) <==> exists n :: AmountTyped(text, n, cents)
  {
    var m := AmountMeaning(text);
    forall n | AmountTyped(text, n, cents) ensures ReadAmount(text) == Ok(cents) {
      WrittenIsRead(n);
      ToAmountIsNearestCent(Meant(n));
    }
    if ReadAmount(text) == Ok(cents) {
      assert AmountTyped(text, m.value, cents);
    }
  }

  /** The fields an update names are in its form as they were typed. */
  ghost predicate NamedTyped(s: Setting, c: Change, f: Form) {
    && (c.amount != "" ==> exists n :: AmountTyped(c.amount, n, f.amount))
    && (c.title != "" ==> f.title == TrimSpace(c.title) != "")
    && (c.date != "" ==> DateTyped(c.date, s.now, f.date))
    && (c.paidBy != "" ==> PayerTyped(s, c.paidBy, f.paidBy))
    && (c.paidFor != [] ==> f.splitMode == "EVENLY" && SharersTyped(s, c.paidFor, f.paidFor))
    && (c.categoryId != 0 ==> f.categoryId == c.categoryId)
    && (c.reimbursement.Some? ==> f.reimbursement == c.reimbursement.value)
    && (c.notes != "" ==> f.notes == (if TrimSpace(c.notes) == "" then None else Some(c.notes)))
  }

  lemma {:induction false} UpdateTakesTyped(s: Setting, c: Change, e: Expense, f: Form)
    requires UpdateFor(s, c, e) == Ok(f)
    ensures NamedTyped(s, c, f)
  {
    NamedTakeEffect(s, c, e, f);
    AmountTypedIff(c.amount, f.amount);
    DateMeaning(c.date, s.now, f.date);
    PayerMeaning(s, c.paidBy, f.paidBy);
    SharersMeaning(s, c.paidFor, f.paidFor);
  }

  /** What Spliit has recorded states exactly the form it was given, under its ID, and
      its payer's object is the participant with the payer's ID. */
  lemma {:induction false} RecordedStatesForm(roster: Roster, f: Form, id: string)
    ensures Exactly(Recorded(roster, f, id)) == f && Recorded(roster, f, id).id == id
    ensures var p := Recorded(roster, f, id).paidBy; p.Some? ==> p in roster && p.value.id == f.paidBy
  {
    PresentAll(f.paidFor, Recorded(roster, f, id).paidFor);
  }

  // ---------------------------------------------------------------------
  // Complaints

  ghost predicate IsNumber(text: string) {
    exists n :: WellWritten(n) && TextOf(n) == TrimSpace(text)
  }

  ghost predicate IsZero(text: string) {
    exists n :: WellWritten(n) && TextOf(n) == TrimSpace(text) && Meant(n).coef == 0
  }

  ghost predicate IsDate(s: Setting, text: string) {
    exists date: Instant :: DateTyped(text, s.now, date)
  }

  /** The first name of the list that nobody has. */
  ghost predicate FirstUnknown(s: Setting, names: seq<string>, name: string) {
    exists k :: 0 <= k < |names| && names[k] == name && Nobody(s.fold, s.roster, names[k])
      && forall i :: 0 <= i < k ==> !Nobody(s.fold, s.roster, names[i])
  }

  /** What is complained of in the split. */
  ghost predicate SplitRefused(s: Setting, w: Write, e: FormError) {
    if w.keepSplit.Some? then e == NoSharers && Present(w.keepSplit.value.paidFor) == []
    else if w.paidFor != [] then e.UnknownName? && FirstUnknown(s, w.paidFor, e.name)
    else e == NoSharers && Present(s.roster) == []
  }

  ghost predicate PayerRefused(s: Setting, w: Write, e: FormError) {
    if !Blank(w.paidBy) then e == UnknownName(w.paidBy) && Nobody(s.fold, s.roster, w.paidBy)
    else if s.me == "" then e == NoIdentity
    else e == IdentityMissing && !Listed(s, s.me)
  }

  ghost predicate PayerFound(s: Setting, w: Write) {
    if !Blank(w.paidBy) then !Nobody(s.fold, s.roster, w.paidBy) else s.me != "" && Listed(s, s.me)
  }

  /** The complaint is about the first field, in the order amount, title, date, payer,
      split, that cannot be understood. */
  ghost predicate Refused(s: Setting, w: Write, e: FormError) {
    if !IsNumber(w.amount) then e == NotADecimal
    else if IsZero(w.amount) then e == ZeroAmount
    else if TrimSpace(w.title) == "" then e == NoTitle
    else if !IsDate(s, w.date) then e == BadDate
    else if !PayerFound(s, w) then PayerRefused(s, w, e)
    else SplitRefused(s, w, e)
  }

  lemma {:induction false} AmountRefused(text: string)
    ensures ReadAmount(text) == Err(NotADecimal) <==> !IsNumber(text)
    ensures ReadAmount(text) == Err(ZeroAmount) <==> IsZero(text)
    ensures ReadAmount(text).Err? ==> ReadAmount(text).error.NotADecimal? || ReadAmount(text).error.ZeroAmount?
  {
    var m := AmountMeaning(text);
    forall n | WellWritten(n) && TextOf(n) == TrimSpace(text)
      ensures m.Some? && Meant(n) == Meant(m.value)
    {
      WrittenIsRead(n);
      WrittenIsRead(m.value);
    }
  }

  lemma {:induction false} DateRefused(s: Setting, text: string)
    ensures ReadDate(text, s.now).Ok? <==> IsDate(s, text)
    ensures ReadDate(text, s.now).Err? ==> ReadDate(text, s.now) == Err(BadDate)
  {
    if ReadDate(text, s.now).Ok? {
      DateMeaning(text, s.now, ReadDate(text, s.now).value);
    } else {
      DateMeaning(text, s.now, 0);
      forall date: Instant ensures !DateTyped(text, s.now, date) {
        DateMeaning(text, s.now, date);
      }
    }
  }

  lemma {:induction false} PayerComplaint(s: Setting, w: Write)
    ensures ReadPayer(s, w.paidBy).Ok? <==> PayerFound(s, w)
    ensures ReadPayer(s, w.paidBy).Err? ==> PayerRefused(s, w, ReadPayer(s, w.paidBy).error)
  {
    NameResolves(s, w.paidBy, "");
    ListedIff(s, s.me);
  }

  lemma {:induction false} FirstIn(places: set<nat>, n: nat) returns (i: nat)
    ensures i <= n && (i < n ==> i in places) && forall j: nat :: j < i ==> j !in places
  {
    if n == 0 {
      i := 0;
    } else {
      i := FirstIn(places, n - 1);
      if i == n - 1 && n - 1 !in places {
        i := n;
      }
    }
  }

  lemma {:induction false} NamesRefused(s: Setting, names: seq<string>)
    requires EvenShares(s, names, |names|).Err?
    ensures var e := EvenShares(s, names, |names|).error; e.UnknownName? && FirstUnknown(s, names, e.name)
  {
    var unknown := Unknown(s, names);
    var i := FirstIn(unknown, |names|);
    KnownAreRead(s, names, unknown, i);
    NextSharer(s, names, unknown, i);
    EvenSharesFail(s, names, i + 1, |names|);
    forall j | 0 <= j < i ensures !Nobody(s.fold, s.roster, names[j]) {
      assert j !in unknown;
    }
  }

  lemma {:induction false} SplitComplaint(s: Setting, w: Write)
    ensures ReadSplit(s, w).Err? ==> SplitRefused(s, w, ReadSplit(s, w).error)
  {
    if w.keepSplit.None? && w.paidFor != [] {
      if EvenShares(s, w.paidFor, |w.paidFor|).Ok? {
        EvenSharesAt(s, w.paidFor, |w.paidFor|);
      } else {
        NamesRefused(s, w.paidFor);
      }
    }
  }

  lemma {:induction false} FormRefused(s: Setting, w: Write)
    requires FormFor(s, w).Err?
    ensures Refused(s, w, FormFor(s, w).error)
  {
    AmountRefused(w.amount);
    DateRefused(s, w.date);
    PayerComplaint(s, w);
    SplitComplaint(s, w);
  }
}
