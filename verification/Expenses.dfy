/** Building an expense form from tool input, for both write tools. */
module Expenses {
  import opened Wrappers
  import opened Text
  import Numerals
  import opened Money
  import opened Dates
  import opened Spliit

  const EVENLY: string := "EVENLY"
  const NEVER: string := "NONE"

  /** The input both write tools share. Text is as the caller typed it; an empty
      string is an omitted field. */
  datatype Write = Write(
    title: string,
    amount: string,
    date: string,
    paidBy: string,
    paidFor: seq<string>,
    categoryId: int,
    notes: string,
    reimbursement: bool,
    keepSplit: Option<Expense>)

  /** An update, in which every field may be omitted. */
  datatype Change = Change(
    title: string,
    amount: string,
    date: string,
    paidBy: string,
    paidFor: seq<string>,
    categoryId: int,
    notes: string,
    reimbursement: Option<bool>)

  const NOTHING: Change := Change("", "", "", "", [], 0, "", None)

  datatype Form = Form(
    date: Instant,
    title: string,
    categoryId: int,
    amount: Amount,
    paidBy: string,
    paidFor: seq<Share>,
    splitMode: string,
    reimbursement: bool,
    notes: Option<string>,
    recurrence: string)

  datatype FormError =
    | NotADecimal
    | ZeroAmount
    | NoTitle
    | BadDate
    | UnknownName(name: string)
    | NoIdentity
    | IdentityMissing
    | NoSharers

  /** What a form is built against: the group, the participant pinned as the
      caller, and the time of the call. */
  datatype Setting = Setting(fold: Folding, roster: Roster, me: string, now: Instant)

  function AsWrite(c: Change): Write {
    Write(c.title, c.amount, c.date, c.paidBy, c.paidFor, c.categoryId, c.notes,
          c.reimbursement == Some(true), None)
  }

  /** An expense's fields as text a caller could have typed. */
  datatype Typed = Typed(title: string, amount: string, date: string, paidBy: string, notes: string)

  function AsTyped(e: Expense): Typed {
    Typed(e.title, PrintCents(e.amount), FormatDate(e.date),
          if e.paidBy.Some? then e.paidBy.value.name else "",
          if e.notes.Some? then e.notes.value else "")
  }

  function Or(text: string, fallback: string): string {
    if text == "" then fallback else text
  }

  /** Unset fields filled in from the current expense. */
  function Defaulted(w: Write, current: Expense, keepReimbursement: bool): Write {
    var typed := AsTyped(current);
    Write(Or(w.title, typed.title),
          Or(w.amount, typed.amount),
          Or(w.date, typed.date),
          Or(w.paidBy, typed.paidBy),
          w.paidFor,
          if w.categoryId == 0 then current.categoryId else w.categoryId,
          Or(w.notes, typed.notes),
          if keepReimbursement then current.reimbursement else w.reimbursement,
          if w.paidFor == [] then Some(current) else w.keepSplit)
  }

  /** The write input as the code holds it: a struct that
      `applyExpenseDefaults` fills in through a pointer. */
  class WriteInput {
    var title: string
    var amount: string
    var date: string
    var paidBy: string
    var paidFor: seq<string>
    var categoryId: int
    var notes: string
    var reimbursement: bool
    var keepSplit: Option<Expense>

    function Value(): Write
      reads this
    {
      Write(title, amount, date, paidBy, paidFor, categoryId, notes, reimbursement, keepSplit)
    }

    constructor (w: Write)
      ensures Value() == w
    {
      title, amount, date, paidBy := w.title, w.amount, w.date, w.paidBy;
      paidFor, categoryId, notes := w.paidFor, w.categoryId, w.notes;
      reimbursement, keepSplit := w.reimbursement, w.keepSplit;
    }

    method FillText(typed: Typed)
      modifies `title, `amount, `date, `paidBy, `notes
      ensures title == Or(old(title), typed.title) && amount == Or(old(amount), typed.amount)
      ensures date == Or(old(date), typed.date) && paidBy == Or(old(paidBy), typed.paidBy)
      ensures notes == Or(old(notes), typed.notes)
    {
      if title == "" {
        title := typed.title;
      }
      if amount == "" {
        amount := typed.amount;
      }
      if date == "" {
        date := typed.date;
      }
      if paidBy == "" {
        paidBy := typed.paidBy;
      }
      if notes == "" {
        notes := typed.notes;
      }
    }

    /** `applyExpenseDefaults` */
    method ApplyDefaults(current: Expense, keepReimbursement: bool)
      modifies this
      ensures Value() == Defaulted(old(Value()), current, keepReimbursement)
    {
      FillText(AsTyped(current));
      if |paidFor| == 0 {
        keepSplit := Some(current);
      }
      if keepReimbursement {
        reimbursement := current.reimbursement;
      }
      if categoryId == 0 {
        categoryId := current.categoryId;
      }
    }
  }

  // ---------------------------------------------------------------------
  // Reading each part of the input

  function ReadAmount(text: string): Result<Amount, FormError> {
    match ParseDecimal(TrimSpace(text))
    case None => Err(NotADecimal)
    case Some(d) => if d.coef == 0 then Err(ZeroAmount) else Ok(ToAmount(d))
  }

  /** An amount under half a cent passes the zero check. */
  lemma {:induction false} TinyAmountIsZero()
    ensures ReadAmount("0.004") == Ok(0)
  {
    var text := "0.004";
    VisibleIsNotSpace('0');
    VisibleIsNotSpace('4');
    TrimBare(White, text);
    ParsePlain("", "0", "004", text);
    Numerals.LeadingZeros(3, "4");
    assert Numerals.Zeros(3) + "4" == "0" + "004";
    ToAmountIsNearestCent(Decimal(4, -3));
  }

  function ReadTitle(text: string): Result<string, FormError> {
    if Blank(text) then Err(NoTitle) else Ok(TrimSpace(text))
  }

  function ReadDate(text: string, now: Instant): Result<Instant, FormError> {
    if text == "" then Ok(StartOfDay(now))
    else match ParseDate(TrimSpace(text))
      case None => Err(BadDate)
      case Some(t) => Ok(t)
  }

  function ReadPayer(s: Setting, name: string): Result<string, FormError> {
    if !Blank(name) then
      match ByName(s.fold, s.roster, name)
      case None => Err(UnknownName(name))
      case Some(p) => Ok(p.id)
    else if s.me == "" then Err(NoIdentity)
    else if ById(s.roster, s.me).None? then Err(IdentityMissing)
    else Ok(s.me)
  }

  /** One even share for each of the first `k` names, in order. */
  function EvenShares(s: Setting, names: seq<string>, k: nat): Result<seq<Share>, FormError>
    requires k <= |names|
  {
    if k == 0 then Ok([])
    else match EvenShares(s, names, k - 1)
      case Err(e) => Err(e)
      case Ok(shares) => AddSharer(shares, ByName(s.fold, s.roster, names[k - 1]), names[k - 1])
  }

  function AddSharer(shares: seq<Share>, found: Option<Participant>, name: string)
    : Result<seq<Share>, FormError>
  {
    match found
    case None => Err(UnknownName(name))
    case Some(p) => Ok(shares + [Share(p.id, 1)])
  }

  function Everyone(ps: seq<Participant>): seq<Share> {
    seq(|ps|, i requires 0 <= i < |ps| => Share(ps[i].id, 1))
  }

  datatype Split = Split(mode: string, shares: seq<Share>)

  function ReadSplit(s: Setting, w: Write): Result<Split, FormError> {
    var read: Result<Split, FormError> :=
      if w.keepSplit.Some? then
        var kept := w.keepSplit.value;
        Ok(Split(if kept.splitMode != "" then kept.splitMode else EVENLY, Present(kept.paidFor)))
      else if w.paidFor != [] then
        match EvenShares(s, w.paidFor, |w.paidFor|)
        case Err(e) => Err(e)
        case Ok(shares) => Ok(Split(EVENLY, shares))
      else Ok(Split(EVENLY, Everyone(Present(s.roster))));
    if read.Ok? && read.value.shares == [] then Err(NoSharers) else read
  }

  function ReadNotes(text: string): Option<string> {
    if Blank(text) then None else Some(text)
  }

  /** The form made of its parts, or the first complaint about one. */
  function Assemble(
    amount: Result<Amount, FormError>, title: Result<string, FormError>,
    date: Result<Instant, FormError>, payer: Result<string, FormError>,
    split: Result<Split, FormError>,
    categoryId: int, reimbursement: bool, notes: Option<string>)
    : Result<Form, FormError>
  {
    if amount.Err? then Err(amount.error)
    else if title.Err? then Err(title.error)
    else if date.Err? then Err(date.error)
    else if payer.Err? then Err(payer.error)
    else if split.Err? then Err(split.error)
    else Ok(Form(date.value, title.value, categoryId, amount.value, payer.value,
                 split.value.shares, split.value.mode, reimbursement, notes, NEVER))
  }

  /** The form the input asks for. */
  function FormFor(s: Setting, w: Write): Result<Form, FormError> {
    Assemble(ReadAmount(w.amount), ReadTitle(w.title), ReadDate(w.date, s.now),
             ReadPayer(s, w.paidBy), ReadSplit(s, w),
             w.categoryId, w.reimbursement, ReadNotes(w.notes))
  }

  /** `buildExpenseForm` */
  method BuildExpenseForm(s: Setting, w: Write) returns (r: Result<Form, FormError>)
    ensures r == FormFor(s, w)
  {
    var amount := ReadAmount(w.amount);
    if amount.Err? {
      return Err(amount.error);
    }
    if Blank(w.title) {
      return Err(NoTitle);
    }
    var date := ReadDate(w.date, s.now);
    if date.Err? {
      return Err(date.error);
    }
    var payer := FindPayer(s, w.paidBy);
    if payer.Err? {
      return Err(payer.error);
    }
    var split := FindSplit(s, w);
    if split.Err? {
      return Err(split.error);
    }
    r := Ok(Form(date.value, TrimSpace(w.title), w.categoryId, amount.value, payer.value,
                 split.value.shares, split.value.mode, w.reimbursement, ReadNotes(w.notes), NEVER));
  }

  method FindPayer(s: Setting, name: string) returns (r: Result<string, FormError>)
    ensures r == ReadPayer(s, name)
  {
    if !Blank(name) {
      var p := FindByName(s.fold, s.roster, name);
      return if p.Some? then Ok(p.value.id) else Err(UnknownName(name));
    }
    if s.me == "" {
      return Err(NoIdentity);
    }
    var p := FindParticipant(s.roster, s.me);
    return if p.Some? then Ok(s.me) else Err(IdentityMissing);
  }

  method FindSplit(s: Setting, w: Write) returns (r: Result<Split, FormError>)
    ensures r == ReadSplit(s, w)
  {
    var mode, shares := EVENLY, [];
    if w.keepSplit.Some? {
      var kept := w.keepSplit.value;
      if kept.splitMode != "" {
        mode := kept.splitMode;
      }
      shares := CollectPresent(kept.paidFor);
    } else if |w.paidFor| > 0 {
      var named := ShareByNames(s, w.paidFor);
      if named.Err? {
        return Err(named.error);
      }
      shares := named.value;
    } else {
      shares := ShareWithEveryone(s.roster);
    }
    if |shares| == 0 {
      return Err(NoSharers);
    }
    return Ok(Split(mode, shares));
  }

  method ShareByNames(s: Setting, names: seq<string>) returns (r: Result<seq<Share>, FormError>)
    ensures r == EvenShares(s, names, |names|)
  {
    r := Ok([]);
    for i := 0 to |names|
      invariant r.Ok? && EvenShares(s, names, i) == r
    {
      var p := FindByName(s.fold, s.roster, names[i]);
      r := AddSharer(r.value, p, names[i]);
      EvenSharesStep(s, names, i);
      if p.None? {
        EvenSharesFail(s, names, i + 1, |names|);
        return;
      }
    }
  }

  lemma {:induction false} EvenSharesStep(s: Setting, names: seq<string>, i: nat)
    requires i < |names| && EvenShares(s, names, i).Ok?
    ensures EvenShares(s, names, i + 1)
         == AddSharer(EvenShares(s, names, i).value, ByName(s.fold, s.roster, names[i]), names[i])
  {
  }

  lemma {:induction false} EvenSharesFail(s: Setting, names: seq<string>, i: nat, k: nat)
    requires i <= k <= |names| && EvenShares(s, names, i).Err?
    ensures EvenShares(s, names, k) == EvenShares(s, names, i)
  {
    if i < k {
      EvenSharesFail(s, names, i, k - 1);
    }
  }

  method ShareWithEveryone(roster: Roster) returns (shares: seq<Share>)
    ensures shares == Everyone(Present(roster))
  {
    shares := [];
    for i := 0 to |roster|
      invariant shares == Everyone(Present(roster[..i]))
    {
      PresentStep(roster, i);
      if roster[i].Some? {
        shares := shares + [Share(roster[i].value.id, 1)];
      }
    }
    assert roster[..|roster|] == roster;
  }

  /** The sharer a name stands for. */
  predicate OneShareFor(s: Setting, share: Share, name: string) {
    ByName(s.fold, s.roster, name).Some? && share == Share(ByName(s.fold, s.roster, name).value.id, 1)
  }

  /** Named sharers get one share each, in the order named. */
  lemma {:induction false} EvenSharesAt(s: Setting, names: seq<string>, k: nat)
    requires k <= |names| && EvenShares(s, names, k).Ok?
    ensures var shares := EvenShares(s, names, k).value;
            |shares| == k && forall i :: 0 <= i < k ==> OneShareFor(s, shares[i], names[i])
  {
    if k > 0 {
      EvenSharesAt(s, names, k - 1);
    }
  }

  /** The expense Spliit holds once it has taken a form: the payer's nested object
      is the participant with that ID. */
  function Recorded(roster: Roster, f: Form, id: string): Expense {
    Expense(id, f.title, f.amount, f.date, f.paidBy, ById(roster, f.paidBy),
            seq(|f.paidFor|, i requires 0 <= i < |f.paidFor| => Some(f.paidFor[i])), f.splitMode,
            f.categoryId, f.reimbursement, f.notes, f.recurrence)
  }
}
