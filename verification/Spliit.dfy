/** The parts of Spliit's data the server works on, and how it looks
    participants up. Pointers that the code tests against nil are options. */
module Spliit {
  import opened Wrappers
  import opened Text
  import opened Money
  import opened Dates

  datatype Participant = Participant(id: string, name: string)

  type Roster = seq<Option<Participant>>

  datatype Share = Share(participantId: string, shares: nat)

  datatype Expense = Expense(
    id: string,
    title: string,
    amount: Amount,
    date: Instant,
    paidById: string,
    paidBy: Option<Participant>,
    paidFor: seq<Option<Share>>,
    splitMode: string,
    categoryId: int,
    reimbursement: bool,
    notes: Option<string>,
    recurrence: string)

  datatype Group = Group(
    name: string,
    information: Option<string>,
    currency: string,
    currencyCode: Option<string>,
    participants: Roster)

  /** The entries that are not nil, in order. */
  function Present<T>(xs: seq<Option<T>>): seq<T> {
    if xs == [] then []
    else Present(xs[..|xs| - 1]) + match xs[|xs| - 1] { case None => [] case Some(x) => [x] }
  }

  lemma {:induction false} PresentStep<T>(xs: seq<Option<T>>, i: nat)
    requires i < |xs|
    ensures Present(xs[..i + 1])
         == Present(xs[..i]) + match xs[i] { case None => [] case Some(x) => [x] }
  {
    assert xs[..i + 1][..i] == xs[..i];
  }

  lemma {:induction false} PresentAll<T>(xs: seq<T>, somes: seq<Option<T>>)
    requires |somes| == |xs| && forall i :: 0 <= i < |xs| ==> somes[i] == Some(xs[i])
    ensures Present(somes) == xs
  {
    if xs != [] {
      var n := |xs| - 1;
      PresentAll(xs[..n], somes[..n]);
      assert xs[..n] + [xs[n]] == xs;
    }
  }

  lemma {:induction false} PresentMembers<T>(xs: seq<Option<T>>, x: T)
    ensures x in Present(xs) <==> Some(x) in xs
  {
    if xs != [] {
      var n := |xs| - 1;
      PresentMembers(xs[..n], x);
      assert xs == xs[..n] + [xs[n]];
    }
  }

  predicate HasId(entry: Option<Participant>, id: string) {
    entry.Some? && entry.value.id == id
  }

  predicate HasName(fold: Folding, entry: Option<Participant>, key: string) {
    entry.Some? && NameKey(fold, entry.value.name) == key
  }

  /** The position of the first participant with an ID, or the length. */
  function IdAt(roster: Roster, id: string, i: nat): (r: nat)
    requires i <= |roster|
    ensures i <= r <= |roster| && (r < |roster| ==> HasId(roster[r], id))
    decreases |roster| - i
  {
    if i < |roster| && !HasId(roster[i], id) then IdAt(roster, id, i + 1) else i
  }

  /** The position of the first participant whose name has a key, or the length. */
  function NameAt(fold: Folding, roster: Roster, key: string, i: nat): (r: nat)
    requires i <= |roster|
    ensures i <= r <= |roster| && (r < |roster| ==> HasName(fold, roster[r], key))
    decreases |roster| - i
  {
    if i < |roster| && !HasName(fold, roster[i], key) then NameAt(fold, roster, key, i + 1) else i
  }

  lemma {:induction false} IdAtFirst(roster: Roster, id: string, i: nat)
    requires i <= |roster|
    ensures forall j :: i <= j < IdAt(roster, id, i) ==> !HasId(roster[j], id)
    decreases |roster| - i
  {
    if i < |roster| && !HasId(roster[i], id) {
      IdAtFirst(roster, id, i + 1);
    }
  }

  lemma {:induction false} NameAtFirst(fold: Folding, roster: Roster, key: string, i: nat)
    requires i <= |roster|
    ensures forall j :: i <= j < NameAt(fold, roster, key, i) ==> !HasName(fold, roster[j], key)
    decreases |roster| - i
  {
    if i < |roster| && !HasName(fold, roster[i], key) {
      NameAtFirst(fold, roster, key, i + 1);
    }
  }

  function ById(roster: Roster, id: string): (r: Option<Participant>)
    ensures r.Some? ==> r in roster && r.value.id == id
  {
    var at := IdAt(roster, id, 0);
    if at < |roster| then roster[at] else None
  }

  function ByName(fold: Folding, roster: Roster, name: string): (r: Option<Participant>)
    ensures r.Some? ==> r in roster && NameKey(fold, r.value.name) == NameKey(fold, name)
  {
    var at := NameAt(fold, roster, NameKey(fold, name), 0);
    if at < |roster| then roster[at] else None
  }

  /** The first participant with the name, up to case and outer space. */
  predicate FirstNamed(fold: Folding, roster: Roster, name: string, i: nat) {
    && i < |roster| && HasName(fold, roster[i], NameKey(fold, name))
    && forall j :: 0 <= j < i ==> !HasName(fold, roster[j], NameKey(fold, name))
  }

  predicate Nobody(fold: Folding, roster: Roster, name: string) {
    forall j :: 0 <= j < |roster| ==> !HasName(fold, roster[j], NameKey(fold, name))
  }

  lemma {:induction false} NamedMeaning(fold: Folding, roster: Roster, name: string) returns (i: nat)
    ensures ByName(fold, roster, name).Some? ==>
      FirstNamed(fold, roster, name, i) && roster[i] == ByName(fold, roster, name)
    ensures ByName(fold, roster, name).None? <==> Nobody(fold, roster, name)
  {
    i := NameAt(fold, roster, NameKey(fold, name), 0);
    NameAtFirst(fold, roster, NameKey(fold, name), 0);
    assert i < |roster| ==> HasName(fold, roster[i], NameKey(fold, name));
  }

  predicate DistinctIds(roster: Roster) {
    forall i, j :: 0 <= i < j < |roster| && roster[i].Some? ==> !HasId(roster[j], roster[i].value.id)
  }

  predicate DistinctNames(fold: Folding, roster: Roster) {
    forall i, j :: 0 <= i < j < |roster| && roster[i].Some?
      ==> !HasName(fold, roster[j], NameKey(fold, roster[i].value.name))
  }

  /** With distinct IDs a participant is found by its own ID. */
  lemma {:induction false} FoundById(roster: Roster, p: Participant)
    requires DistinctIds(roster) && Some(p) in roster
    ensures ById(roster, p.id) == Some(p)
  {
    var k :| 0 <= k < |roster| && roster[k] == Some(p);
    IdAtFirst(roster, p.id, 0);
    assert HasId(roster[k], p.id);
    assert HasId(roster[IdAt(roster, p.id, 0)], p.id);
  }

  /** With distinct names a participant is found by any spelling of its name. */
  lemma {:induction false} FoundByName(fold: Folding, roster: Roster, p: Participant, name: string)
    requires DistinctNames(fold, roster) && Some(p) in roster
    requires NameKey(fold, name) == NameKey(fold, p.name)
    ensures ByName(fold, roster, name) == Some(p)
  {
    var k :| 0 <= k < |roster| && roster[k] == Some(p);
    NameAtFirst(fold, roster, NameKey(fold, name), 0);
    assert HasName(fold, roster[k], NameKey(fold, name));
    assert HasName(fold, roster[NameAt(fold, roster, NameKey(fold, name), 0)], NameKey(fold, name));
  }

  /** `FindParticipant` */
  method FindParticipant(roster: Roster, id: string) returns (p: Option<Participant>)
    ensures p == ById(roster, id)
  {
    for i := 0 to |roster|
      invariant IdAt(roster, id, 0) == IdAt(roster, id, i)
    {
      if HasId(roster[i], id) {
        return roster[i];
      }
    }
    return None;
  }

  /** `FindParticipantByName` and `findByName`: the first participant whose
      trimmed name equals the trimmed argument under case folding. */
  method FindByName(fold: Folding, roster: Roster, name: string) returns (p: Option<Participant>)
    ensures p == ByName(fold, roster, name)
  {
    var want := NameKey(fold, name);
    for i := 0 to |roster|
      invariant NameAt(fold, roster, want, 0) == NameAt(fold, roster, want, i)
    {
      if HasName(fold, roster[i], want) {
        return roster[i];
      }
    }
    return None;
  }

  /** The loop that skips nil entries. */
  method CollectPresent<T>(xs: seq<Option<T>>) returns (present: seq<T>)
    ensures present == Present(xs)
  {
    present := [];
    for i := 0 to |xs|
      invariant present == Present(xs[..i])
    {
      PresentStep(xs, i);
      if xs[i].Some? {
        present := present + [xs[i].value];
      }
    }
    assert xs[..|xs|] == xs;
  }
}
