/** What an edit of a group sends to Spliit, and when it is refused. */
module GroupFormLaws {
  import opened Wrappers
  import opened Text
  import opened Spliit
  import opened GroupEdits
  import opened GroupEditLaws

  // ---------------------------------------------------------------------
  // The form

  /** The trimmed request where there is one, and the group's own otherwise. */
  predicate IsChanged(asked: string, current: string, r: string) {
    if TrimSpace(asked) == "" then r == current else r == TrimSpace(asked)
  }

  lemma {:induction false} ChangedMeaning(asked: string, current: string)
    ensures IsChanged(asked, current, Changed(asked, current))
  {
  }

  /** What an accepted edit sends: the group's information and currency code as they
      are, name and currency as asked for or as they are, and the merged participants,
      at least one of them. */
  lemma {:induction false} FormMeaning(
    fold: Folding, edit: Edit, group: Group, withExpenses: seq<string>, me: string, f: GroupForm)
    requires FormFor(fold, edit, group, withExpenses, me) == Ok(f)
    ensures f.information == group.information && f.currencyCode == group.currencyCode
    ensures IsChanged(edit.name, group.name, f.name) && IsChanged(edit.currency, group.currency, f.currency)
    ensures f.participants != [] && MergedList(SceneOf(fold, group, withExpenses, me), edit) == Ok(f.participants)
    ensures f.participants == KeptEntries(SceneOf(fold, group, withExpenses, me), edit)
                              + NewEntries(edit.add, |edit.add|)
  {
    var s := SceneOf(fold, group, withExpenses, me);
    AddsFollow(fold, KeptEntries(s, edit), edit.add, |edit.add|);
  }

  /** Everyone present who has expenses, or is the caller, is among the participants
      sent, under the same ID. */
  lemma {:induction false} BusyAreSent(
    fold: Folding, edit: Edit, group: Group, withExpenses: seq<string>, me: string, f: GroupForm, p: Participant)
    requires FormFor(fold, edit, group, withExpenses, me) == Ok(f)
    requires Some(p) in group.participants && (p.id in withExpenses || p.id == me)
    ensures exists i :: 0 <= i < |f.participants| && f.participants[i].id == Some(p.id)
  {
    PresentMembers(group.participants, p);
    BusySurvive(SceneOf(fold, group, withExpenses, me), edit, p);
  }

  // ---------------------------------------------------------------------
  // What is accepted

  /** The rename is of somebody, to a name that is not blank. */
  predicate RenameFine(fold: Folding, roster: Roster, rn: Rename) {
    !Nobody(fold, roster, rn.from) && TrimSpace(rn.to) != ""
  }

  /** The removal is of somebody, not the caller, without expenses. */
  ghost predicate RemovalFine(fold: Folding, roster: Roster, withExpenses: seq<string>, me: string, name: string) {
    && !Nobody(fold, roster, name)
    && forall i: nat :: FirstNamed(fold, roster, name, i)
         ==> roster[i].value.id != me && roster[i].value.id !in withExpenses
  }

  lemma {:induction false} RenameFineIff(s: Scene, rn: Rename)
    ensures RenameProblem(s, rn) == None <==> RenameFine(s.fold, s.roster, rn)
  {
    var _ := NamedMeaning(s.fold, s.roster, rn.from);
  }

  lemma {:induction false} RemovalFineIff(
    fold: Folding, group: Group, withExpenses: seq<string>, me: string, name: string)
    ensures RemoveProblem(SceneOf(fold, group, withExpenses, me), name) == None
       <==> RemovalFine(fold, group.participants, withExpenses, me, name)
  {
    var s := SceneOf(fold, group, withExpenses, me);
    var at := NamedMeaning(s.fold, s.roster, name);
    if Named(s, name).Some? {
      forall i: nat | FirstNamed(fold, group.participants, name, i) ensures i == at {
      }
    }
  }

  /** An addition is blank, or has a name that nobody kept has and no addition before
      it. */
  predicate AdditionFine(fold: Folding, kept: seq<Entry>, names: seq<string>, k: nat)
    requires k < |names|
  {
    TrimSpace(names[k]) == ""
    || ((forall i :: 0 <= i < |kept| ==> NameKey(fold, kept[i].name) != NameKey(fold, names[k]))
        && forall j :: 0 <= j < k && TrimSpace(names[j]) != "" ==> NameKey(fold, names[j]) != NameKey(fold, names[k]))
  }

  predicate SomeEntry(fold: Folding, entries: seq<Entry>, key: string) {
    exists i :: 0 <= i < |entries| && NameKey(fold, entries[i].name) == key
  }

  predicate SomeAddition(fold: Folding, names: seq<string>, k: nat, key: string)
    requires k <= |names|
  {
    exists j :: 0 <= j < k && TrimSpace(names[j]) != "" && NameKey(fold, names[j]) == key
  }

  lemma {:induction false} EntriesJoin(fold: Folding, a: seq<Entry>, b: seq<Entry>, key: string)
    ensures SomeEntry(fold, a + b, key) <==> SomeEntry(fold, a, key) || SomeEntry(fold, b, key)
  {
    assert forall i :: 0 <= i < |a| ==> (a + b)[i] == a[i];
    assert forall i :: 0 <= i < |b| ==> (a + b)[|a| + i] == b[i];
  }

  lemma {:induction false} OneAdditionMore(fold: Folding, names: seq<string>, k: nat, key: string)
    requires k < |names|
    ensures SomeAddition(fold, names, k + 1, key)
       <==> SomeAddition(fold, names, k, key) || (TrimSpace(names[k]) != "" && NameKey(fold, names[k]) == key)
  {
  }

  lemma {:induction false} OneEntry(fold: Folding, e: Entry, key: string)
    ensures SomeEntry(fold, [e], key) <==> NameKey(fold, e.name) == key
  {
    assert NameKey(fold, e.name) == key ==> NameKey(fold, [e][0].name) == key;
  }

  lemma {:induction false} NewEntryNamed(fold: Folding, names: seq<string>, k: nat, key: string)
    requires k <= |names|
    ensures SomeEntry(fold, NewEntries(names, k), key) <==> SomeAddition(fold, names, k, key)
  {
    if k > 0 {
      NewEntryNamed(fold, names, k - 1, key);
      OneAdditionMore(fold, names, k - 1, key);
      NameKeyOfTrimmed(fold, names[k - 1]);
      var e := Entry(None, TrimSpace(names[k - 1]));
      OneEntry(fold, e, key);
      EntriesJoin(fold, NewEntries(names, k - 1), [e], key);
      assert NewEntries(names, k - 1) + [] == NewEntries(names, k - 1);
    }
  }

  lemma {:induction false} AdditionFineIff(fold: Folding, kept: seq<Entry>, names: seq<string>, k: nat)
    requires k < |names|
    ensures AdditionFine(fold, kept, names, k) <==> AddOne(fold, kept + NewEntries(names, k), names[k]).Ok?
  {
    var key, all := NameKey(fold, names[k]), kept + NewEntries(names, k);
    TakenMeaning(fold, all, key, |all|);
    NewEntryNamed(fold, names, k, key);
    EntriesJoin(fold, kept, NewEntries(names, k), key);
  }

  lemma {:induction false} NextAddition(fold: Folding, kept: seq<Entry>, names: seq<string>, k: nat)
    requires k < |names| && AddAll(fold, kept, names, k).Ok?
    ensures AddAll(fold, kept, names, k + 1).Ok? <==> AdditionFine(fold, kept, names, k)
    ensures !AdditionFine(fold, kept, names, k) ==>
      AddAll(fold, kept, names, k + 1) == Err(AlreadyThere(TrimSpace(names[k])))
  {
    AddsFollow(fold, kept, names, k);
    AdditionFineIff(fold, kept, names, k);
  }

  /** The first addition that is not fine, or the length. */
  lemma {:induction false} FirstBadAddition(fold: Folding, kept: seq<Entry>, names: seq<string>, k: nat)
    returns (i: nat)
    requires k <= |names|
    ensures i <= k && forall j :: 0 <= j < i ==> AdditionFine(fold, kept, names, j)
    ensures i == k ==> AddAll(fold, kept, names, k).Ok?
    ensures i < k ==>
      !AdditionFine(fold, kept, names, i) && AddAll(fold, kept, names, k) == Err(AlreadyThere(TrimSpace(names[i])))
  {
    if k == 0 {
      i := 0;
    } else {
      i := FirstBadAddition(fold, kept, names, k - 1);
      if i == k - 1 {
        NextAddition(fold, kept, names, k - 1);
        i := if AdditionFine(fold, kept, names, k - 1) then k else k - 1;
      }
    }
  }

  lemma {:induction false} AdditionsFineIff(fold: Folding, kept: seq<Entry>, names: seq<string>)
    ensures AddAll(fold, kept, names, |names|).Ok?
       <==> forall i :: 0 <= i < |names| ==> AdditionFine(fold, kept, names, i)
  {
    var i := FirstBadAddition(fold, kept, names, |names|);
  }

  predicate RenamesFine(fold: Folding, roster: Roster, renames: seq<Rename>, n: nat)
    requires n <= |renames|
  {
    forall i :: 0 <= i < n ==> RenameFine(fold, roster, renames[i])
  }

  ghost predicate RemovalsFine(
    fold: Folding, roster: Roster, withExpenses: seq<string>, me: string, names: seq<string>, n: nat)
    requires n <= |names|
  {
    forall i :: 0 <= i < n ==> RemovalFine(fold, roster, withExpenses, me, names[i])
  }

  predicate AdditionsFine(fold: Folding, kept: seq<Entry>, names: seq<string>, n: nat)
    requires n <= |names|
  {
    forall i :: 0 <= i < n ==> AdditionFine(fold, kept, names, i)
  }

  /** Every rename, removal and addition of the edit is fine. */
  ghost predicate EditFine(fold: Folding, edit: Edit, group: Group, withExpenses: seq<string>, me: string) {
    && RenamesFine(fold, group.participants, edit.rename, |edit.rename|)
    && RemovalsFine(fold, group.participants, withExpenses, me, edit.remove, |edit.remove|)
    && AdditionsFine(fold, KeptEntries(SceneOf(fold, group, withExpenses, me), edit), edit.add, |edit.add|)
  }

  lemma {:induction false} RenamesFineIff(s: Scene, renames: seq<Rename>)
    ensures RenameProblems(s, renames, |renames|) == None
       <==> forall i :: 0 <= i < |renames| ==> RenameFine(s.fold, s.roster, renames[i])
  {
    NoRenameProblemIff(s, renames, |renames|);
    forall i | 0 <= i < |renames|
      ensures RenameProblem(s, renames[i]) == None <==> RenameFine(s.fold, s.roster, renames[i])
    {
      RenameFineIff(s, renames[i]);
    }
  }

  lemma {:induction false} RemovalsFineIff(
    fold: Folding, group: Group, withExpenses: seq<string>, me: string, names: seq<string>)
    ensures RemoveProblems(SceneOf(fold, group, withExpenses, me), names, |names|) == None
       <==> forall i :: 0 <= i < |names| ==> RemovalFine(fold, group.participants, withExpenses, me, names[i])
  {
    var s := SceneOf(fold, group, withExpenses, me);
    NoRemoveProblemIff(s, names, |names|);
    forall i | 0 <= i < |names|
      ensures RemoveProblem(s, names[i]) == None
         <==> RemovalFine(fold, group.participants, withExpenses, me, names[i])
    {
      RemovalFineIff(fold, group, withExpenses, me, names[i]);
    }
  }

  lemma {:induction false} MergedIff(fold: Folding, edit: Edit, group: Group, withExpenses: seq<string>, me: string)
    ensures MergedList(SceneOf(fold, group, withExpenses, me), edit).Ok?
       <==> EditFine(fold, edit, group, withExpenses, me)
  {
    var s := SceneOf(fold, group, withExpenses, me);
    RenamesFineIff(s, edit.rename);
    RemovalsFineIff(fold, group, withExpenses, me, edit.remove);
    AdditionsFineIff(fold, KeptEntries(s, edit), edit.add);
  }

  /** Nobody is left: nobody stays, and nobody is added. */
  predicate LeavesNobody(s: Scene, edit: Edit) {
    KeptEntries(s, edit) == [] && forall i :: 0 <= i < |edit.add| ==> TrimSpace(edit.add[i]) == ""
  }

  /** The edit asks for nothing: no name or currency but the group's own, and no
      participant renamed, removed or added. */
  predicate AsksForNothing(edit: Edit, group: Group) {
    && (TrimSpace(edit.name) == "" || TrimSpace(edit.name) == group.name)
    && (TrimSpace(edit.currency) == "" || TrimSpace(edit.currency) == group.currency)
    && edit.rename == [] && edit.remove == []
    && forall i :: 0 <= i < |edit.add| ==> TrimSpace(edit.add[i]) == ""
  }

  lemma {:induction false} NoNameIff(names: seq<string>, k: nat)
    requires k <= |names|
    ensures !AnyName(names, k) <==> forall i :: 0 <= i < k ==> TrimSpace(names[i]) == ""
    ensures NewEntries(names, k) == [] <==> !AnyName(names, k)
  {
    if k > 0 {
      NoNameIff(names, k - 1);
    }
  }

  /** An edit is accepted exactly when all its parts are fine, somebody is left, and it
      asks for something; of edits whose parts are fine, one that leaves nobody and one
      that asks for nothing are refused as such. */
  lemma {:induction false} AcceptedIff(fold: Folding, edit: Edit, group: Group, withExpenses: seq<string>, me: string)
    ensures var s, r := SceneOf(fold, group, withExpenses, me), FormFor(fold, edit, group, withExpenses, me);
      if !EditFine(fold, edit, group, withExpenses, me) then r.Err? && !r.error.NobodyLeft? && !r.error.NothingToChange?
      else if LeavesNobody(s, edit) then r == Err(NobodyLeft)
      else if AsksForNothing(edit, group) then r == Err(NothingToChange)
      else r.Ok?
  {
    var s := SceneOf(fold, group, withExpenses, me);
    MergedIff(fold, edit, group, withExpenses, me);
    NoNameIff(edit.add, |edit.add|);
    if MergedList(s, edit).Ok? {
      AddsFollow(fold, KeptEntries(s, edit), edit.add, |edit.add|);
    } else {
      var _ := PartRefused(fold, edit, group, withExpenses, me);
    }
  }

  // ---------------------------------------------------------------------
  // Complaints

  /** What is said of a rename that is not fine. */
  ghost predicate RenameRefused(fold: Folding, roster: Roster, rn: Rename, e: EditError) {
    if Nobody(fold, roster, rn.from) then e == UnknownName(rn.from)
    else exists j: nat :: FirstNamed(fold, roster, rn.from, j) && e == EmptyName(roster[j].value.name)
  }

  /** What is said of a removal that is not fine. */
  ghost predicate RemovalRefused(
    fold: Folding, roster: Roster, withExpenses: seq<string>, me: string, name: string, e: EditError)
  {
    if Nobody(fold, roster, name) then e == UnknownName(name)
    else exists j: nat :: FirstNamed(fold, roster, name, j) && Protected(roster[j].value, withExpenses, me, e)
  }

  /** The participant is the caller, or has expenses. */
  predicate Protected(p: Participant, withExpenses: seq<string>, me: string, e: EditError) {
    if p.id == me then e == IsYou(p.name) else p.id in withExpenses && e == HasExpenses(p.name)
  }

  lemma {:induction false} RenameComplaint(s: Scene, rn: Rename)
    requires RenameProblem(s, rn).Some?
    ensures !RenameFine(s.fold, s.roster, rn) && RenameRefused(s.fold, s.roster, rn, RenameProblem(s, rn).value)
  {
    var j := NamedMeaning(s.fold, s.roster, rn.from);
    RenameFineIff(s, rn);
    if !Nobody(s.fold, s.roster, rn.from) {
      assert FirstNamed(s.fold, s.roster, rn.from, j);
    }
  }

  lemma {:induction false} RemovalComplaint(
    fold: Folding, group: Group, withExpenses: seq<string>, me: string, name: string)
    requires RemoveProblem(SceneOf(fold, group, withExpenses, me), name).Some?
    ensures var e := RemoveProblem(SceneOf(fold, group, withExpenses, me), name).value;
      && !RemovalFine(fold, group.participants, withExpenses, me, name)
      && RemovalRefused(fold, group.participants, withExpenses, me, name, e)
  {
    var j := NamedMeaning(fold, group.participants, name);
    RemovalFineIff(fold, group, withExpenses, me, name);
    if !Nobody(fold, group.participants, name) {
      assert FirstNamed(fold, group.participants, name, j);
    }
  }

  lemma {:induction false} FirstBadRename(s: Scene, renames: seq<Rename>, k: nat) returns (i: nat)
    requires k <= |renames| && RenameProblems(s, renames, k).Some?
    ensures i < k && RenameProblems(s, renames, k) == RenameProblem(s, renames[i])
    ensures RenameProblems(s, renames, i) == None
  {
    if RenameProblems(s, renames, k - 1).Some? {
      i := FirstBadRename(s, renames, k - 1);
    } else {
      i := k - 1;
    }
  }

  lemma {:induction false} FirstBadRemoval(s: Scene, names: seq<string>, k: nat) returns (i: nat)
    requires k <= |names| && RemoveProblems(s, names, k).Some?
    ensures i < k && RemoveProblems(s, names, k) == RemoveProblem(s, names[i])
    ensures RemoveProblems(s, names, i) == None
  {
    if RemoveProblems(s, names, k - 1).Some? {
      i := FirstBadRemoval(s, names, k - 1);
    } else {
      i := k - 1;
    }
  }

  /** The complaint about an edit some part of which is not fine: about its first rename
      that is not; or else its first removal; or else its first addition, whose name is
      taken. */
  lemma {:induction false} PartRefused(fold: Folding, edit: Edit, group: Group, withExpenses: seq<string>, me: string)
    returns (i: nat)
    requires !EditFine(fold, edit, group, withExpenses, me)
    ensures var roster, r := group.participants, FormFor(fold, edit, group, withExpenses, me);
      var kept := KeptEntries(SceneOf(fold, group, withExpenses, me), edit);
      if r.Ok? then false
      else if !RenamesFine(fold, roster, edit.rename, |edit.rename|) then
        && i < |edit.rename| && !RenameFine(fold, roster, edit.rename[i])
        && RenamesFine(fold, roster, edit.rename, i) && RenameRefused(fold, roster, edit.rename[i], r.error)
      else if !RemovalsFine(fold, roster, withExpenses, me, edit.remove, |edit.remove|) then
        && i < |edit.remove| && !RemovalFine(fold, roster, withExpenses, me, edit.remove[i])
        && RemovalsFine(fold, roster, withExpenses, me, edit.remove, i)
        && RemovalRefused(fold, roster, withExpenses, me, edit.remove[i], r.error)
      else
        && i < |edit.add| && !AdditionFine(fold, kept, edit.add, i)
        && AdditionsFine(fold, kept, edit.add, i) && r.error == AlreadyThere(TrimSpace(edit.add[i]))
  {
    var s := SceneOf(fold, group, withExpenses, me);
    MergedIff(fold, edit, group, withExpenses, me);
    RenamesFineIff(s, edit.rename);
    RemovalsFineIff(fold, group, withExpenses, me, edit.remove);
    if RenameProblems(s, edit.rename, |edit.rename|).Some? {
      i := FirstBadRename(s, edit.rename, |edit.rename|);
      RenameComplaint(s, edit.rename[i]);
      FineBefore(s, edit.rename, i);
    } else if RemoveProblems(s, edit.remove, |edit.remove|).Some? {
      i := FirstBadRemoval(s, edit.remove, |edit.remove|);
      RemovalComplaint(fold, group, withExpenses, me, edit.remove[i]);
      RemovalsFineBefore(fold, group, withExpenses, me, edit.remove, i);
    } else {
      i := FirstBadAddition(fold, KeptEntries(s, edit), edit.add, |edit.add|);
    }
  }

  lemma {:induction false} FineBefore(s: Scene, renames: seq<Rename>, n: nat)
    requires n <= |renames| && RenameProblems(s, renames, n) == None
    ensures forall k :: 0 <= k < n ==> RenameFine(s.fold, s.roster, renames[k])
  {
    NoRenameProblemIff(s, renames, n);
    forall k | 0 <= k < n ensures RenameFine(s.fold, s.roster, renames[k]) {
      RenameFineIff(s, renames[k]);
    }
  }

  lemma {:induction false} RemovalsFineBefore(
    fold: Folding, group: Group, withExpenses: seq<string>, me: string, names: seq<string>, n: nat)
    requires n <= |names| && RemoveProblems(SceneOf(fold, group, withExpenses, me), names, n) == None
    ensures forall k :: 0 <= k < n ==> RemovalFine(fold, group.participants, withExpenses, me, names[k])
  {
    NoRemoveProblemIff(SceneOf(fold, group, withExpenses, me), names, n);
    forall k | 0 <= k < n ensures RemovalFine(fold, group.participants, withExpenses, me, names[k]) {
      RemovalFineIff(fold, group, withExpenses, me, names[k]);
    }
  }

  /** Someone without expenses, not the caller, can be removed by name as long as another
      is left, and everybody else stays. */
  lemma {:induction false} IdleIsRemoved(
    fold: Folding, group: Group, withExpenses: seq<string>, me: string, name: string, i: nat, q: Participant)
    requires FirstNamed(fold, group.participants, name, i)
    requires var p := group.participants[i].value; p.id != me && p.id !in withExpenses && p.id != q.id
    requires Some(q) in group.participants
    ensures var p, r := group.participants[i].value,
                        FormFor(fold, Edit("", "", [], [name], []), group, withExpenses, me);
      && r.Ok?
      && Survives(q.id, r.value.participants)
      && !Survives(p.id, r.value.participants)
  {
    var s, edit := SceneOf(fold, group, withExpenses, me), Edit("", "", [], [name], []);
    var roster := group.participants;
    var p := roster[i].value;
    forall j: nat | FirstNamed(fold, roster, name, j) ensures j == i {
    }
    assert !Nobody(fold, roster, name);
    MergedIff(fold, edit, group, withExpenses, me);
    var at := NamedMeaning(fold, roster, name);
    assert Removed(s, edit.remove, 1) == {p.id} by {
      assert Removed(s, edit.remove, 0) == {};
      assert Named(s, name) == Some(p);
    }
    RenamedNone(s, [], Present(roster));
    PresentMembers(roster, q);
    var ps := Present(roster);
    var pos := KeepMeaning(ps, {p.id}, |ps|);
    var k :| 0 <= k < |ps| && ps[k] == q;
    assert k in pos;
    var m :| 0 <= m < |pos| && pos[m] == k;
    assert KeptEntries(s, edit)[m].id == Some(q.id);
  }
}
