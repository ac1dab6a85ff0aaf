/** Merging participant edits into a group. Spliit replaces the whole participant
    list, keyed by ID, so the edits a caller names are merged here into the full
    list. */
module GroupEdits {
  import opened Wrappers
  import opened Text
  import opened Spliit

  datatype Rename = Rename(from: string, to: string)

  datatype Edit = Edit(name: string, currency: string, add: seq<string>, remove: seq<string>, rename: seq<Rename>)

  /** An entry with an ID is kept, one without is created. */
  datatype Entry = Entry(id: Option<string>, name: string)

  datatype GroupForm = GroupForm(
    name: string,
    information: Option<string>,
    currency: string,
    currencyCode: Option<string>,
    participants: seq<Entry>)

  datatype EditError =
    | UnknownName(name: string)
    | EmptyName(name: string)
    | IsYou(name: string)
    | HasExpenses(name: string)
    | AlreadyThere(name: string)
    | NobodyLeft
    | NothingToChange

  /** What an edit is merged into: the group's roster, the participants with
      expenses, and the participant pinned as the caller. */
  datatype Scene = Scene(fold: Folding, roster: Roster, busy: set<string>, me: string)

  function Named(s: Scene, name: string): Option<Participant> {
    ByName(s.fold, s.roster, name)
  }

  /** A name in the original roster resolves to this ID. */
  predicate Resolves(s: Scene, name: string, id: string) {
    Named(s, name).Some? && Named(s, name).value.id == id
  }

  // ---------------------------------------------------------------------
  // The merge, phase by phase

  function RenameProblem(s: Scene, rn: Rename): Option<EditError> {
    if Named(s, rn.from).None? then Some(UnknownName(rn.from))
    else if Blank(rn.to) then Some(EmptyName(Named(s, rn.from).value.name))
    else None
  }

  /** The first complaint about the first `k` renames. */
  function RenameProblems(s: Scene, renames: seq<Rename>, k: nat): Option<EditError>
    requires k <= |renames|
  {
    if k == 0 then None
    else match RenameProblems(s, renames, k - 1)
      case Some(e) => Some(e)
      case None => RenameProblem(s, renames[k - 1])
  }

  function RemoveProblem(s: Scene, name: string): Option<EditError> {
    if Named(s, name).None? then Some(UnknownName(name))
    else if Named(s, name).value.id == s.me then Some(IsYou(Named(s, name).value.name))
    else if Named(s, name).value.id in s.busy then Some(HasExpenses(Named(s, name).value.name))
    else None
  }

  function RemoveProblems(s: Scene, names: seq<string>, k: nat): Option<EditError>
    requires k <= |names|
  {
    if k == 0 then None
    else match RemoveProblems(s, names, k - 1)
      case Some(e) => Some(e)
      case None => RemoveProblem(s, names[k - 1])
  }

  /** A participant's name after the first `k` renames: the target of the last of
      them that resolves to it. */
  function NameAfter(s: Scene, renames: seq<Rename>, k: nat, p: Participant): string
    requires k <= |renames|
  {
    if k == 0 then p.name
    else if Resolves(s, renames[k - 1].from, p.id) then TrimSpace(renames[k - 1].to)
    else NameAfter(s, renames, k - 1, p)
  }

  function RenamedAll(s: Scene, renames: seq<Rename>, k: nat, ps: seq<Participant>): seq<Participant>
    requires k <= |renames|
  {
    seq(|ps|, i requires 0 <= i < |ps| => Participant(ps[i].id, NameAfter(s, renames, k, ps[i])))
  }

  function IdNamed(s: Scene, name: string): set<string> {
    match Named(s, name)
    case None => {}
    case Some(p) => {p.id}
  }

  /** The IDs the first `k` removals resolve to. */
  function Removed(s: Scene, names: seq<string>, k: nat): set<string>
    requires k <= |names|
  {
    if k == 0 then {} else Removed(s, names, k - 1) + IdNamed(s, names[k - 1])
  }

  function KeepOne(p: Participant, removed: set<string>): seq<Entry> {
    if p.id in removed then [] else [Entry(Some(p.id), p.name)]
  }

  /** The first `k` participants without the removed ones. */
  function Keep(ps: seq<Participant>, removed: set<string>, k: nat): seq<Entry>
    requires k <= |ps|
  {
    if k == 0 then [] else Keep(ps, removed, k - 1) + KeepOne(ps[k - 1], removed)
  }

  /** One of the first `k` entries has a name with this key. */
  predicate Taken(fold: Folding, entries: seq<Entry>, key: string, k: nat)
    requires k <= |entries|
  {
    k > 0 && (NameKey(fold, entries[k - 1].name) == key || Taken(fold, entries, key, k - 1))
  }

  function AddOne(fold: Folding, entries: seq<Entry>, name: string): Result<seq<Entry>, EditError> {
    if Blank(name) then Ok(entries)
    else if Taken(fold, entries, NameKey(fold, name), |entries|) then Err(AlreadyThere(TrimSpace(name)))
    else Ok(entries + [Entry(None, TrimSpace(name))])
  }

  /** The entries with the first `k` additions appended. */
  function AddAll(fold: Folding, kept: seq<Entry>, names: seq<string>, k: nat): Result<seq<Entry>, EditError>
    requires k <= |names|
  {
    if k == 0 then Ok(kept)
    else match AddAll(fold, kept, names, k - 1)
      case Err(e) => Err(e)
      case Ok(entries) => AddOne(fold, entries, names[k - 1])
  }

  predicate AnyName(names: seq<string>, k: nat)
    requires k <= |names|
  {
    k > 0 && (!Blank(names[k - 1]) || AnyName(names, k - 1))
  }

  /** The trimmed new value, when there is one and it differs. */
  function Changed(asked: string, current: string): string {
    if !Blank(asked) && TrimSpace(asked) != current then TrimSpace(asked) else current
  }

  predicate ChangesSomething(edit: Edit, group: Group) {
    || Changed(edit.name, group.name) != group.name
    || Changed(edit.currency, group.currency) != group.currency
    || edit.rename != [] || edit.remove != [] || AnyName(edit.add, |edit.add|)
  }

  /** The participant list an edit asks for, or the first complaint about it. */
  function MergedList(s: Scene, edit: Edit): Result<seq<Entry>, EditError> {
    if RenameProblems(s, edit.rename, |edit.rename|).Some?
    then Err(RenameProblems(s, edit.rename, |edit.rename|).value)
    else if RemoveProblems(s, edit.remove, |edit.remove|).Some?
    then Err(RemoveProblems(s, edit.remove, |edit.remove|).value)
    else AddAll(s.fold, KeptEntries(s, edit), edit.add, |edit.add|)
  }

  /** The participants that stay, under their new names. */
  function KeptEntries(s: Scene, edit: Edit): seq<Entry> {
    var current := RenamedAll(s, edit.rename, |edit.rename|, Present(s.roster));
    Keep(current, Removed(s, edit.remove, |edit.remove|), |current|)
  }

  function SceneOf(fold: Folding, group: Group, withExpenses: seq<string>, me: string): Scene {
    Scene(fold, group.participants, (set id | id in withExpenses), me)
  }

  function FormFor(fold: Folding, edit: Edit, group: Group, withExpenses: seq<string>, me: string)
    : Result<GroupForm, EditError>
  {
    match MergedList(SceneOf(fold, group, withExpenses, me), edit)
    case Err(e) => Err(e)
    case Ok(participants) =>
      if participants == [] then Err(NobodyLeft)
      else if !ChangesSomething(edit, group) then Err(NothingToChange)
      else Ok(GroupForm(Changed(edit.name, group.name), group.information,
                        Changed(edit.currency, group.currency), group.currencyCode, participants))
  }

  // ---------------------------------------------------------------------
  // The code

  /** Gives one participant a new name in the list being edited. */
  method RenameInPlace(ps: seq<Participant>, id: string, to: string) returns (current: seq<Participant>)
    ensures |current| == |ps|
    ensures forall i :: 0 <= i < |ps| ==>
      current[i] == if ps[i].id == id then Participant(id, to) else ps[i]
  {
    current := ps;
    for i := 0 to |current|
      invariant |current| == |ps|
      invariant forall j :: 0 <= j < i ==>
        current[j] == if ps[j].id == id then Participant(id, to) else ps[j]
      invariant forall j :: i <= j < |ps| ==> current[j] == ps[j]
    {
      if current[i].id == id {
        current := current[i := current[i].(name := to)];
      }
    }
  }

  lemma {:induction false} RenameStep(s: Scene, renames: seq<Rename>, k: nat, ps: seq<Participant>,
                                      current: seq<Participant>, id: string)
    requires k < |renames| && Resolves(s, renames[k].from, id)
    requires |current| == |ps|
    requires forall i :: 0 <= i < |ps| ==>
      current[i] == if ps[i].id == id then Participant(id, TrimSpace(renames[k].to))
                    else RenamedAll(s, renames, k, ps)[i]
    ensures current == RenamedAll(s, renames, k + 1, ps)
  {
  }

  /** One rename: checked against the original roster, applied to the list. */
  method ApplyRename(s: Scene, renames: seq<Rename>, k: nat, ps: seq<Participant>, current: seq<Participant>)
    returns (problem: Option<EditError>, next: seq<Participant>)
    requires k < |renames| && current == RenamedAll(s, renames, k, ps)
    ensures problem == RenameProblem(s, renames[k])
    ensures problem.None? ==> next == RenamedAll(s, renames, k + 1, ps)
  {
    next := current;
    var p := FindByName(s.fold, s.roster, renames[k].from);
    if p.None? {
      return Some(UnknownName(renames[k].from)), current;
    }
    var to := TrimSpace(renames[k].to);
    if to == "" {
      return Some(EmptyName(p.value.name)), current;
    }
    next := RenameInPlace(current, p.value.id, to);
    RenameStep(s, renames, k, ps, next, p.value.id);
    problem := None;
  }

  lemma {:induction false} RenamedNone(s: Scene, renames: seq<Rename>, ps: seq<Participant>)
    ensures RenamedAll(s, renames, 0, ps) == ps
  {
  }

  method ApplyRenames(s: Scene, renames: seq<Rename>, ps: seq<Participant>)
    returns (problem: Option<EditError>, current: seq<Participant>)
    ensures problem == RenameProblems(s, renames, |renames|)
    ensures problem.None? ==> current == RenamedAll(s, renames, |renames|, ps)
  {
    current := ps;
    RenamedNone(s, renames, ps);
    for k := 0 to |renames|
      invariant RenameProblems(s, renames, k) == None
      invariant current == RenamedAll(s, renames, k, ps)
    {
      problem, current := ApplyRename(s, renames, k, ps, current);
      if problem.Some? {
        FirstRenameProblem(s, renames, k + 1, |renames|);
        return;
      }
    }
    problem := None;
  }

  lemma {:induction false} FirstRenameProblem(s: Scene, renames: seq<Rename>, k: nat, n: nat)
    requires k <= n <= |renames| && RenameProblems(s, renames, k).Some?
    ensures RenameProblems(s, renames, n) == RenameProblems(s, renames, k)
  {
    if k < n {
      FirstRenameProblem(s, renames, k, n - 1);
    }
  }

  method CheckRemoval(s: Scene, name: string) returns (problem: Option<EditError>, id: string)
    ensures problem == RemoveProblem(s, name)
    ensures problem.None? ==> IdNamed(s, name) == {id}
  {
    id := "";
    var p := FindByName(s.fold, s.roster, name);
    if p.None? {
      problem := Some(UnknownName(name));
    } else if p.value.id == s.me {
      problem := Some(IsYou(p.value.name));
    } else if p.value.id in s.busy {
      problem := Some(HasExpenses(p.value.name));
    } else {
      problem, id := None, p.value.id;
    }
  }

  method CollectRemovals(s: Scene, names: seq<string>) returns (problem: Option<EditError>, removed: set<string>)
    ensures problem == RemoveProblems(s, names, |names|)
    ensures problem.None? ==> removed == Removed(s, names, |names|)
  {
    removed := {};
    for k := 0 to |names|
      invariant RemoveProblems(s, names, k) == None
      invariant removed == Removed(s, names, k)
    {
      var id;
      problem, id := CheckRemoval(s, names[k]);
      if problem.Some? {
        FirstRemoveProblem(s, names, k + 1, |names|);
        return;
      }
      removed := removed + {id};
    }
    problem := None;
  }

  lemma {:induction false} FirstRemoveProblem(s: Scene, names: seq<string>, k: nat, n: nat)
    requires k <= n <= |names| && RemoveProblems(s, names, k).Some?
    ensures RemoveProblems(s, names, n) == RemoveProblems(s, names, k)
  {
    if k < n {
      FirstRemoveProblem(s, names, k, n - 1);
    }
  }

  method DropRemoved(current: seq<Participant>, removed: set<string>) returns (entries: seq<Entry>)
    ensures entries == Keep(current, removed, |current|)
  {
    entries := [];
    for k := 0 to |current|
      invariant entries == Keep(current, removed, k)
    {
      if current[k].id in removed {
        continue;
      }
      entries := entries + [Entry(Some(current[k].id), current[k].name)];
    }
  }

  method IsTaken(fold: Folding, entries: seq<Entry>, name: string) returns (taken: bool)
    ensures taken == Taken(fold, entries, NameKey(fold, name), |entries|)
  {
    for i := 0 to |entries|
      invariant !Taken(fold, entries, NameKey(fold, name), i)
    {
      if NameKey(fold, entries[i].name) == NameKey(fold, name) {
        TakenLonger(fold, entries, NameKey(fold, name), i + 1, |entries|);
        return true;
      }
    }
    return false;
  }

  lemma {:induction false} TakenLonger(fold: Folding, entries: seq<Entry>, key: string, i: nat, k: nat)
    requires i <= k <= |entries| && Taken(fold, entries, key, i)
    ensures Taken(fold, entries, key, k)
  {
    if i < k {
      TakenLonger(fold, entries, key, i, k - 1);
    }
  }

  method AppendNew(fold: Folding, kept: seq<Entry>, names: seq<string>)
    returns (r: Result<seq<Entry>, EditError>, any: bool)
    ensures r == AddAll(fold, kept, names, |names|)
    ensures r.Ok? ==> any == AnyName(names, |names|)
  {
    r, any := Ok(kept), false;
    for k := 0 to |names|
      invariant r.Ok? && r == AddAll(fold, kept, names, k)
      invariant any == AnyName(names, k)
    {
      var name := TrimSpace(names[k]);
      if name == "" {
        continue;
      }
      NameKeyOfTrimmed(fold, names[k]);
      var taken := IsTaken(fold, r.value, name);
      if taken {
        r := Err(AlreadyThere(name));
        FirstAddProblem(fold, kept, names, k + 1, |names|);
        return;
      }
      r, any := Ok(r.value + [Entry(None, name)]), true;
    }
  }

  lemma {:induction false} FirstAddProblem(fold: Folding, kept: seq<Entry>, names: seq<string>, k: nat, n: nat)
    requires k <= n <= |names| && AddAll(fold, kept, names, k).Err?
    ensures AddAll(fold, kept, names, n) == AddAll(fold, kept, names, k)
  {
    if k < n {
      FirstAddProblem(fold, kept, names, k, n - 1);
    }
  }

  /** `buildGroupForm` */
  method BuildGroupForm(fold: Folding, edit: Edit, group: Group, withExpenses: seq<string>, me: string)
    returns (r: Result<GroupForm, EditError>)
    ensures r == FormFor(fold, edit, group, withExpenses, me)
  {
    var s := SceneOf(fold, group, withExpenses, me);
    var name, currency := Changed(edit.name, group.name), Changed(edit.currency, group.currency);
    var everyone := CollectPresent(group.participants);
    var problem, current := ApplyRenames(s, edit.rename, everyone);
    if problem.Some? {
      return Err(problem.value);
    }
    var problem', removed := CollectRemovals(s, edit.remove);
    if problem'.Some? {
      return Err(problem'.value);
    }
    var kept := DropRemoved(current, removed);
    var merged, any := AppendNew(fold, kept, edit.add);
    if merged.Err? {
      return Err(merged.error);
    }
    if |merged.value| == 0 {
      return Err(NobodyLeft);
    }
    if name == group.name && currency == group.currency && |edit.rename| == 0 && |edit.remove| == 0 && !any {
      return Err(NothingToChange);
    }
    r := Ok(GroupForm(name, group.information, currency, group.currencyCode, merged.value));
  }
}
