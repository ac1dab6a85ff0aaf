/** What a merged participant list keeps: identities, expenses, order, names. */
module GroupEditLaws {
  import opened Wrappers
  import opened Lists
  import opened Text
  import opened Spliit
  import opened GroupEdits

  // ---------------------------------------------------------------------
  // Identities

  /** `entries` are exactly the first `k` participants that are not removed, in
      their order, with their IDs; `pos` are their places. */
  ghost predicate KeptAt(ps: seq<Participant>, removed: set<string>, k: nat, entries: seq<Entry>, pos: seq<nat>)
    requires k <= |ps|
  {
    && |pos| == |entries| && Increasing(pos)
    && (forall i :: 0 <= i < |pos| ==>
          pos[i] < k && ps[pos[i]].id !in removed
          && entries[i] == Entry(Some(ps[pos[i]].id), ps[pos[i]].name))
    && (forall j: nat :: j < k && ps[j].id !in removed ==> j in pos)
  }

  lemma {:induction false} KeptSkips(
    ps: seq<Participant>, removed: set<string>, k: nat, entries: seq<Entry>, pos: seq<nat>)
    requires k < |ps| && KeptAt(ps, removed, k, entries, pos) && ps[k].id in removed
    ensures KeptAt(ps, removed, k + 1, entries, pos)
  {
  }

  lemma {:induction false} KeptTakes(
    ps: seq<Participant>, removed: set<string>, k: nat, entries: seq<Entry>, pos: seq<nat>)
    requires k < |ps| && KeptAt(ps, removed, k, entries, pos) && ps[k].id !in removed
    ensures KeptAt(ps, removed, k + 1, entries + [Entry(Some(ps[k].id), ps[k].name)], pos + [k])
  {
    var next := pos + [k];
    assert next[|pos|] == k;
    forall j: nat | j < k + 1 && ps[j].id !in removed ensures j in next {
      if j < k {
        assert j in pos;
      }
    }
  }

  lemma {:induction false} KeepMeaning(ps: seq<Participant>, removed: set<string>, k: nat) returns (pos: seq<nat>)
    requires k <= |ps|
    ensures KeptAt(ps, removed, k, Keep(ps, removed, k), pos)
  {
    if k == 0 {
      pos := [];
    } else {
      pos := KeepMeaning(ps, removed, k - 1);
      var entries := Keep(ps, removed, k - 1);
      if ps[k - 1].id in removed {
        KeptSkips(ps, removed, k - 1, entries, pos);
        assert entries + [] == entries;
      } else {
        KeptTakes(ps, removed, k - 1, entries, pos);
        pos := pos + [k - 1];
      }
    }
  }

  function CountNames(names: seq<string>, k: nat): nat
    requires k <= |names|
  {
    if k == 0 then 0 else CountNames(names, k - 1) + if Blank(names[k - 1]) then 0 else 1
  }

  /** An entry with no ID for each name that is not blank, trimmed, in order. */
  function NewEntries(names: seq<string>, k: nat): (entries: seq<Entry>)
    requires k <= |names|
    ensures |entries| == CountNames(names, k)
  {
    if k == 0 then []
    else NewEntries(names, k - 1) + if Blank(names[k - 1]) then [] else [Entry(None, TrimSpace(names[k - 1]))]
  }

  /** Additions follow what is kept. */
  lemma {:induction false} AddsFollow(fold: Folding, kept: seq<Entry>, names: seq<string>, k: nat)
    requires k <= |names| && AddAll(fold, kept, names, k).Ok?
    ensures AddAll(fold, kept, names, k).value == kept + NewEntries(names, k)
  {
    if k > 0 {
      AddsFollow(fold, kept, names, k - 1);
    }
  }

  /** A merged list is the current participants minus the removed ones, in their
      order, under their IDs and final names, followed by the additions. */
  lemma {:induction false} MergeKeepsIdentity(s: Scene, edit: Edit) returns (pos: seq<nat>)
    requires MergedList(s, edit).Ok?
    ensures var ps := Present(s.roster);
      && KeptAt(RenamedAll(s, edit.rename, |edit.rename|, ps), Removed(s, edit.remove, |edit.remove|), |ps|,
                KeptEntries(s, edit), pos)
      && MergedList(s, edit).value == KeptEntries(s, edit) + NewEntries(edit.add, |edit.add|)
  {
    var current := RenamedAll(s, edit.rename, |edit.rename|, Present(s.roster));
    pos := KeepMeaning(current, Removed(s, edit.remove, |edit.remove|), |current|);
    AddsFollow(s.fold, KeptEntries(s, edit), edit.add, |edit.add|);
  }

  // ---------------------------------------------------------------------
  // Expenses

  /** Removals that are accepted touch neither the caller nor anyone with expenses,
      and only participants of the group. */
  lemma {:induction false} RemovedAreIdle(s: Scene, names: seq<string>, k: nat)
    requires k <= |names| && RemoveProblems(s, names, k) == None
    ensures s.me !in Removed(s, names, k) && Removed(s, names, k) !! s.busy
    ensures forall id :: id in Removed(s, names, k) ==> exists p :: p in Present(s.roster) && p.id == id
  {
    if k > 0 {
      RemovedAreIdle(s, names, k - 1);
      var p := Named(s, names[k - 1]).value;
      PresentMembers(s.roster, p);
    }
  }

  predicate Survives(id: string, entries: seq<Entry>) {
    exists i :: 0 <= i < |entries| && entries[i].id == Some(id)
  }

  /** Everyone with expenses, and the caller, is still in the list. */
  lemma {:induction false} BusySurvive(s: Scene, edit: Edit, p: Participant)
    requires MergedList(s, edit).Ok? && p in Present(s.roster)
    requires p.id in s.busy || p.id == s.me
    ensures Survives(p.id, MergedList(s, edit).value)
  {
    var ps := Present(s.roster);
    var current := RenamedAll(s, edit.rename, |edit.rename|, ps);
    var pos := MergeKeepsIdentity(s, edit);
    RemovedAreIdle(s, edit.remove, |edit.remove|);
    var j: nat :| j < |ps| && ps[j] == p;
    assert current[j].id == p.id;
    assert j in pos;
    var i :| 0 <= i < |pos| && pos[i] == j;
    assert KeptEntries(s, edit)[i].id == Some(p.id);
    assert MergedList(s, edit).value[i] == KeptEntries(s, edit)[i];
  }

  /** An expense names this participant, as payer or as sharer. */
  predicate Refers(e: Expense, id: string) {
    e.paidById == id || exists i :: 0 <= i < |e.paidFor| && e.paidFor[i].Some? && e.paidFor[i].value.participantId == id
  }

  /** Replacing the list by ID orphans no expense: whoever an expense names was
      reported as having expenses, and so stays. */
  lemma {:induction false} NoExpenseOrphaned(s: Scene, edit: Edit, e: Expense, id: string)
    requires MergedList(s, edit).Ok? && Refers(e, id)
    requires forall other :: Refers(e, other) ==>
      other in s.busy && exists p :: p in Present(s.roster) && p.id == other
    ensures Survives(id, MergedList(s, edit).value)
  {
    var p :| p in Present(s.roster) && p.id == id;
    BusySurvive(s, edit, p);
  }

  // ---------------------------------------------------------------------
  // Counting

  function Ids(ps: seq<Participant>, k: nat): set<string>
    requires k <= |ps|
  {
    if k == 0 then {} else Ids(ps, k - 1) + {ps[k - 1].id}
  }

  lemma {:induction false} IdsMembers(ps: seq<Participant>, k: nat, id: string)
    requires k <= |ps|
    ensures id in Ids(ps, k) <==> exists i :: 0 <= i < k && ps[i].id == id
  {
    if k > 0 {
      IdsMembers(ps, k - 1, id);
      assert ps[k - 1].id == id ==> exists i :: 0 <= i < k && ps[i].id == id;
    }
  }

  predicate AllDifferent(ps: seq<Participant>) {
    forall i, j :: 0 <= i < j < |ps| ==> ps[i].id != ps[j].id
  }

  lemma {:induction false} PresentDiffer(roster: Roster)
    requires DistinctIds(roster)
    ensures AllDifferent(Present(roster))
  {
    if roster != [] {
      var n := |roster| - 1;
      var before := Present(roster[..n]);
      PresentDiffer(roster[..n]);
      if roster[n].Some? {
        forall i | 0 <= i < |before| ensures before[i].id != roster[n].value.id {
          PresentMembers(roster[..n], before[i]);
          var j :| 0 <= j < n && roster[j] == Some(before[i]);
          assert !HasId(roster[n], roster[j].value.id);
        }
      }
    }
  }

  lemma {:induction false} KeepCount(ps: seq<Participant>, removed: set<string>, k: nat)
    requires k <= |ps| && AllDifferent(ps)
    ensures |Keep(ps, removed, k)| == k - |Ids(ps, k) * removed|
  {
    if k > 0 {
      KeepCount(ps, removed, k - 1);
      var id, before := ps[k - 1].id, Ids(ps, k - 1);
      IdsMembers(ps, k - 1, id);
      if id in removed {
        assert Ids(ps, k) * removed == before * removed + {id};
      } else {
        assert Ids(ps, k) * removed == before * removed;
      }
    }
  }

  /** With distinct IDs the list has as many entries as there were participants,
      less the removed ones, plus the names added. */
  lemma {:induction false} MergeCount(s: Scene, edit: Edit)
    requires MergedList(s, edit).Ok? && DistinctIds(s.roster)
    ensures |MergedList(s, edit).value|
         == |Present(s.roster)| - |Removed(s, edit.remove, |edit.remove|)| + CountNames(edit.add, |edit.add|)
  {
    var ps := Present(s.roster);
    var current := RenamedAll(s, edit.rename, |edit.rename|, ps);
    var removed := Removed(s, edit.remove, |edit.remove|);
    PresentDiffer(s.roster);
    KeepCount(current, removed, |current|);
    AddsFollow(s.fold, KeptEntries(s, edit), edit.add, |edit.add|);
    RemovedAreIdle(s, edit.remove, |edit.remove|);
    forall id | id in removed ensures id in Ids(current, |current|) {
      var p :| p in ps && p.id == id;
      var i :| 0 <= i < |ps| && ps[i] == p;
      assert current[i].id == id;
      IdsMembers(current, |current|, id);
    }
    assert Ids(current, |current|) * removed == removed;
  }

  // ---------------------------------------------------------------------
  // Names

  /** A kept participant is called what the last rename resolving to it in the
      original roster says, whatever the other renames do. */
  lemma {:induction false} LastRenameWins(s: Scene, renames: seq<Rename>, k: nat, p: Participant, j: nat)
    requires j < k <= |renames| && Resolves(s, renames[j].from, p.id)
    requires forall i :: j < i < k ==> !Resolves(s, renames[i].from, p.id)
    ensures NameAfter(s, renames, k, p) == TrimSpace(renames[j].to)
  {
    if k > j + 1 {
      LastRenameWins(s, renames, k - 1, p, j);
    }
  }

  lemma {:induction false} UnnamedKeepsName(s: Scene, renames: seq<Rename>, k: nat, p: Participant)
    requires k <= |renames|
    requires forall i :: 0 <= i < k ==> !Resolves(s, renames[i].from, p.id)
    ensures NameAfter(s, renames, k, p) == p.name
  {
    if k > 0 {
      UnnamedKeepsName(s, renames, k - 1, p);
    }
  }

  /** Two participants can swap names in one edit, which is accepted if and only if
      neither name is blank. */
  lemma {:induction false} SwapWorks(s: Scene, a: Participant, b: Participant)
    requires DistinctNames(s.fold, s.roster) && Some(a) in s.roster && Some(b) in s.roster && a.id != b.id
    ensures var edit := Edit("", "", [], [], [Rename(a.name, b.name), Rename(b.name, a.name)]);
      && NameAfter(s, edit.rename, 2, a) == TrimSpace(b.name)
      && NameAfter(s, edit.rename, 2, b) == TrimSpace(a.name)
      && (MergedList(s, edit) == Ok(KeptEntries(s, edit)) <==> !Blank(a.name) && !Blank(b.name))
  {
    var edit := Edit("", "", [], [], [Rename(a.name, b.name), Rename(b.name, a.name)]);
    FoundByName(s.fold, s.roster, a, a.name);
    FoundByName(s.fold, s.roster, b, b.name);
    LastRenameWins(s, edit.rename, 2, a, 0);
    LastRenameWins(s, edit.rename, 2, b, 1);
    NoRenameProblemIff(s, edit.rename, 2);
    assert RenameProblem(s, edit.rename[0]) == None <==> !Blank(b.name);
    assert RenameProblem(s, edit.rename[1]) == None <==> !Blank(a.name);
  }

  lemma {:induction false} TakenMeaning(fold: Folding, entries: seq<Entry>, key: string, k: nat)
    requires k <= |entries|
    ensures Taken(fold, entries, key, k) <==> exists i :: 0 <= i < k && NameKey(fold, entries[i].name) == key
  {
    if k > 0 {
      TakenMeaning(fold, entries, key, k - 1);
      assert NameKey(fold, entries[k - 1].name) == key ==>
        exists i :: 0 <= i < k && NameKey(fold, entries[i].name) == key;
    }
  }

  /** The name of an entry is no other entry's name, up to case and outer space. */
  predicate AloneAt(fold: Folding, entries: seq<Entry>, i: nat)
    requires i < |entries|
  {
    forall j :: 0 <= j < |entries| && j != i ==> NameKey(fold, entries[j].name) != NameKey(fold, entries[i].name)
  }

  /** Every added name differs from every other name in the list. */
  lemma {:induction false} AddedAlone(fold: Folding, kept: seq<Entry>, names: seq<string>, k: nat, i: nat)
    requires k <= |names| && AddAll(fold, kept, names, k).Ok?
    requires |kept| <= i < |AddAll(fold, kept, names, k).value|
    ensures AloneAt(fold, AddAll(fold, kept, names, k).value, i)
  {
    if k > 0 {
      var before := AddAll(fold, kept, names, k - 1).value;
      var out := AddAll(fold, kept, names, k).value;
      TakenMeaning(fold, before, NameKey(fold, names[k - 1]), |before|);
      NameKeyOfTrimmed(fold, names[k - 1]);
      if i < |before| {
        AddedAlone(fold, kept, names, k - 1, i);
      }
    }
  }

  predicate NamesDiffer(fold: Folding, entries: seq<Entry>) {
    forall i, j :: 0 <= i < j < |entries| ==> NameKey(fold, entries[i].name) != NameKey(fold, entries[j].name)
  }

  /** Additions never collide: what the merged names have in common, the kept ones
      have. */
  lemma {:induction false} OnlyKeptCollide(s: Scene, edit: Edit)
    requires MergedList(s, edit).Ok?
    ensures NamesDiffer(s.fold, MergedList(s, edit).value) <==> NamesDiffer(s.fold, KeptEntries(s, edit))
  {
    var kept, out := KeptEntries(s, edit), MergedList(s, edit).value;
    AddsFollow(s.fold, kept, edit.add, |edit.add|);
    assert forall i :: 0 <= i < |kept| ==> out[i] == kept[i];
    if NamesDiffer(s.fold, kept) {
      forall i, j | 0 <= i < j < |out| ensures NameKey(s.fold, out[i].name) != NameKey(s.fold, out[j].name) {
        if j >= |kept| {
          AddedAlone(s.fold, kept, edit.add, |edit.add|, j);
        }
      }
    }
  }

  /** Rename `j` is the last that resolves to this participant. */
  predicate Decides(s: Scene, renames: seq<Rename>, j: nat, id: string) {
    && j < |renames| && Resolves(s, renames[j].from, id)
    && forall i :: j < i < |renames| ==> !Resolves(s, renames[i].from, id)
  }

  predicate Unnamed(s: Scene, renames: seq<Rename>, id: string) {
    forall i :: 0 <= i < |renames| ==> !Resolves(s, renames[i].from, id)
  }

  predicate Stays(s: Scene, edit: Edit, p: Participant) {
    forall i :: 0 <= i < |edit.remove| ==> !Resolves(s, edit.remove[i], p.id)
  }

  /** The rename that decides the name of `p` aims at the target of the one that
      decides the name of `q`, or at the name of a `q` that no rename touches; or no
      rename touches either, and they had the same name before. */
  predicate Collides(s: Scene, renames: seq<Rename>, p: Participant, q: Participant) {
    || Takes(s, renames, p, q)
    || (Unnamed(s, renames, p.id) && Unnamed(s, renames, q.id) && NameKey(s.fold, p.name) == NameKey(s.fold, q.name))
  }

  predicate Takes(s: Scene, renames: seq<Rename>, p: Participant, q: Participant) {
    exists i: nat :: i < |renames| && Decides(s, renames, i, p.id) && TakesNameOf(s, renames, renames[i].to, q)
  }

  predicate TakesNameOf(s: Scene, renames: seq<Rename>, to: string, q: Participant) {
    || (Unnamed(s, renames, q.id) && NameKey(s.fold, to) == NameKey(s.fold, q.name))
    || exists j: nat :: j < |renames| && Decides(s, renames, j, q.id)
         && NameKey(s.fold, to) == NameKey(s.fold, renames[j].to)
  }

  /** No two participants that stay collide. */
  predicate NoneCollide(s: Scene, edit: Edit) {
    var ps := Present(s.roster);
    forall a, b :: 0 <= a < |ps| && 0 <= b < |ps| && a != b && Stays(s, edit, ps[a]) && Stays(s, edit, ps[b])
      ==> !Collides(s, edit.rename, ps[a], ps[b])
  }

  lemma {:induction false} FindDecider(s: Scene, renames: seq<Rename>, k: nat, id: string) returns (j: nat)
    requires k < |renames| && Resolves(s, renames[k].from, id)
    ensures Decides(s, renames, j, id)
    decreases |renames| - k
  {
    if i: nat :| k < i < |renames| && Resolves(s, renames[i].from, id) {
      j := FindDecider(s, renames, i, id);
    } else {
      j := k;
    }
  }

  function FinalKey(s: Scene, renames: seq<Rename>, p: Participant): string {
    NameKey(s.fold, NameAfter(s, renames, |renames|, p))
  }

  lemma {:induction false} DecidedKey(s: Scene, renames: seq<Rename>, p: Participant, j: nat)
    requires Decides(s, renames, j, p.id)
    ensures FinalKey(s, renames, p) == NameKey(s.fold, renames[j].to)
  {
    LastRenameWins(s, renames, |renames|, p, j);
    NameKeyOfTrimmed(s.fold, renames[j].to);
  }

  lemma {:induction false} TakesNameIff(s: Scene, renames: seq<Rename>, to: string, q: Participant)
    ensures TakesNameOf(s, renames, to, q) <==> NameKey(s.fold, to) == FinalKey(s, renames, q)
  {
    if Unnamed(s, renames, q.id) {
      UnnamedKeepsName(s, renames, |renames|, q);
    } else {
      var k :| 0 <= k < |renames| && Resolves(s, renames[k].from, q.id);
      var d := FindDecider(s, renames, k, q.id);
      DecidedKey(s, renames, q, d);
    }
    forall j: nat | Decides(s, renames, j, q.id) ensures FinalKey(s, renames, q) == NameKey(s.fold, renames[j].to) {
      DecidedKey(s, renames, q, j);
    }
  }

  lemma {:induction false} TakesIff(s: Scene, renames: seq<Rename>, p: Participant, q: Participant)
    ensures Takes(s, renames, p, q)
       <==> !Unnamed(s, renames, p.id) && FinalKey(s, renames, p) == FinalKey(s, renames, q)
  {
    forall i: nat | Decides(s, renames, i, p.id)
      ensures TakesNameOf(s, renames, renames[i].to, q) <==> FinalKey(s, renames, p) == FinalKey(s, renames, q)
    {
      TakesNameIff(s, renames, renames[i].to, q);
      DecidedKey(s, renames, p, i);
    }
    if k: nat :| k < |renames| && Resolves(s, renames[k].from, p.id) {
      var d := FindDecider(s, renames, k, p.id);
      assert Decides(s, renames, d, p.id);
    }
  }

  /** Two participants end up with the same name exactly when one of them collides
      with the other. */
  lemma {:induction false} SameKeyIff(s: Scene, renames: seq<Rename>, p: Participant, q: Participant)
    ensures FinalKey(s, renames, p) == FinalKey(s, renames, q)
       <==> Collides(s, renames, p, q) || Collides(s, renames, q, p)
  {
    TakesIff(s, renames, p, q);
    TakesIff(s, renames, q, p);
    if Unnamed(s, renames, p.id) && Unnamed(s, renames, q.id) {
      UnnamedKeepsName(s, renames, |renames|, p);
      UnnamedKeepsName(s, renames, |renames|, q);
    }
  }

  lemma {:induction false} StaysIff(s: Scene, edit: Edit, p: Participant)
    ensures Stays(s, edit, p) <==> p.id !in Removed(s, edit.remove, |edit.remove|)
  {
    RemovedMembers(s, edit.remove, |edit.remove|, p.id);
  }

  /** The final names of those who stay differ. */
  predicate FinalNamesDiffer(s: Scene, edit: Edit, ps: seq<Participant>) {
    forall a, b :: 0 <= a < b < |ps| && Stays(s, edit, ps[a]) && Stays(s, edit, ps[b])
      ==> FinalKey(s, edit.rename, ps[a]) != FinalKey(s, edit.rename, ps[b])
  }

  /** `pos` says which participant each kept entry is. */
  ghost predicate KeptFrom(s: Scene, edit: Edit, ps: seq<Participant>, entries: seq<Entry>, pos: seq<nat>) {
    && |pos| == |entries| && Increasing(pos)
    && (forall a :: 0 <= a < |ps| ==> (Stays(s, edit, ps[a]) <==> a in pos))
    && forall i :: 0 <= i < |pos| ==>
         pos[i] < |ps| && NameKey(s.fold, entries[i].name) == FinalKey(s, edit.rename, ps[pos[i]])
  }

  lemma {:induction false} KeptEntriesFrom(s: Scene, edit: Edit) returns (pos: seq<nat>)
    ensures KeptFrom(s, edit, Present(s.roster), KeptEntries(s, edit), pos)
  {
    var ps := Present(s.roster);
    var current := RenamedAll(s, edit.rename, |edit.rename|, ps);
    pos := KeepMeaning(current, Removed(s, edit.remove, |edit.remove|), |current|);
    forall a | 0 <= a < |ps| ensures Stays(s, edit, ps[a]) <==> a in pos {
      StaysIff(s, edit, ps[a]);
      assert current[a].id == ps[a].id;
    }
  }

  lemma {:induction false} DifferFrom(s: Scene, edit: Edit, ps: seq<Participant>, entries: seq<Entry>, pos: seq<nat>)
    requires KeptFrom(s, edit, ps, entries, pos) && FinalNamesDiffer(s, edit, ps)
    ensures NamesDiffer(s.fold, entries)
  {
    forall i, j | 0 <= i < j < |entries| ensures NameKey(s.fold, entries[i].name) != NameKey(s.fold, entries[j].name) {
      assert pos[i] in pos && pos[j] in pos;
    }
  }

  lemma {:induction false} DifferTo(s: Scene, edit: Edit, ps: seq<Participant>, entries: seq<Entry>, pos: seq<nat>)
    requires KeptFrom(s, edit, ps, entries, pos) && NamesDiffer(s.fold, entries)
    ensures FinalNamesDiffer(s, edit, ps)
  {
    forall a, b | 0 <= a < b < |ps| && Stays(s, edit, ps[a]) && Stays(s, edit, ps[b])
      ensures FinalKey(s, edit.rename, ps[a]) != FinalKey(s, edit.rename, ps[b])
    {
      var i :| 0 <= i < |pos| && pos[i] == a;
      var j :| 0 <= j < |pos| && pos[j] == b;
      assert i != j;
    }
  }

  lemma {:induction false} KeptDifferIff(s: Scene, edit: Edit)
    ensures NamesDiffer(s.fold, KeptEntries(s, edit)) <==> FinalNamesDiffer(s, edit, Present(s.roster))
  {
    var ps, kept := Present(s.roster), KeptEntries(s, edit);
    var pos := KeptEntriesFrom(s, edit);
    if NamesDiffer(s.fold, kept) {
      DifferTo(s, edit, ps, kept, pos);
    } else if FinalNamesDiffer(s, edit, ps) {
      DifferFrom(s, edit, ps, kept, pos);
    }
  }

  /** The names of a merged list are pairwise different exactly when no two of the
      participants that stay collide; additions never do. */
  lemma {:induction false} NamesDifferIff(s: Scene, edit: Edit)
    requires MergedList(s, edit).Ok?
    ensures NamesDiffer(s.fold, MergedList(s, edit).value) <==> NoneCollide(s, edit)
  {
    var ps := Present(s.roster);
    OnlyKeptCollide(s, edit);
    KeptDifferIff(s, edit);
    forall a, b | 0 <= a < b < |ps|
      ensures FinalKey(s, edit.rename, ps[a]) == FinalKey(s, edit.rename, ps[b])
         <==> Collides(s, edit.rename, ps[a], ps[b]) || Collides(s, edit.rename, ps[b], ps[a])
    {
      SameKeyIff(s, edit.rename, ps[a], ps[b]);
    }
  }

  /** Renaming one of two participants to the other's name is accepted. */
  lemma {:induction false} RenameCollides(s: Scene, a: Participant, b: Participant)
    requires s.roster == [Some(a), Some(b)] && DistinctNames(s.fold, s.roster)
    requires a.id != b.id && !Blank(a.name)
    ensures var edit := Edit("", "", [], [], [Rename(b.name, a.name)]);
      && MergedList(s, edit) == Ok(KeptEntries(s, edit))
      && !NamesDiffer(s.fold, KeptEntries(s, edit))
  {
    var edit := Edit("", "", [], [], [Rename(b.name, a.name)]);
    FoundByName(s.fold, s.roster, b, b.name);
    NoRenameProblemIff(s, edit.rename, 1);
    PresentAll([a, b], s.roster);
    KeptDifferIff(s, edit);
    UnnamedKeepsName(s, edit.rename, 1, a);
    DecidedKey(s, edit.rename, b, 0);
  }

  // ---------------------------------------------------------------------
  // Order

  /** No two renames resolve to the same participant. */
  predicate DifferentTargets(s: Scene, renames: seq<Rename>) {
    forall i, j :: 0 <= i < j < |renames| && Named(s, renames[i].from).Some?
      ==> !Resolves(s, renames[j].from, Named(s, renames[i].from).value.id)
  }

  function BadRenames(s: Scene, renames: seq<Rename>): set<nat> {
    set i: nat | i < |renames| && RenameProblem(s, renames[i]) != None
  }

  lemma {:induction false} NextRename(s: Scene, renames: seq<Rename>, bad: set<nat>, k: nat)
    requires k < |renames| && bad == BadRenames(s, renames)
    ensures RenameProblems(s, renames, k + 1) == None <==> RenameProblems(s, renames, k) == None && k !in bad
  {
  }

  lemma {:induction false} NoBadRename(s: Scene, renames: seq<Rename>, bad: set<nat>, k: nat)
    requires k <= |renames| && bad == BadRenames(s, renames) && forall i: nat :: i < k ==> i !in bad
    ensures RenameProblems(s, renames, k) == None
  {
    if k > 0 {
      NoBadRename(s, renames, bad, k - 1);
      NextRename(s, renames, bad, k - 1);
    }
  }

  lemma {:induction false} BadRename(s: Scene, renames: seq<Rename>, bad: set<nat>, i: nat, k: nat)
    requires i < k <= |renames| && bad == BadRenames(s, renames) && i in bad
    ensures RenameProblems(s, renames, k) != None
  {
    NextRename(s, renames, bad, i);
    FirstRenameProblem(s, renames, i + 1, k);
  }

  lemma {:induction false} NoRenameProblemIff(s: Scene, renames: seq<Rename>, k: nat)
    requires k <= |renames|
    ensures RenameProblems(s, renames, k) == None
       <==> forall i :: 0 <= i < k ==> RenameProblem(s, renames[i]) == None
  {
    var bad := BadRenames(s, renames);
    assert forall i :: 0 <= i < k ==> (RenameProblem(s, renames[i]) == None <==> i !in bad);
    if i: nat :| i < k && i in bad {
      BadRename(s, renames, bad, i, k);
    } else {
      NoBadRename(s, renames, bad, k);
    }
  }

  lemma {:induction false} NoRemoveProblemIff(s: Scene, names: seq<string>, k: nat)
    requires k <= |names|
    ensures RemoveProblems(s, names, k) == None
       <==> forall i :: 0 <= i < k ==> RemoveProblem(s, names[i]) == None
  {
    if k > 0 {
      NoRemoveProblemIff(s, names, k - 1);
    }
  }

  lemma {:induction false} RemovedMembers(s: Scene, names: seq<string>, k: nat, id: string)
    requires k <= |names|
    ensures id in Removed(s, names, k) <==> exists i :: 0 <= i < k && Resolves(s, names[i], id)
  {
    if k > 0 {
      RemovedMembers(s, names, k - 1, id);
      assert Resolves(s, names[k - 1], id) ==> exists i :: 0 <= i < k && Resolves(s, names[i], id);
    }
  }

  lemma {:induction false} RemovalOrderIrrelevant(s: Scene, a: seq<string>, b: seq<string>)
    requires SameItems(a, b)
    ensures RemoveProblems(s, a, |a|) == None ==> RemoveProblems(s, b, |b|) == None
    ensures Removed(s, a, |a|) == Removed(s, b, |b|)
  {
    NoRemoveProblemIff(s, a, |a|);
    NoRemoveProblemIff(s, b, |b|);
    forall i | 0 <= i < |b| ensures b[i] in a {
      SameMembers(a, b, b[i]);
    }
    forall i | 0 <= i < |a| ensures a[i] in b {
      SameMembers(a, b, a[i]);
    }
    forall id ensures id in Removed(s, a, |a|) <==> id in Removed(s, b, |b|) {
      RemovedMembers(s, a, |a|, id);
      RemovedMembers(s, b, |b|, id);
    }
  }

  /** With different targets, a rename that resolves to a participant decides its
      name wherever it stands. */
  lemma {:induction false} OnlyRename(s: Scene, renames: seq<Rename>, p: Participant, j: nat)
    requires DifferentTargets(s, renames) && j < |renames| && Resolves(s, renames[j].from, p.id)
    ensures NameAfter(s, renames, |renames|, p) == TrimSpace(renames[j].to)
  {
    forall i | j < i < |renames| ensures !Resolves(s, renames[i].from, p.id) {
      assert !Resolves(s, renames[i].from, Named(s, renames[j].from).value.id);
    }
    LastRenameWins(s, renames, |renames|, p, j);
  }

  lemma {:induction false} RenameOrderIrrelevant(s: Scene, a: seq<Rename>, b: seq<Rename>, p: Participant)
    requires SameItems(a, b) && DifferentTargets(s, a) && DifferentTargets(s, b)
    ensures NameAfter(s, a, |a|, p) == NameAfter(s, b, |b|, p)
  {
    if j :| 0 <= j < |a| && Resolves(s, a[j].from, p.id) {
      SameMembers(a, b, a[j]);
      var i :| 0 <= i < |b| && b[i] == a[j];
      OnlyRename(s, a, p, j);
      OnlyRename(s, b, p, i);
    } else {
      forall i | 0 <= i < |b| ensures !Resolves(s, b[i].from, p.id) {
        SameMembers(a, b, b[i]);
      }
      UnnamedKeepsName(s, a, |a|, p);
      UnnamedKeepsName(s, b, |b|, p);
    }
  }

  lemma {:induction false} TwiceInMultiset<T>(a: seq<T>, i: nat, j: nat)
    requires i < j < |a| && a[i] == a[j]
    ensures multiset(a)[a[i]] >= 2
  {
    assert a == a[..j] + [a[j]] + a[j + 1..];
    assert a[i] in a[..j];
  }

  lemma {:induction false} TwoPlaces<T>(a: seq<T>, x: T) returns (i: nat, j: nat)
    requires multiset(a)[x] >= 2
    ensures i < j < |a| && a[i] == x && a[j] == x
  {
    var n := |a| - 1;
    assert a == a[..n] + [a[n]];
    if a[n] == x {
      assert x in multiset(a[..n]);
      i :| 0 <= i < n && a[..n][i] == x;
      j := n;
    } else {
      i, j := TwoPlaces(a[..n], x);
    }
  }

  /** Reordering keeps targets different. */
  lemma {:induction false} DifferentTargetsReordered(s: Scene, a: seq<Rename>, b: seq<Rename>)
    requires SameItems(a, b) && DifferentTargets(s, a)
    ensures DifferentTargets(s, b)
  {
    forall i, j | 0 <= i < j < |b| && Named(s, b[i].from).Some?
      ensures !Resolves(s, b[j].from, Named(s, b[i].from).value.id)
    {
      var u: nat, v: nat;
      if b[i] == b[j] {
        TwiceInMultiset(b, i, j);
        u, v := TwoPlaces(a, b[i]);
      } else {
        SameMembers(a, b, b[i]);
        SameMembers(a, b, b[j]);
        u :| u < |a| && a[u] == b[i];
        v :| v < |a| && a[v] == b[j];
      }
      assert u < v ==> !Resolves(s, a[v].from, Named(s, a[u].from).value.id);
      assert v < u && Named(s, a[v].from).Some? ==> !Resolves(s, a[u].from, Named(s, a[v].from).value.id);
    }
  }

  /** A merge is one simultaneous edit: reordering the removals, or renames with
      different targets, gives the same list. */
  lemma {:induction false} OrderIrrelevant(s: Scene, edit: Edit, remove: seq<string>, rename: seq<Rename>)
    requires MergedList(s, edit).Ok?
    requires SameItems(edit.remove, remove) && SameItems(edit.rename, rename)
    requires DifferentTargets(s, edit.rename)
    ensures MergedList(s, edit.(remove := remove, rename := rename)) == MergedList(s, edit)
  {
    var ps := Present(s.roster);
    RemovalOrderIrrelevant(s, edit.remove, remove);
    DifferentTargetsReordered(s, edit.rename, rename);
    NoRenameProblemIff(s, edit.rename, |edit.rename|);
    NoRenameProblemIff(s, rename, |rename|);
    forall i | 0 <= i < |rename| ensures rename[i] in edit.rename {
      SameMembers(edit.rename, rename, rename[i]);
    }
    forall i | 0 <= i < |ps|
      ensures NameAfter(s, edit.rename, |edit.rename|, ps[i]) == NameAfter(s, rename, |rename|, ps[i])
    {
      RenameOrderIrrelevant(s, edit.rename, rename, ps[i]);
    }
    assert RenamedAll(s, edit.rename, |edit.rename|, ps) == RenamedAll(s, rename, |rename|, ps);
  }
}
