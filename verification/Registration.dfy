/** Registering a freshly created group: when its alias is taken, numbered ones are
    tried, because the group already exists upstream and must not be lost. */
module Registration {
  import opened Wrappers
  import opened Numerals
  import opened Tables
  import Stores
  import Spliit
  import Text

  const ATTEMPTS: nat := 10

  /** The alias itself, then the alias with suffixes 2 to 10. */
  function Candidate(alias: string, attempt: nat): string {
    if attempt == 0 then alias else alias + ("-" + DigitsOf(attempt + 1))
  }

  function WithAlias(row: Row, attempt: nat): Row {
    row.(alias := Candidate(row.alias, attempt))
  }

  /** Attempts `attempt` to 9, each an insert that stops the probing unless it
      conflicts; `failing` are the attempts whose insert fails otherwise. */
  function Probe(db: DB, row: Row, ids: seq<Id>, failing: set<nat>, now: Time, attempt: nat)
    : (DB, Result<Row, StoreError>)
    requires |ids| == ATTEMPTS && attempt <= ATTEMPTS
    decreases ATTEMPTS - attempt, ids
  {
    if attempt == ATTEMPTS then (db, Err(Conflict))
    else if attempt in failing then (db, Err(Failed))
    else
      var (after, r) := CreateGroup(db, ids[attempt], WithAlias(row, attempt), now);
      if r.Ok? then (after, Ok(after.groups[ids[attempt]]))
      else Probe(db, row, ids, failing, now, attempt + 1)
  }

  /** The row before it is stored: the caller is the first participant with their
      display name. */
  function RowFor(fold: Text.Folding, roster: Spliit.Roster, displayName: string, row: Row): Row {
    match Spliit.ByName(fold, roster, displayName)
    case None => row
    case Some(p) => row.(participantId := p.id, participantName := p.name)
  }

  /** `registerGroup`; `ids` are the fresh UUIDs of its attempts. */
  method RegisterGroup(store: Stores.Store, fold: Text.Folding, roster: Spliit.Roster, displayName: string,
                       row: Row, ids: seq<Id>, failing: set<nat>, now: Time)
    returns (r: Result<Row, StoreError>)
    requires |ids| == ATTEMPTS
    modifies store`groups
    ensures (store.State(), r) ==
      Probe(old(store.State()), RowFor(fold, roster, displayName, row), ids, failing, now, 0)
  {
    var mine := row;
    var p := Spliit.FindByName(fold, roster, displayName);
    if p.Some? {
      mine := row.(participantId := p.value.id, participantName := p.value.name);
    }
    ghost var db := store.State();
    for attempt := 0 to ATTEMPTS
      invariant store.State() == db
      invariant Probe(db, mine, ids, failing, now, attempt) == Probe(db, mine, ids, failing, now, 0)
    {
      if attempt in failing {
        return Err(Failed);
      }
      var stored := store.CreateGroup(ids[attempt], WithAlias(mine, attempt), now);
      if stored.Ok? {
        return Ok(store.groups[ids[attempt]]);
      }
    }
    r := Err(Conflict);
  }

  /** The row pins the first participant with the display name, if there is one, and
      is otherwise as given. */
  lemma {:induction false} RowForMeaning(fold: Text.Folding, roster: Spliit.Roster, displayName: string, row: Row)
    returns (i: nat)
    ensures var r := RowFor(fold, roster, displayName, row);
      && r == row.(participantId := r.participantId, participantName := r.participantName)
      && (Spliit.Nobody(fold, roster, displayName) ==> r == row)
      && (!Spliit.Nobody(fold, roster, displayName) ==>
            && Spliit.FirstNamed(fold, roster, displayName, i)
            && r.participantId == roster[i].value.id && r.participantName == roster[i].value.name)
  {
    i := Spliit.NamedMeaning(fold, roster, displayName);
  }

  /** The suffixes. */
  lemma {:induction false} CandidateTexts(alias: string)
    ensures Candidate(alias, 0) == alias
    ensures Candidate(alias, 1) == alias + "-2" && Candidate(alias, 2) == alias + "-3"
    ensures Candidate(alias, 3) == alias + "-4" && Candidate(alias, 4) == alias + "-5"
    ensures Candidate(alias, 5) == alias + "-6" && Candidate(alias, 6) == alias + "-7"
    ensures Candidate(alias, 7) == alias + "-8" && Candidate(alias, 8) == alias + "-9"
    ensures Candidate(alias, 9) == alias + "-10"
  {
    assert DigitsOf(10) == DigitsOf(1) + [Digit(0)] == "10";
    assert DigitsOf(2) == "2" && DigitsOf(3) == "3" && DigitsOf(4) == "4" && DigitsOf(5) == "5";
    assert DigitsOf(6) == "6" && DigitsOf(7) == "7" && DigitsOf(8) == "8" && DigitsOf(9) == "9";
  }

  // ---------------------------------------------------------------------
  // Which alias it gets

  ghost predicate AliasFree(db: DB, sub: Sub, alias: string) {
    forall id :: !AliasOf(db, sub, alias, id)
  }

  /** The user has registered this very group before. */
  ghost predicate Registered(db: DB, row: Row) {
    exists id :: Owns(db, row.userSub, id)
      && db.groups[id].baseUrl == row.baseUrl && db.groups[id].spliitId == row.spliitId
  }

  /** Probing can succeed at all: an existing user, a group not registered yet. */
  ghost predicate Welcome(db: DB, row: Row) {
    row.userSub in db.users && !Registered(db, row)
  }

  predicate UnusedIds(db: DB, ids: seq<Id>) {
    forall i :: 0 <= i < |ids| ==> ids[i] !in db.groups
  }

  lemma {:induction false} AttemptSucceedsIff(db: DB, row: Row, id: Id, now: Time)
    requires id !in db.groups
    ensures CreateGroup(db, id, row, now).1.Ok? <==> Welcome(db, row) && AliasFree(db, row.userSub, row.alias)
  {
    var stamped := row.(createdAt := now, updatedAt := now);
    if Welcome(db, row) && AliasFree(db, row.userSub, row.alias) {
      forall other | other in db.groups && other != id ensures !Clash(db.groups[other], stamped) {
        assert !AliasOf(db, row.userSub, row.alias, other);
      }
    }
    if Fits(db, id, stamped) {
      forall other ensures !AliasOf(db, row.userSub, row.alias, other) {
        assert other in db.groups ==> !Clash(db.groups[other], stamped);
      }
      forall other | Owns(db, row.userSub, other)
        ensures !(db.groups[other].baseUrl == row.baseUrl && db.groups[other].spliitId == row.spliitId)
      {
        assert !Clash(db.groups[other], stamped);
      }
    }
  }

  /** `attempt` is the first one whose alias is free. */
  ghost predicate FirstFree(db: DB, row: Row, attempt: nat) {
    && attempt < ATTEMPTS && AliasFree(db, row.userSub, Candidate(row.alias, attempt))
    && forall a :: 0 <= a < attempt ==> !AliasFree(db, row.userSub, Candidate(row.alias, a))
  }

  /** No attempt from `from` through `to` fails otherwise. */
  predicate Reached(failing: set<nat>, from: nat, to: nat) {
    forall i :: from <= i <= to ==> i !in failing
  }

  lemma {:induction false} ProbeFrom(
    db: DB, row: Row, ids: seq<Id>, failing: set<nat>, now: Time, attempt: nat, free: nat)
    requires |ids| == ATTEMPTS && UnusedIds(db, ids) && Welcome(db, row)
    requires FirstFree(db, row, free) && attempt <= free && Reached(failing, attempt, free)
    ensures var stamped := WithAlias(row, free).(createdAt := now, updatedAt := now);
      Probe(db, row, ids, failing, now, attempt) == (db.(groups := db.groups[ids[free] := stamped]), Ok(stamped))
    decreases ATTEMPTS - attempt
  {
    AttemptSucceedsIff(db, WithAlias(row, attempt), ids[attempt], now);
    if attempt < free {
      ProbeFrom(db, row, ids, failing, now, attempt + 1, free);
    }
  }

  /** No attempt from this one on is both reached and free. */
  ghost predicate InVain(db: DB, row: Row, failing: set<nat>, attempt: nat) {
    forall a :: attempt <= a < ATTEMPTS && Reached(failing, attempt, a)
      ==> !AliasFree(db, row.userSub, Candidate(row.alias, a))
  }

  lemma {:induction false} InVainLater(db: DB, row: Row, failing: set<nat>, attempt: nat)
    requires InVain(db, row, failing, attempt) && attempt !in failing
    ensures InVain(db, row, failing, attempt + 1)
  {
    forall a | attempt + 1 <= a < ATTEMPTS && Reached(failing, attempt + 1, a)
      ensures !AliasFree(db, row.userSub, Candidate(row.alias, a))
    {
      assert Reached(failing, attempt, a);
    }
  }

  lemma {:induction false} ProbeInVain(db: DB, row: Row, ids: seq<Id>, failing: set<nat>, now: Time, attempt: nat)
    requires |ids| == ATTEMPTS && UnusedIds(db, ids) && attempt <= ATTEMPTS
    requires !Welcome(db, row) || InVain(db, row, failing, attempt)
    ensures Probe(db, row, ids, failing, now, attempt)
         == (db, Err(if exists i :: attempt <= i < ATTEMPTS && i in failing then Failed else Conflict))
    decreases ATTEMPTS - attempt
  {
    if attempt < ATTEMPTS && attempt !in failing {
      assert Reached(failing, attempt, attempt);
      AttemptSucceedsIff(db, WithAlias(row, attempt), ids[attempt], now);
      if Welcome(db, row) {
        InVainLater(db, row, failing, attempt);
      }
      ProbeInVain(db, row, ids, failing, now, attempt + 1);
    }
  }

  lemma {:induction false} FindFirstFree(db: DB, row: Row, a: nat) returns (free: nat)
    requires a < ATTEMPTS && AliasFree(db, row.userSub, Candidate(row.alias, a))
    ensures FirstFree(db, row, free) && free <= a
  {
    if b: nat :| b < a && AliasFree(db, row.userSub, Candidate(row.alias, b)) {
      free := FindFirstFree(db, row, b);
    } else {
      free := a;
    }
  }

  /** One of the ten aliases is free, and no attempt up to it fails otherwise. */
  ghost predicate SomeFree(db: DB, row: Row, failing: set<nat>) {
    exists a :: 0 <= a < 10 && Reached(failing, 0, a) && AliasFree(db, row.userSub, Candidate(row.alias, a))
  }

  /** The group is stored exactly when the user exists, has not registered it, and
      one of the ten aliases is free and reached. It then gets the first free one, and
      every other row stays as it was; otherwise the tables are unchanged. */
  lemma {:induction false} RegisterMeaning(db: DB, row: Row, ids: seq<Id>, failing: set<nat>, now: Time)
    returns (free: nat)
    requires |ids| == ATTEMPTS && UnusedIds(db, ids)
    ensures Probe(db, row, ids, failing, now, 0).1.Ok? <==> Welcome(db, row) && SomeFree(db, row, failing)
    ensures var (after, r) := Probe(db, row, ids, failing, now, 0);
      if r.Ok? then
        && FirstFree(db, row, free)
        && r.value == WithAlias(row, free).(createdAt := now, updatedAt := now)
        && after == db.(groups := db.groups[ids[free] := r.value])
      else after == db
  {
    free := 0;
    if Welcome(db, row) && SomeFree(db, row, failing) {
      var a :| 0 <= a < ATTEMPTS && Reached(failing, 0, a) && AliasFree(db, row.userSub, Candidate(row.alias, a));
      free := FindFirstFree(db, row, a);
      ProbeFrom(db, row, ids, failing, now, 0, free);
    } else {
      ProbeInVain(db, row, ids, failing, now, 0);
    }
  }

  // ---------------------------------------------------------------------
  // Pigeonhole

  lemma {:induction false} CandidatesDiffer(alias: string, a: nat, b: nat)
    requires a < b
    ensures Candidate(alias, a) != Candidate(alias, b)
  {
    var suffix := "-" + DigitsOf(b + 1);
    assert (alias + suffix)[|alias|..] == suffix;
    if a == 0 {
      assert |alias + suffix| > |alias|;
    } else {
      var other := "-" + DigitsOf(a + 1);
      assert (alias + other)[|alias|..] == other;
      assert suffix[1..] == DigitsOf(b + 1) && other[1..] == DigitsOf(a + 1);
      ValueOfDigitsOf(a + 1);
      ValueOfDigitsOf(b + 1);
    }
  }

  /** When the first `k` candidates are all taken, they are taken by `k` different
      groups. */
  lemma {:induction false} Takers(db: DB, sub: Sub, alias: string, k: nat) returns (takers: set<Id>)
    requires forall a :: 0 <= a < k ==> !AliasFree(db, sub, Candidate(alias, a))
    ensures |takers| == k && takers <= ListGroups(db, sub).Keys
    ensures forall id :: id in takers ==> exists a :: 0 <= a < k && db.groups[id].alias == Candidate(alias, a)
  {
    if k == 0 {
      takers := {};
    } else {
      var rest := Takers(db, sub, alias, k - 1);
      var id :| AliasOf(db, sub, Candidate(alias, k - 1), id);
      if id in rest {
        var a :| 0 <= a < k - 1 && db.groups[id].alias == Candidate(alias, a);
        CandidatesDiffer(alias, a, k - 1);
      }
      takers := rest + {id};
    }
  }

  /** A user with fewer than ten groups always gets an alias, if the store works. */
  lemma {:induction false} FewGroupsAlwaysRegister(db: DB, row: Row, ids: seq<Id>, now: Time)
    requires |ids| == ATTEMPTS && UnusedIds(db, ids)
    requires Welcome(db, row) && |ListGroups(db, row.userSub)| < 10
    ensures Probe(db, row, ids, {}, now, 0).1.Ok?
  {
    if forall a :: 0 <= a < ATTEMPTS ==> !AliasFree(db, row.userSub, Candidate(row.alias, a)) {
      var takers := Takers(db, row.userSub, row.alias, ATTEMPTS);
      FewerThan(takers, ListGroups(db, row.userSub).Keys);
    }
    assert forall a: nat :: Reached({}, 0, a);
    var _ := RegisterMeaning(db, row, ids, {}, now);
  }

  lemma {:induction false} FewerThan<T>(a: set<T>, b: set<T>)
    requires a <= b
    ensures |a| <= |b|
  {
    assert |b| == |a| + |b - a|;
  }
}
