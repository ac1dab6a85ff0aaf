/** What every run of store operations keeps, and what one user's operations leave
    alone of another's. */
module StoreLaws {
  import opened Wrappers
  import opened Tables
  import S = Sessions

  // ---------------------------------------------------------------------
  // The invariant

  /** Unique keys, no dangling references, and defaults among one's own groups. */
  ghost predicate Valid(db: DB) {
    && (forall a, b :: a in db.groups && b in db.groups && a != b ==> !Clash(db.groups[a], db.groups[b]))
    && (forall id :: id in db.groups ==> db.groups[id].userSub in db.users)
    && (forall id :: id in db.sessions ==> db.sessions[id].userSub in db.users)
    && (forall sub :: sub in db.users && db.users[sub].defaultGroup.Some? ==>
          Owns(db, sub, db.users[sub].defaultGroup.value))
  }

  /** The calls that change the tables. */
  datatype Op =
    | Upsert(sub: Sub, issuer: string, email: string, displayName: string, now: Time)
    | Rename(sub: Sub, displayName: string, now: Time)
    | SetDefault(sub: Sub, id: Id, now: Time)
    | Create(id: Id, row: Row, now: Time)
    | Update(id: Id, edit: Row, now: Time)
    | Delete(sub: Sub, id: Id)
    | StartSession(id: Id, sub: Sub, now: Time, ttl: Time)
    | EndSession(id: Id)
    | Purge(now: Time)

  function Apply(db: DB, op: Op): (DB, Done) {
    match op
    case Upsert(sub, issuer, email, displayName, now) =>
      (UpsertUser(db, sub, issuer, email, displayName, now), Ok(()))
    case Rename(sub, displayName, now) => SetDisplayName(db, sub, displayName, now)
    case SetDefault(sub, id, now) => SetDefaultGroup(db, sub, id, now)
    case Create(id, row, now) => CreateGroup(db, id, row, now)
    case Update(id, edit, now) => UpdateGroup(db, id, edit, now)
    case Delete(sub, id) => DeleteGroup(db, sub, id)
    case StartSession(id, sub, now, ttl) => CreateSession(db, id, sub, now, ttl)
    case EndSession(id) => (db.(sessions := db.sessions - {id}), Ok(()))
    case Purge(now) => (db.(sessions := S.Purged(db.sessions, now)), Ok(()))
  }

  lemma {:induction false} UpdateKeepsValid(db: DB, id: Id, edit: Row, now: Time)
    requires Valid(db)
    ensures Valid(UpdateGroup(db, id, edit, now).0)
  {
  }

  lemma {:induction false} DeleteKeepsValid(db: DB, sub: Sub, id: Id)
    requires Valid(db)
    ensures Valid(DeleteGroup(db, sub, id).0)
  {
  }

  lemma {:induction false} CreateKeepsValid(db: DB, id: Id, row: Row, now: Time)
    requires Valid(db)
    ensures Valid(CreateGroup(db, id, row, now).0)
  {
  }

  lemma {:induction false} UsersKeepValid(db: DB, op: Op)
    requires Valid(db) && (op.Upsert? || op.Rename? || op.SetDefault?)
    ensures Valid(Apply(db, op).0)
  {
  }

  lemma {:induction false} OpKeepsValid(db: DB, op: Op)
    requires Valid(db)
    ensures Valid(Apply(db, op).0)
  {
    match op
    case Create(id, row, now) => CreateKeepsValid(db, id, row, now);
    case Update(id, edit, now) => UpdateKeepsValid(db, id, edit, now);
    case Delete(sub, id) => DeleteKeepsValid(db, sub, id);
    case StartSession(_, _, _, _) =>
    case EndSession(_) =>
    case Purge(_) =>
    case _ => UsersKeepValid(db, op);
  }

  const EMPTY: DB := DB(map[], map[], map[])

  function AfterRun(db: DB, ops: seq<Op>, n: nat): DB
    requires n <= |ops|
  {
    if n == 0 then db else Apply(AfterRun(db, ops, n - 1), ops[n - 1]).0
  }

  lemma {:induction false} RunKeepsValid(db: DB, ops: seq<Op>, n: nat)
    requires Valid(db) && n <= |ops|
    ensures Valid(AfterRun(db, ops, n))
  {
    if n > 0 {
      RunKeepsValid(db, ops, n - 1);
      OpKeepsValid(AfterRun(db, ops, n - 1), ops[n - 1]);
    }
  }

  /** The invariant holds of the empty tables and after every run. */
  lemma {:induction false} RunsStayValid(ops: seq<Op>, n: nat)
    requires n <= |ops|
    ensures Valid(AfterRun(EMPTY, ops, n))
  {
    RunKeepsValid(EMPTY, ops, n);
  }

  /** So there is no default exactly when none is set, and it is one's own. */
  lemma {:induction false} DefaultMeaning(db: DB, sub: Sub)
    requires Valid(db) && sub in db.users
    ensures DefaultGroup(db, sub) == Err(NotFound) <==> db.users[sub].defaultGroup == None
    ensures DefaultGroup(db, sub).Ok? ==>
      Owns(db, sub, DefaultGroup(db, sub).value) && db.users[sub].defaultGroup == Some(DefaultGroup(db, sub).value)
  {
  }

  /** An alias resolves to the only row that has it, whatever other rows the
      reference also names; every answer is one of the user's own rows. */
  lemma {:induction false} ResolveMeaning(db: DB, sub: Sub, reference: string, answer: Result<Id, StoreError>, id: Id)
    requires Valid(db) && MayResolve(db, sub, reference, answer)
    ensures answer.Ok? ==> Owns(db, sub, answer.value)
    ensures AliasOf(db, sub, reference, id) ==> answer == Ok(id)
  {
    if AliasOf(db, sub, reference, id) {
      assert Named(db, sub, reference, id);
      assert answer.value != id ==> !Clash(db.groups[answer.value], db.groups[id]);
    }
  }

  // ---------------------------------------------------------------------
  // Users do not interfere

  /** What a user's own queries can see. */
  datatype View = View(user: Option<User>, groups: map<Id, Row>)

  function ViewOf(db: DB, sub: Sub): View {
    View(if sub in db.users then Some(db.users[sub]) else None, ListGroups(db, sub))
  }

  predicate ActsFor(op: Op, sub: Sub) {
    match op
    case Upsert(s, _, _, _, _) => s == sub
    case Rename(s, _, _) => s == sub
    case SetDefault(s, _, _) => s == sub
    case Create(_, row, _) => row.userSub == sub
    case Update(_, edit, _) => edit.userSub == sub
    case Delete(s, _) => s == sub
    case _ => false
  }

  lemma {:induction false} DeleteLeavesOthers(db: DB, sub: Sub, id: Id, other: Sub)
    requires Valid(db) && sub != other
    ensures ViewOf(DeleteGroup(db, sub, id).0, other) == ViewOf(db, other)
  {
    var after := DeleteGroup(db, sub, id).0;
    assert ListGroups(after, other) == ListGroups(db, other);
  }

  lemma {:induction false} CreateLeavesOthers(db: DB, id: Id, row: Row, now: Time, other: Sub)
    requires row.userSub != other
    ensures ViewOf(CreateGroup(db, id, row, now).0, other) == ViewOf(db, other)
  {
    assert ListGroups(CreateGroup(db, id, row, now).0, other) == ListGroups(db, other);
  }

  lemma {:induction false} UpdateLeavesOthers(db: DB, id: Id, edit: Row, now: Time, other: Sub)
    requires edit.userSub != other
    ensures ViewOf(UpdateGroup(db, id, edit, now).0, other) == ViewOf(db, other)
  {
    assert ListGroups(UpdateGroup(db, id, edit, now).0, other) == ListGroups(db, other);
  }

  /** An operation that does not act for a user leaves everything that user sees
      as it was. */
  lemma {:induction false} OthersUntouched(db: DB, op: Op, other: Sub)
    requires Valid(db) && !ActsFor(op, other)
    ensures ViewOf(Apply(db, op).0, other) == ViewOf(db, other)
  {
    match op
    case Create(id, row, now) => CreateLeavesOthers(db, id, row, now, other);
    case Update(id, edit, now) => UpdateLeavesOthers(db, id, edit, now, other);
    case Delete(sub, id) => DeleteLeavesOthers(db, sub, id, other);
    case _ =>
      assert ListGroups(Apply(db, op).0, other) == ListGroups(db, other);
  }

  /** What a user sees decides the answers to the user's queries. */
  lemma {:induction false} AnswersFromView(a: DB, b: DB, sub: Sub, reference: string, answer: Result<Id, StoreError>)
    requires ViewOf(a, sub) == ViewOf(b, sub)
    ensures DefaultGroup(a, sub) == DefaultGroup(b, sub)
    ensures GetGroup(a, sub, reference) == GetGroup(b, sub, reference)
    ensures MayResolve(a, sub, reference, answer) <==> MayResolve(b, sub, reference, answer)
  {
    forall id ensures Owns(a, sub, id) <==> Owns(b, sub, id) {
      SameOwned(a, b, sub, id);
    }
    forall id
      ensures Named(a, sub, reference, id) <==> Named(b, sub, reference, id)
      ensures AliasOf(a, sub, reference, id) <==> AliasOf(b, sub, reference, id)
    {
      SameOwned(a, b, sub, id);
    }
    SameOwned(a, b, sub, reference);
  }

  lemma {:induction false} SameOwned(a: DB, b: DB, sub: Sub, id: Id)
    requires ListGroups(a, sub) == ListGroups(b, sub)
    ensures Owns(a, sub, id) <==> Owns(b, sub, id)
    ensures Owns(a, sub, id) ==> a.groups[id] == b.groups[id]
  {
    assert Owns(a, sub, id) <==> id in ListGroups(a, sub);
    assert Owns(b, sub, id) <==> id in ListGroups(b, sub);
    assert Owns(a, sub, id) ==> ListGroups(a, sub)[id] == a.groups[id];
    assert Owns(b, sub, id) ==> ListGroups(b, sub)[id] == b.groups[id];
  }

  /** Whether a row fits is decided by its own user's rows. */
  lemma {:induction false} FitsFromView(a: DB, b: DB, id: Id, row: Row)
    requires ViewOf(a, row.userSub) == ViewOf(b, row.userSub)
    ensures Fits(a, id, row) == Fits(b, id, row)
  {
    var sub := row.userSub;
    assert sub in a.users <==> sub in b.users;
    forall other
      ensures (other in a.groups && Clash(a.groups[other], row)) <==> (other in b.groups && Clash(b.groups[other], row))
    {
      SameOwned(a, b, sub, other);
    }
  }

  /** The internal ID a new group gets is unused. */
  predicate FreshIn(db: DB, op: Op) {
    op.Create? ==> op.id !in db.groups
  }

  lemma {:induction false} SameListAfterInsert(a: DB, b: DB, sub: Sub, id: Id, row: Row)
    requires ListGroups(a, sub) == ListGroups(b, sub) && row.userSub == sub
    ensures ListGroups(a.(groups := a.groups[id := row]), sub) == ListGroups(b.(groups := b.groups[id := row]), sub)
  {
    assert ListGroups(a.(groups := a.groups[id := row]), sub) == ListGroups(a, sub)[id := row];
    assert ListGroups(b.(groups := b.groups[id := row]), sub) == ListGroups(b, sub)[id := row];
  }

  lemma {:induction false} CreateFromView(a: DB, b: DB, id: Id, row: Row, now: Time)
    requires ViewOf(a, row.userSub) == ViewOf(b, row.userSub) && id !in a.groups && id !in b.groups
    ensures CreateGroup(a, id, row, now).1 == CreateGroup(b, id, row, now).1
    ensures ViewOf(CreateGroup(a, id, row, now).0, row.userSub) == ViewOf(CreateGroup(b, id, row, now).0, row.userSub)
  {
    var stamped := row.(createdAt := now, updatedAt := now);
    FitsFromView(a, b, id, stamped);
    SameListAfterInsert(a, b, row.userSub, id, stamped);
  }

  lemma {:induction false} UpdateFromView(a: DB, b: DB, id: Id, edit: Row, now: Time)
    requires ViewOf(a, edit.userSub) == ViewOf(b, edit.userSub)
    ensures UpdateGroup(a, id, edit, now).1 == UpdateGroup(b, id, edit, now).1
    ensures ViewOf(UpdateGroup(a, id, edit, now).0, edit.userSub)
         == ViewOf(UpdateGroup(b, id, edit, now).0, edit.userSub)
  {
    SameOwned(a, b, edit.userSub, id);
    if Owns(a, edit.userSub, id) {
      var row := Edited(a.groups[id], edit, now);
      FitsFromView(a, b, id, row);
      SameListAfterInsert(a, b, edit.userSub, id, row);
    }
  }

  lemma {:induction false} DeleteFromView(a: DB, b: DB, sub: Sub, id: Id)
    requires ViewOf(a, sub) == ViewOf(b, sub)
    ensures DeleteGroup(a, sub, id).1 == DeleteGroup(b, sub, id).1
    ensures ViewOf(DeleteGroup(a, sub, id).0, sub) == ViewOf(DeleteGroup(b, sub, id).0, sub)
  {
    SameOwned(a, b, sub, id);
    if Owns(a, sub, id) {
      assert ListGroups(DeleteGroup(a, sub, id).0, sub) == ListGroups(a, sub) - {id};
      assert ListGroups(DeleteGroup(b, sub, id).0, sub) == ListGroups(b, sub) - {id};
      assert sub in a.users <==> sub in b.users;
    }
  }

  lemma {:induction false} UserOpFromView(a: DB, b: DB, sub: Sub, op: Op)
    requires ViewOf(a, sub) == ViewOf(b, sub) && ActsFor(op, sub)
    requires op.Upsert? || op.Rename? || op.SetDefault?
    ensures Apply(a, op).1 == Apply(b, op).1
    ensures ViewOf(Apply(a, op).0, sub) == ViewOf(Apply(b, op).0, sub)
  {
    assert sub in a.users <==> sub in b.users;
    if op.SetDefault? {
      SameOwned(a, b, sub, op.id);
    }
    assert ListGroups(Apply(a, op).0, sub) == ListGroups(a, sub);
    assert ListGroups(Apply(b, op).0, sub) == ListGroups(b, sub);
  }

  /** Two states of the tables that look the same to a user answer the user's
      operation alike, and still look the same afterwards, whatever other users'
      rows they hold. */
  lemma {:induction false} OutcomeFromView(a: DB, b: DB, sub: Sub, op: Op)
    requires ViewOf(a, sub) == ViewOf(b, sub) && ActsFor(op, sub)
    requires FreshIn(a, op) && FreshIn(b, op)
    ensures Apply(a, op).1 == Apply(b, op).1
    ensures ViewOf(Apply(a, op).0, sub) == ViewOf(Apply(b, op).0, sub)
  {
    match op
    case Create(id, row, now) => CreateFromView(a, b, id, row, now);
    case Update(id, edit, now) => UpdateFromView(a, b, id, edit, now);
    case Delete(s, id) => DeleteFromView(a, b, s, id);
    case _ => UserOpFromView(a, b, sub, op);
  }

  // ---------------------------------------------------------------------
  // Whole runs

  /** The operations that act for the user, among the first `n`. */
  function Own(ops: seq<Op>, sub: Sub, n: nat): seq<Op>
    requires n <= |ops|
  {
    if n == 0 then []
    else if ActsFor(ops[n - 1], sub) then Own(ops, sub, n - 1) + [ops[n - 1]]
    else Own(ops, sub, n - 1)
  }

  /** What the user's operations among the first `n` answer. */
  function Outcomes(db: DB, ops: seq<Op>, sub: Sub, n: nat): seq<Done>
    requires n <= |ops|
  {
    if n == 0 then []
    else if ActsFor(ops[n - 1], sub)
    then Outcomes(db, ops, sub, n - 1) + [Apply(AfterRun(db, ops, n - 1), ops[n - 1]).1]
    else Outcomes(db, ops, sub, n - 1)
  }

  /** The internal IDs the first `n` operations ask for. */
  function AskedIds(ops: seq<Op>, n: nat): set<Id>
    requires n <= |ops|
  {
    if n == 0 then {} else AskedIds(ops, n - 1) + if ops[n - 1].Create? then {ops[n - 1].id} else {}
  }

  /** New groups get IDs never used before. */
  predicate FreshIds(db: DB, ops: seq<Op>) {
    forall i :: 0 <= i < |ops| && ops[i].Create? ==> ops[i].id !in db.groups && ops[i].id !in AskedIds(ops, i)
  }

  lemma {:induction false} RunPrefix(db: DB, ops: seq<Op>, op: Op, sub: Sub, n: nat)
    requires n <= |ops|
    ensures AfterRun(db, ops + [op], n) == AfterRun(db, ops, n)
    ensures Outcomes(db, ops + [op], sub, n) == Outcomes(db, ops, sub, n)
    ensures AskedIds(ops + [op], n) == AskedIds(ops, n)
  {
    if n > 0 {
      RunPrefix(db, ops, op, sub, n - 1);
    }
  }

  /** One more operation of the user's own. */
  lemma {:induction false} RunSnoc(db: DB, ops: seq<Op>, op: Op, sub: Sub)
    requires ActsFor(op, sub)
    ensures var before, n := AfterRun(db, ops, |ops|), |ops| + 1;
      && AfterRun(db, ops + [op], n) == Apply(before, op).0
      && Outcomes(db, ops + [op], sub, n) == Outcomes(db, ops, sub, |ops|) + [Apply(before, op).1]
      && AskedIds(ops + [op], n) == AskedIds(ops, |ops|) + if op.Create? then {op.id} else {}
  {
    RunPrefix(db, ops, op, sub, |ops|);
  }

  lemma {:induction false} GroupsAsked(db: DB, op: Op)
    ensures Apply(db, op).0.groups.Keys <= db.groups.Keys + if op.Create? then {op.id} else {}
  {
  }

  lemma {:induction false} IdsWithin(db: DB, ops: seq<Op>, n: nat)
    requires n <= |ops|
    ensures AfterRun(db, ops, n).groups.Keys <= db.groups.Keys + AskedIds(ops, n)
  {
    if n > 0 {
      IdsWithin(db, ops, n - 1);
      GroupsAsked(AfterRun(db, ops, n - 1), ops[n - 1]);
    }
  }

  lemma {:induction false} OwnIds(db: DB, ops: seq<Op>, sub: Sub, n: nat)
    requires n <= |ops|
    ensures AskedIds(Own(ops, sub, n), |Own(ops, sub, n)|) <= AskedIds(ops, n)
  {
    if n > 0 {
      OwnIds(db, ops, sub, n - 1);
      if ActsFor(ops[n - 1], sub) {
        RunSnoc(db, Own(ops, sub, n - 1), ops[n - 1], sub);
      }
    }
  }

  lemma {:induction false} FreshInBoth(db: DB, ops: seq<Op>, sub: Sub, n: nat)
    requires n < |ops| && FreshIds(db, ops)
    ensures FreshIn(AfterRun(db, ops, n), ops[n])
    ensures FreshIn(AfterRun(db, Own(ops, sub, n), |Own(ops, sub, n)|), ops[n])
  {
    IdsWithin(db, ops, n);
    IdsWithin(db, Own(ops, sub, n), |Own(ops, sub, n)|);
    OwnIds(db, ops, sub, n);
  }

  /** Leaving everybody else's operations out of a run changes neither what a user's
      own operations answer nor what the user sees at the end. */
  lemma {:induction false} OthersUnobservable(db: DB, ops: seq<Op>, sub: Sub, n: nat)
    requires Valid(db) && FreshIds(db, ops) && n <= |ops|
    ensures var own := Own(ops, sub, n);
      && ViewOf(AfterRun(db, ops, n), sub) == ViewOf(AfterRun(db, own, |own|), sub)
      && Outcomes(db, ops, sub, n) == Outcomes(db, own, sub, |own|)
  {
    if n > 0 {
      var own, op := Own(ops, sub, n - 1), ops[n - 1];
      var full, alone := AfterRun(db, ops, n - 1), AfterRun(db, own, |own|);
      OthersUnobservable(db, ops, sub, n - 1);
      if ActsFor(op, sub) {
        FreshInBoth(db, ops, sub, n - 1);
        OutcomeFromView(full, alone, sub, op);
        RunSnoc(db, own, op, sub);
      } else {
        RunKeepsValid(db, ops, n - 1);
        OthersUntouched(full, op, sub);
      }
    }
  }
}
