/** One call of `Migrate` on one database handle, and why it is a run of the protocol
    in `MigrationRuns`. */
module Databases {
  import opened Wrappers
  import opened Lists
  import opened Migrations
  import opened MigrationRuns

  /** What goes wrong during a call: creating the version table, reading the version,
      transactions that fail, by their place in the list, and transactions that take
      effect although their commit is reported as failed. */
  datatype Faults = Faults(create: bool, read: bool, failing: set<nat>, lost: set<nat>)

  /** The migrations from `k` on, stopping at the first that fails. */
  function AppliedFrom(ms: seq<Migration>, db: Database, faults: Faults, current: int, k: nat): (Database, bool)
    requires k <= |ms|
    decreases |ms| - k, ms
  {
    if k == |ms| then (db, true)
    else if ms[k].version <= current then AppliedFrom(ms, db, faults, current, k + 1)
    else if k in faults.failing then (db, false)
    else match Committed(db, ms[k])
      case None => (db, false)
      case Some(after) =>
        if k in faults.lost then (after, false) else AppliedFrom(ms, after, faults, current, k + 1)
  }

  function Migrated(ms: seq<Migration>, db: Database, faults: Faults): (Database, bool) {
    if faults.create || faults.read then (db, false) else AppliedFrom(ms, db, faults, Current(db), 0)
  }

  /** `loadMigrations` may return `ms` for these files. */
  predicate Loads(files: seq<File>, ms: seq<Migration>) {
    ReadAll(files, |files|).Ok? && Ordered(ms) && SameItems(ms, ReadAll(files, |files|).value)
  }

  class Handle {
    var recorded: seq<int>
    var schema: seq<string>

    function State(): Database
      reads this
    {
      Database(recorded, schema)
    }

    constructor ()
      ensures State() == Database([], [])
    {
      recorded, schema := [], [];
    }

    /** `applyMigration`: one transaction. The primary key of the version table
        refuses a version that is there already, and the rollback undoes the script. */
    method ApplyMigration(m: Migration, fails: bool, lost: bool) returns (ok: bool)
      modifies this
      ensures ok <==> !fails && !lost && Committed(old(State()), m).Some?
      ensures State() ==
        if fails || Committed(old(State()), m).None? then old(State()) else Committed(old(State()), m).value
    {
      if fails {
        return false;
      }
      var before := schema;
      schema := schema + [m.sql];
      if m.version in recorded {
        schema := before;
        return false;
      }
      recorded := recorded + [m.version];
      ok := !lost;
    }

    /** `Migrate` */
    method Migrate(files: seq<File>, faults: Faults) returns (ok: bool, ghost ms: seq<Migration>)
      modifies this
      ensures ReadAll(files, |files|).Err? ==> !ok && State() == old(State())
      ensures ReadAll(files, |files|).Ok? ==>
        Loads(files, ms) && (State(), ok) == Migrated(ms, old(State()), faults)
    {
      ms := [];
      var loaded := LoadMigrations(files);
      if loaded.Ok? {
        ms := loaded.value;
      }
      if faults.create || faults.read {
        return false, ms;
      }
      var current := MaxVersion(recorded, |recorded|);
      if loaded.Err? {
        return false, ms;
      }
      var migrations := loaded.value;
      for k := 0 to |migrations|
        invariant AppliedFrom(migrations, State(), faults, current, k)
               == AppliedFrom(migrations, old(State()), faults, current, 0)
      {
        if migrations[k].version <= current {
          continue;
        }
        var applied := ApplyMigration(migrations[k], k in faults.failing, k in faults.lost);
        if !applied {
          return false, ms;
        }
      }
      ok := true;
    }
  }

  // ---------------------------------------------------------------------
  // A call is a run of the protocol

  lemma {:induction false} StepFirst(ms: seq<Migration>, w: World, a: Action, rest: seq<Action>, n: nat)
    requires n <= |rest|
    ensures AfterRun(ms, w, [a] + rest, n + 1) == AfterRun(ms, Step(ms, w, a), rest, n)
    decreases n
  {
    if n > 0 {
      StepFirst(ms, w, a, rest, n - 1);
      assert ([a] + rest)[n] == rest[n - 1];
    } else {
      assert AfterRun(ms, w, [a] + rest, 0) == w;
    }
  }

  /** The state a call leaves: the database, and the migrator that made it done. */
  function Done(w: World, p: nat, outcome: (Database, bool)): World
    requires p < |w.migrators|
  {
    World(outcome.0, w.migrators[p := if outcome.1 then Returned else Stopped])
  }

  /** Every action is the migrator's own. */
  predicate By(p: nat, actions: seq<Action>) {
    forall i :: 0 <= i < |actions| ==> actions[i].who == p
  }

  /** The move that a call makes next at migration `k`. */
  function NextMove(ms: seq<Migration>, faults: Faults, current: int, k: nat): Move
    requires k <= |ms|
  {
    if k == |ms| then Return
    else if ms[k].version <= current then Skip
    else if k in faults.failing then Fail
    else if k in faults.lost then LostCommit
    else Commit
  }

  lemma {:induction false} RunFrom(ms: seq<Migration>, w: World, p: nat, faults: Faults, current: int, k: nat)
    returns (actions: seq<Action>)
    requires p < |w.migrators| && k <= |ms| && w.migrators[p] == Working(current, k)
    ensures By(p, actions)
    ensures AfterRun(ms, w, actions, |actions|) == Done(w, p, AppliedFrom(ms, w.db, faults, current, k))
    decreases |ms| - k
  {
    var a := Action(p, NextMove(ms, faults, current, k));
    var next := Step(ms, w, a);
    var rest := [];
    if next.migrators[p].Working? {
      rest := RunFrom(ms, next, p, faults, current, k + 1);
    } else {
      assert AfterRun(ms, next, rest, 0) == next;
    }
    actions := [a] + rest;
    StepFirst(ms, w, a, rest, |rest|);
  }

  /** A call by a migrator that has not begun is a run of its steps: what is proved
      of every interleaving holds of any calls, one after the other or at once. */
  lemma {:induction false} CallIsRun(ms: seq<Migration>, w: World, p: nat, faults: Faults)
    returns (actions: seq<Action>)
    requires p < |w.migrators| && w.migrators[p] == Waiting
    ensures By(p, actions)
    ensures AfterRun(ms, w, actions, |actions|) == Done(w, p, Migrated(ms, w.db, faults))
  {
    if faults.create || faults.read {
      actions := [Action(p, Fail)];
      assert AfterRun(ms, w, actions, 0) == w;
    } else {
      var create, read := Action(p, CreateTable), Action(p, ReadVersion);
      var connected := Step(ms, w, create);
      var working := Step(ms, connected, read);
      var rest := RunFrom(ms, working, p, faults, Current(w.db), 0);
      StepFirst(ms, connected, read, rest, |rest|);
      StepFirst(ms, w, create, [read] + rest, |rest| + 1);
      actions := [create] + ([read] + rest);
    }
  }

  // ---------------------------------------------------------------------
  // A call after a successful one

  lemma {:induction false} NothingToApply(ms: seq<Migration>, db: Database, faults: Faults, current: int, k: nat)
    requires k <= |ms| && forall i :: k <= i < |ms| ==> ms[i].version <= current
    ensures AppliedFrom(ms, db, faults, current, k) == (db, true)
    decreases |ms| - k
  {
    if k < |ms| {
      NothingToApply(ms, db, faults, current, k + 1);
    }
  }

  /** On a database that holds a prefix of the list, a call leaves a prefix, a longer
      one or the same; after one that reports success, a later call changes nothing,
      and succeeds unless the version cannot be read. */
  lemma {:induction false} LaterCallIsNoOp(ms: seq<Migration>, db: Database, first: Faults, later: Faults)
    requires Sorted(ms) && Prefix(ms, Ignored(ms, 0), db)
    ensures Prefix(ms, Ignored(ms, 0), Migrated(ms, db, first).0)
    ensures db.recorded <= Migrated(ms, db, first).0.recorded
    ensures Migrated(ms, db, first).1 ==>
      Migrated(ms, Migrated(ms, db, first).0, later)
        == (Migrated(ms, db, first).0, !later.create && !later.read)
  {
    var z := Ignored(ms, 0);
    var w := World(db, [Waiting]);
    IgnoredSplits(ms, 0);
    var actions := CallIsRun(ms, w, 0, first);
    RunKeeps(ms, z, w, actions, |actions|);
    var (after, ok) := Migrated(ms, db, first);
    var end := AfterRun(ms, w, actions, |actions|);
    assert end.db == after;
    if ok && !later.create && !later.read {
      assert InStep(ms, z, end.db, end.migrators[0]);
      MaxOfPrefix(ms, z, after, |after.recorded|);
      NothingToApply(ms, after, later, Current(after), 0);
    }
  }

  /** A migration numbered zero is never applied, although the call reports success. */
  lemma {:induction false} ZeroVersionIsPassedOver(name: string, sql: string)
    ensures Migrated([Migration(0, name, sql)], Database([], []), Faults(false, false, {}, {}))
         == (Database([], []), true)
  {
    var ms, fine := [Migration(0, name, sql)], Faults(false, false, {}, {});
    NothingToApply(ms, Database([], []), fine, 0, 0);
  }
}
