/** Any number of replicas applying the same migrations to one database, their steps
    interleaved, each of them crashing or failing at any point. */
module MigrationRuns {
  import opened Wrappers
  import opened Migrations

  /** The recorded versions, in the order they were recorded, and the scripts the
      schema has been built by, in the order they took effect. */
  datatype Database = Database(recorded: seq<int>, schema: seq<string>)

  function MaxVersion(versions: seq<int>, k: nat): int
    requires k <= |versions|
  {
    if k == 0 then 0
    else if k == 1 || versions[k - 1] > MaxVersion(versions, k - 1) then versions[k - 1]
    else MaxVersion(versions, k - 1)
  }

  /** `COALESCE(MAX(version), 0)` */
  function Current(db: Database): int {
    MaxVersion(db.recorded, |db.recorded|)
  }

  /** One transaction: the script takes effect and its version is recorded, unless
      the version is there already. */
  function Committed(db: Database, m: Migration): Option<Database> {
    if m.version in db.recorded then None
    else Some(Database(db.recorded + [m.version], db.schema + [m.sql]))
  }

  /** A migrator: before its first statement, after creating the version table, at
      migration `next` knowing the version it read, returned, or stopped by an error
      or a crash. */
  datatype Migrator =
    | Waiting
    | Connected
    | Working(current: int, next: nat)
    | Returned
    | Stopped

  datatype World = World(db: Database, migrators: seq<Migrator>)

  /** What a migrator may do next, or have done to it. A lost commit takes effect,
      but the migrator is told that it failed. */
  datatype Move = CreateTable | ReadVersion | Skip | Commit | LostCommit | Return | Fail

  function Moved(ms: seq<Migration>, db: Database, m: Migrator, move: Move): (Database, Migrator) {
    match (move, m)
    case (Fail, _) => (db, if m.Returned? then m else Stopped)
    case (CreateTable, Waiting) => (db, Connected)
    case (ReadVersion, Connected) => (db, Working(Current(db), 0))
    case (Skip, Working(current, next)) =>
      (db, if next < |ms| && ms[next].version <= current then Working(current, next + 1) else m)
    case (Commit, Working(current, next)) =>
      if next < |ms| && ms[next].version > current then
        match Committed(db, ms[next])
        case None => (db, Stopped)
        case Some(after) => (after, Working(current, next + 1))
      else (db, m)
    case (LostCommit, Working(current, next)) =>
      if next < |ms| && ms[next].version > current then
        match Committed(db, ms[next])
        case None => (db, Stopped)
        case Some(after) => (after, Stopped)
      else (db, m)
    case (Return, Working(current, next)) => (db, if next == |ms| then Returned else m)
    case _ => (db, m)
  }

  /** One step of one migrator. */
  datatype Action = Action(who: nat, move: Move)

  function Step(ms: seq<Migration>, w: World, a: Action): World {
    if a.who >= |w.migrators| then w
    else
      var (db, m) := Moved(ms, w.db, w.migrators[a.who], a.move);
      World(db, w.migrators[a.who := m])
  }

  function AfterRun(ms: seq<Migration>, w: World, actions: seq<Action>, n: nat): World
    requires n <= |actions|
  {
    if n == 0 then w else Step(ms, AfterRun(ms, w, actions, n - 1), actions[n - 1])
  }

  // ---------------------------------------------------------------------
  // What every step keeps

  predicate Sorted(ms: seq<Migration>) {
    forall i, j :: 0 <= i < j < |ms| ==> ms[i].version < ms[j].version
  }

  /** Migrations whose version is not positive: `Migrate` never applies them, for it
      reads the version of an empty table as zero. */
  function Ignored(ms: seq<Migration>, i: nat): (z: nat)
    requires i <= |ms|
    ensures i <= z <= |ms|
    decreases |ms| - i
  {
    if i < |ms| && ms[i].version <= 0 then Ignored(ms, i + 1) else i
  }

  predicate Splits(ms: seq<Migration>, z: nat) {
    && z <= |ms|
    && (forall i :: 0 <= i < z ==> ms[i].version <= 0)
    && forall i :: z <= i < |ms| ==> ms[i].version > 0
  }

  /** What is recorded, and what the schema was built by, is exactly the stretch of
      the sorted list from `z` on, each migration once and in order. */
  ghost predicate Prefix(ms: seq<Migration>, z: nat, db: Database) {
    && z + |db.recorded| <= |ms| && |db.schema| == |db.recorded|
    && forall i :: 0 <= i < |db.recorded| ==>
         db.recorded[i] == ms[z + i].version && db.schema[i] == ms[z + i].sql
  }

  /** A working migrator has not got past what is recorded. */
  ghost predicate InStep(ms: seq<Migration>, z: nat, db: Database, m: Migrator) {
    match m
    case Working(current, next) =>
      && next <= z + |db.recorded|
      && current >= 0
      && (forall i :: z <= i < |ms| && ms[i].version <= current ==> i < z + |db.recorded|)
    case Returned => z + |db.recorded| == |ms|
    case _ => true
  }

  ghost predicate Inv(ms: seq<Migration>, z: nat, w: World) {
    && Prefix(ms, z, w.db)
    && forall p :: 0 <= p < |w.migrators| ==> InStep(ms, z, w.db, w.migrators[p])
  }

  lemma {:induction false} MaxOfPrefix(ms: seq<Migration>, z: nat, db: Database, k: nat)
    requires Sorted(ms) && Splits(ms, z) && Prefix(ms, z, db) && k <= |db.recorded|
    ensures MaxVersion(db.recorded, k) == if k == 0 then 0 else ms[z + k - 1].version
  {
    if k > 1 {
      MaxOfPrefix(ms, z, db, k - 1);
    }
  }

  lemma {:induction false} IsRecorded(ms: seq<Migration>, z: nat, db: Database, i: nat)
    requires Splits(ms, z) && Prefix(ms, z, db) && i < |ms| && ms[i].version > 0
    ensures i < z + |db.recorded| ==> ms[i].version in db.recorded
  {
    if i < z + |db.recorded| {
      assert db.recorded[i - z] == ms[i].version;
    }
  }

  /** A commit that succeeds is of the next migration in the list. */
  lemma {:induction false} CommitIsNext(ms: seq<Migration>, z: nat, db: Database, next: nat)
    requires Sorted(ms) && Splits(ms, z) && Prefix(ms, z, db)
    requires next < |ms| && next <= z + |db.recorded| && ms[next].version > 0
    requires Committed(db, ms[next]).Some?
    ensures next == z + |db.recorded| && Prefix(ms, z, Committed(db, ms[next]).value)
  {
    IsRecorded(ms, z, db, next);
  }

  lemma {:induction false} MovedKeeps(ms: seq<Migration>, z: nat, db: Database, m: Migrator, move: Move)
    requires Sorted(ms) && Splits(ms, z) && Prefix(ms, z, db) && InStep(ms, z, db, m)
    ensures var (after, m') := Moved(ms, db, m, move);
      Prefix(ms, z, after) && InStep(ms, z, after, m') && |db.recorded| <= |after.recorded|
  {
    if move.ReadVersion? && m.Connected? {
      MaxOfPrefix(ms, z, db, |db.recorded|);
    }
    if m.Working? && m.next < |ms| && ms[m.next].version > m.current && Committed(db, ms[m.next]).Some? {
      CommitIsNext(ms, z, db, m.next);
    }
  }

  lemma {:induction false} StepKeepsInv(ms: seq<Migration>, z: nat, w: World, a: Action)
    requires Sorted(ms) && Splits(ms, z) && Inv(ms, z, w)
    ensures Inv(ms, z, Step(ms, w, a))
  {
    if a.who < |w.migrators| {
      MovedKeeps(ms, z, w.db, w.migrators[a.who], a.move);
    }
  }

  /** A new database, and any number of migrators that have not begun. */
  predicate Fresh(w: World) {
    w.db == Database([], []) && forall p :: 0 <= p < |w.migrators| ==> w.migrators[p] == Waiting
  }

  lemma {:induction false} RunKeeps(ms: seq<Migration>, z: nat, w: World, actions: seq<Action>, n: nat)
    requires Sorted(ms) && Splits(ms, z) && Inv(ms, z, w) && n <= |actions|
    ensures Inv(ms, z, AfterRun(ms, w, actions, n))
    ensures w.db.recorded <= AfterRun(ms, w, actions, n).db.recorded
  {
    if n > 0 {
      RunKeeps(ms, z, w, actions, n - 1);
      StepKeepsInv(ms, z, AfterRun(ms, w, actions, n - 1), actions[n - 1]);
      NothingIsForgotten(ms, AfterRun(ms, w, actions, n - 1), actions[n - 1]);
    }
  }

  lemma {:induction false} RunKeepsInv(ms: seq<Migration>, z: nat, w: World, actions: seq<Action>, n: nat)
    requires Sorted(ms) && Splits(ms, z) && Fresh(w) && n <= |actions|
    ensures Inv(ms, z, AfterRun(ms, w, actions, n))
  {
    RunKeeps(ms, z, w, actions, n);
  }

  // ---------------------------------------------------------------------
  // Main results

  lemma {:induction false} IgnoredSplits(ms: seq<Migration>, i: nat)
    requires Sorted(ms) && i <= |ms| && forall j :: 0 <= j < i ==> ms[j].version <= 0
    ensures Splits(ms, Ignored(ms, i))
    decreases |ms| - i
  {
    if i < |ms| && ms[i].version <= 0 {
      IgnoredSplits(ms, i + 1);
    }
  }

  predicate AllPositive(ms: seq<Migration>) {
    forall i :: 0 <= i < |ms| ==> ms[i].version > 0
  }

  predicate Someone(w: World, m: Migrator) {
    m in w.migrators
  }

  function Versions(ms: seq<Migration>): seq<int> {
    seq(|ms|, i requires 0 <= i < |ms| => ms[i].version)
  }

  function Scripts(ms: seq<Migration>): seq<string> {
    seq(|ms|, i requires 0 <= i < |ms| => ms[i].sql)
  }

  /** In every state of every interleaving, crashes and failures included, the
      recorded versions are a prefix of the sorted list of positive ones, and the
      schema was built by exactly that prefix, each migration once and in order. */
  lemma {:induction false} RecordedIsPrefix(ms: seq<Migration>, w: World, actions: seq<Action>, n: nat)
    requires Sorted(ms) && Fresh(w) && n <= |actions|
    ensures var db, rest := AfterRun(ms, w, actions, n).db, ms[Ignored(ms, 0)..];
      db.recorded <= Versions(rest) && db.schema == Scripts(rest)[..|db.recorded|]
  {
    IgnoredSplits(ms, 0);
    RunKeepsInv(ms, Ignored(ms, 0), w, actions, n);
  }

  /** Once some migrator has returned without error, the whole list is recorded and
      applied, if and only if all versions are positive. */
  lemma {:induction false} ReturnedMeansAllIff(ms: seq<Migration>, w: World, actions: seq<Action>, n: nat)
    requires Sorted(ms) && Fresh(w) && n <= |actions|
    requires Someone(AfterRun(ms, w, actions, n), Returned)
    ensures AfterRun(ms, w, actions, n).db == Database(Versions(ms), Scripts(ms)) <==> AllPositive(ms)
  {
    var z := Ignored(ms, 0);
    var end := AfterRun(ms, w, actions, n);
    IgnoredSplits(ms, 0);
    RunKeepsInv(ms, z, w, actions, n);
    var p :| 0 <= p < |end.migrators| && end.migrators[p] == Returned;
    assert InStep(ms, z, end.db, end.migrators[p]);
    assert |end.db.recorded| == |ms| - z;
    if z == 0 {
      assert end.db.recorded == Versions(ms) && end.db.schema == Scripts(ms);
    } else {
      assert ms[0].version <= 0;
    }
  }

  /** What is recorded stays recorded. */
  lemma {:induction false} NothingIsForgotten(ms: seq<Migration>, w: World, a: Action)
    ensures w.db.recorded <= Step(ms, w, a).db.recorded
    ensures w.db.schema <= Step(ms, w, a).db.schema
  {
  }

  /** When everything has been recorded, no later step of any migrator, a new one or
      one left behind, changes the database. */
  lemma {:induction false} CompleteIsStable(ms: seq<Migration>, w: World, actions: seq<Action>, n: nat, a: Action)
    requires Sorted(ms) && Fresh(w) && n <= |actions|
    requires Someone(AfterRun(ms, w, actions, n), Returned)
    ensures Step(ms, AfterRun(ms, w, actions, n), a).db == AfterRun(ms, w, actions, n).db
  {
    var z := Ignored(ms, 0);
    var end := AfterRun(ms, w, actions, n);
    IgnoredSplits(ms, 0);
    RunKeepsInv(ms, z, w, actions, n);
    var p :| 0 <= p < |end.migrators| && end.migrators[p] == Returned;
    assert InStep(ms, z, end.db, end.migrators[p]);
    StepKeepsInv(ms, z, end, a);
    NothingIsForgotten(ms, end, a);
    var after := Step(ms, end, a).db;
    assert |after.recorded| == |end.db.recorded|;
  }
}
