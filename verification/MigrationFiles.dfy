/** Which migrations a directory of files holds, and what the schema of a new database
    is once they have been applied. */
module MigrationFiles {
  import opened Wrappers
  import opened Lists
  import opened Numerals
  import opened Migrations
  import opened MigrationRuns
  import opened Databases

  /** A file name: a sign, digits, whatever else comes before the first underscore, and
      the rest. */
  datatype Name = Name(sign: string, digits: string, more: string, rest: string)

  function TextOf(n: Name): string {
    (n.sign + n.digits + n.more) + ("_" + n.rest)
  }

  /** The digits go as far as they can. */
  predicate Numbered(n: Name) {
    && IsSign(n.sign) && IsNumeral(n.digits)
    && '_' !in n.more && (n.more != "" ==> !IsDigit(n.more[0]))
  }

  function Version(n: Name): int
    requires AllDigits(n.digits)
  {
    Signed(n.sign, ValueOf(n.digits))
  }

  /** A migration is what its file says: the number in its name, and its text. */
  ghost predicate Describes(m: Migration, f: File) {
    m.name == f.name && m.sql == f.body && exists n :: Numbered(n) && TextOf(n) == f.name && m.version == Version(n)
  }

  predicate IsSql(f: File) {
    !f.isDir && |f.name| >= 4 && f.name[|f.name| - 4..] == ".sql"
  }

  // ---------------------------------------------------------------------
  // One file

  lemma {:induction false} UnderscoreIs(s: string, i: nat, k: nat)
    requires i <= k <= |s| && (k < |s| ==> s[k] == '_') && forall j :: i <= j < k ==> s[j] != '_'
    ensures Underscore(s, i) == k
    decreases k - i
  {
    if i < k {
      UnderscoreIs(s, i + 1, k);
    }
  }

  lemma {:induction false} UnderscoreFirst(s: string, i: nat)
    requires i <= |s|
    ensures var k := Underscore(s, i);
      (k < |s| ==> s[k] == '_') && forall j :: i <= j < k ==> s[j] != '_'
    decreases |s| - i
  {
    if i < |s| && s[i] != '_' {
      UnderscoreFirst(s, i + 1);
    }
  }

  lemma {:induction false} DigitsEndIs(s: string, i: nat, k: nat)
    requires i <= k <= |s| && (k < |s| ==> !IsDigit(s[k])) && forall j :: i <= j < k ==> IsDigit(s[j])
    ensures DigitsEnd(s, i) == k
    decreases k - i
  {
    if i < k {
      DigitsEndIs(s, i + 1, k);
    }
  }

  lemma {:induction false} DigitsEndStops(s: string, i: nat)
    requires i <= |s|
    ensures DigitsEnd(s, i) < |s| ==> !IsDigit(s[DigitsEnd(s, i)])
    decreases |s| - i
  {
    if i < |s| && IsDigit(s[i]) {
      DigitsEndStops(s, i + 1);
    }
  }

  lemma {:induction false} Middle<T>(s: seq<T>, a: seq<T>, b: seq<T>, c: seq<T>)
    requires s == a + b + c
    ensures |s| == |a| + |b| + |c| && s[|a|..|a| + |b|] == b
    ensures c != [] ==> s[|a| + |b|] == c[0]
    ensures a != [] ==> s[0] == a[0]
    ensures a == [] && b != [] ==> s[0] == b[0]
  {
  }

  lemma {:induction false} ScanIntAt(prefix: string, sign: string, to: nat)
    requires |sign| < to <= |prefix| && IsSign(sign) && AllDigits(prefix[|sign|..to])
    requires sign != "" ==> prefix[0] == sign[0]
    requires sign == "" ==> IsDigit(prefix[0])
    requires to < |prefix| ==> !IsDigit(prefix[to])
    ensures ScanInt(prefix) == Some(Signed(sign, ValueOf(prefix[|sign|..to])))
  {
    forall j | |sign| <= j < to ensures IsDigit(prefix[j]) {
      assert prefix[j] == prefix[|sign|..to][j - |sign|];
    }
    DigitsEndIs(prefix, |sign|, to);
  }

  lemma {:induction false} ScanIntOf(prefix: string, sign: string, digits: string, more: string)
    requires prefix == sign + digits + more && IsSign(sign) && IsNumeral(digits)
    requires more != "" ==> !IsDigit(more[0])
    ensures ScanInt(prefix) == Some(Signed(sign, ValueOf(digits)))
  {
    Middle(prefix, sign, digits, more);
    assert IsDigit(digits[0]);
    ScanIntAt(prefix, sign, |sign| + |digits|);
  }

  lemma {:induction false} ScanIntParts(prefix: string) returns (sign: string, digits: string, more: string)
    requires ScanInt(prefix).Some?
    ensures prefix == sign + digits + more && IsSign(sign) && IsNumeral(digits)
    ensures more != "" ==> !IsDigit(more[0])
  {
    var from := if prefix != "" && (prefix[0] == '-' || prefix[0] == '+') then 1 else 0;
    var to := DigitsEnd(prefix, from);
    DigitsEndStops(prefix, from);
    sign, digits, more := prefix[..from], prefix[from..to], prefix[to..];
    assert from == 1 ==> sign == [prefix[0]];
  }

  lemma {:induction false} ReadAtUnderscore(f: File, k: nat, version: int)
    requires k < |f.name| && Underscore(f.name, 0) == k && ScanInt(f.name[..k]) == Some(version)
    ensures ReadFile(f) == Ok(Migration(version, f.name, f.body))
  {
  }

  lemma {:induction false} NoUnderscore(n: Name)
    requires Numbered(n)
    ensures '_' !in n.sign + n.digits + n.more
  {
    forall i | 0 <= i < |n.digits| ensures n.digits[i] != '_' {
      assert IsDigit(n.digits[i]);
    }
    assert '_' !in n.digits;
  }

  lemma {:induction false} UnderscoreAfter(name: string, prefix: string, rest: string)
    requires name == prefix + ("_" + rest) && '_' !in prefix
    ensures Underscore(name, 0) == |prefix| < |name| && name[..|prefix|] == prefix
  {
    Around(name, prefix, '_', rest);
    forall j | 0 <= j < |prefix| ensures name[j] != '_' {
      assert name[j] == prefix[j];
    }
    UnderscoreIs(name, 0, |prefix|);
  }

  /** A numbered file is read as the migration it describes. */
  lemma {:induction false} NumberedIsRead(f: File, n: Name)
    requires Numbered(n) && TextOf(n) == f.name
    ensures ReadFile(f) == Ok(Migration(Version(n), f.name, f.body))
  {
    var prefix := n.sign + n.digits + n.more;
    NoUnderscore(n);
    UnderscoreAfter(f.name, prefix, n.rest);
    ScanIntOf(prefix, n.sign, n.digits, n.more);
    ReadAtUnderscore(f, |prefix|, Version(n));
  }

  /** Only numbered files are read. */
  lemma {:induction false} ReadIsNumbered(f: File) returns (n: Name)
    requires ReadFile(f).Ok?
    ensures Numbered(n) && TextOf(n) == f.name
  {
    var cut := Underscore(f.name, 0);
    UnderscoreFirst(f.name, 0);
    var sign, digits, more := ScanIntParts(f.name[..cut]);
    n := Name(sign, digits, more, f.name[cut + 1..]);
    CutAround(f.name, cut);
    forall i | 0 <= i < |more| ensures more[i] != '_' {
      assert more[i] == f.name[..cut][|sign| + |digits| + i];
    }
    assert [f.name[cut]] == "_";
  }

  lemma {:induction false} ReadDescribes(f: File)
    requires ReadFile(f).Ok?
    ensures Describes(ReadFile(f).value, f)
  {
    var n := ReadIsNumbered(f);
    NumberedIsRead(f, n);
  }

  // ---------------------------------------------------------------------
  // All files

  /** Migration `i` is that of the file at `pos[i]`, and these are all the SQL files among
      the first `k`, in order. */
  ghost predicate ReadFrom(files: seq<File>, k: nat, ms: seq<Migration>, pos: seq<nat>)
    requires k <= |files|
  {
    && |pos| == |ms| && Increasing(pos)
    && (forall i :: 0 <= i < |pos| ==> pos[i] < k && Describes(ms[i], files[pos[i]]))
    && forall j: nat :: j < k ==> (j in pos <==> IsSql(files[j]))
  }

  lemma {:induction false} OneMoreFile(files: seq<File>, k: nat, ms: seq<Migration>, pos: seq<nat>, m: Migration)
    requires k < |files| && ReadFrom(files, k, ms, pos) && IsSql(files[k]) && Describes(m, files[k])
    ensures ReadFrom(files, k + 1, ms + [m], pos + [k])
  {
    var next := pos + [k];
    forall j: nat | j < k + 1 ensures j in next <==> IsSql(files[j]) {
      assert next[|pos|] == k;
      assert j in next <==> j in pos || j == k;
    }
  }

  lemma {:induction false} ReadAllMeaning(files: seq<File>, k: nat) returns (pos: seq<nat>)
    requires k <= |files| && ReadAll(files, k).Ok?
    ensures ReadFrom(files, k, ReadAll(files, k).value, pos)
  {
    if k == 0 {
      pos := [];
    } else {
      pos := ReadAllMeaning(files, k - 1);
      if IsSql(files[k - 1]) {
        ReadDescribes(files[k - 1]);
        OneMoreFile(files, k - 1, ReadAll(files, k - 1).value, pos, ReadFile(files[k - 1]).value);
        pos := pos + [k - 1];
      }
    }
  }

  ghost predicate HasNumber(f: File) {
    exists n :: Numbered(n) && TextOf(n) == f.name
  }

  lemma {:induction false} HasNumberIff(f: File)
    ensures ReadFile(f).Ok? <==> HasNumber(f)
  {
    if ReadFile(f).Ok? {
      var n := ReadIsNumbered(f);
    } else if n :| Numbered(n) && TextOf(n) == f.name {
      NumberedIsRead(f, n);
    }
  }

  /** Loading fails exactly when some SQL file has no number. */
  lemma {:induction false} LoadFailsIff(files: seq<File>, k: nat)
    requires k <= |files|
    ensures ReadAll(files, k).Ok? <==> forall j :: 0 <= j < k && IsSql(files[j]) ==> HasNumber(files[j])
  {
    if k > 0 {
      LoadFailsIff(files, k - 1);
      HasNumberIff(files[k - 1]);
    }
  }

  // ---------------------------------------------------------------------
  // The loaded list

  /** The files `pos` are the SQL files, in directory order. */
  predicate SqlFiles(files: seq<File>, pos: seq<nat>) {
    && Increasing(pos) && (forall i :: 0 <= i < |pos| ==> pos[i] < |files|)
    && forall j: nat :: j < |files| ==> (j in pos <==> IsSql(files[j]))
  }

  /** The migration is that of one of the files `pos`. */
  ghost predicate OfSome(files: seq<File>, pos: seq<nat>, m: Migration) {
    exists j: nat :: j in pos && j < |files| && Describes(m, files[j])
  }

  /** The file's migration is in the list. */
  ghost predicate InList(ms: seq<Migration>, f: File) {
    exists m :: m in ms && Describes(m, f)
  }

  lemma {:induction false} ReadIsOfSome(files: seq<File>, ms: seq<Migration>, pos: seq<nat>, m: Migration)
    requires ReadFrom(files, |files|, ms, pos) && m in ms
    ensures OfSome(files, pos, m)
  {
    var k :| 0 <= k < |ms| && ms[k] == m;
    var j := pos[k];
    assert j in pos;
    assert Describes(m, files[j]);
  }

  lemma {:induction false} ReadIsInList(files: seq<File>, ms: seq<Migration>, pos: seq<nat>, j: nat)
    requires ReadFrom(files, |files|, ms, pos) && j in pos && j < |files|
    ensures InList(ms, files[j])
  {
    var k :| 0 <= k < |pos| && pos[k] == j;
    var m := ms[k];
    assert m in ms && Describes(m, files[j]);
  }

  /** The loaded list has one migration for each SQL file, and nothing else: as many as
      there are such files, each of a file, and each file with its own. */
  lemma {:induction false} LoadedMeaning(files: seq<File>, ms: seq<Migration>) returns (pos: seq<nat>)
    requires Loads(files, ms)
    ensures SqlFiles(files, pos) && |pos| == |ms|
    ensures forall m :: m in ms ==> OfSome(files, pos, m)
    ensures forall j: nat :: j in pos && j < |files| ==> InList(ms, files[j])
  {
    var all := ReadAll(files, |files|).value;
    pos := ReadAllMeaning(files, |files|);
    SameSize(ms, all);
    forall m | m in ms ensures OfSome(files, pos, m) {
      SameMembers(ms, all, m);
      ReadIsOfSome(files, all, pos, m);
    }
    forall j: nat | j in pos && j < |files| ensures InList(ms, files[j]) {
      ReadIsInList(files, all, pos, j);
      var m :| m in all && Describes(m, files[j]);
      SameMembers(ms, all, m);
    }
  }

  // ---------------------------------------------------------------------
  // A call of `Migrate`, from files to schema

  lemma {:induction false} SkipRecorded(
    ms: seq<Migration>, db: Database, faults: Faults, current: int, k: nat, n: nat)
    requires k <= n <= |ms| && forall i :: k <= i < n ==> ms[i].version <= current
    ensures AppliedFrom(ms, db, faults, current, k) == AppliedFrom(ms, db, faults, current, n)
    decreases n - k
  {
    if k < n {
      SkipRecorded(ms, db, faults, current, k + 1, n);
    }
  }

  lemma {:induction false} NextIsNew(ms: seq<Migration>, z: nat, db: Database, k: nat)
    requires Sorted(ms) && Splits(ms, z) && Prefix(ms, z, db) && k == z + |db.recorded| < |ms|
    ensures Committed(db, ms[k]).Some?
  {
    forall i | 0 <= i < |db.recorded| ensures db.recorded[i] != ms[k].version {
      assert db.recorded[i] == ms[z + i].version;
    }
  }

  /** From the first migration not recorded on, a call succeeds exactly when none of
      their transactions goes wrong, and then all are recorded. */
  lemma {:induction false} AppliesRest(
    ms: seq<Migration>, z: nat, db: Database, faults: Faults, current: int, k: nat)
    requires Sorted(ms) && Splits(ms, z) && Prefix(ms, z, db) && k == z + |db.recorded|
    requires forall i :: k <= i < |ms| ==> ms[i].version > current
    ensures var (after, ok) := AppliedFrom(ms, db, faults, current, k);
      && (ok <==> forall i :: k <= i < |ms| ==> i !in faults.failing && i !in faults.lost)
      && (ok ==> Prefix(ms, z, after) && z + |after.recorded| == |ms|)
    decreases |ms| - k
  {
    if k < |ms| && k !in faults.failing && k !in faults.lost {
      NextIsNew(ms, z, db, k);
      assert ms[k].version > 0;
      CommitIsNext(ms, z, db, k);
      AppliesRest(ms, z, Committed(db, ms[k]).value, faults, current, k + 1);
    }
  }

  lemma {:induction false} CurrentSplits(ms: seq<Migration>, z: nat, db: Database)
    requires Sorted(ms) && Splits(ms, z) && Prefix(ms, z, db)
    ensures forall i :: 0 <= i < |ms| ==> (ms[i].version <= Current(db) <==> i < z + |db.recorded|)
  {
    var n := |db.recorded|;
    MaxOfPrefix(ms, z, db, n);
    forall i | 0 <= i < |ms| ensures ms[i].version <= Current(db) <==> i < z + n {
      assert n > 0 ==> Current(db) == ms[z + n - 1].version;
    }
  }

  /** No statement of the call goes wrong, and no transaction of a migration that is not
      recorded yet. */
  predicate GoesWell(ms: seq<Migration>, db: Database, faults: Faults) {
    && !faults.create && !faults.read
    && forall i :: Ignored(ms, 0) + |db.recorded| <= i < |ms| ==> i !in faults.failing && i !in faults.lost
  }

  /** On a database that holds a prefix of the list, a call succeeds exactly when no
      statement of it goes wrong, and then everything is applied. */
  lemma {:induction false} SucceedsIff(ms: seq<Migration>, db: Database, faults: Faults)
    requires Sorted(ms) && Prefix(ms, Ignored(ms, 0), db)
    ensures Migrated(ms, db, faults).1 <==> GoesWell(ms, db, faults)
    ensures Migrated(ms, db, faults).1 ==>
      var z, after := Ignored(ms, 0), Migrated(ms, db, faults).0;
      Prefix(ms, z, after) && z + |after.recorded| == |ms|
  {
    var z := Ignored(ms, 0);
    var start := z + |db.recorded|;
    IgnoredSplits(ms, 0);
    CurrentSplits(ms, z, db);
    SkipRecorded(ms, db, faults, Current(db), 0, start);
    AppliesRest(ms, z, db, faults, Current(db), start);
  }

  predicate NamesDiffer(files: seq<File>) {
    forall i, j :: 0 <= i < j < |files| ==> files[i].name != files[j].name
  }

  /** The files `order`, in this order, are all the SQL files, and the migrations are
      theirs. */
  ghost predicate InOrder(files: seq<File>, ms: seq<Migration>, order: seq<nat>) {
    && |order| == |ms|
    && (forall i :: 0 <= i < |order| ==>
          order[i] < |files| && IsSql(files[order[i]]) && Describes(ms[i], files[order[i]]))
    && forall j: nat :: j < |files| && IsSql(files[j]) ==> j in order
  }

  lemma {:induction false} FileOfEach(files: seq<File>, ms: seq<Migration>, pos: seq<nat>, n: nat)
    returns (order: seq<nat>)
    requires n <= |ms| && SqlFiles(files, pos) && forall m :: m in ms ==> OfSome(files, pos, m)
    ensures |order| == n
    ensures forall i :: 0 <= i < n ==>
      order[i] < |files| && IsSql(files[order[i]]) && Describes(ms[i], files[order[i]])
  {
    if n == 0 {
      order := [];
    } else {
      order := FileOfEach(files, ms, pos, n - 1);
      assert OfSome(files, pos, ms[n - 1]);
      var j: nat :| j in pos && j < |files| && Describes(ms[n - 1], files[j]);
      order := order + [j];
    }
  }

  lemma {:induction false} OrderHas(files: seq<File>, ms: seq<Migration>, order: seq<nat>, j: nat)
    requires NamesDiffer(files) && |order| == |ms| && j < |files| && InList(ms, files[j])
    requires forall i :: 0 <= i < |order| ==> order[i] < |files| && ms[i].name == files[order[i]].name
    ensures j in order
  {
    var m :| m in ms && Describes(m, files[j]);
    var i :| 0 <= i < |ms| && ms[i] == m;
    assert files[order[i]].name == files[j].name;
    assert order[i] == j;
  }

  lemma {:induction false} OrderOfFiles(files: seq<File>, ms: seq<Migration>) returns (order: seq<nat>)
    requires Loads(files, ms) && NamesDiffer(files)
    ensures InOrder(files, ms, order)
  {
    var pos := LoadedMeaning(files, ms);
    order := FileOfEach(files, ms, pos, |ms|);
    forall j: nat | j < |files| && IsSql(files[j]) ensures j in order {
      OrderHas(files, ms, order, j);
    }
  }

  /** What is recorded is the numbers of the files, what the schema was built by is their
      texts. */
  ghost predicate BuiltFrom(files: seq<File>, order: seq<nat>, db: Database) {
    && |order| == |db.recorded| == |db.schema|
    && (forall i :: 0 <= i < |order| ==>
          && order[i] < |files| && IsSql(files[order[i]]) && db.schema[i] == files[order[i]].body
          && exists n :: Numbered(n) && TextOf(n) == files[order[i]].name && db.recorded[i] == Version(n))
    && (forall i, j :: 0 <= i < j < |order| ==> db.recorded[i] < db.recorded[j])
    && forall j: nat :: j < |files| && IsSql(files[j]) ==> j in order
  }

  /** After a successful call on a new database, whose files have distinct, positive
      numbers, the schema has been built by exactly the SQL files, in the order of their
      numbers. */
  lemma {:induction false} NewSchemaIsFiles(files: seq<File>, ms: seq<Migration>, faults: Faults)
    returns (order: seq<nat>)
    requires Loads(files, ms) && NamesDiffer(files) && Distinct(ms) && AllPositive(ms)
    requires Migrated(ms, Database([], []), faults).1
    ensures BuiltFrom(files, order, Migrated(ms, Database([], []), faults).0)
  {
    assert Ignored(ms, 0) == 0;
    SucceedsIff(ms, Database([], []), faults);
    order := OrderOfFiles(files, ms);
    var db := Migrated(ms, Database([], []), faults).0;
    forall i | 0 <= i < |order| ensures db.recorded[i] == ms[i].version && db.schema[i] == ms[i].sql {
      assert db.recorded[i] == ms[0 + i].version;
    }
  }
}
