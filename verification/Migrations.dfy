/** Schema migrations: loading them from their files, applying them, and what holds
    when any number of replicas apply them at once. */
module Migrations {
  import opened Wrappers
  import opened Lists
  import opened Numerals

  datatype Migration = Migration(version: int, name: string, sql: string)

  // ---------------------------------------------------------------------
  // Loading

  datatype File = File(name: string, isDir: bool, body: string)

  datatype LoadError = NoPrefix(name: string) | BadVersion(name: string)

  predicate HasSuffix(s: string, suffix: string) {
    |suffix| <= |s| && s[|s| - |suffix|..] == suffix
  }

  /** The first position from `i` on of an underscore, or the length. */
  function Underscore(s: string, i: nat): (r: nat)
    requires i <= |s|
    ensures i <= r <= |s|
    decreases |s| - i
  {
    if i < |s| && s[i] != '_' then Underscore(s, i + 1) else i
  }

  /** The end of the digits that start at `i`. */
  function DigitsEnd(s: string, i: nat): (r: nat)
    requires i <= |s|
    ensures i <= r <= |s| && AllDigits(s[i..r])
    decreases |s| - i
  {
    if i < |s| && IsDigit(s[i]) then
      var r := DigitsEnd(s, i + 1);
      assert s[i..r] == [s[i]] + s[i + 1..r];
      r
    else i
  }

  /** `Sscanf(prefix, "%d", ...)`: a sign and digits, whatever follows them. */
  function ScanInt(s: string): Option<int> {
    var from := if s != "" && (s[0] == '-' || s[0] == '+') then 1 else 0;
    var to := DigitsEnd(s, from);
    if to == from then None
    else if s[0] == '-' then Some(-(ValueOf(s[from..to]) as int))
    else Some(ValueOf(s[from..to]))
  }

  function IsMigration(f: File): bool {
    !f.isDir && HasSuffix(f.name, ".sql")
  }

  function ReadFile(f: File): Result<Migration, LoadError> {
    var cut := Underscore(f.name, 0);
    if cut == |f.name| then Err(NoPrefix(f.name))
    else match ScanInt(f.name[..cut])
      case None => Err(BadVersion(f.name))
      case Some(version) => Ok(Migration(version, f.name, f.body))
  }

  /** The migrations in the first `k` files, in directory order. */
  function ReadAll(files: seq<File>, k: nat): Result<seq<Migration>, LoadError>
    requires k <= |files|
  {
    if k == 0 then Ok([])
    else match ReadAll(files, k - 1)
      case Err(e) => Err(e)
      case Ok(ms) =>
        if !IsMigration(files[k - 1]) then Ok(ms)
        else match ReadFile(files[k - 1])
          case Err(e) => Err(e)
          case Ok(m) => Ok(ms + [m])
  }

  predicate Ordered(ms: seq<Migration>) {
    forall i, j :: 0 <= i < j < |ms| ==> ms[i].version <= ms[j].version
  }

  predicate Distinct(ms: seq<Migration>) {
    forall i, j :: 0 <= i < j < |ms| ==> ms[i].version != ms[j].version
  }

  /** The place of a migration in an ordered list. */
  method FindPlace(ms: seq<Migration>, m: Migration) returns (k: nat)
    requires Ordered(ms)
    ensures k <= |ms|
    ensures forall i :: 0 <= i < k ==> ms[i].version <= m.version
    ensures forall i :: k <= i < |ms| ==> m.version <= ms[i].version
  {
    k := 0;
    while k < |ms| && ms[k].version < m.version
      invariant 0 <= k <= |ms|
      invariant forall i :: 0 <= i < k ==> ms[i].version <= m.version
    {
      k := k + 1;
    }
  }

  /** Sorting by version; the order of equal versions is left open, as it is in the
      library the code calls. */
  method SortByVersion(ms: seq<Migration>) returns (sorted: seq<Migration>)
    ensures Ordered(sorted) && SameItems(sorted, ms)
  {
    sorted := [];
    for i := 0 to |ms|
      invariant Ordered(sorted) && SameItems(sorted, ms[..i])
    {
      var k := FindPlace(sorted, ms[i]);
      InsertKeepsItems(sorted, k, ms[i]);
      assert ms[..i + 1] == ms[..i] + [ms[i]];
      sorted := sorted[..k] + [ms[i]] + sorted[k..];
    }
    assert ms[..|ms|] == ms;
  }

  lemma {:induction false} InsertKeepsItems(ms: seq<Migration>, k: nat, m: Migration)
    requires k <= |ms|
    ensures multiset(ms[..k] + [m] + ms[k..]) == multiset(ms) + multiset{m}
  {
    assert ms == ms[..k] + ms[k..];
  }

  /** `loadMigrations`, given the files of the dialect's directory. */
  method LoadMigrations(files: seq<File>) returns (r: Result<seq<Migration>, LoadError>)
    ensures ReadAll(files, |files|).Err? ==> r == ReadAll(files, |files|)
    ensures ReadAll(files, |files|).Ok? ==>
      r.Ok? && Ordered(r.value) && SameItems(r.value, ReadAll(files, |files|).value)
  {
    r := Ok([]);
    for k := 0 to |files|
      invariant r.Ok? && r == ReadAll(files, k)
    {
      if files[k].isDir || !HasSuffix(files[k].name, ".sql") {
        continue;
      }
      var m := ReadFile(files[k]);
      if m.Err? {
        r := Err(m.error);
        FirstLoadError(files, k + 1, |files|);
        return;
      }
      r := Ok(r.value + [m.value]);
    }
    var sorted := SortByVersion(r.value);
    r := Ok(sorted);
  }

  lemma {:induction false} FirstLoadError(files: seq<File>, k: nat, n: nat)
    requires k <= n <= |files| && ReadAll(files, k).Err?
    ensures ReadAll(files, n) == ReadAll(files, k)
  {
    if k < n {
      FirstLoadError(files, k, n - 1);
    }
  }

  /** A member of the one list is no later, by version, than the last of the other. */
  lemma {:induction false} LastIsGreatest(a: seq<Migration>, b: seq<Migration>)
    requires Ordered(b) && SameItems(a, b) && a != [] && b != []
    ensures a[|a| - 1].version <= b[|b| - 1].version
    ensures b[|b| - 1] in a
  {
    var x := a[|a| - 1];
    assert x in multiset(a);
    assert x in b;
    assert b[|b| - 1] in multiset(b);
  }

  lemma {:induction false} SameLast(a: seq<Migration>, b: seq<Migration>)
    requires Ordered(a) && Ordered(b) && Distinct(a) && SameItems(a, b) && a != []
    ensures |a| == |b| && a[|a| - 1] == b[|b| - 1]
  {
    SameSize(a, b);
    LastIsGreatest(a, b);
    LastIsGreatest(b, a);
    var y := b[|b| - 1];
    var j :| 0 <= j < |a| && a[j] == y;
    assert a[j].version == a[|a| - 1].version;
  }

  lemma {:induction false} SameInit(a: seq<Migration>, b: seq<Migration>)
    requires SameItems(a, b) && a != [] && b != [] && a[|a| - 1] == b[|b| - 1]
    ensures SameItems(a[..|a| - 1], b[..|b| - 1])
  {
    WithoutLast(a);
    WithoutLast(b);
  }

  /** With distinct versions the loaded list is determined by the files, whatever
      their order and however the sort works. */
  lemma {:induction false} LoadIsDetermined(a: seq<Migration>, b: seq<Migration>)
    requires Ordered(a) && Ordered(b) && Distinct(a) && SameItems(a, b)
    ensures a == b
    decreases |a|
  {
    SameSize(a, b);
    if a != [] {
      SameLast(a, b);
      SameInit(a, b);
      LoadIsDetermined(a[..|a| - 1], b[..|b| - 1]);
      SplitLast(a);
      SplitLast(b);
    }
  }
}
