/** Cutting, joining and reordering sequences. */
module Lists {
  predicate Increasing(pos: seq<nat>) {
    forall i, j :: 0 <= i < j < |pos| ==> pos[i] < pos[j]
  }

  lemma {:induction false} Cut3<T>(s: seq<T>, lo: nat, hi: nat)
    requires lo <= hi <= |s|
    ensures s == s[0..lo] + s[lo..hi] + s[hi..|s|]
  {
  }

  lemma {:induction false} SplitAt<T>(s: seq<T>, k: nat)
    requires k <= |s|
    ensures s == s[..k] + s[k..]
  {
  }

  /** A sequence cut at one of its elements. */
  lemma {:induction false} CutAround<T>(s: seq<T>, k: nat)
    requires k < |s|
    ensures s == s[..k] + ([s[k]] + s[k + 1..])
  {
  }

  lemma {:induction false} Around<T>(s: seq<T>, before: seq<T>, c: T, after: seq<T>)
    requires s == before + ([c] + after)
    ensures |s| == |before| + 1 + |after| && s[|before|] == c
    ensures s[..|before|] == before && s[|before| + 1..] == after
  {
  }

  lemma {:induction false} Join3<T>(a: seq<T>, b: seq<T>, c: seq<T>)
    ensures a + (b + c) == a + b + c
  {
  }

  lemma {:induction false} Prefixed<T>(p: seq<T>, l: seq<T>, m: seq<T>, r: seq<T>)
    ensures p + (l + m + r) == (p + l) + m + r
  {
  }

  lemma {:induction false} Join5<T>(a: seq<T>, b: seq<T>, c: seq<T>, d: seq<T>, e: seq<T>)
    ensures a + (b + (c + (d + e))) == a + b + c + (d + e)
  {
  }

  lemma {:induction false} SplitLast<T>(a: seq<T>)
    requires a != []
    ensures a == a[..|a| - 1] + [a[|a| - 1]]
  {
  }

  predicate SameItems<T(==)>(a: seq<T>, b: seq<T>) {
    multiset(a) == multiset(b)
  }

  lemma {:induction false} SameMembers<T>(a: seq<T>, b: seq<T>, x: T)
    requires SameItems(a, b)
    ensures x in a <==> x in b
  {
    assert x in a <==> x in multiset(a);
    assert x in b <==> x in multiset(b);
  }

  lemma {:induction false} WithoutLast<T>(a: seq<T>)
    requires a != []
    ensures multiset(a[..|a| - 1]) == multiset(a) - multiset{a[|a| - 1]}
  {
    SplitLast(a);
    var init := a[..|a| - 1];
    assert multiset(a) == multiset(init) + multiset{a[|a| - 1]};
  }

  lemma {:induction false} SameSize<T>(a: seq<T>, b: seq<T>)
    requires SameItems(a, b)
    ensures |a| == |b|
  {
    assert |multiset(a)| == |a| && |multiset(b)| == |b|;
  }
}
