/** String trimming and name comparison, as Go's `strings.TrimSpace`,
    `strings.Trim` and `strings.EqualFold` do them. */
module Text {
  import opened Lists

  const SPACES: nat := 25

  /** The characters Go's `unicode.IsSpace` accepts. */
  function SpaceAt(i: nat): char {
    if i <= 4 then '\t' + i as char
    else if i == 5 then ' '
    else if i == 6 then '\U{85}'
    else if i == 7 then '\U{A0}'
    else if i == 8 then '\U{1680}'
    else if i <= 19 then '\U{2000}' + (i - 9) as char
    else if i == 20 then '\U{2028}'
    else if i == 21 then '\U{2029}'
    else if i == 22 then '\U{202F}'
    else if i == 23 then '\U{205F}'
    else '\U{3000}'
  }

  predicate SpaceFrom(c: char, i: nat)
    decreases SPACES - i, c
  {
    i < SPACES && (c == SpaceAt(i) || SpaceFrom(c, i + 1))
  }

  predicate IsSpace(c: char) {
    SpaceFrom(c, 0)
  }

  lemma {:induction false} SpaceFromIff(c: char, i: nat)
    ensures SpaceFrom(c, i) <==> exists k :: i <= k < SPACES && c == SpaceAt(k)
    decreases SPACES - i
  {
    if i < SPACES {
      SpaceFromIff(c, i + 1);
    }
  }

  /** White space is what has the Unicode property of that name. */
  lemma {:induction false} SpaceIff(c: char)
    ensures IsSpace(c) <==>
      || '\t' <= c <= '\r' || c == ' ' || c == '\U{85}' || c == '\U{A0}' || c == '\U{1680}'
      || '\U{2000}' <= c <= '\U{200A}' || c == '\U{2028}' || c == '\U{2029}' || c == '\U{202F}'
      || c == '\U{205F}' || c == '\U{3000}'
  {
    SpaceFromIff(c, 0);
    assert '\t' <= c <= '\r' ==> c == SpaceAt(c as nat - 9);
    assert '\U{2000}' <= c <= '\U{200A}' ==> c == SpaceAt(c as nat - 0x2000 + 9);
    assert SpaceAt(5) == ' ' && SpaceAt(6) == '\U{85}' && SpaceAt(7) == '\U{A0}' && SpaceAt(8) == '\U{1680}';
    assert SpaceAt(20) == '\U{2028}' && SpaceAt(21) == '\U{2029}' && SpaceAt(22) == '\U{202F}';
    assert SpaceAt(23) == '\U{205F}' && SpaceAt(24) == '\U{3000}';
  }

  lemma {:induction false} NotSpaceFrom(c: char, i: nat)
    requires '!' <= c <= '~'
    ensures !SpaceFrom(c, i)
    decreases SPACES - i
  {
    if i < SPACES {
      NotSpaceFrom(c, i + 1);
    }
  }

  /** Visible ASCII is not space. */
  lemma {:induction false} VisibleIsNotSpace(c: char)
    requires '!' <= c <= '~'
    ensures !IsSpace(c)
  {
    NotSpaceFrom(c, 0);
  }

  /** What trimming cuts off: white space, or slashes. */
  datatype Cut = White | Slash

  predicate Cuts(cut: Cut, c: char) {
    match cut
    case White => IsSpace(c)
    case Slash => c == '/'
  }

  /** The first position from `lo` on that is not cut. */
  function TrimStart(cut: Cut, s: string, lo: nat): (r: nat)
    requires lo <= |s|
    ensures lo <= r <= |s|
    decreases |s| - lo
  {
    if lo < |s| && Cuts(cut, s[lo]) then TrimStart(cut, s, lo + 1) else lo
  }

  /** The end of the last position before `hi`, and not before `lo`, that is not
      cut. */
  function TrimEnd(cut: Cut, s: string, lo: nat, hi: nat): (r: nat)
    requires lo <= hi <= |s|
    ensures lo <= r <= hi
  {
    if lo < hi && Cuts(cut, s[hi - 1]) then TrimEnd(cut, s, lo, hi - 1) else hi
  }

  function Trim(cut: Cut, s: string): string {
    var lo := TrimStart(cut, s, 0);
    s[lo..TrimEnd(cut, s, lo, |s|)]
  }

  lemma {:induction false} TrimStartStops(cut: Cut, s: string, lo: nat)
    requires lo <= |s|
    ensures var r := TrimStart(cut, s, lo);
            (r == |s| || !Cuts(cut, s[r])) && forall i :: lo <= i < r ==> Cuts(cut, s[i])
    decreases |s| - lo
  {
    if lo < |s| && Cuts(cut, s[lo]) {
      TrimStartStops(cut, s, lo + 1);
    }
  }

  lemma {:induction false} TrimEndStops(cut: Cut, s: string, lo: nat, hi: nat)
    requires lo <= hi <= |s|
    ensures var r := TrimEnd(cut, s, lo, hi);
            (r == lo || !Cuts(cut, s[r - 1])) && forall i :: r <= i < hi ==> Cuts(cut, s[i])
  {
    if lo < hi && Cuts(cut, s[hi - 1]) {
      TrimEndStops(cut, s, lo, hi - 1);
    }
  }

  function TrimSpace(s: string): string {
    Trim(White, s)
  }

  predicate Blank(s: string) {
    TrimSpace(s) == ""
  }

  /** A string that trimming leaves alone. */
  predicate Bare(cut: Cut, s: string) {
    s == "" || (!Cuts(cut, s[0]) && !Cuts(cut, s[|s| - 1]))
  }

  predicate AllCut(cut: Cut, s: string) {
    forall i :: 0 <= i < |s| ==> Cuts(cut, s[i])
  }

  lemma {:induction false} AllCutSlice(cut: Cut, s: string, lo: nat, hi: nat)
    requires lo <= hi <= |s| && forall i :: lo <= i < hi ==> Cuts(cut, s[i])
    ensures AllCut(cut, s[lo..hi])
  {
  }

  lemma {:induction false} BareSlice(cut: Cut, s: string, lo: nat, hi: nat)
    requires lo <= hi <= |s|
    requires lo < hi ==> !Cuts(cut, s[lo]) && !Cuts(cut, s[hi - 1])
    ensures Bare(cut, s[lo..hi])
  {
  }

  /** Trimming removes cut characters at both ends and nothing else. */
  lemma {:induction false} TrimSplits(cut: Cut, s: string) returns (l: string, r: string)
    ensures s == l + Trim(cut, s) + r
    ensures AllCut(cut, l) && AllCut(cut, r)
    ensures Bare(cut, Trim(cut, s))
  {
    var lo := TrimStart(cut, s, 0);
    var hi := TrimEnd(cut, s, lo, |s|);
    TrimStartStops(cut, s, 0);
    TrimEndStops(cut, s, lo, |s|);
    l, r := s[0..lo], s[hi..|s|];
    AllCutSlice(cut, s, 0, lo);
    AllCutSlice(cut, s, hi, |s|);
    BareSlice(cut, s, lo, hi);
    Cut3(s, lo, hi);
  }

  /** Any split of a string into cut ends around a bare middle is the one
      trimming finds. */
  lemma {:induction false} TrimOf(cut: Cut, l: string, m: string, r: string)
    requires AllCut(cut, l) && AllCut(cut, r) && Bare(cut, m)
    ensures Trim(cut, l + m + r) == m
  {
    var s := l + m + r;
    var lo := TrimStart(cut, s, 0);
    var hi := TrimEnd(cut, s, lo, |s|);
    TrimStartStops(cut, s, 0);
    TrimEndStops(cut, s, lo, |s|);
    if m == "" {
      assert lo == |s|;
    } else {
      assert s[|l|] == m[0] && s[|l| + |m| - 1] == m[|m| - 1];
      assert lo == |l| && hi == |l| + |m|;
    }
  }

  lemma {:induction false} TrimBare(cut: Cut, s: string)
    requires Bare(cut, s)
    ensures Trim(cut, s) == s
  {
    TrimOf(cut, "", s, "");
    assert "" + s + "" == s;
  }

  lemma {:induction false} TrimTwice(cut: Cut, s: string)
    ensures Trim(cut, Trim(cut, s)) == Trim(cut, s)
  {
    var _, _ := TrimSplits(cut, s);
    TrimBare(cut, Trim(cut, s));
  }

  /** Case folding is character by character: the table gives the representative
      of a character's folding orbit where that is not the character itself. Two
      strings are equal under folding when they fold to the same string. */
  type Folding = map<char, char>

  function FoldChar(fold: Folding, c: char): char {
    if c in fold then fold[c] else c
  }

  function Fold(fold: Folding, s: string): (r: string)
    ensures |r| == |s|
  {
    seq(|s|, i requires 0 <= i < |s| => FoldChar(fold, s[i]))
  }

  /** What `strings.EqualFold(strings.TrimSpace(a), strings.TrimSpace(b))`
      compares. */
  function NameKey(fold: Folding, s: string): string {
    Fold(fold, TrimSpace(s))
  }

  lemma {:induction false} NameKeyOfTrimmed(fold: Folding, s: string)
    ensures NameKey(fold, TrimSpace(s)) == NameKey(fold, s)
  {
    TrimTwice(White, s);
  }

  /** Two names are the same when, trimmed, they fold alike character by character. */
  lemma {:induction false} NameKeyIff(fold: Folding, a: string, b: string)
    ensures NameKey(fold, a) == NameKey(fold, b)
       <==> var x, y := TrimSpace(a), TrimSpace(b);
            |x| == |y| && forall i :: 0 <= i < |x| ==>
              (if x[i] in fold then fold[x[i]] else x[i]) == (if y[i] in fold then fold[y[i]] else y[i])
  {
    var x, y := TrimSpace(a), TrimSpace(b);
    assert forall i :: 0 <= i < |x| ==> NameKey(fold, a)[i] == FoldChar(fold, x[i]);
    assert forall i :: 0 <= i < |y| ==> NameKey(fold, b)[i] == FoldChar(fold, y[i]);
  }
}
