/** Paths as lists of segments: Go's `strings.Split` and `strings.Join` on the slash,
    and what trimming slashes does to them. */
module Segments {
  import opened Lists
  import opened Text

  /** The first position from `i` on of a slash, or the length. */
  function SlashAt(s: string, i: nat): (r: nat)
    requires i <= |s|
    ensures i <= r <= |s|
    decreases |s| - i
  {
    if i < |s| && s[i] != '/' then SlashAt(s, i + 1) else i
  }

  /** `strings.Split(s, "/")` */
  function Split(s: string): (parts: seq<string>)
    ensures parts != []
    decreases |s|
  {
    var k := SlashAt(s, 0);
    if k == |s| then [s] else [s[..k]] + Split(s[k + 1..])
  }

  /** `strings.Join(parts, "/")` */
  function Join(parts: seq<string>): string {
    if parts == [] then ""
    else if |parts| == 1 then parts[0]
    else parts[0] + ("/" + Join(parts[1..]))
  }

  predicate Segment(s: string) {
    '/' !in s
  }

  predicate AreSegments(parts: seq<string>) {
    forall i :: 0 <= i < |parts| ==> Segment(parts[i])
  }

  lemma {:induction false} SlashAtIs(s: string, i: nat, k: nat)
    requires i <= k <= |s| && (k == |s| || s[k] == '/')
    requires forall j :: i <= j < k ==> s[j] != '/'
    ensures SlashAt(s, i) == k
    decreases k - i
  {
    if i < k {
      SlashAtIs(s, i + 1, k);
    }
  }

  lemma {:induction false} SlashAtMeaning(s: string, i: nat)
    requires i <= |s|
    ensures SlashAt(s, i) < |s| ==> s[SlashAt(s, i)] == '/'
    ensures Segment(s[i..SlashAt(s, i)])
    decreases |s| - i
  {
    if i < |s| && s[i] != '/' {
      SlashAtMeaning(s, i + 1);
      var k := SlashAt(s, i + 1);
      assert s[i..k] == [s[i]] + s[i + 1..k];
    }
  }

  lemma {:induction false} CutAt(s: string, k: nat)
    requires k < |s| && s[k] == '/'
    ensures s == s[..k] + ("/" + s[k + 1..])
  {
  }

  /** Splitting and joining are inverse to each other. */
  lemma {:induction false} JoinOfSplit(s: string)
    ensures Join(Split(s)) == s && AreSegments(Split(s))
    decreases |s|
  {
    var k := SlashAt(s, 0);
    SlashAtMeaning(s, 0);
    assert s[0..k] == s[..k];
    if k < |s| {
      var rest := Split(s[k + 1..]);
      JoinOfSplit(s[k + 1..]);
      assert ([s[..k]] + rest)[1..] == rest;
      CutAt(s, k);
    }
  }

  lemma {:induction false} SplitOfJoin(parts: seq<string>)
    requires parts != [] && AreSegments(parts)
    ensures Split(Join(parts)) == parts
    decreases |parts|
  {
    var s := Join(parts);
    SlashAtIs(s, 0, |parts[0]|);
    if |parts| > 1 {
      SplitOfJoin(parts[1..]);
      assert s[..|parts[0]|] == parts[0];
      assert s[|parts[0]| + 1..] == Join(parts[1..]);
      assert parts == [parts[0]] + parts[1..];
    }
  }

  lemma {:induction false} JoinConcat(a: seq<string>, b: seq<string>)
    requires a != [] && b != []
    ensures Join(a + b) == Join(a) + ("/" + Join(b))
    decreases |a|
  {
    assert (a + b)[1..] == a[1..] + b;
    if |a| > 1 {
      JoinConcat(a[1..], b);
      var x, y, z := a[0], Join(a[1..]), Join(b);
      Join3("/", y, "/" + z);
      Join3(x, "/" + y, "/" + z);
    } else {
      assert a[1..] + b == b;
    }
  }

  // ---------------------------------------------------------------------
  // Trimming slashes drops empty segments at both ends

  function DropLead(parts: seq<string>): seq<string> {
    if parts != [] && parts[0] == "" then DropLead(parts[1..]) else parts
  }

  function DropTrail(parts: seq<string>): seq<string> {
    if parts != [] && parts[|parts| - 1] == "" then DropTrail(parts[..|parts| - 1]) else parts
  }

  function Stripped(parts: seq<string>): seq<string> {
    DropTrail(DropLead(parts))
  }

  /** A list that stripping leaves alone. */
  predicate Tight(parts: seq<string>) {
    parts == [] || (parts[0] != "" && parts[|parts| - 1] != "")
  }

  lemma {:induction false} DropLeadKeeps(parts: seq<string>)
    requires AreSegments(parts)
    ensures AreSegments(DropLead(parts))
    ensures DropLead(parts) == [] || DropLead(parts)[0] != ""
    decreases |parts|
  {
    if parts != [] && parts[0] == "" {
      DropLeadKeeps(parts[1..]);
    }
  }

  lemma {:induction false} DropTrailKeeps(parts: seq<string>)
    requires AreSegments(parts) && (parts == [] || parts[0] != "")
    ensures AreSegments(DropTrail(parts)) && Tight(DropTrail(parts)) && DropTrail(parts) <= parts
    ensures DropTrail(parts) == [] <==> parts == []
    decreases |parts|
  {
    if parts != [] && parts[|parts| - 1] == "" {
      DropTrailKeeps(parts[..|parts| - 1]);
    }
  }

  lemma {:induction false} StrippedIsTight(parts: seq<string>)
    requires AreSegments(parts)
    ensures AreSegments(Stripped(parts)) && Tight(Stripped(parts))
  {
    DropLeadKeeps(parts);
    DropTrailKeeps(DropLead(parts));
  }

  lemma {:induction false} DropLeadConcat(a: seq<string>, b: seq<string>)
    requires b != [] && b[0] != ""
    ensures DropLead(a + b) == DropLead(a) + b
    decreases |a|
  {
    if a == [] {
      assert a + b == b;
    } else if a[0] == "" {
      assert (a + b)[1..] == a[1..] + b;
      DropLeadConcat(a[1..], b);
    }
  }

  lemma {:induction false} TrimLeadingSlash(s: string)
    ensures Trim(Slash, "/" + s) == Trim(Slash, s)
  {
    var l, r := TrimSplits(Slash, s);
    var m := Trim(Slash, s);
    TrimOf(Slash, "/" + l, m, r);
    Prefixed("/", l, m, r);
  }

  lemma {:induction false} TrimTrailingSlash(s: string)
    ensures Trim(Slash, s + "/") == Trim(Slash, s)
  {
    var l, r := TrimSplits(Slash, s);
    var m := Trim(Slash, s);
    TrimOf(Slash, l, m, r + "/");
    Join3(l + m, r, "/");
  }

  lemma {:induction false} TrimDropsLead(parts: seq<string>)
    ensures Trim(Slash, Join(parts)) == Trim(Slash, Join(DropLead(parts)))
    decreases |parts|
  {
    if |parts| > 1 && parts[0] == "" {
      TrimDropsLead(parts[1..]);
      var rest := Join(parts[1..]);
      assert Join(parts) == "/" + rest;
      TrimLeadingSlash(rest);
    } else if |parts| == 1 && parts[0] == "" {
      assert parts[1..] == [];
    }
  }

  lemma {:induction false} TrimDropsTrail(parts: seq<string>)
    ensures Trim(Slash, Join(parts)) == Trim(Slash, Join(DropTrail(parts)))
    decreases |parts|
  {
    if |parts| > 1 && parts[|parts| - 1] == "" {
      var init := parts[..|parts| - 1];
      TrimDropsTrail(init);
      SplitLast(parts);
      JoinConcat(init, [""]);
      assert Join([""]) == "" && Join(parts) == Join(init) + "/";
      TrimTrailingSlash(Join(init));
    } else if |parts| == 1 && parts[0] == "" {
      assert parts[..0] == [];
    }
  }

  lemma {:induction false} JoinEnds(parts: seq<string>)
    requires parts != [] && AreSegments(parts) && parts[|parts| - 1] != ""
    ensures Join(parts) != "" && Join(parts)[|Join(parts)| - 1] != '/'
    ensures var last := parts[|parts| - 1];
      Join(parts)[|Join(parts)| - 1] == last[|last| - 1]
    decreases |parts|
  {
    if |parts| > 1 {
      JoinEnds(parts[1..]);
    }
  }

  lemma {:induction false} JoinOfTight(parts: seq<string>)
    requires AreSegments(parts) && Tight(parts)
    ensures Bare(Slash, Join(parts))
    ensures parts != [] ==> Join(parts) != ""
  {
    if parts != [] {
      JoinEnds(parts);
      assert Join(parts)[0] == parts[0][0];
    }
  }

  /** Trimming the slashes off a joined path is joining its stripped segments. */
  lemma {:induction false} TrimOfJoin(parts: seq<string>)
    requires AreSegments(parts)
    ensures Trim(Slash, Join(parts)) == Join(Stripped(parts))
  {
    TrimDropsLead(parts);
    TrimDropsTrail(DropLead(parts));
    StrippedIsTight(parts);
    JoinOfTight(Stripped(parts));
    TrimBare(Slash, Join(Stripped(parts)));
  }

  lemma {:induction false} TightIsStripped(parts: seq<string>)
    ensures Tight(parts) <==> Stripped(parts) == parts
  {
    DropLeadShrinks(parts);
    DropTrailShrinks(DropLead(parts));
    if Stripped(parts) == parts && parts != [] {
      assert DropLead(parts) == parts;
    }
  }

  lemma {:induction false} DropLeadShrinks(parts: seq<string>)
    ensures |DropLead(parts)| <= |parts|
    ensures |DropLead(parts)| == |parts| <==> parts == [] || parts[0] != ""
    decreases |parts|
  {
    if parts != [] && parts[0] == "" {
      DropLeadShrinks(parts[1..]);
    }
  }

  lemma {:induction false} DropTrailShrinks(parts: seq<string>)
    ensures |DropTrail(parts)| <= |parts|
    ensures |DropTrail(parts)| == |parts| <==> parts == [] || parts[|parts| - 1] != ""
    decreases |parts|
  {
    if parts != [] && parts[|parts| - 1] == "" {
      DropTrailShrinks(parts[..|parts| - 1]);
    }
  }
}
