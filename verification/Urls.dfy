/** URLs of a scheme, a host and a path, parsed and printed as Go's `net/url` does. */
module Urls {
  import opened Wrappers
  import opened Numerals
  import opened Segments

  /** An opaque URL, such as one with a scheme and no slash after it, has neither host
      nor path. */
  datatype Url = Url(scheme: string, host: string, path: string)

  predicate IsLetter(c: char) {
    'a' <= c <= 'z' || 'A' <= c <= 'Z'
  }

  predicate SchemeChar(c: char, i: nat) {
    IsLetter(c) || (i > 0 && (IsDigit(c) || c == '+' || c == '-' || c == '.'))
  }

  /** The end of the longest scheme that goes on from `i`. */
  function SchemeEnd(s: string, i: nat): (r: nat)
    requires i <= |s|
    ensures i <= r <= |s|
    decreases |s| - i
  {
    if i < |s| && SchemeChar(s[i], i) then SchemeEnd(s, i + 1) else i
  }

  function LowerChar(c: char): char {
    if 'A' <= c <= 'Z' then c - 'A' + 'a' else c
  }

  function Lower(s: string): string {
    seq(|s|, i requires 0 <= i < |s| => LowerChar(s[i]))
  }

  predicate HasPrefix(s: string, prefix: string) {
    prefix <= s
  }

  predicate At(s: string, sub: string, i: nat) {
    i + |sub| <= |s| && s[i..i + |sub|] == sub
  }

  /** `strings.Contains` */
  predicate Contains(s: string, sub: string) {
    exists i: nat :: i <= |s| && At(s, sub, i)
  }

  function ColonAt(s: string, i: nat): (r: nat)
    requires i <= |s|
    ensures i <= r <= |s|
    decreases |s| - i
  {
    if i < |s| && s[i] != ':' then ColonAt(s, i + 1) else i
  }

  /** A host has at most one colon, and only digits after it. */
  predicate ValidHost(host: string) {
    var k := ColonAt(host, 0);
    k == |host| || AllDigits(host[k + 1..])
  }

  /** What follows the scheme: an authority after two slashes, or just a path. */
  function ParseRest(scheme: string, rest: string): Option<Url> {
    if !HasPrefix(rest, "/") && scheme != "" then Some(Url(scheme, "", ""))
    else if !HasPrefix(rest, "/") && ':' in rest[..SlashAt(rest, 0)] then None
    else if HasPrefix(rest, "//") && (scheme != "" || !HasPrefix(rest, "///")) then
      var k := SlashAt(rest, 2);
      if ValidHost(rest[2..k]) then Some(Url(scheme, rest[2..k], rest[k..])) else None
    else Some(Url(scheme, "", rest))
  }

  /** `url.Parse` */
  function Parse(s: string): Option<Url> {
    var e := SchemeEnd(s, 0);
    if e < |s| && s[e] == ':' then
      if e == 0 then None else ParseRest(Lower(s[..e]), s[e + 1..])
    else ParseRest("", s)
  }

  /** `URL.String`, for a URL with a host. */
  function Print(u: Url): string {
    (if u.scheme == "" then "" else u.scheme + ":") + ("//" + (u.host + u.path))
  }

  predicate WebScheme(scheme: string) {
    scheme == "http" || scheme == "https"
  }

  /** A web URL with a host, as parsing yields it. */
  predicate Web(u: Url) {
    && WebScheme(u.scheme)
    && u.host != "" && Segment(u.host) && ValidHost(u.host)
    && (u.path == "" || u.path[0] == '/')
  }

  // ---------------------------------------------------------------------

  lemma {:induction false} SchemeEndIs(s: string, i: nat, e: nat)
    requires i <= e < |s| && s[e] == ':'
    requires forall j :: i <= j < e ==> SchemeChar(s[j], j)
    ensures SchemeEnd(s, i) == e
    decreases e - i
  {
    if i < e {
      SchemeEndIs(s, i + 1, e);
    }
  }

  lemma {:induction false} ParseAuthority(scheme: string, host: string, path: string)
    requires scheme != "" && Segment(host) && ValidHost(host)
    requires path == "" || path[0] == '/'
    ensures ParseRest(scheme, "//" + (host + path)) == Some(Url(scheme, host, path))
  {
    var rest := "//" + (host + path);
    var k := 2 + |host|;
    assert forall j :: 2 <= j < k ==> rest[j] == host[j - 2];
    assert path != "" ==> rest[k] == path[0];
    SlashAtIs(rest, 2, k);
    assert rest[2..k] == host && rest[k..] == path;
    assert HasPrefix(rest, "//");
  }

  lemma {:induction false} WebSchemeIsLower(scheme: string)
    requires WebScheme(scheme)
    ensures Lower(scheme) == scheme && forall j :: 0 <= j < |scheme| ==> SchemeChar(scheme[j], j)
  {
  }

  /** The scheme may be written in either case. */
  lemma {:induction false} SchemeInAnyCase(written: string, u: Url)
    requires Web(u) && Lower(written) == u.scheme
    ensures Parse(written + ":" + ("//" + (u.host + u.path))) == Some(u)
  {
    var rest := "//" + (u.host + u.path);
    var s, e := written + ":" + rest, |written|;
    assert e == |Lower(written)|;
    WebSchemeIsLower(u.scheme);
    forall j | 0 <= j < e ensures SchemeChar(s[j], j) {
      assert s[j] == written[j] && Lower(written)[j] == LowerChar(written[j]);
    }
    assert s[e] == ':' && s[..e] == written && s[e + 1..] == rest;
    SchemeEndIs(s, 0, e);
    ParseAuthority(u.scheme, u.host, u.path);
  }

  /** A printed web URL parses back to itself. */
  lemma {:induction false} ParseOfPrint(u: Url)
    requires Web(u)
    ensures Parse(Print(u)) == Some(u)
  {
    WebSchemeIsLower(u.scheme);
    SchemeInAnyCase(u.scheme, u);
    assert Print(u) == u.scheme + ":" + ("//" + (u.host + u.path));
  }

  lemma {:induction false} ColonAtIs(s: string, i: nat, k: nat)
    requires i <= k <= |s| && (k < |s| ==> s[k] == ':') && forall j :: i <= j < k ==> s[j] != ':'
    ensures ColonAt(s, i) == k
    decreases k - i
  {
    if i < k {
      ColonAtIs(s, i + 1, k);
    }
  }

  /** A name without a colon is a host, and so it is with a port of digits only. */
  lemma {:induction false} HostMeaning(name: string, port: string)
    requires ':' !in name
    ensures ValidHost(name)
    ensures ValidHost(name + (":" + port)) <==> AllDigits(port)
  {
    ColonAtIs(name, 0, |name|);
    var host := name + (":" + port);
    assert forall j :: 0 <= j < |name| ==> host[j] == name[j];
    ColonAtIs(host, 0, |name|);
    assert host[|name| + 1..] == port;
  }

  lemma {:induction false} ParseRestShape(scheme: string, rest: string)
    requires ParseRest(scheme, rest).Some?
    ensures var u := ParseRest(scheme, rest).value;
      u.scheme == scheme &&
      (u.host != "" ==>
         HasPrefix(rest, "//") && Segment(u.host) && ValidHost(u.host) && (u.path == "" || u.path[0] == '/'))
  {
    if HasPrefix(rest, "//") {
      SlashAtMeaning(rest, 2);
    }
  }

  /** What parsing yields, if it has a web scheme and a host, is a web URL, and its
      text has the mark of one. */
  lemma {:induction false} ParsedIsWeb(s: string)
    requires Parse(s).Some? && WebScheme(Parse(s).value.scheme) && Parse(s).value.host != ""
    ensures Web(Parse(s).value) && Contains(s, "://")
  {
    var e := SchemeEnd(s, 0);
    if e < |s| && s[e] == ':' {
      ParseRestShape(Lower(s[..e]), s[e + 1..]);
      assert s[e + 1..][..2] == "//";
      assert s[e + 1] == '/' && s[e + 2] == '/';
      assert s[e..e + 3] == "://";
      assert At(s, "://", e);
    } else {
      ParseRestShape("", s);
    }
  }

  /** Different web URLs print differently. */
  lemma {:induction false} PrintIsInjective(u: Url, v: Url)
    requires Web(u) && Web(v) && Print(u) == Print(v)
    ensures u == v
  {
    ParseOfPrint(u);
    ParseOfPrint(v);
  }
}
