/** Group links and instance URLs: one derived from the other, and when the two
    derivations undo each other. */
module Links {
  import opened Wrappers
  import opened Lists
  import opened Numerals
  import opened Text
  import opened Segments
  import opened Urls

  const GROUPS: string := "groups"

  /** Where the tRPC endpoint lies below an instance. */
  const API: seq<string> := ["api", "trpc"]

  /** The first position from `i` on of a segment `groups`, or the length. */
  function GroupsAt(parts: seq<string>, i: nat): (r: nat)
    requires i <= |parts|
    ensures i <= r <= |parts|
    decreases |parts| - i
  {
    if i < |parts| && parts[i] != GROUPS then GroupsAt(parts, i + 1) else i
  }

  /** The segments of a URL's path, without the slashes around it. */
  function Parts(u: Url): (parts: seq<string>)
    ensures parts != []
  {
    Split(Trim(Slash, u.path))
  }

  /** A path of these segments. */
  function Path(parts: seq<string>): string {
    "/" + Join(parts)
  }

  /** The base URL a link leads to, "" if it is no link. */
  function BaseOf(input: string): string {
    var s := TrimSpace(input);
    if !Contains(s, "://") then ""
    else match Parse(s)
      case None => ""
      case Some(u) =>
        if u.host == "" || !WebScheme(u.scheme) then ""
        else
          var parts := Parts(u);
          var g := GroupsAt(parts, 0);
          if g == |parts| then "" else Print(Url(u.scheme, u.host, Path(parts[..g] + API)))
  }

  /** `DeriveBaseURL` */
  method DeriveBaseURL(input: string) returns (base: string)
    ensures base == BaseOf(input)
  {
    var s := TrimSpace(input);
    if !Contains(s, "://") {
      return "";
    }
    var parsed := Parse(s);
    if parsed.None? || parsed.value.host == "" {
      return "";
    }
    if parsed.value.scheme != "http" && parsed.value.scheme != "https" {
      return "";
    }
    var parts := Split(Trim(Slash, parsed.value.path));
    var prefix: seq<string> := [];
    for i := 0 to |parts|
      invariant prefix == parts[..i]
      invariant GroupsAt(parts, i) == GroupsAt(parts, 0)
    {
      if parts[i] == GROUPS {
        return Print(Url(parsed.value.scheme, parsed.value.host, "/" + Join(prefix + ["api", "trpc"])));
      }
      prefix := prefix + [parts[i]];
    }
    base := "";
  }

  function TrimSuffix(s: string, suffix: string): string {
    if |suffix| <= |s| && s[|s| - |suffix|..] == suffix then s[..|s| - |suffix|] else s
  }

  /** What is left of a base URL's path without the endpoint. */
  function Subpath(path: string): string {
    Trim(Slash, TrimSuffix(Trim(Slash, path), "api/trpc"))
  }

  /** `WebURL` */
  function WebURL(base: string, groupId: string): string {
    if groupId == "" then ""
    else match Parse(TrimSpace(base))
      case None => ""
      case Some(u) =>
        if u.host == "" then ""
        else
          var prefix := Subpath(u.path);
          var segments := (if prefix == "" then [] else [prefix]) + [GROUPS, groupId];
          Print(Url(u.scheme, u.host, Path(segments)))
  }

  /** `HostOf` */
  function HostOf(base: string): string {
    match Parse(base)
    case None => base
    case Some(u) =>
      if u.host == "" then base
      else if Subpath(u.path) == "" then u.host
      else u.host + "/" + Subpath(u.path)
  }

  /** The group ID in a link, or the input where it is not one. */
  function IdOf(input: string): string {
    if '/' !in input then input
    else match Parse(input)
      case None => input
      case Some(u) =>
        var parts := Parts(u);
        var g := GroupsAt(parts, 0);
        if g + 1 < |parts| then parts[g + 1] else input
  }

  /** `ExtractGroupID` */
  method ExtractGroupID(input: string) returns (id: string)
    ensures id == IdOf(input)
  {
    if '/' !in input {
      return input;
    }
    var parsed := Parse(input);
    if parsed.None? {
      return input;
    }
    var parts := Split(Trim(Slash, parsed.value.path));
    for i := 0 to |parts|
      invariant i < |parts| ==> GroupsAt(parts, i) == GroupsAt(parts, 0)
      invariant i == |parts| ==> GroupsAt(parts, 0) + 1 >= |parts|
    {
      if parts[i] == GROUPS && i + 1 < |parts| {
        return parts[i + 1];
      }
    }
    id := input;
  }

  // ---------------------------------------------------------------------
  // The texts the laws are about

  /** The unreserved characters of section 2.3 of RFC 3986, and the colon and slash
      between them. */
  predicate PlainChar(c: char) {
    IsLetter(c) || IsDigit(c) || c in "-._~:/"
  }

  predicate Plain(s: string) {
    forall i :: 0 <= i < |s| ==> PlainChar(s[i])
  }

  lemma {:induction false} PlainCharIsNotSpace(c: char)
    requires PlainChar(c)
    ensures !IsSpace(c)
  {
    VisibleIsNotSpace(c);
  }

  lemma {:induction false} PlainIsTrimmed(s: string)
    requires s != "" ==> PlainChar(s[0]) && PlainChar(s[|s| - 1])
    ensures TrimSpace(s) == s
  {
    if s != "" {
      PlainCharIsNotSpace(s[0]);
      PlainCharIsNotSpace(s[|s| - 1]);
    }
    TrimBare(White, s);
  }

  /** An http(s) scheme with a host to go with it. */
  predicate Site(scheme: string, host: string) {
    Web(Url(scheme, host, ""))
  }

  /** The base URL of an instance below the given segments. */
  function Base(scheme: string, host: string, prefix: seq<string>): string {
    Print(Url(scheme, host, Path(prefix + API)))
  }

  /** The link to a group of that instance. */
  function Link(scheme: string, host: string, prefix: seq<string>, id: string): string {
    Print(Url(scheme, host, Path(prefix + [GROUPS, id])))
  }

  // ---------------------------------------------------------------------
  // Segments of printed paths

  lemma {:induction false} GroupsAtIs(parts: seq<string>, i: nat, g: nat)
    requires i <= g < |parts| && parts[g] == GROUPS
    requires forall j :: i <= j < g ==> parts[j] != GROUPS
    ensures GroupsAt(parts, i) == g
    decreases g - i
  {
    if i < g {
      GroupsAtIs(parts, i + 1, g);
    }
  }

  lemma {:induction false} GroupsAtMeaning(parts: seq<string>, i: nat)
    requires i <= |parts|
    ensures var g := GroupsAt(parts, i);
      (g < |parts| ==> parts[g] == GROUPS) && forall j :: i <= j < g ==> parts[j] != GROUPS
    decreases |parts| - i
  {
    if i < |parts| && parts[i] != GROUPS {
      GroupsAtMeaning(parts, i + 1);
    }
  }

  /** The segments of a path are the stripped ones it was made of. */
  lemma {:induction false} PartsOfPath(scheme: string, host: string, parts: seq<string>)
    requires AreSegments(parts) && Stripped(parts) != []
    ensures Parts(Url(scheme, host, Path(parts))) == Stripped(parts)
  {
    TrimLeadingSlash(Join(parts));
    TrimOfJoin(parts);
    StrippedIsTight(parts);
    SplitOfJoin(Stripped(parts));
  }

  lemma {:induction false} LastChar(scheme: string, host: string, parts: seq<string>)
    requires AreSegments(parts) && parts != [] && parts[|parts| - 1] != ""
    ensures var s, last := Print(Url(scheme, host, Path(parts))), parts[|parts| - 1];
      s != "" && s[|s| - 1] == last[|last| - 1]
  {
    JoinEnds(parts);
  }

  lemma {:induction false} FirstChar(u: Url)
    requires Web(u)
    ensures Print(u) != "" && Print(u)[0] == 'h'
  {
  }

  /** A printed URL of a site, whose last segment ends plainly, is read back as it
      stands. */
  lemma {:induction false} ReadBack(scheme: string, host: string, parts: seq<string>)
    requires Site(scheme, host) && AreSegments(parts)
    requires parts != [] && parts[|parts| - 1] != "" && Plain(parts[|parts| - 1])
    ensures var s, u := Print(Url(scheme, host, Path(parts))), Url(scheme, host, Path(parts));
      TrimSpace(s) == s && Parse(s) == Some(u) && Contains(s, "://") && '/' in s
  {
    var u := Url(scheme, host, Path(parts));
    LastChar(scheme, host, parts);
    FirstChar(u);
    PlainIsTrimmed(Print(u));
    ParseOfPrint(u);
    ParsedIsWeb(Print(u));
    assert Print(u)[|Print(u)| - |u.path|] == '/';
  }

  // ---------------------------------------------------------------------
  // From a base to a link

  lemma {:induction false} JoinOfApi()
    ensures Join(API) == "api/trpc"
  {
    assert API[1..] == ["trpc"];
  }

  lemma {:induction false} TrimOfBase(prefix: seq<string>)
    requires AreSegments(prefix)
    ensures Trim(Slash, Path(prefix + API)) == Join(DropLead(prefix) + API)
  {
    var parts := DropLead(prefix) + API;
    TrimLeadingSlash(Join(prefix + API));
    TrimDropsLead(prefix + API);
    DropLeadConcat(prefix, API);
    DropLeadKeeps(prefix);
    assert Tight(parts);
    JoinOfTight(parts);
    TrimBare(Slash, Join(parts));
  }

  lemma {:induction false} WithoutEndpoint(lead: seq<string>)
    ensures TrimSuffix(Join(lead + API), "api/trpc") == if lead == [] then "" else Join(lead) + "/"
  {
    JoinOfApi();
    if lead == [] {
      assert lead + API == API;
      SuffixOff("", "api/trpc");
    } else {
      JoinConcat(lead, API);
      Join3(Join(lead), "/", "api/trpc");
      SuffixOff(Join(lead) + "/", "api/trpc");
    }
  }

  /** Without the endpoint, the path is that of the stripped prefix. */
  lemma {:induction false} SubpathOf(prefix: seq<string>)
    requires AreSegments(prefix)
    ensures Subpath(Path(prefix + API)) == Join(Stripped(prefix))
  {
    var lead := DropLead(prefix);
    TrimOfBase(prefix);
    WithoutEndpoint(lead);
    TrimTrailingSlash(Join(lead));
    DropLeadKeeps(prefix);
    TrimOfJoin(lead);
  }

  lemma {:induction false} SuffixOff(s: string, suffix: string)
    ensures TrimSuffix(s + suffix, suffix) == s
  {
  }

  /** Joining a path that is joined already. */
  lemma {:induction false} LinkPath(prefix: seq<string>, id: string)
    requires AreSegments(prefix) && Tight(prefix)
    ensures var joined := Join(prefix);
      Path((if joined == "" then [] else [joined]) + [GROUPS, id]) == Path(prefix + [GROUPS, id])
  {
    JoinOfTight(prefix);
    if prefix == [] {
      assert prefix + [GROUPS, id] == [] + [GROUPS, id];
    } else {
      JoinConcat(prefix, [GROUPS, id]);
      JoinConcat([Join(prefix)], [GROUPS, id]);
    }
  }

  lemma {:induction false} WebURLOfBase(scheme: string, host: string, prefix: seq<string>, id: string)
    requires Site(scheme, host) && AreSegments(prefix) && id != ""
    ensures WebURL(Base(scheme, host, prefix), id) == Link(scheme, host, Stripped(prefix), id)
  {
    assert (prefix + API)[|prefix| + 1] == "trpc";
    ReadBack(scheme, host, prefix + API);
    SubpathOf(prefix);
    StrippedIsTight(prefix);
    LinkPath(Stripped(prefix), id);
  }

  // ---------------------------------------------------------------------
  // From a link to its base and its group

  lemma {:induction false} BaseAsRead(s: string, u: Url)
    requires TrimSpace(s) == s && Parse(s) == Some(u) && Contains(s, "://") && WebScheme(u.scheme) && u.host != ""
    ensures var g := GroupsAt(Parts(u), 0);
      BaseOf(s) == if g == |Parts(u)| then "" else Base(u.scheme, u.host, Parts(u)[..g])
  {
  }

  lemma {:induction false} IdAsRead(s: string, u: Url)
    requires Parse(s) == Some(u) && '/' in s
    ensures var g := GroupsAt(Parts(u), 0);
      IdOf(s) == if g + 1 < |Parts(u)| then Parts(u)[g + 1] else s
  {
  }

  lemma {:induction false} LinkParts(scheme: string, host: string, prefix: seq<string>, id: string)
    requires AreSegments(prefix) && Tight(prefix) && Segment(id) && id != ""
    ensures var parts := prefix + [GROUPS, id];
      && Parts(Url(scheme, host, Path(parts))) == parts
      && GroupsAt(parts, 0) <= |prefix|
  {
    var parts := prefix + [GROUPS, id];
    assert AreSegments(parts) && Tight(parts);
    TightIsStripped(parts);
    PartsOfPath(scheme, host, parts);
    GroupsAtMeaning(parts, 0);
    assert parts[|prefix|] == GROUPS;
  }

  lemma {:induction false} BaseOfLink(scheme: string, host: string, prefix: seq<string>, id: string)
    requires Site(scheme, host) && AreSegments(prefix) && Tight(prefix)
    requires Segment(id) && Plain(id) && id != ""
    ensures var parts := prefix + [GROUPS, id];
      BaseOf(Link(scheme, host, prefix, id)) == Base(scheme, host, parts[..GroupsAt(parts, 0)])
  {
    var parts := prefix + [GROUPS, id];
    var u := Url(scheme, host, Path(parts));
    LinkParts(scheme, host, prefix, id);
    ReadBack(scheme, host, parts);
    BaseAsRead(Print(u), u);
  }

  lemma {:induction false} IdOfLink(scheme: string, host: string, prefix: seq<string>, id: string)
    requires Site(scheme, host) && AreSegments(prefix) && Tight(prefix)
    requires Segment(id) && Plain(id) && id != ""
    ensures var parts := prefix + [GROUPS, id];
      GroupsAt(parts, 0) <= |prefix| && IdOf(Link(scheme, host, prefix, id)) == parts[GroupsAt(parts, 0) + 1]
  {
    var parts := prefix + [GROUPS, id];
    var u := Url(scheme, host, Path(parts));
    LinkParts(scheme, host, prefix, id);
    ReadBack(scheme, host, parts);
    IdAsRead(Print(u), u);
  }

  predicate NoGroups(prefix: seq<string>) {
    forall i :: 0 <= i < |prefix| ==> prefix[i] != GROUPS
  }

  lemma {:induction false} PlainLinkIsRead(scheme: string, host: string, prefix: seq<string>, id: string)
    requires Site(scheme, host) && AreSegments(prefix) && Tight(prefix) && NoGroups(prefix)
    requires Segment(id) && Plain(id) && id != ""
    ensures BaseOf(Link(scheme, host, prefix, id)) == Base(scheme, host, prefix)
    ensures IdOf(Link(scheme, host, prefix, id)) == id
  {
    var parts := prefix + [GROUPS, id];
    BaseOfLink(scheme, host, prefix, id);
    IdOfLink(scheme, host, prefix, id);
    GroupsAtIs(parts, 0, |prefix|);
    assert parts[..|prefix|] == prefix;
  }

  // ---------------------------------------------------------------------
  // Main results

  /** The part of a stripped prefix before any segment `groups`. */
  function Taken(prefix: seq<string>, id: string): seq<string> {
    var parts := Stripped(prefix) + [GROUPS, id];
    parts[..GroupsAt(parts, 0)]
  }

  lemma {:induction false} BaseComesBack(scheme: string, host: string, prefix: seq<string>, id: string)
    requires Site(scheme, host) && AreSegments(prefix)
    requires Segment(id) && Plain(id) && id != ""
    ensures BaseOf(WebURL(Base(scheme, host, prefix), id)) == Base(scheme, host, Taken(prefix, id))
  {
    WebURLOfBase(scheme, host, prefix, id);
    StrippedIsTight(prefix);
    BaseOfLink(scheme, host, Stripped(prefix), id);
  }

  lemma {:induction false} TakenIsAllIff(prefix: seq<string>, id: string)
    requires AreSegments(prefix)
    ensures Taken(prefix, id) == prefix <==> Tight(prefix) && NoGroups(prefix)
    ensures AreSegments(Taken(prefix, id))
  {
    var q := Stripped(prefix);
    var parts := q + [GROUPS, id];
    StrippedIsTight(prefix);
    StrippedShrinks(prefix);
    TightIsStripped(prefix);
    GroupsAtMeaning(parts, 0);
    var g := GroupsAt(parts, 0);
    assert parts[|q|] == GROUPS;
    assert g <= |q| && parts[..g] == q[..g];
    if NoGroups(q) {
      assert g == |q|;
    }
    if |parts[..g]| == |prefix| {
      assert parts[..g] == q;
    }
  }

  /** The round trip from a base URL, below any prefix of segments, through the link to
      a group of it: the base comes back if and only if the prefix neither begins nor
      ends with an empty segment and has no segment `groups`. Of characters outside
      `PlainChar`, which the URL library escapes, this says nothing about the code. */
  lemma {:induction false} BaseRoundTripIff(scheme: string, host: string, prefix: seq<string>, id: string)
    requires Site(scheme, host) && AreSegments(prefix)
    requires Segment(id) && Plain(id) && id != ""
    ensures BaseOf(WebURL(Base(scheme, host, prefix), id)) == Base(scheme, host, prefix)
       <==> Tight(prefix) && NoGroups(prefix)
  {
    BaseComesBack(scheme, host, prefix, id);
    TakenIsAllIff(prefix, id);
    BaseSameIff(scheme, host, Taken(prefix, id), prefix);
  }

  /** An instance hosted below a path `groups` is lost on the way. */
  lemma {:induction false} GroupsPrefixLosesBase(id: string)
    requires Segment(id) && Plain(id) && id != ""
    ensures BaseOf(WebURL(Base("https", "example.com", [GROUPS]), id)) != Base("https", "example.com", [GROUPS])
  {
    HostWithoutColon("example.com");
    BaseRoundTripIff("https", "example.com", [GROUPS], id);
  }

  lemma {:induction false} HostWithoutColon(host: string)
    requires forall i :: 0 <= i < |host| ==> host[i] != ':'
    ensures ValidHost(host)
  {
    NoColonFrom(host, 0);
  }

  lemma {:induction false} NoColonFrom(host: string, i: nat)
    requires i <= |host| && forall j :: 0 <= j < |host| ==> host[j] != ':'
    ensures ColonAt(host, i) == |host|
    decreases |host| - i
  {
    if i < |host| {
      NoColonFrom(host, i + 1);
    }
  }

  lemma {:induction false} StrippedShrinks(parts: seq<string>)
    ensures |Stripped(parts)| <= |parts|
  {
    DropLeadShrinks(parts);
    DropTrailShrinks(DropLead(parts));
  }

  lemma {:induction false} BaseSameIff(scheme: string, host: string, a: seq<string>, b: seq<string>)
    requires Site(scheme, host) && AreSegments(a) && AreSegments(b)
    ensures Base(scheme, host, a) == Base(scheme, host, b) <==> a == b
  {
    if Base(scheme, host, a) == Base(scheme, host, b) {
      PrintIsInjective(Url(scheme, host, Path(a + API)), Url(scheme, host, Path(b + API)));
      PathIsInjective(a, b);
    }
  }

  lemma {:induction false} PathIsInjective(a: seq<string>, b: seq<string>)
    requires AreSegments(a) && AreSegments(b) && Path(a + API) == Path(b + API)
    ensures a == b
  {
    assert Path(a + API)[1..] == Path(b + API)[1..];
    SplitOfJoin(a + API);
    SplitOfJoin(b + API);
    assert |a + API| == |b + API|;
    assert a == (a + API)[..|a|] && b == (b + API)[..|b|];
  }

  /** The segment that follows the first `groups` in the link made for a group. */
  function IdTaken(prefix: seq<string>, id: string): string {
    var parts := Stripped(prefix) + [GROUPS, id];
    var g := GroupsAt(parts, 0);
    if g + 1 < |parts| then parts[g + 1] else id
  }

  lemma {:induction false} IdComesBack(scheme: string, host: string, prefix: seq<string>, id: string)
    requires Site(scheme, host) && AreSegments(prefix)
    requires Segment(id) && Plain(id) && id != ""
    ensures IdOf(WebURL(Base(scheme, host, prefix), id)) == IdTaken(prefix, id)
  {
    WebURLOfBase(scheme, host, prefix, id);
    StrippedIsTight(prefix);
    IdOfLink(scheme, host, Stripped(prefix), id);
  }

  /** Without the empty segments at its ends, the prefix has no segment `groups`, or
      what follows the first one, before the link's own `groups`, is the ID itself. */
  predicate IdSurvives(prefix: seq<string>, id: string) {
    var q := Stripped(prefix);
    var g := GroupsAt(q, 0);
    g == |q| || (q + [GROUPS])[g + 1] == id
  }

  lemma {:induction false} IdTakenIff(prefix: seq<string>, id: string)
    ensures IdTaken(prefix, id) == id <==> IdSurvives(prefix, id)
  {
    var q := Stripped(prefix);
    var parts := q + [GROUPS, id];
    var g := GroupsAt(q, 0);
    GroupsAtMeaning(q, 0);
    assert forall k :: 0 <= k < |q| ==> parts[k] == q[k];
    assert g == |q| ==> parts[g] == GROUPS;
    GroupsAtIs(parts, 0, g);
    assert g < |q| ==> parts[g + 1] == (q + [GROUPS])[g + 1];
  }

  /** The group comes back out of its link if and only if no segment `groups` of the
      base stands before it with another segment after it. As for the base, the segments
      are meant to be of plain characters. */
  lemma {:induction false} IdRoundTripIff(scheme: string, host: string, prefix: seq<string>, id: string)
    requires Site(scheme, host) && AreSegments(prefix)
    requires Segment(id) && Plain(id) && id != ""
    ensures IdOf(WebURL(Base(scheme, host, prefix), id)) == id <==> IdSurvives(prefix, id)
  {
    IdComesBack(scheme, host, prefix, id);
    IdTakenIff(prefix, id);
  }

  lemma {:induction false} TakenBelow(x: string, id: string)
    requires x != ""
    ensures IdTaken([GROUPS, x], id) == x
  {
    TightIsStripped([GROUPS, x]);
    GroupsAtIs([GROUPS, x] + [GROUPS, id], 0, 0);
  }

  /** Below a path such as `groups/x`, every group is taken for the group `x`. */
  lemma {:induction false} GroupsPrefixLosesId(x: string, id: string)
    requires Segment(x) && x != "" && Segment(id) && Plain(id) && id != ""
    ensures IdOf(WebURL(Base("https", "example.com", [GROUPS, x]), id)) == x
  {
    HostWithoutColon("example.com");
    GroupsIsPlain();
    TakenBelow(x, id);
    IdComesBack("https", "example.com", [GROUPS, x], id);
  }

  /** A web link with a segment after its first `groups`, not empty. */
  predicate GroupLink(link: string) {
    && Plain(link)
    && Parse(link).Some? && WebScheme(Parse(link).value.scheme) && Parse(link).value.host != ""
    && var parts := Parts(Parse(link).value);
       var g := GroupsAt(parts, 0);
       g + 1 < |parts| && parts[g + 1] != ""
  }

  predicate PlainParts(parts: seq<string>) {
    forall i :: 0 <= i < |parts| ==> Segment(parts[i]) && Plain(parts[i])
  }

  lemma {:induction false} PlainJoin(parts: seq<string>)
    requires PlainParts(parts)
    ensures Plain(Join(parts))
    decreases |parts|
  {
    if |parts| > 1 {
      PlainJoin(parts[1..]);
    }
  }

  lemma {:induction false} PlainLink(scheme: string, host: string, parts: seq<string>)
    requires WebScheme(scheme) && Plain(host) && PlainParts(parts)
    ensures Plain(Print(Url(scheme, host, Path(parts))))
  {
    PlainJoin(parts);
    assert Plain(scheme) && Plain(":") && Plain("//") && Plain("/");
    assert Plain("/" + Join(parts));
    assert Plain(host + Path(parts));
    assert Plain("//" + (host + Path(parts)));
    assert Plain(scheme + ":");
  }

  lemma {:induction false} StrippedSource(parts: seq<string>)
    requires PlainParts(parts)
    ensures PlainParts(Stripped(parts))
  {
    PlainLead(parts);
    PlainTrail(DropLead(parts));
  }

  lemma {:induction false} PlainLead(parts: seq<string>)
    requires PlainParts(parts)
    ensures PlainParts(DropLead(parts))
    decreases |parts|
  {
    if parts != [] && parts[0] == "" {
      PlainLead(parts[1..]);
    }
  }

  lemma {:induction false} PlainTrail(parts: seq<string>)
    requires PlainParts(parts)
    ensures PlainParts(DropTrail(parts))
    decreases |parts|
  {
    if parts != [] && parts[|parts| - 1] == "" {
      PlainTrail(parts[..|parts| - 1]);
    }
  }

  lemma {:induction false} GroupLinkAsRead(s: string, u: Url)
    requires Plain(s) && Parse(s) == Some(u) && WebScheme(u.scheme) && u.host != ""
    ensures var g := GroupsAt(Parts(u), 0);
      GroupLink(s) <==> g + 1 < |Parts(u)| && Parts(u)[g + 1] != ""
  {
  }

  lemma {:induction false} TightLinkIsGroupLinkIff(scheme: string, host: string, q: seq<string>, id: string)
    requires Site(scheme, host) && Plain(host) && PlainParts(q) && Tight(q)
    requires Segment(id) && Plain(id) && id != ""
    ensures var parts := q + [GROUPS, id];
      && GroupsAt(parts, 0) <= |q|
      && (GroupLink(Link(scheme, host, q, id)) <==> parts[GroupsAt(parts, 0) + 1] != "")
  {
    var parts := q + [GROUPS, id];
    var u := Url(scheme, host, Path(parts));
    GroupsIsPlain();
    PlainLink(scheme, host, parts);
    LinkParts(scheme, host, q, id);
    ReadBack(scheme, host, parts);
    GroupLinkAsRead(Print(u), u);
  }

  /** The link made for a group of a plain base is such a link, unless an empty segment
      follows a `groups` of the base itself. */
  lemma {:induction false} LinkIsGroupLinkIff(scheme: string, host: string, prefix: seq<string>, id: string)
    requires Site(scheme, host) && Plain(host) && PlainParts(prefix)
    requires Segment(id) && Plain(id) && id != ""
    ensures GroupLink(WebURL(Base(scheme, host, prefix), id)) <==> IdTaken(prefix, id) != ""
  {
    WebURLOfBase(scheme, host, prefix, id);
    StrippedIsTight(prefix);
    StrippedSource(prefix);
    TightLinkIsGroupLinkIff(scheme, host, Stripped(prefix), id);
  }

  lemma {:induction false} GroupsIsPlain()
    ensures Segment(GROUPS) && Plain(GROUPS)
  {
  }

  /** What precedes `groups` in a link's path. */
  function PrefixOf(link: string): seq<string>
    requires Parse(link).Some?
  {
    var parts := Parts(Parse(link).value);
    parts[..GroupsAt(parts, 0)]
  }

  function Canonical(link: string): string {
    WebURL(BaseOf(link), IdOf(link))
  }

  lemma {:induction false} PartOfSplit(s: string, parts: seq<string>, k: nat)
    requires k < |parts| && s == Join(parts) && Plain(s)
    ensures Plain(parts[k])
    decreases |parts|
  {
    if |parts| > 1 {
      var rest := Join(parts[1..]);
      assert forall i :: 0 <= i < |rest| ==> rest[i] == s[|parts[0]| + 1 + i];
      assert forall i :: 0 <= i < |parts[0]| ==> parts[0][i] == s[i];
      if k > 0 {
        PartOfSplit(rest, parts[1..], k - 1);
      }
    }
  }

  lemma {:induction false} PathIsPlain(link: string)
    requires Plain(link) && Parse(link).Some?
    ensures Plain(Parse(link).value.path)
  {
  }

  lemma {:induction false} BaseIsTaken(link: string)
    requires GroupLink(link)
    ensures var u := Parse(link).value;
      Web(u) && BaseOf(link) == Base(u.scheme, u.host, PrefixOf(link))
  {
    ParsedIsWeb(link);
    PlainIsTrimmed(link);
    BaseAsRead(link, Parse(link).value);
  }

  lemma {:induction false} IdIsTaken(link: string)
    requires GroupLink(link)
    ensures var u := Parse(link).value;
      IdOf(link) == Parts(u)[GroupsAt(Parts(u), 0) + 1] && IdOf(link) != ""
  {
    HasSlash(link);
    IdAsRead(link, Parse(link).value);
  }

  lemma {:induction false} StartsEmpty(parts: seq<string>)
    ensures |parts| > 1 && parts[0] == "" ==> "/" <= Join(parts)
  {
  }

  lemma {:induction false} PartsArePlain(path: string)
    requires Plain(path)
    ensures var parts := Split(Trim(Slash, path));
      && AreSegments(parts)
      && (forall k :: 0 <= k < |parts| ==> Plain(parts[k]))
      && (|parts| > 1 ==> parts[0] != "")
  {
    var t := Trim(Slash, path);
    var parts := Split(t);
    JoinOfSplit(t);
    forall k | 0 <= k < |parts| ensures Plain(parts[k]) {
      PartOfSplit(t, parts, k);
    }
    var _, _ := TrimSplits(Slash, path);
    StartsEmpty(parts);
  }

  /** What precedes `groups` in a group link, and the ID after it. */
  lemma {:induction false} PartsOfLink(link: string)
    requires GroupLink(link)
    ensures var prefix := PrefixOf(link);
      && AreSegments(prefix) && NoGroups(prefix) && (prefix != [] ==> prefix[0] != "")
      && Segment(IdOf(link)) && Plain(IdOf(link))
  {
    var u := Parse(link).value;
    IdIsTaken(link);
    GroupsAtMeaning(Parts(u), 0);
    PathIsPlain(link);
    PartsArePlain(u.path);
  }

  lemma {:induction false} HasSlash(link: string)
    requires Parse(link).Some? && WebScheme(Parse(link).value.scheme) && Parse(link).value.host != ""
    ensures '/' in link
  {
    ParsedIsWeb(link);
    var i: nat :| i <= |link| && At(link, "://", i);
    assert link[i..i + 3][1] == link[i + 1];
  }

  lemma {:induction false} CanonicalOf(link: string)
    requires GroupLink(link)
    ensures var u := Parse(link).value;
      Canonical(link) == Link(u.scheme, u.host, Stripped(PrefixOf(link)), IdOf(link))
  {
    var u := Parse(link).value;
    BaseIsTaken(link);
    IdIsTaken(link);
    PartsOfLink(link);
    WebURLOfBase(u.scheme, u.host, PrefixOf(link), IdOf(link));
  }

  lemma {:induction false} StrippedHasNoGroups(prefix: seq<string>)
    requires AreSegments(prefix) && NoGroups(prefix) && (prefix != [] ==> prefix[0] != "")
    ensures NoGroups(Stripped(prefix)) && Stripped(prefix) <= prefix
  {
    DropTrailKeeps(prefix);
  }

  /** The canonical form of a link keeps the group, is its own canonical form, and
      keeps the base if and only if the path does not have an empty segment just
      before `groups`. */
  lemma {:induction false} CanonicalLinks(link: string)
    requires GroupLink(link)
    ensures IdOf(Canonical(link)) == IdOf(link)
    ensures Canonical(Canonical(link)) == Canonical(link)
    ensures var prefix := PrefixOf(link);
      BaseOf(Canonical(link)) == BaseOf(link) <==> prefix == [] || prefix[|prefix| - 1] != ""
  {
    var u := Parse(link).value;
    var prefix, id := PrefixOf(link), IdOf(link);
    var q := Stripped(prefix);
    BaseIsTaken(link);
    IdIsTaken(link);
    PartsOfLink(link);
    CanonicalOf(link);
    StrippedHasNoGroups(prefix);
    StrippedIsTight(prefix);
    PlainLinkIsRead(u.scheme, u.host, q, id);
    WebURLOfBase(u.scheme, u.host, q, id);
    TightIsStripped(q);
    TightIsStripped(prefix);
    BaseSameIff(u.scheme, u.host, q, prefix);
  }

  lemma {:induction false} JoinOfGroup(id: string)
    ensures "/" + Join([GROUPS, id]) == "/groups/" + id
  {
    assert [GROUPS, id][1..] == [id];
  }

  /** A link is the group's path below the instance as `HostOf` shows it. */
  lemma {:induction false} LinkNamesHost(base: string, id: string)
    requires TrimSpace(base) == base && id != ""
    requires Parse(base).Some? && Parse(base).value.host != ""
    ensures WebURL(base, id) == Print(Url(Parse(base).value.scheme, HostOf(base), "/groups/" + id))
  {
    var u := Parse(base).value;
    var prefix := Subpath(u.path);
    JoinOfGroup(id);
    if prefix == "" {
      assert [] + [GROUPS, id] == [GROUPS, id];
    } else {
      JoinConcat([prefix], [GROUPS, id]);
      Join5(u.host, "/", prefix, "/", Join([GROUPS, id]));
    }
  }

  // ---------------------------------------------------------------------
  // What is no link

  /** A bare ID is taken as it is, and leads to no instance. */
  lemma {:induction false} BareIdIsKept(id: string)
    requires Segment(id)
    ensures IdOf(id) == id && BaseOf(id) == ""
  {
    var s := TrimSpace(id);
    forall i: nat | i <= |s| ensures !At(s, "://", i) {
      if i + 3 <= |s| {
        assert s[i..i + 3][1] == s[i + 1];
        assert s[i + 1] in id;
      }
    }
  }

  /** A text leads to an instance exactly when it is an http(s) URL with a host and a
      segment `groups`. */
  lemma {:induction false} LeadsToBaseIff(input: string)
    ensures BaseOf(input) != "" <==>
      && Parse(TrimSpace(input)).Some? && Parse(TrimSpace(input)).value.host != ""
      && (Parse(TrimSpace(input)).value.scheme == "http" || Parse(TrimSpace(input)).value.scheme == "https")
      && GROUPS in Parts(Parse(TrimSpace(input)).value)
  {
    var s := TrimSpace(input);
    if Parse(s).Some? && WebScheme(Parse(s).value.scheme) && Parse(s).value.host != "" {
      ParsedIsWeb(s);
      GroupsAtMeaning(Parts(Parse(s).value), 0);
    }
  }

  /** A URL below whose path no segment follows a `groups` is its own ID. */
  lemma {:induction false} NoGroupIsKept(input: string)
    requires Parse(input).Some?
    requires forall i :: 0 <= i && i + 1 < |Parts(Parse(input).value)| ==> Parts(Parse(input).value)[i] != GROUPS
    ensures IdOf(input) == input
  {
    GroupsAtMeaning(Parts(Parse(input).value), 0);
  }
}
