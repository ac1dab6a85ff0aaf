/** The config page's side of groups: the participant list of a brand new group,
    and the guess at which participant of an existing one is the caller. */
module NewGroups {
  import opened Wrappers
  import opened Text
  import opened Spliit

  /** Lower-casing is character by character, by a table of its own. */
  type Lowering = map<char, char>

  function Lower(low: Lowering, s: string): string {
    Fold(low, s)
  }

  datatype FormError = NameTooShort(name: string) | GroupNameTooShort

  datatype NewGroup = NewGroup(name: string, currency: string, participants: seq<string>)

  /** The bytes of a character in UTF-8. */
  function CharBytes(c: char): nat {
    if c < '\U{80}' then 1 else if c < '\U{800}' then 2 else if c < '\U{10000}' then 3 else 4
  }

  /** The bytes of the first `k` characters, which is what `len` counts. */
  function Bytes(s: string, k: nat): nat
    requires k <= |s|
  {
    if k == 0 then 0 else Bytes(s, k - 1) + CharBytes(s[k - 1])
  }

  predicate TooShort(s: string) {
    Bytes(s, |s|) < 2
  }

  /** One of the first `k` names has this lower-cased key. */
  predicate Seen(low: Lowering, names: seq<string>, key: string, k: nat)
    requires k <= |names|
  {
    k > 0 && (Lower(low, names[k - 1]) == key || Seen(low, names, key, k - 1))
  }

  /** The caller followed by the first `k` others that are not blank and whose key
      has not come before. */
  function Dedupe(low: Lowering, you: string, others: seq<string>, k: nat): (names: seq<string>)
    requires k <= |others|
    ensures names != [] && names[0] == you
  {
    if k == 0 then [you]
    else
      var names := Dedupe(low, you, others, k - 1);
      var other := TrimSpace(others[k - 1]);
      if other == "" || Seen(low, names, Lower(low, other), |names|) then names else names + [other]
  }

  function FirstTooShort(names: seq<string>, i: nat): Option<string>
    requires i <= |names|
    decreases |names| - i
  {
    if i == |names| then None
    else if TooShort(names[i]) then Some(names[i])
    else FirstTooShort(names, i + 1)
  }

  function FormFor(low: Lowering, name: string, currency: string, you: string, others: seq<string>)
    : Result<NewGroup, FormError>
  {
    var names := Dedupe(low, you, others, |others|);
    match FirstTooShort(names, 0)
    case Some(short) => Err(NameTooShort(short))
    case None =>
      if TooShort(name) then Err(GroupNameTooShort)
      else Ok(NewGroup(name, if Blank(currency) then "USD" else TrimSpace(currency), names))
  }

  lemma {:induction false} SeenMeaning(low: Lowering, names: seq<string>, key: string, k: nat)
    requires k <= |names|
    ensures Seen(low, names, key, k) <==> exists i :: 0 <= i < k && Lower(low, names[i]) == key
  {
    if k > 0 {
      SeenMeaning(low, names, key, k - 1);
      assert Lower(low, names[k - 1]) == key ==> exists i :: 0 <= i < k && Lower(low, names[i]) == key;
    }
  }

  /** The keys the map of the code holds are those of the names so far. */
  ghost predicate KeysOf(low: Lowering, names: seq<string>, seen: set<string>) {
    forall key :: key in seen <==> Seen(low, names, key, |names|)
  }

  lemma {:induction false} SeenPrefix(low: Lowering, names: seq<string>, longer: seq<string>, key: string, k: nat)
    requires k <= |names| && names <= longer
    ensures Seen(low, longer, key, k) == Seen(low, names, key, k)
  {
    if k > 0 {
      SeenPrefix(low, names, longer, key, k - 1);
    }
  }

  lemma {:induction false} KeysGrow(low: Lowering, names: seq<string>, seen: set<string>, name: string)
    requires KeysOf(low, names, seen)
    ensures KeysOf(low, names + [name], seen + {Lower(low, name)})
  {
    forall key ensures key in seen + {Lower(low, name)} <==> Seen(low, names + [name], key, |names| + 1) {
      SeenPrefix(low, names, names + [name], key, |names|);
    }
  }

  /** The first loop of `buildGroupForm`, with its map of keys already seen. */
  method Collect(low: Lowering, you: string, others: seq<string>) returns (names: seq<string>)
    ensures names == Dedupe(low, you, others, |others|)
  {
    names := [you];
    var seen := {Lower(low, you)};
    for k := 0 to |others|
      invariant names == Dedupe(low, you, others, k)
      invariant KeysOf(low, names, seen)
    {
      var other := TrimSpace(others[k]);
      if other == "" || Lower(low, other) in seen {
        continue;
      }
      KeysGrow(low, names, seen, other);
      seen := seen + {Lower(low, other)};
      names := names + [other];
    }
  }

  /** `buildGroupForm` of the config page. */
  method BuildGroupForm(low: Lowering, name: string, currency: string, you: string, others: seq<string>)
    returns (r: Result<NewGroup, FormError>)
    ensures r == FormFor(low, name, currency, you, others)
  {
    var names := Collect(low, you, others);
    for i := 0 to |names|
      invariant FirstTooShort(names, 0) == FirstTooShort(names, i)
    {
      if TooShort(names[i]) {
        return Err(NameTooShort(names[i]));
      }
    }
    if TooShort(name) {
      return Err(GroupNameTooShort);
    }
    r := Ok(NewGroup(name, if Blank(currency) then "USD" else TrimSpace(currency), names));
  }

  // ---------------------------------------------------------------------
  // What the form is

  /** Less than two bytes: nothing, or one ASCII character. */
  predicate IsShort(s: string) {
    s == "" || (|s| == 1 && s[0] < '\U{80}')
  }

  lemma {:induction false} BytesAtLeast(s: string, k: nat)
    requires k <= |s|
    ensures Bytes(s, k) >= k
  {
    if k > 0 {
      BytesAtLeast(s, k - 1);
    }
  }

  lemma {:induction false} TooShortMeaning(s: string)
    ensures TooShort(s) <==> IsShort(s)
  {
    BytesAtLeast(s, |s|);
    if |s| == 1 {
      assert Bytes(s, 1) == Bytes(s, 0) + CharBytes(s[0]);
    }
  }

  lemma {:induction false} FirstTooShortMeaning(names: seq<string>, i: nat) returns (at: nat)
    requires i <= |names|
    ensures i <= at <= |names| && forall j :: i <= j < at ==> !IsShort(names[j])
    ensures FirstTooShort(names, i) == if at < |names| then Some(names[at]) else None
    ensures at < |names| ==> IsShort(names[at])
    decreases |names| - i
  {
    at := i;
    if i < |names| {
      TooShortMeaning(names[i]);
      if !TooShort(names[i]) {
        at := FirstTooShortMeaning(names, i + 1);
      }
    }
  }

  predicate Sends(f: NewGroup, name: string, currency: string, names: seq<string>) {
    && f.participants == names && f.name == name
    && f.currency == (if TrimSpace(currency) == "" then "USD" else TrimSpace(currency))
  }

  /** The form is refused for the first name on the list that is too short, then for a
      group name that is; otherwise it holds the list, the group's name as given, and the
      trimmed currency, "USD" where none is given. */
  lemma {:induction false} FormMeaning(
    low: Lowering, name: string, currency: string, you: string, others: seq<string>) returns (at: nat)
    ensures var names, r := Dedupe(low, you, others, |others|), FormFor(low, name, currency, you, others);
      && at <= |names| && (forall j :: 0 <= j < at ==> !IsShort(names[j]))
      && (at < |names| ==> IsShort(names[at]) && r == Err(NameTooShort(names[at])))
      && (at == |names| && IsShort(name) ==> r == Err(GroupNameTooShort))
      && (at == |names| && !IsShort(name) ==> r.Ok? && Sends(r.value, name, currency, names))
  {
    at := FirstTooShortMeaning(Dedupe(low, you, others, |others|), 0);
    TooShortMeaning(name);
  }

  // ---------------------------------------------------------------------
  // What the list is

  predicate KeysDiffer(low: Lowering, names: seq<string>) {
    forall i, j :: 0 <= i < j < |names| ==> Lower(low, names[i]) != Lower(low, names[j])
  }

  lemma {:induction false} DedupeKeysDiffer(low: Lowering, you: string, others: seq<string>, k: nat)
    requires k <= |others|
    ensures KeysDiffer(low, Dedupe(low, you, others, k))
  {
    if k > 0 {
      DedupeKeysDiffer(low, you, others, k - 1);
      var names := Dedupe(low, you, others, k - 1);
      SeenMeaning(low, names, Lower(low, TrimSpace(others[k - 1])), |names|);
    }
  }

  lemma {:induction false} DedupeGrows(low: Lowering, you: string, others: seq<string>, j: nat, k: nat)
    requires j <= k <= |others|
    ensures Dedupe(low, you, others, j) <= Dedupe(low, you, others, k)
  {
    if j < k {
      DedupeGrows(low, you, others, j, k - 1);
    }
  }

  /** Every requested name that is not blank is represented. */
  lemma {:induction false} EveryoneRepresented(low: Lowering, you: string, others: seq<string>, j: nat)
    requires j < |others| && !Blank(others[j])
    ensures var names := Dedupe(low, you, others, |others|);
      exists i :: 0 <= i < |names| && Lower(low, names[i]) == Lower(low, TrimSpace(others[j]))
  {
    var names, now := Dedupe(low, you, others, |others|), Dedupe(low, you, others, j + 1);
    DedupeGrows(low, you, others, j + 1, |others|);
    var before := Dedupe(low, you, others, j);
    SeenMeaning(low, before, Lower(low, TrimSpace(others[j])), |before|);
    var i :| 0 <= i < |now| && Lower(low, now[i]) == Lower(low, TrimSpace(others[j]));
    assert names[i] == now[i];
  }

  /** `pos` says which request each name after the caller's is: they are, in order, all
      requests that are the first with their key, one the caller's does not cover. */
  ghost predicate FirstOccurrences(
    low: Lowering, you: string, others: seq<string>, k: nat, names: seq<string>, pos: seq<nat>)
    requires k <= |others|
  {
    && |names| == |pos| + 1 && names[0] == you
    && (forall i, j :: 0 <= i < j < |pos| ==> pos[i] < pos[j])
    && (forall i :: 0 <= i < |pos| ==> pos[i] < k && names[i + 1] == TrimSpace(others[pos[i]]))
    && forall at: nat :: at < k ==> (at in pos <==> FirstWithKey(low, you, others, at))
  }

  predicate FirstWithKey(low: Lowering, you: string, others: seq<string>, at: nat)
    requires at < |others|
  {
    && !Blank(others[at])
    && Lower(low, you) != Lower(low, TrimSpace(others[at]))
    && forall j :: 0 <= j < at && !Blank(others[j]) ==>
         Lower(low, TrimSpace(others[j])) != Lower(low, TrimSpace(others[at]))
  }

  /** One of the first `k` requests has this key. */
  predicate Asked(low: Lowering, others: seq<string>, key: string, k: nat)
    requires k <= |others|
  {
    k > 0 && ((!Blank(others[k - 1]) && Lower(low, TrimSpace(others[k - 1])) == key) || Asked(low, others, key, k - 1))
  }

  lemma {:induction false} AskedIff(low: Lowering, others: seq<string>, key: string, k: nat)
    requires k <= |others|
    ensures !Asked(low, others, key, k)
       <==> forall j :: 0 <= j < k && !Blank(others[j]) ==> Lower(low, TrimSpace(others[j])) != key
  {
    if k > 0 {
      AskedIff(low, others, key, k - 1);
    }
  }

  lemma {:induction false} SeenIffAsked(low: Lowering, you: string, others: seq<string>, k: nat, key: string)
    requires k <= |others|
    ensures Seen(low, Dedupe(low, you, others, k), key, |Dedupe(low, you, others, k)|)
       <==> Lower(low, you) == key || Asked(low, others, key, k)
  {
    if k > 0 {
      var before := Dedupe(low, you, others, k - 1);
      var other := TrimSpace(others[k - 1]);
      SeenIffAsked(low, you, others, k - 1, key);
      SeenIffAsked(low, you, others, k - 1, Lower(low, other));
      SeenPrefix(low, before, before + [other], key, |before|);
    }
  }

  /** The list is the caller followed by the first occurrences among the trimmed
      others, in the order they were asked for. */
  lemma {:induction false} DedupeIsFirstOccurrences(low: Lowering, you: string, others: seq<string>, k: nat)
    returns (pos: seq<nat>)
    requires k <= |others|
    ensures FirstOccurrences(low, you, others, k, Dedupe(low, you, others, k), pos)
  {
    if k == 0 {
      pos := [];
    } else {
      pos := DedupeIsFirstOccurrences(low, you, others, k - 1);
      DedupeStep(low, you, others, k - 1);
      pos := ExtendFirst(low, you, others, k - 1, Dedupe(low, you, others, k - 1), pos);
    }
  }

  function NewName(low: Lowering, you: string, others: seq<string>, at: nat): seq<string>
    requires at < |others|
  {
    if FirstWithKey(low, you, others, at) then [TrimSpace(others[at])] else []
  }

  lemma {:induction false} ExtendFirst(
    low: Lowering, you: string, others: seq<string>, k: nat, names: seq<string>, pos: seq<nat>)
    returns (next: seq<nat>)
    requires k < |others| && FirstOccurrences(low, you, others, k, names, pos)
    ensures FirstOccurrences(low, you, others, k + 1, names + NewName(low, you, others, k), next)
  {
    next := pos;
    if FirstWithKey(low, you, others, k) {
      OneMoreFirst(low, you, others, k, names, pos);
      next := pos + [k];
    } else {
      NoMoreFirst(low, you, others, k, names, pos);
      assert names + [] == names;
    }
  }

  lemma {:induction false} DedupeStep(low: Lowering, you: string, others: seq<string>, k: nat)
    requires k < |others|
    ensures Dedupe(low, you, others, k + 1) == Dedupe(low, you, others, k) + NewName(low, you, others, k)
  {
    UnseenIffFirst(low, you, others, k);
  }

  lemma {:induction false} NoMoreFirst(
    low: Lowering, you: string, others: seq<string>, k: nat, names: seq<string>, pos: seq<nat>)
    requires k < |others| && FirstOccurrences(low, you, others, k, names, pos) && !FirstWithKey(low, you, others, k)
    ensures FirstOccurrences(low, you, others, k + 1, names, pos)
  {
  }

  lemma {:induction false} OneMoreFirst(
    low: Lowering, you: string, others: seq<string>, k: nat, names: seq<string>, pos: seq<nat>)
    requires k < |others| && FirstOccurrences(low, you, others, k, names, pos) && FirstWithKey(low, you, others, k)
    ensures FirstOccurrences(low, you, others, k + 1, names + [TrimSpace(others[k])], pos + [k])
  {
    var next := pos + [k];
    forall at: nat | at < k + 1 ensures at in next <==> FirstWithKey(low, you, others, at) {
      assert next[|pos|] == k;
      assert at in next <==> at in pos || at == k;
    }
  }

  lemma {:induction false} UnseenIffFirst(low: Lowering, you: string, others: seq<string>, at: nat)
    requires at < |others|
    ensures var names := Dedupe(low, you, others, at);
      !Blank(others[at]) && !Seen(low, names, Lower(low, TrimSpace(others[at])), |names|)
      <==> FirstWithKey(low, you, others, at)
  {
    var key := Lower(low, TrimSpace(others[at]));
    SeenIffAsked(low, you, others, at, key);
    AskedIff(low, others, key, at);
  }

  predicate Clean(names: seq<string>) {
    forall i :: 1 <= i < |names| ==> names[i] != "" && TrimSpace(names[i]) == names[i]
  }

  lemma {:induction false} DedupeClean(low: Lowering, you: string, others: seq<string>, k: nat)
    requires k <= |others|
    ensures Clean(Dedupe(low, you, others, k))
  {
    if k > 0 {
      DedupeClean(low, you, others, k - 1);
      var other := TrimSpace(others[k - 1]);
      assert TrimSpace(other) == other by {
        TrimTwice(White, others[k - 1]);
      }
    }
  }

  lemma {:induction false} DedupeOfClean(low: Lowering, names: seq<string>, k: nat)
    requires k < |names| && KeysDiffer(low, names) && Clean(names)
    ensures Dedupe(low, names[0], names[1..], k) == names[..k + 1]
  {
    if k > 0 {
      DedupeOfClean(low, names, k - 1);
      assert names[1..][k - 1] == names[k];
      SeenMeaning(low, names[..k], Lower(low, names[k]), k);
      assert names[..k + 1] == names[..k] + [names[k]];
    }
  }

  /** Running the list through again, its tail as the others, changes nothing. */
  lemma {:induction false} DedupeTwice(low: Lowering, you: string, others: seq<string>)
    ensures var names := Dedupe(low, you, others, |others|);
      Dedupe(low, you, names[1..], |names| - 1) == names
  {
    var names := Dedupe(low, you, others, |others|);
    DedupeKeysDiffer(low, you, others, |others|);
    DedupeClean(low, you, others, |others|);
    DedupeOfClean(low, names, |names| - 1);
    assert names[..|names|] == names;
  }

  // ---------------------------------------------------------------------
  // The preview's guess

  /** How many of the first `k` participants have the key. */
  function Hits(fold: Folding, roster: Roster, key: string, k: nat): nat
    requires k <= |roster|
  {
    if k == 0 then 0 else Hits(fold, roster, key, k - 1) + if HasName(fold, roster[k - 1], key) then 1 else 0
  }

  /** No hit means no position, one hit exactly one, and more hits two at least. */
  lemma {:induction false} HitsMeaning(fold: Folding, roster: Roster, key: string, k: nat)
    requires k <= |roster|
    ensures Hits(fold, roster, key, k) == 0 <==> forall i :: 0 <= i < k ==> !HasName(fold, roster[i], key)
    ensures Hits(fold, roster, key, k) > 1
       <==> exists i, j :: 0 <= i < j < k && HasName(fold, roster[i], key) && HasName(fold, roster[j], key)
  {
    if k > 0 {
      HitsMeaning(fold, roster, key, k - 1);
    }
  }

  /** The participant at `i` has the key, and no other has. */
  predicate OnlyOneNamed(fold: Folding, roster: Roster, key: string, i: nat)
    requires i < |roster|
  {
    HasName(fold, roster[i], key) && forall j :: 0 <= j < |roster| && j != i ==> !HasName(fold, roster[j], key)
  }

  lemma {:induction false} TwoHits(fold: Folding, roster: Roster, key: string, i: nat, j: nat)
    requires i < |roster| && j < |roster| && i != j && HasName(fold, roster[i], key) && HasName(fold, roster[j], key)
    ensures Hits(fold, roster, key, |roster|) > 1
    decreases i
  {
    HitsMeaning(fold, roster, key, |roster|);
    if j < i {
      TwoHits(fold, roster, key, j, i);
    }
  }

  lemma {:induction false} OneHit(fold: Folding, roster: Roster, key: string, i: nat)
    requires i < |roster| && HasName(fold, roster[i], key) && Hits(fold, roster, key, |roster|) == 1
    ensures OnlyOneNamed(fold, roster, key, i)
  {
    forall j | 0 <= j < |roster| && j != i ensures !HasName(fold, roster[j], key) {
      if HasName(fold, roster[j], key) {
        TwoHits(fold, roster, key, i, j);
      }
    }
  }

  /** The loop of `PreviewGroup`: the caller is suggested exactly when one participant
      and no other has the display name, and the guess is ambiguous when more do. */
  method SuggestCaller(fold: Folding, roster: Roster, displayName: string)
    returns (suggested: string, ambiguous: bool)
    ensures var key := NameKey(fold, displayName);
      && (forall i :: 0 <= i < |roster| && OnlyOneNamed(fold, roster, key, i) ==> suggested == roster[i].value.id)
      && ((forall i :: 0 <= i < |roster| ==> !OnlyOneNamed(fold, roster, key, i)) ==> suggested == "")
      && (ambiguous <==>
            exists i, j :: 0 <= i < j < |roster| && HasName(fold, roster[i], key) && HasName(fold, roster[j], key))
  {
    var key := NameKey(fold, displayName);
    suggested := "";
    var matches := 0;
    for k := 0 to |roster|
      invariant matches == Hits(fold, roster, key, k)
      invariant matches == 0 ==> suggested == ""
      invariant matches == 1 ==>
        exists i :: 0 <= i < k && HasName(fold, roster[i], key) && suggested == roster[i].value.id
    {
      HitsMeaning(fold, roster, key, k);
      if HasName(fold, roster[k], key) {
        suggested := roster[k].value.id;
        matches := matches + 1;
      }
    }
    HitsMeaning(fold, roster, key, |roster|);
    if matches != 1 {
      suggested := "";
    } else {
      ghost var i :| 0 <= i < |roster| && HasName(fold, roster[i], key) && suggested == roster[i].value.id;
      OneHit(fold, roster, key, i);
    }
    ambiguous := matches > 1;
  }
}
