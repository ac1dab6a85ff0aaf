/** The cache of verified tokens: short-lived, bounded, and never more trusting
    than the verifier behind it. Tokens stand for their SHA-256 hashes, taken to be
    different for different tokens. Times are nanoseconds. */
module TokenCaches {
  import opened Wrappers

  type Token = string
  type Time = int

  const TTL: Time := 300_000_000_000
  const BOUND: nat := 1024

  /** What a verification yields. A zero expiration is no expiration. */
  datatype Info = Info(user: string, scopes: seq<string>, expiration: Option<Time>)

  datatype Entry = Entry(info: Info, expires: Time)

  type Entries = map<Token, Entry>

  /** When an info put at `now` stops being trusted. */
  function Expiry(info: Info, now: Time): Time {
    if info.expiration.Some? && info.expiration.value < now + TTL then info.expiration.value else now + TTL
  }

  predicate Stale(e: Entry, now: Time) {
    now > e.expires
  }

  function Lookup(entries: Entries, token: Token, now: Time): Option<Info> {
    if token in entries && !Stale(entries[token], now) then Some(entries[token].info) else None
  }

  /** The entries after a lookup: a stale one is dropped on the way. */
  function AfterGet(entries: Entries, token: Token, now: Time): Entries {
    if token in entries && Stale(entries[token], now) then entries - {token} else entries
  }

  function Swept(entries: Entries, now: Time): Entries {
    map token | token in entries && !Stale(entries[token], now) :: entries[token]
  }

  function Bounded(entries: Entries, now: Time): Entries {
    if |entries| <= BOUND then entries
    else if |Swept(entries, now)| <= BOUND then Swept(entries, now)
    else map[]
  }

  /** One call of `put` reads the clock up to three times. */
  datatype Clock = Clock(stamp: Time, check: Time, sweep: Time)

  predicate Accepted(info: Info, clock: Clock) {
    clock.check < Expiry(info, clock.stamp)
  }

  function AfterPut(entries: Entries, token: Token, info: Info, clock: Clock): Entries {
    if !Accepted(info, clock) then entries
    else Bounded(entries, clock.sweep)[token := Entry(info, Expiry(info, clock.stamp))]
  }

  class VerifyCache {
    var entries: Entries

    constructor ()
      ensures entries == map[]
    {
      entries := map[];
    }

    /** `get` */
    method Get(token: Token, now: Time) returns (info: Option<Info>)
      modifies this
      ensures info == Lookup(old(entries), token, now)
      ensures entries == AfterGet(old(entries), token, now)
    {
      if token !in entries {
        return None;
      }
      if now > entries[token].expires {
        entries := entries - {token};
        return None;
      }
      return Some(entries[token].info);
    }

    method Sweep(now: Time)
      modifies this
      ensures entries == Swept(old(entries), now)
    {
      var tokens := entries.Keys;
      while tokens != {}
        invariant tokens <= old(entries).Keys
        invariant entries == map token | token in old(entries)
          && (token in tokens || !Stale(old(entries)[token], now)) :: old(entries)[token]
      {
        var token :| token in tokens;
        if now > entries[token].expires {
          entries := entries - {token};
        }
        tokens := tokens - {token};
      }
    }

    /** `put` */
    method Put(token: Token, info: Info, clock: Clock)
      modifies this
      ensures entries == AfterPut(old(entries), token, info, clock)
    {
      var expires := clock.stamp + TTL;
      if info.expiration.Some? && info.expiration.value < expires {
        expires := info.expiration.value;
      }
      if !(clock.check < expires) {
        return;
      }
      if |entries| > BOUND {
        Sweep(clock.sweep);
        if |entries| > BOUND {
          entries := map[];
        }
      }
      entries := entries[token := Entry(info, expires)];
    }

    /** `TokenVerifier`: `verdict` is what the slow verification says if it has to
        be asked. */
    method Verify(call: Call) returns (r: Result<Info, Rejection>)
      modifies this
      ensures r == Reply(old(entries), call)
      ensures entries == AfterCall(old(entries), call)
    {
      var known := Get(call.token, call.now);
      if known.Some? {
        return Ok(known.value);
      }
      if call.verdict.Ok? {
        Put(call.token, call.verdict.value, call.clock);
      }
      return call.verdict;
    }
  }

  // ---------------------------------------------------------------------
  // The bound

  const FIVE_MINUTES: Time := 5 * 60 * 1_000_000_000

  lemma {:induction false} UpdateSize<K, V>(m: map<K, V>, k: K, v: V)
    ensures |m[k := v]| <= |m| + 1
  {
    assert m[k := v].Keys == m.Keys + {k};
    if k !in m {
      assert |m.Keys + {k}| == |m.Keys| + 1;
    } else {
      assert m.Keys + {k} == m.Keys;
    }
  }

  /** However many tokens arrive, no more than 1025 entries are held. */
  lemma {:induction false} PutStaysBounded(entries: Entries, token: Token, info: Info, clock: Clock)
    requires |entries| <= 1025
    ensures |AfterPut(entries, token, info, clock)| <= 1025
  {
    var room := Bounded(entries, clock.sweep);
    UpdateSize(room, token, Entry(info, Expiry(info, clock.stamp)));
  }

  lemma {:induction false} GetStaysBounded(entries: Entries, token: Token, now: Time)
    ensures |AfterGet(entries, token, now)| <= |entries|
  {
    assert (entries - {token}).Keys == entries.Keys - {token};
    assert token in entries ==> |entries.Keys - {token}| == |entries.Keys| - 1;
  }

  // ---------------------------------------------------------------------
  // Any run of gets and puts

  datatype Event = GetEvent(token: Token, now: Time) | PutEvent(token: Token, info: Info, clock: Clock)

  function AfterEvent(entries: Entries, e: Event): Entries {
    match e
    case GetEvent(token, now) => AfterGet(entries, token, now)
    case PutEvent(token, info, clock) => AfterPut(entries, token, info, clock)
  }

  /** The cache after the first `n` events, however they interleave. */
  function After(events: seq<Event>, n: nat): Entries
    requires n <= |events|
  {
    if n == 0 then map[] else AfterEvent(After(events, n - 1), events[n - 1])
  }

  /** Event `j` is an accepted put of this token, and the last one before `n`. */
  ghost predicate LastPut(events: seq<Event>, token: Token, n: nat, j: nat)
    requires n <= |events|
  {
    && j < n && IsPutOf(events[j], token)
    && forall i :: j < i < n ==> !IsPutOf(events[i], token)
  }

  predicate IsPutOf(e: Event, token: Token) {
    e.PutEvent? && e.token == token && Accepted(e.info, e.clock)
  }

  lemma {:induction false} RunStaysBounded(events: seq<Event>, n: nat)
    requires n <= |events|
    ensures |After(events, n)| <= 1025
  {
    if n > 0 {
      RunStaysBounded(events, n - 1);
      match events[n - 1]
      case GetEvent(token, now) => GetStaysBounded(After(events, n - 1), token, now);
      case PutEvent(token, info, clock) => PutStaysBounded(After(events, n - 1), token, info, clock);
    }
  }

  /** Whatever is held for a token is what the last accepted put of that token
      stored, through every lazy deletion, sweep and full clear. */
  lemma {:induction false} HeldIsLastPut(events: seq<Event>, n: nat, token: Token) returns (j: nat)
    requires n <= |events| && token in After(events, n)
    ensures LastPut(events, token, n, j)
    ensures After(events, n)[token] == Entry(events[j].info, Expiry(events[j].info, events[j].clock.stamp))
  {
    if IsPutOf(events[n - 1], token) {
      j := n - 1;
    } else {
      j := HeldIsLastPut(events, n - 1, token);
    }
  }

  /** A hit returns the info of the last accepted put of that very token, no later
      than five minutes after it and no later than the token's own expiration. */
  lemma {:induction false} HitMeaning(events: seq<Event>, n: nat, token: Token, now: Time) returns (j: nat)
    requires n <= |events| && Lookup(After(events, n), token, now).Some?
    ensures LastPut(events, token, n, j)
    ensures Lookup(After(events, n), token, now) == Some(events[j].info)
    ensures now <= events[j].clock.stamp + FIVE_MINUTES
    ensures events[j].info.expiration.Some? ==> now <= events[j].info.expiration.value
  {
    j := HeldIsLastPut(events, n, token);
  }

  /** The event is a put that finds the map full of entries that are not stale, and
      clears it. */
  predicate Clears(entries: Entries, e: Event) {
    && e.PutEvent? && Accepted(e.info, e.clock)
    && |entries| > 1024 && |Swept(entries, e.clock.sweep)| > 1024
  }

  /** When the event may drop what is stale. */
  function Reading(e: Event): Time {
    match e
    case GetEvent(_, now) => now
    case PutEvent(_, _, clock) => clock.sweep
  }

  lemma {:induction false} StaysHeld(events: seq<Event>, token: Token, j: nat, n: nat, now: Time)
    requires j < n <= |events| && LastPut(events, token, n, j)
    requires now <= Expiry(events[j].info, events[j].clock.stamp)
    requires forall i :: j < i < n ==> !Clears(After(events, i), events[i]) && Reading(events[i]) <= now
    ensures token in After(events, n)
    ensures After(events, n)[token] == Entry(events[j].info, Expiry(events[j].info, events[j].clock.stamp))
    decreases n
  {
    if j + 1 < n {
      StaysHeld(events, token, j, n - 1, now);
    }
  }

  /** Within five minutes, and the info's own expiration. */
  predicate Fresh(info: Info, put: Time, now: Time) {
    now <= put + FIVE_MINUTES && (info.expiration.Some? ==> now <= info.expiration.value)
  }

  /** An info that is no longer good when it arrives is not stored. */
  lemma {:induction false} AcceptedIff(info: Info, clock: Clock)
    ensures Accepted(info, clock) <==>
      clock.check < clock.stamp + FIVE_MINUTES && (info.expiration.Some? ==> clock.check < info.expiration.value)
  {
  }

  /** As long as the map has not been cleared since, the last accepted put of a token is
      a hit exactly while it is fresh. */
  lemma {:induction false} HitUntilExpiry(events: seq<Event>, token: Token, j: nat, n: nat, now: Time)
    requires n <= |events| && LastPut(events, token, n, j)
    requires forall i :: j < i < n ==> !Clears(After(events, i), events[i]) && Reading(events[i]) <= now
    ensures Lookup(After(events, n), token, now)
         == if Fresh(events[j].info, events[j].clock.stamp, now) then Some(events[j].info) else None
  {
    if now <= Expiry(events[j].info, events[j].clock.stamp) {
      StaysHeld(events, token, j, n, now);
    } else if token in After(events, n) {
      var k := HeldIsLastPut(events, n, token);
      assert k == j;
    }
  }

  // ---------------------------------------------------------------------
  // One call of the token verifier

  datatype Rejection = Rejected(reason: string)

  datatype Call = Call(token: Token, now: Time, verdict: Result<Info, Rejection>, clock: Clock)

  function Reply(entries: Entries, call: Call): Result<Info, Rejection> {
    match Lookup(entries, call.token, call.now)
    case Some(info) => Ok(info)
    case None => call.verdict
  }

  function AfterCall(entries: Entries, call: Call): Entries {
    if Lookup(entries, call.token, call.now).Some? then entries
    else
      var rest := AfterGet(entries, call.token, call.now);
      if call.verdict.Ok? then AfterPut(rest, call.token, call.verdict.value, call.clock) else rest
  }

  /** The call stores what the verifier accepts. */
  predicate Stores(entries: Entries, call: Call) {
    && Lookup(entries, call.token, call.now).None? && call.verdict.Ok?
    && Accepted(call.verdict.value, call.clock)
  }

  /** A call that finds nothing asks the verifier, and what it accepts is a hit for as long
      as it is fresh; what it rejects is not stored. */
  lemma {:induction false} CallMeaning(entries: Entries, call: Call, now: Time)
    ensures Lookup(entries, call.token, call.now).Some? ==>
      Reply(entries, call) == Ok(Lookup(entries, call.token, call.now).value) && AfterCall(entries, call) == entries
    ensures Lookup(entries, call.token, call.now).None? ==> Reply(entries, call) == call.verdict
    ensures Lookup(entries, call.token, call.now).None? && call.verdict.Err? ==>
      AfterCall(entries, call) == entries - {call.token}
    ensures Stores(entries, call) ==>
      Lookup(AfterCall(entries, call), call.token, now)
        == if Fresh(call.verdict.value, call.clock.stamp, now) then Some(call.verdict.value) else None
  {
    if call.token !in entries {
      assert entries - {call.token} == entries;
    }
  }

  // ---------------------------------------------------------------------
  // Interleaved calls

  /** A call of the verifier that is under way: nothing but the cache's own methods
      holds its lock, so others run between the lookup, the slow verification and the
      put. */
  datatype Request = Idle | Asking(token: Token) | Granted(token: Token, info: Info)

  datatype Action =
    | Look(who: nat, token: Token, now: Time)
    | Judge(who: nat, verdict: Result<Info, Rejection>)
    | Keep(who: nat, clock: Clock)

  datatype World = World(entries: Entries, requests: seq<Request>)

  datatype Answer = Answer(token: Token, reply: Result<Info, Rejection>)

  /** The next phase of one request, and what it answers if that ends it. */
  function Act(w: World, a: Action): (World, Option<Answer>) {
    if a.who >= |w.requests| then (w, None)
    else match (a, w.requests[a.who])
      case (Look(p, token, now), Idle) =>
        (match Lookup(w.entries, token, now)
         case Some(info) => (w, Some(Answer(token, Ok(info))))
         case None => (World(AfterGet(w.entries, token, now), w.requests[p := Asking(token)]), None))
      case (Judge(p, verdict), Asking(token)) =>
        (match verdict
         case Err(_) => (World(w.entries, w.requests[p := Idle]), Some(Answer(token, verdict)))
         case Ok(info) => (World(w.entries, w.requests[p := Granted(token, info)]), None))
      case (Keep(p, clock), Granted(token, info)) =>
        (World(AfterPut(w.entries, token, info, clock), w.requests[p := Idle]), Some(Answer(token, Ok(info))))
      case _ => (w, None)
  }

  /** The world after the first `n` actions, from an empty cache and idle requests. */
  function AfterActions(count: nat, actions: seq<Action>, n: nat): World
    requires n <= |actions|
  {
    if n == 0 then World(map[], seq(count, i => Idle))
    else Act(AfterActions(count, actions, n - 1), actions[n - 1]).0
  }

  /** Action `j` is the verifier vouching for this info, asked about this token. */
  predicate Vouched(count: nat, actions: seq<Action>, j: nat, token: Token, info: Info)
    requires j < |actions|
  {
    var w := AfterActions(count, actions, j);
    && actions[j].Judge? && actions[j].verdict == Ok(info)
    && actions[j].who < |w.requests| && w.requests[actions[j].who] == Asking(token)
  }

  lemma {:induction false} GrantedWasVouched(count: nat, actions: seq<Action>, n: nat, who: nat) returns (j: nat)
    requires n <= |actions|
    requires var w := AfterActions(count, actions, n); who < |w.requests| && w.requests[who].Granted?
    ensures var r := AfterActions(count, actions, n).requests[who];
      j < n && Vouched(count, actions, j, r.token, r.info)
  {
    var before, a := AfterActions(count, actions, n - 1), actions[n - 1];
    if a.who == who && a.Judge? && before.requests[who].Asking? {
      j := n - 1;
    } else {
      j := GrantedWasVouched(count, actions, n - 1, who);
    }
  }

  /** The action stores an info for the token. */
  predicate Puts(w: World, a: Action, token: Token) {
    && a.Keep? && a.who < |w.requests| && w.requests[a.who].Granted?
    && w.requests[a.who].token == token && Accepted(w.requests[a.who].info, a.clock)
  }

  /** Action `k` stores this info for this token, and the verifier vouched for it in
      action `j` before. */
  predicate KeptAfter(count: nat, actions: seq<Action>, j: nat, k: nat, token: Token, info: Info)
    requires k < |actions|
  {
    var w := AfterActions(count, actions, k);
    && j < k && Puts(w, actions[k], token) && w.requests[actions[k].who].info == info
    && Vouched(count, actions, j, token, info)
  }

  lemma {:induction false} ActHolds(w: World, a: Action, token: Token)
    requires token in Act(w, a).0.entries
    ensures var held := Act(w, a).0.entries[token];
      if Puts(w, a, token)
      then held == Entry(w.requests[a.who].info, Expiry(w.requests[a.who].info, a.clock.stamp))
      else token in w.entries && held == w.entries[token]
  {
  }

  lemma {:induction false} HeldWasVouched(count: nat, actions: seq<Action>, n: nat, token: Token)
    returns (j: nat, k: nat)
    requires n <= |actions| && token in AfterActions(count, actions, n).entries
    ensures var held := AfterActions(count, actions, n).entries[token];
      && k < n && KeptAfter(count, actions, j, k, token, held.info)
      && held.expires == Expiry(held.info, actions[k].clock.stamp)
  {
    var before, a := AfterActions(count, actions, n - 1), actions[n - 1];
    ActHolds(before, a, token);
    if Puts(before, a, token) {
      j := GrantedWasVouched(count, actions, n - 1, a.who);
      k := n - 1;
    } else {
      j, k := HeldWasVouched(count, actions, n - 1, token);
    }
  }

  /** However the phases of any number of requests interleave, an answered info was
      vouched for by the verifier, asked about that very token: in this request, or
      before the put of that info for that token, at most five minutes ago, and then the
      info's own expiration has not passed. A rejection is the verifier's own. */
  lemma {:induction false} AnswersAreVouched(count: nat, actions: seq<Action>, n: nat) returns (j: nat, k: nat)
    requires n < |actions| && Act(AfterActions(count, actions, n), actions[n]).1.Some?
    ensures var a, answer := actions[n], Act(AfterActions(count, actions, n), actions[n]).1.value;
      match answer.reply
      case Err(_) => a.Judge? && answer.reply == a.verdict
      case Ok(info) =>
        j < n && Vouched(count, actions, j, answer.token, info)
        && (a.Look? ==>
              && k < n && KeptAfter(count, actions, j, k, answer.token, info)
              && a.now <= actions[k].clock.stamp + FIVE_MINUTES
              && (info.expiration.Some? ==> a.now <= info.expiration.value))
  {
    j, k := 0, 0;
    var w, a := AfterActions(count, actions, n), actions[n];
    if a.Look? {
      j, k := HeldWasVouched(count, actions, n, a.token);
    } else if a.Keep? {
      j := GrantedWasVouched(count, actions, n, a.who);
    }
  }

  /** A call of the method is such a request with nothing in between. */
  lemma {:induction false} CallIsPhases(w: World, who: nat, call: Call)
    requires who < |w.requests| && w.requests[who] == Idle
    ensures var (looked, hit) := Act(w, Look(who, call.token, call.now));
      var (judged, refused) := Act(looked, Judge(who, call.verdict));
      var (kept, granted) := Act(judged, Keep(who, call.clock));
      && kept == World(AfterCall(w.entries, call), w.requests)
      && (if hit.Some? then hit else if refused.Some? then refused else granted)
         == Some(Answer(call.token, Reply(w.entries, call)))
  {
  }
}
