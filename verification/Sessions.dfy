/** Web sessions: a table of rows with an expiry, and a purge of the expired ones
    that nobody can notice. */
module Sessions {
  import opened Wrappers

  type Id = string
  type Sub = string
  type Time = int

  datatype Session = Session(userSub: Sub, expiresAt: Time, createdAt: Time)

  type Table = map<Id, Session>

  /** A row is inserted for an existing user under an unused ID. */
  function Insert(table: Table, users: set<Sub>, id: Id, sub: Sub, now: Time, ttl: Time): Option<Table> {
    if sub in users && id !in table then Some(table[id := Session(sub, now + ttl, now)]) else None
  }

  predicate Live(s: Session, now: Time) {
    s.expiresAt > now
  }

  function Get(table: Table, id: Id, now: Time): Option<Session> {
    if id in table && Live(table[id], now) then Some(table[id]) else None
  }

  function Purged(table: Table, now: Time): Table {
    map id | id in table && Live(table[id], now) :: table[id]
  }

  /** The calls of the session methods, with the time at which each is made. */
  datatype Event =
    | Start(id: Id, sub: Sub, now: Time, ttl: Time)
    | Look(id: Id, now: Time)
    | End(id: Id, now: Time)
    | Purge(now: Time)
    | Join(sub: Sub, now: Time)

  /** Users may join between the calls. */
  function UsersAfter(users: set<Sub>, e: Event): set<Sub> {
    if e.Join? then users + {e.sub} else users
  }

  function AfterEvent(table: Table, users: set<Sub>, e: Event): Table {
    match e
    case Start(id, sub, now, ttl) =>
      (match Insert(table, users, id, sub, now, ttl)
       case None => table
       case Some(t) => t)
    case Look(_, _) => table
    case Join(_, _) => table
    case End(id, _) => table - {id}
    case Purge(now) => Purged(table, now)
  }

  /** The users after the first `n` events. */
  function UsersAt(users: set<Sub>, events: seq<Event>, n: nat): set<Sub>
    requires n <= |events|
  {
    if n == 0 then users else UsersAfter(UsersAt(users, events, n - 1), events[n - 1])
  }

  /** The table after the first `n` events. */
  function TableAt(table: Table, users: set<Sub>, events: seq<Event>, n: nat): Table
    requires n <= |events|
  {
    if n == 0 then table
    else AfterEvent(TableAt(table, users, events, n - 1), UsersAt(users, events, n - 1), events[n - 1])
  }

  /** The table after the same events with every purge left out. */
  function UnpurgedAt(table: Table, users: set<Sub>, events: seq<Event>, n: nat): Table
    requires n <= |events|
  {
    if n == 0 then table
    else if events[n - 1].Purge? then UnpurgedAt(table, users, events, n - 1)
    else AfterEvent(UnpurgedAt(table, users, events, n - 1), UsersAt(users, events, n - 1), events[n - 1])
  }

  /** What the lookups among the first `n` events answer. */
  function Answers(table: Table, users: set<Sub>, events: seq<Event>, n: nat): seq<Option<Session>>
    requires n <= |events|
  {
    if n == 0 then []
    else if events[n - 1].Look? then
      Answers(table, users, events, n - 1)
        + [Get(TableAt(table, users, events, n - 1), events[n - 1].id, events[n - 1].now)]
    else Answers(table, users, events, n - 1)
  }

  function UnpurgedAnswers(table: Table, users: set<Sub>, events: seq<Event>, n: nat): seq<Option<Session>>
    requires n <= |events|
  {
    if n == 0 then []
    else if events[n - 1].Look? then
      UnpurgedAnswers(table, users, events, n - 1)
        + [Get(UnpurgedAt(table, users, events, n - 1), events[n - 1].id, events[n - 1].now)]
    else UnpurgedAnswers(table, users, events, n - 1)
  }

  predicate ClockRuns(events: seq<Event>) {
    forall i, j :: 0 <= i < j < |events| ==> events[i].now <= events[j].now
  }

  /** New sessions get IDs never used before. */
  predicate FreshIds(table: Table, events: seq<Event>) {
    && (forall j :: 0 <= j < |events| && events[j].Start? ==> events[j].id !in table)
    && forall j, k :: 0 <= j < k < |events| && events[j].Start? && events[k].Start? ==> events[j].id != events[k].id
  }

  /** The purged table lacks only rows that had expired by `t`. */
  predicate Simulates(full: Table, purged: Table, t: Time) {
    && (forall id :: id in purged ==> id in full && full[id] == purged[id])
    && forall id :: id in full && id !in purged ==> full[id].expiresAt <= t
  }

  lemma {:induction false} SameAnswer(full: Table, purged: Table, t: Time, id: Id, now: Time)
    requires Simulates(full, purged, t) && t <= now
    ensures Get(full, id, now) == Get(purged, id, now)
  {
  }

  lemma {:induction false} StepSimulates(full: Table, purged: Table, users: set<Sub>, t: Time, e: Event)
    requires Simulates(full, purged, t) && t <= e.now
    requires e.Start? ==> e.id !in full
    ensures Simulates(if e.Purge? then full else AfterEvent(full, users, e), AfterEvent(purged, users, e), e.now)
  {
  }

  /** An ID is in the table only if it was there or a session was started under it. */
  lemma {:induction false} IdsStarted(table: Table, users: set<Sub>, events: seq<Event>, n: nat, id: Id)
    requires n <= |events| && id !in table
    requires forall j :: 0 <= j < n && events[j].Start? ==> events[j].id != id
    ensures id !in UnpurgedAt(table, users, events, n)
  {
    if n > 0 {
      IdsStarted(table, users, events, n - 1, id);
    }
  }

  lemma {:induction false} RunsSimulate(table: Table, users: set<Sub>, events: seq<Event>, n: nat) returns (t: Time)
    requires n <= |events| && ClockRuns(events) && FreshIds(table, events)
    ensures Simulates(UnpurgedAt(table, users, events, n), TableAt(table, users, events, n), t)
    ensures forall j :: n <= j < |events| ==> t <= events[j].now
  {
    if n == 0 {
      t := if events == [] then 0 else events[0].now;
    } else {
      var before := RunsSimulate(table, users, events, n - 1);
      var e := events[n - 1];
      if e.Start? {
        IdsStarted(table, users, events, n - 1, e.id);
      }
      StepSimulates(UnpurgedAt(table, users, events, n - 1), TableAt(table, users, events, n - 1),
                    UsersAt(users, events, n - 1), before, e);
      t := e.now;
    }
  }

  lemma {:induction false} AnswersAgree(table: Table, users: set<Sub>, events: seq<Event>, n: nat)
    requires n <= |events| && ClockRuns(events) && FreshIds(table, events)
    ensures Answers(table, users, events, n) == UnpurgedAnswers(table, users, events, n)
  {
    if n > 0 {
      AnswersAgree(table, users, events, n - 1);
      var t := RunsSimulate(table, users, events, n - 1);
      if events[n - 1].Look? {
        SameAnswer(UnpurgedAt(table, users, events, n - 1), TableAt(table, users, events, n - 1), t,
                   events[n - 1].id, events[n - 1].now);
      }
    }
  }

  /** Purging at any points of a run changes no answer. */
  lemma {:induction false} PurgingIsUnobservable(table: Table, users: set<Sub>, events: seq<Event>)
    requires ClockRuns(events) && FreshIds(table, events)
    ensures Answers(table, users, events, |events|) == UnpurgedAnswers(table, users, events, |events|)
  {
    AnswersAgree(table, users, events, |events|);
  }

  // ---------------------------------------------------------------------
  // How long a session lasts

  /** Events between `a` and `n` leave the session of this ID alone, but for purges. */
  predicate LeftAlone(events: seq<Event>, id: Id, a: nat, n: nat)
    requires n <= |events|
  {
    forall i :: a < i < n ==> !(events[i].End? && events[i].id == id) && !(events[i].Start? && events[i].id == id)
  }

  lemma {:induction false} HeldOrExpired(table: Table, users: set<Sub>, events: seq<Event>, a: nat, n: nat, s: Session)
    requires a < n <= |events| && events[a].Start? && ClockRuns(events) && LeftAlone(events, events[a].id, a, n)
    requires var started := TableAt(table, users, events, a + 1); events[a].id in started && started[events[a].id] == s
    ensures var held := TableAt(table, users, events, n); var id := events[a].id;
      if id in held then held[id] == s else s.expiresAt <= events[n - 1].now
    decreases n
  {
    if a + 1 < n {
      HeldOrExpired(table, users, events, a, n - 1, s);
    }
  }

  /** A session of a known user, started under a fresh ID and not ended, is found exactly
      until its time is over. */
  lemma {:induction false} FoundUntilExpiry(
    table: Table, users: set<Sub>, events: seq<Event>, a: nat, n: nat, now: Time)
    requires a < n <= |events| && events[a].Start? && ClockRuns(events) && LeftAlone(events, events[a].id, a, n)
    requires events[a].sub in UsersAt(users, events, a) && events[a].id !in TableAt(table, users, events, a)
    requires events[n - 1].now <= now
    ensures var start := events[a];
      Get(TableAt(table, users, events, n), start.id, now)
        == if now < start.now + start.ttl then Some(Session(start.sub, start.now + start.ttl, start.now)) else None
  {
    var start := events[a];
    HeldOrExpired(table, users, events, a, n, Session(start.sub, start.now + start.ttl, start.now));
  }

  /** A session that was ended is not found any more. */
  lemma {:induction false} EndedIsGone(table: Table, users: set<Sub>, events: seq<Event>, a: nat, n: nat, now: Time)
    requires a < n <= |events| && events[a].End?
    requires forall i :: a < i < n && events[i].Start? ==> events[i].id != events[a].id
    ensures Get(TableAt(table, users, events, n), events[a].id, now) == None
    ensures events[a].id !in TableAt(table, users, events, n)
    decreases n
  {
    if a + 1 < n {
      EndedIsGone(table, users, events, a, n - 1, now);
    }
  }
}
