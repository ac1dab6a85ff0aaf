/** The store: the methods that read and change the application tables. */
module Stores {
  import opened Wrappers
  import S = Sessions
  import T = Tables
  import opened Tables

  function ClearedOf(default: Option<Id>, id: Id): Option<Id> {
    if default == Some(id) then None else default
  }

  /** What neither a login nor a new display name touches. */
  predicate Kept(before: User, after: User) {
    after.defaultGroup == before.defaultGroup && after.createdAt == before.createdAt
  }

  /** What a change of the default group does not touch. */
  predicate SameIdentity(before: User, after: User) {
    && after.issuer == before.issuer && after.email == before.email
    && after.displayName == before.displayName && after.createdAt == before.createdAt
  }

  /** Another row of the user has the alias, or the same group of the same instance. */
  predicate AnotherClashes(groups: map<Id, Row>, id: Id, row: Row) {
    exists other :: other in groups && other != id && groups[other].userSub == row.userSub
      && (groups[other].alias == row.alias
          || (groups[other].baseUrl == row.baseUrl && groups[other].spliitId == row.spliitId))
  }

  /** A row after an edit: alias, pinned participant, name and currency are the edit's,
      the rest as before. */
  predicate IsEdited(before: Row, edit: Row, now: Time, after: Row) {
    && after.alias == edit.alias && after.groupName == edit.groupName && after.currency == edit.currency
    && after.participantId == edit.participantId && after.participantName == edit.participantName
    && after.userSub == before.userSub && after.baseUrl == before.baseUrl && after.spliitId == before.spliitId
    && after.createdAt == before.createdAt && after.updatedAt == now
  }

  class Store {
    var users: map<Sub, User>
    var groups: map<Id, Row>
    var sessions: S.Table

    function State(): DB
      reads this
    {
      DB(users, groups, sessions)
    }

    constructor ()
      ensures State() == DB(map[], map[], map[])
    {
      users, groups, sessions := map[], map[], map[];
    }

    /** `UpsertUser`: the display name is only set on the first login. */
    method UpsertUser(sub: Sub, issuer: string, email: string, displayName: string, now: Time)
      modifies `users
      ensures State() == T.UpsertUser(old(State()), sub, issuer, email, displayName, now)
      ensures users.Keys == old(users).Keys + {sub}
      ensures forall other :: other in old(users) && other != sub ==> users[other] == old(users)[other]
      ensures users[sub].issuer == issuer && users[sub].email == email && users[sub].updatedAt == now
      ensures sub in old(users) ==>
        Kept(old(users)[sub], users[sub]) && users[sub].displayName == old(users)[sub].displayName
      ensures sub !in old(users) ==>
        users[sub].displayName == displayName && users[sub].defaultGroup == None && users[sub].createdAt == now
    {
      if sub in users {
        users := users[sub := users[sub].(issuer := issuer, email := email, updatedAt := now)];
      } else {
        users := users[sub := User(issuer, email, displayName, None, now, now)];
      }
    }

    /** `SetDisplayName` */
    method SetDisplayName(sub: Sub, displayName: string, now: Time) returns (r: Done)
      modifies `users
      ensures (State(), r) == T.SetDisplayName(old(State()), sub, displayName, now)
      ensures r == if sub in old(users) then Ok(()) else Err(NotFound)
      ensures users.Keys == old(users).Keys
      ensures forall other :: other in old(users) && other != sub ==> users[other] == old(users)[other]
      ensures r.Ok? ==>
        Kept(old(users)[sub], users[sub]) && users[sub].displayName == displayName && users[sub].updatedAt == now
      ensures r.Ok? ==> users[sub].issuer == old(users)[sub].issuer && users[sub].email == old(users)[sub].email
    {
      if sub !in users {
        return Err(NotFound);
      }
      users := users[sub := users[sub].(displayName := displayName, updatedAt := now)];
      r := Ok(());
    }

    /** `SetDefaultGroup` */
    method SetDefaultGroup(sub: Sub, id: Id, now: Time) returns (r: Done)
      modifies `users
      ensures (State(), r) == T.SetDefaultGroup(old(State()), sub, id, now)
      ensures r == if sub in old(users) && (id == "" || (id in groups && groups[id].userSub == sub)) then Ok(())
                   else Err(NotFound)
      ensures users.Keys == old(users).Keys
      ensures forall other :: other in old(users) && other != sub ==> users[other] == old(users)[other]
      ensures r.Ok? ==> users[sub].defaultGroup == (if id == "" then None else Some(id)) && users[sub].updatedAt == now
      ensures r.Ok? ==> SameIdentity(old(users)[sub], users[sub])
    {
      if id == "" {
        if sub !in users {
          return Err(NotFound);
        }
        users := users[sub := users[sub].(defaultGroup := None, updatedAt := now)];
        return Ok(());
      }
      if sub !in users || !(id in groups && groups[id].userSub == sub) {
        return Err(NotFound);
      }
      users := users[sub := users[sub].(defaultGroup := Some(id), updatedAt := now)];
      r := Ok(());
    }

    /** `DefaultGroup`: the group row whose ID and owner match the user's row. */
    method DefaultGroup(sub: Sub) returns (r: Result<Id, StoreError>)
      ensures r == T.DefaultGroup(State(), sub)
    {
      if id :| id in groups && sub in users && users[sub].defaultGroup == Some(id) && groups[id].userSub == sub {
        return Ok(id);
      }
      r := Err(NotFound);
    }

    /** `GetGroup` */
    method GetGroup(sub: Sub, id: Id) returns (r: Result<Row, StoreError>)
      ensures r == T.GetGroup(State(), sub, id)
      ensures r == if id in groups && groups[id].userSub == sub then Ok(groups[id]) else Err(NotFound)
    {
      if id in groups && groups[id].userSub == sub {
        return Ok(groups[id]);
      }
      r := Err(NotFound);
    }

    /** `CreateGroup`: `id` is the fresh UUID. */
    method CreateGroup(id: Id, row: Row, now: Time) returns (r: Done)
      modifies `groups
      ensures (State(), r) == T.CreateGroup(old(State()), id, row, now)
      ensures r == if row.userSub in users && id !in old(groups) && !AnotherClashes(old(groups), id, row) then Ok(())
                   else Err(Conflict)
      ensures groups == if r.Ok? then old(groups)[id := row.(createdAt := now, updatedAt := now)] else old(groups)
    {
      var stamped := row.(createdAt := now, updatedAt := now);
      if id in groups || !Fits(DB(users, groups, sessions), id, stamped) {
        return Err(Conflict);
      }
      groups := groups[id := stamped];
      r := Ok(());
    }

    /** `ResolveGroup` */
    method ResolveGroup(sub: Sub, reference: string) returns (r: Result<Id, StoreError>)
      ensures MayResolve(State(), sub, reference, r)
      ensures match r
        case Err(e) => e == NotFound && forall id :: id in groups && groups[id].userSub == sub ==>
          groups[id].alias != reference && id != reference && groups[id].spliitId != reference
        case Ok(id) =>
          && id in groups && groups[id].userSub == sub
          && (groups[id].alias == reference || id == reference || groups[id].spliitId == reference)
          && (groups[id].alias != reference ==>
                forall other :: other in groups && groups[other].userSub == sub ==> groups[other].alias != reference)
    {
      if id :| id in groups && groups[id].userSub == sub && groups[id].alias == reference {
        return Ok(id);
      }
      if id :| id in groups && groups[id].userSub == sub && (id == reference || groups[id].spliitId == reference) {
        return Ok(id);
      }
      r := Err(NotFound);
    }

    /** `UpdateGroup` */
    method UpdateGroup(id: Id, edit: Row, now: Time) returns (r: Done)
      modifies `groups
      ensures (State(), r) == T.UpdateGroup(old(State()), id, edit, now)
      ensures r == Err(NotFound) <==> !(id in old(groups) && old(groups)[id].userSub == edit.userSub)
      ensures r.Err? ==> groups == old(groups)
      ensures r.Ok? ==> groups.Keys == old(groups).Keys && IsEdited(old(groups)[id], edit, now, groups[id])
      ensures r.Ok? ==> forall other :: other in groups && other != id ==> groups[other] == old(groups)[other]
    {
      if !(id in groups && groups[id].userSub == edit.userSub) {
        return Err(NotFound);
      }
      var row := Edited(groups[id], edit, now);
      if !Fits(DB(users, groups, sessions), id, row) {
        return Err(Conflict);
      }
      groups := groups[id := row];
      r := Ok(());
    }

    /** `DeleteGroup` */
    method DeleteGroup(sub: Sub, id: Id) returns (r: Done)
      modifies `groups, `users
      ensures (State(), r) == T.DeleteGroup(old(State()), sub, id)
      ensures r == if id in old(groups) && old(groups)[id].userSub == sub then Ok(()) else Err(NotFound)
      ensures groups == if r.Ok? then old(groups) - {id} else old(groups)
      ensures users.Keys == old(users).Keys
      ensures r.Err? ==> users == old(users)
      ensures r.Ok? ==> forall u :: u in users ==>
        && SameIdentity(old(users)[u], users[u]) && users[u].updatedAt == old(users)[u].updatedAt
        && users[u].defaultGroup == ClearedOf(old(users)[u].defaultGroup, id)
    {
      if !(id in groups && groups[id].userSub == sub) {
        return Err(NotFound);
      }
      groups := groups - {id};
      users := WithoutDefault(users, id);
      r := Ok(());
    }

    /** `CreateSession` */
    method CreateSession(id: Id, sub: Sub, now: Time, ttl: Time) returns (r: Done)
      modifies `sessions
      ensures (State(), r) == T.CreateSession(old(State()), id, sub, now, ttl)
    {
      if sub !in users || id in sessions {
        return Err(Failed);
      }
      sessions := sessions[id := S.Session(sub, now + ttl, now)];
      r := Ok(());
    }

    /** `GetSession` */
    method GetSession(id: Id, now: Time) returns (r: Option<S.Session>)
      ensures r == S.Get(sessions, id, now)
      ensures r.Some? ==> now < r.value.expiresAt
    {
      if id in sessions && sessions[id].expiresAt > now {
        return Some(sessions[id]);
      }
      r := None;
    }

    /** `DeleteSession` */
    method DeleteSession(id: Id)
      modifies `sessions
      ensures sessions == old(sessions) - {id}
    {
      sessions := sessions - {id};
    }

    /** `DeleteExpiredSessions`, with the number of rows it removes. */
    method DeleteExpiredSessions(now: Time) returns (n: nat)
      modifies `sessions
      ensures sessions == S.Purged(old(sessions), now)
      ensures forall id :: id in sessions <==> id in old(sessions) && now < old(sessions)[id].expiresAt
      ensures forall id :: id in sessions ==> sessions[id] == old(sessions)[id]
      ensures n == |set id | id in old(sessions) && old(sessions)[id].expiresAt <= now|
    {
      var expired := set id | id in sessions && sessions[id].expiresAt <= now;
      n := |expired|;
      sessions := sessions - expired;
    }
  }
}
