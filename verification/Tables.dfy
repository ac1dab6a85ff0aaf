/** The application tables: users, the groups they have registered, and sessions.
    Each statement of a store method is one atomic step; the constraints are those
    of the migrations. */
module Tables {
  import opened Wrappers
  import S = Sessions

  type Sub = S.Sub
  type Id = S.Id
  type Time = S.Time

  datatype User = User(
    issuer: string,
    email: string,
    displayName: string,
    defaultGroup: Option<Id>,
    createdAt: Time,
    updatedAt: Time)

  datatype Row = Row(
    userSub: Sub,
    baseUrl: string,
    spliitId: string,
    alias: string,
    participantId: string,
    participantName: string,
    groupName: string,
    currency: string,
    createdAt: Time,
    updatedAt: Time)

  datatype DB = DB(users: map<Sub, User>, groups: map<Id, Row>, sessions: S.Table)

  datatype StoreError = NotFound | Conflict | Failed

  type Done = Result<(), StoreError>

  /** The two uniqueness constraints of a group row, both scoped to its user. */
  predicate Clash(a: Row, b: Row) {
    a.userSub == b.userSub && ((a.baseUrl == b.baseUrl && a.spliitId == b.spliitId) || a.alias == b.alias)
  }

  /** A row may stand under an ID: its user exists and no other row clashes. */
  predicate Fits(db: DB, id: Id, row: Row) {
    row.userSub in db.users && forall other :: other in db.groups && other != id ==> !Clash(db.groups[other], row)
  }

  predicate Owns(db: DB, sub: Sub, id: Id) {
    id in db.groups && db.groups[id].userSub == sub
  }

  // ---------------------------------------------------------------------
  // Users

  function UpsertUser(db: DB, sub: Sub, issuer: string, email: string, displayName: string, now: Time): DB {
    if sub in db.users
    then db.(users := db.users[sub := db.users[sub].(issuer := issuer, email := email, updatedAt := now)])
    else db.(users := db.users[sub := User(issuer, email, displayName, None, now, now)])
  }

  function SetDisplayName(db: DB, sub: Sub, displayName: string, now: Time): (DB, Done) {
    if sub !in db.users then (db, Err(NotFound))
    else (db.(users := db.users[sub := db.users[sub].(displayName := displayName, updatedAt := now)]), Ok(()))
  }

  /** An empty ID clears the default; any other must be one of the user's own
      groups. */
  function SetDefaultGroup(db: DB, sub: Sub, id: Id, now: Time): (DB, Done) {
    if sub !in db.users || (id != "" && !Owns(db, sub, id)) then (db, Err(NotFound))
    else
      var default := if id == "" then None else Some(id);
      (db.(users := db.users[sub := db.users[sub].(defaultGroup := default, updatedAt := now)]), Ok(()))
  }

  function DefaultGroup(db: DB, sub: Sub): Result<Id, StoreError> {
    if sub in db.users && db.users[sub].defaultGroup.Some? && Owns(db, sub, db.users[sub].defaultGroup.value)
    then Ok(db.users[sub].defaultGroup.value)
    else Err(NotFound)
  }

  // ---------------------------------------------------------------------
  // Groups

  function CreateGroup(db: DB, id: Id, row: Row, now: Time): (DB, Done) {
    var stamped := row.(createdAt := now, updatedAt := now);
    if id in db.groups || !Fits(db, id, stamped) then (db, Err(Conflict))
    else (db.(groups := db.groups[id := stamped]), Ok(()))
  }

  function ListGroups(db: DB, sub: Sub): map<Id, Row> {
    map id | id in db.groups && db.groups[id].userSub == sub :: db.groups[id]
  }

  function GetGroup(db: DB, sub: Sub, id: Id): Result<Row, StoreError> {
    if Owns(db, sub, id) then Ok(db.groups[id]) else Err(NotFound)
  }

  /** A reference names a row by alias, by internal ID or by Spliit ID. */
  predicate Named(db: DB, sub: Sub, reference: string, id: Id) {
    Owns(db, sub, id)
    && (db.groups[id].alias == reference || id == reference || db.groups[id].spliitId == reference)
  }

  predicate AliasOf(db: DB, sub: Sub, reference: string, id: Id) {
    Owns(db, sub, id) && db.groups[id].alias == reference
  }

  /** The answers `ResolveGroup` may give: any of the user's rows so named, but one
      whose alias it is if there is one. */
  ghost predicate MayResolve(db: DB, sub: Sub, reference: string, answer: Result<Id, StoreError>) {
    match answer
    case Err(e) => e == NotFound && forall id :: !Named(db, sub, reference, id)
    case Ok(id) =>
      && Named(db, sub, reference, id)
      && ((exists other :: AliasOf(db, sub, reference, other)) ==> AliasOf(db, sub, reference, id))
  }

  /** What `UpdateGroup` writes into a row. */
  function Edited(row: Row, edit: Row, now: Time): Row {
    row.(alias := edit.alias, participantId := edit.participantId, participantName := edit.participantName,
         groupName := edit.groupName, currency := edit.currency, updatedAt := now)
  }

  function UpdateGroup(db: DB, id: Id, edit: Row, now: Time): (DB, Done) {
    if !Owns(db, edit.userSub, id) then (db, Err(NotFound))
    else
      var row := Edited(db.groups[id], edit, now);
      if !Fits(db, id, row) then (db, Err(Conflict))
      else (db.(groups := db.groups[id := row]), Ok(()))
  }

  /** `ON DELETE SET NULL`: whoever had the group as default has none. */
  function WithoutDefault(users: map<Sub, User>, id: Id): map<Sub, User> {
    map sub | sub in users ::
      if users[sub].defaultGroup == Some(id) then users[sub].(defaultGroup := None) else users[sub]
  }

  function DeleteGroup(db: DB, sub: Sub, id: Id): (DB, Done) {
    if !Owns(db, sub, id) then (db, Err(NotFound))
    else (db.(groups := db.groups - {id}, users := WithoutDefault(db.users, id)), Ok(()))
  }

  // ---------------------------------------------------------------------
  // Sessions

  function CreateSession(db: DB, id: Id, sub: Sub, now: Time, ttl: Time): (DB, Done) {
    match S.Insert(db.sessions, db.users.Keys, id, sub, now, ttl)
    case None => (db, Err(Failed))
    case Some(sessions) => (db.(sessions := sessions), Ok(()))
  }
}
