/**
 The tables of the broker database and one function per transaction.

 A row that holds an encrypted cookie list is modelled by the list itself, because opening a
 sealed text under the same associated data gives back what was sealed.
 */
module Tables {
  import opened Cookies

  datatype Reason = Ordinary | Recovery

  datatype Snapshot = Snapshot(
    sha256: Digest, cookies: seq<Cookie>, reason: Reason, capturedAt: int, createdAt: int,
    authExpiresAt: Option<int>, authExpirySource: string)

  datatype Report = Report(kind: string, reportedAt: int, grantId: nat)

  datatype User = User(passwordHash: string, role: string)

  datatype Db = Db(
    revisions: map<(Scope, int), Snapshot>,
    current: map<Scope, int>,
    users: map<string, User>,
    grants: map<(string, Scope), nat>,
    lastGrant: nat,                                  // the AUTOINCREMENT sequence of user_scopes
    reports: map<(Scope, int, string), Report>)

  const EMPTY := Db(map[], map[], map[], map[], 0, map[])

  const RETAINED := 5

  predicate ValidKind(kind: string) {
    kind in ["ok", "authentication_required", "access_denied", "rate_limited", "unknown_failure"]
  }

  predicate ValidRole(role: string) {
    role in ["publisher", "reader", "diagnostics_reader"]
  }

  predicate LowerOrDigit(c: char) {
    'a' <= c <= 'z' || '0' <= c <= '9'
  }

  /** ^[a-z0-9][a-z0-9._-]{0,63}$ */
  predicate ValidProfile(profile: string) {
    && 1 <= |profile| <= 64
    && LowerOrDigit(profile[0])
    && forall i | 1 <= i < |profile| :: LowerOrDigit(profile[i]) || profile[i] in "._-"
  }

  /** ^[A-Za-z0-9][A-Za-z0-9_.@-]{0,63}$ */
  predicate ValidUsername(username: string) {
    && 1 <= |username| <= 64
    && (LowerOrDigit(username[0]) || 'A' <= username[0] <= 'Z')
    && forall i | 1 <= i < |username| ::
         LowerOrDigit(username[i]) || 'A' <= username[i] <= 'Z' || username[i] in "_.@-"
  }

  /** The registry is a fixed table of provider names. */
  predicate ValidScope(scope: Scope) {
    scope.provider in ["youtube", "tiktok", "instagram", "x"] && ValidProfile(scope.profile)
  }

  // ------------------------------------------------------------------ referential integrity

  ghost predicate ForeignKeys(db: Db) {
    && (forall s | s in db.current :: (s, db.current[s]) in db.revisions)
    && (forall g | g in db.grants :: g.0 in db.users)
    && (forall k | k in db.reports :: (k.0, k.1) in db.revisions && k.2 in db.users)
  }

  // ------------------------------------------------------------------ revisions

  /** The revisions of a scope, by primary key. */
  function KeysOf(revisions: map<(Scope, int), Snapshot>, s: Scope): set<(Scope, int)> {
    set k | k in revisions && k.0 == s
  }

  /** ORDER BY revision DESC LIMIT 5: fewer than five revisions are larger. */
  predicate Retained(keys: set<(Scope, int)>, key: (Scope, int)) {
    key in keys && |set k | k in keys && k.1 > key.1| < RETAINED
  }

  /** COALESCE(MAX(revision), 0) */
  ghost predicate IsLatest(keys: set<(Scope, int)>, m: int) {
    && (keys == {} ==> m == 0)
    && (keys != {} ==> exists k :: k in keys && k.1 == m)
    && (forall k | k in keys :: k.1 <= m)
  }

  lemma {:induction false} LatestExists(keys: set<(Scope, int)>) returns (m: int)
    ensures IsLatest(keys, m)
  {
    m := 0;
    if keys != {} {
      var k :| k in keys;
      var rest := LatestExists(keys - {k});
      m := if keys - {k} == {} || k.1 > rest then k.1 else rest;
      assert forall y | y in keys :: y == k || y in keys - {k};
    }
  }

  ghost function Latest(keys: set<(Scope, int)>): (m: int)
    ensures IsLatest(keys, m)
  {
    assert exists m :: IsLatest(keys, m) by { var m := LatestExists(keys); }
    var m :| IsLatest(keys, m); m
  }

  /** The publication repeats the current snapshot and is not a recovery. */
  predicate Repeats(db: Db, s: Scope, snap: Snapshot) {
    && s in db.current
    && (s, db.current[s]) in db.revisions
    && db.revisions[(s, db.current[s])].sha256 == snap.sha256
    && snap.reason != Recovery
  }

  /** The retention delete, without its cascade. */
  function Pruned(revisions: map<(Scope, int), Snapshot>, s: Scope): map<(Scope, int), Snapshot> {
    map k | k in revisions && (k.0 == s ==> Retained(KeysOf(revisions, s), k)) :: revisions[k]
  }

  /** ON DELETE CASCADE from revisions to consumer_reports. */
  function ReportsWithin(reports: map<(Scope, int, string), Report>, revisions: map<(Scope, int), Snapshot>)
    : map<(Scope, int, string), Report>
  {
    map k | k in reports && (k.0, k.1) in revisions :: reports[k]
  }

  ghost function PublishTx(db: Db, s: Scope, snap: Snapshot): Db {
    if Repeats(db, s, snap) then db else
      var revision := Latest(KeysOf(db.revisions, s)) + 1;
      var revisions := Pruned(db.revisions[(s, revision) := snap], s);
      db.(revisions := revisions,
          current := db.current[s := revision],
          reports := ReportsWithin(db.reports, revisions))
  }

  // ------------------------------------------------------------------ users, grants and reports

  /** Inserts the scopes one by one; a repeated scope violates UNIQUE and fails the transaction. */
  function GrantAll(db: Db, user: string, scopes: seq<Scope>): Option<Db>
    decreases |scopes|
  {
    if scopes == [] then Some(db)
    else if (user, scopes[0]) in db.grants then None
    else GrantAll(GrantOne(db, user, scopes[0]), user, scopes[1..])
  }

  function GrantOne(db: Db, user: string, s: Scope): Db {
    db.(grants := db.grants[(user, s) := db.lastGrant + 1], lastGrant := db.lastGrant + 1)
  }

  /** ON DELETE CASCADE from users to user_scopes and consumer_reports. */
  function WithoutUser(db: Db, user: string): Db {
    db.(users := db.users - {user},
        grants := map g | g in db.grants && g.0 != user :: db.grants[g],
        reports := map k | k in db.reports && k.2 != user :: db.reports[k])
  }

  predicate MayReport(db: Db, user: string, s: Scope) {
    user in db.users && db.users[user].role == "reader" && (user, s) in db.grants
  }

  // ------------------------------------------------------------------ requests

  datatype Request =
    | CreateUser(user: string, passwordHash: string, hashDecodes: bool, role: string, scopes: seq<Scope>)
    | DeleteUser(user: string)
    | Grant(user: string, scope: Scope)
    | Revoke(user: string, scope: Scope)
    | Publish(scope: Scope, snapshot: Snapshot)
    | Rollback(scope: Scope, revision: int)
    | Complain(user: string, scope: Scope, revision: int, kind: string, at: int)

  /** The tables after a request, and whether it returned without an error. */
  datatype Step = Step(db: Db, accepted: bool)

  predicate CreatesUser(db: Db, q: Request)
    requires q.CreateUser?
  {
    && ValidUsername(q.user) && ValidRole(q.role) && q.hashDecodes
    && (forall s | s in q.scopes :: ValidScope(s))
    && q.user !in db.users
    && GrantAll(db.(users := db.users[q.user := User(q.passwordHash, q.role)]), q.user, q.scopes).Some?
  }

  ghost function Apply(db: Db, q: Request): Step {
    match q
    case CreateUser(user, passwordHash, _, role, scopes) =>
      if CreatesUser(db, q)
      then Step(GrantAll(db.(users := db.users[user := User(passwordHash, role)]), user, scopes).value, true)
      else Step(db, false)
    case DeleteUser(user) =>
      if user in db.users then Step(WithoutUser(db, user), true) else Step(db, false)
    case Grant(user, s) =>
      if ValidScope(s) && user in db.users && (user, s) !in db.grants
      then Step(GrantOne(db, user, s), true) else Step(db, false)
    case Revoke(user, s) =>
      if ValidScope(s) && (user, s) in db.grants
      then Step(db.(grants := db.grants - {(user, s)}), true) else Step(db, false)
    case Publish(s, snap) =>
      Step(PublishTx(db, s, snap), true)
    case Rollback(s, r) =>
      if s in db.current && (s, r) in db.revisions
      then Step(db.(current := db.current[s := r]), true) else Step(db, false)
    case Complain(user, s, r, kind, at) =>
      if (s, r) in db.revisions && MayReport(db, user, s) && ValidKind(kind)
      then Step(db.(reports := db.reports[(s, r, user) := Report(kind, at, db.grants[(user, s)])]), true)
      else Step(db, false)
  }

  /** The tables after a whole history of requests. */
  ghost function Run(h: seq<Request>): Db {
    if h == [] then EMPTY else Apply(Run(h[..|h|-1]), h[|h|-1]).db
  }

  // ------------------------------------------------------------------ health

  /** The join of enrichStatus: reports on (s, r) by readers, under the grant they hold now. */
  predicate ActiveReport(db: Db, s: Scope, r: int, user: string) {
    && (s, r, user) in db.reports
    && MayReport(db, user, s)
    && db.grants[(user, s)] == db.reports[(s, r, user)].grantId
  }

  function Reporters(db: Db, s: Scope, r: int, kind: string): (us: set<string>)
    ensures forall u :: u in us <==> ActiveReport(db, s, r, u) && db.reports[(s, r, u)].kind == kind
  {
    set k | k in db.reports && k.0 == s && k.1 == r && ActiveReport(db, s, r, k.2)
            && db.reports[k].kind == kind :: k.2
  }

  /** What enrichStatus fills in. */
  datatype Health = Health(authHealth: string, authRequired: nat, counts: map<string, nat>)

  datatype Status =
    | Missing(scope: Scope)
    | Status(scope: Scope, revision: int, snapshot: Snapshot, changed: bool, health: Health)

  function Kinds(db: Db, s: Scope, r: int): set<string> {
    set k | k in db.reports && k.0 == s && k.1 == r && ActiveReport(db, s, r, k.2) :: db.reports[k].kind
  }

  function Counts(db: Db, s: Scope, r: int): (counts: map<string, nat>)
    ensures forall kind :: kind in counts <==> kind in Kinds(db, s, r)
    ensures forall kind | kind in counts :: counts[kind] == |Reporters(db, s, r, kind)|
  {
    map kind | kind in Kinds(db, s, r) :: |Reporters(db, s, r, kind)|
  }

  function HealthOf(db: Db, s: Scope, r: int): Health {
    var required := |Reporters(db, s, r, "authentication_required")|;
    Health(if required > 0 then "refresh_required" else "healthy",
           required, Counts(db, s, r))
  }

  /** The status of a scope as a reader of the tables sees it. */
  function StatusOf(db: Db, s: Scope): Status {
    if s in db.current && (s, db.current[s]) in db.revisions
    then Status(s, db.current[s], db.revisions[(s, db.current[s])], false, HealthOf(db, s, db.current[s]))
    else Missing(s)
  }
}
