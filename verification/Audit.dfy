/**
 The tables agree with the history, over every run.
 */
module Audit {
  import opened Cookies
  import opened Tables
  import opened History

  // ------------------------------------------------------------------ agreement

  /** The kept revisions are the last five publications, and the current one is among them. */
  ghost predicate RevisionsMatch(db: Db, log: Log, s: Scope)
    requires Sound(log)
  {
    && (forall r :: (s, r) in db.revisions <==> InWindow(|log.published|, r))
    && (forall r | (s, r) in db.revisions :: db.revisions[(s, r)] == log.published[r - 1])
    && (s in db.current <==> log.pointer > 0)
    && (s in db.current ==> db.current[s] == log.pointer)
  }

  ghost predicate RevisionsAgree(db: Db, h: seq<Request>, s: Scope) {
    RevisionsMatch(db, LogOf(h, s), s)
  }

  ghost predicate UserAgrees(db: Db, h: seq<Request>, user: string) {
    && (user in db.users <==> RoleOf(h, user).Some?)
    && (user in db.users ==> db.users[user].role == RoleOf(h, user).value)
  }

  ghost predicate GrantAgrees(db: Db, h: seq<Request>, user: string, s: Scope) {
    && ((user, s) in db.grants <==> Holds(h, user, s))
    && ((user, s) in db.grants ==> ValidScope(s) && user in db.users && db.grants[(user, s)] <= db.lastGrant)
  }

  /** A report row was written under a grant already issued, and counts exactly while it stands. */
  ghost predicate ReportAgrees(db: Db, h: seq<Request>, s: Scope, r: int, user: string) {
    && ((s, r, user) in db.reports ==>
          (s, r) in db.revisions && user in db.users && db.reports[(s, r, user)].grantId <= db.lastGrant)
    && ((s, r) in db.revisions ==>
          (ActiveReport(db, s, r, user) <==> Standing(h, user, s, r).Some?))
    && (ActiveReport(db, s, r, user) ==>
          Standing(h, user, s, r) == Some(db.reports[(s, r, user)].kind))
  }

  ghost predicate Agrees(db: Db, h: seq<Request>) {
    && (forall s :: RevisionsAgree(db, h, s))
    && (forall user :: UserAgrees(db, h, user))
    && (forall user, s :: GrantAgrees(db, h, user, s))
    && (forall s, r, user :: ReportAgrees(db, h, s, r, user))
  }

  // ------------------------------------------------------------------ the retention window

  function Span(s: Scope, lo: int, hi: int): (keys: set<(Scope, int)>)
    requires lo <= hi
    ensures forall k :: k in keys <==> k.0 == s && lo <= k.1 < hi
    ensures |keys| == hi - lo
    decreases hi - lo
  {
    if lo == hi then {} else Span(s, lo, hi - 1) + {(s, hi - 1)}
  }

  /** After revision n + 1 joins the window of n, the five retained are the window of n + 1. */
  lemma WindowSlides(keys: set<(Scope, int)>, s: Scope, n: int)
    requires n >= 0
    requires forall k :: k in keys <==> k.0 == s && (InWindow(n, k.1) || k.1 == n + 1)
    ensures forall k :: Retained(keys, k) <==> k.0 == s && InWindow(n + 1, k.1)
  {
    forall k ensures Retained(keys, k) <==> k.0 == s && InWindow(n + 1, k.1) {
      if k in keys {
        assert (set x | x in keys && x.1 > k.1) == Span(s, k.1 + 1, n + 2);
      }
    }
  }

  lemma WindowLatest(db: Db, log: Log, s: Scope)
    requires Sound(log) && RevisionsMatch(db, log, s)
    ensures Latest(KeysOf(db.revisions, s)) == |log.published|
  {
    var n := |log.published|;
    assert forall k :: k in KeysOf(db.revisions, s) <==> k == (s, k.1) && InWindow(n, k.1);
    if n > 0 {
      assert (s, n) in KeysOf(db.revisions, s);
    }
  }

  // ------------------------------------------------------------------ one request at a time

  /** What a publication that adds revision n + 1 does to the revision tables. */
  ghost predicate Added(db: Db, after: Db, n: int, s: Scope, snap: Snapshot) {
    && after.current == db.current[s := n + 1]
    && (forall k :: k in after.revisions <==>
          if k.0 == s then InWindow(n + 1, k.1) else k in db.revisions)
    && (forall k | k in after.revisions && k != (s, n + 1) :: k in db.revisions && after.revisions[k] == db.revisions[k])
    && (s, n + 1) in after.revisions && after.revisions[(s, n + 1)] == snap
  }

  lemma FreshPublication(db: Db, log: Log, s: Scope, snap: Snapshot)
    requires Sound(log) && RevisionsMatch(db, log, s) && !Repeats(db, s, snap)
    ensures Added(db, PublishTx(db, s, snap), |log.published|, s, snap)
  {
    var n := |log.published|;
    WindowLatest(db, log, s);
    var added := db.revisions[(s, n + 1) := snap];
    assert forall k :: k in KeysOf(added, s) <==> k == (s, k.1) && (InWindow(n, k.1) || k.1 == n + 1);
    WindowSlides(KeysOf(added, s), s, n);
  }

  lemma AddedMatches(db: Db, after: Db, log: Log, s: Scope, snap: Snapshot)
    requires Sound(log) && RevisionsMatch(db, log, s) && Added(db, after, |log.published|, s, snap)
    ensures RevisionsMatch(after, Log(log.published + [snap], |log.published| + 1), s)
  {
    var n := |log.published|;
    forall r | (s, r) in after.revisions && r != n + 1
      ensures after.revisions[(s, r)] == (log.published + [snap])[r - 1]
    {
      assert (s, r) in db.revisions;
    }
  }

  lemma AddedElsewhere(db: Db, after: Db, log: Log, n: int, t: Scope, snap: Snapshot, s: Scope)
    requires s != t
    requires Sound(log) && RevisionsMatch(db, log, s) && Added(db, after, n, t, snap)
    ensures RevisionsMatch(after, log, s)
  {
    forall r ensures (s, r) in after.revisions <==> (s, r) in db.revisions {}
  }

  lemma PublishKeepsRevisions(db: Db, log: Log, other: Log, t: Scope, snap: Snapshot, s: Scope)
    requires Sound(log) && RevisionsMatch(db, log, s)
    requires Sound(other) && RevisionsMatch(db, other, t)
    requires s == t ==> log == other
    ensures RevisionsMatch(PublishTx(db, t, snap), Advance(log, Publish(t, snap), s), s)
  {
    if !Repeats(db, t, snap) {
      var after := PublishTx(db, t, snap);
      FreshPublication(db, other, t, snap);
      if s == t {
        AddedMatches(db, after, log, s, snap);
      } else {
        AddedElsewhere(db, after, log, |other.published|, t, snap, s);
      }
    }
  }

  lemma UserRequestKeepsRevisions(db: Db, q: Request)
    requires !q.Publish? && !q.Rollback?
    ensures Apply(db, q).db.revisions == db.revisions && Apply(db, q).db.current == db.current
  {
    if q.CreateUser? && CreatesUser(db, q) {
      GrantAllFrame(db.(users := db.users[q.user := User(q.passwordHash, q.role)]), q.user, q.scopes);
    }
  }

  lemma RollbackKeepsRevisions(db: Db, log: Log, t: Scope, r: int, s: Scope)
    requires Sound(log) && RevisionsMatch(db, log, s)
    ensures RevisionsMatch(Apply(db, Request.Rollback(t, r)).db, Advance(log, Request.Rollback(t, r), s), s)
  {
  }

  lemma RevisionsStep(db: Db, h: seq<Request>, q: Request, s: Scope)
    requires forall t :: RevisionsAgree(db, h, t)
    ensures RevisionsAgree(Apply(db, q).db, h + [q], s)
  {
    LogStep(h, q, s);
    assert RevisionsAgree(db, h, s);
    match q
    case Publish(t, snap) =>
      assert RevisionsAgree(db, h, t);
      PublishKeepsRevisions(db, LogOf(h, s), LogOf(h, t), t, snap, s);
    case Rollback(t, r) => RollbackKeepsRevisions(db, LogOf(h, s), t, r, s);
    case _ => UserRequestKeepsRevisions(db, q);
  }

  /** Granting a list of scopes succeeds exactly when they are new and distinct, and issues fresh ids. */
  lemma {:induction false} GrantAllFrame(db: Db, user: string, scopes: seq<Scope>)
    ensures GrantAll(db, user, scopes).Some?
       <==> Distinct(scopes) && forall s | s in scopes :: (user, s) !in db.grants
    ensures GrantAll(db, user, scopes).Some? ==>
      var after := GrantAll(db, user, scopes).value;
      && after == db.(grants := after.grants, lastGrant := after.lastGrant)
      && after.lastGrant == db.lastGrant + |scopes|
      && (forall g :: g in after.grants <==> g in db.grants || (g.0 == user && g.1 in scopes))
      && (forall g | g in db.grants :: after.grants[g] == db.grants[g])
      && (forall g | g in after.grants && g !in db.grants :: db.lastGrant < after.grants[g] <= after.lastGrant)
    decreases |scopes|
  {
    if scopes != [] {
      var rest := scopes[1..];
      assert scopes == [scopes[0]] + rest;
      DistinctSplits(scopes);
      if (user, scopes[0]) !in db.grants {
        GrantAllFrame(GrantOne(db, user, scopes[0]), user, rest);
      }
    }
  }

  lemma CreatesAgrees(db: Db, h: seq<Request>, q: Request)
    requires q.CreateUser?
    requires UserAgrees(db, h, q.user) && forall s :: GrantAgrees(db, h, q.user, s)
    ensures CreatesUser(db, q) <==> Creates(h, q)
  {
    GrantAllFrame(db.(users := db.users[q.user := User(q.passwordHash, q.role)]), q.user, q.scopes);
    if q.user !in db.users {
      forall s ensures (q.user, s) !in db.grants { assert GrantAgrees(db, h, q.user, s); }
    }
  }

  lemma UserStep(db: Db, h: seq<Request>, q: Request, user: string)
    requires UserAgrees(db, h, user)
    requires forall s :: GrantAgrees(db, h, user, s)
    ensures UserAgrees(Apply(db, q).db, h + [q], user)
  {
    assert (h + [q])[..|h|] == h;
    if q.CreateUser? {
      GrantAllFrame(db.(users := db.users[q.user := User(q.passwordHash, q.role)]), q.user, q.scopes);
      if q.user == user { CreatesAgrees(db, h, q); }
    }
  }

  lemma GrantStep(db: Db, h: seq<Request>, q: Request, user: string, s: Scope)
    requires UserAgrees(db, h, user)
    requires forall t :: GrantAgrees(db, h, user, t)
    ensures GrantAgrees(Apply(db, q).db, h + [q], user, s)
  {
    assert (h + [q])[..|h|] == h;
    assert GrantAgrees(db, h, user, s);
    if q.CreateUser? {
      GrantAllFrame(db.(users := db.users[q.user := User(q.passwordHash, q.role)]), q.user, q.scopes);
      if q.user == user { CreatesAgrees(db, h, q); }
    }
  }

  /** Nobody reports on a revision before it is published. */
  lemma {:induction false} StandingIsPublished(h: seq<Request>, user: string, s: Scope, r: int)
    requires Standing(h, user, s, r).Some?
    ensures 1 <= r <= |LogOf(h, s).published|
    decreases |h|
  {
    var (past, q) := (h[..|h|-1], h[|h|-1]);
    if !ReportsOn(past, q, user, s, r) {
      StandingIsPublished(past, user, s, r);
    }
    assert LogOf(past, s).published <= LogOf(h, s).published;
  }

  lemma AdmitsAgrees(db: Db, h: seq<Request>, q: Request)
    requires q.Complain?
    requires RevisionsAgree(db, h, q.scope) && UserAgrees(db, h, q.user) && GrantAgrees(db, h, q.user, q.scope)
    ensures Apply(db, q).accepted <==> Admits(h, q)
  {
  }

  lemma ReportAfterPublication(db: Db, h: seq<Request>, t: Scope, snap: Snapshot, s: Scope, r: int, user: string)
    requires RevisionsAgree(db, h, s) && RevisionsAgree(db, h, t) && ReportAgrees(db, h, s, r, user)
    ensures ReportAgrees(PublishTx(db, t, snap), h + [Publish(t, snap)], s, r, user)
  {
    assert (h + [Publish(t, snap)])[..|h|] == h;
    if !Repeats(db, t, snap) {
      FreshPublication(db, LogOf(h, t), t, snap);
      AfterAdded(db, PublishTx(db, t, snap), h, h + [Publish(t, snap)], |LogOf(h, t).published|, t, snap, s, r, user);
    }
  }

  lemma AfterAdded(db: Db, after: Db, h: seq<Request>, g: seq<Request>, n: int, t: Scope, snap: Snapshot,
                   s: Scope, r: int, user: string)
    requires Added(db, after, n, t, snap) && n == |LogOf(h, t).published|
    requires after == db.(revisions := after.revisions, current := after.current,
                          reports := ReportsWithin(db.reports, after.revisions))
    requires RevisionsAgree(db, h, t) && ReportAgrees(db, h, s, r, user)
    requires Standing(g, user, s, r) == Standing(h, user, s, r)
    ensures ReportAgrees(after, g, s, r, user)
  {
    if (s, r) == (t, n + 1) && Standing(h, user, s, r).Some? {
      StandingIsPublished(h, user, s, r);
    }
    assert (s, r, user) in after.reports <==> (s, r, user) in db.reports && (s, r) in after.revisions;
    if (s, r) in after.revisions && (s, r) != (t, n + 1) {
      assert (s, r) in db.revisions;
      assert ActiveReport(after, s, r, user) == ActiveReport(db, s, r, user);
    }
  }

  lemma ReportAfterReport(db: Db, h: seq<Request>, q: Request, s: Scope, r: int, user: string)
    requires q.Complain? && ReportAgrees(db, h, s, r, user) && GrantAgrees(db, h, q.user, q.scope)
    requires UserAgrees(db, h, q.user) && RevisionsAgree(db, h, q.scope)
    ensures ReportAgrees(Apply(db, q).db, h + [q], s, r, user)
  {
    assert (h + [q])[..|h|] == h;
    AdmitsAgrees(db, h, q);
  }

  lemma ReportAfterUserChange(db: Db, h: seq<Request>, q: Request, s: Scope, r: int, user: string)
    requires !q.Publish? && !q.Complain?
    requires ReportAgrees(db, h, s, r, user) && GrantAgrees(db, h, user, s)
    ensures ReportAgrees(Apply(db, q).db, h + [q], s, r, user)
  {
    assert (h + [q])[..|h|] == h;
    if q.CreateUser? {
      GrantAllFrame(db.(users := db.users[q.user := User(q.passwordHash, q.role)]), q.user, q.scopes);
    }
  }

  lemma ReportStep(db: Db, h: seq<Request>, q: Request, s: Scope, r: int, user: string)
    requires Agrees(db, h)
    ensures ReportAgrees(Apply(db, q).db, h + [q], s, r, user)
  {
    assert ReportAgrees(db, h, s, r, user) && GrantAgrees(db, h, user, s);
    if q.Publish? {
      assert RevisionsAgree(db, h, s) && RevisionsAgree(db, h, q.scope);
      ReportAfterPublication(db, h, q.scope, q.snapshot, s, r, user);
    } else if q.Complain? {
      assert RevisionsAgree(db, h, q.scope) && UserAgrees(db, h, q.user) && GrantAgrees(db, h, q.user, q.scope);
      ReportAfterReport(db, h, q, s, r, user);
    } else {
      ReportAfterUserChange(db, h, q, s, r, user);
    }
  }

  /** The tables agree with the history after every history. */
  lemma {:induction false} TablesAgree(h: seq<Request>)
    ensures Agrees(Run(h), h)
    decreases |h|
  {
    if h != [] {
      var (past, q) := (h[..|h|-1], h[|h|-1]);
      var db := Run(past);
      assert h == past + [q];
      TablesAgree(past);
      forall s { RevisionsStep(db, past, q, s); }
      forall user { UserStep(db, past, q, user); }
      forall user, s { GrantStep(db, past, q, user, s); }
      forall s, r, user { ReportStep(db, past, q, s, r, user); }
    }
  }

  // ------------------------------------------------------------------ theorems over every history

  /** The status of a scope, as every reader of the tables gets it, is what the history says: missing until
      something is published; then the current revision and its snapshot; and asking for a refresh exactly when
      some reader's latest report on the current revision, under the grant that reader still holds, is
      authentication_required. */
  lemma HealthIsHistory(h: seq<Request>, s: Scope)
    ensures StatusOf(Run(h), s).Missing? <==> LogOf(h, s).pointer == 0
    ensures var status, log := StatusOf(Run(h), s), LogOf(h, s);
            log.pointer > 0 ==>
              && status.revision == log.pointer && status.snapshot == log.published[log.pointer - 1]
              && status.health.authHealth ==
                   if exists user, i :: Stands(h, i, user, s, log.pointer, "authentication_required")
                   then "refresh_required" else "healthy"
  {
    RevisionsHold(h, s);
    if LogOf(h, s).pointer > 0 { ComplaintsAreHistory(h, s, LogOf(h, s).pointer); }
  }

  lemma RevisionsHold(h: seq<Request>, s: Scope)
    ensures RevisionsAgree(Run(h), h, s)
  {
    TablesAgree(h);
  }

  lemma ComplaintsAreHistory(h: seq<Request>, s: Scope, r: int)
    requires InWindow(|LogOf(h, s).published|, r)
    ensures |Reporters(Run(h), s, r, "authentication_required")| > 0 <==>
      exists user, i :: Stands(h, i, user, s, r, "authentication_required")
  {
    var complainers := Reporters(Run(h), s, r, "authentication_required");
    forall user ensures user in complainers <==> exists i :: Stands(h, i, user, s, r, "authentication_required") {
      ReportersAreHistory(h, s, r, user, "authentication_required");
    }
    if complainers != {} {
      var user :| user in complainers;
      var i :| Stands(h, i, user, s, r, "authentication_required");
    }
    if user, i :| Stands(h, i, user, s, r, "authentication_required") {
      assert user in complainers;
    }
  }

  lemma UserHolds(h: seq<Request>, user: string)
    ensures UserAgrees(Run(h), h, user)
  {
    TablesAgree(h);
  }

  lemma GrantHolds(h: seq<Request>, user: string, s: Scope)
    ensures GrantAgrees(Run(h), h, user, s)
  {
    TablesAgree(h);
  }

  /** A request returns without an error exactly when the history allows it, and a refused one changes nothing. */
  lemma AcceptedIsHistory(h: seq<Request>, q: Request)
    ensures Apply(Run(h), q).accepted <==> Accepts(h, q)
    ensures !Accepts(h, q) ==> Apply(Run(h), q).db == Run(h)
  {
    var db := Run(h);
    match q
    case CreateUser(user, _, _, _, _) =>
      UserHolds(h, user);
      forall s { GrantHolds(h, user, s); }
      CreatesAgrees(db, h, q);
    case DeleteUser(user) => UserHolds(h, user);
    case Grant(user, s) =>
      UserHolds(h, user);
      GrantHolds(h, user, s);
    case Revoke(user, s) => GrantHolds(h, user, s);
    case Publish(_, _) =>
    case Rollback(s, r) => RevisionsHold(h, s);
    case Complain(user, s, _, _, _) =>
      RevisionsHold(h, s);
      UserHolds(h, user);
      GrantHolds(h, user, s);
      AdmitsAgrees(db, h, q);
  }

  /** A rollback to a kept revision shows that revision, with the snapshot it was published with, and leaves
      rows, users, grants, reports and every other scope as they were. */
  lemma RollbackShowsRevision(h: seq<Request>, s: Scope, r: int)
    requires InWindow(|LogOf(h, s).published|, r)
    ensures var before, after := Run(h), Run(h + [Request.Rollback(s, r)]);
            && StatusOf(after, s).Status? && StatusOf(after, s).revision == r
            && StatusOf(after, s).snapshot == LogOf(h, s).published[r - 1]
            && after == before.(current := after.current)
            && (forall t | t != s :: (t in after.current <==> t in before.current)
                                      && (t in before.current ==> after.current[t] == before.current[t]))
  {
    assert (h + [Request.Rollback(s, r)])[..|h|] == h;
    RevisionsHold(h, s);
  }

  /** A report that is taken is kept with its kind, its time and the grant it was made under; a new user is kept
      with the hash and role he was created with. */
  lemma RowsAreKept(h: seq<Request>, q: Request)
    requires Accepts(h, q)
    ensures var db := Run(h + [q]);
            && (q.Complain? ==>
                  && (q.scope, q.revision, q.user) in db.reports && (q.user, q.scope) in db.grants
                  && db.reports[(q.scope, q.revision, q.user)] == Report(q.kind, q.at, db.grants[(q.user, q.scope)]))
            && (q.CreateUser? ==>
                  && q.user in db.users && db.users[q.user] == User(q.passwordHash, q.role))
  {
    assert (h + [q])[..|h|] == h;
    AcceptedIsHistory(h, q);
    if q.CreateUser? {
      GrantAllFrame(Run(h).(users := Run(h).users[q.user := User(q.passwordHash, q.role)]), q.user, q.scopes);
    }
  }

  /** An account changes only by requests that name it. */
  lemma AccountsStay(h: seq<Request>, q: Request, user: string)
    requires !(q.CreateUser? && q.user == user) && q != DeleteUser(user)
    ensures user in Run(h + [q]).users <==> user in Run(h).users
    ensures user in Run(h).users ==> Run(h + [q]).users[user] == Run(h).users[user]
  {
    assert (h + [q])[..|h|] == h;
    if q.CreateUser? && CreatesUser(Run(h), q) {
      GrantAllFrame(Run(h).(users := Run(h).users[q.user := User(q.passwordHash, q.role)]), q.user, q.scopes);
    }
  }

  /** The counts of a status are numbers of users: of those whose standing report on the current revision is of the
      kind. */
  lemma CountsAreHistory(h: seq<Request>, s: Scope, kind: string, users: set<string>)
    requires LogOf(h, s).pointer > 0
    requires forall user :: user in users <==> exists i :: Stands(h, i, user, s, LogOf(h, s).pointer, kind)
    ensures StatusOf(Run(h), s).Status?
    ensures var health := StatusOf(Run(h), s).health;
            && (kind in health.counts <==> users != {})
            && (users != {} ==> health.counts[kind] == |users|)
            && (kind == "authentication_required" ==> health.authRequired == |users|)
  {
    RevisionsHold(h, s);
    var db, r := Run(h), LogOf(h, s).pointer;
    forall user ensures user in users <==> user in Reporters(db, s, r, kind) { ReportersAreHistory(h, s, r, user, kind); }
    assert users == Reporters(db, s, r, kind);
    KindsHaveReporters(db, s, r, kind);
  }

  lemma KindsHaveReporters(db: Db, s: Scope, r: int, kind: string)
    ensures kind in Kinds(db, s, r) <==> Reporters(db, s, r, kind) != {}
  {
    if kind in Kinds(db, s, r) {
      var k :| k in db.reports && k.0 == s && k.1 == r && ActiveReport(db, s, r, k.2) && db.reports[k].kind == kind;
      assert k.2 in Reporters(db, s, r, kind);
    }
    if Reporters(db, s, r, kind) != {} {
      var user :| user in Reporters(db, s, r, kind);
      assert (s, r, user) in db.reports;
    }
  }

  /** Every count of a status is the number of users with such a standing report. */
  lemma ReportersAreHistory(h: seq<Request>, s: Scope, r: int, user: string, kind: string)
    requires InWindow(|LogOf(h, s).published|, r)
    ensures user in Reporters(Run(h), s, r, kind) <==> exists i :: Stands(h, i, user, s, r, kind)
  {
    TablesAgree(h);
    assert RevisionsAgree(Run(h), h, s) && ReportAgrees(Run(h), h, s, r, user);
    StandingIsLatest(h, user, s, r, kind);
  }

  /** Neither a new grant nor a new account of the same name revives a report made before a grant ended. */
  lemma RegrantRevivesNothing(h: seq<Request>, end: Request, more: seq<Request>, user: string, s: Scope, r: int)
    requires end == DeleteUser(user) || end == Revoke(user, s)
    requires forall q | q in more :: !(q.Complain? && q.user == user && q.scope == s && q.revision == r)
    ensures !ActiveReport(Run(h + [end] + more), s, r, user)
  {
    var all := h + [end] + more;
    EndedGrantStaysEnded(h, end, more, user, s, r);
    TablesAgree(all);
    assert ReportAgrees(Run(all), all, s, r, user);
  }

  lemma ReferentialIntegrity(h: seq<Request>)
    ensures ForeignKeys(Run(h))
  {
    TablesAgree(h);
    var db := Run(h);
    forall s | s in db.current ensures (s, db.current[s]) in db.revisions { assert RevisionsAgree(db, h, s); }
    forall g | g in db.grants ensures g.0 in db.users { assert GrantAgrees(db, h, g.0, g.1); }
    forall k | k in db.reports ensures (k.0, k.1) in db.revisions && k.2 in db.users {
      assert ReportAgrees(db, h, k.0, k.1, k.2);
    }
  }

  /** The store keeps exactly the last five of the n publications, and a number names one snapshot for ever. */
  lemma RevisionsAreNeverReused(h: seq<Request>, more: seq<Request>, s: Scope, r: int)
    ensures (s, r) in Run(h).revisions <==> InWindow(|LogOf(h, s).published|, r)
    ensures (s, r) in Run(h + more).revisions && r <= |LogOf(h, s).published| ==>
              (s, r) in Run(h).revisions && Run(h + more).revisions[(s, r)] == Run(h).revisions[(s, r)]
  {
    TablesAgree(h);
    TablesAgree(h + more);
    assert RevisionsAgree(Run(h), h, s) && RevisionsAgree(Run(h + more), h + more, s);
    LogGrows(h, more, s);
  }

  /** Had the retention delete come before the pointer moved, it would have broken the foreign key of
      current_revisions exactly after a rollback to the oldest of five kept revisions. */
  lemma PointerMovesFirst(h: seq<Request>, s: Scope, snap: Snapshot)
    requires s in Run(h).current
    ensures var db := Run(h);
            var n := |LogOf(h, s).published|;
            (s, db.current[s]) !in Pruned(db.revisions[(s, n + 1) := snap], s) <==> db.current[s] == n - 4
    ensures (s, PublishTx(Run(h), s, snap).current[s]) in PublishTx(Run(h), s, snap).revisions
  {
    TablesAgree(h);
    var db, log := Run(h), LogOf(h, s);
    assert RevisionsAgree(db, h, s);
    var n := |log.published|;
    var added := db.revisions[(s, n + 1) := snap];
    assert forall k :: k in KeysOf(added, s) <==> k == (s, k.1) && (InWindow(n, k.1) || k.1 == n + 1);
    WindowSlides(KeysOf(added, s), s, n);
    if !Repeats(db, s, snap) { FreshPublication(db, log, s, snap); }
  }

  /** A recovery always adds one revision and makes it current; so does an ordinary upload, unless the current
      snapshot has its digest, also after a rollback: then nothing changes at all. */
  lemma PublicationLifecycle(h: seq<Request>, s: Scope, snap: Snapshot)
    ensures var before, after := LogOf(h, s), LogOf(h + [Publish(s, snap)], s);
            if snap.reason == Ordinary && before.pointer > 0 && before.published[before.pointer - 1].sha256 == snap.sha256
            then Run(h + [Publish(s, snap)]) == Run(h)
            else
              && after == Log(before.published + [snap], |before.published| + 1)
              && StatusOf(Run(h + [Publish(s, snap)]), s).Status?
              && StatusOf(Run(h + [Publish(s, snap)]), s).revision == |before.published| + 1
              && StatusOf(Run(h + [Publish(s, snap)]), s).snapshot == snap
  {
    assert (h + [Publish(s, snap)])[..|h|] == h;
    RevisionsHold(h, s);
    LogStep(h, Publish(s, snap), s);
    RevisionsHold(h + [Publish(s, snap)], s);
  }

  /** A publication leaves the log, the kept rows and the reports of every other scope as they were. */
  lemma OtherScopesUntouched(h: seq<Request>, s: Scope, snap: Snapshot, t: Scope, r: int, kind: string)
    requires t != s
    ensures var after := Run(h + [Publish(s, snap)]);
            && LogOf(h + [Publish(s, snap)], t) == LogOf(h, t)
            && ((t, r) in after.revisions <==> (t, r) in Run(h).revisions)
            && ((t, r) in after.revisions ==> after.revisions[(t, r)] == Run(h).revisions[(t, r)])
            && Reporters(after, t, r, kind) == Reporters(Run(h), t, r, kind)
            && StatusOf(after, t) == StatusOf(Run(h), t)
  {
    assert (h + [Publish(s, snap)])[..|h|] == h;
    LogStep(h, Publish(s, snap), t);
    TablesAgree(h);
    var db := Run(h);
    assert RevisionsAgree(db, h, s);
    if !Repeats(db, s, snap) {
      FreshPublication(db, LogOf(h, s), s, snap);
      ReferentialIntegrity(h);
      SameReporters(db, PublishTx(db, s, snap), |LogOf(h, s).published|, s, snap, t, r, kind);
      if t in db.current {
        SameHealth(db, PublishTx(db, s, snap), |LogOf(h, s).published|, s, snap, t, db.current[t]);
      }
    }
  }

  lemma SameReporters(db: Db, after: Db, n: int, s: Scope, snap: Snapshot, t: Scope, r: int, kind: string)
    requires ForeignKeys(db) && t != s && Added(db, after, n, s, snap)
    requires after == db.(revisions := after.revisions, current := after.current,
                          reports := ReportsWithin(db.reports, after.revisions))
    ensures Reporters(after, t, r, kind) == Reporters(db, t, r, kind)
  {
    forall user ensures (t, r, user) in db.reports <==> (t, r, user) in after.reports {}
    forall user ensures user in Reporters(after, t, r, kind) <==> user in Reporters(db, t, r, kind) {
      assert ActiveReport(after, t, r, user) == ActiveReport(db, t, r, user);
    }
  }

  lemma SameKinds(db: Db, after: Db, n: int, s: Scope, snap: Snapshot, t: Scope, r: int)
    requires ForeignKeys(db) && t != s && Added(db, after, n, s, snap)
    requires after == db.(revisions := after.revisions, current := after.current,
                          reports := ReportsWithin(db.reports, after.revisions))
    ensures Kinds(after, t, r) == Kinds(db, t, r)
  {
    forall user ensures (t, r, user) in db.reports <==> (t, r, user) in after.reports {}
    forall user ensures ActiveReport(after, t, r, user) == ActiveReport(db, t, r, user) {}
  }

  lemma SameHealth(db: Db, after: Db, n: int, s: Scope, snap: Snapshot, t: Scope, r: int)
    requires ForeignKeys(db) && t != s && Added(db, after, n, s, snap)
    requires after == db.(revisions := after.revisions, current := after.current,
                          reports := ReportsWithin(db.reports, after.revisions))
    ensures HealthOf(after, t, r) == HealthOf(db, t, r)
  {
    SameKinds(db, after, n, s, snap, t, r);
    forall kind ensures Reporters(after, t, r, kind) == Reporters(db, t, r, kind) {
      SameReporters(db, after, n, s, snap, t, r, kind);
    }
    HealthIsCounts(db, after, t, r);
  }

  lemma HealthIsCounts(db: Db, after: Db, t: Scope, r: int)
    requires Kinds(after, t, r) == Kinds(db, t, r)
    requires forall kind :: Reporters(after, t, r, kind) == Reporters(db, t, r, kind)
    ensures HealthOf(after, t, r) == HealthOf(db, t, r)
  {
    var later, before := Counts(after, t, r), Counts(db, t, r);
    assert later == before by {
      forall kind ensures kind in later <==> kind in before {}
      forall kind | kind in later ensures later[kind] == before[kind] {}
    }
  }
}
