/**
 What the tables must show after any history of requests, told from the history alone.

 Nothing here looks at a table: a scope has an append-only log of publications and a pointer
 into it, a user has a role and a set of held scopes, and a reader has at most one standing
 report per revision.  Module Audit proves that the tables agree.
 */
module History {
  import opened Cookies
  import opened Tables

  datatype Log = Log(published: seq<Snapshot>, pointer: int)

  /** Revision r is one of the last five of 1..n. */
  predicate InWindow(n: int, r: int) {
    1 <= r <= n && n - RETAINED < r
  }

  /** A pointer of 0 means that nothing has been published. */
  predicate Sound(log: Log) {
    if log.published == [] then log.pointer == 0 else InWindow(|log.published|, log.pointer)
  }

  predicate Fresh(log: Log, snap: Snapshot)
    requires Sound(log)
  {
    log.pointer == 0 || snap.reason == Recovery || log.published[log.pointer - 1].sha256 != snap.sha256
  }

  function Advance(log: Log, q: Request, s: Scope): (after: Log)
    requires Sound(log)
    ensures Sound(after) && log.published <= after.published
  {
    match q
    case Publish(scope, snap) =>
      if scope == s && Fresh(log, snap) then Log(log.published + [snap], |log.published| + 1) else log
    case Rollback(scope, r) =>
      if scope == s && InWindow(|log.published|, r) then log.(pointer := r) else log
    case _ => log
  }

  /** Publications of a scope, the n-th being revision n, and the current revision. */
  function LogOf(h: seq<Request>, s: Scope): (log: Log)
    ensures Sound(log)
    decreases |h|
  {
    if h == [] then Log([], 0) else Advance(LogOf(h[..|h|-1], s), h[|h|-1], s)
  }

  lemma LogStep(h: seq<Request>, q: Request, s: Scope)
    ensures LogOf(h + [q], s) == Advance(LogOf(h, s), q, s)
  {
    assert (h + [q])[..|h|] == h;
  }

  predicate Creates(h: seq<Request>, q: Request)
    decreases |h|, 1
  {
    && q.CreateUser?
    && ValidUsername(q.user) && ValidRole(q.role) && q.hashDecodes
    && (forall s | s in q.scopes :: ValidScope(s)) && Distinct(q.scopes)
    && RoleOf(h, q.user).None?
  }

  function RoleOf(h: seq<Request>, user: string): Option<string>
    decreases |h|, 0
  {
    if h == [] then None else
      var (past, q) := (h[..|h|-1], h[|h|-1]);
      if q.CreateUser? && q.user == user && Creates(past, q) then Some(q.role)
      else if q == DeleteUser(user) then None
      else RoleOf(past, user)
  }

  predicate Holds(h: seq<Request>, user: string, s: Scope)
    decreases |h|
  {
    if h == [] then false else
      var (past, q) := (h[..|h|-1], h[|h|-1]);
      if q.CreateUser? && q.user == user && Creates(past, q) then s in q.scopes
      else if q == DeleteUser(user) || q == Revoke(user, s) then false
      else if q == Grant(user, s) && ValidScope(s) && RoleOf(past, user).Some? then true
      else Holds(past, user, s)
  }

  /** A report the broker takes: by a reader who holds the scope, on one of the last five revisions. */
  predicate Admits(h: seq<Request>, q: Request) {
    && q.Complain?
    && RoleOf(h, q.user) == Some("reader") && Holds(h, q.user, q.scope)
    && InWindow(|LogOf(h, q.scope).published|, q.revision) && ValidKind(q.kind)
  }

  /** The broker returns without an error. */
  predicate Accepts(h: seq<Request>, q: Request) {
    match q
    case CreateUser(_, _, _, _, _) => Creates(h, q)
    case DeleteUser(user) => RoleOf(h, user).Some?
    case Grant(user, s) => ValidScope(s) && RoleOf(h, user).Some? && !Holds(h, user, s)
    case Revoke(user, s) => ValidScope(s) && Holds(h, user, s)
    case Publish(_, _) => true
    case Rollback(s, r) => InWindow(|LogOf(h, s).published|, r)
    case Complain(_, _, _, _, _) => Admits(h, q)
  }

  predicate ReportsOn(h: seq<Request>, q: Request, user: string, s: Scope, r: int) {
    q.Complain? && q.user == user && q.scope == s && q.revision == r && Admits(h, q)
  }

  /** The kind of the latest report of a user on a revision, if the grant it was made under still stands. */
  function Standing(h: seq<Request>, user: string, s: Scope, r: int): Option<string>
    decreases |h|
  {
    if h == [] then None else
      var (past, q) := (h[..|h|-1], h[|h|-1]);
      if q == DeleteUser(user) || q == Revoke(user, s) then None
      else if ReportsOn(past, q, user, s, r) then Some(q.kind)
      else Standing(past, user, s, r)
  }

  /** Request j removes the user, ends the grant, or replaces the report. */
  predicate Supersedes(h: seq<Request>, j: int, user: string, s: Scope, r: int)
    requires 0 <= j < |h|
  {
    h[j] == DeleteUser(user) || h[j] == Revoke(user, s) || ReportsOn(h[..j], h[j], user, s, r)
  }

  /** Request i is the latest report of the user on the revision and nothing has ended its grant since. */
  ghost predicate Stands(h: seq<Request>, i: int, user: string, s: Scope, r: int, kind: string) {
    && 0 <= i < |h|
    && ReportsOn(h[..i], h[i], user, s, r) && h[i].kind == kind
    && forall j | i < j < |h| :: !Supersedes(h, j, user, s, r)
  }

  lemma StandsLater(h: seq<Request>, q: Request, i: int, user: string, s: Scope, r: int, kind: string)
    requires 0 <= i < |h|
    ensures Stands(h + [q], i, user, s, r, kind)
       <==> Stands(h, i, user, s, r, kind) && !Supersedes(h + [q], |h|, user, s, r)
  {
    var g := h + [q];
    assert forall j | 0 <= j < |h| :: g[..j] == h[..j];
    assert forall j | 0 <= j < |h| :: Supersedes(g, j, user, s, r) == Supersedes(h, j, user, s, r);
  }

  /** The recursive and the quantified account of standing reports agree. */
  lemma {:induction false} StandingIsLatest(h: seq<Request>, user: string, s: Scope, r: int, kind: string)
    ensures Standing(h, user, s, r) == Some(kind) <==> exists i :: Stands(h, i, user, s, r, kind)
    decreases |h|
  {
    if h != [] {
      var (past, q) := (h[..|h|-1], h[|h|-1]);
      assert h == past + [q] && h[..|past|] == past;
      StandingIsLatest(past, user, s, r, kind);
      forall i | 0 <= i < |past| { StandsLater(past, q, i, user, s, r, kind); }
      if ReportsOn(past, q, user, s, r) && q.kind == kind {
        assert Stands(h, |past|, user, s, r, kind);
      }
    }
  }

  /** Publications are never renumbered: later logs extend earlier ones. */
  lemma {:induction false} LogGrows(h: seq<Request>, more: seq<Request>, s: Scope)
    ensures LogOf(h, s).published <= LogOf(h + more, s).published
    decreases |more|
  {
    if more == [] {
      assert h + more == h;
    } else {
      var shorter := more[..|more|-1];
      LogGrows(h, shorter, s);
      assert (h + more)[..|h + more|-1] == h + shorter;
    }
  }

  /** Once a grant ends, no report made before the end stands again, whatever grants follow. */
  lemma {:induction false} EndedGrantStaysEnded(
    h: seq<Request>, end: Request, more: seq<Request>, user: string, s: Scope, r: int)
    requires end == DeleteUser(user) || end == Revoke(user, s)
    requires forall q | q in more :: !(q.Complain? && q.user == user && q.scope == s && q.revision == r)
    ensures Standing(h + [end] + more, user, s, r) == None
    decreases |more|
  {
    var all := h + [end] + more;
    if more == [] {
      assert all == h + [end];
    } else {
      var shorter := more[..|more|-1];
      EndedGrantStaysEnded(h, end, shorter, user, s, r);
      assert all[..|all|-1] == h + [end] + shorter && all[|all|-1] == more[|more|-1];
    }
  }
}
