/**
 The broker store: a class over the tables, one method per transaction, each made of the
 statements the program sends.  A transaction works on the tables directly and puts back the
 rows it saw first when a statement fails.
 */
module Store {
  import opened Cookies
  import opened Tables

  /** Nobody has reported on a revision that is not there. */
  lemma UnreportedIsHealthy(db: Db, s: Scope, r: int)
    requires forall user :: (s, r, user) !in db.reports
    ensures HealthOf(db, s, r) == Health("healthy", 0, map[])
  {
    assert Reporters(db, s, r, "authentication_required") == {};
    assert Kinds(db, s, r) == {};
  }

  class Store {
    var revisions: map<(Scope, int), Snapshot>
    var current: map<Scope, int>
    var users: map<string, User>
    var grants: map<(string, Scope), nat>
    var lastGrant: nat
    var reports: map<(Scope, int, string), Report>

    function View(): Db
      reads this
    {
      Db(revisions, current, users, grants, lastGrant, reports)
    }

    ghost predicate Valid()
      reads this
    {
      ForeignKeys(View())
    }

    constructor ()
      ensures View() == EMPTY && Valid()
    {
      revisions, current, users, grants, lastGrant, reports := map[], map[], map[], map[], 0, map[];
    }

    // ---------------------------------------------------------------- revisions

    /** SELECT COALESCE(MAX(revision),0)+1 */
    method NextRevision(s: Scope) returns (revision: int)
      ensures revision == Latest(KeysOf(revisions, s)) + 1
      ensures (s, revision) !in revisions
    {
      var latest, first := 0, true;
      var unread := KeysOf(revisions, s);
      ghost var read: set<(Scope, int)> := {};
      while unread != {}
        invariant read + unread == KeysOf(revisions, s) && read !! unread
        invariant IsLatest(read, latest) && (first <==> read == {})
        decreases |unread|
      {
        var k :| k in unread;
        if first || k.1 > latest {
          latest, first := k.1, false;
        }
        read, unread := read + {k}, unread - {k};
      }
      revision := latest + 1;
    }

    /** The retention delete and its cascade; ok says that no row of current_revisions lost its parent. */
    method DeleteOldRevisions(s: Scope) returns (ok: bool)
      modifies this`revisions, this`reports
      ensures ok <==> (s in current && (s, current[s]) in old(revisions) ==>
                         (s, current[s]) in Pruned(old(revisions), s))
      ensures revisions == if ok then Pruned(old(revisions), s) else old(revisions)
      ensures reports == if ok then ReportsWithin(old(reports), revisions) else old(reports)
    {
      var kept := Pruned(revisions, s);
      ok := s in current && (s, current[s]) in revisions ==> (s, current[s]) in kept;
      if ok {
        revisions := kept;
        reports := ReportsWithin(reports, revisions);
      }
    }

    /** A repeated ordinary upload reports the current revision; anything else becomes the next one.
        The status of a new revision is filled in without reading the reports. */
    method Put(s: Scope, snap: Snapshot) returns (status: Status)
      requires Valid()
      modifies this
      ensures Valid()
      ensures View() == PublishTx(old(View()), s, snap)
      ensures status.Status? && status.changed == !Repeats(old(View()), s, snap)
      ensures status.(changed := false) == StatusOf(View(), s)
      ensures status.changed ==> status.snapshot == snap && (s, status.revision) !in old(revisions)
    {
      if s in current && (s, current[s]) in revisions {
        var row := revisions[(s, current[s])];
        if row.sha256 == snap.sha256 && snap.reason != Recovery {
          var health := EnrichStatus(s, current[s]);
          return Status(s, current[s], row, false, health);
        }
      }
      NewRevisionIsHealthy(View(), s, snap);
      var revision := AddRevision(s, snap);
      status := Status(s, revision, snap, true, Health("healthy", 0, map[]));
    }

    /** Insert, move the pointer, then delete: in this order the delete never takes the current revision. */
    method AddRevision(s: Scope, snap: Snapshot) returns (revision: int)
      requires !Repeats(View(), s, snap)
      modifies this`revisions, this`current, this`reports
      ensures View() == PublishTx(old(View()), s, snap)
      ensures revision == Latest(KeysOf(old(revisions), s)) + 1 && (s, revision) !in old(revisions)
    {
      revision := NextRevision(s);
      revisions := revisions[(s, revision) := snap];
      current := current[s := revision];
      RetainsLatest(revisions, s, revision);
      var ok := DeleteOldRevisions(s);
      if !ok {
        assert false;
      }
    }

    method Rollback(s: Scope, revision: int) returns (accepted: bool)
      modifies this`current
      ensures var step := Apply(old(View()), Request.Rollback(s, revision));
              View() == step.db && accepted == step.accepted
    {
      accepted := s in current && (s, revision) in revisions;
      if accepted {
        current := current[s := revision];
      }
    }

    method Current(s: Scope) returns (status: Status)
      ensures status == StatusOf(View(), s)
    {
      if s !in current || (s, current[s]) !in revisions {
        return Missing(s);
      }
      var health := EnrichStatus(s, current[s]);
      return Status(s, current[s], revisions[(s, current[s])], false, health);
    }

    method StatusesForScopes(scopes: seq<Scope>) returns (statuses: seq<Status>)
      ensures |statuses| == |scopes|
      ensures forall i | 0 <= i < |scopes| :: statuses[i] == StatusOf(View(), scopes[i])
    {
      statuses := [];
      for i := 0 to |scopes|
        invariant |statuses| == i
        invariant forall j | 0 <= j < i :: statuses[j] == StatusOf(View(), scopes[j])
      {
        var status := Current(scopes[i]);
        statuses := statuses + [status];
      }
    }

    // ---------------------------------------------------------------- health

    method PutHealthReport(user: string, s: Scope, revision: int, kind: string, now: int) returns (accepted: bool)
      modifies this`reports
      ensures var step := Apply(old(View()), Complain(user, s, revision, kind, now));
              View() == step.db && accepted == step.accepted
    {
      if (s, revision) !in revisions {
        return false;
      }
      accepted := MayReport(View(), user, s) && ValidKind(kind);
      if accepted {
        reports := reports[(s, revision, user) := Report(kind, now, grants[(user, s)])];
      }
    }

    /** One row per kind, in whatever order the query returns them. */
    method EnrichStatus(s: Scope, revision: int) returns (health: Health)
      ensures health == HealthOf(View(), s, revision)
    {
      var db := View();
      var counts: map<string, nat> := map[];
      var rows := Kinds(db, s, revision);
      while rows != {}
        invariant rows <= Kinds(db, s, revision)
        invariant counts.Keys == Kinds(db, s, revision) - rows
        invariant Counted(db, s, revision, counts)
        decreases |rows|
      {
        var kind :| kind in rows;
        counts := counts[kind := |Reporters(db, s, revision, kind)|];
        rows := rows - {kind};
      }
      var required := if "authentication_required" in counts then counts["authentication_required"] else 0;
      health := Health(if required > 0 then "refresh_required" else "healthy", required, counts);
      CountsGiveHealth(db, s, revision, counts);
    }

    // ---------------------------------------------------------------- users and grants

    method CreateUser(user: string, passwordHash: string, hashDecodes: bool, role: string, scopes: seq<Scope>)
      returns (accepted: bool)
      modifies this`users, this`grants, this`lastGrant
      ensures var step := Apply(old(View()), Request.CreateUser(user, passwordHash, hashDecodes, role, scopes));
              View() == step.db && accepted == step.accepted
    {
      if !ValidUsername(user) || !ValidRole(role) || !hashDecodes || exists s | s in scopes :: !ValidScope(s) {
        return false;
      }
      var before := (users, grants, lastGrant);
      if user in users {
        return false;
      }
      users := users[user := User(passwordHash, role)];
      ghost var start := View();
      for i := 0 to |scopes|
        invariant users == start.users && revisions == old(revisions) && current == old(current) && reports == old(reports)
        invariant GrantAll(start, user, scopes) == GrantAll(View(), user, scopes[i..])
      {
        if (user, scopes[i]) in grants {
          users, grants, lastGrant := before.0, before.1, before.2;
          return false;
        }
        assert scopes[i..][1..] == scopes[i + 1..];
        lastGrant := lastGrant + 1;
        grants := grants[(user, scopes[i]) := lastGrant];
      }
      return true;
    }

    method DeleteUser(user: string) returns (accepted: bool)
      modifies this`users, this`grants, this`reports
      ensures var step := Apply(old(View()), Request.DeleteUser(user));
              View() == step.db && accepted == step.accepted
    {
      accepted := user in users;
      if accepted {
        users := users - {user};
        grants := map g | g in grants && g.0 != user :: grants[g];
        reports := map k | k in reports && k.2 != user :: reports[k];
      }
    }

    method Grant(user: string, s: Scope) returns (accepted: bool)
      modifies this`grants, this`lastGrant
      ensures var step := Apply(old(View()), Request.Grant(user, s));
              View() == step.db && accepted == step.accepted
    {
      if !ValidScope(s) {
        return false;
      }
      accepted := user in users && (user, s) !in grants;
      if accepted {
        lastGrant := lastGrant + 1;
        grants := grants[(user, s) := lastGrant];
      }
    }

    method Revoke(user: string, s: Scope) returns (accepted: bool)
      modifies this`grants
      ensures var step := Apply(old(View()), Request.Revoke(user, s));
              View() == step.db && accepted == step.accepted
    {
      if !ValidScope(s) {
        return false;
      }
      accepted := (user, s) in grants;
      if accepted {
        grants := grants - {(user, s)};
      }
    }
  }

  ghost predicate Counted(db: Db, s: Scope, r: int, counts: map<string, nat>) {
    forall k | k in counts :: counts[k] == |Reporters(db, s, r, k)|
  }

  lemma CountsGiveHealth(db: Db, s: Scope, r: int, counts: map<string, nat>)
    requires counts.Keys == Kinds(db, s, r)
    requires Counted(db, s, r, counts)
    ensures var required := if "authentication_required" in counts then counts["authentication_required"] else 0;
            Health(if required > 0 then "refresh_required" else "healthy", required, counts) == HealthOf(db, s, r)
  {
    if "authentication_required" !in counts {
      NoRowNoReporter(db, s, r, "authentication_required");
    }
    assert counts == map k | k in Kinds(db, s, r) :: |Reporters(db, s, r, k)|;
  }

  /** The pointer moves before the retention delete, so the delete leaves every pointer a row. */
  lemma PublishKeepsForeignKeys(db: Db, s: Scope, snap: Snapshot)
    requires ForeignKeys(db) && !Repeats(db, s, snap)
    ensures ForeignKeys(PublishTx(db, s, snap))
    ensures var revision := Latest(KeysOf(db.revisions, s)) + 1;
            (s, revision) !in db.revisions && (s, revision) in PublishTx(db, s, snap).revisions
  {
    var after := PublishTx(db, s, snap);
    var revision := Latest(KeysOf(db.revisions, s)) + 1;
    var added := db.revisions[(s, revision) := snap];
    assert (s, revision) !in KeysOf(db.revisions, s);
    forall k | k in added && k.0 == s ensures k.1 <= revision {
      if k.1 != revision { assert k in KeysOf(db.revisions, s); }
    }
    RetainsLatest(added, s, revision);
    forall t | t in after.current ensures (t, after.current[t]) in after.revisions {
      if t != s { assert (t, db.current[t]) in added; }
    }
  }

  /** The hard-coded health of a new revision is what reading the reports would give. */
  lemma NewRevisionIsHealthy(db: Db, s: Scope, snap: Snapshot)
    requires ForeignKeys(db) && !Repeats(db, s, snap)
    ensures var after := PublishTx(db, s, snap);
            var revision := Latest(KeysOf(db.revisions, s)) + 1;
            && ForeignKeys(after)
            && StatusOf(after, s) == Status(s, revision, snap, false, Health("healthy", 0, map[]))
  {
    PublishKeepsForeignKeys(db, s, snap);
    UnreportedIsHealthy(PublishTx(db, s, snap), s, Latest(KeysOf(db.revisions, s)) + 1);
  }

  /** The largest revision is among the largest five. */
  lemma RetainsLatest(revisions: map<(Scope, int), Snapshot>, s: Scope, r: int)
    requires (s, r) in revisions && forall k | k in revisions && k.0 == s :: k.1 <= r
    ensures (s, r) in Pruned(revisions, s)
  {
    assert (set k | k in KeysOf(revisions, s) && k.1 > r) == {};
  }

  lemma NoRowNoReporter(db: Db, s: Scope, r: int, kind: string)
    requires kind !in Kinds(db, s, r)
    ensures Reporters(db, s, r, kind) == {}
  {
    forall user | ActiveReport(db, s, r, user) ensures db.reports[(s, r, user)].kind in Kinds(db, s, r) {
      assert (s, r, user) in db.reports;
    }
  }
}
