/**
 cookie-sync: one fetch of one target, against any server and against the broker.
 */
module Sync {
  import opened Cookies
  import opened Disks
  import opened Tables
  import opened History
  import opened Audit
  import opened Netscape
  import opened UploadSize

  // ------------------------------------------------------------------ paths and responses

  /** An ETag is a quoted digest; the text of any other tag stands for itself as OfText. */
  datatype Response =
    | NoAnswer
    | Response(status: int, etag: Option<Digest>, revision: Option<int>,
               provider: string, profile: string, capturedAt: string, createdAt: string,
               body: string, complete: bool)

  function MetadataPath(path: string): string {
    path + ".meta.json"
  }

  predicate ValidCookieFile(text: string) {
    StartsWith(text, FIRST_LINE + "\n")
  }

  // ------------------------------------------------------------------ one target

  datatype Dest = Dest(scope: Scope, path: string, metadata: bool)

  /** What the process remembers of the broker: nothing at first. */
  datatype Trust = Trust(etag: Option<Digest>, content: string, sidecar: Option<Meta>)

  const UNTRUSTED := Trust(None, "", None)

  datatype Io = Io(cookieReadable: bool, sidecarReadable: bool, cookieWrite: Fate, sidecarWrite: Fate)

  predicate CookieMatches(dest: Dest, trust: Trust, disk: Disk) {
    ValidCookieFile(trust.content) && dest.path in disk && disk[dest.path] == Bytes(trust.content)
  }

  predicate SidecarMatches(dest: Dest, trust: Trust, disk: Disk) {
    dest.metadata ==>
      && trust.sidecar.Some?
      && MetadataPath(dest.path) in disk && disk[MetadataPath(dest.path)] == Sidecar(trust.sidecar.value)
  }

  predicate LocalMatches(dest: Dest, trust: Trust, disk: Disk, io: Io) {
    && io.cookieReadable && CookieMatches(dest, trust, disk)
    && (dest.metadata ==> io.sidecarReadable) && SidecarMatches(dest, trust, disk)
  }

  /** A 200 answer whose body may replace the cookie file. */
  predicate Usable(r: Response) {
    && r.Response? && r.status == 200 && r.complete
    && ValidCookieFile(r.body) && UploadSize.Bytes(r.body) <= MAX_COOKIE_FILE
  }

  function MetadataOf(dest: Dest, r: Response): Option<Meta>
    requires r.Response?
  {
    if r.revision.None? || r.revision.value <= 0 then None
    else if r.provider != "" && r.provider != dest.scope.provider then None
    else if r.profile != "" && r.profile != dest.scope.profile then None
    else Some(Meta(dest.scope, r.revision.value, OfText(r.body), r.capturedAt, r.createdAt))
  }

  /** The outcome of a fetch: the new memory and files, the tags sent, and whether it succeeded. */
  datatype Fetched = Fetched(trust: Trust, disk: Disk, requests: seq<Option<Digest>>, ok: bool)

  function Save(dest: Dest, trust: Trust, disk: Disk, r: Response, io: Io): Fetched
    requires Usable(r)
  {
    var sent := [trust.etag];
    var saved := AfterWrite(disk, dest.path, Bytes(r.body), Outcome(io.cookieWrite));
    if Outcome(io.cookieWrite) != Written then Fetched(trust, saved, sent, false)
    else if !dest.metadata then Fetched(Trust(r.etag, r.body, None), saved, sent, true)
    else match MetadataOf(dest, r)
      case None => Fetched(trust, saved, sent, false)
      case Some(meta) =>
        var both := AfterWrite(saved, MetadataPath(dest.path), Sidecar(meta), Outcome(io.sidecarWrite));
        if Outcome(io.sidecarWrite) != Written then Fetched(trust, both, sent, false)
        else Fetched(Trust(r.etag, r.body, Some(meta)), both, sent, true)
  }

  function FetchRun(dest: Dest, trust: Trust, disk: Disk, answers: seq<Response>, io: Io): Fetched
    decreases if trust.etag.Some? then 1 else 0
  {
    var sent := [trust.etag];
    if answers == [] || answers[0] == NoAnswer then Fetched(trust, disk, sent, false)
    else
      var r := answers[0];
      if r.status == 304 then
        if trust.etag.None? then Fetched(trust, disk, sent, false)
        else if LocalMatches(dest, trust, disk, io) then Fetched(trust, disk, sent, true)
        else
          var again := FetchRun(dest, trust.(etag := None), disk, answers[1..], io);
          again.(requests := sent + again.requests)
      else if !Usable(r) then Fetched(trust, disk, sent, false)
      else Save(dest, trust, disk, r, io)
  }

  // ------------------------------------------------------------------ the process

  class Target {
    const scope: Scope
    const path: string
    const metadata: bool
    var etag: Option<Digest>
    var content: string
    var sidecar: Option<Meta>

    constructor (scope: Scope, path: string, metadata: bool)
      ensures this.scope == scope && this.path == path && this.metadata == metadata && Memory() == UNTRUSTED
    {
      this.scope, this.path, this.metadata := scope, path, metadata;
      etag, content, sidecar := None, "", None;
    }

    function To(): Dest {
      Dest(scope, path, metadata)
    }

    function Memory(): Trust
      reads this
    {
      Trust(etag, content, sidecar)
    }

    /** answers are what the server says to the first and the second request. */
    method Fetch(files: Files, answers: seq<Response>, io: Io) returns (ok: bool, requests: seq<Option<Digest>>)
      modifies this, files
      ensures Fetched(Memory(), files.disk, requests, ok) == FetchRun(To(), old(Memory()), old(files.disk), answers, io)
      decreases if etag.Some? then 1 else 0
    {
      requests := [etag];
      if answers == [] || answers[0] == NoAnswer {
        return false, requests;
      }
      var r := answers[0];
      if r.status == 304 {
        if etag == None {
          return false, requests;
        }
        if LocalMatches(To(), Memory(), files.disk, io) {
          return true, requests;
        }
        etag := None;
        var more;
        ok, more := Fetch(files, answers[1..], io);
        return ok, requests + more;
      }
      if r.status != 200 || !r.complete || !ValidCookieFile(r.body) || UploadSize.Bytes(r.body) > MAX_COOKIE_FILE {
        return false, requests;
      }
      ghost var steps;
      ok, steps := files.AtomicWrite(path, Bytes(r.body), io.cookieWrite);
      if !ok {
        return false, requests;
      }
      var written: Option<Meta> := None;
      if metadata {
        written := MetadataOf(To(), r);
        if written == None {
          return false, requests;
        }
        ok, steps := files.AtomicWrite(MetadataPath(path), Sidecar(written.value), io.sidecarWrite);
        if !ok {
          return false, requests;
        }
      }
      content := r.body;
      sidecar := written;
      etag := r.etag;
      return true, requests;
    }
  }

  // ------------------------------------------------------------------ any server

  /** A complete valid body of at most 2 MiB among the first n answers. */
  ghost predicate FromServer(text: string, answers: seq<Response>, n: int) {
    exists i :: 0 <= i < |answers| && i < n && Usable(answers[i]) && answers[i].body == text
  }

  lemma FromLaterAnswer(text: string, answers: seq<Response>, n: int)
    requires answers != [] && FromServer(text, answers[1..], n)
    ensures FromServer(text, answers, n + 1)
  {
    var i :| 0 <= i < |answers[1..]| && i < n && Usable(answers[1..][i]) && answers[1..][i].body == text;
    assert answers[i + 1].body == text;
  }

  /** Files that are neither the cookie file nor its sidecar are as they were. */
  ghost predicate OthersKept(dest: Dest, before: Disk, after: Disk) {
    forall p | p != dest.path && p != MetadataPath(dest.path) ::
      (p in after <==> p in before) && (p in before ==> after[p] == before[p])
  }

  /** The cookie file kept its bytes, or took a complete valid body of at most 2 MiB from a 200 answer. */
  ghost predicate CookieFileKept(dest: Dest, before: Disk, after: Disk, answers: seq<Response>, n: int) {
    || (dest.path !in before && dest.path !in after)
    || (dest.path in before && dest.path in after && after[dest.path] == before[dest.path])
    || (dest.path in after && after[dest.path].Bytes? && FromServer(after[dest.path].text, answers, n))
  }

  lemma PathsDiffer(path: string)
    ensures MetadataPath(path) != path
  {
    assert |MetadataPath(path)| > |path|;
  }

  lemma SaveIsSafe(dest: Dest, trust: Trust, disk: Disk, r: Response, io: Io)
    requires Usable(r)
    ensures var f := Save(dest, trust, disk, r, io);
            && f.requests == [trust.etag]
            && OthersKept(dest, disk, f.disk)
            && CookieFileKept(dest, disk, f.disk, [r], 1)
            && (!f.ok ==> f.trust == trust)
            && (f.ok ==> f.trust.content == r.body && f.trust.etag == r.etag)
            && (f.ok ==> CookieMatches(dest, f.trust, f.disk) && SidecarMatches(dest, f.trust, f.disk))
  {
    PathsDiffer(dest.path);
    assert FromServer(r.body, [r], 1) by { assert [r][0].body == r.body; }
  }

  /** Whatever the server says: at most two requests, the second unconditional; the cookie file keeps
      its bytes or takes a complete valid body; memory changes only on success, and only to what a
      server sent; a success leaves the files equal to the memory; other files are not touched. */
  lemma FetchIsSafe(dest: Dest, trust: Trust, disk: Disk, answers: seq<Response>, io: Io)
    ensures var f := FetchRun(dest, trust, disk, answers, io);
            && (f.requests == [trust.etag] || (trust.etag.Some? && f.requests == [trust.etag, None]))
            && OthersKept(dest, disk, f.disk)
            && CookieFileKept(dest, disk, f.disk, answers, |f.requests|)
            && (!f.ok ==> f.trust.content == trust.content && f.trust.sidecar == trust.sidecar
                          && f.trust.etag in {trust.etag, None})
            && (f.ok ==> f.trust == trust || FromServer(f.trust.content, answers, |f.requests|))
            && (f.ok ==> CookieMatches(dest, f.trust, f.disk) && SidecarMatches(dest, f.trust, f.disk))
    decreases if trust.etag.Some? then 1 else 0
  {
    if answers != [] && answers[0] != NoAnswer {
      var r := answers[0];
      if r.status == 304 && trust.etag.Some? && !LocalMatches(dest, trust, disk, io) {
        FetchIsSafe(dest, trust.(etag := None), disk, answers[1..], io);
        var f := FetchRun(dest, trust.(etag := None), disk, answers[1..], io);
        forall text | FromServer(text, answers[1..], |f.requests|) { FromLaterAnswer(text, answers, |f.requests|); }
      } else if Usable(r) {
        SaveIsSafe(dest, trust, disk, r, io);
        assert FromServer(r.body, answers, 1) by { assert answers[0].body == r.body; }
      }
    }
  }

  /** A 304 settles a fetch, with one request, exactly when the cookie file could be read and holds the remembered valid
      content, and so does the sidecar, if there is to be one; otherwise a second request follows. */
  lemma NotModifiedSettlesExactly(dest: Dest, trust: Trust, disk: Disk, answers: seq<Response>, io: Io)
    requires trust.etag.Some? && answers != [] && answers[0].Response? && answers[0].status == 304
    ensures |FetchRun(dest, trust, disk, answers, io).requests| == 1 <==>
      && io.cookieReadable && dest.path in disk && disk[dest.path] == Content.Bytes(trust.content)
      && StartsWith(trust.content, FIRST_LINE + "\n")
      && (dest.metadata ==>
            && io.sidecarReadable && trust.sidecar.Some?
            && MetadataPath(dest.path) in disk && disk[MetadataPath(dest.path)] == Sidecar(trust.sidecar.value))
  {
    if !LocalMatches(dest, trust, disk, io) {
      FetchIsSafe(dest, trust.(etag := None), disk, answers[1..], io);
    }
  }

  /** An answer that names another scope, or no proper revision, never becomes metadata: the fetch fails, keeps its
      memory, and leaves the sidecar as it was. */
  lemma ForeignAnswerIsRefused(dest: Dest, trust: Trust, disk: Disk, answers: seq<Response>, io: Io)
    requires dest.metadata && answers != [] && Usable(answers[0])
    requires var r := answers[0];
             || (r.provider != "" && r.provider != dest.scope.provider)
             || (r.profile != "" && r.profile != dest.scope.profile)
             || r.revision.None? || r.revision.value <= 0
    ensures var f := FetchRun(dest, trust, disk, answers, io);
            && !f.ok && f.trust == trust
            && (MetadataPath(dest.path) in f.disk <==> MetadataPath(dest.path) in disk)
            && (MetadataPath(dest.path) in disk ==> f.disk[MetadataPath(dest.path)] == disk[MetadataPath(dest.path)])
  {
    PathsDiffer(dest.path);
  }

  // ------------------------------------------------------------------ the broker

  /** GET cookies.txt: authorisation, the current snapshot, and the If-None-Match test. */
  function Serve(db: Db, user: string, s: Scope, ifNoneMatch: Option<Digest>): Response {
    if !MayReport(db, user, s) then
      Response(401, None, None, "", "", "", "", "", true)
    else if s !in db.current || (s, db.current[s]) !in db.revisions then
      Response(404, None, None, "", "", "", "", "", true)
    else
      var row := db.revisions[(s, db.current[s])];
      var matches := ifNoneMatch == Some(row.sha256);
      Response(if matches then 304 else 200, Some(row.sha256), Some(db.current[s]), s.provider, s.profile,
               Signed(row.capturedAt), Signed(row.createdAt),
               if matches then "" else Render(row.cookies), true)
  }

  /** A snapshot as the broker stores it: its hash is the hash of its cookies. */
  predicate Hashed(snap: Snapshot) {
    snap.sha256 == OfCookies(snap.cookies)
  }

  /** Every publication of the history went through validation. */
  ghost predicate Honest(h: seq<Request>) {
    forall i | 0 <= i < |h| && h[i].Publish? :: Hashed(h[i].snapshot)
  }

  lemma {:induction false} PublishedAreHashed(h: seq<Request>, s: Scope)
    requires Honest(h)
    ensures forall i | 0 <= i < |LogOf(h, s).published| :: Hashed(LogOf(h, s).published[i])
    decreases |h|
  {
    if h != [] {
      var past := h[..|h|-1];
      assert forall i | 0 <= i < |past| :: past[i] == h[i];
      PublishedAreHashed(past, s);
    }
  }

  /** Revision r of a scope was published with these file bytes. */
  ghost predicate Rendered(h: seq<Request>, s: Scope, r: int, text: string) {
    1 <= r <= |LogOf(h, s).published| && text == Render(LogOf(h, s).published[r - 1].cookies)
  }

  /** What the current snapshot of a published scope prints as. */
  ghost function CurrentFile(h: seq<Request>, s: Scope): string
    requires LogOf(h, s).pointer > 0
  {
    Render(LogOf(h, s).published[LogOf(h, s).pointer - 1].cookies)
  }

  /** Memory that goes back to a publication. */
  ghost predicate TrustSound(h: seq<Request>, s: Scope, trust: Trust) {
    trust.etag.Some? ==> exists r :: Tagged(h, s, r, trust.etag.value, trust.content)
  }

  ghost predicate Tagged(h: seq<Request>, s: Scope, r: int, tag: Digest, text: string) {
    Rendered(h, s, r, text) && tag == LogOf(h, s).published[r - 1].sha256
  }

  /** A sidecar that names a revision with exactly the bytes it records. */
  ghost predicate Genuine(h: seq<Request>, meta: Meta) {
    meta.sha256.OfText? && Rendered(h, meta.scope, meta.revision, meta.sha256.text)
  }

  lemma RenderedLater(h: seq<Request>, more: seq<Request>, s: Scope, r: int, text: string)
    requires Rendered(h, s, r, text)
    ensures Rendered(h + more, s, r, text)
  {
    LogGrows(h, more, s);
  }

  lemma TrustSoundLater(h: seq<Request>, more: seq<Request>, s: Scope, trust: Trust)
    requires TrustSound(h, s, trust)
    ensures TrustSound(h + more, s, trust)
  {
    if trust.etag.Some? {
      var r :| Tagged(h, s, r, trust.etag.value, trust.content);
      LogGrows(h, more, s);
      assert Tagged(h + more, s, r, trust.etag.value, trust.content);
    }
  }

  /** Who gets an answer, told from the history alone: cookies, or the news that they have not changed, go exactly to
      readers who hold the scope of something published; anybody else gets neither a body nor a tag nor a revision. */
  lemma AnswersOnlyReaders(h: seq<Request>, user: string, s: Scope, tag: Option<Digest>)
    ensures var r := Serve(Run(h), user, s, tag);
            var permitted := RoleOf(h, user) == Some("reader") && Holds(h, user, s);
            && r.Response? && r.complete
            && (r.status == 200 || r.status == 304 <==> permitted && LogOf(h, s).pointer > 0)
            && (r.status == 401 <==> !permitted)
            && (r.status == 404 <==> permitted && LogOf(h, s).pointer == 0)
            && (r.status == 401 || r.status == 404 ==> r.body == "" && r.etag.None? && r.revision.None?)
  {
    UserHolds(h, user);
    GrantHolds(h, user, s);
    RevisionsHold(h, s);
  }

  /** Either answer carries the scope it is about and the times of the current snapshot. */
  lemma AnswersCarryTimes(h: seq<Request>, user: string, s: Scope, tag: Option<Digest>)
    ensures var r := Serve(Run(h), user, s, tag);
            (r.status == 200 || r.status == 304) ==>
              var log := LogOf(h, s);
              && log.pointer > 0
              && r.provider == s.provider && r.profile == s.profile
              && r.capturedAt == Signed(log.published[log.pointer - 1].capturedAt)
              && r.createdAt == Signed(log.published[log.pointer - 1].createdAt)
  {
    RevisionsHold(h, s);
  }

  /** An answer of 200 carries the current file, its tag and its revision; an answer of 304 says that the current
      snapshot has the tag that was sent. */
  lemma AnswersAreCurrent(h: seq<Request>, user: string, s: Scope, tag: Option<Digest>)
    requires Honest(h)
    ensures var r := Serve(Run(h), user, s, tag);
            (r.status == 200 || r.status == 304) ==>
              var log := LogOf(h, s);
              && log.pointer > 0
              && r.revision == Some(log.pointer) && r.provider == s.provider && r.profile == s.profile
              && r.etag == Some(log.published[log.pointer - 1].sha256)
              && (r.status == 200 ==> r.body == CurrentFile(h, s))
              && (r.status == 304 <==> tag == r.etag)
  {
    RevisionsHold(h, s);
  }

  /** Equal tags mean equal cookies, so a 304 to a sound tag means that the content is current. */
  lemma NotModifiedIsCurrent(h: seq<Request>, user: string, s: Scope, trust: Trust)
    requires Honest(h) && TrustSound(h, s, trust) && trust.etag.Some?
    requires Serve(Run(h), user, s, trust.etag).status == 304
    ensures LogOf(h, s).pointer > 0 && trust.content == CurrentFile(h, s)
  {
    AnswersAreCurrent(h, user, s, trust.etag);
    PublishedAreHashed(h, s);
    var r :| Tagged(h, s, r, trust.etag.value, trust.content);
    var log := LogOf(h, s);
    assert Hashed(log.published[r - 1]) && Hashed(log.published[log.pointer - 1]);
  }

  lemma SaveRefines(h: seq<Request>, user: string, dest: Dest, trust: Trust, disk: Disk, tag: Option<Digest>, io: Io)
    requires Honest(h)
    requires Usable(Serve(Run(h), user, dest.scope, tag))
    requires Save(dest, trust, disk, Serve(Run(h), user, dest.scope, tag), io).ok
    ensures var f := Save(dest, trust, disk, Serve(Run(h), user, dest.scope, tag), io);
            && LogOf(h, dest.scope).pointer > 0
            && dest.path in f.disk && f.disk[dest.path] == Bytes(CurrentFile(h, dest.scope))
            && TrustSound(h, dest.scope, f.trust)
            && (f.trust.sidecar.Some? ==> Genuine(h, f.trust.sidecar.value) && f.trust.sidecar.value.scope == dest.scope)
  {
    PathsDiffer(dest.path);
    AnswersAreCurrent(h, user, dest.scope, tag);
    var r := Serve(Run(h), user, dest.scope, tag);
    assert Tagged(h, dest.scope, LogOf(h, dest.scope).pointer, r.etag.value, r.body);
  }

  /** What a successful fetch promises about the history seen by the last answer. */
  ghost predicate Current(f: Fetched, dest: Dest, last: seq<Request>) {
    && LogOf(last, dest.scope).pointer > 0
    && dest.path in f.disk && f.disk[dest.path] == Bytes(CurrentFile(last, dest.scope))
  }

  /** A fetch that gets a single answer other than 304. */
  lemma AnsweredFetchIsCurrent(h: seq<Request>, user: string, dest: Dest, trust: Trust, disk: Disk, rest: seq<Response>, io: Io)
    requires Honest(h) && TrustSound(h, dest.scope, trust)
    requires Serve(Run(h), user, dest.scope, trust.etag).status != 304
    ensures var f := FetchRun(dest, trust, disk, [Serve(Run(h), user, dest.scope, trust.etag)] + rest, io);
            && |f.requests| == 1 && TrustSound(h, dest.scope, f.trust)
            && (f.ok ==> Current(f, dest, h))
  {
    var r := Serve(Run(h), user, dest.scope, trust.etag);
    if Usable(r) && Save(dest, trust, disk, r, io).ok {
      SaveRefines(h, user, dest, trust, disk, trust.etag, io);
    }
  }

  /** Conditional synchronisation refines the unconditional: whenever a fetch succeeds, from any
      sound memory and with any files on disk, the cookie file is what the snapshot that was current
      when the last answer was served prints as, even if publications fell between the answers. */
  lemma FetchRefinesDownload(
    h: seq<Request>, more: seq<Request>, user: string, dest: Dest, trust: Trust, disk: Disk, io: Io)
    requires Honest(h) && Honest(h + more) && TrustSound(h, dest.scope, trust)
    ensures var answers := [Serve(Run(h), user, dest.scope, trust.etag), Serve(Run(h + more), user, dest.scope, None)];
            var f := FetchRun(dest, trust, disk, answers, io);
            && (f.ok ==> Current(f, dest, if |f.requests| == 1 then h else h + more))
            && TrustSound(h + more, dest.scope, f.trust)
  {
    var s := dest.scope;
    var first, second := Serve(Run(h), user, s, trust.etag), Serve(Run(h + more), user, s, None);
    var answers := [first, second];
    assert answers == [first] + [second] && answers[1..] == [second] + [];
    if first.status != 304 {
      AnsweredFetchIsCurrent(h, user, dest, trust, disk, [second], io);
      TrustSoundLater(h, more, s, FetchRun(dest, trust, disk, answers, io).trust);
    } else {
      AnswersAreCurrent(h, user, s, trust.etag);
      if LocalMatches(dest, trust, disk, io) {
        NotModifiedIsCurrent(h, user, s, trust);
        TrustSoundLater(h, more, s, trust);
      } else {
        AnswersAreCurrent(h + more, user, s, None);
        AnsweredFetchIsCurrent(h + more, user, dest, trust.(etag := None), disk, [], io);
      }
    }
  }

  /** Only a reader who held the scope when the last answer was served can fetch it. */
  lemma OnlyReadersSucceed(
    h: seq<Request>, more: seq<Request>, user: string, dest: Dest, trust: Trust, disk: Disk, io: Io)
    ensures var answers := [Serve(Run(h), user, dest.scope, trust.etag), Serve(Run(h + more), user, dest.scope, None)];
            var f := FetchRun(dest, trust, disk, answers, io);
            var last := if |f.requests| == 1 then h else h + more;
            f.ok ==> RoleOf(last, user) == Some("reader") && Holds(last, user, dest.scope)
  {
    var s := dest.scope;
    var first, second := Serve(Run(h), user, s, trust.etag), Serve(Run(h + more), user, s, None);
    assert [first, second][1..] == [second];
    AnswersOnlyReaders(h, user, s, trust.etag);
    AnswersOnlyReaders(h + more, user, s, None);
  }

  /** One fetch repairs any local state: with a reader that may read, a published scope whose file is
      within the limit, and files that can be written, it succeeds. */
  lemma FetchSucceeds(h: seq<Request>, user: string, dest: Dest, trust: Trust, disk: Disk, io: Io)
    requires Honest(h) && MayReport(Run(h), user, dest.scope) && LogOf(h, dest.scope).pointer > 0
    requires UploadSize.Bytes(CurrentFile(h, dest.scope)) <= MAX_COOKIE_FILE
    requires Outcome(io.cookieWrite) == Written && Outcome(io.sidecarWrite) == Written
    ensures FetchRun(dest, trust, disk,
              [Serve(Run(h), user, dest.scope, trust.etag), Serve(Run(h), user, dest.scope, None)], io).ok
  {
    var s := dest.scope;
    TablesAgree(h);
    assert RevisionsAgree(Run(h), h, s);
    AnswersAreCurrent(h, user, s, trust.etag);
    AnswersAreCurrent(h, user, s, None);
    RenderIsValid(LogOf(h, s).published[LogOf(h, s).pointer - 1].cookies);
    var answers := [Serve(Run(h), user, s, trust.etag), Serve(Run(h), user, s, None)];
    assert answers[1..] == [answers[1]];
  }

  lemma RenderIsValid(cookies: seq<Cookie>)
    ensures ValidCookieFile(Render(cookies))
  {
    var first := FIRST_LINE + "\n";
    assert Render(cookies) == first + (SECOND_LINE + "\n" + Rows(cookies));
  }

  // ------------------------------------------------------------------ which revision the sidecar names

  /** What a client can see of a fetch that keeps its old sidecar: a 304 whose revision header differs. */
  predicate KeepsOldRevision(trust: Trust, first: Response, requests: seq<Option<Digest>>) {
    && first.Response? && first.status == 304 && |requests| == 1
    && trust.sidecar.Some? && first.revision != Some(trust.sidecar.value.revision)
  }

  /** A successful fetch with metadata leaves a sidecar that names the revision current at the last answer,
      unless the first answer was a 304 that settled it while carrying another revision than the sidecar. */
  lemma SidecarIsCurrentExactly(
    h: seq<Request>, more: seq<Request>, user: string, dest: Dest, trust: Trust, disk: Disk, io: Io)
    requires Honest(h) && Honest(h + more) && dest.metadata
    ensures var first, second := Serve(Run(h), user, dest.scope, trust.etag), Serve(Run(h + more), user, dest.scope, None);
            var f := FetchRun(dest, trust, disk, [first, second], io);
            var last := if |f.requests| == 1 then h else h + more;
            f.ok ==>
              && f.trust.sidecar.Some?
              && (f.trust.sidecar.value.revision == LogOf(last, dest.scope).pointer <==>
                    !KeepsOldRevision(trust, first, f.requests))
  {
    var s := dest.scope;
    var first, second := Serve(Run(h), user, s, trust.etag), Serve(Run(h + more), user, s, None);
    var answers := [first, second];
    assert answers[1..] == [second];
    AnswersAreCurrent(h, user, s, trust.etag);
    if first.status != 304 {
      if Usable(first) { SavedRevisionIsCurrent(h, user, dest, trust, disk, trust.etag, io); }
    } else if !LocalMatches(dest, trust, disk, io) {
      AnswersAreCurrent(h + more, user, s, None);
      if Usable(second) { SavedRevisionIsCurrent(h + more, user, dest, trust.(etag := None), disk, None, io); }
    }
  }

  lemma SavedRevisionIsCurrent(h: seq<Request>, user: string, dest: Dest, trust: Trust, disk: Disk, tag: Option<Digest>, io: Io)
    requires Honest(h) && dest.metadata && Usable(Serve(Run(h), user, dest.scope, tag))
    ensures var f := Save(dest, trust, disk, Serve(Run(h), user, dest.scope, tag), io);
            && f.requests == [trust.etag]
            && (f.ok ==> f.trust.sidecar.Some? && f.trust.sidecar.value.revision == LogOf(h, dest.scope).pointer)
  {
    AnswersAreCurrent(h, user, dest.scope, tag);
  }

  /** The sidecar of the current revision, field by field. */
  ghost predicate IsSidecar(h: seq<Request>, s: Scope, meta: Meta) {
    var log := LogOf(h, s);
    && log.pointer > 0 && meta.scope == s && meta.revision == log.pointer && meta.sha256 == OfText(CurrentFile(h, s))
    && meta.capturedAt == Signed(log.published[log.pointer - 1].capturedAt)
    && meta.createdAt == Signed(log.published[log.pointer - 1].createdAt)
  }

  /** A file that is saved with its metadata gets a sidecar of the current revision. */
  lemma SavedSidecarIsCurrent(h: seq<Request>, user: string, dest: Dest, trust: Trust, disk: Disk, tag: Option<Digest>, io: Io)
    requires Honest(h) && dest.metadata && Usable(Serve(Run(h), user, dest.scope, tag))
    ensures var f := Save(dest, trust, disk, Serve(Run(h), user, dest.scope, tag), io);
            f.ok ==> f.trust.sidecar.Some? && IsSidecar(h, dest.scope, f.trust.sidecar.value)
  {
    AnswersAreCurrent(h, user, dest.scope, tag);
    AnswersCarryTimes(h, user, dest.scope, tag);
  }

  /** It happens after every recovery with equal cookies: a reader in step with the revision before it keeps
      the sidecar of that revision, while the current one is new. */
  lemma RecoveryLeavesSidecar(h: seq<Request>, user: string, dest: Dest, trust: Trust, disk: Disk, io: Io, snap: Snapshot)
    requires MayReport(Run(h), user, dest.scope) && LogOf(h, dest.scope).pointer > 0 && dest.metadata
    requires snap.reason == Recovery
    requires trust.etag == Some(snap.sha256) && LocalMatches(dest, trust, disk, io)
    requires trust.sidecar.value.revision <= |LogOf(h, dest.scope).published|
    ensures var after := h + [Publish(dest.scope, snap)];
            var f := FetchRun(dest, trust, disk, [Serve(Run(after), user, dest.scope, trust.etag)], io);
            && f.ok && f.trust == trust && f.disk == disk
            && LogOf(after, dest.scope).pointer > trust.sidecar.value.revision
  {
    var s := dest.scope;
    var after := h + [Publish(s, snap)];
    assert after[..|after|-1] == h && after[|after|-1] == Publish(s, snap);
    LogStep(h, Publish(s, snap), s);
    TablesAgree(after);
    assert RevisionsAgree(Run(after), after, s);
    assert MayReport(Run(after), user, s);
  }

  const ALL_WELL := Fate(true, true, true, None, true, true, true, true, true)

  /** A reader with one scope, and its first publication. */
  function Beginning(s: Scope, snap: Snapshot): seq<Request> {
    [CreateUser("r", "", true, "reader", [s]), Publish(s, snap)]
  }

  lemma BeginningIsReadable(s: Scope, snap: Snapshot)
    requires ValidScope(s) && Hashed(snap)
    ensures Honest(Beginning(s, snap)) && MayReport(Run(Beginning(s, snap)), "r", s)
    ensures LogOf(Beginning(s, snap), s) == Log([snap], 1)
  {
    var h, create := Beginning(s, snap), [CreateUser("r", "", true, "reader", [s])];
    assert h[..1] == create && create[..0] == [];
    assert LogOf(create, s) == Log([], 0);
    var db := EMPTY.(users := map["r" := User("", "reader")]);
    assert EMPTY.users["r" := User("", "reader")] == db.users;
    assert GrantAll(db, "r", [s]) == Some(GrantOne(db, "r", s));
    assert Run(create) == GrantOne(db, "r", s);
  }

  /** One whole run: a first fetch, a recovery with the same cookies, a second fetch.  The sidecar then names
      revision 1 while revision 2 is current. */
  lemma SidecarMayBeOld(dest: Dest, snap: Snapshot)
    requires ValidScope(dest.scope) && Hashed(snap) && dest.metadata
    requires UploadSize.Bytes(Render(snap.cookies)) <= MAX_COOKIE_FILE
    ensures var h, s := Beginning(dest.scope, snap), dest.scope;
            var after := h + [Publish(s, snap.(reason := Recovery))];
            var io := Io(true, true, ALL_WELL, ALL_WELL);
            var first := FetchRun(dest, UNTRUSTED, map[], [Serve(Run(h), "r", s, None)], io);
            var second := FetchRun(dest, first.trust, first.disk, [Serve(Run(after), "r", s, first.trust.etag)], io);
            && first.ok && second.ok && second.trust.sidecar.Some? && second.trust.sidecar.value.revision == 1
            && LogOf(after, s).pointer == 2
  {
    var h, s := Beginning(dest.scope, snap), dest.scope;
    var io := Io(true, true, ALL_WELL, ALL_WELL);
    BeginningIsReadable(s, snap);
    var r := Serve(Run(h), "r", s, None);
    TablesAgree(h);
    assert RevisionsAgree(Run(h), h, s);
    AnswersAreCurrent(h, "r", s, None);
    RenderIsValid(snap.cookies);
    assert Usable(r);
    var first := FetchRun(dest, UNTRUSTED, map[], [r], io);
    SaveIsSafe(dest, UNTRUSTED, map[], r, io);
    assert first == Save(dest, UNTRUSTED, map[], r, io);
    assert first.ok && first.trust.sidecar.value.revision == 1;
    RecoveryLeavesSidecar(h, "r", dest, first.trust, first.disk, io, snap.(reason := Recovery));
    LogStep(h, Publish(s, snap.(reason := Recovery)), s);
  }
}
