/**
 cookie-sync one step at a time: several targets on one disk, while the broker moves on, files are tampered
 with, the process crashes, also in the middle of a write, and a wrapper reports on the files it finds.
 */
module SyncRuns {
  import opened Cookies
  import opened Disks
  import opened Tables
  import opened History
  import opened Sync

  // ------------------------------------------------------------------ the machine

  /** Where a fetch is: between its request, the answer, the checks of local files, and the writes. */
  datatype Point =
    | Idle
    | Asked(tag: Option<Digest>)
    | Answered(r: Response)
    | CookieChecked
    | CookieSaved(r: Response)
    | SidecarSaved(r: Response, meta: Option<Meta>)

  /** One target of the process: what it remembers and where its fetch is. */
  datatype Fetcher = Fetcher(
    dest: Dest,
    trust: Trust,
    point: Point,
    served: seq<Request>,           // the history behind the latest answer
    touched: bool)                  // somebody wrote the cookie file from outside since it was saved or checked

  /** A report being made: the bytes read so far. */
  datatype Reporter = Resting | HasRead(text: string)

  datatype Sent = Sent(scope: Scope, revision: int, text: string)

  datatype World = World(
    history: seq<Request>,          // what the broker has been asked so far
    user: string,
    disk: Disk,
    fetchers: seq<Fetcher>,
    reporter: Reporter,
    minted: set<Meta>,              // sidecars that cookie-sync has written, or begun to
    sent: seq<Sent>)                // reports that left, with the bytes they were made about

  /** t names a target; steps is how far a write gets, up to its end or to a crash. */
  datatype Action =
    | Broker(q: Request)
    | Ask(t: nat)
    | Answer(t: nat)
    | Lose(t: nat)                                     // no answer, an error status, or a failed read
    | CheckCookie(t: nat, readable: bool)
    | CheckSidecar(t: nat, readable: bool)
    | SaveCookie(t: nat, steps: seq<Event>)
    | SaveSidecar(t: nat, steps: seq<Event>)
    | Commit(t: nat)
    | Crash
    | Tamper(path: string, content: Option<Content>)   // None deletes
    | ReadCookies(path: string)
    | SendReport(path: string, scope: Scope)

  /** Whoever tampers may write any bytes, and any sidecar that cookie-sync once wrote, but no other. */
  predicate NoForgery(w: World, content: Option<Content>) {
    content.Some? && content.value.Sidecar? ==> content.value.meta in w.minted
  }

  /** hashMismatch and the identity checks of reportHealth. */
  predicate Vouches(meta: Meta, scope: Scope, text: string) {
    meta.scope == scope && meta.revision > 0 && meta.sha256 == OfText(text)
  }

  predicate Ready(f: Fetcher, a: Action) {
    match a
    case Ask(_) => f.point.Idle?
    case Answer(_) => f.point.Asked?
    case Lose(_) => !f.point.Idle?
    case CheckCookie(_, _) => f.point.Answered? && f.point.r.Response? && f.point.r.status == 304
    case CheckSidecar(_, _) => f.point.CookieChecked?
    case SaveCookie(_, _) => f.point.Answered? && Usable(f.point.r)
    case SaveSidecar(_, _) => f.point.CookieSaved? && f.point.r.Response?
    case Commit(_) => f.point.SidecarSaved? && f.point.r.Response?
    case _ => true
  }

  /** The target that an action is about. */
  function TargetOf(a: Action): Option<nat> {
    match a
    case Ask(t) => Some(t)
    case Answer(t) => Some(t)
    case Lose(t) => Some(t)
    case CheckCookie(t, _) => Some(t)
    case CheckSidecar(t, _) => Some(t)
    case SaveCookie(t, _) => Some(t)
    case SaveSidecar(t, _) => Some(t)
    case Commit(t) => Some(t)
    case _ => None
  }

  predicate Enabled(w: World, a: Action) {
    && (TargetOf(a).Some? ==> TargetOf(a).value < |w.fetchers| && Ready(w.fetchers[TargetOf(a).value], a))
    && match a
       case Broker(q) => q.Publish? ==> Hashed(q.snapshot)
       case Tamper(_, content) => NoForgery(w, content)
       case ReadCookies(_) => w.reporter.Resting?
       case SendReport(_, _) => w.reporter.HasRead?
       case _ => true
  }

  function Put(w: World, t: nat, f: Fetcher): World
    requires t < |w.fetchers|
  {
    w.(fetchers := w.fetchers[t := f])
  }

  /** A process that starts again remembers nothing. */
  function Restarted(f: Fetcher): Fetcher {
    f.(trust := UNTRUSTED, point := Idle)
  }

  function Crashes(w: World): World {
    w.(fetchers := seq(|w.fetchers|, i requires 0 <= i < |w.fetchers| => Restarted(w.fetchers[i])))
  }

  /** A mismatch after a 304 forgets the tag and asks again. */
  function AskAgain(f: Fetcher): Fetcher {
    f.(trust := f.trust.(etag := None), point := Asked(None))
  }

  /** The end of a write: the fetch goes on, gives up, or is gone with its process. */
  function Wrote(w: World, t: nat, written: Writing, next: Fetcher): World
    requires t < |w.fetchers|
  {
    var after := w.(disk := written.disk);
    match written.stage
    case Done(ok) => Put(after, t, if ok then next else w.fetchers[t].(point := Idle))
    case _ => Crashes(after)
  }

  ghost function Next(w: World, a: Action): World
    requires Enabled(w, a)
  {
    match a
    case Broker(q) => w.(history := w.history + [q])
    case Ask(t) => Put(w, t, w.fetchers[t].(point := Asked(w.fetchers[t].trust.etag)))
    case Answer(t) =>
      var f := w.fetchers[t];
      Put(w, t, f.(point := Answered(Serve(Run(w.history), w.user, f.dest.scope, f.point.tag)), served := w.history))
    case Lose(t) => Put(w, t, w.fetchers[t].(point := Idle))
    case CheckCookie(t, readable) =>
      var f := w.fetchers[t];
      Put(w, t,
        if f.trust.etag.None? then f.(point := Idle)
        else if readable && CookieMatches(f.dest, f.trust, w.disk) then f.(point := CookieChecked, touched := false)
        else AskAgain(f))
    case CheckSidecar(t, readable) =>
      var f := w.fetchers[t];
      Put(w, t,
        if (f.dest.metadata ==> readable) && SidecarMatches(f.dest, f.trust, w.disk) then f.(point := Idle)
        else AskAgain(f))
    case SaveCookie(t, steps) =>
      var f := w.fetchers[t];
      Wrote(w, t, Proceed(w.disk, f.dest.path, Content.Bytes(f.point.r.body), steps),
        f.(point := CookieSaved(f.point.r), touched := false))
    case SaveSidecar(t, steps) =>
      var f := w.fetchers[t];
      if !f.dest.metadata then Put(w, t, f.(point := SidecarSaved(f.point.r, None))) else
        (match MetadataOf(f.dest, f.point.r)
         case None => Put(w, t, f.(point := Idle))
         case Some(meta) =>
           Wrote(w.(minted := w.minted + {meta}), t,
             Proceed(w.disk, MetadataPath(f.dest.path), Sidecar(meta), steps),
             f.(point := SidecarSaved(f.point.r, Some(meta)))))
    case Commit(t) =>
      var f := w.fetchers[t];
      Put(w, t, f.(trust := Trust(f.point.r.etag, f.point.r.body, f.point.meta), point := Idle))
    case Crash => Crashes(w)
    case Tamper(path, content) =>
      w.(disk := if content.Some? then w.disk[path := content.value] else w.disk - {path},
         fetchers := seq(|w.fetchers|, i requires 0 <= i < |w.fetchers| =>
           w.fetchers[i].(touched := w.fetchers[i].touched || path == w.fetchers[i].dest.path)))
    case ReadCookies(path) =>
      if path in w.disk && w.disk[path].Bytes? && ValidCookieFile(w.disk[path].text)
      then w.(reporter := HasRead(w.disk[path].text)) else w
    case SendReport(path, scope) =>
      var done := w.(reporter := Resting);
      if path in w.disk && w.disk[path].Sidecar? && Vouches(w.disk[path].meta, scope, w.reporter.text)
      then done.(sent := w.sent + [Sent(scope, w.disk[path].meta.revision, w.reporter.text)]) else done
  }

  /** A run takes its enabled actions and skips the others. */
  ghost function RunFrom(w: World, actions: seq<Action>): World {
    if actions == [] then w else
      var before := RunFrom(w, actions[..|actions|-1]);
      var a := actions[|actions|-1];
      if Enabled(before, a) then Next(before, a) else before
  }

  /** No two targets write to the same file, as the parser of target lists sees to. */
  predicate Separate(fetchers: seq<Fetcher>) {
    forall i, j | 0 <= i < |fetchers| && 0 <= j < |fetchers| && i != j ::
      fetchers[i].dest.path != fetchers[j].dest.path && MetadataPath(fetchers[i].dest.path) != fetchers[j].dest.path
  }

  /** A process that has just started; the disk holds anything but sidecars. */
  ghost predicate Initial(w: World) {
    && Honest(w.history) && Separate(w.fetchers) && w.reporter.Resting?
    && (forall i | 0 <= i < |w.fetchers| :: w.fetchers[i].trust == UNTRUSTED && w.fetchers[i].point.Idle?)
    && w.minted == {} && w.sent == []
    && (forall p | p in w.disk :: !w.disk[p].Sidecar?)
  }

  // ------------------------------------------------------------------ the invariant

  /** An answer of the broker to some earlier moment of the history. */
  ghost predicate FromBroker(h: seq<Request>, s: Scope, r: Response) {
    && r.Response?
    && (r.status == 200 || r.status == 304 ==> r.etag.Some? && r.revision.Some?)
    && (r.status == 200 ==> Tagged(h, s, r.revision.value, r.etag.value, r.body))
  }

  /** The latest answer said this about the snapshot that was current then. */
  ghost predicate LatestBody(h: seq<Request>, f: Fetcher, text: string) {
    && f.served <= h
    && LogOf(f.served, f.dest.scope).pointer > 0
    && text == CurrentFile(f.served, f.dest.scope)
  }

  /** A sidecar that this process wrote about these bytes. */
  ghost predicate Records(minted: set<Meta>, f: Fetcher, meta: Meta, text: string) {
    meta in minted && meta.sha256 == OfText(text) && meta.scope == f.dest.scope
  }

  ghost predicate OnDisk(disk: Disk, f: Fetcher, text: string) {
    f.touched || (f.dest.path in disk && disk[f.dest.path] == Content.Bytes(text))
  }

  ghost predicate PointSound(h: seq<Request>, disk: Disk, minted: set<Meta>, f: Fetcher) {
    match f.point
    case Idle => true
    case Asked(tag) => tag == f.trust.etag
    case Answered(r) =>
      && FromBroker(h, f.dest.scope, r)
      && (r.status == 200 ==> LatestBody(h, f, r.body))
      && (r.status == 304 && f.trust.etag.Some? ==> LatestBody(h, f, f.trust.content))
    case CookieChecked => LatestBody(h, f, f.trust.content) && OnDisk(disk, f, f.trust.content)
    case CookieSaved(r) =>
      Usable(r) && FromBroker(h, f.dest.scope, r) && LatestBody(h, f, r.body) && OnDisk(disk, f, r.body)
    case SidecarSaved(r, meta) =>
      && Usable(r) && FromBroker(h, f.dest.scope, r) && LatestBody(h, f, r.body) && OnDisk(disk, f, r.body)
      && (meta.Some? ==> Records(minted, f, meta.value, r.body))
  }

  /** Nothing, or the bytes of some publication. */
  ghost predicate Published(h: seq<Request>, s: Scope, text: string) {
    text == "" || exists r :: Rendered(h, s, r, text)
  }

  ghost predicate MemorySound(h: seq<Request>, minted: set<Meta>, f: Fetcher) {
    && Published(h, f.dest.scope, f.trust.content)
    && TrustSound(h, f.dest.scope, f.trust)
    && (f.trust.sidecar.Some? ==> Records(minted, f, f.trust.sidecar.value, f.trust.content))
  }

  ghost predicate FetcherSound(h: seq<Request>, disk: Disk, minted: set<Meta>, f: Fetcher) {
    MemorySound(h, minted, f) && PointSound(h, disk, minted, f)
  }

  ghost predicate FilesSound(disk: Disk, minted: set<Meta>) {
    forall p | p in disk && disk[p].Sidecar? :: disk[p].meta in minted
  }

  ghost predicate MintedSound(h: seq<Request>, minted: set<Meta>) {
    forall meta | meta in minted :: Genuine(h, meta)
  }

  ghost predicate SentSound(h: seq<Request>, sent: seq<Sent>) {
    forall i | 0 <= i < |sent| :: Rendered(h, sent[i].scope, sent[i].revision, sent[i].text)
  }

  /** What does not depend on where a fetch is. */
  ghost predicate RecordsSound(w: World) {
    && Honest(w.history) && Separate(w.fetchers) && FilesSound(w.disk, w.minted)
    && MintedSound(w.history, w.minted) && SentSound(w.history, w.sent)
  }

  ghost predicate FetcherSoundAt(w: World, t: int)
    requires 0 <= t < |w.fetchers|
  {
    FetcherSound(w.history, w.disk, w.minted, w.fetchers[t])
  }

  ghost predicate Sound(w: World) {
    RecordsSound(w) && forall t | 0 <= t < |w.fetchers| :: FetcherSoundAt(w, t)
  }

  // ------------------------------------------------------------------ what one step leaves alone

  /** The cookie file of a target is as it was. */
  predicate FileKept(f: Fetcher, before: Disk, after: Disk) {
    f.dest.path in before ==> f.dest.path in after && after[f.dest.path] == before[f.dest.path]
  }

  /** A longer history, more sidecars, and other files do not concern a fetch. */
  lemma FetcherLater(h: seq<Request>, more: seq<Request>, disk: Disk, after: Disk, minted: set<Meta>, mint: set<Meta>, f: Fetcher)
    requires FetcherSound(h, disk, minted, f) && minted <= mint && (f.touched || FileKept(f, disk, after))
    ensures FetcherSound(h + more, after, mint, f)
  {
    MemoryLater(h, more, minted, mint, f);
    PointLater(h, more, disk, after, minted, mint, f);
  }

  lemma MemoryLater(h: seq<Request>, more: seq<Request>, minted: set<Meta>, mint: set<Meta>, f: Fetcher)
    requires MemorySound(h, minted, f) && minted <= mint
    ensures MemorySound(h + more, mint, f)
  {
    var s := f.dest.scope;
    TrustSoundLater(h, more, s, f.trust);
    if r :| Rendered(h, s, r, f.trust.content) { RenderedLater(h, more, s, r, f.trust.content); }
  }

  lemma FromBrokerLater(h: seq<Request>, more: seq<Request>, s: Scope, r: Response)
    requires FromBroker(h, s, r)
    ensures FromBroker(h + more, s, r)
  {
    LogGrows(h, more, s);
  }

  lemma PointLater(h: seq<Request>, more: seq<Request>, disk: Disk, after: Disk, minted: set<Meta>, mint: set<Meta>, f: Fetcher)
    requires PointSound(h, disk, minted, f) && minted <= mint && (f.touched || FileKept(f, disk, after))
    ensures PointSound(h + more, after, mint, f)
  {
    assert h <= h + more;
    match f.point
    case Answered(r) => FromBrokerLater(h, more, f.dest.scope, r);
    case CookieSaved(r) => FromBrokerLater(h, more, f.dest.scope, r);
    case SidecarSaved(r, _) => FromBrokerLater(h, more, f.dest.scope, r);
    case _ =>
  }

  lemma RestartedIsSound(h: seq<Request>, disk: Disk, minted: set<Meta>, f: Fetcher)
    ensures FetcherSound(h, disk, minted, Restarted(f))
  {
  }

  /** A step of one target that leaves history and disk alone. */
  lemma PutKeepsSound(w: World, t: nat, f: Fetcher)
    requires Sound(w) && t < |w.fetchers| && f.dest == w.fetchers[t].dest
    requires FetcherSound(w.history, w.disk, w.minted, f)
    ensures Sound(Put(w, t, f))
  {
    var after := Put(w, t, f);
    forall u | 0 <= u < |after.fetchers| ensures FetcherSoundAt(after, u) {
      if u != t { assert FetcherSoundAt(w, u); }
    }
  }

  lemma CrashesKeepsSound(w: World)
    requires RecordsSound(w)
    ensures Sound(Crashes(w))
  {
    var after := Crashes(w);
    forall u | 0 <= u < |after.fetchers| ensures FetcherSoundAt(after, u) {
      RestartedIsSound(w.history, w.disk, w.minted, w.fetchers[u]);
    }
  }

  // ------------------------------------------------------------------ writes

  /** A write of one target leaves the cookie files of the others alone. */
  lemma WriteKeepsFile(disk: Disk, path: string, content: Content, steps: seq<Event>, f: Fetcher)
    requires path != f.dest.path
    ensures FileKept(f, disk, Proceed(disk, path, content, steps).disk)
  {
    TargetIsWhole(disk, path, content, steps);
    var after := Proceed(disk, path, content, steps).disk;
    var name: Option<string> :| (name.Some? ==> name.value !in disk) && SameBut(disk, after, path, name);
    if f.dest.path in disk { assert name != Some(f.dest.path); }
  }

  lemma WriteKeepsFiles(disk: Disk, path: string, content: Content, steps: seq<Event>, minted: set<Meta>)
    requires FilesSound(disk, minted) && (content.Sidecar? ==> content.meta in minted)
    ensures FilesSound(Proceed(disk, path, content, steps).disk, minted)
  {
    SidecarsComeFromContent(disk, path, content, steps);
  }

  /** The file is one of the two that the target writes. */
  predicate Writes(f: Fetcher, path: string) {
    path == f.dest.path || path == MetadataPath(f.dest.path)
  }

  lemma OthersKeepSound(w: World, t: nat, path: string, content: Content, steps: seq<Event>, u: int)
    requires Sound(w) && t < |w.fetchers| && 0 <= u < |w.fetchers| && u != t && Writes(w.fetchers[t], path)
    ensures FetcherSound(w.history, Proceed(w.disk, path, content, steps).disk, w.minted, w.fetchers[u])
  {
    assert FetcherSoundAt(w, u);
    WriteKeepsFile(w.disk, path, content, steps, w.fetchers[u]);
    var after := Proceed(w.disk, path, content, steps).disk;
    FetcherLater(w.history, [], w.disk, after, w.minted, w.minted, w.fetchers[u]);
    assert w.history + [] == w.history;
  }

  lemma WroteKeepsSound(w: World, t: nat, path: string, content: Content, steps: seq<Event>, next: Fetcher)
    requires Sound(w) && t < |w.fetchers| && Writes(w.fetchers[t], path) && next.dest == w.fetchers[t].dest
    requires content.Sidecar? ==> content.meta in w.minted
    requires FetcherSound(w.history, w.disk[path := content], w.minted, next)
    ensures Sound(Wrote(w, t, Proceed(w.disk, path, content, steps), next))
  {
    var written := Proceed(w.disk, path, content, steps);
    var between := w.(disk := written.disk);
    TargetIsWhole(w.disk, path, content, steps);
    WriteKeepsFiles(w.disk, path, content, steps, w.minted);
    assert RecordsSound(between);
    if written.stage.Done? {
      var f := if written.stage.ok then next else w.fetchers[t].(point := Idle);
      var after := Put(between, t, f);
      assert FetcherSoundAt(w, t);
      assert FetcherSound(w.history, written.disk, w.minted, f);
      forall u | 0 <= u < |after.fetchers| ensures FetcherSoundAt(after, u) {
        if u != t { OthersKeepSound(w, t, path, content, steps, u); }
      }
    } else {
      CrashesKeepsSound(between);
    }
  }

  lemma SaveCookieKeepsSound(w: World, t: nat, steps: seq<Event>)
    requires Sound(w) && Enabled(w, SaveCookie(t, steps))
    ensures Sound(Next(w, SaveCookie(t, steps)))
  {
    var f := w.fetchers[t];
    assert FetcherSoundAt(w, t);
    var next := f.(point := CookieSaved(f.point.r), touched := false);
    WroteKeepsSound(w, t, f.dest.path, Content.Bytes(f.point.r.body), steps, next);
  }

  lemma MetadataIsGenuine(h: seq<Request>, dest: Dest, r: Response)
    requires FromBroker(h, dest.scope, r) && Usable(r) && MetadataOf(dest, r).Some?
    ensures Genuine(h, MetadataOf(dest, r).value)
  {
  }

  lemma MintingKeepsSound(w: World, meta: Meta)
    requires Sound(w) && Genuine(w.history, meta)
    ensures Sound(w.(minted := w.minted + {meta}))
  {
    var after := w.(minted := w.minted + {meta});
    forall u | 0 <= u < |w.fetchers| ensures FetcherSoundAt(after, u) {
      assert FetcherSoundAt(w, u);
      FetcherLater(w.history, [], w.disk, w.disk, w.minted, after.minted, w.fetchers[u]);
      assert w.history + [] == w.history;
    }
  }

  lemma SaveSidecarKeepsSound(w: World, t: nat, steps: seq<Event>)
    requires Sound(w) && Enabled(w, SaveSidecar(t, steps))
    ensures Sound(Next(w, SaveSidecar(t, steps)))
  {
    var f := w.fetchers[t];
    assert FetcherSoundAt(w, t);
    if !f.dest.metadata {
      PutKeepsSound(w, t, f.(point := SidecarSaved(f.point.r, None)));
    } else if MetadataOf(f.dest, f.point.r).None? {
      PutKeepsSound(w, t, f.(point := Idle));
    } else {
      var meta := MetadataOf(f.dest, f.point.r).value;
      var path := MetadataPath(f.dest.path);
      MetadataIsGenuine(w.history, f.dest, f.point.r);
      MintingKeepsSound(w, meta);
      var more := w.(minted := w.minted + {meta});
      PathsDiffer(f.dest.path);
      assert FetcherSoundAt(more, t);
      var next := f.(point := SidecarSaved(f.point.r, Some(meta)));
      assert FetcherSound(more.history, more.disk[path := Sidecar(meta)], more.minted, next);
      WroteKeepsSound(more, t, path, Sidecar(meta), steps, next);
    }
  }

  // ------------------------------------------------------------------ the other steps

  lemma BrokerKeepsSound(w: World, q: Request)
    requires Sound(w) && Enabled(w, Broker(q))
    ensures Sound(Next(w, Broker(q)))
  {
    var h, more, after := w.history, [q], Next(w, Broker(q));
    assert Honest(h + more);
    forall meta | meta in w.minted ensures Genuine(h + more, meta) {
      RenderedLater(h, more, meta.scope, meta.revision, meta.sha256.text);
    }
    forall i | 0 <= i < |w.sent| ensures Rendered(h + more, w.sent[i].scope, w.sent[i].revision, w.sent[i].text) {
      RenderedLater(h, more, w.sent[i].scope, w.sent[i].revision, w.sent[i].text);
    }
    forall u | 0 <= u < |w.fetchers| ensures FetcherSoundAt(after, u) {
      assert FetcherSoundAt(w, u);
      FetcherLater(h, more, w.disk, w.disk, w.minted, w.minted, w.fetchers[u]);
    }
  }

  lemma AnswerIsFromBroker(h: seq<Request>, user: string, s: Scope, trust: Trust)
    requires Honest(h) && TrustSound(h, s, trust)
    ensures var r := Serve(Run(h), user, s, trust.etag);
            && FromBroker(h, s, r)
            && (r.status == 200 ==> LogOf(h, s).pointer > 0 && r.body == CurrentFile(h, s))
            && (r.status == 304 && trust.etag.Some? ==> LogOf(h, s).pointer > 0 && trust.content == CurrentFile(h, s))
  {
    var r := Serve(Run(h), user, s, trust.etag);
    AnswersAreCurrent(h, user, s, trust.etag);
    if r.status == 304 && trust.etag.Some? { NotModifiedIsCurrent(h, user, s, trust); }
    if r.status == 200 { assert Tagged(h, s, r.revision.value, r.etag.value, r.body); }
  }

  lemma AnswerKeepsSound(w: World, t: nat)
    requires Sound(w) && Enabled(w, Answer(t))
    ensures Sound(Next(w, Answer(t)))
  {
    var f := w.fetchers[t];
    assert FetcherSoundAt(w, t);
    AnswerIsFromBroker(w.history, w.user, f.dest.scope, f.trust);
    PutKeepsSound(w, t,
      f.(point := Answered(Serve(Run(w.history), w.user, f.dest.scope, f.point.tag)), served := w.history));
  }

  lemma AskingAgainIsSound(w: World, t: nat)
    requires Sound(w) && t < |w.fetchers|
    ensures Sound(Put(w, t, AskAgain(w.fetchers[t])))
  {
    assert FetcherSoundAt(w, t);
    PutKeepsSound(w, t, AskAgain(w.fetchers[t]));
  }

  lemma CheckCookieKeepsSound(w: World, t: nat, readable: bool)
    requires Sound(w) && Enabled(w, CheckCookie(t, readable))
    ensures Sound(Next(w, CheckCookie(t, readable)))
  {
    var f := w.fetchers[t];
    assert FetcherSoundAt(w, t);
    if f.trust.etag.None? {
      PutKeepsSound(w, t, f.(point := Idle));
    } else if readable && CookieMatches(f.dest, f.trust, w.disk) {
      PutKeepsSound(w, t, f.(point := CookieChecked, touched := false));
    } else {
      AskingAgainIsSound(w, t);
    }
  }

  lemma CheckSidecarKeepsSound(w: World, t: nat, readable: bool)
    requires Sound(w) && Enabled(w, CheckSidecar(t, readable))
    ensures Sound(Next(w, CheckSidecar(t, readable)))
  {
    var f := w.fetchers[t];
    assert FetcherSoundAt(w, t);
    if (f.dest.metadata ==> readable) && SidecarMatches(f.dest, f.trust, w.disk) {
      PutKeepsSound(w, t, f.(point := Idle));
    } else {
      AskingAgainIsSound(w, t);
    }
  }

  lemma CommitKeepsSound(w: World, t: nat)
    requires Sound(w) && Enabled(w, Commit(t))
    ensures Sound(Next(w, Commit(t)))
  {
    var f := w.fetchers[t];
    assert FetcherSoundAt(w, t);
    var r := f.point.r;
    assert Tagged(w.history, f.dest.scope, r.revision.value, r.etag.value, r.body);
    PutKeepsSound(w, t, f.(trust := Trust(r.etag, r.body, f.point.meta), point := Idle));
  }

  lemma TamperKeepsSound(w: World, path: string, content: Option<Content>)
    requires Sound(w) && Enabled(w, Tamper(path, content))
    ensures Sound(Next(w, Tamper(path, content)))
  {
    var after := Next(w, Tamper(path, content));
    forall u | 0 <= u < |w.fetchers| ensures FetcherSoundAt(after, u) {
      assert FetcherSoundAt(w, u);
      var f := after.fetchers[u];
      assert FetcherSound(w.history, w.disk, w.minted, f);
      FetcherLater(w.history, [], w.disk, after.disk, w.minted, w.minted, f);
      assert w.history + [] == w.history;
    }
  }

  lemma ReportKeepsSound(w: World, path: string, scope: Scope)
    requires Sound(w) && Enabled(w, SendReport(path, scope))
    ensures Sound(Next(w, SendReport(path, scope)))
  {
    var after := Next(w, SendReport(path, scope));
    if path in w.disk && w.disk[path].Sidecar? && Vouches(w.disk[path].meta, scope, w.reporter.text) {
      assert Genuine(w.history, w.disk[path].meta);
    }
    assert SentSound(w.history, after.sent);
    forall u | 0 <= u < |w.fetchers| ensures FetcherSoundAt(after, u) { assert FetcherSoundAt(w, u); }
  }

  lemma ReadKeepsSound(w: World, path: string)
    requires Sound(w) && Enabled(w, ReadCookies(path))
    ensures Sound(Next(w, ReadCookies(path)))
  {
    var after := Next(w, ReadCookies(path));
    forall u | 0 <= u < |w.fetchers| ensures FetcherSoundAt(after, u) { assert FetcherSoundAt(w, u); }
  }

  lemma AskKeepsSound(w: World, t: nat)
    requires Sound(w) && t < |w.fetchers|
    ensures Sound(Put(w, t, w.fetchers[t].(point := Asked(w.fetchers[t].trust.etag))))
    ensures Sound(Put(w, t, w.fetchers[t].(point := Idle)))
  {
    assert FetcherSoundAt(w, t);
    PutKeepsSound(w, t, w.fetchers[t].(point := Asked(w.fetchers[t].trust.etag)));
    PutKeepsSound(w, t, w.fetchers[t].(point := Idle));
  }

  lemma StepKeepsSound(w: World, a: Action)
    requires Sound(w) && Enabled(w, a)
    ensures Sound(Next(w, a))
  {
    match a
    case Broker(q) => BrokerKeepsSound(w, q);
    case Ask(t) => AskKeepsSound(w, t);
    case Answer(t) => AnswerKeepsSound(w, t);
    case Lose(t) => AskKeepsSound(w, t);
    case CheckCookie(t, readable) => CheckCookieKeepsSound(w, t, readable);
    case CheckSidecar(t, readable) => CheckSidecarKeepsSound(w, t, readable);
    case SaveCookie(t, steps) => SaveCookieKeepsSound(w, t, steps);
    case SaveSidecar(t, steps) => SaveSidecarKeepsSound(w, t, steps);
    case Commit(t) => CommitKeepsSound(w, t);
    case Crash => CrashesKeepsSound(w);
    case Tamper(path, content) => TamperKeepsSound(w, path, content);
    case ReadCookies(path) => ReadKeepsSound(w, path);
    case SendReport(path, scope) => ReportKeepsSound(w, path, scope);
  }

  lemma InitialIsSound(w: World)
    requires Initial(w)
    ensures Sound(w)
  {
    forall u | 0 <= u < |w.fetchers| ensures FetcherSoundAt(w, u) {
      assert w.fetchers[u].trust == UNTRUSTED && w.fetchers[u].point.Idle?;
    }
  }

  lemma {:induction false} RunKeepsSound(w: World, actions: seq<Action>)
    requires Initial(w)
    ensures Sound(RunFrom(w, actions))
    decreases |actions|
  {
    if actions == [] {
      InitialIsSound(w);
    } else {
      RunKeepsSound(w, actions[..|actions|-1]);
      var before, a := RunFrom(w, actions[..|actions|-1]), actions[|actions|-1];
      if Enabled(before, a) { StepKeepsSound(before, a); }
    }
  }

  // ------------------------------------------------------------------ theorems over every run

  /** A report that left, on whatever scope, says revision r only about exactly the bytes the broker printed for
      revision r of that scope, whatever was published, crashed, lost or tampered with in between. */
  lemma ReportsAreTrue(w: World, actions: seq<Action>, i: int)
    requires Initial(w) && 0 <= i < |RunFrom(w, actions).sent|
    ensures var end := RunFrom(w, actions);
            Rendered(end.history, end.sent[i].scope, end.sent[i].revision, end.sent[i].text)
  {
    RunKeepsSound(w, actions);
  }

  /** Every sidecar on disk names a revision that was published with exactly the bytes it records. */
  lemma SidecarsAreTrue(w: World, actions: seq<Action>, path: string)
    requires Initial(w)
    requires path in RunFrom(w, actions).disk && RunFrom(w, actions).disk[path].Sidecar?
    ensures Genuine(RunFrom(w, actions).history, RunFrom(w, actions).disk[path].meta)
  {
    RunKeepsSound(w, actions);
  }

  /** What the process remembers came from a publication, never from a local file. */
  lemma LocalBytesAreNeverTrusted(w: World, actions: seq<Action>, t: nat)
    requires Initial(w) && t < |RunFrom(w, actions).fetchers|
    ensures var end := RunFrom(w, actions);
            Published(end.history, end.fetchers[t].dest.scope, end.fetchers[t].trust.content)
  {
    RunKeepsSound(w, actions);
    assert FetcherSoundAt(RunFrom(w, actions), t);
  }

  /** The action ends a fetch of target t that returns without an error. */
  ghost predicate Succeeds(w: World, a: Action, t: nat) {
    && Enabled(w, a) && TargetOf(a) == Some(t)
    && (a.Commit? || (a.CheckSidecar? && t < |Next(w, a).fetchers| && Next(w, a).fetchers[t].point.Idle?))
  }

  /** A fetch that succeeds leaves the cookie file as the snapshot that was current when the last answer was
      served prints, unless somebody from outside wrote the file after it was saved or checked, and whatever the
      other targets wrote; and it leaves those bytes in memory in any case. */
  lemma SuccessIsCurrent(w: World, actions: seq<Action>, a: Action, t: nat)
    requires Initial(w) && Succeeds(RunFrom(w, actions), a, t)
    ensures var end := Next(RunFrom(w, actions), a);
            && t < |end.fetchers|
            && var f := end.fetchers[t];
            && f.served <= end.history && LogOf(f.served, f.dest.scope).pointer > 0
            && f.trust.content == CurrentFile(f.served, f.dest.scope)
            && (!f.touched ==> f.dest.path in end.disk
                               && end.disk[f.dest.path] == Content.Bytes(CurrentFile(f.served, f.dest.scope)))
  {
    RunKeepsSound(w, actions);
    assert FetcherSoundAt(RunFrom(w, actions), t);
  }

  // ------------------------------------------------------------------ nothing stands in the way

  lemma RunStep(w: World, actions: seq<Action>, a: Action)
    requires Enabled(RunFrom(w, actions), a)
    ensures RunFrom(w, actions + [a]) == Next(RunFrom(w, actions), a)
  {
    assert (actions + [a])[..|actions|] == actions;
  }

  lemma RunOne(w: World, a: Action, after: World)
    requires Enabled(w, a) && after == Next(w, a)
    ensures RunFrom(w, [a]) == after
  {
    var none: seq<Action> := [];
    assert none + [a] == [a];
    RunStep(w, none, a);
  }

  lemma RunTwo(w: World, a: Action, b: Action, mid: World, end: World)
    requires RunFrom(w, [a]) == mid && Enabled(mid, b) && end == Next(mid, b)
    ensures RunFrom(w, [a, b]) == end
  {
    assert [a] + [b] == [a, b];
    RunStep(w, [a], b);
  }

  /** From the answer to the end: saving the cookies, the sidecar if there is to be one, and the memory. */
  lemma UndisturbedSave(w: World, t: nat, one: string, two: string, r: Response)
    requires t < |w.fetchers| && w.fetchers[t].point == Answered(r) && Usable(r)
    requires var f := w.fetchers[t];
             && one !in w.disk && one != f.dest.path
             && two !in w.disk && two != f.dest.path && two != MetadataPath(f.dest.path)
             && Save(f.dest, f.trust, w.disk, r, Io(true, true, ALL_WELL, ALL_WELL)).ok
    ensures var f := w.fetchers[t];
            var saved := Save(f.dest, f.trust, w.disk, r, Io(true, true, ALL_WELL, ALL_WELL));
            var a1 := SaveCookie(t, WellDone(one));
            && Enabled(w, a1) && Enabled(Next(w, a1), SaveSidecar(t, WellDone(two)))
            && Enabled(Next(Next(w, a1), SaveSidecar(t, WellDone(two))), Commit(t))
            && var end := Next(Next(Next(w, a1), SaveSidecar(t, WellDone(two))), Commit(t));
            && |end.fetchers| == |w.fetchers| && end.disk == saved.disk
            && end.fetchers[t].trust == saved.trust && end.fetchers[t].point.Idle?
  {
    var f := w.fetchers[t];
    WellDoneIsDone(w.disk, f.dest.path, Content.Bytes(r.body), one);
    var w1 := Next(w, SaveCookie(t, WellDone(one)));
    assert w1.disk == w.disk[f.dest.path := Content.Bytes(r.body)];
    if f.dest.metadata {
      var meta := MetadataOf(f.dest, r).value;
      WellDoneIsDone(w1.disk, MetadataPath(f.dest.path), Sidecar(meta), two);
    }
  }

  /** When nothing fails and nobody interferes, the steps of a fetch that gets a new file do what the fetch does. */
  lemma UndisturbedFetch(w: World, t: nat, one: string, two: string)
    requires t < |w.fetchers| && w.fetchers[t].point.Idle?
    requires var f := w.fetchers[t];
             var r := Serve(Run(w.history), w.user, f.dest.scope, f.trust.etag);
             && one !in w.disk && one != f.dest.path
             && two !in w.disk && two != f.dest.path && two != MetadataPath(f.dest.path)
             && r.status == 200 && FetchRun(f.dest, f.trust, w.disk, [r], Io(true, true, ALL_WELL, ALL_WELL)).ok
    ensures var f := w.fetchers[t];
            var r := Serve(Run(w.history), w.user, f.dest.scope, f.trust.etag);
            var fetched := FetchRun(f.dest, f.trust, w.disk, [r], Io(true, true, ALL_WELL, ALL_WELL));
            var end := RunFrom(w, [Ask(t), Answer(t)] + [SaveCookie(t, WellDone(one)), SaveSidecar(t, WellDone(two)), Commit(t)]);
            && |end.fetchers| == |w.fetchers| && end.disk == fetched.disk
            && end.fetchers[t].trust == fetched.trust && end.fetchers[t].point.Idle?
  {
    var asked := AskedAndAnswered(w, t);
    UndisturbedSave(asked, t, one, two, asked.fetchers[t].point.r);
    ThreeMoreSteps(w, [Ask(t), Answer(t)], SaveCookie(t, WellDone(one)), SaveSidecar(t, WellDone(two)), Commit(t), asked);
  }

  lemma ThreeMoreSteps(w: World, actions: seq<Action>, a: Action, b: Action, c: Action, before: World)
    requires before == RunFrom(w, actions) && Enabled(before, a) && Enabled(Next(before, a), b) && Enabled(Next(Next(before, a), b), c)
    ensures RunFrom(w, actions + [a, b, c]) == Next(Next(Next(before, a), b), c)
  {
    RunStep(w, actions, a);
    RunStep(w, actions + [a], b);
    RunStep(w, actions + [a] + [b], c);
    assert actions + [a] + [b] + [c] == actions + [a, b, c];
  }

  lemma AskedAndAnswered(w: World, t: nat) returns (after: World)
    requires t < |w.fetchers| && w.fetchers[t].point.Idle?
    ensures after == RunFrom(w, [Ask(t), Answer(t)])
    ensures var f := w.fetchers[t];
            after == Put(w, t, f.(point := Answered(Serve(Run(w.history), w.user, f.dest.scope, f.trust.etag)), served := w.history))
  {
    AnswerAfterAsk(w, t);
    after := Next(Next(w, Ask(t)), Answer(t));
    RunOne(w, Ask(t), Next(w, Ask(t)));
    RunTwo(w, Ask(t), Answer(t), Next(w, Ask(t)), after);
  }

  lemma AnswerAfterAsk(w: World, t: nat)
    requires t < |w.fetchers| && w.fetchers[t].point.Idle?
    ensures Enabled(w, Ask(t)) && Enabled(Next(w, Ask(t)), Answer(t))
    ensures var f := w.fetchers[t];
            Next(Next(w, Ask(t)), Answer(t)) ==
              Put(w, t, f.(point := Answered(Serve(Run(w.history), w.user, f.dest.scope, f.trust.etag)), served := w.history))
  {
    var f := w.fetchers[t];
    var asked := f.(point := Asked(f.trust.etag));
    var answered := asked.(point := Answered(Serve(Run(w.history), w.user, f.dest.scope, f.trust.etag)), served := w.history);
    assert w.fetchers[t := asked][t := answered] == w.fetchers[t := answered];
  }

  /** And a fetch whose file is current and in place ends after its two checks, with nothing changed. */
  lemma UndisturbedCheck(w: World, t: nat)
    requires t < |w.fetchers| && w.fetchers[t].point.Idle? && w.fetchers[t].trust.etag.Some?
    requires var f := w.fetchers[t];
             && Serve(Run(w.history), w.user, f.dest.scope, f.trust.etag).status == 304
             && LocalMatches(f.dest, f.trust, w.disk, Io(true, true, ALL_WELL, ALL_WELL))
    ensures var end := RunFrom(w, [Ask(t), Answer(t), CheckCookie(t, true), CheckSidecar(t, true)]);
            && |end.fetchers| == |w.fetchers| && end.disk == w.disk
            && end.fetchers[t].trust == w.fetchers[t].trust && end.fetchers[t].point.Idle?
  {
    var asked := AskedAndAnswered(w, t);
    RunStep(w, [Ask(t), Answer(t)], CheckCookie(t, true));
    RunStep(w, [Ask(t), Answer(t)] + [CheckCookie(t, true)], CheckSidecar(t, true));
    assert [Ask(t), Answer(t)] + [CheckCookie(t, true)] + [CheckSidecar(t, true)]
        == [Ask(t), Answer(t), CheckCookie(t, true), CheckSidecar(t, true)];
  }

  /** The checks after a 304: the sidecar is looked at only when the cookie file is in order. */
  function Checks(w: World, t: nat): seq<Action>
    requires t < |w.fetchers|
  {
    [CheckCookie(t, true)] + if CookieMatches(w.fetchers[t].dest, w.fetchers[t].trust, w.disk) then [CheckSidecar(t, true)] else []
  }

  lemma {:induction false} RunOn(w: World, actions: seq<Action>, more: seq<Action>)
    ensures RunFrom(w, actions + more) == RunFrom(RunFrom(w, actions), more)
    decreases |more|
  {
    if more == [] {
      assert actions + more == actions;
    } else {
      RunOn(w, actions, more[..|more|-1]);
      assert (actions + more)[..|actions + more| - 1] == actions + more[..|more|-1];
    }
  }

  /** A 304 to a file that is not in order forgets the tag and asks again without one. */
  lemma MismatchAsksAgain(w: World, t: nat) returns (after: World)
    requires t < |w.fetchers| && w.fetchers[t].point.Idle? && w.fetchers[t].trust.etag.Some?
    requires var f := w.fetchers[t];
             && Serve(Run(w.history), w.user, f.dest.scope, f.trust.etag).status == 304
             && !LocalMatches(f.dest, f.trust, w.disk, Io(true, true, ALL_WELL, ALL_WELL))
    ensures after == RunFrom(w, [Ask(t), Answer(t)] + Checks(w, t))
    ensures after.disk == w.disk && after.history == w.history && after.user == w.user && |after.fetchers| == |w.fetchers|
    ensures after.fetchers[t].dest == w.fetchers[t].dest && after.fetchers[t].point == Asked(None)
    ensures after.fetchers[t].trust == w.fetchers[t].trust.(etag := None)
  {
    var asked := AskedAndAnswered(w, t);
    var first := Next(asked, CheckCookie(t, true));
    RunStep(w, [Ask(t), Answer(t)], CheckCookie(t, true));
    after := first;
    if CookieMatches(w.fetchers[t].dest, w.fetchers[t].trust, w.disk) {
      RunStep(w, [Ask(t), Answer(t)] + [CheckCookie(t, true)], CheckSidecar(t, true));
      assert [Ask(t), Answer(t)] + [CheckCookie(t, true)] + [CheckSidecar(t, true)] == [Ask(t), Answer(t)] + Checks(w, t);
      after := Next(first, CheckSidecar(t, true));
    } else {
      assert [CheckCookie(t, true)] + [] == Checks(w, t);
    }
  }

  /** From the request to the end. */
  lemma UndisturbedAnswer(w: World, t: nat, one: string, two: string)
    requires t < |w.fetchers| && w.fetchers[t].point.Asked?
    requires var f := w.fetchers[t];
             var r := Serve(Run(w.history), w.user, f.dest.scope, f.point.tag);
             && one !in w.disk && one != f.dest.path
             && two !in w.disk && two != f.dest.path && two != MetadataPath(f.dest.path)
             && Usable(r) && Save(f.dest, f.trust, w.disk, r, Io(true, true, ALL_WELL, ALL_WELL)).ok
    ensures var f := w.fetchers[t];
            var r := Serve(Run(w.history), w.user, f.dest.scope, f.point.tag);
            var saved := Save(f.dest, f.trust, w.disk, r, Io(true, true, ALL_WELL, ALL_WELL));
            var end := RunFrom(w, [Answer(t)] + [SaveCookie(t, WellDone(one)), SaveSidecar(t, WellDone(two)), Commit(t)]);
            && |end.fetchers| == |w.fetchers| && end.disk == saved.disk
            && end.fetchers[t].trust == saved.trust && end.fetchers[t].point.Idle?
  {
    var none: seq<Action> := [];
    assert none + [Answer(t)] == [Answer(t)];
    RunStep(w, none, Answer(t));
    var answered := Next(w, Answer(t));
    UndisturbedSave(answered, t, one, two, answered.fetchers[t].point.r);
    ThreeMoreSteps(w, [Answer(t)], SaveCookie(t, WellDone(one)), SaveSidecar(t, WellDone(two)), Commit(t), answered);
  }

  /** So a fetch that finds its file current at the broker but not in order here repairs it, as the fetch does. */
  lemma UndisturbedRepair(w: World, t: nat, one: string, two: string)
    requires t < |w.fetchers| && w.fetchers[t].point.Idle? && w.fetchers[t].trust.etag.Some?
    requires var f := w.fetchers[t];
             var first := Serve(Run(w.history), w.user, f.dest.scope, f.trust.etag);
             var second := Serve(Run(w.history), w.user, f.dest.scope, None);
             var io := Io(true, true, ALL_WELL, ALL_WELL);
             && one !in w.disk && one != f.dest.path
             && two !in w.disk && two != f.dest.path && two != MetadataPath(f.dest.path)
             && first.status == 304 && !LocalMatches(f.dest, f.trust, w.disk, io)
             && FetchRun(f.dest, f.trust, w.disk, [first, second], io).ok
    ensures var f := w.fetchers[t];
            var first := Serve(Run(w.history), w.user, f.dest.scope, f.trust.etag);
            var second := Serve(Run(w.history), w.user, f.dest.scope, None);
            var fetched := FetchRun(f.dest, f.trust, w.disk, [first, second], Io(true, true, ALL_WELL, ALL_WELL));
            var end := RunFrom(w, [Ask(t), Answer(t)] + Checks(w, t)
                                  + ([Answer(t)] + [SaveCookie(t, WellDone(one)), SaveSidecar(t, WellDone(two)), Commit(t)]));
            && |end.fetchers| == |w.fetchers| && end.disk == fetched.disk
            && end.fetchers[t].trust == fetched.trust && end.fetchers[t].point.Idle?
  {
    var f := w.fetchers[t];
    var first := Serve(Run(w.history), w.user, f.dest.scope, f.trust.etag);
    var second := Serve(Run(w.history), w.user, f.dest.scope, None);
    RepairIsSave(f, w.disk, first, second);
    var asking := MismatchAsksAgain(w, t);
    UndisturbedAnswer(asking, t, one, two);
    RunOn(w, [Ask(t), Answer(t)] + Checks(w, t),
      [Answer(t)] + [SaveCookie(t, WellDone(one)), SaveSidecar(t, WellDone(two)), Commit(t)]);
  }

  lemma RepairIsSave(f: Fetcher, disk: Disk, first: Response, second: Response)
    requires var io := Io(true, true, ALL_WELL, ALL_WELL);
             && f.trust.etag.Some? && first.Response? && first.status == 304 && !LocalMatches(f.dest, f.trust, disk, io)
             && FetchRun(f.dest, f.trust, disk, [first, second], io).ok
    ensures Usable(second)
    ensures var io := Io(true, true, ALL_WELL, ALL_WELL);
            var fetched, saved := FetchRun(f.dest, f.trust, disk, [first, second], io), Save(f.dest, f.trust.(etag := None), disk, second, io);
            saved.ok && fetched.disk == saved.disk && fetched.trust == saved.trust
  {
    assert [first, second][1..] == [second];
  }

  lemma MemoryVouches(w: World, t: nat)
    requires Sound(w) && t < |w.fetchers| && w.fetchers[t].trust.sidecar.Some?
    ensures Vouches(w.fetchers[t].trust.sidecar.value, w.fetchers[t].dest.scope, w.fetchers[t].trust.content)
  {
    assert FetcherSoundAt(w, t);
    assert Genuine(w.history, w.fetchers[t].trust.sidecar.value);
  }

  /** A report on files that are in step with a sound memory leaves, and names the revision of the sidecar. */
  lemma TrueReportLeaves(w: World, t: nat)
    requires Sound(w) && t < |w.fetchers| && w.reporter.Resting? && w.fetchers[t].dest.metadata
    requires CookieMatches(w.fetchers[t].dest, w.fetchers[t].trust, w.disk)
    requires SidecarMatches(w.fetchers[t].dest, w.fetchers[t].trust, w.disk)
    ensures var f := w.fetchers[t];
            var end := RunFrom(w, [ReadCookies(f.dest.path), SendReport(MetadataPath(f.dest.path), f.dest.scope)]);
            end.sent == w.sent + [Sent(f.dest.scope, f.trust.sidecar.value.revision, f.trust.content)]
  {
    var f := w.fetchers[t];
    var read, send := ReadCookies(f.dest.path), SendReport(MetadataPath(f.dest.path), f.dest.scope);
    MemoryVouches(w, t);
    ReportAfterReading(w, f, read, send);
    RunOne(w, read, Next(w, read));
    RunTwo(w, read, send, Next(w, read), Next(Next(w, read), send));
  }

  lemma ReportAfterReading(w: World, f: Fetcher, read: Action, send: Action)
    requires w.reporter.Resting? && f.dest.metadata
    requires CookieMatches(f.dest, f.trust, w.disk) && SidecarMatches(f.dest, f.trust, w.disk)
    requires Vouches(f.trust.sidecar.value, f.dest.scope, f.trust.content)
    requires read == ReadCookies(f.dest.path) && send == SendReport(MetadataPath(f.dest.path), f.dest.scope)
    ensures Enabled(w, read) && Enabled(Next(w, read), send)
    ensures Next(Next(w, read), send).sent == w.sent + [Sent(f.dest.scope, f.trust.sidecar.value.revision, f.trust.content)]
  {
    assert Next(w, read) == w.(reporter := HasRead(f.trust.content));
  }

  /** A report leaves exactly when the sidecar names the scope, a positive revision and the digest of the bytes read;
      otherwise nothing is sent. */
  lemma ReportLeavesExactly(w: World, path: string, scope: Scope)
    requires w.reporter.HasRead?
    ensures Next(w, SendReport(path, scope)).sent != w.sent <==>
      && path in w.disk && w.disk[path].Sidecar? && w.disk[path].meta.scope == scope
      && w.disk[path].meta.revision > 0 && w.disk[path].meta.sha256 == OfText(w.reporter.text)
  {
    var sent := Next(w, SendReport(path, scope)).sent;
    assert |sent| == |w.sent| + 1 ==> sent != w.sent;
  }
}
