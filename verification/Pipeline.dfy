/**
 From an upload to the file of a reader: validation, publication, the HTTP answer, cookie-sync and the
 Netscape file, put together.
 */
module Pipeline {
  import opened Cookies
  import opened Disks
  import opened Tables
  import opened History
  import opened Upload
  import opened Netscape
  import opened UploadSize
  import opened Sync

  /** The put handler stores what validation returned. */
  predicate StoresAccepted(v: Verdict, snap: Snapshot) {
    v.Accepted? && snap.cookies == v.cookies && snap.sha256 == v.digest
    && (snap.reason == Recovery <==> v.reason == "recovery")
  }

  /** After a publication the current file prints the cookies that were published, also when nothing was
      added because the current snapshot already had them. */
  lemma PublishedIsCurrent(h: seq<Request>, s: Scope, snap: Snapshot)
    requires Honest(h) && Hashed(snap)
    ensures var after := h + [Publish(s, snap)];
            Honest(after) && LogOf(after, s).pointer > 0 && CurrentFile(after, s) == Render(snap.cookies)
  {
    var after := h + [Publish(s, snap)];
    forall i | 0 <= i < |after| && after[i].Publish? ensures Hashed(after[i].snapshot) {}
    LogStep(h, Publish(s, snap), s);
    var log := LogOf(h, s);
    PublishedAreHashed(h, s);
    if !Fresh(log, snap) {
      assert Hashed(log.published[log.pointer - 1]);
    }
  }

  /** An accepted upload of ASCII text within the upload limit, published, and fetched by a reader who may
      read the scope, ends as a file from which the accepted cookies can be read back, whatever the reader
      remembered before and whatever his disk held. */
  lemma UploadReachesReader(
    fold: char -> char, h: seq<Request>, s: Scope, snap: Snapshot,
    roots: Option<seq<string>>, d: Draft, objects: seq<seq<Member>>, now: int,
    user: string, dest: Dest, trust: Trust, disk: Disk, io: Io)
    requires Lowering(fold) && Honest(h) && StoresAccepted(Validate(fold, roots, d, now), snap)
    requires AllWellFormed(objects) && d.cookies == Map(Decode, objects) && ArraySize(objects) <= MAX_UPLOAD
    requires dest.scope == s && MayReport(Run(h + [Publish(s, snap)]), user, s)
    requires TrustSound(h, s, trust)
    requires Outcome(io.cookieWrite) == Written && Outcome(io.sidecarWrite) == Written
    ensures var db := Run(h + [Publish(s, snap)]);
            var f := FetchRun(dest, trust, disk, [Serve(db, user, s, trust.etag), Serve(db, user, s, None)], io);
            && f.ok && dest.path in f.disk && f.disk[dest.path].Bytes?
            && ParseFile(f.disk[dest.path].text) == Some(Map(WithoutSameSite, Validate(fold, roots, d, now).cookies))
  {
    var after := h + [Publish(s, snap)];
    PublishedIsCurrent(h, s, snap);
    AcceptedFileFits(fold, roots, d, objects, now);
    AcceptedRoundTrip(fold, roots, d, now);
    FetchSucceeds(after, user, dest, trust, disk, io);
    TrustSoundLater(h, [Publish(s, snap)], s, trust);
    assert after + [] == after;
    FetchRefinesDownload(after, [], user, dest, trust, disk, io);
  }
}
