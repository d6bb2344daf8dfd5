/**
 Files of cookie-sync, and how one of them is replaced: a temporary file is created, filled, flushed, closed
 and renamed.  Only the rename is taken to be atomic.
 */
module Disks {
  import opened Cookies

  /** The metadata sidecar; its JSON text is determined by its fields and the other way round. */
  datatype Meta = Meta(scope: Scope, revision: int, sha256: Digest, capturedAt: string, createdAt: string)

  /** The contents of a file: any text; the whole JSON text of a sidecar, which is never a valid cookie file; or
      no more than its first bytes. */
  datatype Content = Bytes(text: string) | Sidecar(meta: Meta) | Torn(meta: Meta, length: nat)

  type Disk = map<string, Content>

  /** The first n bytes of a content. */
  function Prefix(content: Content, n: nat): Content {
    match content
    case Bytes(text) => Bytes(if n < |text| then text[..n] else text)
    case Sidecar(meta) => Torn(meta, n)
    case Torn(meta, length) => Torn(meta, if n < length then n else length)
  }

  // ------------------------------------------------------------------ one write, step by step

  /** How far a write is; name is the temporary file. */
  datatype Stage =
    | Start
    | Created(name: string)
    | Private(name: string)                 // its mode is set
    | Filled(name: string)
    | Flushed(name: string)
    | Closed(name: string)
    | Failing(name: string)                 // an error: what is left is to remove the temporary file
    | Moved                                 // the rename is done, the directory is not yet flushed
    | Done(ok: bool)
    | Crashed

  datatype Event =
    | Creates(name: string)
    | Goes                                  // the next call succeeds
    | Fails                                 // the next call fails
    | Partly(n: nat)                        // n bytes have been written so far
    | Short(n: nat)                         // the write fails after n bytes
    | Crash
    | PowerLoss(n: nat)                     // a crash that leaves n bytes of a file that was not flushed

  /** flushed says that the bytes of the new file are on the medium. */
  datatype Writing = Writing(disk: Disk, stage: Stage, flushed: bool)

  /** The file that is being written, under its temporary or its final name. */
  function NewFile(w: Writing, path: string): Option<string> {
    if w.stage.Moved? then Some(path) else Temporary(w.stage)
  }

  /** What a power loss leaves. */
  function Surviving(w: Writing, path: string, n: nat): Disk {
    var file := NewFile(w, path);
    if !w.flushed && file.Some? && file.value in w.disk then w.disk[file.value := Prefix(w.disk[file.value], n)] else w.disk
  }

  function Advance(w: Writing, path: string, content: Content, e: Event): Writing {
    if e.Crash? && !w.stage.Done? then w.(stage := Crashed)
    else if e.PowerLoss? && !w.stage.Done? then Writing(Surviving(w, path, e.n), Crashed, w.flushed)
    else match w.stage
      case Start =>
        if e.Creates? && e.name !in w.disk && e.name != path
        then Writing(w.disk[e.name := Bytes("")], Created(e.name), false) else w.(stage := Done(false))
      case Created(name) =>
        w.(stage := if e.Goes? then Private(name) else Failing(name))
      case Private(name) =>
        (match e
         case Goes => Writing(w.disk[name := content], Filled(name), false)
         case Partly(n) => Writing(w.disk[name := Prefix(content, n)], Private(name), false)
         case Short(n) => Writing(w.disk[name := Prefix(content, n)], Failing(name), false)
         case _ => w.(stage := Failing(name)))
      case Filled(name) =>
        if e.Goes? then w.(stage := Flushed(name), flushed := true) else w.(stage := Failing(name))
      case Flushed(name) =>
        w.(stage := if e.Goes? then Closed(name) else Failing(name))
      case Closed(name) =>
        if e.Goes? && name in w.disk then w.(disk := (w.disk - {name})[path := w.disk[name]], stage := Moved)
        else w.(stage := Failing(name))
      case Failing(name) =>
        w.(disk := if e.Goes? then w.disk - {name} else w.disk, stage := Done(false))
      case Moved =>
        w.(stage := Done(e.Goes?))
      case Done(_) => w
      case Crashed => w
  }

  function Proceed(disk: Disk, path: string, content: Content, events: seq<Event>): Writing {
    if events == [] then Writing(disk, Start, true)
    else Advance(Proceed(disk, path, content, events[..|events|-1]), path, content, events[|events|-1])
  }

  lemma ProceedStep(disk: Disk, path: string, content: Content, events: seq<Event>, e: Event)
    ensures Proceed(disk, path, content, events + [e]) == Advance(Proceed(disk, path, content, events), path, content, e)
  {
    assert (events + [e])[..|events|] == events;
  }

  /** A file is as it was, or is all of the new content. */
  predicate OldOrNew(before: Disk, after: Disk, path: string, content: Content) {
    || (path in after && after[path] == content)
    || (path in after && path in before && after[path] == before[path])
    || (path !in after && path !in before)
  }

  /** Only the target and the temporary file can differ. */
  ghost predicate SameBut(before: Disk, after: Disk, path: string, name: Option<string>) {
    forall p | p != path && name != Some(p) :: (p in after <==> p in before) && (p in before ==> after[p] == before[p])
  }

  /** At most one other file differs, and it was not there before. */
  ghost predicate OneOther(before: Disk, after: Disk, path: string) {
    exists name: Option<string> :: (name.Some? ==> name.value !in before) && SameBut(before, after, path, name)
  }

  function Temporary(stage: Stage): Option<string> {
    match stage
    case Created(name) => Some(name)
    case Private(name) => Some(name)
    case Filled(name) => Some(name)
    case Flushed(name) => Some(name)
    case Closed(name) => Some(name)
    case Failing(name) => Some(name)
    case _ => None
  }

  predicate Complete(stage: Stage) {
    stage.Filled? || stage.Flushed? || stage.Closed?
  }

  /** What every step of a write keeps. */
  ghost predicate Careful(before: Disk, w: Writing, path: string, content: Content) {
    && OldOrNew(before, w.disk, path, content)
    && OneOther(before, w.disk, path)
    && (Temporary(w.stage).Some? ==>
          && Temporary(w.stage).value !in before && Temporary(w.stage).value != path
          && Temporary(w.stage).value in w.disk && SameBut(before, w.disk, path, Temporary(w.stage))
          && (path in w.disk <==> path in before) && (path in before ==> w.disk[path] == before[path]))
    && (Complete(w.stage) ==> w.disk[Temporary(w.stage).value] == content)
    && (w.stage.Start? ==> w.disk == before)
    && (w.stage.Flushed? || w.stage.Closed? || w.stage.Moved? || w.stage == Done(true) ==> w.flushed)
    && (w.stage.Moved? || w.stage == Done(true) ==> w.disk == before[path := content])
  }

  lemma CrashIsCareful(before: Disk, w: Writing, path: string, content: Content)
    requires Careful(before, w, path, content)
    ensures Careful(before, w.(stage := Crashed), path, content)
  {
  }

  /** A power loss cuts the new file only while it has its temporary name. */
  lemma PowerLossIsCareful(before: Disk, w: Writing, path: string, content: Content, n: nat)
    requires Careful(before, w, path, content) && !w.stage.Done?
    ensures Careful(before, Writing(Surviving(w, path, n), Crashed, w.flushed), path, content)
  {
    if Temporary(w.stage).Some? {
      assert SameBut(before, Surviving(w, path, n), path, Temporary(w.stage));
    }
  }

  lemma CreationIsCareful(before: Disk, path: string, content: Content, name: string)
    requires name !in before && name != path
    ensures Careful(before, Writing(before[name := Bytes("")], Created(name), false), path, content)
  {
    assert SameBut(before, before[name := Bytes("")], path, Some(name));
  }

  lemma RefusalIsCareful(before: Disk, path: string, content: Content, flushed: bool)
    ensures Careful(before, Writing(before, Done(false), flushed), path, content)
  {
    assert SameBut(before, before, path, None);
  }

  /** A step that writes to the temporary file, or to nothing. */
  lemma TemporaryStep(before: Disk, w: Writing, path: string, content: Content, data: Content, stage: Stage, flushed: bool)
    requires Careful(before, w, path, content) && Temporary(w.stage).Some? && Temporary(stage) == Temporary(w.stage)
    requires Complete(stage) ==> data == content
    requires stage.Flushed? || stage.Closed? ==> flushed
    ensures Careful(before, Writing(w.disk[Temporary(w.stage).value := data], stage, flushed), path, content)
  {
    var after := w.disk[Temporary(w.stage).value := data];
    assert SameBut(before, after, path, Temporary(w.stage));
  }

  lemma SameStageStep(before: Disk, w: Writing, path: string, content: Content, stage: Stage, flushed: bool)
    requires Careful(before, w, path, content) && Temporary(w.stage).Some? && Temporary(stage) == Temporary(w.stage)
    requires Complete(stage) ==> Complete(w.stage)
    requires stage.Flushed? || stage.Closed? ==> flushed
    ensures Careful(before, Writing(w.disk, stage, flushed), path, content)
  {
    var name := Temporary(w.stage).value;
    assert w.disk[name := w.disk[name]] == w.disk;
    TemporaryStep(before, w, path, content, w.disk[name], stage, flushed);
  }

  lemma RenameIsCareful(before: Disk, w: Writing, path: string, content: Content)
    requires Careful(before, w, path, content) && w.stage.Closed?
    ensures Careful(before, Advance(w, path, content, Goes), path, content)
  {
    var name := w.stage.name;
    assert (w.disk - {name})[path := w.disk[name]] == before[path := content];
    assert SameBut(before, before[path := content], path, None);
  }

  lemma EndIsCareful(before: Disk, w: Writing, path: string, content: Content, e: Event)
    requires Careful(before, w, path, content) && (w.stage.Failing? || w.stage.Moved?) && !e.Crash? && !e.PowerLoss?
    ensures Careful(before, Advance(w, path, content, e), path, content)
  {
    if w.stage.Failing? {
      assert SameBut(before, Advance(w, path, content, e).disk, path, Some(w.stage.name));
    }
  }

  lemma CallIsCareful(before: Disk, w: Writing, path: string, content: Content, e: Event)
    requires Careful(before, w, path, content) && !e.Crash? && !e.PowerLoss?
    ensures Careful(before, Advance(w, path, content, e), path, content)
  {
    match w.stage
    case Start =>
      if e.Creates? && e.name !in w.disk && e.name != path { CreationIsCareful(before, path, content, e.name); }
      else { RefusalIsCareful(before, path, content, w.flushed); }
    case Created(name) => SameStageStep(before, w, path, content, if e.Goes? then Private(name) else Failing(name), w.flushed);
    case Private(name) => FillingIsCareful(before, w, path, content, e);
    case Filled(name) =>
      SameStageStep(before, w, path, content, if e.Goes? then Flushed(name) else Failing(name), w.flushed || e.Goes?);
    case Flushed(name) => SameStageStep(before, w, path, content, if e.Goes? then Closed(name) else Failing(name), w.flushed);
    case Closed(name) =>
      if e.Goes? { RenameIsCareful(before, w, path, content); }
      else { SameStageStep(before, w, path, content, Failing(name), w.flushed); }
    case Failing(_) => EndIsCareful(before, w, path, content, e);
    case Moved => EndIsCareful(before, w, path, content, e);
    case _ =>
  }

  lemma FillingIsCareful(before: Disk, w: Writing, path: string, content: Content, e: Event)
    requires Careful(before, w, path, content) && w.stage.Private? && !e.Crash? && !e.PowerLoss?
    ensures Careful(before, Advance(w, path, content, e), path, content)
  {
    var name := w.stage.name;
    match e
    case Goes => TemporaryStep(before, w, path, content, content, Filled(name), false);
    case Partly(n) => TemporaryStep(before, w, path, content, Prefix(content, n), Private(name), false);
    case Short(n) => TemporaryStep(before, w, path, content, Prefix(content, n), Failing(name), false);
    case _ => SameStageStep(before, w, path, content, Failing(name), w.flushed);
  }

  lemma StepIsCareful(before: Disk, w: Writing, path: string, content: Content, e: Event)
    requires Careful(before, w, path, content)
    ensures Careful(before, Advance(w, path, content, e), path, content)
  {
    if e.Crash? && !w.stage.Done? {
      CrashIsCareful(before, w, path, content);
    } else if e.PowerLoss? && !w.stage.Done? {
      PowerLossIsCareful(before, w, path, content, e.n);
    } else if !e.Crash? && !e.PowerLoss? {
      CallIsCareful(before, w, path, content, e);
    }
  }

  lemma {:induction false} EveryStepIsCareful(disk: Disk, path: string, content: Content, events: seq<Event>)
    ensures Careful(disk, Proceed(disk, path, content, events), path, content)
    decreases |events|
  {
    if events == [] {
      assert SameBut(disk, disk, path, None);
    } else {
      EveryStepIsCareful(disk, path, content, events[..|events|-1]);
      StepIsCareful(disk, Proceed(disk, path, content, events[..|events|-1]), path, content, events[|events|-1]);
    }
  }

  /** Wherever a write stands, fails or is cut off by a crash or a power loss, the target has its old content or all of the new,
      and at most one other file, which was not there before, differs; and a write that reports success has
      changed the target and nothing else. */
  lemma TargetIsWhole(disk: Disk, path: string, content: Content, events: seq<Event>)
    ensures var w := Proceed(disk, path, content, events);
            && OldOrNew(disk, w.disk, path, content)
            && OneOther(disk, w.disk, path)
            && (w.stage == Done(true) ==> w.disk == disk[path := content])
  {
    EveryStepIsCareful(disk, path, content, events);
  }

  /** The calls of a write in which nothing fails. */
  function WellDone(name: string): seq<Event> {
    [Creates(name)] + [Goes] + [Goes] + [Goes] + [Goes] + [Goes] + [Goes]
  }

  lemma NextStage(disk: Disk, path: string, content: Content, events: seq<Event>, e: Event, w: Writing)
    requires Advance(Proceed(disk, path, content, events), path, content, e) == w
    ensures Proceed(disk, path, content, events + [e]) == w
  {
    ProceedStep(disk, path, content, events, e);
  }

  lemma WellDoneIsDone(disk: Disk, path: string, content: Content, name: string)
    requires name !in disk && name != path
    ensures Proceed(disk, path, content, WellDone(name)) == Writing(disk[path := content], Done(true), true)
  {
    var empty, filled := disk[name := Bytes("")], disk[name := content];
    var e0: seq<Event> := [];
    var e1 := [Creates(name)];
    var e2 := e1 + [Goes];
    var e3 := e2 + [Goes];
    assert e0 + [Creates(name)] == e1;
    NextStage(disk, path, content, e0, Creates(name), Writing(empty, Created(name), false));
    NextStage(disk, path, content, e1, Goes, Writing(empty, Private(name), false));
    assert empty[name := content] == filled;
    NextStage(disk, path, content, e2, Goes, Writing(filled, Filled(name), false));
    FilledIsDone(disk, path, content, name, e3);
  }

  lemma FilledIsDone(disk: Disk, path: string, content: Content, name: string, events: seq<Event>)
    requires name !in disk && name != path
    requires Proceed(disk, path, content, events) == Writing(disk[name := content], Filled(name), false)
    ensures Proceed(disk, path, content, events + [Goes] + [Goes] + [Goes] + [Goes]) == Writing(disk[path := content], Done(true), true)
  {
    var filled := disk[name := content];
    var e1 := events + [Goes];
    var e2 := e1 + [Goes];
    var e3 := e2 + [Goes];
    NextStage(disk, path, content, events, Goes, Writing(filled, Flushed(name), true));
    NextStage(disk, path, content, e1, Goes, Writing(filled, Closed(name), true));
    assert (filled - {name})[path := filled[name]] == disk[path := content];
    NextStage(disk, path, content, e2, Goes, Writing(disk[path := content], Moved, true));
    NextStage(disk, path, content, e3, Goes, Writing(disk[path := content], Done(true), true));
  }

  /** A write puts whole sidecars nowhere but for its own content. */
  ghost predicate NoStraySidecar(before: Disk, after: Disk, content: Content) {
    forall p | p in after && after[p].Sidecar? :: after[p] == content || (p in before && after[p] == before[p])
  }

  lemma {:induction false} SidecarsComeFromContent(disk: Disk, path: string, content: Content, events: seq<Event>)
    ensures NoStraySidecar(disk, Proceed(disk, path, content, events).disk, content)
    decreases |events|
  {
    if events != [] { SidecarsComeFromContent(disk, path, content, events[..|events|-1]); EveryStepIsCareful(disk, path, content, events[..|events|-1]); }
  }

  // ------------------------------------------------------------------ the whole write

  /** What the system does to each call of one write; written is how many bytes a failing write leaves. */
  datatype Fate = Fate(
    folder: bool, created: bool, mode: bool, written: Option<nat>, synced: bool, closed: bool, renamed: bool,
    folderOpened: bool, folderSynced: bool)

  /** Nothing was replaced; or it was, but the directory could not be flushed; or all went well. */
  datatype Write = Refused | Renamed | Written

  function Outcome(f: Fate): Write {
    if !f.folder || !f.created || !f.mode || f.written.Some? || !f.synced || !f.closed || !f.renamed then Refused
    else if !f.folderOpened || !f.folderSynced then Renamed
    else Written
  }

  function AfterWrite(disk: Disk, path: string, content: Content, w: Write): Disk {
    if w == Refused then disk else disk[path := content]
  }

  /** These steps of a write end with this disk, at this stage. */
  predicate Reaches(before: Disk, path: string, content: Content, events: seq<Event>, disk: Disk, stage: Stage) {
    Proceed(before, path, content, events).disk == disk && Proceed(before, path, content, events).stage == stage
  }

  class Files {
    var disk: Disk

    constructor (disk: Disk)
      ensures this.disk == disk
    {
      this.disk := disk;
    }

    /** A name that no file has, and an empty file of that name. */
    method CreateTemp(path: string) returns (name: string)
      modifies this
      ensures name !in old(disk) && name != path && disk == old(disk)[name := Bytes("")]
    {
      var taken := disk.Keys + {path};
      ghost var longer := taken;
      name := ".cookie-sync-";
      while name in taken
        invariant forall k | k in taken && |k| >= |name| :: k in longer
        decreases |longer|
      {
        longer := longer - {name};
        name := name + "0";
      }
      disk := disk[name := Bytes("")];
    }

    /** Sets the mode of the temporary file and writes it. */
    method Fill(path: string, content: Content, name: string, f: Fate, ghost before: Disk, ghost given: seq<Event>)
      returns (failed: bool, ghost events: seq<Event>)
      requires name in disk && Reaches(before, path, content, given, disk, Created(name))
      modifies this
      ensures failed == (!f.mode || f.written.Some?)
      ensures Reaches(before, path, content, events, disk, if failed then Failing(name) else Filled(name))
      ensures name in disk && disk == old(disk)[name := disk[name]] && (!failed ==> disk[name] == content)
    {
      failed := !f.mode;
      events := Taken(before, path, content, given, if failed then Fails else Goes);
      if failed {
        return failed, events;
      }
      disk := disk[name := if f.written.None? then content else Prefix(content, f.written.value)];
      failed := f.written.Some?;
      events := Taken(before, path, content, events, if failed then Short(f.written.value) else Goes);
    }

    /** Flushes and closes it; a file that could not be flushed is closed all the same. */
    method Flush(path: string, content: Content, name: string, f: Fate, ghost before: Disk, ghost given: seq<Event>)
      returns (failed: bool, ghost events: seq<Event>)
      requires Reaches(before, path, content, given, disk, Filled(name))
      ensures failed == (!f.synced || !f.closed)
      ensures Reaches(before, path, content, events, disk, if failed then Failing(name) else Closed(name))
    {
      failed := !f.synced;
      events := Taken(before, path, content, given, if failed then Fails else Goes);
      if !failed {
        failed := !f.closed;
        events := Taken(before, path, content, events, if failed then Fails else Goes);
      }
    }

    method Prepare(path: string, content: Content, name: string, f: Fate, ghost before: Disk, ghost given: seq<Event>)
      returns (failed: bool, ghost events: seq<Event>)
      requires name in disk && Reaches(before, path, content, given, disk, Created(name))
      modifies this
      ensures failed == (!f.mode || f.written.Some? || !f.synced || !f.closed)
      ensures Reaches(before, path, content, events, disk, if failed then Failing(name) else Closed(name))
      ensures name in disk && disk == old(disk)[name := disk[name]] && (!failed ==> disk[name] == content)
    {
      failed, events := Fill(path, content, name, f, before, given);
      if !failed {
        failed, events := Flush(path, content, name, f, before, events);
      }
    }

    /** Renames the file and flushes its directory; a file that cannot be renamed is left to be removed. */
    method Move(path: string, content: Content, name: string, f: Fate, ghost before: Disk, ghost given: seq<Event>)
      returns (failed: bool, ok: bool, ghost events: seq<Event>)
      requires name in disk && Reaches(before, path, content, given, disk, Closed(name))
      modifies this
      ensures failed == !f.renamed && (ok <==> f.renamed && f.folderOpened && f.folderSynced)
      ensures disk == if failed then old(disk) else (old(disk) - {name})[path := old(disk)[name]]
      ensures Reaches(before, path, content, events, disk, if failed then Failing(name) else Done(ok))
    {
      failed, ok := !f.renamed, false;
      events := Taken(before, path, content, given, if failed then Fails else Goes);
      if failed {
        return failed, ok, events;
      }
      disk := (disk - {name})[path := disk[name]];
      ok := f.folderOpened && f.folderSynced;
      events := Taken(before, path, content, events, if ok then Goes else Fails);
    }

    /** events are the steps that were taken; so every state on the way is one of TargetIsWhole. */
    method AtomicWrite(path: string, content: Content, f: Fate) returns (ok: bool, ghost events: seq<Event>)
      modifies this
      ensures disk == AfterWrite(old(disk), path, content, Outcome(f)) && ok == (Outcome(f) == Written)
      ensures Reaches(old(disk), path, content, events, disk, Done(ok))
    {
      ghost var before := disk;
      if !f.folder || !f.created {
        events := Taken(before, path, content, [], Fails);
        return false, events;
      }
      var name := CreateTemp(path);
      events := Taken(before, path, content, [], Creates(name));
      var failed;
      failed, events := Prepare(path, content, name, f, before, events);
      if !failed {
        assert (disk - {name})[path := disk[name]] == before[path := content];
        failed, ok, events := Move(path, content, name, f, before, events);
      }
      if failed {
        events := Taken(before, path, content, events, Goes);
        disk := disk - {name};
        assert disk == before;
        return false, events;
      }
    }

    /** One more step of the write. */
    static ghost method Taken(before: Disk, path: string, content: Content, events: seq<Event>, e: Event) returns (more: seq<Event>)
      ensures more == events + [e]
      ensures Proceed(before, path, content, more) == Advance(Proceed(before, path, content, events), path, content, e)
    {
      ProceedStep(before, path, content, events, e);
      more := events + [e];
    }
  }
}
