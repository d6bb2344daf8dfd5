/**
 The recovery coordinator of the browser extension, one segment between awaits at a time, with any
 number of calls interleaved and users opening and closing windows.
 */
module Recovery {
  import opened Cookies

  datatype Opener = Person | Setup(isolated: bool)

  datatype Window = Window(incognito: bool, opener: Opener)

  datatype Context = Context(isolated: bool, windowId: int, tabId: int)

  type Contexts = map<int, Context>

  /** Where a call is.  A phase named after a question to the browser waits for the answer; a phase
      named after an answer carries it until the call resumes. */
  datatype Phase =
    | Loading
    | AskingAccess(contexts: Contexts)
    | AskingWindows(contexts: Contexts)
    | Surveyed(contexts: Contexts, incognito: set<int>)
    | Pruning(contexts: Contexts, incognito: set<int>)
    | Creating(contexts: Contexts)
    | Created(contexts: Contexts, id: int)
    | Observing(contexts: Contexts, id: int)
    | Verifying(contexts: Contexts, id: int, tab: int)
    | Verified(contexts: Contexts, id: int, tab: int, incognito: set<int>)
    | Saving(contexts: Contexts, context: Context, seen: set<int>)
    | Failing(created: Option<int>)
    | Logging
    | Started(context: Context, seen: set<int>)
    | Ended
    | Completing(contexts: Contexts, context: Context, closes: bool)
    | Closing(context: Context)
    | Dropping(contexts: Contexts, id: int)

  datatype Call = Call(isolated: bool, phase: Phase)

  datatype Browser = Browser(
    inFlight: bool,                 // isolatedStartInFlight
    storage: Contexts,
    open: map<int, Window>,
    born: map<int, Window>,         // every window that was ever opened; ids are not used again
    calls: seq<Call>,
    removals: set<int>,             // windows that the coordinator asked to remove
    completed: set<int>)            // those of them that complete asked to remove

  const FRESH := Browser(false, map[], map[], map[], [], {}, {})

  /** What the browser answers: whether all is well, the id it gives, and the mode of a new window, which
      need not be the one that was asked for. */
  datatype Answer = Answer(good: bool, choice: int, incognito: bool)

  datatype Action =
    | Start(isolated: bool)
    | Run(call: nat, ans: Answer)                      // the call takes its next segment
    | Throw(call: nat)                                 // an awaited operation fails
    | Complete(windowId: int, closes: bool)
    | Removed(windowId: int)                           // the listener for closed windows
    | PersonOpens(id: int, incognito: bool)
    | WindowCloses(id: int)

  function Incognito(open: map<int, Window>): (ids: set<int>)
    ensures forall id :: id in ids <==> id in open && open[id].incognito
  {
    set id | id in open && open[id].incognito
  }

  function Goto(b: Browser, c: nat, phase: Phase): Browser
    requires c < |b.calls|
  {
    b.(calls := b.calls[c := b.calls[c].(phase := phase)])
  }

  /** The finally block of start. */
  function Finish(b: Browser, c: nat, phase: Phase): Browser
    requires c < |b.calls|
  {
    var ended := Goto(b, c, phase);
    if b.calls[c].isolated then ended.(inFlight := false) else ended
  }

  function OpenWindow(b: Browser, id: int, w: Window): Browser {
    b.(open := b.open[id := w], born := b.born[id := w])
  }

  /** The browser is asked to remove a window; if it does, the window closes later. */
  function RemoveWindow(b: Browser, id: int): Browser {
    b.(removals := b.removals + {id})
  }

  /** Contexts of isolated windows that are no longer open are dropped. */
  function Pruned(contexts: Contexts, incognito: set<int>): Contexts {
    map k | k in contexts && (contexts[k].isolated ==> contexts[k].windowId in incognito) :: contexts[k]
  }

  /** The segment after the first list of windows arrived. */
  function Survey(b: Browser, c: nat, contexts: Contexts, incognito: set<int>): Browser
    requires c < |b.calls|
  {
    if exists k | k in contexts :: contexts[k].isolated && contexts[k].windowId in incognito then
      Finish(b, c, Ended)                              // isolated_recovery_active
    else if Pruned(contexts, incognito) != contexts then
      Goto(b, c, Pruning(Pruned(contexts, incognito), incognito))
    else AfterPruning(b, c, contexts, incognito)
  }

  function AfterPruning(b: Browser, c: nat, contexts: Contexts, incognito: set<int>): Browser
    requires c < |b.calls|
  {
    if incognito != {} then Finish(b, c, Ended)        // existing_incognito_window
    else Goto(b, c, Creating(contexts))
  }

  function WithContext(contexts: Contexts, context: Context): Contexts {
    contexts[context.windowId := context]
  }

  /** One segment of a call. */
  function Segment(b: Browser, c: nat, ans: Answer): Browser
    requires c < |b.calls|
  {
    var isolated := b.calls[c].isolated;
    match b.calls[c].phase
    case Loading =>
      Goto(b, c, if isolated then AskingAccess(b.storage) else Creating(b.storage))
    case AskingAccess(contexts) =>
      if ans.good then Goto(b, c, AskingWindows(contexts)) else Finish(b, c, Ended)
    case AskingWindows(contexts) =>
      Goto(b, c, Surveyed(contexts, Incognito(b.open)))
    case Surveyed(contexts, incognito) =>
      Survey(b, c, contexts, incognito)
    case Pruning(contexts, incognito) =>
      AfterPruning(b.(storage := contexts), c, contexts, incognito)
    case Creating(contexts) =>
      if ans.good && ans.choice !in b.born
      then Goto(OpenWindow(b, ans.choice, Window(ans.incognito, Setup(isolated))), c, Created(contexts, ans.choice))
      else Finish(b, c, Ended)                         // setup returned ok: false
    case Created(contexts, id) =>
      Goto(b, c, Observing(contexts, id))
    case Observing(contexts, id) =>
      if !ans.good || id !in b.open || b.open[id].incognito != isolated then Goto(b, c, Failing(Some(id)))
      else if isolated then Goto(b, c, Verifying(contexts, id, ans.choice))
      else
        var context := Context(false, id, ans.choice);
        Goto(b, c, Saving(WithContext(contexts, context), context, {}))
    case Verifying(contexts, id, tab) =>
      Goto(b, c, Verified(contexts, id, tab, Incognito(b.open)))
    case Verified(contexts, id, tab, incognito) =>
      if exists other | other in incognito :: other != id then Goto(b, c, Failing(Some(id)))
      else
        var context := Context(true, id, tab);
        Goto(b, c, Saving(WithContext(contexts, context), context, incognito))
    case Saving(contexts, context, seen) =>
      Finish(b.(storage := contexts), c, Started(context, seen))
    case Failing(created) =>
      Goto(if isolated && created.Some? then RemoveWindow(b, created.value) else b, c, Logging)
    case Logging =>
      Finish(b, c, Ended)
    case Completing(contexts, context, closes) =>
      var saved := b.(storage := contexts - {context.windowId});
      Goto(saved, c, if context.isolated && closes then Closing(context) else Ended)
    case Closing(context) =>
      Goto(RemoveWindow(b, context.windowId).(completed := b.completed + {context.windowId}), c, Ended)
    case Dropping(contexts, id) =>
      Goto(b.(storage := contexts - {id}), c, Ended)
    case Started(_, _) => b
    case Ended => b
  }

  /** An exception: before setup returned there is no window to remove. */
  function Exception(b: Browser, c: nat): Browser
    requires c < |b.calls|
  {
    match b.calls[c].phase
    case Loading => Goto(b, c, Failing(None))
    case AskingAccess(_) => Goto(b, c, Failing(None))
    case AskingWindows(_) => Goto(b, c, Failing(None))
    case Pruning(_, _) => Goto(b, c, Failing(None))
    case Created(_, _) => Finish(b, c, Ended)          // caught by setup, which returns ok: false
    case Observing(_, id) => Goto(b, c, Failing(Some(id)))
    case Verifying(_, id, _) => Goto(b, c, Failing(Some(id)))
    case Saving(_, context, _) => Goto(b, c, Failing(Some(context.windowId)))
    case Logging => Finish(b, c, Ended)
    case Completing(_, _, _) => Goto(b, c, Ended)
    case Dropping(_, _) => Goto(b, c, Ended)
    case _ => b
  }

  function Step(b: Browser, a: Action): Browser {
    match a
    case Start(isolated) =>
      if isolated && b.inFlight then b.(calls := b.calls + [Call(true, Ended)])
      else b.(calls := b.calls + [Call(isolated, Loading)], inFlight := b.inFlight || isolated)
    case Run(c, ans) => if c < |b.calls| then Segment(b, c, ans) else b
    case Throw(c) => if c < |b.calls| then Exception(b, c) else b
    case Complete(windowId, closes) =>
      if windowId in b.storage
      then b.(calls := b.calls + [Call(false, Completing(b.storage, b.storage[windowId], closes))]) else b
    case Removed(windowId) =>
      if windowId in b.storage then b.(calls := b.calls + [Call(false, Dropping(b.storage, windowId))]) else b
    case PersonOpens(id, incognito) =>
      if id in b.born then b else OpenWindow(b, id, Window(incognito, Person))
    case WindowCloses(id) => b.(open := b.open - {id})
  }

  function Behaviour(actions: seq<Action>): Browser {
    if actions == [] then FRESH else Step(Behaviour(actions[..|actions|-1]), actions[|actions|-1])
  }

  // ------------------------------------------------------------------ mutual exclusion

  /** An isolated start between raising the flag and lowering it. */
  predicate Critical(call: Call) {
    call.isolated && !call.phase.Started? && !call.phase.Ended?
  }

  /** A window that an isolated setup call opened, in whatever mode the browser chose. */
  predicate Ours(b: Browser, id: int) {
    id in b.born && b.born[id].opener == Setup(true)
  }

  /** One that is incognito as it should be. */
  predicate Private(b: Browser, id: int) {
    Ours(b, id) && b.born[id].incognito
  }

  /** The flag is up exactly while one isolated start is under way. */
  ghost predicate FlagGuards(b: Browser) {
    && (forall c, d | 0 <= c < d < |b.calls| :: !(Critical(b.calls[c]) && Critical(b.calls[d])))
    && (b.inFlight <==> exists c :: 0 <= c < |b.calls| && Critical(b.calls[c]))
  }

  ghost predicate NoneOpen(b: Browser) {
    forall id | id in b.open :: !Private(b, id)
  }

  /** What a call may rely on between the survey and the creation of its window. */
  ghost predicate PhaseHolds(b: Browser, call: Call) {
    match call.phase
    case AskingAccess(_) => call.isolated
    case AskingWindows(_) => call.isolated
    case Surveyed(_, incognito) => call.isolated && (incognito == {} ==> NoneOpen(b))
    case Pruning(_, incognito) => call.isolated && (incognito == {} ==> NoneOpen(b))
    case Creating(_) => call.isolated ==> NoneOpen(b)
    case Completing(_, _, _) => !call.isolated
    case Closing(_) => !call.isolated
    case Dropping(_, _) => !call.isolated
    case _ => true
  }

  ghost predicate WindowsSound(b: Browser) {
    forall id | id in b.open :: id in b.born && b.born[id] == b.open[id]
  }

  ghost predicate Exclusive(b: Browser) {
    && FlagGuards(b) && WindowsSound(b)
    && (forall c | 0 <= c < |b.calls| :: PhaseHolds(b, b.calls[c]))
    && (forall x, y | x in b.open && y in b.open && Private(b, x) && Private(b, y) :: x == y)
  }

  predicate Over(phase: Phase) {
    phase.Started? || phase.Ended?
  }

  /** A segment concerns one call, and lowers the flag exactly when it ends an isolated one. */
  ghost predicate OneCall(b: Browser, after: Browser, c: nat) {
    && c < |b.calls| && |after.calls| == |b.calls|
    && (forall d | 0 <= d < |b.calls| && d != c :: after.calls[d] == b.calls[d])
    && after.calls[c].isolated == b.calls[c].isolated
    && (Over(b.calls[c].phase) ==> Over(after.calls[c].phase))
    && after.inFlight == if Critical(b.calls[c]) && Over(after.calls[c].phase) then false else b.inFlight
  }

  lemma OneCallKeepsFlag(b: Browser, after: Browser, c: nat)
    requires OneCall(b, after, c) && FlagGuards(b)
    ensures FlagGuards(after)
  {
    if after.inFlight {
      var d :| 0 <= d < |b.calls| && Critical(b.calls[d]);
      assert Critical(after.calls[d]);
    }
  }

  lemma GotoIsOneCall(b: Browser, mid: Browser, c: nat, phase: Phase)
    requires c < |b.calls| && mid.calls == b.calls && mid.inFlight == b.inFlight
    requires !Over(b.calls[c].phase) && (b.calls[c].isolated ==> !Over(phase))
    ensures OneCall(b, Goto(mid, c, phase), c)
  {
  }

  lemma FinishIsOneCall(b: Browser, mid: Browser, c: nat, phase: Phase)
    requires c < |b.calls| && mid.calls == b.calls && mid.inFlight == b.inFlight
    requires !Over(b.calls[c].phase) && Over(phase)
    ensures OneCall(b, Finish(mid, c, phase), c)
  {
  }

  predicate Early(phase: Phase) {
    phase.Loading? || phase.AskingAccess? || phase.AskingWindows? || phase.Surveyed? || phase.Pruning? || phase.Creating?
  }

  predicate Late(phase: Phase) {
    phase.Created? || phase.Observing? || phase.Verifying? || phase.Verified? || phase.Saving? || phase.Failing? || phase.Logging?
  }

  lemma SurveyIsOneCall(b: Browser, c: nat, contexts: Contexts, incognito: set<int>)
    requires c < |b.calls| && b.calls[c].phase.Surveyed?
    ensures OneCall(b, Survey(b, c, contexts, incognito), c)
  {
    FinishIsOneCall(b, b, c, Ended);
    GotoIsOneCall(b, b, c, Pruning(Pruned(contexts, incognito), incognito));
    GotoIsOneCall(b, b, c, Creating(contexts));
  }

  lemma EarlyIsOneCall(b: Browser, c: nat, ans: Answer)
    requires c < |b.calls| && Early(b.calls[c].phase)
    ensures OneCall(b, Segment(b, c, ans), c)
  {
    match b.calls[c].phase
    case Surveyed(contexts, incognito) => SurveyIsOneCall(b, c, contexts, incognito);
    case _ =>
  }

  lemma LateIsOneCall(b: Browser, c: nat, ans: Answer)
    requires c < |b.calls| && Late(b.calls[c].phase)
    ensures OneCall(b, Segment(b, c, ans), c)
  {
    match b.calls[c].phase
    case Created(contexts, id) => GotoIsOneCall(b, b, c, Observing(contexts, id));
    case Observing(contexts, id) => GotoIsOneCall(b, b, c, Segment(b, c, ans).calls[c].phase);
    case Verifying(contexts, id, tab) => GotoIsOneCall(b, b, c, Verified(contexts, id, tab, Incognito(b.open)));
    case Verified(_, _, _, _) => GotoIsOneCall(b, b, c, Segment(b, c, ans).calls[c].phase);
    case Saving(contexts, context, seen) => FinishIsOneCall(b, b.(storage := contexts), c, Started(context, seen));
    case Failing(created) =>
      GotoIsOneCall(b, if b.calls[c].isolated && created.Some? then RemoveWindow(b, created.value) else b, c, Logging);
    case Logging => FinishIsOneCall(b, b, c, Ended);
  }

  lemma SegmentIsOneCall(b: Browser, c: nat, ans: Answer)
    requires c < |b.calls| && PhaseHolds(b, b.calls[c])
    ensures OneCall(b, Segment(b, c, ans), c)
  {
    if Early(b.calls[c].phase) {
      EarlyIsOneCall(b, c, ans);
    } else if Late(b.calls[c].phase) {
      LateIsOneCall(b, c, ans);
    }
  }

  lemma ExceptionIsOneCall(b: Browser, c: nat)
    requires c < |b.calls| && PhaseHolds(b, b.calls[c])
    ensures OneCall(b, Exception(b, c), c)
  {
  }

  // ------------------------------------------------------------------ windows

  /** Windows may have been closed or opened, but none of the coordinator's isolated ones was opened. */
  ghost predicate NoneOfOursOpened(b: Browser, after: Browser) {
    && (forall id | id in b.born :: id in after.born && after.born[id] == b.born[id])
    && (forall id | id in after.open && Private(after, id) :: id in b.open && Private(b, id))
  }

  /** The call that changed relies on no more than it may. */
  lemma QuietStep(b: Browser, after: Browser, c: nat)
    requires Exclusive(b) && OneCall(b, after, c) && NoneOfOursOpened(b, after) && WindowsSound(after)
    requires PhaseHolds(after, after.calls[c])
    ensures Exclusive(after)
  {
    OneCallKeepsFlag(b, after, c);
    forall d | 0 <= d < |b.calls| ensures PhaseHolds(after, after.calls[d]) {
      if d != c { assert PhaseHolds(b, b.calls[d]); }
    }
  }

  /** The one step that opens a window of the coordinator: no such window is open, and no other call is
      between its survey and its creation. */
  lemma CreationStep(b: Browser, c: nat, ans: Answer)
    requires Exclusive(b) && c < |b.calls| && b.calls[c].phase.Creating? && ans.good && ans.choice !in b.born
    ensures Exclusive(Segment(b, c, ans))
  {
    var after := Segment(b, c, ans);
    SegmentIsOneCall(b, c, ans);
    OneCallKeepsFlag(b, after, c);
    assert PhaseHolds(b, b.calls[c]);
    forall d | 0 <= d < |b.calls| ensures PhaseHolds(after, after.calls[d]) {
      if d != c {
        assert PhaseHolds(b, b.calls[d]);
        if b.calls[c].isolated { assert !Critical(b.calls[d]); }
      }
    }
  }

  lemma SurveyFindsOurs(b: Browser)
    requires WindowsSound(b) && Incognito(b.open) == {}
    ensures NoneOpen(b)
  {
    forall id | id in b.open ensures !Private(b, id) {
      assert id !in Incognito(b.open);
    }
  }

  /** No window is opened or closed, and the call that moved relies on no more than it may. */
  ghost predicate Quiet(b: Browser, after: Browser, c: nat) {
    && after.born == b.born && after.open == b.open
    && c < |after.calls| && PhaseHolds(after, after.calls[c])
  }

  lemma SurveyIsQuiet(b: Browser, c: nat, contexts: Contexts, incognito: set<int>)
    requires c < |b.calls| && b.calls[c].isolated && (incognito == {} ==> NoneOpen(b))
    ensures Quiet(b, Survey(b, c, contexts, incognito), c)
  {
  }

  lemma EarlyIsQuiet(b: Browser, c: nat, ans: Answer)
    requires WindowsSound(b) && c < |b.calls| && PhaseHolds(b, b.calls[c]) && Early(b.calls[c].phase)
    requires !(b.calls[c].phase.Creating? && ans.good && ans.choice !in b.born)
    ensures Quiet(b, Segment(b, c, ans), c)
  {
    match b.calls[c].phase
    case AskingWindows(_) => if Incognito(b.open) == {} { SurveyFindsOurs(b); }
    case Surveyed(contexts, incognito) => SurveyIsQuiet(b, c, contexts, incognito);
    case _ =>
  }

  /** From its window on, a call relies on nothing. */
  lemma CarelessIsQuiet(b: Browser, after: Browser, c: nat)
    requires after.born == b.born && after.open == b.open && c < |after.calls|
    requires Late(after.calls[c].phase) || Over(after.calls[c].phase)
    ensures Quiet(b, after, c)
  {
  }

  lemma LateIsQuiet(b: Browser, c: nat, ans: Answer)
    requires c < |b.calls| && Late(b.calls[c].phase)
    ensures Quiet(b, Segment(b, c, ans), c)
  {
    CarelessIsQuiet(b, Segment(b, c, ans), c);
  }

  lemma ExceptionIsQuiet(b: Browser, c: nat)
    requires c < |b.calls| && PhaseHolds(b, b.calls[c])
    ensures Quiet(b, Exception(b, c), c)
  {
    var after := Exception(b, c);
    if after != b { CarelessIsQuiet(b, after, c); }
  }

  /** Every segment but the creation of a window is quiet. */
  lemma SegmentIsQuiet(b: Browser, c: nat, ans: Answer)
    requires WindowsSound(b) && c < |b.calls| && PhaseHolds(b, b.calls[c])
    requires !(b.calls[c].phase.Creating? && ans.good && ans.choice !in b.born)
    ensures Quiet(b, Segment(b, c, ans), c)
  {
    if Early(b.calls[c].phase) {
      EarlyIsQuiet(b, c, ans);
    } else if Late(b.calls[c].phase) {
      LateIsQuiet(b, c, ans);
    }
  }

  lemma SegmentKeepsExclusive(b: Browser, c: nat, ans: Answer)
    requires Exclusive(b) && c < |b.calls|
    ensures Exclusive(Segment(b, c, ans))
  {
    if b.calls[c].phase.Creating? && ans.good && ans.choice !in b.born {
      CreationStep(b, c, ans);
    } else {
      assert PhaseHolds(b, b.calls[c]);
      SegmentIsOneCall(b, c, ans);
      SegmentIsQuiet(b, c, ans);
      QuietStep(b, Segment(b, c, ans), c);
    }
  }

  lemma ExceptionKeepsExclusive(b: Browser, c: nat)
    requires Exclusive(b) && c < |b.calls|
    ensures Exclusive(Exception(b, c))
  {
    assert PhaseHolds(b, b.calls[c]);
    ExceptionIsOneCall(b, c);
    ExceptionIsQuiet(b, c);
    QuietStep(b, Exception(b, c), c);
  }

  /** A call that begins relies on nothing yet. */
  lemma BeginningKeepsExclusive(b: Browser, call: Call, raise: bool)
    requires Exclusive(b) && PhaseHolds(b, call) && (Critical(call) <==> raise) && (raise ==> !b.inFlight)
    ensures Exclusive(b.(calls := b.calls + [call], inFlight := b.inFlight || raise))
  {
    var after := b.(calls := b.calls + [call], inFlight := b.inFlight || raise);
    assert after.calls[|b.calls|] == call;
    forall c | 0 <= c < |after.calls| ensures PhaseHolds(after, after.calls[c]) {
      if c < |b.calls| { assert PhaseHolds(b, b.calls[c]); }
    }
    if b.inFlight {
      var c :| 0 <= c < |b.calls| && Critical(b.calls[c]);
      assert Critical(after.calls[c]);
    }
  }

  lemma OutsideKeepsExclusive(b: Browser, after: Browser)
    requires Exclusive(b) && NoneOfOursOpened(b, after) && WindowsSound(after)
    requires after.calls == b.calls && after.inFlight == b.inFlight
    ensures Exclusive(after)
  {
    forall c | 0 <= c < |b.calls| ensures PhaseHolds(after, after.calls[c]) { assert PhaseHolds(b, b.calls[c]); }
  }

  lemma StepKeepsExclusive(b: Browser, a: Action)
    requires Exclusive(b)
    ensures Exclusive(Step(b, a))
  {
    match a
    case Start(isolated) =>
      if isolated && b.inFlight { BeginningKeepsExclusive(b, Call(true, Ended), false); }
      else { BeginningKeepsExclusive(b, Call(isolated, Loading), isolated); }
    case Run(c, ans) => if c < |b.calls| { SegmentKeepsExclusive(b, c, ans); }
    case Throw(c) => if c < |b.calls| { ExceptionKeepsExclusive(b, c); }
    case Complete(id, closes) =>
      if id in b.storage { BeginningKeepsExclusive(b, Call(false, Completing(b.storage, b.storage[id], closes)), false); }
    case Removed(id) =>
      if id in b.storage { BeginningKeepsExclusive(b, Call(false, Dropping(b.storage, id)), false); }
    case _ => OutsideKeepsExclusive(b, Step(b, a));
  }

  lemma {:induction false} BehaviourIsExclusive(actions: seq<Action>)
    ensures Exclusive(Behaviour(actions))
    decreases |actions|
  {
    if actions != [] {
      BehaviourIsExclusive(actions[..|actions|-1]);
      StepKeepsExclusive(Behaviour(actions[..|actions|-1]), actions[|actions|-1]);
    }
  }

  /** Whatever the interleaving, at most one window that an isolated start opened is open, at most one
      isolated start is under way, and the flag is never left up when none is. */
  lemma OneIsolatedWindow(actions: seq<Action>)
    ensures var b := Behaviour(actions);
            && (forall x, y | x in b.open && y in b.open && Private(b, x) && Private(b, y) :: x == y)
            && (forall c, d | 0 <= c < d < |b.calls| :: !(Critical(b.calls[c]) && Critical(b.calls[d])))
            && (b.inFlight <==> exists c :: 0 <= c < |b.calls| && Critical(b.calls[c]))
  {
    BehaviourIsExclusive(actions);
  }

  // ------------------------------------------------------------------ whose windows are removed

  ghost predicate ContextsOurs(b: Browser, contexts: Contexts) {
    forall k | k in contexts :: contexts[k].windowId == k && (contexts[k].isolated ==> Private(b, k))
  }

  /** The contexts a call holds a copy of, as storage was when it was read. */
  function Held(phase: Phase): Contexts {
    match phase
    case AskingAccess(cs) => cs
    case AskingWindows(cs) => cs
    case Surveyed(cs, _) => cs
    case Pruning(cs, _) => cs
    case Creating(cs) => cs
    case Created(cs, _) => cs
    case Observing(cs, _) => cs
    case Verifying(cs, _, _) => cs
    case Verified(cs, _, _, _) => cs
    case Saving(cs, _, _) => cs
    case Completing(cs, _, _) => cs
    case Dropping(cs, _) => cs
    case _ => map[]
  }

  /** The window a call may ask to remove. */
  function Liable(call: Call): Option<int> {
    match call.phase
    case Created(_, id) => if call.isolated then Some(id) else None
    case Observing(_, id) => if call.isolated then Some(id) else None
    case Verifying(_, id, _) => if call.isolated then Some(id) else None
    case Verified(_, id, _, _) => if call.isolated then Some(id) else None
    case Saving(_, context, _) => if call.isolated then Some(context.windowId) else None
    case Failing(created) => if call.isolated then created else None
    case Completing(_, context, _) => if context.isolated then Some(context.windowId) else None
    case Closing(context) => Some(context.windowId)
    case _ => None
  }

  /** The window was seen to be incognito. */
  predicate Vetted(phase: Phase) {
    phase.Verifying? || phase.Verified? || phase.Saving? || phase.Completing? || phase.Closing?
  }

  /** The second list of windows of an isolated start showed no incognito window but its own. */
  predicate SawOnlyOwn(phase: Phase) {
    match phase
    case Saving(_, context, seen) => context.isolated ==> forall other | other in seen :: other == context.windowId
    case Started(context, seen) => context.isolated ==> forall other | other in seen :: other == context.windowId
    case _ => true
  }

  ghost predicate CallOurs(b: Browser, call: Call) {
    && ContextsOurs(b, Held(call.phase))
    && (Liable(call).Some? ==> Ours(b, Liable(call).value) && (Vetted(call.phase) ==> Private(b, Liable(call).value)))
    && SawOnlyOwn(call.phase)
    && (call.phase.Verifying? || call.phase.Verified? ==> call.isolated)
  }

  /** Whatever was removed in one state is the coordinator's own in the other, and incognito if complete did it. */
  ghost predicate RemovalsOurs(b: Browser, after: Browser) {
    (forall id | id in after.removals :: Ours(b, id)) && (forall id | id in after.completed :: Private(b, id))
  }

  ghost predicate AllOurs(b: Browser) {
    && ContextsOurs(b, b.storage)
    && (forall c | 0 <= c < |b.calls| :: CallOurs(b, b.calls[c]))
    && RemovalsOurs(b, b)
  }

  lemma CallOursLater(b: Browser, after: Browser, call: Call)
    requires CallOurs(b, call) && forall id | id in b.born :: id in after.born && after.born[id] == b.born[id]
    ensures CallOurs(after, call)
  {
  }

  /** What one segment or exception must leave true of its own call, of storage and of the removals. */
  ghost predicate CallLeftOurs(after: Browser, c: nat) {
    && c < |after.calls| && CallOurs(after, after.calls[c])
    && ContextsOurs(after, after.storage)
    && RemovalsOurs(after, after)
  }

  lemma GotoCallIsOurs(b: Browser, mid: Browser, c: nat, phase: Phase)
    requires c < |b.calls| && mid.calls == b.calls && mid.born == b.born
    requires ContextsOurs(b, mid.storage) && RemovalsOurs(b, mid)
    requires CallOurs(b, b.calls[c].(phase := phase))
    ensures CallLeftOurs(Goto(mid, c, phase), c)
  {
    CallOursLater(b, Goto(mid, c, phase), b.calls[c].(phase := phase));
  }

  lemma FinishCallIsOurs(b: Browser, mid: Browser, c: nat, phase: Phase)
    requires c < |b.calls| && mid.calls == b.calls && mid.born == b.born
    requires ContextsOurs(b, mid.storage) && RemovalsOurs(b, mid)
    requires CallOurs(b, b.calls[c].(phase := phase))
    ensures CallLeftOurs(Finish(mid, c, phase), c)
  {
    GotoCallIsOurs(b, mid, c, phase);
    CallOursLater(b, Finish(mid, c, phase), b.calls[c].(phase := phase));
  }

  lemma AfterPruningCallIsOurs(b: Browser, mid: Browser, c: nat, contexts: Contexts, incognito: set<int>)
    requires AllOurs(b) && c < |b.calls| && mid == b.(storage := mid.storage)
    requires ContextsOurs(b, contexts) && ContextsOurs(b, mid.storage)
    ensures CallLeftOurs(AfterPruning(mid, c, contexts, incognito), c)
  {
    if incognito != {} { FinishCallIsOurs(b, mid, c, Ended); }
    else { GotoCallIsOurs(b, mid, c, Creating(contexts)); }
  }

  lemma SurveyCallIsOurs(b: Browser, c: nat, contexts: Contexts, incognito: set<int>)
    requires AllOurs(b) && c < |b.calls| && ContextsOurs(b, contexts)
    ensures CallLeftOurs(Survey(b, c, contexts, incognito), c)
  {
    FinishCallIsOurs(b, b, c, Ended);
    GotoCallIsOurs(b, b, c, Pruning(Pruned(contexts, incognito), incognito));
    AfterPruningCallIsOurs(b, b, c, contexts, incognito);
  }

  lemma CreationCallIsOurs(b: Browser, c: nat, ans: Answer)
    requires AllOurs(b) && c < |b.calls| && b.calls[c].phase.Creating?
    ensures CallLeftOurs(Segment(b, c, ans), c)
  {
    var after := Segment(b, c, ans);
    assert CallOurs(b, b.calls[c]);
    assert forall id | id in b.born :: id in after.born && after.born[id] == b.born[id];
    assert forall id | Ours(b, id) :: Ours(after, id) && after.born[id] == b.born[id];
  }

  lemma EarlyCallIsOurs(b: Browser, c: nat, ans: Answer)
    requires AllOurs(b) && c < |b.calls| && Early(b.calls[c].phase)
    ensures CallLeftOurs(Segment(b, c, ans), c)
  {
    assert CallOurs(b, b.calls[c]);
    match b.calls[c].phase
    case Loading =>
      GotoCallIsOurs(b, b, c, if b.calls[c].isolated then AskingAccess(b.storage) else Creating(b.storage));
    case AskingAccess(contexts) =>
      GotoCallIsOurs(b, b, c, AskingWindows(contexts));
      FinishCallIsOurs(b, b, c, Ended);
    case AskingWindows(contexts) => GotoCallIsOurs(b, b, c, Surveyed(contexts, Incognito(b.open)));
    case Surveyed(contexts, incognito) => SurveyCallIsOurs(b, c, contexts, incognito);
    case Pruning(contexts, incognito) => AfterPruningCallIsOurs(b, b.(storage := contexts), c, contexts, incognito);
    case Creating(_) => CreationCallIsOurs(b, c, ans);
  }

  lemma ObservingCallIsOurs(b: Browser, c: nat, ans: Answer)
    requires AllOurs(b) && WindowsSound(b) && c < |b.calls| && b.calls[c].phase.Observing?
    ensures CallLeftOurs(Segment(b, c, ans), c)
  {
    assert CallOurs(b, b.calls[c]);
    var contexts, id := b.calls[c].phase.contexts, b.calls[c].phase.id;
    if !ans.good || id !in b.open || b.open[id].incognito != b.calls[c].isolated {
      GotoCallIsOurs(b, b, c, Failing(Some(id)));
    } else if b.calls[c].isolated {
      GotoCallIsOurs(b, b, c, Verifying(contexts, id, ans.choice));
    } else {
      var context := Context(false, id, ans.choice);
      GotoCallIsOurs(b, b, c, Saving(WithContext(contexts, context), context, {}));
    }
  }

  lemma VerifiedCallIsOurs(b: Browser, c: nat, ans: Answer)
    requires AllOurs(b) && c < |b.calls| && b.calls[c].phase.Verified?
    ensures CallLeftOurs(Segment(b, c, ans), c)
  {
    assert CallOurs(b, b.calls[c]);
    var contexts, id, incognito := b.calls[c].phase.contexts, b.calls[c].phase.id, b.calls[c].phase.incognito;
    if exists other | other in incognito :: other != id {
      GotoCallIsOurs(b, b, c, Failing(Some(id)));
    } else {
      var context := Context(true, id, b.calls[c].phase.tab);
      GotoCallIsOurs(b, b, c, Saving(WithContext(contexts, context), context, incognito));
    }
  }

  lemma LateCallIsOurs(b: Browser, c: nat, ans: Answer)
    requires AllOurs(b) && WindowsSound(b) && c < |b.calls| && Late(b.calls[c].phase)
    ensures CallLeftOurs(Segment(b, c, ans), c)
  {
    assert CallOurs(b, b.calls[c]);
    match b.calls[c].phase
    case Created(contexts, id) => GotoCallIsOurs(b, b, c, Observing(contexts, id));
    case Observing(_, _) => ObservingCallIsOurs(b, c, ans);
    case Verifying(contexts, id, tab) => GotoCallIsOurs(b, b, c, Verified(contexts, id, tab, Incognito(b.open)));
    case Verified(_, _, _, _) => VerifiedCallIsOurs(b, c, ans);
    case Saving(contexts, context, seen) => FinishCallIsOurs(b, b.(storage := contexts), c, Started(context, seen));
    case Failing(created) =>
      GotoCallIsOurs(b, if b.calls[c].isolated && created.Some? then RemoveWindow(b, created.value) else b, c, Logging);
    case Logging => FinishCallIsOurs(b, b, c, Ended);
  }

  lemma SegmentCallIsOurs(b: Browser, c: nat, ans: Answer)
    requires AllOurs(b) && WindowsSound(b) && c < |b.calls|
    ensures CallLeftOurs(Segment(b, c, ans), c)
  {
    if Early(b.calls[c].phase) {
      EarlyCallIsOurs(b, c, ans);
    } else if Late(b.calls[c].phase) {
      LateCallIsOurs(b, c, ans);
    } else {
      ClosingCallIsOurs(b, c, ans);
    }
  }

  lemma CompletingCallIsOurs(b: Browser, c: nat, ans: Answer)
    requires AllOurs(b) && c < |b.calls| && b.calls[c].phase.Completing?
    ensures CallLeftOurs(Segment(b, c, ans), c)
  {
    assert CallOurs(b, b.calls[c]);
    var contexts, context := b.calls[c].phase.contexts, b.calls[c].phase.context;
    GotoCallIsOurs(b, b.(storage := contexts - {context.windowId}), c,
      if context.isolated && b.calls[c].phase.closes then Closing(context) else Ended);
  }

  /** A call that completes a recovery, forgets a closed window, or has ended. */
  lemma ClosingCallIsOurs(b: Browser, c: nat, ans: Answer)
    requires AllOurs(b) && c < |b.calls| && !Early(b.calls[c].phase) && !Late(b.calls[c].phase)
    ensures CallLeftOurs(Segment(b, c, ans), c)
  {
    assert CallOurs(b, b.calls[c]);
    match b.calls[c].phase
    case Completing(_, _, _) => CompletingCallIsOurs(b, c, ans);
    case Closing(context) =>
      GotoCallIsOurs(b, RemoveWindow(b, context.windowId).(completed := b.completed + {context.windowId}), c, Ended);
    case Dropping(contexts, id) => GotoCallIsOurs(b, b.(storage := contexts - {id}), c, Ended);
    case _ =>
  }

  lemma EarlyExceptionIsOurs(b: Browser, c: nat)
    requires AllOurs(b) && c < |b.calls| && Early(b.calls[c].phase)
    ensures CallLeftOurs(Exception(b, c), c)
  {
    GotoCallIsOurs(b, b, c, Failing(None));
    assert CallOurs(b, b.calls[c]);
  }

  lemma LateExceptionIsOurs(b: Browser, c: nat)
    requires AllOurs(b) && c < |b.calls| && Late(b.calls[c].phase)
    ensures CallLeftOurs(Exception(b, c), c)
  {
    assert CallOurs(b, b.calls[c]);
    match b.calls[c].phase
    case Created(_, _) => FinishCallIsOurs(b, b, c, Ended);
    case Observing(_, id) => GotoCallIsOurs(b, b, c, Failing(Some(id)));
    case Verifying(_, id, _) => GotoCallIsOurs(b, b, c, Failing(Some(id)));
    case Saving(_, context, _) => GotoCallIsOurs(b, b, c, Failing(Some(context.windowId)));
    case Logging => FinishCallIsOurs(b, b, c, Ended);
    case _ =>
  }

  lemma ExceptionCallIsOurs(b: Browser, c: nat)
    requires AllOurs(b) && c < |b.calls|
    ensures CallLeftOurs(Exception(b, c), c)
  {
    if Early(b.calls[c].phase) {
      EarlyExceptionIsOurs(b, c);
    } else if Late(b.calls[c].phase) {
      LateExceptionIsOurs(b, c);
    } else {
      assert CallOurs(b, b.calls[c]);
      GotoCallIsOurs(b, b, c, Ended);
    }
  }

  lemma SegmentKeepsOurs(b: Browser, c: nat, ans: Answer)
    requires AllOurs(b) && WindowsSound(b) && c < |b.calls| && PhaseHolds(b, b.calls[c])
    ensures AllOurs(Segment(b, c, ans))
  {
    var after := Segment(b, c, ans);
    SegmentIsOneCall(b, c, ans);
    SegmentCallIsOurs(b, c, ans);
    forall d | 0 <= d < |after.calls| ensures CallOurs(after, after.calls[d]) {
      if d != c { CallOursLater(b, after, b.calls[d]); }
    }
  }

  lemma ExceptionKeepsOurs(b: Browser, c: nat)
    requires AllOurs(b) && c < |b.calls| && PhaseHolds(b, b.calls[c])
    ensures AllOurs(Exception(b, c))
  {
    var after := Exception(b, c);
    ExceptionIsOneCall(b, c);
    ExceptionCallIsOurs(b, c);
    forall d | 0 <= d < |after.calls| ensures CallOurs(after, after.calls[d]) {
      if d != c { CallOursLater(b, after, b.calls[d]); }
    }
  }

  lemma BeginningKeepsOurs(b: Browser, after: Browser, call: Call)
    requires AllOurs(b) && CallOurs(b, call)
    requires after == b.(calls := b.calls + [call], inFlight := after.inFlight)
    ensures AllOurs(after)
  {
    forall d | 0 <= d < |after.calls| ensures CallOurs(after, after.calls[d]) {
      CallOursLater(b, after, after.calls[d]);
    }
  }

  lemma OutsideKeepsOurs(b: Browser, after: Browser)
    requires AllOurs(b) && after == b.(open := after.open, born := after.born)
    requires forall id | id in b.born :: id in after.born && after.born[id] == b.born[id]
    ensures AllOurs(after)
  {
    forall d | 0 <= d < |after.calls| ensures CallOurs(after, after.calls[d]) {
      CallOursLater(b, after, b.calls[d]);
    }
  }

  lemma StepKeepsOurs(b: Browser, a: Action)
    requires AllOurs(b) && Exclusive(b)
    ensures AllOurs(Step(b, a))
  {
    var after := Step(b, a);
    match a
    case Run(c, ans) =>
      if c < |b.calls| {
        assert PhaseHolds(b, b.calls[c]);
        SegmentKeepsOurs(b, c, ans);
      }
    case Throw(c) =>
      if c < |b.calls| {
        assert PhaseHolds(b, b.calls[c]);
        ExceptionKeepsOurs(b, c);
      }
    case Start(isolated) => BeginningKeepsOurs(b, after, Call(isolated, if isolated && b.inFlight then Ended else Loading));
    case Complete(id, closes) =>
      if id in b.storage { BeginningKeepsOurs(b, after, Call(false, Completing(b.storage, b.storage[id], closes))); }
    case Removed(id) =>
      if id in b.storage { BeginningKeepsOurs(b, after, Call(false, Dropping(b.storage, id))); }
    case PersonOpens(id, incognito) => OutsideKeepsOurs(b, after);
    case WindowCloses(id) => OutsideKeepsOurs(b, after);
  }

  lemma {:induction false} BehaviourIsOurs(actions: seq<Action>)
    ensures AllOurs(Behaviour(actions))
    decreases |actions|
  {
    if actions != [] {
      BehaviourIsOurs(actions[..|actions|-1]);
      BehaviourIsExclusive(actions[..|actions|-1]);
      StepKeepsOurs(Behaviour(actions[..|actions|-1]), actions[|actions|-1]);
    }
  }

  /** The coordinator only ever asks to remove windows that an isolated setup of its own opened, never one
      that a person or a normal start opened; and complete only removes incognito ones. */
  lemma RemovesOnlyItsOwn(actions: seq<Action>, id: int)
    requires id in Behaviour(actions).removals
    ensures Ours(Behaviour(actions), id)
    ensures id in Behaviour(actions).completed ==> Private(Behaviour(actions), id)
  {
    BehaviourIsOurs(actions);
  }

  /** Step k answers the request of call c for a window with this id. */
  predicate OpensAt(actions: seq<Action>, k: nat, id: int) {
    && k < |actions| && actions[k].Run? && actions[k].ans.choice == id
    && id !in Behaviour(actions[..k]).born && id in Behaviour(actions[..k + 1]).born
  }

  /** Windows are born by the answer to a request, or by a person. */
  lemma BornStep(b: Browser, a: Action, id: int)
    requires Exclusive(b) && id in Step(b, a).born
    ensures id in b.born ==> Step(b, a).born[id] == b.born[id]
    ensures id !in b.born && Step(b, a).born[id].opener.Setup? ==>
      a.Run? && a.ans.choice == id && a.ans.incognito == Step(b, a).born[id].incognito
  {
    match a
    case Run(c, ans) =>
      if c < |b.calls| && !(b.calls[c].phase.Creating? && ans.good && ans.choice !in b.born) {
        assert PhaseHolds(b, b.calls[c]);
        SegmentIsQuiet(b, c, ans);
      }
    case Throw(c) =>
      if c < |b.calls| {
        assert PhaseHolds(b, b.calls[c]);
        ExceptionIsQuiet(b, c);
      }
    case _ =>
  }

  /** A window of a setup has the mode that the browser answered the request with. */
  lemma {:induction false} ModeIsAnswered(actions: seq<Action>, id: int)
    requires id in Behaviour(actions).born && Behaviour(actions).born[id].opener.Setup?
    ensures exists k: nat :: OpensAt(actions, k, id) && actions[k].ans.incognito == Behaviour(actions).born[id].incognito
    decreases |actions|
  {
    var n := |actions| - 1;
    var before := actions[..n];
    assert actions[..n + 1] == actions;
    BehaviourIsExclusive(before);
    BornStep(Behaviour(before), actions[n], id);
    if id in Behaviour(before).born {
      ModeIsAnswered(before, id);
      var k: nat :| OpensAt(before, k, id) && before[k].ans.incognito == Behaviour(before).born[id].incognito;
      assert actions[..k] == before[..k] && actions[..k + 1] == before[..k + 1];
      assert OpensAt(actions, k, id);
    } else {
      assert OpensAt(actions, n, id);
    }
  }

  /** A removed window is incognito exactly when the browser answered the request for it with an incognito
      one; if it did not, a failing start removed it. */
  lemma RemovedAsAnswered(actions: seq<Action>, id: int)
    requires id in Behaviour(actions).removals
    ensures exists k: nat :: OpensAt(actions, k, id) && (Private(Behaviour(actions), id) <==> actions[k].ans.incognito)
    ensures !Private(Behaviour(actions), id) ==> id !in Behaviour(actions).completed
  {
    RemovesOnlyItsOwn(actions, id);
    ModeIsAnswered(actions, id);
  }

  // ------------------------------------------------------------------ the second check

  /** Step k takes the second list of windows for call c. */
  predicate SecondCheck(actions: seq<Action>, k: nat, c: nat) {
    && k < |actions| && actions[k].Run? && actions[k].call == c
    && c < |Behaviour(actions[..k]).calls| && Behaviour(actions[..k]).calls[c].phase.Verifying?
  }

  /** What a call makes of its second list. */
  predicate Recalls(phase: Phase, id: int, incognito: set<int>) {
    match phase
    case Verified(_, own, _, seen) => own == id && seen == incognito
    case Saving(_, context, seen) => context.isolated && context.windowId == id && seen == incognito
    case Started(context, seen) => context.isolated && context.windowId == id && seen == incognito
    case Failing(_) => true
    case Logging => true
    case Ended => true
    case _ => false
  }

  /** A step moves one call, adds one, or leaves the calls alone. */
  lemma OtherCallsStay(b: Browser, a: Action, c: nat)
    requires c < |b.calls| && !((a.Run? || a.Throw?) && a.call == c)
    requires forall d | 0 <= d < |b.calls| :: PhaseHolds(b, b.calls[d])
    ensures c < |Step(b, a).calls| && Step(b, a).calls[c] == b.calls[c]
  {
    match a
    case Run(d, ans) => if d < |b.calls| { SegmentIsOneCall(b, d, ans); }
    case Throw(d) => if d < |b.calls| { ExceptionIsOneCall(b, d); }
    case _ =>
  }

  lemma RecallsStep(b: Browser, a: Action, c: nat, id: int, incognito: set<int>, after: Browser)
    requires c < |b.calls| && Recalls(b.calls[c].phase, id, incognito) && after == Step(b, a)
    requires forall d | 0 <= d < |b.calls| :: PhaseHolds(b, b.calls[d])
    ensures c < |after.calls| && Recalls(after.calls[c].phase, id, incognito)
  {
    if !((a.Run? || a.Throw?) && a.call == c) { OtherCallsStay(b, a, c); }
  }

  /** The second list as the browser gave it. */
  lemma SecondListIsRecalled(b: Browser, c: nat, ans: Answer)
    requires c < |b.calls| && b.calls[c].phase.Verifying?
    ensures var after := Segment(b, c, ans);
            c < |after.calls| && Recalls(after.calls[c].phase, b.calls[c].phase.id, Incognito(b.open))
  {
  }

  lemma NextRecalls(actions: seq<Action>, c: nat, id: int, incognito: set<int>)
    requires actions != []
    requires var b := Behaviour(actions[..|actions|-1]); c < |b.calls| && Recalls(b.calls[c].phase, id, incognito)
    ensures c < |Behaviour(actions).calls| && Recalls(Behaviour(actions).calls[c].phase, id, incognito)
  {
    var before := actions[..|actions|-1];
    BehaviourIsExclusive(before);
    RecallsStep(Behaviour(before), actions[|actions|-1], c, id, incognito, Behaviour(actions));
  }

  lemma {:induction false} SecondCheckIsRecalled(actions: seq<Action>, k: nat, c: nat)
    requires SecondCheck(actions, k, c)
    ensures var b, at := Behaviour(actions), Behaviour(actions[..k]);
            c < |b.calls| && Recalls(b.calls[c].phase, at.calls[c].phase.id, Incognito(at.open))
    decreases |actions|
  {
    var n := |actions| - 1;
    var at := Behaviour(actions[..k]);
    var id, incognito := at.calls[c].phase.id, Incognito(at.open);
    if k < n {
      assert actions[..n][..k] == actions[..k];
      SecondCheckIsRecalled(actions[..n], k, c);
      NextRecalls(actions, c, id, incognito);
    } else {
      SecondListIsRecalled(at, c, actions[n].ans);
    }
  }

  /** The call is past its second check and has not failed. */
  predicate Checked(phase: Phase) {
    phase.Verified? || (phase.Saving? && phase.context.isolated) || (phase.Started? && phase.context.isolated)
  }

  lemma SurveyIsUnchecked(b: Browser, c: nat, contexts: Contexts, incognito: set<int>)
    requires c < |b.calls|
    ensures var after := Survey(b, c, contexts, incognito); c < |after.calls| && !Checked(after.calls[c].phase) && !after.calls[c].phase.Started?
  {
  }

  lemma EarlyIsUnchecked(b: Browser, c: nat, ans: Answer)
    requires c < |b.calls| && Early(b.calls[c].phase)
    ensures var after := Segment(b, c, ans); c < |after.calls| && !Checked(after.calls[c].phase) && !after.calls[c].phase.Started?
  {
    match b.calls[c].phase
    case Surveyed(contexts, incognito) => SurveyIsUnchecked(b, c, contexts, incognito);
    case _ =>
  }

  lemma LateBecomesChecked(b: Browser, c: nat, ans: Answer)
    requires c < |b.calls| && Late(b.calls[c].phase)
    requires c < |Segment(b, c, ans).calls| && Checked(Segment(b, c, ans).calls[c].phase)
    ensures Checked(b.calls[c].phase) || b.calls[c].phase.Verifying?
  {
  }

  lemma SegmentChecks(b: Browser, c: nat, ans: Answer)
    requires c < |b.calls|
    requires c < |Segment(b, c, ans).calls| && Checked(Segment(b, c, ans).calls[c].phase)
    ensures Checked(b.calls[c].phase) || b.calls[c].phase.Verifying?
  {
    if Early(b.calls[c].phase) {
      EarlyIsUnchecked(b, c, ans);
    } else if Late(b.calls[c].phase) {
      LateBecomesChecked(b, c, ans);
    }
  }

  lemma LateExceptionChecksNothing(b: Browser, c: nat)
    requires c < |b.calls| && Late(b.calls[c].phase)
    requires c < |Exception(b, c).calls| && Checked(Exception(b, c).calls[c].phase)
    ensures Checked(b.calls[c].phase)
  {
  }

  lemma ExceptionChecksNothing(b: Browser, c: nat)
    requires c < |b.calls|
    requires c < |Exception(b, c).calls| && Checked(Exception(b, c).calls[c].phase)
    ensures Checked(b.calls[c].phase)
  {
    if Late(b.calls[c].phase) { LateExceptionChecksNothing(b, c); }
  }

  lemma CheckedStep(b: Browser, a: Action, c: nat)
    requires c < |Step(b, a).calls| && Checked(Step(b, a).calls[c].phase)
    requires forall d | 0 <= d < |b.calls| :: PhaseHolds(b, b.calls[d])
    ensures c < |b.calls| && (Checked(b.calls[c].phase) || (a.Run? && a.call == c && b.calls[c].phase.Verifying?))
  {
    if c < |b.calls| {
      if a.Run? && a.call == c {
        SegmentChecks(b, c, a.ans);
      } else if a.Throw? && a.call == c {
        ExceptionChecksNothing(b, c);
      } else {
        OtherCallsStay(b, a, c);
      }
    } else {
      NewCallsAreUnchecked(b, a, c);
    }
  }

  lemma NewCallsAreUnchecked(b: Browser, a: Action, c: nat)
    requires |b.calls| <= c < |Step(b, a).calls|
    requires forall d | 0 <= d < |b.calls| :: PhaseHolds(b, b.calls[d])
    ensures !Checked(Step(b, a).calls[c].phase)
  {
    match a
    case Run(d, ans) => if d < |b.calls| { SegmentIsOneCall(b, d, ans); }
    case Throw(d) => if d < |b.calls| { ExceptionIsOneCall(b, d); }
    case _ =>
  }

  lemma {:induction false} CheckedHadSecondCheck(actions: seq<Action>, c: nat)
    requires c < |Behaviour(actions).calls| && Checked(Behaviour(actions).calls[c].phase)
    ensures exists k: nat :: SecondCheck(actions, k, c)
    decreases |actions|
  {
    var n := |actions| - 1;
    var before := actions[..n];
    BehaviourIsExclusive(before);
    CheckedStep(Behaviour(before), actions[n], c);
    if Checked(Behaviour(before).calls[c].phase) {
      CheckedHadSecondCheck(before, c);
      var k: nat :| SecondCheck(before, k, c);
      assert before[..k] == actions[..k];
      assert SecondCheck(actions, k, c);
    } else {
      assert SecondCheck(actions, n, c);
    }
  }

  /** The id of the window that a start reports. */
  function OwnWindow(actions: seq<Action>, c: nat): int
    requires c < |Behaviour(actions).calls| && Behaviour(actions).calls[c].phase.Started?
  {
    Behaviour(actions).calls[c].phase.context.windowId
  }

  /** The list shows this window and no other. */
  ghost predicate JustOwn(seen: set<int>, own: int) {
    forall id :: id in seen <==> id == own
  }

  /** An isolated start that reports success took a second list of windows, which showed no incognito window
      but its own; and it showed its own exactly when that window was still open then. */
  lemma StartedAlone(actions: seq<Action>, c: nat)
    requires c < |Behaviour(actions).calls| && Behaviour(actions).calls[c].phase.Started?
    requires Behaviour(actions).calls[c].phase.context.isolated
    ensures exists k: nat :: SecondCheck(actions, k, c)
    ensures forall other | other in Behaviour(actions).calls[c].phase.seen :: other == OwnWindow(actions, c)
    ensures forall k: nat | SecondCheck(actions, k, c) ::
      var seen, open := Behaviour(actions).calls[c].phase.seen, Behaviour(actions[..k]).open;
      && seen == Incognito(open)
      && (JustOwn(seen, OwnWindow(actions, c)) <==> OwnWindow(actions, c) in open)
  {
    BehaviourIsOurs(actions);
    assert CallOurs(Behaviour(actions), Behaviour(actions).calls[c]);
    CheckedHadSecondCheck(actions, c);
    forall k: nat | SecondCheck(actions, k, c)
      ensures var seen, open := Behaviour(actions).calls[c].phase.seen, Behaviour(actions[..k]).open;
              && seen == Incognito(open)
              && (JustOwn(seen, OwnWindow(actions, c)) <==> OwnWindow(actions, c) in open)
    {
      SecondCheckSaw(actions, k, c);
    }
  }

  lemma SecondCheckSaw(actions: seq<Action>, k: nat, c: nat)
    requires SecondCheck(actions, k, c)
    requires c < |Behaviour(actions).calls| && Behaviour(actions).calls[c].phase.Started?
    requires forall other | other in Behaviour(actions).calls[c].phase.seen :: other == OwnWindow(actions, c)
    ensures var seen, open := Behaviour(actions).calls[c].phase.seen, Behaviour(actions[..k]).open;
            && seen == Incognito(open)
            && (JustOwn(seen, OwnWindow(actions, c)) <==> OwnWindow(actions, c) in open)
  {
    SecondCheckIsRecalled(actions, k, c);
    OwnWindowShows(actions[..k], c);
  }

  /** While a call waits for its second list, its own window shows there exactly if it is open. */
  lemma OwnWindowShows(actions: seq<Action>, c: nat)
    requires c < |Behaviour(actions).calls| && Behaviour(actions).calls[c].phase.Verifying?
    ensures var b := Behaviour(actions);
            var id := b.calls[c].phase.id;
            id in Incognito(b.open) <==> id in b.open
  {
    BehaviourIsOurs(actions);
    BehaviourIsExclusive(actions);
    assert CallOurs(Behaviour(actions), Behaviour(actions).calls[c]);
  }

  // ------------------------------------------------------------------ what a start saves

  /** Step k reads the stored contexts for call c. */
  predicate LoadsAt(actions: seq<Action>, k: nat, c: nat) {
    && k < |actions| && actions[k].Run? && actions[k].call == c
    && c < |Behaviour(actions[..k]).calls| && Behaviour(actions[..k]).calls[c].phase.Loading?
  }

  /** What a start keeps of the contexts it read: an isolated one forgets those of isolated windows, all closed. */
  function Remaining(isolated: bool, read: Contexts): Contexts {
    map k | k in read && !(isolated && read[k].isolated) :: read[k]
  }

  /** What a start has made of the contexts it read. */
  predicate Recollects(call: Call, read: Contexts) {
    match call.phase
    case AskingAccess(contexts) => contexts == read
    case AskingWindows(contexts) => contexts == read
    case Surveyed(contexts, _) => contexts == read
    case Pruning(contexts, _) => contexts == Remaining(call.isolated, read)
    case Creating(contexts) => contexts == Remaining(call.isolated, read)
    case Created(contexts, _) => contexts == Remaining(call.isolated, read)
    case Observing(contexts, _) => contexts == Remaining(call.isolated, read)
    case Verifying(contexts, _, _) => contexts == Remaining(call.isolated, read)
    case Verified(contexts, _, _, _) => contexts == Remaining(call.isolated, read)
    case Saving(contexts, context, _) =>
      contexts == Remaining(call.isolated, read)[context.windowId := context] && context.isolated == call.isolated
    case Failing(_) => true
    case Logging => true
    case Started(_, _) => true
    case Ended => true
    case _ => false
  }

  lemma SurveyRecollects(b: Browser, c: nat, read: Contexts, incognito: set<int>)
    requires c < |b.calls| && b.calls[c].isolated
    ensures var after := Survey(b, c, read, incognito); c < |after.calls| && Recollects(after.calls[c], read)
  {
    if !exists k | k in read :: read[k].isolated && read[k].windowId in incognito {
      assert Pruned(read, incognito) == Remaining(true, read);
    }
  }

  lemma EarlyRecollects(b: Browser, c: nat, ans: Answer, read: Contexts)
    requires c < |b.calls| && Early(b.calls[c].phase) && !b.calls[c].phase.Loading? && PhaseHolds(b, b.calls[c])
    requires Recollects(b.calls[c], read)
    ensures var after := Segment(b, c, ans); c < |after.calls| && Recollects(after.calls[c], read)
  {
    match b.calls[c].phase
    case Surveyed(contexts, incognito) => SurveyRecollects(b, c, read, incognito);
    case _ =>
  }

  lemma ObservingRecollects(b: Browser, c: nat, ans: Answer, read: Contexts)
    requires c < |b.calls| && b.calls[c].phase.Observing? && Recollects(b.calls[c], read)
    ensures var after := Segment(b, c, ans); c < |after.calls| && Recollects(after.calls[c], read)
  {
  }

  lemma VerifiedRecollects(b: Browser, c: nat, ans: Answer, read: Contexts)
    requires c < |b.calls| && b.calls[c].phase.Verified? && CallOurs(b, b.calls[c]) && Recollects(b.calls[c], read)
    ensures var after := Segment(b, c, ans); c < |after.calls| && Recollects(after.calls[c], read)
  {
  }

  lemma LateRecollects(b: Browser, c: nat, ans: Answer, read: Contexts)
    requires c < |b.calls| && Late(b.calls[c].phase) && CallOurs(b, b.calls[c]) && Recollects(b.calls[c], read)
    ensures var after := Segment(b, c, ans); c < |after.calls| && Recollects(after.calls[c], read)
  {
    if b.calls[c].phase.Observing? {
      ObservingRecollects(b, c, ans, read);
    } else if b.calls[c].phase.Verified? {
      VerifiedRecollects(b, c, ans, read);
    }
  }

  lemma LoadingRecollects(b: Browser, c: nat, ans: Answer)
    requires c < |b.calls| && b.calls[c].phase.Loading?
    ensures var after := Segment(b, c, ans); c < |after.calls| && Recollects(after.calls[c], b.storage)
  {
    assert Remaining(false, b.storage) == b.storage;
  }

  lemma LateExceptionRecollects(b: Browser, c: nat, read: Contexts)
    requires c < |b.calls| && Late(b.calls[c].phase) && Recollects(b.calls[c], read)
    ensures c < |Exception(b, c).calls| && Recollects(Exception(b, c).calls[c], read)
  {
    match b.calls[c].phase
    case Created(_, _) => FinishRecollects(b, c, read);
    case Logging => FinishRecollects(b, c, read);
    case _ =>
  }

  lemma FinishRecollects(b: Browser, c: nat, read: Contexts)
    requires c < |b.calls|
    ensures c < |Finish(b, c, Ended).calls| && Recollects(Finish(b, c, Ended).calls[c], read)
  {
  }

  lemma ExceptionRecollects(b: Browser, c: nat, read: Contexts)
    requires c < |b.calls| && Recollects(b.calls[c], read)
    ensures c < |Exception(b, c).calls| && Recollects(Exception(b, c).calls[c], read)
  {
    if Late(b.calls[c].phase) { LateExceptionRecollects(b, c, read); }
  }

  lemma RecollectsStep(b: Browser, a: Action, c: nat, read: Contexts, after: Browser)
    requires Exclusive(b) && AllOurs(b) && c < |b.calls| && Recollects(b.calls[c], read) && after == Step(b, a)
    ensures c < |after.calls| && Recollects(after.calls[c], read)
  {
    assert PhaseHolds(b, b.calls[c]) && CallOurs(b, b.calls[c]);
    if a.Run? && a.call == c {
      if Early(b.calls[c].phase) { EarlyRecollects(b, c, a.ans, read); }
      else if Late(b.calls[c].phase) { LateRecollects(b, c, a.ans, read); }
    } else if a.Throw? && a.call == c {
      ExceptionRecollects(b, c, read);
    } else {
      OtherCallsStay(b, a, c);
    }
  }

  lemma NextRecollects(actions: seq<Action>, c: nat, read: Contexts)
    requires actions != []
    requires var b := Behaviour(actions[..|actions|-1]); c < |b.calls| && Recollects(b.calls[c], read)
    ensures c < |Behaviour(actions).calls| && Recollects(Behaviour(actions).calls[c], read)
  {
    var before := actions[..|actions|-1];
    BehaviourIsExclusive(before);
    BehaviourIsOurs(before);
    RecollectsStep(Behaviour(before), actions[|actions|-1], c, read, Behaviour(actions));
  }

  lemma FirstRecollects(actions: seq<Action>, c: nat)
    requires actions != [] && LoadsAt(actions, |actions| - 1, c)
    ensures var b := Behaviour(actions[..|actions|-1]);
            c < |Behaviour(actions).calls| && Recollects(Behaviour(actions).calls[c], b.storage)
  {
    LoadingRecollects(Behaviour(actions[..|actions|-1]), c, actions[|actions|-1].ans);
  }

  lemma {:induction false} LoadIsRecollected(actions: seq<Action>, k: nat, c: nat)
    requires LoadsAt(actions, k, c)
    ensures c < |Behaviour(actions).calls| && Recollects(Behaviour(actions).calls[c], Behaviour(actions[..k]).storage)
    decreases |actions|
  {
    var n := |actions| - 1;
    var before := actions[..n];
    if k < n {
      assert before[..k] == actions[..k];
      LoadIsRecollected(before, k, c);
      NextRecollects(actions, c, Behaviour(actions[..k]).storage);
    } else {
      FirstRecollects(actions, c);
    }
  }

  /** The call has read the contexts and has not failed. */
  predicate Underway(phase: Phase) {
    (Early(phase) && !phase.Loading?) || (Late(phase) && !phase.Failing? && !phase.Logging?) || phase.Started?
  }

  lemma SurveyStaysUnderway(b: Browser, c: nat, ans: Answer)
    requires c < |b.calls| && (b.calls[c].phase.Completing? || b.calls[c].phase.Closing? || b.calls[c].phase.Dropping?
                               || b.calls[c].phase.Failing? || b.calls[c].phase.Logging?)
    ensures var after := Segment(b, c, ans); c < |after.calls| && !Underway(after.calls[c].phase)
  {
  }

  lemma UnderwayStep(b: Browser, a: Action, c: nat)
    requires Exclusive(b) && c < |Step(b, a).calls| && Underway(Step(b, a).calls[c].phase)
    ensures c < |b.calls| && (Underway(b.calls[c].phase) || (a.Run? && a.call == c && b.calls[c].phase.Loading?))
  {
    assert forall d | 0 <= d < |b.calls| :: PhaseHolds(b, b.calls[d]);
    if c < |b.calls| {
      if a.Run? && a.call == c {
        if !Underway(b.calls[c].phase) && !b.calls[c].phase.Loading? && !b.calls[c].phase.Ended? {
          SurveyStaysUnderway(b, c, a.ans);
        }
      } else if !(a.Throw? && a.call == c) {
        OtherCallsStay(b, a, c);
      }
    } else {
      NewCallsHaveNotRead(b, a, c);
    }
  }

  lemma NewCallsHaveNotRead(b: Browser, a: Action, c: nat)
    requires |b.calls| <= c < |Step(b, a).calls|
    requires forall d | 0 <= d < |b.calls| :: PhaseHolds(b, b.calls[d])
    ensures !Underway(Step(b, a).calls[c].phase)
  {
    match a
    case Run(d, ans) => if d < |b.calls| { SegmentIsOneCall(b, d, ans); }
    case Throw(d) => if d < |b.calls| { ExceptionIsOneCall(b, d); }
    case _ =>
  }

  lemma {:induction false} UnderwayHasLoaded(actions: seq<Action>, c: nat)
    requires c < |Behaviour(actions).calls| && Underway(Behaviour(actions).calls[c].phase)
    ensures exists k: nat :: LoadsAt(actions, k, c)
    decreases |actions|
  {
    var n := |actions| - 1;
    var before := actions[..n];
    BehaviourIsExclusive(before);
    UnderwayStep(Behaviour(before), actions[n], c);
    if Underway(Behaviour(before).calls[c].phase) {
      UnderwayHasLoaded(before, c);
      var k: nat :| LoadsAt(before, k, c);
      assert before[..k] == actions[..k];
      assert LoadsAt(actions, k, c);
    } else {
      assert LoadsAt(actions, n, c);
    }
  }

  /** Storage holds the new context under its window, and else what was read, without the contexts that an isolated
      start finds stale. */
  ghost predicate StoredWith(stored: Contexts, read: Contexts, isolated: bool, context: Context) {
    && context.windowId in stored && stored[context.windowId] == context && context.isolated == isolated
    && forall k | k != context.windowId ::
         && (k in stored <==> k in read && !(isolated && read[k].isolated))
         && (k in stored ==> stored[k] == read[k])
  }

  /** The only step that makes a start successful is the one that has saved its contexts. */
  lemma StartingStep(b: Browser, a: Action, c: nat)
    requires Exclusive(b) && c < |b.calls| && !b.calls[c].phase.Started?
    requires c < |Step(b, a).calls| && Step(b, a).calls[c].phase.Started?
    ensures b.calls[c].phase.Saving? && a.Run? && a.call == c
    ensures Step(b, a).storage == b.calls[c].phase.contexts && Step(b, a).calls[c].phase.context == b.calls[c].phase.context
  {
    assert forall d | 0 <= d < |b.calls| :: PhaseHolds(b, b.calls[d]);
    if !((a.Run? || a.Throw?) && a.call == c) {
      OtherCallsStay(b, a, c);
    } else if a.Run? {
      SegmentStarts(b, c, a.ans);
    }
  }

  lemma ObservedOrVerified(b: Browser, c: nat, ans: Answer)
    requires c < |b.calls| && (b.calls[c].phase.Observing? || b.calls[c].phase.Verified?)
    ensures var after := Segment(b, c, ans);
            c < |after.calls| && (after.calls[c].phase.Failing? || after.calls[c].phase.Verifying? || after.calls[c].phase.Saving?)
  {
  }

  lemma LateDoesNotStart(b: Browser, c: nat, ans: Answer)
    requires c < |b.calls| && Late(b.calls[c].phase) && !b.calls[c].phase.Saving?
    ensures var after := Segment(b, c, ans); c < |after.calls| && !after.calls[c].phase.Started?
  {
    if b.calls[c].phase.Observing? || b.calls[c].phase.Verified? { ObservedOrVerified(b, c, ans); }
  }

  lemma SegmentStarts(b: Browser, c: nat, ans: Answer)
    requires c < |b.calls| && !b.calls[c].phase.Started?
    requires c < |Segment(b, c, ans).calls| && Segment(b, c, ans).calls[c].phase.Started?
    ensures b.calls[c].phase.Saving?
    ensures Segment(b, c, ans).storage == b.calls[c].phase.contexts
    ensures Segment(b, c, ans).calls[c].phase.context == b.calls[c].phase.context
  {
    if Early(b.calls[c].phase) {
      EarlyIsUnchecked(b, c, ans);
    } else if Late(b.calls[c].phase) && !b.calls[c].phase.Saving? {
      LateDoesNotStart(b, c, ans);
    }
  }

  /** When a start turns successful, its context has been saved under its window, beside all that it had read but the
      contexts of closed isolated windows. */
  lemma StartIsStored(actions: seq<Action>, a: Action, c: nat)
    requires c < |Behaviour(actions).calls| && !Behaviour(actions).calls[c].phase.Started?
    requires c < |Behaviour(actions + [a]).calls| && Behaviour(actions + [a]).calls[c].phase.Started?
    ensures exists k: nat :: LoadsAt(actions, k, c)
    ensures forall k: nat | LoadsAt(actions, k, c) ::
      var after := Behaviour(actions + [a]);
      StoredWith(after.storage, Behaviour(actions[..k]).storage, after.calls[c].isolated, after.calls[c].phase.context)
  {
    var b := Behaviour(actions);
    BehaviourStep(actions, a);
    BehaviourIsExclusive(actions);
    StartingStep(b, a, c);
    UnderwayHasLoaded(actions, c);
    SegmentIsOneCall(b, c, a.ans);
    forall k: nat | LoadsAt(actions, k, c)
      ensures StoredWith(Step(b, a).storage, Behaviour(actions[..k]).storage, b.calls[c].isolated, b.calls[c].phase.context)
    {
      LoadIsRecollected(actions, k, c);
    }
  }

  lemma FailingRemoves(b: Browser, c: nat, ans: Answer)
    requires c < |b.calls| && b.calls[c].isolated && b.calls[c].phase.Failing? && b.calls[c].phase.created.Some?
    ensures b.calls[c].phase.created.value in Segment(b, c, ans).removals
  {
  }

  /** The window that a failing isolated start has to remove. */
  function ToRemove(phase: Phase): Option<int> {
    match phase
    case Observing(_, id) => Some(id)
    case Verifying(_, id, _) => Some(id)
    case Saving(_, context, _) => Some(context.windowId)
    case _ => None
  }

  lemma ThrowingFails(b: Browser, c: nat)
    requires c < |b.calls| && ToRemove(b.calls[c].phase).Some?
    ensures Exception(b, c) == Goto(b, c, Failing(ToRemove(b.calls[c].phase)))
  {
  }

  /** An isolated start that fails after its window was opened asks to remove that window. */
  lemma FailedStartRemovesWindow(actions: seq<Action>, c: nat, ans: Answer)
    requires c < |Behaviour(actions).calls| && Behaviour(actions).calls[c].isolated
    requires ToRemove(Behaviour(actions).calls[c].phase).Some?
    ensures ToRemove(Behaviour(actions).calls[c].phase).value in Behaviour(actions + [Throw(c)] + [Run(c, ans)]).removals
  {
    var b := Behaviour(actions);
    BehaviourStep(actions, Throw(c));
    BehaviourStep(actions + [Throw(c)], Run(c, ans));
    ThrowingFails(b, c);
    FailingRemoves(Behaviour(actions + [Throw(c)]), c, ans);
  }

  // ------------------------------------------------------------------ what complete does

  /** Step k begins call c to complete the recovery of window id, which is to be closed. */
  predicate CompletesAt(actions: seq<Action>, k: nat, c: nat, id: int) {
    && k < |actions| && actions[k] == Complete(id, true)
    && c == |Behaviour(actions[..k]).calls| && id in Behaviour(actions[..k]).storage
    && Behaviour(actions[..k]).storage[id].isolated
  }

  /** Nothing throws in call c after step k. */
  predicate Unthrown(actions: seq<Action>, k: nat, c: nat) {
    forall j | k < j < |actions| :: actions[j] != Throw(c)
  }

  predicate Completes(b: Browser, c: nat, read: Contexts, id: int) {
    && c < |b.calls| && id in read
    && match b.calls[c].phase
       case Completing(contexts, context, closes) =>
         contexts == read && context == read[id] && context.windowId == id && context.isolated && closes
       case Closing(context) => context.windowId == id
       case Ended => id in b.removals && id in b.completed
       case _ => false
  }

  lemma RemovalsGrow(b: Browser, a: Action)
    ensures b.removals <= Step(b, a).removals && b.completed <= Step(b, a).completed
  {
    match a
    case Run(c, ans) => if c < |b.calls| { SegmentRemovalsGrow(b, c, ans); }
    case _ =>
  }

  lemma SegmentRemovalsGrow(b: Browser, c: nat, ans: Answer)
    requires c < |b.calls|
    ensures b.removals <= Segment(b, c, ans).removals && b.completed <= Segment(b, c, ans).completed
  {
    if Early(b.calls[c].phase) {
      EarlyRemovesNothing(b, c, ans);
    } else if Late(b.calls[c].phase) {
      LateRemovalsGrow(b, c, ans);
    }
  }

  lemma EarlyRemovesNothing(b: Browser, c: nat, ans: Answer)
    requires c < |b.calls| && Early(b.calls[c].phase)
    ensures Segment(b, c, ans).removals == b.removals && Segment(b, c, ans).completed == b.completed
  {
    match b.calls[c].phase
    case Surveyed(contexts, incognito) => SurveyRemovesNothing(b, c, contexts, incognito);
    case _ =>
  }

  lemma SurveyRemovesNothing(b: Browser, c: nat, contexts: Contexts, incognito: set<int>)
    requires c < |b.calls|
    ensures var after := Survey(b, c, contexts, incognito); after.removals == b.removals && after.completed == b.completed
  {
  }

  lemma LateRemovalsGrow(b: Browser, c: nat, ans: Answer)
    requires c < |b.calls| && Late(b.calls[c].phase)
    ensures b.removals <= Segment(b, c, ans).removals && b.completed <= Segment(b, c, ans).completed
  {
  }

  lemma CompletesStep(b: Browser, a: Action, c: nat, read: Contexts, id: int, after: Browser)
    requires Exclusive(b) && Completes(b, c, read, id) && a != Throw(c) && after == Step(b, a)
    ensures Completes(after, c, read, id)
  {
    assert forall d | 0 <= d < |b.calls| :: PhaseHolds(b, b.calls[d]);
    RemovalsGrow(b, a);
    if !(a.Run? && a.call == c) { OtherCallsStay(b, a, c); }
  }

  lemma UnthrownBefore(actions: seq<Action>, k: nat, c: nat)
    requires Unthrown(actions, k, c) && k < |actions| - 1
    ensures Unthrown(actions[..|actions|-1], k, c) && actions[|actions|-1] != Throw(c)
  {
    var before := actions[..|actions|-1];
    forall j | k < j < |before| ensures before[j] != Throw(c) { assert before[j] == actions[j]; }
  }

  lemma NextCompletes(actions: seq<Action>, c: nat, read: Contexts, id: int)
    requires actions != [] && actions[|actions|-1] != Throw(c)
    requires Completes(Behaviour(actions[..|actions|-1]), c, read, id)
    ensures Completes(Behaviour(actions), c, read, id)
  {
    var before := actions[..|actions|-1];
    BehaviourIsExclusive(before);
    CompletesStep(Behaviour(before), actions[|actions|-1], c, read, id, Behaviour(actions));
  }

  lemma {:induction false} CompletionIsFollowed(actions: seq<Action>, k: nat, c: nat, id: int)
    requires CompletesAt(actions, k, c, id) && Unthrown(actions, k, c)
    ensures Completes(Behaviour(actions), c, Behaviour(actions[..k]).storage, id)
    decreases |actions|
  {
    var n := |actions| - 1;
    var before := actions[..n];
    if k < n {
      assert before[..k] == actions[..k];
      UnthrownBefore(actions, k, c);
      CompletionIsFollowed(before, k, c, id);
      NextCompletes(actions, c, Behaviour(actions[..k]).storage, id);
    } else {
      BehaviourIsOurs(before);
      CompletionBegins(Behaviour(before), id);
    }
  }

  lemma CompletionBegins(b: Browser, id: int)
    requires AllOurs(b) && id in b.storage && b.storage[id].isolated
    ensures Completes(Step(b, Complete(id, true)), |b.calls|, b.storage, id)
  {
  }

  /** A completed recovery, unless an operation failed on the way, has asked to close its window once it has ended,
      whatever ran in between. */
  lemma CompletionCloses(actions: seq<Action>, k: nat, c: nat, id: int)
    requires CompletesAt(actions, k, c, id) && Unthrown(actions, k, c)
    ensures c < |Behaviour(actions).calls|
    ensures Behaviour(actions).calls[c].phase.Ended? ==> id in Behaviour(actions).removals && id in Behaviour(actions).completed
  {
    CompletionIsFollowed(actions, k, c, id);
  }

  /** The step that saves its contexts leaves storage as it was when the call was made, without that window. */
  lemma CompletionForgets(actions: seq<Action>, k: nat, c: nat, id: int, ans: Answer)
    requires CompletesAt(actions, k, c, id) && Unthrown(actions, k, c)
    requires c < |Behaviour(actions).calls| && Behaviour(actions).calls[c].phase.Completing?
    ensures Behaviour(actions + [Run(c, ans)]).storage == Behaviour(actions[..k]).storage - {id}
    ensures Behaviour(actions + [Run(c, ans)]).calls[c].phase.Closing?
  {
    CompletionIsFollowed(actions, k, c, id);
    BehaviourStep(actions, Run(c, ans));
  }

  /** The listener for closed windows forgets the context of the window and nothing else. */
  lemma RemovedWindowIsForgotten(actions: seq<Action>, id: int, ans: Answer)
    requires id in Behaviour(actions).storage
    ensures var c := |Behaviour(actions).calls|;
            Behaviour(actions + [Removed(id)] + [Run(c, ans)]).storage == Behaviour(actions).storage - {id}
  {
    BehaviourStep(actions, Removed(id));
    BehaviourStep(actions + [Removed(id)], Run(|Behaviour(actions).calls|, ans));
  }

  // ------------------------------------------------------------------ two runs

  lemma BehaviourStep(actions: seq<Action>, a: Action)
    ensures Behaviour(actions + [a]) == Step(Behaviour(actions), a)
  {
    assert (actions + [a])[..|actions|] == actions;
  }

  const YES := Answer(true, 7, true)

  /** An isolated start that nobody disturbs, up to the request for its window. */
  function Asking(): Browser {
    Browser(true, map[], map[], map[], [Call(true, Creating(map[]))], {}, {})
  }

  lemma AskingIsReached() returns (actions: seq<Action>)
    ensures Behaviour(actions) == Asking()
  {
    var a0: seq<Action> := [];
    var go := Run(0, YES);
    var a1, a2, a3 := [Start(true)], [Start(true), go], [Start(true), go, go];
    BehaviourStep(a0, Start(true));
    BehaviourStep(a1, go);
    BehaviourStep(a2, go);
    BehaviourStep(a3, go);
    actions := a3 + [go] + [go];
    BehaviourStep(a3 + [go], go);
    assert a0 + [Start(true)] == a1 && a1 + [go] == a2 && a2 + [go] == a3;
    assert Incognito(map[]) == {} && Pruned(map[], {}) == map[];
  }

  /** The same start, waiting for its second list with window 7 open. */
  function AwaitingList(): Browser {
    var windows := map[7 := Window(true, Setup(true))];
    Browser(true, map[], windows, windows, [Call(true, Verifying(map[], 7, 7))], {}, {})
  }

  lemma AwaitingListIsReached() returns (actions: seq<Action>)
    ensures Behaviour(actions) == AwaitingList()
  {
    var go := Run(0, YES);
    var a0 := AskingIsReached();
    var a1, a2 := a0 + [go], a0 + [go] + [go];
    BehaviourStep(a0, go);
    BehaviourStep(a1, go);
    BehaviourStep(a2, go);
    actions := a2 + [go];
  }

  /** A person closes the new window while the second list is still to be taken: the start reports success,
      and the list shows no window at all. */
  lemma OwnWindowMayBeGone() returns (actions: seq<Action>)
    ensures var b := Behaviour(actions);
            && |b.calls| == 1 && b.calls[0].phase.Started? && b.calls[0].phase.context == Context(true, 7, 7)
            && b.calls[0].phase.seen == {} && 7 !in b.open
  {
    var go := Run(0, YES);
    var a0 := AwaitingListIsReached();
    var a1 := a0 + [WindowCloses(7)];
    var a2, a3 := a1 + [go], a1 + [go] + [go];
    BehaviourStep(a0, WindowCloses(7));
    assert Behaviour(a1).open == map[] && Incognito(map[]) == {};
    BehaviourStep(a1, go);
    assert Behaviour(a2).calls == [Call(true, Verified(map[], 7, 7, {}))];
    BehaviourStep(a2, go);
    BehaviourStep(a3, go);
    actions := a3 + [go];
  }

  /** The browser opens a normal window for an isolated start: the start fails and removes it. */
  lemma NormalWindowMayBeRemoved() returns (actions: seq<Action>)
    ensures var b := Behaviour(actions);
            7 in b.removals && 7 in b.born && b.born[7] == Window(false, Setup(true))
  {
    var go := Run(0, YES);
    var asking := AskingIsReached();
    var a1 := asking + [Run(0, Answer(true, 7, false))];
    var a2 := a1 + [go];
    var a3 := a2 + [go];
    BehaviourStep(asking, Run(0, Answer(true, 7, false)));
    BehaviourStep(a1, go);
    BehaviourStep(a2, go);
    BehaviourStep(a3, go);
    assert Behaviour(a3).calls == [Call(true, Failing(Some(7)))];
    actions := a3 + [go];
  }

  /** A normal start that nobody disturbs succeeds, and so does an isolated one. */
  lemma StartsSucceed() returns (normal: seq<Action>, isolated: seq<Action>)
    ensures Behaviour(normal).calls == [Call(false, Started(Context(false, 7, 7), {}))]
    ensures Behaviour(normal).storage == map[7 := Context(false, 7, 7)]
    ensures Behaviour(isolated).storage == map[7 := Context(true, 7, 7)] && !Behaviour(isolated).inFlight
    ensures |Behaviour(isolated).calls| == 1 && Behaviour(isolated).calls[0].phase.Started?
  {
    normal := NormalStart();
    isolated := IsolatedStart();
  }

  lemma NormalStart() returns (actions: seq<Action>)
    ensures Behaviour(actions).calls == [Call(false, Started(Context(false, 7, 7), {}))]
    ensures Behaviour(actions).storage == map[7 := Context(false, 7, 7)]
  {
    var go := Run(0, Answer(true, 7, false));
    var a0 := NormalWindowOpens();
    var a1 := a0 + [go];
    BehaviourStep(a0, go);
    BehaviourStep(a1, go);
    actions := a1 + [go];
  }

  lemma NormalWindowOpens() returns (actions: seq<Action>)
    ensures var windows := map[7 := Window(false, Setup(false))];
            Behaviour(actions) == Browser(false, map[], windows, windows, [Call(false, Observing(map[], 7))], {}, {})
  {
    var go := Run(0, Answer(true, 7, false));
    var none: seq<Action> := [];
    var a1 := none + [Start(false)];
    var a2, a3 := a1 + [go], a1 + [go] + [go];
    BehaviourStep(none, Start(false));
    BehaviourStep(a1, go);
    BehaviourStep(a2, go);
    BehaviourStep(a3, go);
    actions := a3 + [go];
  }

  lemma IsolatedStart() returns (actions: seq<Action>)
    ensures Behaviour(actions).storage == map[7 := Context(true, 7, 7)] && !Behaviour(actions).inFlight
    ensures |Behaviour(actions).calls| == 1 && Behaviour(actions).calls[0].phase.Started?
  {
    var go := Run(0, YES);
    var a0 := AwaitingListIsReached();
    var a1, a2 := a0 + [go], a0 + [go] + [go];
    BehaviourStep(a0, go);
    BehaviourStep(a1, go);
    BehaviourStep(a2, go);
    actions := a2 + [go];
  }
}
