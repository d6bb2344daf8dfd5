/**
 What a recovery start has done by the time it ends, whatever ran in between: the windows it looked at first, the
 mode of the window it reports, the window it leaves behind, and the windows that complete may close.
 */
module Starts {
  import opened Cookies
  import opened Recovery

  // ------------------------------------------------------------------ a failed start leaves no window

  /** Call c of an isolated start is accountable for window id. */
  predicate Accounts(b: Browser, c: nat, id: int) {
    && c < |b.calls| && b.calls[c].isolated
    && match b.calls[c].phase
       case Observing(_, own) => own == id
       case Verifying(_, own, _) => own == id
       case Verified(_, own, _, _) => own == id
       case Saving(_, context, _) => context.windowId == id
       case Failing(created) => created == Some(id)
       case Logging => id in b.removals
       case Ended => id in b.removals
       case Started(context, _) => context.windowId == id
       case _ => false
  }

  lemma ObservingAccounts(b: Browser, c: nat, ans: Answer, id: int)
    requires Accounts(b, c, id) && b.calls[c].phase.Observing?
    ensures Accounts(Segment(b, c, ans), c, id)
  {
  }

  lemma VerifiedAccounts(b: Browser, c: nat, ans: Answer, id: int)
    requires Accounts(b, c, id) && b.calls[c].phase.Verified?
    ensures Accounts(Segment(b, c, ans), c, id)
  {
  }

  lemma SegmentAccounts(b: Browser, c: nat, ans: Answer, id: int)
    requires Accounts(b, c, id)
    ensures Accounts(Segment(b, c, ans), c, id)
  {
    if b.calls[c].phase.Observing? {
      ObservingAccounts(b, c, ans, id);
    } else if b.calls[c].phase.Verified? {
      VerifiedAccounts(b, c, ans, id);
    }
  }

  lemma ExceptionAccounts(b: Browser, c: nat, id: int)
    requires Accounts(b, c, id)
    ensures Accounts(Exception(b, c), c, id)
  {
  }

  lemma StepAccounts(b: Browser, a: Action, c: nat, id: int, after: Browser)
    requires Exclusive(b) && Accounts(b, c, id) && after == Step(b, a)
    ensures Accounts(after, c, id)
  {
    if a.Run? && a.call == c {
      SegmentAccounts(b, c, a.ans, id);
    } else if a.Throw? && a.call == c {
      ExceptionAccounts(b, c, id);
    } else {
      OtherCallsStay(b, a, c);
      RemovalsGrow(b, a);
    }
  }

  /** After k steps call c, an isolated start, has its window and observes it. */
  predicate ObservesAt(actions: seq<Action>, k: nat, c: nat, id: int) {
    && k <= |actions| && c < |Behaviour(actions[..k]).calls| && Behaviour(actions[..k]).calls[c].isolated
    && Behaviour(actions[..k]).calls[c].phase.Observing? && Behaviour(actions[..k]).calls[c].phase.id == id
  }

  lemma {:induction false} AccountsFrom(actions: seq<Action>, k: nat, c: nat, id: int)
    requires ObservesAt(actions, k, c, id)
    ensures Accounts(Behaviour(actions), c, id)
    decreases |actions|
  {
    if k < |actions| {
      var before := actions[..|actions|-1];
      assert before[..k] == actions[..k];
      AccountsFrom(before, k, c, id);
      BehaviourIsExclusive(before);
      StepAccounts(Behaviour(before), actions[|actions|-1], c, id, Behaviour(actions));
    } else {
      assert actions[..k] == actions;
    }
  }

  /** Once setup has returned its window, an isolated start ends in one of two ways: it succeeds and reports that
      window, or it has asked to remove it. */
  lemma FailedStartsRemove(actions: seq<Action>, k: nat, c: nat, id: int)
    requires ObservesAt(actions, k, c, id)
    ensures c < |Behaviour(actions).calls|
    ensures Behaviour(actions).calls[c].phase.Started? ==> OwnWindow(actions, c) == id
    ensures Behaviour(actions).calls[c].phase.Ended? ==> id in Behaviour(actions).removals
  {
    AccountsFrom(actions, k, c, id);
  }

  // ------------------------------------------------------------------ the mode of the window

  /** What the window of a start is known to be. */
  predicate InMode(b: Browser, call: Call) {
    match call.phase
    case Created(_, id) => OfSetup(b, id, call.isolated)
    case Observing(_, id) => OfSetup(b, id, call.isolated)
    case Verifying(_, id, _) => call.isolated && HasMode(b, id, true)
    case Verified(_, id, _, _) => call.isolated && HasMode(b, id, true)
    case Saving(_, context, _) => context.isolated == call.isolated && HasMode(b, context.windowId, call.isolated)
    case Started(context, _) => context.isolated == call.isolated && HasMode(b, context.windowId, call.isolated)
    case _ => true
  }

  predicate OfSetup(b: Browser, id: int, isolated: bool) {
    id in b.born && b.born[id].opener == Setup(isolated)
  }

  predicate HasMode(b: Browser, id: int, isolated: bool) {
    id in b.born && b.born[id] == Window(isolated, Setup(isolated))
  }

  lemma InModeLater(b: Browser, after: Browser, call: Call)
    requires InMode(b, call) && forall id | id in b.born :: id in after.born && after.born[id] == b.born[id]
    ensures InMode(after, call)
  {
  }

  lemma SurveyHasNoWindow(b: Browser, c: nat, contexts: Contexts, incognito: set<int>)
    requires c < |b.calls|
    ensures var after := Survey(b, c, contexts, incognito); c < |after.calls| && InMode(after, after.calls[c])
  {
  }

  lemma EarlyInMode(b: Browser, c: nat, ans: Answer)
    requires c < |b.calls| && Early(b.calls[c].phase)
    ensures var after := Segment(b, c, ans); c < |after.calls| && InMode(after, after.calls[c])
  {
    match b.calls[c].phase
    case Surveyed(contexts, incognito) => SurveyHasNoWindow(b, c, contexts, incognito);
    case _ =>
  }

  lemma ObservingInMode(b: Browser, c: nat, ans: Answer)
    requires c < |b.calls| && b.calls[c].phase.Observing? && InMode(b, b.calls[c]) && WindowsSound(b)
    ensures var after := Segment(b, c, ans); c < |after.calls| && InMode(after, after.calls[c])
  {
  }

  lemma LateInMode(b: Browser, c: nat, ans: Answer)
    requires c < |b.calls| && !Early(b.calls[c].phase) && InMode(b, b.calls[c]) && WindowsSound(b)
    ensures var after := Segment(b, c, ans); c < |after.calls| && InMode(after, after.calls[c])
  {
    if b.calls[c].phase.Observing? { ObservingInMode(b, c, ans); }
  }

  lemma ExceptionEnds(b: Browser, c: nat, after: Browser)
    requires c < |b.calls| && after == Exception(b, c)
    ensures after == b || (c < |after.calls| && (after.calls[c].phase.Failing? || after.calls[c].phase.Logging? || after.calls[c].phase.Ended?))
  {
  }

  lemma ExceptionInMode(b: Browser, c: nat, after: Browser)
    requires c < |b.calls| && InMode(b, b.calls[c]) && after == Exception(b, c)
    ensures c < |after.calls| && InMode(after, after.calls[c])
  {
    ExceptionEnds(b, c, after);
  }

  lemma NewCallIsInMode(b: Browser, a: Action, c: nat)
    requires Exclusive(b) && |b.calls| <= c < |Step(b, a).calls|
    ensures InMode(Step(b, a), Step(b, a).calls[c])
  {
    match a
    case Run(d, ans) => if d < |b.calls| { assert PhaseHolds(b, b.calls[d]); SegmentIsOneCall(b, d, ans); }
    case Throw(d) => if d < |b.calls| { assert PhaseHolds(b, b.calls[d]); ExceptionIsOneCall(b, d); }
    case _ =>
  }

  lemma BornStays(b: Browser, a: Action, after: Browser)
    requires Exclusive(b) && after == Step(b, a)
    ensures forall id | id in b.born :: id in after.born && after.born[id] == b.born[id]
  {
    match a
    case Run(c, ans) =>
      if c < |b.calls| && !(b.calls[c].phase.Creating? && ans.good && ans.choice !in b.born) {
        assert PhaseHolds(b, b.calls[c]);
        SegmentIsQuiet(b, c, ans);
      }
    case Throw(c) =>
      if c < |b.calls| {
        assert PhaseHolds(b, b.calls[c]);
        ExceptionIsQuiet(b, c);
      }
    case _ =>
  }

  lemma StepInMode(b: Browser, a: Action, c: nat, after: Browser)
    requires Exclusive(b) && after == Step(b, a) && c < |after.calls|
    requires c < |b.calls| ==> InMode(b, b.calls[c])
    ensures InMode(after, after.calls[c])
  {
    if c >= |b.calls| {
      NewCallIsInMode(b, a, c);
    } else if a.Run? && a.call == c {
      if Early(b.calls[c].phase) { EarlyInMode(b, c, a.ans); } else { LateInMode(b, c, a.ans); }
    } else if a.Throw? && a.call == c {
      ExceptionInMode(b, c, after);
    } else {
      OtherCallsStay(b, a, c);
      BornStays(b, a, after);
      InModeLater(b, after, b.calls[c]);
    }
  }

  lemma {:induction false} BehaviourInMode(actions: seq<Action>, c: nat)
    requires c < |Behaviour(actions).calls|
    ensures InMode(Behaviour(actions), Behaviour(actions).calls[c])
    decreases |actions|
  {
    var before := actions[..|actions|-1];
    BehaviourIsExclusive(before);
    if c < |Behaviour(before).calls| { BehaviourInMode(before, c); }
    StepInMode(Behaviour(before), actions[|actions|-1], c, Behaviour(actions));
  }

  /** A start that succeeds reports a window that its own setup opened, in the mode that was asked for. */
  lemma StartedInMode(actions: seq<Action>, c: nat)
    requires c < |Behaviour(actions).calls| && Behaviour(actions).calls[c].phase.Started?
    ensures var b, call := Behaviour(actions), Behaviour(actions).calls[c];
            && call.phase.context.isolated == call.isolated
            && OwnWindow(actions, c) in b.born
            && b.born[OwnWindow(actions, c)] == Window(call.isolated, Setup(call.isolated))
  {
    BehaviourInMode(actions, c);
  }

  // ------------------------------------------------------------------ what the first list decides

  /** Some isolated context is about a window in the list. */
  predicate Active(contexts: Contexts, incognito: set<int>) {
    exists id | id in contexts :: contexts[id].isolated && id in incognito
  }

  predicate HasIsolated(contexts: Contexts) {
    exists id | id in contexts :: contexts[id].isolated
  }

  /** Just the contexts of normal windows are left. */
  ghost predicate OnlyNormal(stored: Contexts, read: Contexts) {
    forall id :: (id in stored <==> id in read && !read[id].isolated) && (id in stored ==> stored[id] == read[id])
  }

  /** An isolated start is over unless its list is empty, and then asks for its window. */
  predicate Decided(phase: Phase, incognito: set<int>) {
    if incognito == {} then phase.Creating? else phase.Ended?
  }

  lemma NormalStay(read: Contexts, incognito: set<int>)
    requires !HasIsolated(read)
    ensures Pruned(read, incognito) == read
  {
    forall id ensures id in Pruned(read, incognito) <==> id in read {
      if id in read { assert !read[id].isolated; }
    }
    assert Pruned(read, incognito).Keys == read.Keys;
  }

  lemma SurveyIs(b: Browser, c: nat, ans: Answer, read: Contexts, incognito: set<int>, one: Browser)
    requires c < |b.calls| && b.calls[c] == Call(true, Surveyed(read, incognito)) && ContextsOurs(b, read)
    requires one == Segment(b, c, ans)
    ensures one.storage == b.storage && c < |one.calls| && one.calls[c].isolated
    ensures var phase := one.calls[c].phase;
            if Active(read, incognito) then phase.Ended?
            else if HasIsolated(read) then phase.Pruning? && OnlyNormal(phase.contexts, read) && phase.incognito == incognito
            else Decided(phase, incognito)
  {
    if !HasIsolated(read) { NormalStay(read, incognito); }
  }

  lemma PruningIs(b: Browser, c: nat, ans: Answer, two: Browser)
    requires c < |b.calls| && b.calls[c].isolated && b.calls[c].phase.Pruning? && two == Segment(b, c, ans)
    ensures two.storage == b.calls[c].phase.contexts
    ensures c < |two.calls| && Decided(two.calls[c].phase, b.calls[c].phase.incognito)
  {
  }

  /** The first list of an isolated start decides, before anything is opened: if a stored isolated context is about an
      open window, the start is over and storage is left alone; otherwise the isolated contexts it read are dropped from
      storage, if there are any, and the start goes on exactly if the list is empty. */
  lemma FirstListDecides(actions: seq<Action>, k: nat, c: nat, ans: Answer)
    requires LoadsAt(actions, k, c) && c < |Behaviour(actions).calls| && Behaviour(actions).calls[c].phase.Surveyed?
    ensures var b, read := Behaviour(actions), Behaviour(actions[..k]).storage;
            var one, two := Behaviour(actions + [Run(c, ans)]), Behaviour(actions + [Run(c, ans)] + [Run(c, ans)]);
            var incognito := b.calls[c].phase.incognito;
            && c < |one.calls| && c < |two.calls|
            && if Active(read, incognito) then one.calls[c].phase.Ended? && one.storage == b.storage
               else if HasIsolated(read) then Decided(two.calls[c].phase, incognito) && OnlyNormal(two.storage, read)
               else Decided(one.calls[c].phase, incognito) && one.storage == b.storage
  {
    var b, read := Behaviour(actions), Behaviour(actions[..k]).storage;
    var one, two := Behaviour(actions + [Run(c, ans)]), Behaviour(actions + [Run(c, ans)] + [Run(c, ans)]);
    BehaviourStep(actions, Run(c, ans));
    BehaviourStep(actions + [Run(c, ans)], Run(c, ans));
    BehaviourIsExclusive(actions);
    BehaviourIsOurs(actions);
    assert PhaseHolds(b, b.calls[c]) && CallOurs(b, b.calls[c]);
    LoadIsRecollected(actions, k, c);
    SurveyIs(b, c, ans, read, b.calls[c].phase.incognito, one);
    BehaviourIsExclusive(actions + [Run(c, ans)]);
    assert PhaseHolds(one, one.calls[c]);
    SegmentIsOneCall(one, c, ans);
    if one.calls[c].phase.Pruning? { PruningIs(one, c, ans, two); }
  }

  // ------------------------------------------------------------------ what comes before an isolated window

  /** Step k answers call c that it may see incognito windows. */
  predicate AccessAt(actions: seq<Action>, k: nat, c: nat) {
    && k < |actions| && actions[k].Run? && actions[k].call == c && actions[k].ans.good
    && c < |Behaviour(actions[..k]).calls| && Behaviour(actions[..k]).calls[c].phase.AskingAccess?
  }

  /** Step k takes the first list of windows for call c. */
  predicate FirstList(actions: seq<Action>, k: nat, c: nat) {
    && k < |actions| && actions[k].Run? && actions[k].call == c
    && c < |Behaviour(actions[..k]).calls| && Behaviour(actions[..k]).calls[c].phase.AskingWindows?
  }

  /** The call asks for its window, or has it. */
  predicate Asks(phase: Phase) {
    || phase.Creating? || phase.Created? || phase.Observing? || phase.Verifying? || phase.Verified? || phase.Saving?
    || phase.Started?
  }

  predicate PastList(call: Call) {
    call.isolated && (call.phase.Surveyed? || call.phase.Pruning? || Asks(call.phase))
  }

  predicate PastAccess(call: Call) {
    PastList(call) || (call.isolated && call.phase.AskingWindows?)
  }

  lemma PastIsUnderway(call: Call)
    requires PastAccess(call)
    ensures Underway(call.phase)
  {
  }

  lemma SurveyIsPast(b: Browser, c: nat, contexts: Contexts, incognito: set<int>)
    requires c < |b.calls| && b.calls[c].phase.Surveyed? && b.calls[c].isolated
    ensures PastList(b.calls[c])
  {
  }

  lemma PastSegment(b: Browser, c: nat, ans: Answer, after: Browser)
    requires c < |b.calls| && after == Segment(b, c, ans) && OneCall(b, after, c) && PastAccess(after.calls[c])
    requires !PastList(b.calls[c])
    ensures if b.calls[c].phase.AskingWindows? then PastList(after.calls[c])
            else b.calls[c].phase.AskingAccess? && ans.good && after.calls[c].phase.AskingWindows?
  {
    PastIsUnderway(after.calls[c]);
    if !Underway(b.calls[c].phase) && !b.calls[c].phase.Loading? && !Over(b.calls[c].phase) { SurveyStaysUnderway(b, c, ans); }
  }

  lemma PastStep(b: Browser, a: Action, c: nat, after: Browser)
    requires Exclusive(b) && after == Step(b, a) && c < |after.calls| && PastAccess(after.calls[c])
    ensures c < |b.calls|
    ensures PastAccess(b.calls[c]) || (a.Run? && a.call == c && a.ans.good && b.calls[c].phase.AskingAccess?)
    ensures PastList(after.calls[c]) ==> PastList(b.calls[c]) || (a.Run? && a.call == c && b.calls[c].phase.AskingWindows?)
  {
    assert forall d | 0 <= d < |b.calls| :: PhaseHolds(b, b.calls[d]);
    PastIsUnderway(after.calls[c]);
    if c >= |b.calls| {
      NewCallsHaveNotRead(b, a, c);
    } else if a.Run? && a.call == c {
      SegmentIsOneCall(b, c, a.ans);
      if !PastList(b.calls[c]) { PastSegment(b, c, a.ans, after); }
    } else if a.Throw? && a.call == c {
      ExceptionEnds(b, c, after);
    } else {
      OtherCallsStay(b, a, c);
    }
  }

  lemma {:induction false} AccessWasGranted(actions: seq<Action>, c: nat)
    requires c < |Behaviour(actions).calls| && PastAccess(Behaviour(actions).calls[c])
    ensures exists k: nat :: AccessAt(actions, k, c)
    decreases |actions|
  {
    var n := |actions| - 1;
    var before := actions[..n];
    BehaviourIsExclusive(before);
    PastStep(Behaviour(before), actions[n], c, Behaviour(actions));
    if PastAccess(Behaviour(before).calls[c]) {
      AccessWasGranted(before, c);
      var k: nat :| AccessAt(before, k, c);
      assert before[..k] == actions[..k];
      assert AccessAt(actions, k, c);
    } else {
      assert AccessAt(actions, n, c);
    }
  }

  lemma {:induction false} ListWasTaken(actions: seq<Action>, c: nat)
    requires c < |Behaviour(actions).calls| && PastList(Behaviour(actions).calls[c])
    ensures exists k: nat :: FirstList(actions, k, c)
    decreases |actions|
  {
    var n := |actions| - 1;
    var before := actions[..n];
    BehaviourIsExclusive(before);
    PastStep(Behaviour(before), actions[n], c, Behaviour(actions));
    if PastList(Behaviour(before).calls[c]) {
      ListWasTaken(before, c);
      var k: nat :| FirstList(before, k, c);
      assert before[..k] == actions[..k];
      assert FirstList(actions, k, c);
    } else {
      assert FirstList(actions, n, c);
    }
  }

  /** What a call makes of its first list, empty or not. */
  predicate Heeds(call: Call, empty: bool) {
    call.isolated
    && match call.phase
       case Surveyed(_, incognito) => empty <==> incognito == {}
       case Pruning(_, incognito) => empty <==> incognito == {}
       case Failing(_) => true
       case Logging => true
       case Ended => true
       case _ => Asks(call.phase) && empty
  }

  lemma SurveyHeeds(b: Browser, c: nat, contexts: Contexts, incognito: set<int>, empty: bool)
    requires c < |b.calls| && b.calls[c].isolated && (empty <==> incognito == {})
    ensures var after := Survey(b, c, contexts, incognito); c < |after.calls| && Heeds(after.calls[c], empty)
  {
  }

  lemma EarlyHeeds(b: Browser, c: nat, ans: Answer, empty: bool)
    requires c < |b.calls| && Early(b.calls[c].phase) && Heeds(b.calls[c], empty)
    ensures var after := Segment(b, c, ans); c < |after.calls| && Heeds(after.calls[c], empty)
  {
    match b.calls[c].phase
    case Surveyed(contexts, incognito) => SurveyHeeds(b, c, contexts, incognito, empty);
    case _ =>
  }

  lemma LateStaysLate(b: Browser, c: nat, ans: Answer)
    requires c < |b.calls| && (Late(b.calls[c].phase) || Over(b.calls[c].phase))
    ensures var after := Segment(b, c, ans);
            && c < |after.calls| && after.calls[c].isolated == b.calls[c].isolated
            && (Late(after.calls[c].phase) || Over(after.calls[c].phase))
            && (Asks(after.calls[c].phase) ==> Asks(b.calls[c].phase))
  {
    if b.calls[c].phase.Observing? || b.calls[c].phase.Verified? { ObservedOrVerified(b, c, ans); }
  }

  lemma StepHeeds(b: Browser, a: Action, c: nat, empty: bool, after: Browser)
    requires Exclusive(b) && c < |b.calls| && Heeds(b.calls[c], empty) && after == Step(b, a)
    ensures c < |after.calls| && Heeds(after.calls[c], empty)
  {
    assert PhaseHolds(b, b.calls[c]);
    if a.Run? && a.call == c {
      SegmentIsOneCall(b, c, a.ans);
      if Early(b.calls[c].phase) { EarlyHeeds(b, c, a.ans, empty); } else { LateStaysLate(b, c, a.ans); }
    } else if a.Throw? && a.call == c {
      ExceptionIsOneCall(b, c);
      ExceptionEnds(b, c, after);
    } else {
      OtherCallsStay(b, a, c);
    }
  }

  lemma {:induction false} ListIsHeeded(actions: seq<Action>, k: nat, c: nat)
    requires FirstList(actions, k, c)
    ensures c < |Behaviour(actions).calls|
    ensures Heeds(Behaviour(actions).calls[c], Incognito(Behaviour(actions[..k]).open) == {})
    decreases |actions|
  {
    var n := |actions| - 1;
    var before := actions[..n];
    BehaviourIsExclusive(before);
    if k < n {
      assert before[..k] == actions[..k];
      ListIsHeeded(before, k, c);
      StepHeeds(Behaviour(before), actions[n], c, Incognito(Behaviour(actions[..k]).open) == {}, Behaviour(actions));
    } else {
      assert PhaseHolds(Behaviour(before), Behaviour(before).calls[c]);
    }
  }

  /** No incognito window is open. */
  predicate NoIncognito(b: Browser) {
    forall id | id in b.open :: !b.open[id].incognito
  }

  /** An isolated start asks for a window only after it was allowed to see incognito windows and its first list showed
      that none was open, whoever might have opened one. */
  lemma IsolatedStartWasFree(actions: seq<Action>, c: nat)
    requires c < |Behaviour(actions).calls| && Behaviour(actions).calls[c].isolated && Asks(Behaviour(actions).calls[c].phase)
    ensures exists k: nat :: AccessAt(actions, k, c)
    ensures exists k: nat :: FirstList(actions, k, c)
    ensures forall k: nat | FirstList(actions, k, c) :: NoIncognito(Behaviour(actions[..k]))
  {
    AccessWasGranted(actions, c);
    ListWasTaken(actions, c);
    forall k: nat | FirstList(actions, k, c) ensures NoIncognito(Behaviour(actions[..k])) {
      ListIsHeeded(actions, k, c);
      forall id | id in Behaviour(actions[..k]).open ensures !Behaviour(actions[..k]).open[id].incognito {
        assert id !in Incognito(Behaviour(actions[..k]).open);
      }
    }
  }

  // ------------------------------------------------------------------ what complete may close

  /** Somebody asked to complete the recovery of this isolated window, and to close it. */
  ghost predicate WasAsked(actions: seq<Action>, id: int) {
    exists k: nat, c: nat :: CompletesAt(actions, k, c, id)
  }

  lemma AskedLater(actions: seq<Action>, a: Action, id: int)
    requires WasAsked(actions, id)
    ensures WasAsked(actions + [a], id)
  {
    var k: nat, c: nat :| CompletesAt(actions, k, c, id);
    assert (actions + [a])[..k] == actions[..k];
    assert CompletesAt(actions + [a], k, c, id);
  }

  /** The window that a call of complete goes on to close. */
  function ToClose(phase: Phase): Option<int> {
    match phase
    case Completing(_, context, closes) => if context.isolated && closes then Some(context.windowId) else None
    case Closing(context) => Some(context.windowId)
    case _ => None
  }

  lemma SurveyClosesNothing(b: Browser, c: nat, contexts: Contexts, incognito: set<int>)
    requires c < |b.calls|
    ensures var after := Survey(b, c, contexts, incognito); c < |after.calls| && ToClose(after.calls[c].phase).None?
  {
  }

  lemma EarlyClosesNothing(b: Browser, c: nat, ans: Answer)
    requires c < |b.calls| && Early(b.calls[c].phase)
    ensures var after := Segment(b, c, ans);
            c < |after.calls| && ToClose(after.calls[c].phase).None? && after.completed == b.completed
  {
    match b.calls[c].phase
    case Surveyed(contexts, incognito) =>
      SurveyClosesNothing(b, c, contexts, incognito);
      SurveyRemovesNothing(b, c, contexts, incognito);
    case _ =>
  }

  lemma LateCompletesNothing(b: Browser, c: nat, ans: Answer)
    requires c < |b.calls| && Late(b.calls[c].phase)
    ensures Segment(b, c, ans).completed == b.completed
  {
  }

  lemma LateClosesNothing(b: Browser, c: nat, ans: Answer)
    requires c < |b.calls| && Late(b.calls[c].phase)
    ensures var after := Segment(b, c, ans);
            c < |after.calls| && ToClose(after.calls[c].phase).None? && after.completed == b.completed
  {
    LateStaysLate(b, c, ans);
    LateCompletesNothing(b, c, ans);
  }

  /** Only a call that was to close a window goes on to, or does. */
  lemma SegmentCloses(b: Browser, c: nat, ans: Answer, after: Browser)
    requires c < |b.calls| && after == Segment(b, c, ans)
    ensures c < |after.calls|
    ensures ToClose(after.calls[c].phase).Some? ==> ToClose(after.calls[c].phase) == ToClose(b.calls[c].phase)
    ensures forall id | id in after.completed :: id in b.completed || ToClose(b.calls[c].phase) == Some(id)
  {
    if Early(b.calls[c].phase) {
      EarlyClosesNothing(b, c, ans);
    } else if Late(b.calls[c].phase) {
      LateClosesNothing(b, c, ans);
    }
  }

  /** A step closes only what some call was to close, and has a new call do so only when it is asked to. */
  lemma StepCloses(b: Browser, a: Action, after: Browser)
    requires Exclusive(b) && AllOurs(b) && after == Step(b, a)
    ensures forall c | 0 <= c < |after.calls| && ToClose(after.calls[c].phase).Some? ::
      || (c < |b.calls| && ToClose(after.calls[c].phase) == ToClose(b.calls[c].phase))
      || (c == |b.calls| && Begins(b, a, ToClose(after.calls[c].phase).value))
    ensures forall id | id in after.completed ::
      id in b.completed || exists c :: 0 <= c < |b.calls| && ToClose(b.calls[c].phase) == Some(id)
  {
    if a.Run? && a.call < |b.calls| {
      assert PhaseHolds(b, b.calls[a.call]);
      SegmentIsOneCall(b, a.call, a.ans);
      SegmentCloses(b, a.call, a.ans, after);
    } else if a.Throw? && a.call < |b.calls| {
      assert PhaseHolds(b, b.calls[a.call]);
      ExceptionIsOneCall(b, a.call);
      ExceptionEnds(b, a.call, after);
    }
  }

  /** The step begins to complete the recovery of this window. */
  predicate Begins(b: Browser, a: Action, id: int) {
    a == Complete(id, true) && id in b.storage && b.storage[id].isolated
  }

  lemma {:induction false} OnlyAskedAreClosed(actions: seq<Action>)
    ensures var b := Behaviour(actions);
            && (forall c | 0 <= c < |b.calls| && ToClose(b.calls[c].phase).Some? :: WasAsked(actions, ToClose(b.calls[c].phase).value))
            && (forall id | id in b.completed :: WasAsked(actions, id))
    decreases |actions|
  {
    if actions != [] {
      var before, a := actions[..|actions|-1], actions[|actions|-1];
      OnlyAskedAreClosed(before);
      BehaviourIsExclusive(before);
      BehaviourIsOurs(before);
      StepCloses(Behaviour(before), a, Behaviour(actions));
      assert actions == before + [a];
      forall id | WasAsked(before, id) ensures WasAsked(actions, id) { AskedLater(before, a, id); }
      forall id | Begins(Behaviour(before), a, id) ensures WasAsked(actions, id) {
        assert CompletesAt(actions, |before|, |Behaviour(before).calls|, id);
      }
    }
  }

  /** Complete asks to close a window only if it was called for it, with its isolated context in storage, for a provider
      that wants it closed. */
  lemma ClosedWereCompleted(actions: seq<Action>, id: int)
    requires id in Behaviour(actions).completed
    ensures exists k: nat, c: nat :: CompletesAt(actions, k, c, id)
  {
    OnlyAskedAreClosed(actions);
    assert WasAsked(actions, id);
  }
}
