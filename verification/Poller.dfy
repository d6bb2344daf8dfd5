/**
 The coordinator that lets the extension poll the broker once at a time.  A poll is a promise with a
 life of its own; the schedule decides what moves next.
 */
module Poller {
  import opened Cookies

  /** Created by run; its operation begins; the operation ends; the finally callback ran; the promise
      settled, so those who wait for it may go on. */
  datatype Stage = Scheduled | Running | Over | Cleared | Resolved

  datatype Poll = Poll(stage: Stage, createdAt: nat, beganAt: nat, overAt: nat)

  datatype Call =
    | Plain(poll: nat, madeAt: nat)                 // run returned this poll
    | Waiting(previous: nat, madeAt: nat)           // runAfterCurrent awaits the poll in flight
    | Returned(poll: nat, madeAt: nat)              // runAfterCurrent returned this poll

  datatype State = State(clock: nat, inFlight: Option<nat>, polls: seq<Poll>, calls: seq<Call>)

  const IDLE := State(0, None, [], [])

  datatype Action =
    | Run
    | RunAfterCurrent
    | Resume(call: nat)
    | Begin(poll: nat)
    | End(poll: nat)
    | Clear(poll: nat)
    | Resolve(poll: nat)

  /** run: the poll in flight, or else a new one that takes its place. */
  function Launch(s: State): (State, nat) {
    if s.inFlight.Some? then (s, s.inFlight.value)
    else (s.(polls := s.polls + [Poll(Scheduled, s.clock, 0, 0)], inFlight := Some(|s.polls|)), |s.polls|)
  }

  function SetPoll(s: State, p: nat, poll: Poll): State
    requires p < |s.polls|
  {
    s.(polls := s.polls[p := poll])
  }

  predicate At(s: State, p: nat, stage: Stage) {
    p < |s.polls| && s.polls[p].stage == stage
  }

  function Act(s: State, a: Action): State {
    match a
    case Run =>
      var (after, poll) := Launch(s);
      after.(calls := after.calls + [Plain(poll, s.clock)])
    case RunAfterCurrent =>
      if s.inFlight.Some? then s.(calls := s.calls + [Waiting(s.inFlight.value, s.clock)])
      else
        var (after, poll) := Launch(s);
        after.(calls := after.calls + [Returned(poll, s.clock)])
    case Resume(c) =>
      if c < |s.calls| && s.calls[c].Waiting? && At(s, s.calls[c].previous, Resolved) then
        var (after, poll) := Launch(s);
        after.(calls := after.calls[c := Returned(poll, s.calls[c].madeAt)])
      else s
    case Begin(p) =>
      if At(s, p, Scheduled) then SetPoll(s, p, s.polls[p].(stage := Running, beganAt := s.clock)) else s
    case End(p) =>
      if At(s, p, Running) then SetPoll(s, p, s.polls[p].(stage := Over, overAt := s.clock)) else s
    case Clear(p) =>
      if At(s, p, Over) then
        SetPoll(s, p, s.polls[p].(stage := Cleared)).(inFlight := if s.inFlight == Some(p) then None else s.inFlight)
      else s
    case Resolve(p) =>
      if At(s, p, Cleared) then SetPoll(s, p, s.polls[p].(stage := Resolved)) else s
  }

  function Step(s: State, a: Action): State {
    Act(s.(clock := s.clock + 1), a)
  }

  function Schedule(actions: seq<Action>): State {
    if actions == [] then IDLE else Step(Schedule(actions[..|actions|-1]), actions[|actions|-1])
  }

  // ------------------------------------------------------------------ what every step keeps

  predicate Live(poll: Poll) {
    !poll.stage.Cleared? && !poll.stage.Resolved?
  }

  predicate Timely(s: State, poll: Poll) {
    && poll.createdAt <= s.clock && poll.beganAt <= s.clock && poll.overAt <= s.clock
    && (!poll.stage.Scheduled? ==> poll.createdAt < poll.beganAt)
    && (!poll.stage.Scheduled? && !poll.stage.Running? ==> poll.beganAt < poll.overAt)
  }

  /** Every poll but the last is done with, and the last is in flight exactly while it is not. */
  ghost predicate OneInFlight(s: State) {
    && (forall p | 0 <= p < |s.polls| :: Timely(s, s.polls[p]) && (Live(s.polls[p]) <==> s.inFlight == Some(p)))
    && (s.inFlight.Some? ==> s.inFlight.value == |s.polls| - 1)
    && (forall p, q | 0 <= p < q < |s.polls| :: s.polls[p].overAt < s.polls[q].createdAt)
  }

  ghost predicate CallHolds(s: State, call: Call) {
    match call
    case Plain(poll, _) => poll < |s.polls|
    case Waiting(previous, madeAt) =>
      && previous < |s.polls| && madeAt <= s.clock
      && (forall q | previous < q < |s.polls| :: madeAt <= s.polls[q].createdAt)
    case Returned(poll, madeAt) =>
      poll < |s.polls| && madeAt <= s.polls[poll].createdAt
  }

  ghost predicate Ordered(s: State) {
    OneInFlight(s) && forall c | 0 <= c < |s.calls| :: CallHolds(s, s.calls[c])
  }

  lemma TickKeepsOrdered(s: State)
    requires Ordered(s)
    ensures Ordered(s.(clock := s.clock + 1))
  {
    var after := s.(clock := s.clock + 1);
    forall c | 0 <= c < |s.calls| ensures CallHolds(after, after.calls[c]) { assert CallHolds(s, s.calls[c]); }
  }

  /** Calls stay as they were when polls are only added, or keep their times of creation. */
  lemma CallHoldsLater(s: State, after: State, call: Call)
    requires CallHolds(s, call) && |s.polls| <= |after.polls| && s.clock <= after.clock
    requires forall p | 0 <= p < |s.polls| :: after.polls[p].createdAt == s.polls[p].createdAt
    requires forall p | |s.polls| <= p < |after.polls| :: after.polls[p].createdAt == s.clock
    ensures CallHolds(after, call)
  {
  }

  lemma LaunchKeepsOneInFlight(s: State)
    requires OneInFlight(s) && forall p | 0 <= p < |s.polls| && !Live(s.polls[p]) :: s.polls[p].overAt < s.clock
    ensures var (after, poll) := Launch(s);
            && OneInFlight(after) && poll == |after.polls| - 1 && after.calls == s.calls
            && (s.inFlight.None? ==> after.polls[poll].createdAt == s.clock)
  {
  }

  /** A new call takes its place beside the others. */
  lemma CallsKeepHolding(s: State, after: State, c: nat)
    requires Ordered(s) && OneInFlight(after) && s.clock == after.clock
    requires |s.polls| <= |after.polls|
    requires forall p | 0 <= p < |s.polls| :: after.polls[p].createdAt == s.polls[p].createdAt
    requires forall p | |s.polls| <= p < |after.polls| :: after.polls[p].createdAt == s.clock
    requires c < |after.calls| && CallHolds(after, after.calls[c])
    requires |s.calls| <= |after.calls| <= |s.calls| + 1 && (|after.calls| > |s.calls| ==> c == |s.calls|)
    requires forall d | 0 <= d < |s.calls| && d != c :: after.calls[d] == s.calls[d]
    ensures Ordered(after)
  {
    forall d | 0 <= d < |after.calls| ensures CallHolds(after, after.calls[d]) {
      if d != c { CallHoldsLater(s, after, s.calls[d]); }
    }
  }

  /** A poll moves to its next stage; only the last one can be live. */
  lemma PollMoves(s: State, after: State, p: nat)
    requires Ordered(s) && p < |s.polls| == |after.polls| && after.calls == s.calls && after.clock == s.clock
    requires after.polls == s.polls[p := after.polls[p]] && Timely(after, after.polls[p])
    requires after.polls[p].createdAt == s.polls[p].createdAt
    requires Live(s.polls[p]) || (after.polls[p].overAt == s.polls[p].overAt && !Live(after.polls[p]))
    requires after.inFlight == if Live(after.polls[p]) || s.inFlight != Some(p) then s.inFlight else None
    ensures Ordered(after)
  {
    forall c | 0 <= c < |s.calls| ensures CallHolds(after, after.calls[c]) { CallHoldsLater(s, after, s.calls[c]); }
  }

  /** Every poll there is was moved before this moment. */
  ghost predicate Past(s: State) {
    forall p | 0 <= p < |s.polls| :: s.polls[p].createdAt < s.clock && s.polls[p].beganAt < s.clock && s.polls[p].overAt < s.clock
  }

  lemma CallKeepsOrdered(s: State, a: Action)
    requires Ordered(s) && Past(s) && (a.Run? || a.RunAfterCurrent?)
    ensures Ordered(Act(s, a))
  {
    LaunchKeepsOneInFlight(s);
    CallsKeepHolding(s, Act(s, a), |s.calls|);
  }

  lemma ResumeKeepsOrdered(s: State, c: nat)
    requires Ordered(s) && Past(s)
    ensures Ordered(Act(s, Resume(c)))
  {
    if c < |s.calls| && s.calls[c].Waiting? && At(s, s.calls[c].previous, Resolved) {
      assert CallHolds(s, s.calls[c]);
      LaunchKeepsOneInFlight(s);
      CallsKeepHolding(s, Act(s, Resume(c)), c);
    }
  }

  lemma PollKeepsOrdered(s: State, a: Action)
    requires Ordered(s) && Past(s) && !(a.Run? || a.RunAfterCurrent? || a.Resume?)
    ensures Ordered(Act(s, a))
  {
    match a
    case Begin(p) => if At(s, p, Scheduled) { PollMoves(s, Act(s, a), p); }
    case End(p) => if At(s, p, Running) { PollMoves(s, Act(s, a), p); }
    case Clear(p) => if At(s, p, Over) { PollMoves(s, Act(s, a), p); }
    case Resolve(p) => if At(s, p, Cleared) { PollMoves(s, Act(s, a), p); }
  }

  lemma ActKeepsOrdered(s: State, a: Action, after: State)
    requires Ordered(s) && Past(s) && after == Act(s, a)
    ensures Ordered(after)
  {
    if a.Resume? {
      ResumeKeepsOrdered(s, a.call);
    } else if a.Run? || a.RunAfterCurrent? {
      CallKeepsOrdered(s, a);
    } else {
      PollKeepsOrdered(s, a);
    }
  }

  lemma TickIsPast(s: State)
    requires Ordered(s)
    ensures Past(s.(clock := s.clock + 1))
  {
    forall p | 0 <= p < |s.polls|
      ensures s.polls[p].createdAt <= s.clock && s.polls[p].beganAt <= s.clock && s.polls[p].overAt <= s.clock
    {
      assert Timely(s, s.polls[p]);
    }
  }

  lemma StepKeepsOrdered(s: State, a: Action, after: State)
    requires Ordered(s) && after == Step(s, a)
    ensures Ordered(after)
  {
    TickKeepsOrdered(s);
    TickIsPast(s);
    ActKeepsOrdered(s.(clock := s.clock + 1), a, after);
  }

  lemma {:induction false} ScheduleIsOrdered(actions: seq<Action>)
    ensures Ordered(Schedule(actions))
    decreases |actions|
  {
    if actions != [] {
      ScheduleIsOrdered(actions[..|actions|-1]);
      StepKeepsOrdered(Schedule(actions[..|actions|-1]), actions[|actions|-1], Schedule(actions));
    }
  }

  // ------------------------------------------------------------------ the promises

  /** Polls never overlap: one begins only after every earlier one is over. */
  lemma PollsNeverOverlap(actions: seq<Action>, p: nat, q: nat)
    requires p < q < |Schedule(actions).polls| && !Schedule(actions).polls[q].stage.Scheduled?
    ensures var polls := Schedule(actions).polls;
            polls[p].stage in {Cleared, Resolved} && polls[p].beganAt < polls[p].overAt < polls[q].beganAt
  {
    ScheduleIsOrdered(actions);
    var s := Schedule(actions);
    assert Timely(s, s.polls[p]) && Timely(s, s.polls[q]);
  }

  /** The poll that runAfterCurrent returns has yet to begin, or began after the call was made, whoever
      else called run in between. */
  lemma ReturnedPollIsFresh(actions: seq<Action>, c: nat)
    requires c < |Schedule(actions).calls| && Schedule(actions).calls[c].Returned?
    ensures var s := Schedule(actions);
            && s.calls[c].poll < |s.polls|
            && (s.polls[s.calls[c].poll].stage.Scheduled? || s.calls[c].madeAt < s.polls[s.calls[c].poll].beganAt)
  {
    ScheduleIsOrdered(actions);
    var s := Schedule(actions);
    assert CallHolds(s, s.calls[c]);
    assert Timely(s, s.polls[s.calls[c].poll]);
  }

  /** The finally callback always finds its own poll in flight, so a poll that is over never blocks
      the next one. */
  lemma CallbackClearsItsOwn(actions: seq<Action>, p: nat)
    requires At(Schedule(actions), p, Over)
    ensures Schedule(actions).inFlight == Some(p)
    ensures Schedule(actions + [Clear(p)]).inFlight == None
  {
    ScheduleIsOrdered(actions);
    assert (actions + [Clear(p)])[..|actions|] == actions;
  }

  /** A call of runAfterCurrent on an idle coordinator returns a new poll at once; else it waits for the one in flight. */
  lemma RunAfterCurrentAnswers(actions: seq<Action>)
    ensures var s, after := Schedule(actions), Schedule(actions + [RunAfterCurrent]);
            && |after.calls| == |s.calls| + 1 && after.calls[..|s.calls|] == s.calls
            && var call := after.calls[|s.calls|];
            && call.madeAt == after.clock
            && (s.inFlight.None? ==>
                  call.Returned? && call.poll == |s.polls| < |after.polls|
                  && after.polls[call.poll].stage.Scheduled? && after.inFlight == Some(call.poll))
            && (s.inFlight.Some? ==> call.Waiting? && call.previous == s.inFlight.value && after.polls == s.polls)
  {
    assert (actions + [RunAfterCurrent])[..|actions|] == actions;
  }

  /** And once that poll has settled, the waiting call returns the poll in flight, or a new one when there is none. */
  lemma WaitingCallReturns(actions: seq<Action>, c: nat)
    requires var s := Schedule(actions);
             c < |s.calls| && s.calls[c].Waiting? && At(s, s.calls[c].previous, Resolved)
    ensures var s, after := Schedule(actions), Schedule(actions + [Resume(c)]);
            && |after.calls| == |s.calls| && after.calls[c].Returned?
            && after.calls[c].madeAt == s.calls[c].madeAt && after.inFlight == Some(after.calls[c].poll)
            && after.calls[c].poll == if s.inFlight.Some? then s.inFlight.value else |s.polls|
  {
    assert (actions + [Resume(c)])[..|actions|] == actions;
  }

  lemma ScheduleStep(actions: seq<Action>, a: Action)
    ensures Schedule(actions + [a]) == Step(Schedule(actions), a)
  {
    assert (actions + [a])[..|actions|] == actions;
  }

  /** A whole run: a call waits for a poll under way and then gets a second one, which has yet to begin. */
  lemma WaitingCallGetsSecondPoll() returns (actions: seq<Action>)
    ensures Schedule(actions).calls == [Plain(0, 1), Returned(1, 3)]
    ensures |Schedule(actions).polls| == 2 && Schedule(actions).polls[1].stage.Scheduled?
  {
    var a0: seq<Action> := [];
    var a1 := a0 + [Run];
    var a2 := a1 + [Begin(0)];
    var a3 := a2 + [RunAfterCurrent];
    var a4 := a3 + [End(0)];
    var a5 := a4 + [Clear(0)];
    var a6 := a5 + [Resolve(0)];
    ScheduleStep(a0, Run);
    ScheduleStep(a1, Begin(0));
    ScheduleStep(a2, RunAfterCurrent);
    ScheduleStep(a3, End(0));
    ScheduleStep(a4, Clear(0));
    ScheduleStep(a5, Resolve(0));
    ScheduleStep(a6, Resume(1));
    assert Schedule(a3) == State(3, Some(0), [Poll(Running, 1, 2, 0)], [Plain(0, 1), Waiting(0, 3)]);
    assert Schedule(a6) == State(6, None, [Poll(Resolved, 1, 2, 4)], [Plain(0, 1), Waiting(0, 3)]);
    actions := a6 + [Resume(1)];
  }

  /** The poll in flight, if there is one, is at this stage. */
  predicate InFlightAt(s: State, stage: Stage) {
    s.inFlight.Some? && At(s, s.inFlight.value, stage)
  }

  /** run alone promises less.  The poll it returns has yet to begin exactly when none was in flight or the one
      in flight had not begun; and its operation ended before the call exactly when the poll in flight was over
      and its callback had not come. */
  lemma RunIsFreshExactly(actions: seq<Action>)
    ensures var s, after := Schedule(actions), Schedule(actions + [Run]);
            && |after.calls| == |s.calls| + 1 && after.calls[|s.calls|].Plain?
            && var poll, madeAt := after.calls[|s.calls|].poll, after.calls[|s.calls|].madeAt;
            && poll < |after.polls|
            && (after.polls[poll].stage.Scheduled? <==> s.inFlight.None? || InFlightAt(s, Scheduled))
            && (after.polls[poll].stage.Over? <==> InFlightAt(s, Over))
            && (after.polls[poll].stage.Over? ==> after.polls[poll].overAt < madeAt)
            && after.polls[poll].stage in {Scheduled, Running, Over}
  {
    ScheduleIsOrdered(actions);
    assert (actions + [Run])[..|actions|] == actions;
    var s := Schedule(actions);
    if s.inFlight.Some? { assert Timely(s, s.polls[s.inFlight.value]) && Live(s.polls[s.inFlight.value]); }
  }

  /** A run in which it does. */
  lemma RunMayReturnAnOldPoll()
    ensures exists actions: seq<Action>, c: nat ::
      var s := Schedule(actions);
      c < |s.calls| && s.calls[c].Plain? && s.calls[c].poll < |s.polls| && s.polls[s.calls[c].poll].stage.Over?
      && s.polls[s.calls[c].poll].overAt < s.calls[c].madeAt
  {
    var a1, a2, a3, a4 := [Run], [Run, Begin(0)], [Run, Begin(0), End(0)], [Run, Begin(0), End(0), Run];
    assert a1[..0] == [] && a2[..1] == a1 && a3[..2] == a2 && a4[..3] == a3;
    assert Schedule(a1).polls == [Poll(Scheduled, 1, 0, 0)];
    assert Schedule(a2).polls == [Poll(Running, 1, 2, 0)];
    assert Schedule(a3).polls == [Poll(Over, 1, 2, 3)];
    assert Schedule(a4).calls[1] == Plain(0, 4);
  }

  // ------------------------------------------------------------------ the coordinator in place

  /** The closure variable inFlight beside the promises and calls of the event loop. */
  class Coordinator {
    var inFlight: Option<nat>
    var polls: seq<Poll>
    var calls: seq<Call>
    var clock: nat

    ghost function View(): State
      reads this
    {
      State(clock, inFlight, polls, calls)
    }

    constructor ()
      ensures View() == IDLE
    {
      inFlight, polls, calls, clock := None, [], [], 0;
    }

    method Launched() returns (poll: nat)
      modifies this
      ensures (View(), poll) == Launch(old(View()))
    {
      if inFlight.Some? {
        return inFlight.value;
      }
      poll := |polls|;
      polls := polls + [Poll(Scheduled, clock, 0, 0)];
      inFlight := Some(poll);
    }

    method Run() returns (poll: nat)
      modifies this
      ensures View() == Step(old(View()), Action.Run)
      ensures calls == old(calls) + [Plain(poll, clock)]
    {
      clock := clock + 1;
      poll := Launched();
      calls := calls + [Plain(poll, clock)];
    }

    /** Up to the await, or to the end when nothing is in flight. */
    method RunAfterCurrent()
      modifies this
      ensures View() == Step(old(View()), Action.RunAfterCurrent)
    {
      clock := clock + 1;
      var previous := inFlight;
      if previous.Some? {
        calls := calls + [Waiting(previous.value, clock)];
      } else {
        var poll := Launched();
        calls := calls + [Returned(poll, clock)];
      }
    }

    /** From the await to the end. */
    method Resume(c: nat)
      requires c < |calls| && calls[c].Waiting? && At(View(), calls[c].previous, Resolved)
      modifies this
      ensures View() == Step(old(View()), Action.Resume(c))
    {
      clock := clock + 1;
      var poll := Launched();
      calls := calls[c := Returned(poll, calls[c].madeAt)];
    }

    /** The finally callback of a poll. */
    method Clear(p: nat)
      requires At(View(), p, Over)
      modifies this
      ensures View() == Step(old(View()), Action.Clear(p))
    {
      clock := clock + 1;
      polls := polls[p := polls[p].(stage := Cleared)];
      if inFlight == Some(p) {
        inFlight := None;
      }
    }
  }
}
