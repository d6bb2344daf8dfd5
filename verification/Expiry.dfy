/**
 The expiry notices of the browser extension.  A poll of the broker turns the old notification state
 into a new one and a list of notices; the specification beside it looks at the past polls only.
 Numbers are real, so rounding is exact.
 */
module Expiry {
  import opened Cookies

  // ------------------------------------------------------------------ thresholds

  const LONGEST := 8760.0

  /** To two decimals, halves upwards. */
  function Round(x: real): real {
    (x * 100.0 + 0.5).Floor as real / 100.0
  }

  predicate Falling(s: seq<real>) {
    forall i, j | 0 <= i < j < |s| :: s[i] > s[j]
  }

  /** A set of numbers as a list, largest first: new elements find their place, known ones are dropped. */
  function Placed(x: real, s: seq<real>): (r: seq<real>)
    requires Falling(s)
    ensures Falling(r) && forall t :: t in r <==> t == x || t in s
  {
    if s == [] || x > s[0] then [x] + s
    else if x == s[0] then s
    else
      var rest := Placed(x, s[1..]);
      assert forall i | 0 <= i < |rest| :: rest[i] < s[0] by {
        forall i | 0 <= i < |rest| ensures rest[i] < s[0] {
          assert rest[i] in rest;
          assert rest[i] == x || rest[i] in s[1..];
        }
      }
      [s[0]] + rest
  }

  function SortedDown(values: seq<real>): (r: seq<real>)
    ensures Falling(r) && forall t :: t in r <==> t in values
  {
    if values == [] then [] else Placed(values[0], SortedDown(values[1..]))
  }

  predicate InRange(item: Option<real>) {
    item.Some? && 0.0 < item.value <= LONGEST
  }

  /** The items that pass the filter, rounded; an item that is no finite number is None. */
  function Rounded(items: seq<Option<real>>): (r: seq<real>)
    ensures forall t :: t in r <==> exists i :: 0 <= i < |items| && InRange(items[i]) && t == Round(items[i].value)
  {
    if items == [] then []
    else
      var rest := Rounded(items[1..]);
      assert items == [items[0]] + items[1..];
      if InRange(items[0]) then [Round(items[0].value)] + rest else rest
  }

  function Normalize(items: seq<Option<real>>): seq<real> {
    SortedDown(Rounded(items))
  }

  lemma {:induction false} FallingIsUnique(a: seq<real>, b: seq<real>)
    requires Falling(a) && Falling(b) && forall t :: t in a <==> t in b
    ensures a == b
  {
    assert (a == [] || a[0] in a) && (b == [] || b[0] in b);
    if a != [] {
      assert a[0] == b[0];
      forall t ensures t in a[1..] <==> t in b[1..] {
        if t in a[1..] { assert t in a && t != a[0]; assert b == [b[0]] + b[1..]; }
        if t in b[1..] { assert t in b && t != b[0]; assert a == [a[0]] + a[1..]; }
      }
      FallingIsUnique(a[1..], b[1..]);
      assert a == [a[0]] + a[1..] && b == [b[0]] + b[1..];
    }
  }

  /** Order and repetition of the items do not matter, nor do items that are no usable number. */
  lemma NormalizeForgetsOrder(items: seq<Option<real>>, others: seq<Option<real>>)
    requires forall item: Option<real> :: InRange(item) ==> (item in items <==> item in others)
    ensures Normalize(items) == Normalize(others)
  {
    forall t ensures t in Normalize(items) <==> t in Normalize(others) {
      if t in Normalize(items) {
        var i :| 0 <= i < |items| && InRange(items[i]) && t == Round(items[i].value);
        var j :| 0 <= j < |others| && others[j] == items[i];
        assert InRange(others[j]);
      }
      if t in Normalize(others) {
        var i :| 0 <= i < |others| && InRange(others[i]) && t == Round(others[i].value);
        var j :| 0 <= j < |items| && items[j] == others[i];
        assert InRange(items[j]);
      }
    }
    FallingIsUnique(Normalize(items), Normalize(others));
  }

  lemma RoundIsClose(x: real)
    ensures -0.005 <= Round(x) - x <= 0.005
    ensures Round(Round(x)) == Round(x)
    ensures x > 0.0 ==> Round(x) >= 0.0 && (Round(x) == 0.0 <==> x < 0.005)
    ensures x <= LONGEST ==> Round(x) <= LONGEST
  {
    var n := (x * 100.0 + 0.5).Floor;
    assert n as real <= x * 100.0 + 0.5 < n as real + 1.0;
    assert Round(x) * 100.0 == n as real;
    assert (n as real + 0.5).Floor == n;
    if x <= LONGEST { assert n <= 876000; }
    if x > 0.0 { assert n >= 0; }
  }

  function Given(values: seq<real>): (items: seq<Option<real>>)
    ensures |items| == |values| && forall i | 0 <= i < |values| :: items[i] == Some(values[i])
  {
    seq(|values|, i requires 0 <= i < |values| => Some(values[i]))
  }

  /** Normalising twice is normalising once, unless a positive item is below half a hundredth: it is
      rounded to zero, kept, and thrown away the next time. */
  lemma NormalizeIsIdempotent(items: seq<Option<real>>)
    ensures Normalize(Given(Normalize(items))) == Normalize(items)
       <==> !exists i :: 0 <= i < |items| && InRange(items[i]) && items[i].value < 0.005
  {
    var once := Normalize(items);
    var again := Normalize(Given(once));
    if i :| 0 <= i < |items| && InRange(items[i]) && items[i].value < 0.005 {
      RoundIsClose(items[i].value);
      assert 0.0 in once;
      if 0.0 in again {
        var j :| 0 <= j < |once| && InRange(Given(once)[j]) && 0.0 == Round(once[j]);
        assert once[j] in once;
        var k :| 0 <= k < |items| && InRange(items[k]) && once[j] == Round(items[k].value);
        RoundIsClose(items[k].value);
      }
    } else {
      forall t ensures t in again <==> t in once {
        if t in again {
          var j :| 0 <= j < |once| && InRange(Given(once)[j]) && t == Round(once[j]);
          assert once[j] in once;
          var k :| 0 <= k < |items| && InRange(items[k]) && once[j] == Round(items[k].value);
          RoundIsClose(items[k].value);
        }
        if t in once {
          var k :| 0 <= k < |items| && InRange(items[k]) && t == Round(items[k].value);
          RoundIsClose(items[k].value);
          var j :| 0 <= j < |once| && once[j] == t;
          assert InRange(Given(once)[j]) && t == Round(once[j]);
        }
      }
      FallingIsUnique(again, once);
    }
  }

  /** The input that shows it: 0.001. */
  lemma TinyThresholdIsLost()
    ensures Normalize([Some(0.001)]) == [0.0] && Normalize([Some(0.0)]) == []
  {
    RoundIsClose(0.001);
    FallingIsUnique(Normalize([Some(0.001)]), [0.0]);
  }

  /** The thresholds are the usable items, none above 8760 hours, each within half a hundredth of an hour. */
  lemma ThresholdsAreItems(items: seq<Option<real>>)
    ensures forall t | t in Normalize(items) ::
      exists i :: 0 <= i < |items| && items[i].Some? && 0.0 < items[i].value <= 8760.0 && Near(t, items[i].value)
    ensures forall i | 0 <= i < |items| && items[i].Some? && 0.0 < items[i].value <= 8760.0 ::
      exists t :: t in Normalize(items) && Near(t, items[i].value)
  {
    forall t | t in Normalize(items)
      ensures exists i :: 0 <= i < |items| && items[i].Some? && 0.0 < items[i].value <= 8760.0 && Near(t, items[i].value)
    {
      var i :| 0 <= i < |items| && InRange(items[i]) && t == Round(items[i].value);
      RoundIsClose(items[i].value);
      assert Near(t, items[i].value);
    }
    forall i | 0 <= i < |items| && items[i].Some? && 0.0 < items[i].value <= 8760.0
      ensures exists t :: t in Normalize(items) && Near(t, items[i].value)
    {
      RoundIsClose(items[i].value);
      assert InRange(items[i]) && Round(items[i].value) in Normalize(items) && Near(Round(items[i].value), items[i].value);
    }
  }

  predicate Near(t: real, x: real) {
    -0.005 <= t - x <= 0.005
  }

  // ------------------------------------------------------------------ one poll

  const REFRESH := "refresh_required"

  const MILLISECONDS_IN_AN_HOUR := 3600000.0

  /** What the broker answered, and when: times in milliseconds. */
  datatype Poll = Poll(revision: nat, health: string, expiresAt: Option<real>, now: real)

  datatype State = State(revision: nat, fired: seq<real>, hintPassed: bool, health: Option<string>)

  const UNKNOWN := State(0, [], false, None)

  datatype Notice =
    | RefreshRequired
    | HintPassed
    | ThresholdReached(hours: real, remaining: real)

  function Remaining(p: Poll): real
    requires p.expiresAt.Some?
  {
    (p.expiresAt.value - p.now) / MILLISECONDS_IN_AN_HOUR
  }

  predicate HasHint(p: Poll) {
    p.revision > 0 && p.expiresAt.Some?
  }

  /** The thresholds that the remaining time has reached and that are not fired yet. */
  function Crossed(thresholds: seq<real>, remaining: real, fired: seq<real>): (r: seq<real>)
    ensures forall t :: t in r <==> t in thresholds && remaining <= t && t !in fired
  {
    if thresholds == [] then []
    else
      var rest := Crossed(thresholds[1..], remaining, fired);
      assert thresholds == [thresholds[0]] + thresholds[1..];
      if remaining <= thresholds[0] && thresholds[0] !in fired then [thresholds[0]] + rest else rest
  }

  function Least(s: seq<real>): (m: real)
    requires s != []
    ensures m in s && forall t | t in s :: m <= t
  {
    if |s| == 1 then s[0]
    else
      var m := Least(s[1..]);
      assert s == [s[0]] + s[1..];
      if s[0] < m then s[0] else m
  }

  function Evaluate(p: Poll, previous: State, items: seq<Option<real>>): (State, seq<Notice>) {
    var same := previous.revision == p.revision;
    var state := (if same then previous else State(p.revision, [], false, None)).(health := Some(p.health));
    var refresh := if p.health == REFRESH && (!same || previous.health != Some(REFRESH)) then [RefreshRequired] else [];
    if !HasHint(p) then (state, refresh)
    else
      var thresholds := Normalize(items);
      if Remaining(p) <= 0.0 then
        (state.(hintPassed := true, fired := SortedDown(state.fired + thresholds)),
         refresh + if state.hintPassed then [] else [HintPassed])
      else
        var crossed := Crossed(thresholds, Remaining(p), state.fired);
        if crossed == [] then (state, refresh)
        else (state.(fired := SortedDown(state.fired + crossed)),
              refresh + [ThresholdReached(Least(crossed), Remaining(p))])
  }

  // ------------------------------------------------------------------ runs of polls

  /** The state after a run of polls with one list of thresholds. */
  function StateAfter(polls: seq<Poll>, items: seq<Option<real>>): State {
    if polls == [] then UNKNOWN
    else Evaluate(polls[|polls|-1], StateAfter(polls[..|polls|-1], items), items).0
  }

  /** The notices of the last poll. */
  function LastNotices(polls: seq<Poll>, items: seq<Option<real>>): seq<Notice>
    requires polls != []
  {
    Evaluate(polls[|polls|-1], StateAfter(polls[..|polls|-1], items), items).1
  }

  /** A poll of a published revision that saw a hint and no more than t hours left. */
  predicate SeenWithin(p: Poll, t: real) {
    p.revision > 0 && p.expiresAt.Some? && p.expiresAt.value - p.now <= t * 3600000.0
  }

  lemma RemainingIsSeen(p: Poll, t: real)
    ensures SeenWithin(p, t) <==> HasHint(p) && Remaining(p) <= t
  {
    if HasHint(p) { HoursAndMilliseconds(p.expiresAt.value - p.now, Remaining(p), t); }
  }

  /** A poll of a published revision that saw this many hours left. */
  predicate Left(p: Poll, hours: real) {
    p.revision > 0 && p.expiresAt.Some? && hours * 3600000.0 == p.expiresAt.value - p.now
  }

  lemma RemainingIsLeft(p: Poll, hours: real)
    ensures Left(p, hours) <==> HasHint(p) && Remaining(p) == hours
  {
    if HasHint(p) { HoursAndMilliseconds(p.expiresAt.value - p.now, Remaining(p), hours); }
  }

  lemma HoursAndMilliseconds(ms: real, left: real, t: real)
    requires left == ms / 3600000.0
    ensures left * 3600000.0 == ms && (left <= t <==> ms <= t * 3600000.0) && (0.0 < left <==> 0.0 < ms)
  {
  }

  /** Whether the last polls, as far back as they agree on the revision, saw no more than t hours left. */
  predicate Reached(polls: seq<Poll>, revision: nat, t: real) {
    polls != [] && polls[|polls|-1].revision == revision
    && (SeenWithin(polls[|polls|-1], t) || Reached(polls[..|polls|-1], revision, t))
  }

  predicate WasRefresh(polls: seq<Poll>, revision: nat) {
    polls != [] && polls[|polls|-1].revision == revision && polls[|polls|-1].health == REFRESH
  }

  /** The state remembers of the past exactly this. */
  ghost predicate Remembers(polls: seq<Poll>, items: seq<Option<real>>, state: State) {
    && state.revision == (if polls == [] then 0 else polls[|polls|-1].revision)
    && (state.health == Some(REFRESH) <==> polls != [] && polls[|polls|-1].health == REFRESH)
    && (state.hintPassed <==> Reached(polls, state.revision, 0.0))
    && (forall t :: t in state.fired <==> t in Normalize(items) && Reached(polls, state.revision, t))
  }

  lemma ThresholdsAreNotNegative(items: seq<Option<real>>, t: real)
    requires t in Normalize(items)
    ensures 0.0 <= t <= LONGEST
  {
    var i :| 0 <= i < |items| && InRange(items[i]) && t == Round(items[i].value);
    RoundIsClose(items[i].value);
  }

  lemma {:induction false} ReachedUpwards(polls: seq<Poll>, revision: nat, t: real, u: real)
    requires Reached(polls, revision, t) && t <= u
    ensures Reached(polls, revision, u)
    decreases |polls|
  {
    if !(HasHint(polls[|polls|-1]) && Remaining(polls[|polls|-1]) <= t) {
      ReachedUpwards(polls[..|polls|-1], revision, t, u);
    }
  }

  lemma PollRemembers(before: seq<Poll>, p: Poll, previous: State, items: seq<Option<real>>)
    requires Remembers(before, items, previous)
    ensures Remembers(before + [p], items, Evaluate(p, previous, items).0)
  {
    var polls, state := before + [p], Evaluate(p, previous, items).0;
    assert polls[|polls|-1] == p && polls[..|polls|-1] == before;
    assert state.revision == p.revision;
    var same := previous.revision == p.revision;
    assert !same ==> forall t :: !Reached(before, p.revision, t);
    forall t ensures t in state.fired <==> t in Normalize(items) && Reached(polls, p.revision, t) {
      if t in Normalize(items) { ThresholdsAreNotNegative(items, t); }
    }
  }

  lemma {:induction false} StateRemembers(polls: seq<Poll>, items: seq<Option<real>>)
    ensures Remembers(polls, items, StateAfter(polls, items))
    decreases |polls|
  {
    if polls != [] {
      var before := polls[..|polls|-1];
      StateRemembers(before, items);
      PollRemembers(before, polls[|polls|-1], StateAfter(before, items), items);
      assert before + [polls[|polls|-1]] == polls;
    }
  }

  /** The tightest threshold that the remaining time is within. */
  ghost predicate Tightest(items: seq<Option<real>>, left: real, t: real) {
    t in Normalize(items) && left <= t && forall u | u in Normalize(items) && left <= u :: t <= u
  }

  lemma CrossedIsUnreached(before: seq<Poll>, revision: nat, items: seq<Option<real>>, fired: seq<real>, left: real, t: real)
    requires forall u :: u in fired <==> u in Normalize(items) && Reached(before, revision, u)
    ensures var crossed := Crossed(Normalize(items), left, fired);
            (crossed != [] && Least(crossed) == t) <==> (Tightest(items, left, t) && !Reached(before, revision, t))
  {
    var crossed := Crossed(Normalize(items), left, fired);
    if crossed != [] && Least(crossed) == t {
      forall u | u in Normalize(items) && left <= u ensures t <= u {
        if u !in crossed && u < t { ReachedUpwards(before, revision, u, t); }
      }
    }
    if Tightest(items, left, t) && !Reached(before, revision, t) {
      assert t in crossed;
    }
  }

  lemma RefreshFollowsHistory(before: seq<Poll>, p: Poll, previous: State, items: seq<Option<real>>)
    requires Remembers(before, items, previous)
    ensures RefreshRequired in Evaluate(p, previous, items).1 <==> p.health == REFRESH && !WasRefresh(before, p.revision)
    ensures HintPassed in Evaluate(p, previous, items).1 <==> SeenWithin(p, 0.0) && !Reached(before, p.revision, 0.0)
  {
    RemainingIsSeen(p, 0.0);
  }

  lemma ThresholdFollowsHistory(before: seq<Poll>, p: Poll, previous: State, items: seq<Option<real>>, t: real, left: real)
    requires Remembers(before, items, previous)
    ensures ThresholdReached(t, left) in Evaluate(p, previous, items).1
       <==> HasHint(p) && left == Remaining(p) && 0.0 < left && Tightest(items, left, t) && !Reached(before, p.revision, t)
  {
    if HasHint(p) && Remaining(p) > 0.0 {
      var fired := if previous.revision == p.revision then previous.fired else [];
      forall u ensures u in fired <==> u in Normalize(items) && Reached(before, p.revision, u) {
      }
      CrossedIsUnreached(before, p.revision, items, fired, Remaining(p), t);
    }
  }

  /** What each poll announces, told from the past polls alone.  A refresh is announced when the health
      turns to it; the hint's passing when it is first seen to have passed; a threshold when it is the
      tightest one that the remaining time is within and the time was never seen within it before. */
  lemma NoticesFollowHistory(polls: seq<Poll>, items: seq<Option<real>>)
    requires polls != []
    ensures var p, before, notices := polls[|polls|-1], polls[..|polls|-1], LastNotices(polls, items);
            && (RefreshRequired in notices <==> p.health == REFRESH && !WasRefresh(before, p.revision))
            && (HintPassed in notices <==> SeenWithin(p, 0.0) && !Reached(before, p.revision, 0.0))
            && (forall t, left :: ThresholdReached(t, left) in notices <==>
                  && Left(p, left) && 0.0 < left && Tightest(items, left, t) && !Reached(before, p.revision, t))
  {
    var p, before := polls[|polls|-1], polls[..|polls|-1];
    var previous, notices := StateAfter(before, items), LastNotices(polls, items);
    StateRemembers(before, items);
    RefreshFollowsHistory(before, p, previous, items);
    forall t, left
      ensures ThresholdReached(t, left) in notices
         <==> Left(p, left) && 0.0 < left && Tightest(items, left, t) && !Reached(before, p.revision, t)
    {
      RemainingIsLeft(p, left);
      ThresholdFollowsHistory(before, p, previous, items, t, left);
    }
  }

  /** The notices told in milliseconds: the hint has passed when the moment has come, and a threshold of t hours is
      announced with the hours that are left, when there is still time and no more than that. */
  lemma NoticesAreTimely(polls: seq<Poll>, items: seq<Option<real>>)
    requires polls != []
    ensures var p, notices := polls[|polls|-1], LastNotices(polls, items);
            && (HintPassed in notices ==> p.revision > 0 && p.expiresAt.Some? && p.expiresAt.value <= p.now)
            && (forall t, left | ThresholdReached(t, left) in notices ::
                  && p.revision > 0 && p.expiresAt.Some? && left * 3600000.0 == p.expiresAt.value - p.now
                  && p.now < p.expiresAt.value <= p.now + t * 3600000.0)
  {
    NoticesFollowHistory(polls, items);
  }

  /** Polls i and up agree on the revision. */
  predicate OneRevision(polls: seq<Poll>, i: nat) {
    forall k | i <= k < |polls| :: polls[k].revision == polls[|polls|-1].revision
  }

  /** What poll i saw is not forgotten while the revision stays. */
  lemma {:induction false} SeenStaysReached(polls: seq<Poll>, i: nat, t: real)
    requires i < |polls| && OneRevision(polls, i) && SeenWithin(polls[i], t)
    ensures Reached(polls, polls[i].revision, t)
    decreases |polls|
  {
    var before := polls[..|polls|-1];
    if i < |before| {
      assert before[|before|-1] == polls[|polls|-2];
      forall k | i <= k < |before| ensures before[k].revision == before[|before|-1].revision { assert before[k] == polls[k]; }
      SeenStaysReached(before, i, t);
    }
  }

  /** Over consecutive polls on one revision, whatever the clock does: announced thresholds only get
      tighter, the hint's passing is announced once, and no threshold is announced after it. */
  lemma NoticesNeverGoBack(polls: seq<Poll>, items: seq<Option<real>>, i: nat)
    requires 0 < i < |polls| && OneRevision(polls, i - 1)
    ensures var earlier, later := LastNotices(polls[..i], items), LastNotices(polls, items);
            && (forall t, left, u, now | ThresholdReached(t, left) in earlier && ThresholdReached(u, now) in later :: u < t)
            && (HintPassed in earlier ==> HintPassed !in later && forall t, left :: ThresholdReached(t, left) !in later)
  {
    var earlier, later, before := polls[..i], polls, polls[..|polls|-1];
    var p, q := polls[i-1], polls[|polls|-1];
    assert earlier[|earlier|-1] == p && i - 1 < |before| && before[i-1] == p && p.revision == q.revision;
    NoticesFollowHistory(earlier, items);
    NoticesFollowHistory(later, items);
    forall k | i - 1 <= k < |before| ensures before[k].revision == before[|before|-1].revision { assert before[k] == polls[k]; }
    forall t | SeenWithin(p, t) ensures Reached(before, q.revision, t) { SeenStaysReached(before, i - 1, t); }
    forall t, left | HintPassed in LastNotices(earlier, items) && ThresholdReached(t, left) in LastNotices(later, items)
      ensures false
    {
      ThresholdsAreNotNegative(items, t);
    }
  }
}
