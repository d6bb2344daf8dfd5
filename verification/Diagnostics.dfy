/**
 The diagnostic log that the extension keeps in local storage: compressed batches, appended to at the
 end and pruned at the front by age and by number.
 */
module Diagnostics {
  const EVENTS_PER_BATCH := 100
  const MAX_EVENTS := 10000
  const RETENTION_MS := 30 * 24 * 60 * 60 * 1000

  datatype Event = Event(timestamp: int, text: string)

  /** events stands for the compressed list. */
  datatype Batch = Batch(firstAt: int, lastAt: int, count: nat, events: seq<Event>, pending: bool)

  function Count(stored: seq<Batch>): nat {
    if stored == [] then 0 else stored[0].count + Count(stored[1..])
  }

  function Flat(stored: seq<Batch>): seq<Event> {
    if stored == [] then [] else stored[0].events + Flat(stored[1..])
  }

  function Appended(stored: seq<Batch>, e: Event): seq<Batch> {
    var n := |stored|;
    if n > 0 && stored[n-1].count < EVENTS_PER_BATCH then
      var events := stored[n-1].events + [e];
      stored[..n-1] + [stored[n-1].(lastAt := e.timestamp, count := |events|, events := events, pending := true)]
    else
      stored + [Batch(e.timestamp, e.timestamp, 1, [e], true)]
  }

  function NotBefore(events: seq<Event>, cutoff: int): seq<Event> {
    if events == [] then []
    else
      var rest := NotBefore(events[1..], cutoff);
      if events[0].timestamp >= cutoff then [events[0]] + rest else rest
  }

  function Max(a: int, b: int): int {
    if a > b then a else b
  }

  function Min(a: int, b: int): int {
    if a < b then a else b
  }

  /** What is kept of the oldest batch when there are count events in all. */
  function Kept(oldest: Batch, count: int, cutoff: int): seq<Event> {
    var recent := NotBefore(oldest.events, cutoff);
    var keepCount := Max(0, Min(|recent|, MAX_EVENTS - (count - |oldest.events|)));
    recent[Max(0, |recent| - keepCount)..]
  }

  function Shortened(oldest: Batch, keep: seq<Event>): Batch
    requires keep != []
  {
    oldest.(firstAt := keep[0].timestamp, lastAt := keep[|keep|-1].timestamp, count := |keep|, events := keep)
  }

  function Pruned(stored: seq<Batch>, count: int, cutoff: int): seq<Batch> {
    if stored == [] || !(stored[0].lastAt < cutoff || count > MAX_EVENTS) then stored
    else
      var keep := Kept(stored[0], count, cutoff);
      if keep != [] then [Shortened(stored[0], keep)] + stored[1..]
      else Pruned(stored[1..], count - |stored[0].events|, cutoff)
  }

  lemma PrunedNext(stored: seq<Batch>, count: int, cutoff: int, keep: seq<Event>)
    requires stored != [] && (stored[0].lastAt < cutoff || count > MAX_EVENTS) && keep == Kept(stored[0], count, cutoff)
    ensures Pruned(stored, count, cutoff) ==
      if keep != [] then stored[0 := Shortened(stored[0], keep)] else Pruned(stored[1..], count - |stored[0].events|, cutoff)
  {
    if keep != [] { assert stored[0 := Shortened(stored[0], keep)] == [Shortened(stored[0], keep)] + stored[1..]; }
  }

  function Logged(stored: seq<Batch>, e: Event, cutoff: int): seq<Batch> {
    Pruned(Appended(stored, e), Count(Appended(stored, e)), cutoff)
  }

  /** The storage key of the batches, updated in place. */
  class Storage {
    var stored: seq<Batch>

    constructor ()
      ensures stored == []
    {
      stored := [];
    }

    /** The newest batch takes the event, or a new one begins. */
    method Append(e: Event)
      modifies this
      ensures stored == Appended(old(stored), e)
    {
      var n := |stored|;
      if n > 0 && stored[n-1].count < EVENTS_PER_BATCH {
        var events := stored[n-1].events + [e];
        stored := stored[n-1 := stored[n-1].(lastAt := e.timestamp, count := |events|, events := events, pending := true)];
      } else {
        stored := stored + [Batch(e.timestamp, e.timestamp, 1, [e], true)];
      }
    }

    /** First in, first out: the oldest events go, never the newest. */
    method Prune(total: int, cutoff: int)
      modifies this
      ensures stored == Pruned(old(stored), total, cutoff)
    {
      var count := total;
      while stored != [] && (stored[0].lastAt < cutoff || count > MAX_EVENTS)
        invariant Pruned(stored, count, cutoff) == Pruned(old(stored), total, cutoff)
        decreases |stored|
      {
        var oldest := stored[0];
        var keep := Kept(oldest, count, cutoff);
        PrunedNext(stored, count, cutoff, keep);
        count := count - |oldest.events|;
        if keep != [] {
          stored := stored[0 := Shortened(oldest, keep)];
          count := count + |keep|;
          break;
        }
        stored := stored[1..];
      }
    }

    method LogDiagnostic(e: Event, now: int)
      modifies this
      ensures stored == Logged(old(stored), e, now - RETENTION_MS)
    {
      Append(e);
      var count := Total(stored);
      Prune(count, now - RETENTION_MS);
    }
  }

  method Total(stored: seq<Batch>) returns (count: nat)
    ensures count == Count(stored)
  {
    count := 0;
    for i := 0 to |stored|
      invariant count + Count(stored[i..]) == Count(stored)
    {
      count := count + stored[i].count;
    }
  }

  // ------------------------------------------------------------------ what one call keeps

  predicate InOrder(events: seq<Event>) {
    forall i, j | 0 <= i <= j < |events| :: events[i].timestamp <= events[j].timestamp
  }

  predicate GoodBatch(b: Batch) {
    && 1 <= |b.events| <= 100 && b.count == |b.events|
    && b.firstAt == b.events[0].timestamp && b.lastAt == b.events[|b.events|-1].timestamp
  }

  predicate Good(stored: seq<Batch>) {
    (forall b | b in stored :: GoodBatch(b)) && InOrder(Flat(stored))
  }

  lemma {:induction false} CountIsLength(stored: seq<Batch>)
    requires forall b | b in stored :: GoodBatch(b)
    ensures Count(stored) == |Flat(stored)|
  {
    if stored != [] {
      assert stored[0] in stored;
      CountIsLength(stored[1..]);
    }
  }

  lemma {:induction false} FlatJoins(a: seq<Batch>, b: seq<Batch>)
    ensures Flat(a + b) == Flat(a) + Flat(b)
  {
    if a == [] {
      assert a + b == b;
    } else {
      assert (a + b)[1..] == a[1..] + b;
      FlatJoins(a[1..], b);
    }
  }

  lemma OrderSplits(a: seq<Event>, b: seq<Event>)
    requires InOrder(a + b)
    ensures InOrder(a) && InOrder(b)
    ensures forall i, j | 0 <= i < |a| && 0 <= j < |b| :: a[i].timestamp <= b[j].timestamp
  {
    var all := a + b;
    assert all[..|a|] == a && all[|a|..] == b;
    forall i, j | 0 <= i < |a| && 0 <= j < |b| ensures a[i].timestamp <= b[j].timestamp {
      assert all[i] == a[i] && all[|a| + j] == b[j];
    }
    forall i, j | 0 <= i <= j < |b| ensures b[i].timestamp <= b[j].timestamp {
      assert all[|a| + i] == b[i] && all[|a| + j] == b[j];
    }
  }

  lemma {:induction false} GoodParts(stored: seq<Batch>)
    requires Good(stored) && stored != []
    ensures GoodBatch(stored[0]) && InOrder(stored[0].events) && Good(stored[1..])
    ensures forall i, j | 0 <= i < |stored[0].events| && 0 <= j < |Flat(stored[1..])| ::
      stored[0].events[i].timestamp <= Flat(stored[1..])[j].timestamp
  {
    assert stored[0] in stored;
    OrderSplits(stored[0].events, Flat(stored[1..]));
  }

  lemma NewestStaysInOrder(events: seq<Event>, e: Event)
    requires InOrder(events) && forall f | f in events :: f.timestamp <= e.timestamp
    ensures InOrder(events + [e])
  {
    forall i | 0 <= i < |events| ensures events[i].timestamp <= e.timestamp { assert events[i] in events; }
  }

  lemma {:induction false} AppendedIsFlat(stored: seq<Batch>, e: Event)
    ensures Flat(Appended(stored, e)) == Flat(stored) + [e]
  {
    var n := |stored|;
    if n > 0 && stored[n-1].count < EVENTS_PER_BATCH {
      var grown := Appended(stored, e)[n-1];
      FlatJoins(stored[..n-1], [stored[n-1]]);
      FlatJoins(stored[..n-1], [grown]);
      assert stored == stored[..n-1] + [stored[n-1]];
      assert Flat([grown]) == Flat([stored[n-1]]) + [e];
    } else {
      var begun := Batch(e.timestamp, e.timestamp, 1, [e], true);
      FlatJoins(stored, [begun]);
      assert Flat([begun]) == [e];
    }
  }

  lemma {:induction false} AppendedIsGood(stored: seq<Batch>, e: Event)
    requires Good(stored) && forall f | f in Flat(stored) :: f.timestamp <= e.timestamp
    ensures Flat(Appended(stored, e)) == Flat(stored) + [e] && Good(Appended(stored, e))
  {
    AppendedIsFlat(stored, e);
    NewestStaysInOrder(Flat(stored), e);
    var n := |stored|;
    if n > 0 { assert stored[n-1] in stored; }
    forall b | b in Appended(stored, e) ensures GoodBatch(b) {}
  }

  predicate IsEnd<T(==)>(suffix: seq<T>, whole: seq<T>) {
    |suffix| <= |whole| && suffix == whole[|whole| - |suffix|..]
  }

  /** The events that are not past the cutoff are the last ones. */
  lemma {:induction false} RecentAreLast(events: seq<Event>, cutoff: int)
    requires InOrder(events)
    ensures var recent := NotBefore(events, cutoff);
            && IsEnd(recent, events)
            && (forall i | 0 <= i < |events| - |recent| :: events[i].timestamp < cutoff)
            && (forall i | |events| - |recent| <= i < |events| :: events[i].timestamp >= cutoff)
  {
    if events != [] {
      RecentAreLast(events[1..], cutoff);
      var rest := NotBefore(events[1..], cutoff);
      if events[0].timestamp >= cutoff {
        forall i | 0 <= i < |events[1..]| ensures events[1..][i].timestamp >= cutoff { assert events[0].timestamp <= events[i+1].timestamp; }
        assert |rest| == |events[1..]|;
      } else {
        forall i | 0 <= i < |events| - |rest| ensures events[i].timestamp < cutoff {
          if i > 0 { assert events[i] == events[1..][i-1]; }
        }
        forall i | |events| - |rest| <= i < |events| ensures events[i].timestamp >= cutoff { assert events[i] == events[1..][i-1]; }
      }
    }
  }

  lemma KeptAreLast(oldest: Batch, count: int, cutoff: int)
    requires InOrder(oldest.events)
    ensures var keep, others := Kept(oldest, count, cutoff), count - |oldest.events|;
            && IsEnd(keep, oldest.events)
            && (forall i | 0 <= i < |keep| :: keep[i].timestamp >= cutoff)
            && (keep != [] ==> |keep| + others <= MAX_EVENTS)
            && ((forall i | 0 <= i < |oldest.events| - |keep| :: oldest.events[i].timestamp < cutoff)
                || |keep| + others == MAX_EVENTS || (keep == [] && others >= MAX_EVENTS))
  {
    RecentAreLast(oldest.events, cutoff);
  }

  /** What pruning leaves: the newest events, in good batches none of which is wholly past the cutoff, and
      no more than the limit.  What it takes is past the cutoff, or gives way to a full log. */
  ghost predicate PrunedWell(all: seq<Event>, r: seq<Batch>, cutoff: int) {
    var kept := Flat(r);
    && Good(r) && |kept| <= MAX_EVENTS && IsEnd(kept, all)
    && (forall b | b in r :: b.lastAt >= cutoff)
    && (forall i | 0 <= i < |all| - |kept| :: all[i].timestamp < cutoff || |kept| == MAX_EVENTS)
  }

  lemma {:induction false} ShortenedIsGood(stored: seq<Batch>, keep: seq<Event>, cut: nat)
    requires Good(stored) && stored != [] && cut < |stored[0].events| && keep == stored[0].events[cut..]
    ensures var r := [Shortened(stored[0], keep)] + stored[1..];
            Good(r) && Flat(r) == Flat(stored)[cut..]
  {
    var r, all := [Shortened(stored[0], keep)] + stored[1..], Flat(stored);
    GoodParts(stored);
    assert r[1..] == stored[1..];
    assert Flat(r) == all[cut..];
    forall i, j | 0 <= i <= j < |Flat(r)| ensures Flat(r)[i].timestamp <= Flat(r)[j].timestamp {
      assert all[cut + i].timestamp <= all[cut + j].timestamp;
    }
  }

  /** The events that a shortened batch loses. */
  lemma {:induction false} ShortenedLoses(stored: seq<Batch>, cutoff: int)
    requires Good(stored) && stored != [] && Kept(stored[0], |Flat(stored)|, cutoff) != []
    ensures var keep, all := Kept(stored[0], |Flat(stored)|, cutoff), Flat(stored);
            var cut := |stored[0].events| - |keep|;
            && 0 <= cut < |stored[0].events| && keep == stored[0].events[cut..] && keep[|keep|-1].timestamp >= cutoff
            && |all| - cut <= MAX_EVENTS
            && (forall i | 0 <= i < cut :: all[i].timestamp < cutoff || |all| - cut == MAX_EVENTS)
  {
    GoodParts(stored);
    KeptAreLast(stored[0], |Flat(stored)|, cutoff);
  }

  lemma {:induction false} ShortenedIsPrunedWell(stored: seq<Batch>, cutoff: int)
    requires Good(stored) && stored != [] && Kept(stored[0], |Flat(stored)|, cutoff) != []
    ensures PrunedWell(Flat(stored), [Shortened(stored[0], Kept(stored[0], |Flat(stored)|, cutoff))] + stored[1..], cutoff)
  {
    var keep := Kept(stored[0], |Flat(stored)|, cutoff);
    ShortenedLoses(stored, cutoff);
    ShortenedIsGood(stored, keep, |stored[0].events| - |keep|);
    LastStampsAreRecent([Shortened(stored[0], keep)] + stored[1..], cutoff);
  }

  /** In an ordered log whose first batch ends at the cutoff or later, every batch does. */
  lemma {:induction false} LastStampsAreRecent(stored: seq<Batch>, cutoff: int)
    requires Good(stored) && (stored != [] ==> stored[0].lastAt >= cutoff)
    ensures forall b | b in stored :: b.lastAt >= cutoff
  {
    if |stored| > 1 {
      GoodParts(stored);
      GoodParts(stored[1..]);
      var first, next := stored[0].events, stored[1].events;
      assert Flat(stored[1..])[|next|-1] == next[|next|-1];
      assert first[|first|-1].timestamp <= next[|next|-1].timestamp;
      LastStampsAreRecent(stored[1..], cutoff);
      assert stored == [stored[0]] + stored[1..];
    }
  }

  lemma {:induction false} UnprunedIsSound(stored: seq<Batch>, cutoff: int)
    requires Good(stored) && |Flat(stored)| <= MAX_EVENTS && (stored != [] ==> stored[0].lastAt >= cutoff)
    ensures PrunedWell(Flat(stored), stored, cutoff)
  {
    LastStampsAreRecent(stored, cutoff);
  }

  lemma {:induction false} PruningIsSound(stored: seq<Batch>, cutoff: int)
    requires Good(stored)
    ensures PrunedWell(Flat(stored), Pruned(stored, |Flat(stored)|, cutoff), cutoff)
  {
    var r := Pruned(stored, |Flat(stored)|, cutoff);
    if stored == [] || !(stored[0].lastAt < cutoff || |Flat(stored)| > MAX_EVENTS) {
      assert r == stored;
      UnprunedIsSound(stored, cutoff);
    } else if Kept(stored[0], |Flat(stored)|, cutoff) != [] {
      assert r == [Shortened(stored[0], Kept(stored[0], |Flat(stored)|, cutoff))] + stored[1..];
      ShortenedIsPrunedWell(stored, cutoff);
    } else {
      GoodParts(stored);
      PruningIsSound(stored[1..], cutoff);
      assert |Flat(stored[1..])| == |Flat(stored)| - |stored[0].events|;
      assert r == Pruned(stored[1..], |Flat(stored[1..])|, cutoff);
      DroppedBatchIsAccounted(stored, r, cutoff);
    }
  }

  /** A batch that is dropped whole is older than whatever else is dropped. */
  lemma {:induction false} DroppedBatchIsAccounted(stored: seq<Batch>, r: seq<Batch>, cutoff: int)
    requires Good(stored) && stored != [] && PrunedWell(Flat(stored[1..]), r, cutoff)
    requires Kept(stored[0], |Flat(stored)|, cutoff) == []
    ensures PrunedWell(Flat(stored), r, cutoff)
  {
    var all, rest, kept, n := Flat(stored), Flat(stored[1..]), Flat(r), |stored[0].events|;
    GoodParts(stored);
    KeptAreLast(stored[0], |all|, cutoff);
    assert all == stored[0].events + rest;
    assert all[|all| - |kept|..] == rest[|rest| - |kept|..];
    forall i | 0 <= i < |all| - |kept| && |kept| != MAX_EVENTS ensures all[i].timestamp < cutoff {
      if i < n {
        if |rest| >= MAX_EVENTS { assert stored[0].events[i].timestamp <= rest[0].timestamp; }
      } else {
        assert all[i] == rest[i - n];
      }
    }
  }

  /** One call of logDiagnostic with a timestamp no older than those before it. */
  lemma {:induction false} LoggingKeepsTheNewest(stored: seq<Batch>, e: Event, cutoff: int)
    requires Good(stored) && forall f | f in Flat(stored) :: f.timestamp <= e.timestamp
    ensures var r := Logged(stored, e, cutoff);
            && PrunedWell(Flat(stored) + [e], r, cutoff)
            && (e.timestamp >= cutoff ==> Flat(r) != [] && Flat(r)[|Flat(r)|-1] == e)
  {
    AppendedIsGood(stored, e);
    CountIsLength(Appended(stored, e));
    PruningIsSound(Appended(stored, e), cutoff);
    var all := Flat(stored) + [e];
    assert all[|all| - 1] == e;
  }

  /** From shift on, these are the batches: each waits or does not, as it did, and all but the first are the same. */
  ghost predicate SameBatches(stored: seq<Batch>, r: seq<Batch>, shift: nat) {
    && |r| + shift == |stored|
    && (forall j | 0 <= j < |r| :: r[j].pending == stored[shift + j].pending)
    && (forall j | 0 < j < |r| :: r[j] == stored[shift + j])
  }

  lemma UnprunedIsSame(stored: seq<Batch>)
    ensures SameBatches(stored, stored, 0)
  {
  }

  lemma ShortenedIsSame(stored: seq<Batch>, keep: seq<Event>)
    requires stored != [] && keep != []
    ensures SameBatches(stored, [Shortened(stored[0], keep)] + stored[1..], 0)
  {
  }

  lemma DroppedIsSame(stored: seq<Batch>, r: seq<Batch>, shift: nat)
    requires stored != [] && SameBatches(stored[1..], r, shift)
    ensures SameBatches(stored, r, shift + 1)
  {
  }

  /** Pruning drops batches at the front and may shorten the first that stays; it changes nothing else. */
  lemma {:induction false} PrunedBatches(stored: seq<Batch>, count: int, cutoff: int, r: seq<Batch>) returns (shift: nat)
    requires r == Pruned(stored, count, cutoff)
    ensures SameBatches(stored, r, shift)
  {
    if stored == [] || !(stored[0].lastAt < cutoff || count > MAX_EVENTS) {
      UnprunedIsSame(stored);
      shift := 0;
    } else if Kept(stored[0], count, cutoff) != [] {
      ShortenedIsSame(stored, Kept(stored[0], count, cutoff));
      shift := 0;
    } else {
      shift := PrunedBatches(stored[1..], count - |stored[0].events|, cutoff, r);
      DroppedIsSame(stored, r, shift);
      shift := shift + 1;
    }
  }

  lemma AppendedWaits(stored: seq<Batch>, e: Event, all: seq<Batch>)
    requires all == Appended(stored, e)
    ensures all != [] && all[|all|-1].pending && forall j | 0 <= j < |all| - 1 :: j < |stored| && all[j] == stored[j]
  {
  }

  /** The batch that holds the new event waits to be uploaded, and the others wait or do not, as they did before. */
  lemma NewEventIsPending(stored: seq<Batch>, e: Event, cutoff: int, r: seq<Batch>) returns (shift: nat)
    requires Good(stored) && (forall f | f in Flat(stored) :: f.timestamp <= e.timestamp) && e.timestamp >= cutoff
    requires r == Logged(stored, e, cutoff)
    ensures r != [] && r[|r|-1].pending
    ensures forall j | 0 <= j < |r| - 1 :: shift + j < |stored| && r[j].pending == stored[shift + j].pending
  {
    var all := Appended(stored, e);
    AppendedWaits(stored, e, all);
    shift := PrunedBatches(all, Count(all), cutoff, r);
    assert r != [] by { LoggingKeepsTheNewest(stored, e, cutoff); }
  }

  // ------------------------------------------------------------------ whole logs

  /** One call: the event, and the clock when it pruned. */
  datatype Entry = Entry(event: Event, now: int)

  /** The clock never goes back, within a call or between calls. */
  predicate Clocked(entries: seq<Entry>) {
    && (forall i | 0 <= i < |entries| :: entries[i].event.timestamp <= entries[i].now)
    && (forall i, j | 0 <= i < j < |entries| :: entries[i].now <= entries[j].event.timestamp)
  }

  function Events(entries: seq<Entry>): (r: seq<Event>)
    ensures |r| == |entries| && forall i | 0 <= i < |entries| :: r[i] == entries[i].event
  {
    seq(|entries|, i requires 0 <= i < |entries| => entries[i].event)
  }

  /** What one call makes of what was stored. */
  ghost predicate Follows(stored: seq<Batch>, entry: Entry, after: seq<Batch>) {
    after == Logged(stored, entry.event, entry.now - RETENTION_MS)
  }

  function After(entries: seq<Entry>): seq<Batch> {
    if entries == [] then []
    else
      var last := entries[|entries|-1];
      Logged(After(entries[..|entries|-1]), last.event, last.now - RETENTION_MS)
  }

  predicate NoneNewer(events: seq<Event>, e: Event) {
    forall i | 0 <= i < |events| :: events[i].timestamp <= e.timestamp
  }

  /** Of these events, logged until now, the newest are stored, at most 10000 of them, in good batches none of
      which is wholly past the cutoff; the very last is among them unless it is past the cutoff itself; and every
      event that is missing is more than 30 days old or was followed by 10000 others. */
  ghost predicate RecentPast(events: seq<Event>, now: int, stored: seq<Batch>) {
    var kept := Flat(stored);
    && Good(stored) && |kept| <= 10000 && IsEnd(kept, events)
    && MissingArePast(events, now, |kept|)
    && (forall b | b in stored :: b.lastAt >= now - 2592000000)
    && LastIsThere(events, now, kept)
  }

  /** Without its last kept events, a log misses only what is past the cutoff or behind a full log. */
  predicate MissingArePast(events: seq<Event>, now: int, kept: nat) {
    forall i | 0 <= i < |events| - kept :: events[i].timestamp < now - 2592000000 || i + 10000 < |events|
  }

  predicate LastIsThere(events: seq<Event>, now: int, kept: seq<Event>) {
    events != [] && events[|events|-1].timestamp >= now - 2592000000 ==> kept != [] && kept[|kept|-1] == events[|events|-1]
  }

  lemma SuffixGrows<T>(whole: seq<T>, suffix: seq<T>, x: T, kept: seq<T>)
    requires IsEnd(suffix, whole) && IsEnd(kept, suffix + [x])
    ensures IsEnd(kept, whole + [x])
  {
    var k := |whole| - |suffix|;
    forall i | 0 <= i < |kept| ensures kept[i] == (whole + [x])[|whole| + 1 - |kept| + i] {
      var j := |suffix| + 1 - |kept| + i;
      assert kept[i] == (suffix + [x])[j];
      if j < |suffix| { assert suffix[j] == whole[k + j]; }
    }
  }

  /** An event is missing because it was missing before, or because it is dropped now. */
  lemma MissingIsOld(events: seq<Event>, was: int, stored: seq<Batch>, e: Event, now: int, kept: seq<Event>, i: nat)
    requires RecentPast(events, was, stored) && was <= now
    requires |kept| <= |Flat(stored)| + 1 && i < |events| + 1 - |kept|
    requires forall j | 0 <= j < |Flat(stored)| + 1 - |kept| ::
      (Flat(stored) + [e])[j].timestamp < now - RETENTION_MS || |kept| == MAX_EVENTS
    ensures (events + [e])[i].timestamp < now - RETENTION_MS || i + MAX_EVENTS < |events| + 1
  {
    var k := |events| - |Flat(stored)|;
    if i >= k {
      assert (Flat(stored) + [e])[i - k] == (events + [e])[i];
    }
  }

  /** The last event of all is dropped only if it is past the cutoff. */
  lemma LastIsKept(all: seq<Event>, r: seq<Batch>, cutoff: int)
    requires PrunedWell(all, r, cutoff) && all != [] && all[|all|-1].timestamp >= cutoff
    ensures Flat(r) != [] && Flat(r)[|Flat(r)|-1] == all[|all|-1]
  {
    var last := all[|all|-1];
    assert |all| - 1 < |all| - |Flat(r)| ==> last.timestamp < cutoff || |Flat(r)| == MAX_EVENTS;
  }

  lemma OneMoreEvent(events: seq<Event>, was: int, stored: seq<Batch>, e: Event, now: int, r: seq<Batch>)
    requires RecentPast(events, was, stored) && was <= now
    requires PrunedWell(Flat(stored) + [e], r, now - RETENTION_MS)
    ensures RecentPast(events + [e], now, r)
  {
    NewestStay(events, was, stored, e, now, r);
    AllMissingAreOld(events, was, stored, e, now, r);
    LastIsStillThere(events, Flat(stored), e, now, r);
  }

  lemma NewestStay(events: seq<Event>, was: int, stored: seq<Batch>, e: Event, now: int, r: seq<Batch>)
    requires RecentPast(events, was, stored)
    requires PrunedWell(Flat(stored) + [e], r, now - RETENTION_MS)
    ensures IsEnd(Flat(r), events + [e])
  {
    SuffixGrows(events, Flat(stored), e, Flat(r));
  }

  lemma LastIsStillThere(events: seq<Event>, suffix: seq<Event>, e: Event, now: int, r: seq<Batch>)
    requires PrunedWell(suffix + [e], r, now - RETENTION_MS)
    ensures LastIsThere(events + [e], now, Flat(r))
  {
    if e.timestamp >= now - RETENTION_MS { LastIsKept(suffix + [e], r, now - RETENTION_MS); }
  }

  lemma AllMissingAreOld(events: seq<Event>, was: int, stored: seq<Batch>, e: Event, now: int, r: seq<Batch>)
    requires RecentPast(events, was, stored) && was <= now
    requires PrunedWell(Flat(stored) + [e], r, now - RETENTION_MS)
    ensures MissingArePast(events + [e], now, |Flat(r)|)
  {
    forall i | 0 <= i < |events| + 1 - |Flat(r)|
      ensures (events + [e])[i].timestamp < now - RETENTION_MS || i + MAX_EVENTS < |events| + 1
    {
      MissingIsOld(events, was, stored, e, now, Flat(r), i);
    }
  }

  /** What is stored is no newer than the next event. */
  lemma StoredIsOlder(events: seq<Event>, was: int, stored: seq<Batch>, e: Event)
    requires RecentPast(events, was, stored) && NoneNewer(events, e)
    ensures forall f | f in Flat(stored) :: f.timestamp <= e.timestamp
  {
    var kept := Flat(stored);
    forall f | f in kept ensures f.timestamp <= e.timestamp {
      var j :| 0 <= j < |kept| && kept[j] == f;
      assert events[|events| - |kept| + j] == f;
    }
  }

  lemma NextEvent(events: seq<Event>, was: int, stored: seq<Batch>, entry: Entry, after: seq<Batch>)
    requires RecentPast(events, was, stored) && was <= entry.now && NoneNewer(events, entry.event)
    requires Follows(stored, entry, after)
    ensures RecentPast(events + [entry.event], entry.now, after)
  {
    StoredIsOlder(events, was, stored, entry.event);
    LoggingKeepsTheNewest(stored, entry.event, entry.now - RETENTION_MS);
    OneMoreEvent(events, was, stored, entry.event, entry.now, after);
  }

  /** The clock when the last call pruned. */
  function LastNow(entries: seq<Entry>): int {
    if entries == [] then 0 else entries[|entries|-1].now
  }

  lemma AfterFollows(entries: seq<Entry>)
    requires entries != []
    ensures Follows(After(entries[..|entries|-1]), entries[|entries|-1], After(entries))
  {
  }

  lemma ClockedBefore(entries: seq<Entry>)
    requires Clocked(entries) && entries != []
    ensures var before, last := entries[..|entries|-1], entries[|entries|-1];
            && Clocked(before) && (before != [] ==> LastNow(before) <= last.now)
            && NoneNewer(Events(before), last.event)
            && Events(entries) == Events(before) + [last.event]
  {
    var before, last := entries[..|entries|-1], entries[|entries|-1];
    forall i | 0 <= i < |before| ensures before[i] == entries[i] && Events(before)[i].timestamp <= last.event.timestamp {
      assert entries[i].event.timestamp <= entries[i].now <= last.event.timestamp;
    }
  }

  lemma NothingIsLogged(now: int)
    ensures RecentPast(Events([]), now, After([]))
  {
    assert Flat(After([])) == [] && Events([]) == [];
  }

  lemma NextCall(entries: seq<Entry>, was: int, events: seq<Event>, now: int, stored: seq<Batch>)
    requires Clocked(entries) && entries != [] && was <= now
    requires events == Events(entries) && now == LastNow(entries) && stored == After(entries)
    requires RecentPast(Events(entries[..|entries|-1]), was, After(entries[..|entries|-1]))
    ensures RecentPast(events, now, stored)
  {
    var before, last := entries[..|entries|-1], entries[|entries|-1];
    AfterFollows(entries);
    ClockedBefore(entries);
    NextEvent(Events(before), was, After(before), last, stored);
    assert events == Events(before) + [last.event];
  }

  lemma {:induction false} LogSoFar(entries: seq<Entry>, events: seq<Event>, now: int, stored: seq<Batch>)
    requires Clocked(entries) && events == Events(entries) && stored == After(entries)
    requires entries != [] ==> now == LastNow(entries)
    ensures RecentPast(events, now, stored)
    decreases |entries|
  {
    if entries == [] {
      NothingIsLogged(now);
    } else {
      var before := entries[..|entries|-1];
      var was := if before == [] then now else LastNow(before);
      ClockedBefore(entries);
      LogSoFar(before, Events(before), was, After(before));
      NextCall(entries, was, events, now, stored);
    }
  }

  /** After any number of calls with a clock that never goes back. */
  lemma TheLogIsTheRecentPast(entries: seq<Entry>)
    requires Clocked(entries)
    ensures RecentPast(Events(entries), LastNow(entries), After(entries))
  {
    LogSoFar(entries, Events(entries), LastNow(entries), After(entries));
  }
}
