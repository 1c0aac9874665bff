/**
  The weighted-time sweep of `report_build_time_ninja.py`.

  Times are integer milliseconds, as in the ninja log.  At every tick the wall
  clock is shared equally by the targets running then; a target's weighted
  duration is the sum of its shares.
 */
module BuildTimeSweep {
  import opened Collections
  import opened StableSort

  datatype Target = Target(start: int, end: int)

  datatype Action = Start | Stop

  datatype Event = Event(time: int, action: Action, target: int)

  ghost predicate WellTimed(targets: seq<Target>) {
    forall i :: 0 <= i < |targets| ==> targets[i].start <= targets[i].end
  }

  // ---------------------------------------------------------------- per-tick meaning

  predicate RunsAt(t: Target, tick: int) {
    t.start <= tick < t.end
  }

  function Running(targets: seq<Target>, tick: int): nat {
    if targets == [] then 0
    else
      Running(targets[..|targets| - 1], tick) + (if RunsAt(targets[|targets| - 1], tick) then 1 else 0)
  }

  /** One running target's share of a tick. */
  function Share(targets: seq<Target>, tick: int): real {
    var n := Running(targets, tick);
    if n == 0 then 0.0 else 1.0 / n as real
  }

  /** Shares of the ticks from .. until - 1. */
  function Accumulated(targets: seq<Target>, from: int, until: int): real
    decreases until - from
  {
    if until <= from then 0.0 else Accumulated(targets, from, until - 1) + Share(targets, until - 1)
  }

  /** Ticks in from .. until - 1 at which something runs. */
  function BusyTicks(targets: seq<Target>, from: int, until: int): nat
    decreases until - from
  {
    if until <= from then 0
    else BusyTicks(targets, from, until - 1) + (if Running(targets, until - 1) > 0 then 1 else 0)
  }

  lemma {:induction false} AccumulatedSplit(targets: seq<Target>, a: int, b: int, c: int)
    requires a <= b <= c
    ensures Accumulated(targets, a, c) == Accumulated(targets, a, b) + Accumulated(targets, b, c)
    decreases c - b
  {
    if b < c {
      AccumulatedSplit(targets, a, b, c - 1);
    }
  }

  lemma {:induction false} AccumulatedConstant(targets: seq<Target>, a: int, b: int, share: real)
    requires a <= b && forall y :: a <= y < b ==> Share(targets, y) == share
    ensures Accumulated(targets, a, b) == (b - a) as real * share
    decreases b - a
  {
    if a < b {
      AccumulatedConstant(targets, a, b - 1, share);
      assert Share(targets, b - 1) == share;
      assert (b - a) as real * share == (b - 1 - a) as real * share + share;
    }
  }

  lemma {:induction false} AccumulatedBounds(targets: seq<Target>, a: int, b: int)
    requires a <= b
    ensures 0.0 <= Accumulated(targets, a, b) <= (b - a) as real
    decreases b - a
  {
    if a < b {
      AccumulatedBounds(targets, a, b - 1);
      ShareBounds(Running(targets, b - 1));
    }
  }

  lemma ShareBounds(n: nat)
    ensures n > 0 ==> 0.0 < 1.0 / n as real <= 1.0
  {}

  // ---------------------------------------------------------------- conservation

  /** What target `t` takes of a tick. */
  function Taken(targets: seq<Target>, t: Target, tick: int): real {
    if RunsAt(t, tick) then Share(targets, tick) else 0.0
  }

  function TakenOver(targets: seq<Target>, t: Target, from: int, until: int): real
    decreases until - from
  {
    if until <= from then 0.0 else TakenOver(targets, t, from, until - 1) + Taken(targets, t, until - 1)
  }

  /** The first `m` targets together, over a stretch of ticks and at one tick. */
  function AllTakenOver(targets: seq<Target>, m: nat, from: int, until: int): real
    requires m <= |targets|
  {
    if m == 0 then 0.0
    else AllTakenOver(targets, m - 1, from, until) + TakenOver(targets, targets[m - 1], from, until)
  }

  function AllTaken(targets: seq<Target>, m: nat, tick: int): real
    requires m <= |targets|
  {
    if m == 0 then 0.0 else AllTaken(targets, m - 1, tick) + Taken(targets, targets[m - 1], tick)
  }

  lemma {:induction false} OneTickMore(targets: seq<Target>, m: nat, from: int, until: int)
    requires m <= |targets| && from < until
    ensures AllTakenOver(targets, m, from, until) ==
            AllTakenOver(targets, m, from, until - 1) + AllTaken(targets, m, until - 1)
  {
    if m > 0 {
      OneTickMore(targets, m - 1, from, until);
    }
  }

  lemma {:induction false} TickIsShared(targets: seq<Target>, m: nat, tick: int)
    requires m <= |targets|
    ensures AllTaken(targets, m, tick) == Running(targets[..m], tick) as real * Share(targets, tick)
  {
    if m > 0 {
      TickIsShared(targets, m - 1, tick);
      assert targets[..m][..m - 1] == targets[..m - 1];
      var share, r := Share(targets, tick), Running(targets[..m - 1], tick) as real;
      assert (r + 1.0) * share == r * share + share;
    }
  }

  lemma {:induction false} TicksAreConserved(targets: seq<Target>, from: int, until: int)
    ensures AllTakenOver(targets, |targets|, from, until) == BusyTicks(targets, from, until) as real
    decreases until - from
  {
    if until <= from {
      NothingTaken(targets, |targets|, from, until);
    } else {
      TicksAreConserved(targets, from, until - 1);
      OneTickMore(targets, |targets|, from, until);
      TickIsShared(targets, |targets|, until - 1);
      assert targets[..|targets|] == targets;
      WholeTick(Running(targets, until - 1));
    }
  }

  lemma WholeTick(n: nat)
    ensures n > 0 ==> n as real * (1.0 / n as real) == 1.0
  {}

  lemma {:induction false} NothingTaken(targets: seq<Target>, m: nat, from: int, until: int)
    requires m <= |targets| && until <= from
    ensures AllTakenOver(targets, m, from, until) == 0.0
  {
    if m > 0 {
      NothingTaken(targets, m - 1, from, until);
    }
  }

  /** A target takes shares only while it runs. */
  lemma {:induction false} TakenWhileRunning(targets: seq<Target>, t: Target, from: int, until: int)
    requires from <= t.start <= t.end
    ensures TakenOver(targets, t, from, until) ==
            if until <= t.start then 0.0
            else if until <= t.end then Accumulated(targets, t.start, until)
            else Accumulated(targets, t.start, t.end)
    decreases until - from
  {
    if from < until {
      TakenWhileRunning(targets, t, from, until - 1);
    }
  }

  // ---------------------------------------------------------------- the event list

  function EventKey(e: Event): Key {
    (e.time, if e.action == Start then 0 else 1)
  }

  /** `e` is the start or the stop of one of the targets. */
  ghost predicate Describes(targets: seq<Target>, e: Event) {
    && 0 <= e.target < |targets|
    && e.time == if e.action == Start then targets[e.target].start else targets[e.target].end
  }

  /** All events, each once, ordered by time with starts before stops. */
  ghost predicate IsTimeline(targets: seq<Target>, events: seq<Event>) {
    && (forall e :: e in events <==> Describes(targets, e))
    && Distinct(events)
    && Sorted(EventKey, events)
  }

  function StartOf(targets: seq<Target>, i: int): Event
    requires 0 <= i < |targets|
  {
    Event(targets[i].start, Start, i)
  }

  function StopOf(targets: seq<Target>, i: int): Event
    requires 0 <= i < |targets|
  {
    Event(targets[i].end, Stop, i)
  }

  /** Targets whose start but not whose stop is among the first `j` events. */
  ghost function Open(targets: seq<Target>, events: seq<Event>, j: nat): set<int>
    requires j <= |events|
  {
    set i | 0 <= i < |targets| && StartOf(targets, i) in events[..j] && StopOf(targets, i) !in events[..j]
  }

  lemma PrefixBelow(events: seq<Event>, e: Event, j: nat)
    requires Sorted(EventKey, events) && j < |events| && e in events[..j]
    ensures Leq(EventKey(e), EventKey(events[j]))
  {
    var p :| 0 <= p < j && events[p] == e;
    assert Leq(EventKey(events[p]), EventKey(events[j]));
  }

  lemma SuffixAbove(events: seq<Event>, e: Event, j: nat)
    requires Sorted(EventKey, events) && j < |events| && e in events && e !in events[..j]
    ensures Leq(EventKey(events[j]), EventKey(e))
  {
    assert events == events[..j] + events[j..];
    var p :| j <= p < |events| && events[p] == e;
    assert j < p ==> Leq(EventKey(events[j]), EventKey(events[p]));
  }

  /** Between two consecutive events the open targets are exactly the running ones. */
  lemma OpenAreRunning(targets: seq<Target>, events: seq<Event>, j: nat, tick: int, i: int)
    requires WellTimed(targets) && IsTimeline(targets, events) && 0 < j < |events|
    requires events[j - 1].time <= tick < events[j].time && 0 <= i < |targets|
    ensures i in Open(targets, events, j) <==> RunsAt(targets[i], tick)
  {
    assert events[..j] == events[..j - 1] + [events[j - 1]];
    var start, stop := StartOf(targets, i), StopOf(targets, i);
    assert start in events && stop in events;
    SideOfGap(events, start, j);
    SideOfGap(events, stop, j);
  }

  /** An event is behind the gap before position `j`, or ahead of it. */
  lemma SideOfGap(events: seq<Event>, e: Event, j: nat)
    requires Sorted(EventKey, events) && 0 < j < |events| && e in events
    ensures if e in events[..j] then e.time <= events[j - 1].time else events[j].time <= e.time
  {
    assert events[..j] == events[..j - 1] + [events[j - 1]];
    if e !in events[..j] {
      SuffixAbove(events, e, j);
    } else if e in events[..j - 1] {
      PrefixBelow(events, e, j - 1);
    }
  }

  lemma {:induction false} RunningIsCardinality(targets: seq<Target>, tick: int)
    ensures Running(targets, tick) == |set i | 0 <= i < |targets| && RunsAt(targets[i], tick)|
  {
    var all := set i | 0 <= i < |targets| && RunsAt(targets[i], tick);
    if targets != [] {
      var k := |targets| - 1;
      RunningIsCardinality(targets[..k], tick);
      var front := set i | 0 <= i < k && RunsAt(targets[..k][i], tick);
      assert all == if RunsAt(targets[k], tick) then front + {k} else front;
    } else {
      assert all == {};
    }
  }

  /** The clock update before event `j` adds exactly the shares of the ticks in between. */
  lemma {:induction false} AdvanceClock(targets: seq<Target>, events: seq<Event>, j: nat, origin: int)
    requires WellTimed(targets) && IsTimeline(targets, events) && 0 < j < |events|
    requires origin <= events[j - 1].time
    ensures events[j - 1].time <= events[j].time
    ensures var n := |Open(targets, events, j)|;
            Accumulated(targets, origin, events[j].time) ==
            Accumulated(targets, origin, events[j - 1].time) +
            if n > 0 then (events[j].time - events[j - 1].time) as real / n as real else 0.0
  {
    var last, now, open := events[j - 1].time, events[j].time, Open(targets, events, j);
    assert Leq(EventKey(events[j - 1]), EventKey(events[j]));
    var share := if |open| > 0 then 1.0 / |open| as real else 0.0;
    forall y | last <= y < now
      ensures Share(targets, y) == share
    {
      RunningIsCardinality(targets, y);
      forall i | 0 <= i < |targets|
        ensures i in open <==> RunsAt(targets[i], y)
      {
        OpenAreRunning(targets, events, j, y, i);
      }
      assert open == set i | 0 <= i < |targets| && RunsAt(targets[i], y);
    }
    AccumulatedSplit(targets, origin, last, now);
    AccumulatedConstant(targets, last, now, share);
    ShareTimes(now - last, |open|);
  }

  lemma ShareTimes(d: int, n: nat)
    ensures n > 0 ==> d as real * (1.0 / n as real) == d as real / n as real
  {}

  /** A start opens its target; a stop closes a target that is open. */
  lemma EventMovesOpen(targets: seq<Target>, events: seq<Event>, j: nat)
    requires WellTimed(targets) && IsTimeline(targets, events) && j < |events|
    ensures 0 <= events[j].target < |targets|
    ensures var i := events[j].target;
            && (events[j].action == Start ==> i !in Open(targets, events, j))
            && (events[j].action == Start ==> Open(targets, events, j + 1) == Open(targets, events, j) + {i})
            && (events[j].action == Stop ==> i in Open(targets, events, j))
            && (events[j].action == Stop ==> Open(targets, events, j + 1) == Open(targets, events, j) - {i})
  {
    var e := events[j];
    assert e in events;
    var i := e.target;
    var start, stop := StartOf(targets, i), StopOf(targets, i);
    assert events[..j + 1] == events[..j] + [e];
    assert start in events && stop in events;
    assert e !in events[..j];
    if e.action == Start && stop in events[..j] {
      PrefixBelow(events, stop, j);
    }
    if e.action == Stop && start !in events[..j] {
      SuffixAbove(events, start, j);
    }
  }

  // ---------------------------------------------------------------- the code

  function WeightedDuration(targets: seq<Target>, i: int): real
    requires 0 <= i < |targets|
  {
    Accumulated(targets, targets[i].start, targets[i].end)
  }

  lemma {:induction false} TotalUpdate(xs: seq<real>, i: nat, v: real)
    requires i < |xs|
    ensures SumReal(xs[i := v]) == SumReal(xs) - xs[i] + v
  {
    var k := |xs| - 1;
    if i == k {
      assert xs[i := v][..k] == xs[..k];
    } else {
      assert xs[i := v][..k] == xs[..k][i := v];
      TotalUpdate(xs[..k], i, v);
    }
  }

  lemma {:induction false} TotalOfZeros(n: nat)
    ensures SumReal(seq(n, _ => 0.0)) == 0.0
  {
    if n > 0 {
      assert seq(n, _ => 0.0)[..n - 1] == seq(n - 1, _ => 0.0);
      TotalOfZeros(n - 1);
    }
  }

  lemma StartsInOrder(targets: seq<Target>, events: seq<Event>, i: int)
    requires IsTimeline(targets, events) && 0 <= i < |targets|
    ensures events != [] && events[0].time <= targets[i].start
  {
    assert StartOf(targets, i) in events;
    SuffixAbove(events, StartOf(targets, i), 0);
  }

  /** The variables of the sweep loop. */
  datatype Sweeper = Sweeper(running: map<int, real>, lastTime: int, lastWeighted: real,
                             weighted: seq<real>, weightedTotal: real)

  /** What holds of them after the first `j` events. */
  ghost predicate SweptTo(targets: seq<Target>, events: seq<Event>, j: nat, w: Sweeper)
    requires events != [] && j <= |events|
  {
    var origin := events[0].time;
    && w.lastTime == (if j == 0 then origin else events[j - 1].time)
    && origin <= w.lastTime && w.lastWeighted == Accumulated(targets, origin, w.lastTime)
    && w.running.Keys == Open(targets, events, j)
    && (forall i :: i in w.running ==> w.running[i] == Accumulated(targets, origin, targets[i].start))
    && WeightedSoFar(targets, events, j, w.weighted)
    && w.weightedTotal == SumReal(w.weighted)
  }

  ghost predicate WeightedSoFar(targets: seq<Target>, events: seq<Event>, j: nat, weighted: seq<real>)
    requires j <= |events|
  {
    && |weighted| == |targets|
    && forall i :: 0 <= i < |targets| ==>
         weighted[i] == if StopOf(targets, i) in events[..j] then WeightedDuration(targets, i) else 0.0
  }

  /** Bring the weighted clock up to the event's time. */
  method Advance(targets: seq<Target>, events: seq<Event>, j: nat, w: Sweeper) returns (clock: real)
    requires WellTimed(targets) && IsTimeline(targets, events) && j < |events| && SweptTo(targets, events, j, w)
    ensures clock == Accumulated(targets, events[0].time, events[j].time)
    ensures events[0].time <= events[j].time
  {
    clock := w.lastWeighted;
    var numRunning := |w.running|;
    assert numRunning == |w.running.Keys|;
    if j > 0 {
      AdvanceClock(targets, events, j, events[0].time);
    }
    if numRunning > 0 {
      clock := clock + (events[j].time - w.lastTime) as real / numRunning as real;
    }
  }

  /** Handle one start event. */
  method Begin(targets: seq<Target>, events: seq<Event>, j: nat, w: Sweeper) returns (w': Sweeper)
    requires WellTimed(targets) && IsTimeline(targets, events) && j < |events| && SweptTo(targets, events, j, w)
    requires events[j].action == Start
    ensures SweptTo(targets, events, j + 1, w')
  {
    var e := events[j];
    var clock := Advance(targets, events, j, w);
    EventMovesOpen(targets, events, j);
    ClosesOnlyIts(targets, events, j);
    assert e in events;
    w' := w.(running := w.running[e.target := clock], lastWeighted := clock, lastTime := e.time);
  }

  /** Handle one stop event. */
  method Finish(targets: seq<Target>, events: seq<Event>, j: nat, w: Sweeper) returns (w': Sweeper)
    requires WellTimed(targets) && IsTimeline(targets, events) && j < |events| && SweptTo(targets, events, j, w)
    requires events[j].action == Stop
    ensures SweptTo(targets, events, j + 1, w')
  {
    var e := events[j];
    var clock := Advance(targets, events, j, w);
    EventMovesOpen(targets, events, j);
    ClosesOnlyIts(targets, events, j);
    assert e in events;
    StartsInOrder(targets, events, e.target);
    AccumulatedSplit(targets, events[0].time, targets[e.target].start, targets[e.target].end);
    var duration := clock - w.running[e.target];
    TotalUpdate(w.weighted, e.target, duration);
    w' := Sweeper(w.running - {e.target}, e.time, clock,
                  w.weighted[e.target := duration], w.weightedTotal + duration);
  }

  /** The sweep loop of `SummarizeEntries`; its final assertion holds: nothing is left running. */
  method Sweep(targets: seq<Target>, events: seq<Event>) returns (w: Sweeper)
    requires WellTimed(targets) && targets != [] && IsTimeline(targets, events)
    ensures w.running == map[]
    ensures |w.weighted| == |targets|
    ensures forall i :: 0 <= i < |targets| ==> w.weighted[i] == WeightedDuration(targets, i)
    ensures w.weightedTotal == SumReal(w.weighted)
  {
    StartsInOrder(targets, events, 0);
    TotalOfZeros(|targets|);
    w := Sweeper(map[], events[0].time, 0.0, seq(|targets|, _ => 0.0), 0.0);
    for j := 0 to |events|
      invariant SweptTo(targets, events, j, w)
    {
      if events[j].action == Start {
        w := Begin(targets, events, j, w);
      } else {
        w := Finish(targets, events, j, w);
      }
    }
    assert events[..|events|] == events;
    assert Open(targets, events, |events|) == {};
  }

  lemma ClosesOnlyIts(targets: seq<Target>, events: seq<Event>, j: nat)
    requires IsTimeline(targets, events) && j < |events|
    ensures forall i :: 0 <= i < |targets| ==>
              (StopOf(targets, i) in events[..j + 1] <==>
               StopOf(targets, i) in events[..j] || (events[j].action == Stop && events[j].target == i))
    ensures events[j].action == Stop ==> events[j] !in events[..j]
  {
    assert events[..j + 1] == events[..j] + [events[j]];
    assert events[j] in events;
  }

  /** Start and stop of every target, in target order. */
  function EventsOf(targets: seq<Target>): (events: seq<Event>)
    ensures forall e :: e in events <==> Describes(targets, e)
    ensures Distinct(events)
  {
    if targets == [] then []
    else
      var k := |targets| - 1;
      var front := EventsOf(targets[..k]);
      var start, stop := Event(targets[k].start, Start, k), Event(targets[k].end, Stop, k);
      assert forall e :: Describes(targets, e) <==> Describes(targets[..k], e) || e == start || e == stop;
      assert start !in front && stop !in front;
      front + [start, stop]
  }

  ghost predicate NeverNegative(targets: seq<Target>) {
    forall i :: 0 <= i < |targets| ==> 0 <= targets[i].start && 0 <= targets[i].end
  }

  ghost predicate IsEarliest(targets: seq<Target>, time: int) {
    && (exists i :: 0 <= i < |targets| && targets[i].start == time)
    && (forall i :: 0 <= i < |targets| ==> time <= targets[i].start)
  }

  ghost predicate IsLatest(targets: seq<Target>, time: int) {
    && (exists i :: 0 <= i < |targets| && targets[i].end == time)
    && (forall i :: 0 <= i < |targets| ==> targets[i].end <= time)
  }

  method CollectEvents(targets: seq<Target>) returns (events: seq<Event>, earliest: int, latest: int)
    requires targets != []
    ensures events == EventsOf(targets)
    ensures NeverNegative(targets) ==> IsEarliest(targets, earliest) && IsLatest(targets, latest)
  {
    events, earliest, latest := [], -1, 0;
    for i := 0 to |targets|
      invariant events == EventsOf(targets[..i])
      invariant i == 0 ==> earliest == -1 && latest == 0
      invariant i > 0 && NeverNegative(targets) ==>
                  0 <= earliest && IsEarliest(targets[..i], earliest) && IsLatest(targets[..i], latest)
    {
      if earliest < 0 || targets[i].start < earliest {
        earliest := targets[i].start;
      }
      if targets[i].end > latest {
        latest := targets[i].end;
      }
      assert targets[..i + 1][..i] == targets[..i];
      assert targets[..i + 1][i] == targets[i];
      events := events + [Event(targets[i].start, Start, i), Event(targets[i].end, Stop, i)];
    }
    assert targets[..|targets|] == targets;
  }

  /** The weighted durations of `SummarizeEntries`: each is the per-tick share sum,
      lies within the target's duration, and together they account for exactly
      the ticks at which something was running. */
  method WeightedTimes(targets: seq<Target>) returns (weighted: seq<real>, weightedTotal: real)
    requires WellTimed(targets) && targets != []
    ensures |weighted| == |targets|
    ensures forall i :: 0 <= i < |targets| ==>
              && weighted[i] == WeightedDuration(targets, i)
              && 0.0 <= weighted[i] <= (targets[i].end - targets[i].start) as real
    ensures weightedTotal == SumReal(weighted)
    ensures forall from, until :: (forall i :: 0 <= i < |targets| ==>
                                     from <= targets[i].start && targets[i].end <= until) ==>
              weightedTotal == BusyTicks(targets, from, until) as real
  {
    var events, earliest, latest := CollectEvents(targets);
    var timeline := Sort(EventKey, events);
    SortSorts(EventKey, events);
    PermutationFacts(events, timeline);
    var swept := Sweep(targets, timeline);
    weighted, weightedTotal := swept.weighted, swept.weightedTotal;
    forall i | 0 <= i < |targets|
      ensures 0.0 <= weighted[i] <= (targets[i].end - targets[i].start) as real
    {
      AccumulatedBounds(targets, targets[i].start, targets[i].end);
    }
    forall from, until | (forall i :: 0 <= i < |targets| ==>
                            from <= targets[i].start && targets[i].end <= until)
      ensures weightedTotal == BusyTicks(targets, from, until) as real
    {
      SweepConservesTime(targets, weighted, from, until);
    }
  }

  /** Weighted durations total the busy ticks of any window containing all targets. */
  lemma {:induction false} SweepConservesTime(targets: seq<Target>, weighted: seq<real>, from: int, until: int)
    requires WellTimed(targets) && |weighted| == |targets|
    requires forall i :: 0 <= i < |targets| ==> from <= targets[i].start && targets[i].end <= until
    requires forall i :: 0 <= i < |targets| ==> weighted[i] == WeightedDuration(targets, i)
    ensures SumReal(weighted) == BusyTicks(targets, from, until) as real
  {
    TotalIsAllTaken(targets, weighted, from, until, |targets|);
    assert weighted[..|targets|] == weighted;
    TicksAreConserved(targets, from, until);
  }

  lemma {:induction false} TotalIsAllTaken(targets: seq<Target>, weighted: seq<real>, from: int, until: int, m: nat)
    requires WellTimed(targets) && |weighted| == |targets| && m <= |targets|
    requires forall i :: 0 <= i < |targets| ==> from <= targets[i].start && targets[i].end <= until
    requires forall i :: 0 <= i < |targets| ==> weighted[i] == WeightedDuration(targets, i)
    ensures SumReal(weighted[..m]) == AllTakenOver(targets, m, from, until)
  {
    if m > 0 {
      TotalIsAllTaken(targets, weighted, from, until, m - 1);
      assert weighted[..m][..m - 1] == weighted[..m - 1];
      TakenWhileRunning(targets, targets[m - 1], from, until);
    }
  }
}
