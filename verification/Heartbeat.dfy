/** The heartbeat schedule (src/monitor_agent/runtime.py:126-158): deadlines on a fixed grid, missed
ones skipped instead of caught up. Time is real; rounding is not modelled. */
module Heartbeat {

  /** Which grid slot of width `interval` starting at `origin` a time falls into. */
  function Slot(origin: real, interval: real, t: real): int
    requires interval > 0.0
  {
    ((t - origin) / interval).Floor
  }

  function NextDeadline(deadline: real, now: real, interval: real): real
    requires interval > 0.0
  {
    if now < deadline then deadline
    else Grid(deadline, interval, Slot(deadline, interval, now) + 1)
  }

  /** The grid through `origin`. */
  function Grid(origin: real, interval: real, m: int): real {
    origin + m as real * interval
  }

  ghost predicate OnGrid(origin: real, interval: real, t: real) {
    exists m :: t == Grid(origin, interval, m)
  }

  lemma GridIsOrdered(origin: real, interval: real, i: int, j: int)
    requires interval > 0.0
    ensures i <= j ==> Grid(origin, interval, i) <= Grid(origin, interval, j)
    ensures i < j ==> Grid(origin, interval, i) + interval <= Grid(origin, interval, j)
  {
    var d := (j - i) as real;
    assert Grid(origin, interval, j) - Grid(origin, interval, i) == d * interval;
    if i < j {
      assert d >= 1.0;
      assert (d - 1.0) * interval >= 0.0;
      assert d * interval == interval + (d - 1.0) * interval;
    }
  }

  /** A slot is the stretch from one grid point to the next. */
  lemma SlotBounds(origin: real, interval: real, t: real)
    requires interval > 0.0
    ensures var m := Slot(origin, interval, t);
      Grid(origin, interval, m) <= t < Grid(origin, interval, m + 1)
  {
    var q := (t - origin) / interval;
    DivTimes(t - origin, interval);
    var m := q.Floor;
    assert m as real <= q && q < m as real + 1.0 && (m + 1) as real == m as real + 1.0;
    TimesIsMonotone(m as real, q, interval);
    TimesIsMonotone(q, (m + 1) as real, interval);
    var upper := (m + 1) as real * interval;
    assert t - origin == q * interval;
    assert t - origin < upper;
  }

  lemma DivTimes(x: real, y: real)
    requires y > 0.0
    ensures (x / y) * y == x
  {
  }

  lemma TimesIsMonotone(x: real, y: real, z: real)
    requires z > 0.0
    ensures x <= y ==> x * z <= y * z
    ensures x < y ==> x * z < y * z
  {
  }

  lemma SlotIs(origin: real, interval: real, t: real, m: int)
    requires interval > 0.0
    requires Grid(origin, interval, m) <= t < Grid(origin, interval, m + 1)
    ensures Slot(origin, interval, t) == m
  {
    var n := Slot(origin, interval, t);
    SlotBounds(origin, interval, t);
    GridIsOrdered(origin, interval, m + 1, n);
    GridIsOrdered(origin, interval, n + 1, m);
  }

  /** The catch-up loop computes the closed form. */
  method CatchUp(deadline: real, now: real, interval: real) returns (next: real)
    requires interval > 0.0
    ensures next == NextDeadline(deadline, now, interval)
  {
    next := deadline;
    ghost var k := 0;
    ghost var last := Slot(deadline, interval, now);
    SlotBounds(deadline, interval, now);
    while next <= now
      invariant next == Grid(deadline, interval, k)
      invariant 0 <= k && (k == 0 || k <= last + 1)
      decreases last + 1 - k
    {
      GridIsOrdered(deadline, interval, last + 1, k);
      next := next + interval;
      k := k + 1;
    }
    if k > 0 {
      GridIsOrdered(deadline, interval, k, last);
    }
  }

  /** The next deadline is in the future and on the grid; an overdue one moves to at most one interval
  after now, one that is not overdue stays. */
  lemma NextDeadlineIsPhaseLocked(origin: real, deadline: real, now: real, interval: real)
    requires interval > 0.0 && OnGrid(origin, interval, deadline)
    ensures var next := NextDeadline(deadline, now, interval);
      && OnGrid(origin, interval, next) && next > now
      && (deadline <= now ==> next <= now + interval)
      && (deadline > now ==> next == deadline)
  {
    var j :| deadline == Grid(origin, interval, j);
    if deadline <= now {
      var m := Slot(deadline, interval, now);
      SlotBounds(deadline, interval, now);
      assert Grid(deadline, interval, m + 1) == Grid(origin, interval, j + m + 1);
      assert Grid(deadline, interval, m + 1) == Grid(deadline, interval, m) + interval;
    }
  }

  /** One heartbeat: the deadline it waited for, when its cycle started and when it ended. */
  datatype Beat = Beat(deadline: real, started: real, ended: real)

  /** A schedule as the loop produces it; `punctual` says that no wait returned early. */
  ghost predicate Follows(beats: seq<Beat>, interval: real, punctual: bool)
    requires interval > 0.0
  {
    && (forall k :: 0 <= k < |beats| ==> beats[k].started <= beats[k].ended)
    && (forall k :: 0 < k < |beats| ==>
          beats[k].started >= beats[k - 1].ended
          && beats[k].deadline == NextDeadline(beats[k - 1].deadline, beats[k - 1].ended, interval))
    && (punctual ==> forall k :: 0 <= k < |beats| ==> beats[k].started >= beats[k].deadline)
  }

  /** Two consecutive heartbeats fall into different slots if the first wait was not cut short and
  neither was the second. */
  lemma NextSlot(origin: real, interval: real, a: Beat, b: Beat)
    requires interval > 0.0 && OnGrid(origin, interval, a.deadline)
    requires a.started <= a.ended && b.deadline == NextDeadline(a.deadline, a.ended, interval)
    requires b.started >= b.deadline
    ensures Slot(origin, interval, a.started) < Slot(origin, interval, b.started)
  {
    NextDeadlineIsPhaseLocked(origin, a.deadline, a.ended, interval);
    var g :| b.deadline == Grid(origin, interval, g);
    SlotBounds(origin, interval, a.started);
    SlotBounds(origin, interval, b.started);
    GridIsOrdered(origin, interval, g, Slot(origin, interval, a.started));
    GridIsOrdered(origin, interval, Slot(origin, interval, b.started) + 1, g);
  }

  /** Over any number of heartbeats, all deadlines lie on the grid of the first; if waits never return
  early, every slot sees at most one heartbeat, in order: there are no bursts. */
  lemma {:induction false} NoBursts(beats: seq<Beat>, interval: real, punctual: bool)
    requires interval > 0.0 && beats != [] && Follows(beats, interval, punctual)
    ensures forall k :: 0 <= k < |beats| ==> OnGrid(beats[0].deadline, interval, beats[k].deadline)
    ensures punctual ==> forall j, k :: 0 <= j < k < |beats| ==>
      Slot(beats[0].deadline, interval, beats[j].started) < Slot(beats[0].deadline, interval, beats[k].started)
  {
    var origin := beats[0].deadline;
    if |beats| == 1 {
      assert origin == Grid(origin, interval, 0);
    } else {
      var before, last := beats[..|beats| - 1], |beats| - 1;
      NoBursts(before, interval, punctual);
      assert before[last - 1] == beats[last - 1];
      NextDeadlineIsPhaseLocked(origin, beats[last - 1].deadline, beats[last - 1].ended, interval);
      if punctual {
        NextSlot(origin, interval, beats[last - 1], beats[last]);
        forall j, k | 0 <= j < k < |beats|
          ensures Slot(origin, interval, beats[j].started) < Slot(origin, interval, beats[k].started)
        {
          if k < last {
            assert before[j] == beats[j] && before[k] == beats[k];
          } else if j < last - 1 {
            assert before[j] == beats[j] && before[last - 1] == beats[last - 1];
          }
        }
      }
      forall k | 0 <= k < |beats| ensures OnGrid(origin, interval, beats[k].deadline) {
        if k < last { assert before[k] == beats[k]; }
      }
    }
  }

  /** Without that assumption the claim fails: a wait that returns early lets one slot see two. */
  lemma EarlyWaitRepeatsASlot() returns (beats: seq<Beat>)
    ensures |beats| == 2 && Follows(beats, 10.0, false)
    ensures Slot(beats[0].deadline, 10.0, beats[0].started) == Slot(beats[0].deadline, 10.0, beats[1].started)
  {
    beats := [Beat(100.0, 91.0, 92.0), Beat(100.0, 95.0, 96.0)];
    SlotIs(100.0, 10.0, 91.0, -1);
    SlotIs(100.0, 10.0, 95.0, -1);
  }

  /** When a wait ends that began at `clock` for `deadline`: `late` after it was due, but not before it began. */
  function Woken(clock: real, deadline: real, late: real): real {
    var due := if deadline > clock then deadline else clock;
    if due + late > clock then due + late else clock
  }

  /** Every heartbeat starts when its wait ends and takes its time. */
  ghost predicate Timed(beats: seq<Beat>, now0: real, lates: seq<real>, durations: seq<real>)
    requires |beats| <= |lates| == |durations|
  {
    forall k :: 0 <= k < |beats| ==> IsTimed(ClockBefore(beats, now0, k), beats[k], lates[k], durations[k])
  }

  predicate IsTimed(clock: real, b: Beat, late: real, duration: real) {
    b.started == Woken(clock, b.deadline, late) && b.ended == b.started + duration
  }

  /** When the wait for heartbeat `k` begins. */
  function ClockBefore(beats: seq<Beat>, now0: real, k: nat): real
    requires k <= |beats|
  {
    if k == 0 then now0 else beats[k - 1].ended
  }

  lemma TimedOneMore(beats: seq<Beat>, now0: real, lates: seq<real>, durations: seq<real>, b: Beat)
    requires |beats| < |lates| == |durations| && Timed(beats, now0, lates, durations)
    requires IsTimed(ClockBefore(beats, now0, |beats|), b, lates[|beats|], durations[|beats|])
    ensures Timed(beats + [b], now0, lates, durations)
  {
    var more := beats + [b];
    forall k | 0 <= k < |more| ensures IsTimed(ClockBefore(more, now0, k), more[k], lates[k], durations[k]) {
      assert ClockBefore(more, now0, k) == ClockBefore(beats, now0, k);
    }
  }

  lemma FollowsOneMore(beats: seq<Beat>, interval: real, punctual: bool, b: Beat)
    requires interval > 0.0 && Follows(beats, interval, punctual) && b.started <= b.ended
    requires punctual ==> b.started >= b.deadline
    requires beats != [] ==>
      var last := beats[|beats| - 1];
      b.started >= last.ended && b.deadline == NextDeadline(last.deadline, last.ended, interval)
    ensures Follows(beats + [b], interval, punctual)
  {
    var more := beats + [b];
    assert forall k :: 0 <= k < |beats| ==> more[k] == beats[k];
  }

  predicate Punctual(lates: seq<real>) {
    forall k :: 0 <= k < |lates| ==> lates[k] >= 0.0
  }

  /** `_run_loop` from the first deadline on. Wait number `k` ends `lates[k]` after it was due, the cycle
  after it takes `durations[k]`; shutdown is requested during the wait after the last of them. */
  method RunLoop(now0: real, interval: real, lates: seq<real>, durations: seq<real>) returns (beats: seq<Beat>)
    requires interval > 0.0 && |lates| == |durations| && forall k :: 0 <= k < |durations| ==> durations[k] >= 0.0
    ensures |beats| == |lates| && Timed(beats, now0, lates, durations)
    ensures Follows(beats, interval, Punctual(lates))
    ensures beats != [] ==> beats[0].deadline == now0 + interval
  {
    beats := [];
    var clock, deadline := now0, now0 + interval;
    while |beats| < |lates|
      invariant |beats| <= |lates| && Follows(beats, interval, Punctual(lates))
      invariant Timed(beats, now0, lates, durations)
      invariant beats == [] ==> clock == now0 && deadline == now0 + interval
      invariant beats != [] ==>
        && clock == beats[|beats| - 1].ended && beats[0].deadline == now0 + interval
        && deadline == NextDeadline(beats[|beats| - 1].deadline, beats[|beats| - 1].ended, interval)
    {
      var remaining := if deadline > clock then deadline - clock else 0.0;
      var waited := remaining + lates[|beats|];
      var started := if waited > 0.0 then clock + waited else clock;
      var ended := started + durations[|beats|];
      TimedOneMore(beats, now0, lates, durations, Beat(deadline, started, ended));
      FollowsOneMore(beats, interval, Punctual(lates), Beat(deadline, started, ended));
      beats := beats + [Beat(deadline, started, ended)];
      deadline := CatchUp(deadline, ended, interval);
      clock := ended;
    }
  }
}
