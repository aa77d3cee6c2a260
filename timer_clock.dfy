/** The accounting of `Timer::update`, as functions over the timer's clock
    fields, and what that accounting guarantees. A frame's update reads the
    schedule (interval, delay, repeat) and changes only `elapsed`,
    `timesExecuted` and `useDelay`; the calls it makes to `trigger` and
    `cancel` are returned as a trace of events. */
module TimerClock {
  import opened Systems

  /** `CC_REPEAT_FOREVER` (`UINT_MAX - 1`): a repeat count meaning "for ever". */
  const REPEAT_FOREVER: u32 := 0xFFFF_FFFE

  /** `_elapsed` holds this sentinel between a setup and the next update. */
  const NOT_STARTED: real := -1.0

  /** A call the timer makes on itself during an update. */
  datatype Event = Triggered(dt: real) | Cancelled

  /** The fields of a timer that `update` reads or writes. */
  datatype Clock = Clock(elapsed: real, runForever: bool, useDelay: bool,
                         timesExecuted: u32, repeat: u32, delay: real, interval: real)

  /** `timesExecuted += 1` on a `uint32_t`. */
  function Inc32(n: u32): u32
  {
    (n + 1) % U32_LIMIT
  }

  /** The condition under which the timer cancels itself. */
  predicate Exhausted(c: Clock)
  {
    !c.runForever && c.timesExecuted > c.repeat
  }

  /** Whether the clock would be exhausted once `k` more triggers have each
      incremented its `uint32_t` count. */
  predicate ExhaustedAfter(c: Clock, k: nat)
  {
    !c.runForever && (c.timesExecuted + k) % U32_LIMIT > c.repeat
  }

  /** What `isCurrentTimerSalvaged()` answers after the (k+1)-th trigger of the
      interval loop in one update: the callbacks are foreign code that may
      flip that flag, so the answers are given; past the end, "not salvaged". */
  predicate Reported(reports: seq<bool>, k: nat)
  {
    k < |reports| && reports[k]
  }

  /** The arguments of the `trigger` calls in a trace, in order. */
  function Args(evs: seq<Event>): seq<real>
  {
    if evs == [] then []
    else (if evs[0].Triggered? then [evs[0].dt] else []) + Args(evs[1..])
  }

  /** The total of a sequence of time slices. */
  function Sum(xs: seq<real>): real
  {
    if xs == [] then 0.0 else xs[0] + Sum(xs[1..])
  }

  /** Clocks a timer can be in: the sentinel or a non-negative elapsed time,
      and a pending delay is positive. */
  predicate Consistent(c: Clock)
  {
    (c.elapsed == NOT_STARTED || c.elapsed >= 0.0) && (c.useDelay ==> c.delay > 0.0)
  }

  /** A trace of trigger calls, possibly closed by one cancel that follows a trigger. */
  predicate CancelOnlyLast(evs: seq<Event>)
  {
    forall i | 0 <= i < |evs| :: evs[i].Cancelled? ==> i == |evs| - 1 && i > 0 && evs[i - 1].Triggered?
  }

  /** `trigger(step); _elapsed -= step; _timesExecuted += 1;` */
  function Fire(c: Clock, step: real): Clock
  {
    c.(elapsed := c.elapsed - step, timesExecuted := Inc32(c.timesExecuted))
  }

  /** The slice of elapsed time each trigger of the interval loop receives. */
  function Step(c: Clock): real
  {
    if c.interval > 0.0 then c.interval else c.elapsed
  }

  /** The interval loop, from its (j+1)-th round on: it changes only the
      elapsed time and the execution count. */
  function Drain(c: Clock, step: real, reports: seq<bool>, j: nat): (r: (Clock, seq<Event>))
    requires step > 0.0 || step == c.elapsed
    ensures r.0 == c.(elapsed := r.0.elapsed, timesExecuted := r.0.timesExecuted)
    decreases if step > 0.0 then (c.elapsed / step).Floor else 0
  {
    if c.elapsed < step then (c, [])
    else
      var c1 := Fire(c, step);
      if Exhausted(c1) then (c1, [Triggered(step), Cancelled])
      else if c1.elapsed <= 0.0 || Reported(reports, j) then (c1, [Triggered(step)])
      else
        DivStep(c.elapsed, step);
        var (c2, rest) := Drain(c1, step, reports, j + 1);
        (c2, [Triggered(step)] + rest)
  }

  /** The clock after the delay trigger: fired with the delay, delay cleared. */
  function AfterDelay(a: Clock): Clock
  {
    Fire(a, a.delay).(useDelay := false)
  }

  /** What an update does once `dt` has been added to the elapsed time: the
      pending delay, then the interval loop. */
  function Settle(a: Clock, reports: seq<bool>): (r: (Clock, seq<Event>))
    ensures r.0 == a.(elapsed := r.0.elapsed, timesExecuted := r.0.timesExecuted, useDelay := r.0.useDelay)
    ensures r.0.useDelay ==> a.useDelay
  {
    if !a.useDelay then Drain(a, Step(a), reports, 0)
    else if a.elapsed < a.delay then (a, [])
    else
      var d := AfterDelay(a);
      if Exhausted(d) then (d, [Triggered(a.delay), Cancelled])
      else
        var (f, rest) := Drain(d, Step(d), reports, 0);
        (f, [Triggered(a.delay)] + rest)
  }

  /** One `Timer::update(dt)`: the new clock and the trigger/cancel calls made. */
  function Update(c: Clock, dt: real, reports: seq<bool>): (r: (Clock, seq<Event>))
    ensures r.0 == c.(elapsed := r.0.elapsed, timesExecuted := r.0.timesExecuted, useDelay := r.0.useDelay)
    ensures r.0.useDelay ==> c.useDelay
  {
    if c.elapsed == NOT_STARTED then (c.(elapsed := 0.0, timesExecuted := 0), [])
    else Settle(c.(elapsed := c.elapsed + dt), reports)
  }

  /** Whether an update gets as far as the interval loop. */
  predicate ReachesLoop(c: Clock, dt: real)
  {
    c.elapsed != NOT_STARTED &&
    (!c.useDelay || (c.elapsed + dt >= c.delay && !Exhausted(AfterDelay(c.(elapsed := c.elapsed + dt)))))
  }

  /** The clock with which an update enters the interval loop. */
  function LoopEntry(c: Clock, dt: real): Clock
  {
    var a := c.(elapsed := c.elapsed + dt);
    if a.useDelay then AfterDelay(a) else a
  }

  /** The number of trigger calls an update makes before the interval loop. */
  function DelayTriggers(c: Clock): nat
  {
    if c.useDelay then 1 else 0
  }

  // ---------------------------------------------------------------------------
  // Facts about the interval loop

  /** One round of the loop takes one step off the measure `(elapsed / step).Floor`. */
  lemma DivStep(e: real, s: real)
    requires s > 0.0
    ensures (e - s) / s == e / s - 1.0
  {
    assert (e - s) / s == e / s - s / s;
  }

  /** The trigger arguments of a trace that starts with a trigger. */
  lemma ArgsCons(dt: real, rest: seq<Event>)
    ensures Args([Triggered(dt)] + rest) == [dt] + Args(rest)
    ensures Sum([dt] + Args(rest)) == dt + Sum(Args(rest))
  {
    assert ([Triggered(dt)] + rest)[1..] == rest;
    assert ([dt] + Args(rest))[1..] == Args(rest);
  }

  lemma ConcatAssoc<T>(a: seq<T>, b: seq<T>, c: seq<T>)
    ensures (a + b) + c == a + (b + c)
  {
  }

  lemma {:induction false} ArgsAppend(a: seq<Event>, b: seq<Event>)
    ensures Args(a + b) == Args(a) + Args(b)
  {
    if a == [] {
      assert a + b == b;
    } else {
      assert (a + b)[0] == a[0];
      assert (a + b)[1..] == a[1..] + b;
      ArgsAppend(a[1..], b);
    }
  }

  /** The trace of a trigger followed by a cancel. */
  lemma ArgsTriggerCancel(dt: real)
    ensures Args([Triggered(dt), Cancelled]) == [dt]
  {
    assert [Triggered(dt), Cancelled][1..] == [Cancelled];
    assert [Cancelled][1..] == [];
  }

  /** A trigger put in front of a trace keeps its cancel at the end. */
  lemma CancelOnlyLastCons(dt: real, rest: seq<Event>)
    requires CancelOnlyLast(rest)
    ensures CancelOnlyLast([Triggered(dt)] + rest)
    ensures Cancelled in [Triggered(dt)] + rest <==> Cancelled in rest
  {
    var evs := [Triggered(dt)] + rest;
    forall i | 0 <= i < |evs| && evs[i].Cancelled?
      ensures i == |evs| - 1 && i > 0 && evs[i - 1].Triggered?
    {
      assert rest[i - 1] == evs[i];
    }
  }

  lemma ModSucc(n: int, k: nat)
    requires n >= 0
    ensures ((n + 1) % U32_LIMIT + k) % U32_LIMIT == (n + 1 + k) % U32_LIMIT
  {
  }

  /** One trigger later, a clock is exhausted after one trigger fewer. */
  lemma ExhaustedAfterSucc(c: Clock, c1: Clock, k: nat)
    requires c1.timesExecuted == Inc32(c.timesExecuted)
    requires c1.runForever == c.runForever && c1.repeat == c.repeat && k >= 1
    ensures ExhaustedAfter(c1, k - 1) == ExhaustedAfter(c, k)
  {
    ModSucc(c.timesExecuted, k - 1);
  }

  /** The loop hands out exactly the time it takes from `elapsed`, and never
      takes a non-negative clock below zero. */
  lemma {:induction false} DrainConservesTime(c: Clock, step: real, reports: seq<bool>, j: nat)
    requires step > 0.0 || step == c.elapsed
    ensures var r := Drain(c, step, reports, j); var f, evs := r.0, r.1;
      && c.elapsed == f.elapsed + Sum(Args(evs))
      && (c.elapsed >= 0.0 ==> f.elapsed >= 0.0)
    decreases |Drain(c, step, reports, j).1|
  {
    if c.elapsed >= step {
      var c1 := Fire(c, step);
      ArgsCons(step, []);
      ArgsTriggerCancel(step);
      if !Exhausted(c1) && !(c1.elapsed <= 0.0 || Reported(reports, j)) {
        DrainConservesTime(c1, step, reports, j + 1);
        ArgsCons(step, Drain(c1, step, reports, j + 1).1);
      }
    }
  }

  /** The loop counts one execution per trigger, modulo 2^32, and does
      nothing at all when nothing is due. */
  lemma {:induction false} DrainCounts(c: Clock, step: real, reports: seq<bool>, j: nat)
    requires step > 0.0 || step == c.elapsed
    ensures var r := Drain(c, step, reports, j); var f, evs := r.0, r.1;
      && f.timesExecuted == (c.timesExecuted + |Args(evs)|) % U32_LIMIT
      && (evs == [] <==> c.elapsed < step)
      && (evs == [] ==> f == c)
    decreases |Drain(c, step, reports, j).1|
  {
    if c.elapsed >= step {
      var c1 := Fire(c, step);
      ArgsCons(step, []);
      ArgsTriggerCancel(step);
      if !Exhausted(c1) && !(c1.elapsed <= 0.0 || Reported(reports, j)) {
        DrainCounts(c1, step, reports, j + 1);
        var rest := Drain(c1, step, reports, j + 1).1;
        ArgsCons(step, rest);
        ModSucc(c.timesExecuted, |Args(rest)|);
      }
    }
  }

  /** Every trigger of the loop receives the same slice, a cancel can only
      close the trace, and the trace is cancelled exactly when some trigger
      happened and the timer ends up exhausted. */
  lemma {:induction false} DrainShape(c: Clock, step: real, reports: seq<bool>, j: nat)
    requires step > 0.0 || step == c.elapsed
    ensures var r := Drain(c, step, reports, j); var f, evs := r.0, r.1;
      && (forall x | x in Args(evs) :: x == step)
      && CancelOnlyLast(evs)
      && (Cancelled in evs <==> Args(evs) != [] && Exhausted(f))
    decreases |Drain(c, step, reports, j).1|
  {
    if c.elapsed >= step {
      var c1 := Fire(c, step);
      ArgsCons(step, []);
      ArgsTriggerCancel(step);
      if !Exhausted(c1) && !(c1.elapsed <= 0.0 || Reported(reports, j)) {
        DrainShape(c1, step, reports, j + 1);
        DrainCounts(c1, step, reports, j + 1);
        var (c2, rest) := Drain(c1, step, reports, j + 1);
        ArgsCons(step, rest);
        CancelOnlyLastCons(step, rest);
      }
    }
  }

  /** The loop stops at the first trigger that exhausts the timer: no trigger
      but the last leaves the count past `repeat`. */
  lemma {:induction false} DrainStopsAtExhaustion(c: Clock, step: real, reports: seq<bool>, j: nat)
    requires step > 0.0 || step == c.elapsed
    ensures var evs := Drain(c, step, reports, j).1;
      forall k | 1 <= k < |Args(evs)| :: !ExhaustedAfter(c, k)
    decreases |Drain(c, step, reports, j).1|
  {
    if c.elapsed >= step {
      var c1 := Fire(c, step);
      ArgsCons(step, []);
      ArgsTriggerCancel(step);
      if !Exhausted(c1) && !(c1.elapsed <= 0.0 || Reported(reports, j)) {
        DrainStopsAtExhaustion(c1, step, reports, j + 1);
        var rest := Drain(c1, step, reports, j + 1).1;
        ArgsCons(step, rest);
        forall k | 1 <= k < |Args(Drain(c, step, reports, j).1)|
          ensures !ExhaustedAfter(c, k)
        {
          ExhaustedAfterSucc(c, c1, k);
        }
      }
    }
  }

  /** The loop goes on past a trigger only while the scheduler reports no
      salvage. */
  lemma {:induction false} DrainHeedsSalvage(c: Clock, step: real, reports: seq<bool>, j: nat)
    requires step > 0.0 || step == c.elapsed
    ensures var n := |Args(Drain(c, step, reports, j).1)|;
      forall k | j <= k < j + n - 1 :: !Reported(reports, k)
    decreases |Drain(c, step, reports, j).1|
  {
    if c.elapsed >= step {
      var c1 := Fire(c, step);
      ArgsCons(step, []);
      ArgsTriggerCancel(step);
      if !Exhausted(c1) && !(c1.elapsed <= 0.0 || Reported(reports, j)) {
        DrainHeedsSalvage(c1, step, reports, j + 1);
        ArgsCons(step, Drain(c1, step, reports, j + 1).1);
      }
    }
  }

  /** With a positive step the loop leaves less than one step of elapsed
      time, unless a cancel or a salvage report after its last trigger
      stopped it. */
  lemma {:induction false} DrainStops(c: Clock, step: real, reports: seq<bool>, j: nat)
    requires step > 0.0 || step == c.elapsed
    ensures var r := Drain(c, step, reports, j); var f, evs := r.0, r.1;
      var n := |Args(evs)|;
      step > 0.0 && f.elapsed >= step ==>
        n > 0 && (evs[|evs| - 1] == Cancelled || Reported(reports, j + n - 1))
    decreases |Drain(c, step, reports, j).1|
  {
    if c.elapsed >= step {
      var c1 := Fire(c, step);
      ArgsCons(step, []);
      ArgsTriggerCancel(step);
      if !Exhausted(c1) && !(c1.elapsed <= 0.0 || Reported(reports, j)) {
        DrainStops(c1, step, reports, j + 1);
        DrainCounts(c1, step, reports, j + 1);
        var rest := Drain(c1, step, reports, j + 1).1;
        ArgsCons(step, rest);
        var evs := [Triggered(step)] + rest;
        if rest != [] {
          assert evs[|evs| - 1] == rest[|rest| - 1];
        }
      }
    }
  }

  /** The loop, whose whole outcome `goal` is the trace `done` followed by
      what the loop does from `c`, goes one round further (the loop invariant
      of `Timer.RunInterval`). */
  lemma DrainContinue(goal: (Clock, seq<Event>), c: Clock, step: real, reports: seq<bool>, j: nat, done: seq<Event>)
    requires step > 0.0 || step == c.elapsed
    requires goal == (Drain(c, step, reports, j).0, done + Drain(c, step, reports, j).1)
    requires c.elapsed >= step && !Exhausted(Fire(c, step))
    requires Fire(c, step).elapsed > 0.0 && !Reported(reports, j)
    ensures step > 0.0
    ensures Args(done + [Triggered(step)]) == Args(done) + [step]
    ensures |Drain(Fire(c, step), step, reports, j + 1).1| < |Drain(c, step, reports, j).1|
    ensures var l := Drain(Fire(c, step), step, reports, j + 1);
      goal == (l.0, (done + [Triggered(step)]) + l.1)
  {
    var c1 := Fire(c, step);
    ArgsAppend(done, [Triggered(step)]);
    ArgsCons(step, []);
    var rest := Drain(c1, step, reports, j + 1).1;
    assert done + ([Triggered(step)] + rest) == (done + [Triggered(step)]) + rest;
  }

  /** The loop, whose whole outcome `goal` is the trace `done` followed by
      what the loop does from `c`, stops in the round from `c`. */
  lemma DrainBreak(goal: (Clock, seq<Event>), c: Clock, step: real, reports: seq<bool>, j: nat, done: seq<Event>)
    requires step > 0.0 || step == c.elapsed
    requires goal == (Drain(c, step, reports, j).0, done + Drain(c, step, reports, j).1)
    requires c.elapsed >= step
    requires Exhausted(Fire(c, step)) || Fire(c, step).elapsed <= 0.0 || Reported(reports, j)
    ensures var tail := if Exhausted(Fire(c, step)) then [Triggered(step), Cancelled] else [Triggered(step)];
      goal == (Fire(c, step), done + tail) && Args(done + tail) == Args(done) + [step]
  {
    ArgsCons(step, []);
    ArgsTriggerCancel(step);
    ArgsAppend(done, [Triggered(step)]);
    ArgsAppend(done, [Triggered(step), Cancelled]);
  }

  // ---------------------------------------------------------------------------
  // Facts about one update

  /** The first update after a setup only primes the clock: elapsed and the
      execution count go to zero, nothing fires, and `dt` is ignored. */
  lemma UpdatePrimes(c: Clock, dt: real, reports: seq<bool>)
    requires c.elapsed == NOT_STARTED
    ensures Update(c, dt, reports) == (c.(elapsed := 0.0, timesExecuted := 0), [])
  {
  }

  /** Time is conserved: the old elapsed time plus `dt` is the new elapsed time
      plus everything handed to `trigger`, the delay included. */
  lemma UpdateConservesTime(c: Clock, dt: real, reports: seq<bool>)
    requires c.elapsed != NOT_STARTED
    ensures var r := Update(c, dt, reports);
      c.elapsed + dt == r.0.elapsed + Sum(Args(r.1))
  {
    var a := c.(elapsed := c.elapsed + dt);
    if !a.useDelay {
      DrainConservesTime(a, Step(a), reports, 0);
    } else if a.elapsed >= a.delay {
      var d := AfterDelay(a);
      if !Exhausted(d) {
        DrainConservesTime(d, Step(d), reports, 0);
        SettleAfterDelay(a, reports);
        ArgsCons(a.delay, Drain(d, Step(d), reports, 0).1);
      } else {
        ArgsTriggerCancel(a.delay);
      }
    }
  }

  /** The execution count grows, modulo 2^32, by the number of triggers. */
  lemma UpdateCountsTriggers(c: Clock, dt: real, reports: seq<bool>)
    requires c.elapsed != NOT_STARTED
    ensures var r := Update(c, dt, reports);
      r.0.timesExecuted == (c.timesExecuted + |Args(r.1)|) % U32_LIMIT
  {
    var a := c.(elapsed := c.elapsed + dt);
    if !a.useDelay {
      DrainCounts(a, Step(a), reports, 0);
    } else if a.elapsed >= a.delay {
      var d := AfterDelay(a);
      if !Exhausted(d) {
        DrainCounts(d, Step(d), reports, 0);
        SettleAfterDelay(a, reports);
        ModSucc(c.timesExecuted, |Args(Drain(d, Step(d), reports, 0).1)|);
      } else {
        ArgsTriggerCancel(a.delay);
      }
    }
  }

  /** While the accumulated time is below a pending delay, nothing fires and
      only the elapsed time advances. */
  lemma UpdateWaitsForDelay(c: Clock, dt: real, reports: seq<bool>)
    requires c.elapsed != NOT_STARTED && c.useDelay && c.elapsed + dt < c.delay
    ensures Update(c, dt, reports) == (c.(elapsed := c.elapsed + dt), [])
  {
  }

  /** Once a pending delay is reached, the first trigger receives exactly the
      delay and the delay flag is cleared. */
  lemma UpdateFiresDelay(c: Clock, dt: real, reports: seq<bool>)
    requires c.elapsed != NOT_STARTED && c.useDelay && c.elapsed + dt >= c.delay
    ensures var r := Update(c, dt, reports); var f, evs := r.0, r.1;
      evs != [] && evs[0] == Triggered(c.delay) && !f.useDelay
  {
  }

  /** Settling a clock that fires its delay and goes on to the interval loop
      makes the delay trigger and then exactly the loop's calls. */
  lemma SettleAfterDelay(a: Clock, reports: seq<bool>)
    requires a.useDelay && a.elapsed >= a.delay && !Exhausted(AfterDelay(a))
    ensures var d := AfterDelay(a); var l := Drain(d, Step(d), reports, 0);
      Settle(a, reports) == (l.0, [Triggered(a.delay)] + l.1) &&
      Args(Settle(a, reports).1) == [a.delay] + Args(l.1)
  {
    var d := AfterDelay(a);
    ArgsCons(a.delay, Drain(d, Step(d), reports, 0).1);
  }

  /** Every trigger after the delay trigger receives the same slice: the
      interval when it is positive, else the elapsed time accumulated when the
      loop starts. */
  lemma UpdateUniformSlices(c: Clock, dt: real, reports: seq<bool>)
    requires c.elapsed != NOT_STARTED
    ensures var r := Update(c, dt, reports); var f, evs := r.0, r.1;
      var slice := if c.interval > 0.0 then c.interval else LoopEntry(c, dt).elapsed;
      forall i | DelayTriggers(c) <= i < |Args(evs)| :: Args(evs)[i] == slice
  {
    var a := c.(elapsed := c.elapsed + dt);
    if !a.useDelay {
      DrainShape(a, Step(a), reports, 0);
      var (f, evs) := Drain(a, Step(a), reports, 0);
      forall i | 0 <= i < |Args(evs)| ensures Args(evs)[i] == Step(a) {
        assert Args(evs)[i] in Args(evs);
      }
    } else if a.elapsed >= a.delay {
      var d := AfterDelay(a);
      if !Exhausted(d) {
        DrainShape(d, Step(d), reports, 0);
        var (f, rest) := Drain(d, Step(d), reports, 0);
        var evs := [Triggered(a.delay)] + rest;
        ArgsCons(a.delay, rest);
        forall i | 1 <= i < |Args(evs)| ensures Args(evs)[i] == Step(d) {
          assert Args(evs)[i] == Args(rest)[i - 1];
          assert Args(rest)[i - 1] in Args(rest);
        }
      } else {
        ArgsTriggerCancel(a.delay);
      }
    }
  }

  /** A loop whose step is the whole elapsed time fires once and stops. */
  lemma DrainWhole(c: Clock, reports: seq<bool>, j: nat)
    ensures var r := Drain(c, c.elapsed, reports, j);
      && r.0 == Fire(c, c.elapsed)
      && (r.1 == [Triggered(c.elapsed)] || r.1 == [Triggered(c.elapsed), Cancelled])
      && Args(r.1) == [c.elapsed]
  {
    ArgsCons(c.elapsed, []);
    ArgsTriggerCancel(c.elapsed);
  }

  /** With no positive interval the loop fires exactly once, handing over all
      the accumulated time, and leaves elapsed at zero. */
  lemma UpdateEveryFrame(c: Clock, dt: real, reports: seq<bool>)
    requires c.interval <= 0.0 && ReachesLoop(c, dt)
    ensures var r := Update(c, dt, reports); var f, evs := r.0, r.1;
      && |Args(evs)| == DelayTriggers(c) + 1
      && Args(evs)[|Args(evs)| - 1] == LoopEntry(c, dt).elapsed
      && f.elapsed == 0.0
  {
    var a := c.(elapsed := c.elapsed + dt);
    var e := LoopEntry(c, dt);
    assert Step(e) == e.elapsed;
    DrainWhole(e, reports, 0);
    if c.useDelay {
      SettleAfterDelay(a, reports);
    }
  }

  /** With dt >= 0 an update keeps the clock consistent; in particular the
      elapsed time is never negative after it, so an update never puts the
      timer back in the not-started state. */
  lemma UpdateKeepsConsistent(c: Clock, dt: real, reports: seq<bool>)
    requires Consistent(c) && dt >= 0.0
    ensures Consistent(Update(c, dt, reports).0)
    ensures Update(c, dt, reports).0.elapsed >= 0.0
  {
    if c.elapsed != NOT_STARTED {
      var a := c.(elapsed := c.elapsed + dt);
      if !a.useDelay {
        DrainConservesTime(a, Step(a), reports, 0);
        DrainCounts(a, Step(a), reports, 0);
      } else if a.elapsed >= a.delay {
        var d := AfterDelay(a);
        if !Exhausted(d) {
          DrainConservesTime(d, Step(d), reports, 0);
          DrainCounts(d, Step(d), reports, 0);
        }
      }
    }
  }

  /** With a positive interval, an update that reaches the loop leaves less
      than one interval of elapsed time, unless a cancel closed the trace or
      the scheduler reported a salvage after the last loop trigger; and the
      loop went on past a trigger only when no salvage was reported. */
  lemma UpdateDrainsBelowInterval(c: Clock, dt: real, reports: seq<bool>)
    requires ReachesLoop(c, dt)
    ensures var r := Update(c, dt, reports); var f, evs := r.0, r.1;
      var n := |Args(evs)| - DelayTriggers(c);
      && (forall k | 0 <= k < n - 1 :: !Reported(reports, k))
      && (c.interval > 0.0 && f.elapsed >= c.interval ==>
            n > 0 && (evs[|evs| - 1] == Cancelled || Reported(reports, n - 1)))
  {
    var e := LoopEntry(c, dt);
    DrainHeedsSalvage(e, Step(e), reports, 0);
    DrainStops(e, Step(e), reports, 0);
    var (f, loop) := Drain(e, Step(e), reports, 0);
    if c.useDelay {
      var evs := [Triggered(c.delay)] + loop;
      ArgsCons(c.delay, loop);
      assert loop != [] ==> evs[|evs| - 1] == loop[|loop| - 1];
    }
  }

  /** A timer that does not run for ever is cancelled right after the trigger
      that makes its count exceed `repeat`, and nothing follows the cancel; a
      timer that runs for ever is never cancelled. */
  lemma UpdateCancelsOnExhaustion(c: Clock, dt: real, reports: seq<bool>)
    requires c.elapsed != NOT_STARTED
    ensures var r := Update(c, dt, reports); var f, evs := r.0, r.1;
      && CancelOnlyLast(evs)
      && (Cancelled in evs <==> Args(evs) != [] && Exhausted(f))
      && (c.runForever ==> Cancelled !in evs)
  {
    var a := c.(elapsed := c.elapsed + dt);
    if !a.useDelay {
      DrainShape(a, Step(a), reports, 0);
    } else if a.elapsed >= a.delay {
      var d := AfterDelay(a);
      if Exhausted(d) {
        ArgsTriggerCancel(a.delay);
      } else {
        DrainShape(d, Step(d), reports, 0);
        DrainConservesTime(d, Step(d), reports, 0);
        DrainCounts(d, Step(d), reports, 0);
        var (f, rest) := Drain(d, Step(d), reports, 0);
        ArgsCons(a.delay, rest);
        CancelOnlyLastCons(a.delay, rest);
      }
    }
  }

  /** Within one update no trigger but the last leaves the count past
      `repeat`. */
  lemma UpdateStopsAtRepeat(c: Clock, dt: real, reports: seq<bool>)
    ensures var evs := Update(c, dt, reports).1;
      forall k | 1 <= k < |Args(evs)| :: !ExhaustedAfter(c, k)
  {
    if c.elapsed != NOT_STARTED {
      var a := c.(elapsed := c.elapsed + dt);
      if !a.useDelay {
        DrainStopsAtExhaustion(a, Step(a), reports, 0);
        var evs := Drain(a, Step(a), reports, 0).1;
        forall k | 1 <= k < |Args(evs)|
          ensures !ExhaustedAfter(c, k)
        {
          assert !ExhaustedAfter(a, k);
        }
      } else if a.elapsed >= a.delay {
        var d := AfterDelay(a);
        if Exhausted(d) {
          ArgsTriggerCancel(a.delay);
        } else {
          DrainStopsAtExhaustion(d, Step(d), reports, 0);
          SettleAfterDelay(a, reports);
          var evs := Settle(a, reports).1;
          forall k | 1 <= k < |Args(evs)|
            ensures !ExhaustedAfter(c, k)
          {
            ExhaustedAfterSucc(c, d, k);
          }
        }
      }
    }
  }

  /** A timer whose count has not yet passed `repeat` fires at most
      `repeat - timesExecuted + 1` times in one update: `repeat + 1` times
      from a fresh start. This needs `repeat` below `UINT_MAX`; with
      `repeat == UINT_MAX` the count wraps to zero before it can exceed it. */
  lemma UpdateFiresAtMostRepeatPlusOne(c: Clock, dt: real, reports: seq<bool>)
    requires !c.runForever && c.timesExecuted <= c.repeat < U32_LIMIT - 1
    ensures |Args(Update(c, dt, reports).1)| <= c.repeat - c.timesExecuted + 1
  {
    UpdateStopsAtRepeat(c, dt, reports);
    // the (repeat - timesExecuted + 1)-th trigger is the one that exhausts
    assert ExhaustedAfter(c, c.repeat - c.timesExecuted + 1);
  }

  /** `cancel()` of a callback timer does nothing, so an exhausted timer is
      not unscheduled: a later update that accumulates another step triggers
      it again, and cancels again. */
  lemma UpdateFiresAgainAfterExhaustion(c: Clock, dt: real, reports: seq<bool>)
    requires c.elapsed != NOT_STARTED && !c.useDelay && Exhausted(c) && c.timesExecuted < U32_LIMIT - 1
    requires c.elapsed + dt >= Step(c.(elapsed := c.elapsed + dt))
    ensures var evs := Update(c, dt, reports).1;
      evs == [Triggered(Step(c.(elapsed := c.elapsed + dt))), Cancelled]
  {
  }
}
