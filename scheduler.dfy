/** The scheduler's objects: the callback timer, the update-list and hash
    entries, and the scheduler's own state with its inline accessors. */
module Scheduling {
  import opened Systems
  import opened TimerClock

  /** A `ccSchedulerFunc` (`std::function<void(float)>`) held by value: empty,
      or bound to some function whose body is foreign code and is known here
      only by an identity. */
  datatype Callback = NoCallback | Bound(fn: nat)

  /** A `TimerTargetCallback`, the one concrete kind of `Timer`: the timer's
      clock fields plus the scheduler, target, callback and key it is bound
      to. The ghost `events` trace records every `trigger(dt)` and `cancel()`
      the timer makes on itself, and the ghost `calls` log the argument of
      every invocation of its callback. */
  class Timer {
    var scheduler: Scheduler?
    var elapsed: real
    var runForever: bool
    var useDelay: bool
    var timesExecuted: u32
    var repeat: u32
    var delay: real
    var interval: real
    var target: object?
    var callback: Callback
    var key: string
    ghost var events: seq<Event>
    ghost var calls: seq<real>

    function ClockOf(): Clock
      reads this
    {
      Clock(elapsed, runForever, useDelay, timesExecuted, repeat, delay, interval)
    }

    /** `TimerTargetCallback() = default`: every field at its initialiser. */
    constructor ()
      ensures ClockOf() == Clock(0.0, false, false, 0, 0, 0.0, 0.0)
      ensures Consistent(ClockOf())
      ensures scheduler == null && target == null && callback == NoCallback && key == ""
      ensures events == [] && calls == []
    {
      scheduler := null;
      elapsed := 0.0;
      runForever := false;
      useDelay := false;
      timesExecuted := 0;
      repeat := 0;
      delay := 0.0;
      interval := 0.0;
      target := null;
      callback := NoCallback;
      key := "";
      events := [];
      calls := [];
    }

    /** The interval the next update slices elapsed time by. */
    function GetInterval(): (x: real)
      reads this
      ensures x == ClockOf().interval
    {
      interval
    }

    method SetInterval(x: real)
      modifies this`interval
      ensures GetInterval() == x
      ensures ClockOf() == old(ClockOf()).(interval := x)
    {
      interval := x;
    }

    /** Arms the timer: the next update only primes it. A delay is pending
        exactly when it is positive, and the timer runs for ever exactly when
        `repeat` is `CC_REPEAT_FOREVER`. The execution count is left alone. */
    method SetupTimerWithInterval(seconds: real, repeat: u32, delay: real)
      modifies this`elapsed, this`interval, this`delay, this`useDelay, this`repeat, this`runForever
      ensures ClockOf() == old(ClockOf()).(elapsed := NOT_STARTED, interval := seconds, delay := delay,
                                          useDelay := delay > 0.0, repeat := repeat,
                                          runForever := repeat == REPEAT_FOREVER)
      ensures Consistent(ClockOf())
    {
      elapsed := NOT_STARTED;
      interval := seconds;
      this.delay := delay;
      useDelay := this.delay > 0.0;
      this.repeat := repeat;
      runForever := this.repeat == REPEAT_FOREVER;
    }

    /** Binds the timer and arms it; always succeeds. */
    method InitWithCallback(scheduler: Scheduler?, callback: Callback, target: object?, key: string,
                            seconds: real, repeat: u32, delay: real) returns (ok: bool)
      modifies this
      ensures ok
      ensures this.scheduler == scheduler && this.target == target
      ensures GetCallback() == callback && GetKey() == key
      ensures ClockOf() == old(ClockOf()).(elapsed := NOT_STARTED, interval := seconds, delay := delay,
                                          useDelay := delay > 0.0, repeat := repeat,
                                          runForever := repeat == REPEAT_FOREVER)
      ensures Consistent(ClockOf())
      ensures events == old(events) && calls == old(calls)
    {
      this.scheduler := scheduler;
      this.target := target;
      this.callback := callback;
      this.key := key;
      SetupTimerWithInterval(seconds, repeat, delay);
      return true;
    }

    function GetCallback(): (cb: Callback)
      reads this
      ensures cb == callback
    {
      callback
    }

    function GetKey(): (k: string)
      reads this
      ensures k == key
    {
      key
    }

    /** Hands `dt` to the bound callback, if there is one. */
    method Trigger(dt: real)
      modifies this`events, this`calls
      ensures events == old(events) + [Triggered(dt)]
      ensures calls == old(calls) + if callback.Bound? then [dt] else []
    {
      events := events + [Triggered(dt)];
      if callback.Bound? {
        calls := calls + [dt];
      }
    }

    /** The callback timer's `cancel` does nothing; the model records the call. */
    method Cancel()
      modifies this`events
      ensures events == old(events) + [Cancelled]
    {
      events := events + [Cancelled];
    }

    /** One frame of the timer. `reports[k]` is what the scheduler answers to
        `isCurrentTimerSalvaged()` after the (k+1)-th trigger of the interval
        loop (past the end of `reports`, "not salvaged"). The new clock and the
        calls made are exactly those of the specification `TimerClock.Update`,
        and the callback receives the arguments of those triggers. */
    method Update(dt: real, reports: seq<bool>)
      modifies this`elapsed, this`timesExecuted, this`useDelay, this`events, this`calls
      ensures var r := TimerClock.Update(old(ClockOf()), dt, reports);
        ClockOf() == r.0 && events == old(events) + r.1
      ensures calls == old(calls) +
        if callback.Bound? then Args(TimerClock.Update(old(ClockOf()), dt, reports).1) else []
    {
      if elapsed == NOT_STARTED {
        elapsed := 0.0;
        timesExecuted := 0;
        return;
      }
      elapsed := elapsed + dt;
      Settle(reports);
    }

    /** The rest of an update once `dt` is accumulated: the pending delay,
        then the interval loop. */
    method Settle(reports: seq<bool>)
      modifies this`elapsed, this`timesExecuted, this`useDelay, this`events, this`calls
      ensures var r := TimerClock.Settle(old(ClockOf()), reports);
        ClockOf() == r.0 && events == old(events) + r.1
      ensures calls == old(calls) +
        if callback.Bound? then Args(TimerClock.Settle(old(ClockOf()), reports).1) else []
    {
      if useDelay {
        if elapsed < delay {
          return;
        }
        ghost var a := ClockOf();
        FireOnce(delay);
        useDelay := false;
        if !runForever && timesExecuted > repeat {
          Cancel();
          ArgsTriggerCancel(delay);
          ConcatAssoc(old(events), [Triggered(a.delay)], [Cancelled]);
          return;
        }
        ghost var d := ClockOf();
        RunInterval(reports);
        SettleAfterDelay(a, reports);
        ConcatAssoc(old(events), [Triggered(a.delay)], Drain(d, Step(d), reports, 0).1);
        ConcatAssoc(old(calls), [a.delay], Args(Drain(d, Step(d), reports, 0).1));
      } else {
        RunInterval(reports);
      }
    }

    /** One round of the interval loop: trigger with `step`, take `step` off
        the elapsed time and count the execution. */
    method FireOnce(step: real)
      modifies this`elapsed, this`timesExecuted, this`events, this`calls
      ensures ClockOf() == Fire(old(ClockOf()), step)
      ensures events == old(events) + [Triggered(step)]
      ensures calls == old(calls) + if callback.Bound? then [step] else []
    {
      Trigger(step);
      elapsed := elapsed - step;
      timesExecuted := Inc32(timesExecuted);
    }

    /** One round of the interval loop, up to the decision whether to leave
        it: trigger, count, cancel when the repeats are used up, and stop also
        on an empty clock or when the scheduler reports the salvage check
        `reports[j]` as true. */
    method Round(step: real, reports: seq<bool>, j: nat) returns (stop: bool)
      modifies this`elapsed, this`timesExecuted, this`events, this`calls
      ensures ClockOf() == Fire(old(ClockOf()), step)
      ensures events == old(events) +
        (if Exhausted(ClockOf()) then [Triggered(step), Cancelled] else [Triggered(step)])
      ensures calls == old(calls) + if callback.Bound? then [step] else []
      ensures stop <==> Exhausted(ClockOf()) || elapsed <= 0.0 || Reported(reports, j)
    {
      FireOnce(step);
      if !runForever && timesExecuted > repeat {
        Cancel();
        ConcatAssoc(old(events), [Triggered(step)], [Cancelled]);
        return true;
      }
      if elapsed <= 0.0 {
        return true;
      }
      // `_scheduler->isCurrentTimerSalvaged()`
      stop := Reported(reports, j);
    }

    /** The interval loop of an update: fires slices of `Step` while enough
        time has accumulated, stopping at a cancel, at an empty clock or at a
        salvage report. */
    method RunInterval(reports: seq<bool>)
      modifies this`elapsed, this`timesExecuted, this`events, this`calls
      ensures var r := Drain(old(ClockOf()), Step(old(ClockOf())), reports, 0);
        ClockOf() == r.0 && events == old(events) + r.1
      ensures calls == old(calls) +
        if callback.Bound? then Args(Drain(old(ClockOf()), Step(old(ClockOf())), reports, 0).1) else []
    {
      var step := if interval > 0.0 then interval else elapsed;
      ghost var c0 := ClockOf();
      ghost var goal := Drain(c0, step, reports, 0);
      assert goal == Drain(old(ClockOf()), Step(old(ClockOf())), reports, 0);
      ghost var done: seq<Event> := [];
      ghost var rest := goal;
      var j := 0;
      assert done + rest.1 == rest.1;
      while elapsed >= step
        invariant step > 0.0 || step == elapsed
        invariant rest == Drain(ClockOf(), step, reports, j)
        invariant goal == (rest.0, done + rest.1)
        invariant events == old(events) + done
        invariant calls == old(calls) + if callback.Bound? then Args(done) else []
        decreases |rest.1|
      {
        ghost var before := ClockOf();
        var stop := Round(step, reports, j);
        if stop {
          DrainBreak(goal, before, step, reports, j, done);
          ghost var tail := if Exhausted(ClockOf()) then [Triggered(step), Cancelled] else [Triggered(step)];
          ConcatAssoc(old(events), done, tail);
          ConcatAssoc(old(calls), Args(done), [step]);
          done := done + tail;
          break;
        }
        DrainContinue(goal, before, step, reports, j, done);
        ConcatAssoc(old(events), done, [Triggered(step)]);
        ConcatAssoc(old(calls), Args(done), [step]);
        done := done + [Triggered(step)];
        j := j + 1;
        rest := Drain(ClockOf(), step, reports, j);
      }
      assert goal == (ClockOf(), done) by {
        if elapsed < step {
          assert done + [] == done;
        }
      }
    }
  }

  /** A node of an update list: one target's registration for per-frame
      updates. */
  class ListEntry {
    var target: object?
    var priority: Priority
    var paused: bool
    var markedForDeletion: bool

    /** `ListEntry() {}`: the in-class initialisers apply. */
    constructor Default()
      ensures target == null && priority == LOW && !paused && !markedForDeletion
    {
      target := null;
      priority := LOW;
      paused := false;
      markedForDeletion := false;
    }

    constructor (target: object?, priority: Priority, paused: bool, markedForDeletion: bool)
      ensures this.target == target && this.priority == priority
      ensures this.paused == paused && this.markedForDeletion == markedForDeletion
    {
      this.target := target;
      this.priority := priority;
      this.paused := paused;
      this.markedForDeletion := markedForDeletion;
    }
  }

  /** The update hash's value for one target: its list, its list entry and
      its update callback. */
  class HashUpdateEntry {
    var list: object?
    var entry: ListEntry?
    var target: object?
    var callback: Callback

    /** `HashUpdateEntry() {}`: the in-class initialisers apply. */
    constructor Default()
      ensures list == null && entry == null && target == null && callback == NoCallback
    {
      list := null;
      entry := null;
      target := null;
      callback := NoCallback;
    }

    constructor (list: object?, entry: ListEntry?, target: object?, callback: Callback)
      ensures this.list == list && this.entry == entry
      ensures this.target == target && this.callback == callback
    {
      this.list := list;
      this.entry := entry;
      this.target := target;
      this.callback := callback;
    }
  }

  /** The timer hash's value for one target: its timers and the bookkeeping
      for iterating them while callbacks add or remove timers. */
  class HashTimerEntry {
    var timers: seq<Timer>
    var target: object?
    var timerIndex: u32
    var currentTimer: Timer?
    var currentTimerSalvaged: bool
    var paused: bool

    /** `HashTimerEntry() {}`: the in-class initialisers apply. */
    constructor Default()
      ensures timers == [] && target == null && timerIndex == 0
      ensures currentTimer == null && !currentTimerSalvaged && !paused
    {
      timers := [];
      target := null;
      timerIndex := 0;
      currentTimer := null;
      currentTimerSalvaged := false;
      paused := false;
    }

    constructor (timers: seq<Timer>, target: object?, timerIndex: u32, currentTimer: Timer?,
                 currentTimerSalvaged: bool, paused: bool)
      ensures this.timers == timers && this.target == target && this.timerIndex == timerIndex
      ensures this.currentTimer == currentTimer
      ensures this.currentTimerSalvaged == currentTimerSalvaged && this.paused == paused
    {
      this.timers := timers;
      this.target := target;
      this.timerIndex := timerIndex;
      this.currentTimer := currentTimer;
      this.currentTimerSalvaged := currentTimerSalvaged;
      this.paused := paused;
    }

    /** Gives up the entry's timers and forgets the current one; the target
        reference is left as it is. */
    method Release()
      modifies this`currentTimer, this`timers
      ensures currentTimer == null && timers == []
    {
      currentTimer := null;
      timers := [];
    }
  }

  /** The scheduler's state: three update lists by sign of priority, the two
      hashes keyed by target, and the flags timers consult while they are
      being dispatched. */
  class Scheduler {
    var timeScale: real
    var updatesNegList: seq<ListEntry>
    var updates0List: seq<ListEntry>
    var updatesPosList: seq<ListEntry>
    var hashForUpdates: map<object, HashUpdateEntry>
    var hashForTimers: map<object, HashTimerEntry>
    var currentTimer: HashTimerEntry?
    var currentTimerSalvaged: bool
    var updateHashLocked: bool
    var arrayForTimers: seq<Timer>

    /** A new scheduler: time runs at scale 1, nothing is scheduled, no timer
        is being dispatched and neither flag is set. */
    constructor ()
      ensures GetTimeScale() == 1.0
      ensures updatesNegList == [] && updates0List == [] && updatesPosList == []
      ensures hashForUpdates == map[] && hashForTimers == map[]
      ensures currentTimer == null && arrayForTimers == []
      ensures !IsCurrentTimerSalvaged() && !IsUpdateHashLocked()
    {
      timeScale := 1.0;
      updatesNegList := [];
      updates0List := [];
      updatesPosList := [];
      hashForUpdates := map[];
      hashForTimers := map[];
      currentTimer := null;
      currentTimerSalvaged := false;
      updateHashLocked := false;
      arrayForTimers := [];
    }

    /** What a timer's update consults after each trigger of its loop. */
    function IsCurrentTimerSalvaged(): (b: bool)
      reads this
      ensures b == currentTimerSalvaged
    {
      currentTimerSalvaged
    }

    function IsUpdateHashLocked(): (b: bool)
      reads this
      ensures b == updateHashLocked
    {
      updateHashLocked
    }

    function GetTimeScale(): (t: real)
      reads this
      ensures t == timeScale
    {
      timeScale
    }

    method SetTimeScale(t: real)
      modifies this`timeScale
      ensures GetTimeScale() == t
    {
      timeScale := t;
    }
  }
}
