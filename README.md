# Scheduler core: a Dafny model

The scheduler core of this engine runs callbacks once a frame. It has three parts:

- **Timers.** A `TimerTargetCallback` is bound to a target, a callback, a key, an interval, a repeat count and an initial delay.
  - Each frame the scheduler calls `Timer::update(dt)`.
  - The first update after a setup only primes the timer.
  - Later updates add `dt` to the elapsed time. They fire the pending delay once. Then, while a whole interval has accumulated, they call `trigger(interval)`.
  - With no positive interval, the timer fires once per frame with everything accumulated.
  - A timer that does not run for ever calls `cancel()` on the trigger that takes its execution count past `repeat`, and the update stops there. Within one update it therefore fires at most `repeat + 1` times from a fresh count, when `repeat` is below `UINT_MAX`.
  - `TimerTargetCallback::cancel` is empty, so nothing unschedules an exhausted timer. A later update that accumulates another step triggers it again and calls `cancel()` again. The "repeat + 1 times" of `schedule`'s documentation therefore holds within one update only, not over the timer's life.
  - With `repeat == UINT_MAX`, the count wraps to zero before it can exceed `repeat`, so such a timer is never cancelled.
  - The interval loop also stops when the elapsed time reaches zero, and when the scheduler reports that the current timer was salvaged.
- **Entries and pools.** Update-list nodes (`ListEntry`), update-hash values (`HashUpdateEntry`) and timer-hash values (`HashTimerEntry`) are recycled through static free lists.
  - `getFromPool` pops the most recently pushed entry and overwrites it, or allocates a new one.
  - `pushToPool` recycles an entry. The first two pools keep at most `MAX_POOL_SIZE` (20) entries.
- **Systems.** A `System` has an identity, a priority tier (`LOW`, `MEDIUM`, `HIGH`, `SCHEDULER`) and an edit-mode flag. `sortByPriority` is a three-way comparator that puts higher priorities first. The `Scheduler` is a system holding update lists, hashes, a time scale and two flags.

The model has four modules:

- `Systems` (`system.dfy`): `uint32_t` as `u32`, the `Priority` tiers, and the `System` class with its comparator.
- `TimerClock` (`timer_clock.dfy`): the arithmetic of `Timer::update` as pure functions over the clock fields.
  - An update returns the new clock and a trace of the `trigger(dt)` and `cancel()` calls it made.
  - The lemmas prove what that accounting guarantees: time conservation, execution counting modulo 2^32, uniform slices, the cancel discipline, the priming step, the delay, and that the loop drains below one interval.
- `Scheduling` (`scheduler.dfy`): the `Timer` class with the source's fields, and the three entry classes.
  - `Timer.Update` is the imperative loop. Its postcondition is that the new clock and the calls it made are exactly those of `TimerClock.Update`.
  - It is proved with loop invariants against that specification. The ghost `calls` log records what the callback receives.
- `Pools` (`pools.dfy`): the three free lists as objects, with recycling round trips and the behaviour of the timer-entry pool as written.

Float arithmetic is modelled as exact `real` arithmetic. `uint32_t` counters wrap explicitly (`Inc32`).

## Model

| member | source | states |
|---|---|---|
| Systems.Priority.Value | source/core/System.h:47-52 | the value of a tier is zero exactly for `LOW` |
| Systems.PriorityValuesStrictlyOrdered | source/core/System.h:47-52 | `LOW < MEDIUM < HIGH < SCHEDULER` by value, so two tiers have the same value only when they are the same tier |
| Systems.System.constructor | source/core/System.h:58-59 | a default system has priority `LOW`, edit mode off and an empty identity |
| Systems.System.GetId | source/core/System.h:81 | answers the identity string |
| Systems.System.SetId | source/core/System.h:81-82 | after `setId(s)`, `getId()` answers `s` |
| Systems.System.GetPriority | source/core/System.h:84 | answers the priority tier |
| Systems.System.SetPriority | source/core/System.h:84-85 | after `setPriority(p)`, `getPriority()` answers `p` |
| Systems.System.GetExecuteInEditMode | source/core/System.h:87 | answers the edit-mode flag |
| Systems.System.SetExecuteInEditMode | source/core/System.h:87-88 | after `setExecuteInEditMode(b)`, `getExecuteInEditMode()` answers `b` |
| Systems.System.SortByPriority | source/core/System.h:68-76 | the result is 1, 0 or -1. It is positive iff `a`'s priority value is below `b`'s, negative iff it is above, and zero iff the priorities are equal |
| Systems.SortByPriorityAntisymmetric | source/core/System.h:68-76 | swapping the arguments negates the result |
| Systems.SortByPriorityTotalPreorder | source/core/System.h:68-76 | "sorts no later than" is total and transitive, and "sorts strictly before" is transitive |
| TimerClock.Drain | source/core/Scheduler.cpp:71-90 | the interval loop changes only the elapsed time and the execution count of the clock |
| TimerClock.Settle | source/core/Scheduler.cpp:55-90 | the delay step followed by the loop changes only elapsed, the count and the delay flag, and never sets the delay flag |
| TimerClock.Update | source/core/Scheduler.cpp:45-91 | an update changes only elapsed, the count and the delay flag, and never sets the delay flag |
| TimerClock.DrainConservesTime | source/core/Scheduler.cpp:73-76 | the elapsed time before the loop equals the elapsed time after it plus the sum of the trigger arguments, and a non-negative clock stays non-negative |
| TimerClock.DrainCounts | source/core/Scheduler.cpp:73-76 | the count grows by the number of triggers modulo 2^32. The loop makes no call iff less than one step has accumulated, and then leaves the clock as it was |
| TimerClock.DrainShape | source/core/Scheduler.cpp:73-81 | every trigger of the loop receives the same step, a cancel can only close the trace, and the trace is cancelled iff some trigger happened and the clock ends exhausted |
| TimerClock.DrainHeedsSalvage | source/core/Scheduler.cpp:73-90 | the loop goes on past a trigger only when no salvage was reported after it |
| TimerClock.DrainStops | source/core/Scheduler.cpp:73-90 | with a positive step, the loop leaves at least one step of elapsed time only when a cancel or a salvage report after its last trigger stopped it |
| TimerClock.UpdatePrimes | source/core/Scheduler.cpp:46-50 | the first update after a setup sets elapsed and the count to zero, makes no call, and ignores `dt` |
| TimerClock.UpdateConservesTime | source/core/Scheduler.cpp:53-76 | old elapsed plus `dt` equals new elapsed plus everything handed to `trigger`, the delay included |
| TimerClock.UpdateCountsTriggers | source/core/Scheduler.cpp:60-76 | the execution count grows by the number of triggers, modulo 2^32 |
| TimerClock.UpdateWaitsForDelay | source/core/Scheduler.cpp:56-59 | below a pending delay, only the elapsed time advances and no call is made |
| TimerClock.UpdateFiresDelay | source/core/Scheduler.cpp:56-63 | once the delay is reached, the first trigger receives exactly the delay and the delay flag is cleared |
| TimerClock.UpdateUniformSlices | source/core/Scheduler.cpp:71-75 | every trigger after the delay trigger receives the interval when it is positive, else the elapsed time at loop entry |
| TimerClock.UpdateEveryFrame | source/core/Scheduler.cpp:71-85 | with no positive interval, an update that reaches the loop triggers exactly once there, hands over the whole accumulated time and leaves elapsed at zero |
| TimerClock.UpdateKeepsConsistent | source/core/Scheduler.cpp:46-84 | with `dt >= 0`, a consistent clock stays consistent (a pending delay stays positive), and the elapsed time after any update is non-negative, never the not-started sentinel |
| TimerClock.UpdateDrainsBelowInterval | source/core/Scheduler.cpp:73-89 | with a positive interval, an update that reaches the loop leaves less than one interval unless a cancel closed the trace or a salvage was reported after the last trigger. No earlier trigger had a salvage reported |
| TimerClock.DrainStopsAtExhaustion | source/core/Scheduler.cpp:73-81 | no trigger of the loop but the last leaves the count past `repeat` |
| TimerClock.UpdateStopsAtRepeat | source/core/Scheduler.cpp:56-81 | within an update, no trigger but the last (the delay trigger included) leaves the count past `repeat` |
| TimerClock.UpdateFiresAtMostRepeatPlusOne | source/core/Scheduler.cpp:62-81 | a timer that does not run for ever, whose count has not passed `repeat` and whose `repeat` is below `UINT_MAX`, fires at most `repeat - timesExecuted + 1` times in one update |
| TimerClock.UpdateFiresAgainAfterExhaustion | source/core/Scheduler.cpp:73-81 | an exhausted timer with no pending delay, whose count is below `UINT_MAX`, fires once more and cancels again when another step has accumulated. `cancel()` does not stop it |
| TimerClock.UpdateCancelsOnExhaustion | source/core/Scheduler.cpp:64-81 | at most one cancel, last and right after a trigger. The trace holds a cancel iff something fired and the count exceeds `repeat` on a timer that does not run for ever. A timer that runs for ever is never cancelled |
| Scheduling.Timer.constructor | source/core/Scheduler.h:57-64 | a new timer has every clock field zero or false, and no scheduler, target, callback or key |
| Scheduling.Timer.GetInterval | source/core/Scheduler.h:42 | answers the interval the update reads |
| Scheduling.Timer.GetCallback | source/core/Scheduler.h:74 | answers the bound callback |
| Scheduling.Timer.GetKey | source/core/Scheduler.h:75 | answers the key |
| Scheduling.Timer.SetInterval | source/core/Scheduler.h:42-44 | `getInterval()` answers the new interval and no other clock field changes |
| Scheduling.Timer.SetupTimerWithInterval | source/core/Scheduler.cpp:36-43 | the timer is armed: elapsed is the sentinel, a delay is pending iff it is positive, it runs for ever iff `repeat` is `CC_REPEAT_FOREVER`, and the count is untouched |
| Scheduling.Timer.InitWithCallback | source/core/Scheduler.cpp:95-102 | the timer is bound to the scheduler, target, callback and key and armed as by the setup, and the call answers true |
| Scheduling.Timer.Trigger | source/core/Scheduler.cpp:104-108 | the callback receives `dt` exactly when one is bound |
| Scheduling.Timer.Cancel | source/core/Scheduler.cpp:110-111 | the call changes no field; only the trace records it |
| Scheduling.Timer.Update | source/core/Scheduler.cpp:45-91 | the new clock and the calls made are exactly those of `TimerClock.Update`, and the callback receives exactly the trigger arguments |
| Scheduling.Timer.Settle | source/core/Scheduler.cpp:55-90 | after the time is accumulated, the delay step and loop give exactly `TimerClock.Settle` |
| Scheduling.Timer.FireOnce | source/core/Scheduler.cpp:74-76 | one trigger with `step`, elapsed less `step`, and the count incremented modulo 2^32 |
| Scheduling.Timer.Round | source/core/Scheduler.cpp:74-89 | one loop round. It asks to stop iff the timer was exhausted and cancelled, elapsed reached zero, or a salvage was reported |
| Scheduling.Timer.RunInterval | source/core/Scheduler.cpp:71-90 | the while loop gives exactly `TimerClock.Drain` with the interval or the accumulated time as its step |
| Scheduling.ListEntry.Default | source/core/Scheduler.h:97-100 | a default node has no target, priority `LOW`, and is neither paused nor marked for deletion |
| Scheduling.ListEntry.constructor | source/core/Scheduler.cpp:116-123 | every field holds its argument |
| Scheduling.HashUpdateEntry.Default | source/core/Scheduler.h:126-129 | a default value has no list, entry, target or callback |
| Scheduling.HashUpdateEntry.constructor | source/core/Scheduler.cpp:159-166 | every field holds its argument |
| Scheduling.HashTimerEntry.Default | source/core/Scheduler.h:156-161 | a default value has no timers, target or current timer, index 0, and both flags off |
| Scheduling.HashTimerEntry.constructor | source/core/Scheduler.cpp:201-212 | every field holds its argument |
| Scheduling.HashTimerEntry.Release | source/core/Scheduler.cpp:216-226 | the current timer is forgotten and the timer list emptied; the target field is not reset |
| Scheduling.Scheduler.constructor | source/core/Scheduler.h:198-210 | time scale 1, empty lists and hashes, no current timer, and both flags off |
| Scheduling.Scheduler.IsCurrentTimerSalvaged | source/core/Scheduler.h:224 | answers the salvage flag that a timer's update consults after each loop trigger |
| Scheduling.Scheduler.IsUpdateHashLocked | source/core/Scheduler.h:226 | answers the update-hash lock flag |
| Scheduling.Scheduler.GetTimeScale | source/core/Scheduler.h:244 | answers the time scale |
| Scheduling.Scheduler.SetTimeScale | source/core/Scheduler.h:243-244 | `getTimeScale()` answers the new scale |
| Pools.ListEntryPool.constructor | source/core/Scheduler.cpp:114 | the pool starts empty, within its bound |
| Pools.HashUpdateEntryPool.constructor | source/core/Scheduler.cpp:157 | the pool starts empty, within its bound |
| Pools.HashTimerEntryPool.constructor | source/core/Scheduler.cpp:200 | the pool starts empty |
| Pools.ListEntryPool.GetFromPool | source/core/Scheduler.cpp:128-146 | all four fields hold the arguments. On a non-empty pool the result is the last pooled entry, popped; on an empty pool it is a new entry. The bound is kept |
| Pools.ListEntryPool.PushToPool | source/core/Scheduler.cpp:147-153 | below the bound, the entry is appended with its target cleared; at the bound nothing changes. The bound is kept |
| Pools.HashUpdateEntryPool.GetFromPool | source/core/Scheduler.cpp:171-188 | all four fields hold the arguments, and the result is the popped entry or a new one |
| Pools.HashUpdateEntryPool.PushToPool | source/core/Scheduler.cpp:189-195 | below the bound, the entry is appended with its callback emptied and its references kept; at the bound nothing changes |
| Pools.HashTimerEntryPool.GetFromPool | source/core/Scheduler.cpp:227-247 | as written: an empty pool gives a default entry whatever the arguments. Reuse pops the last entry and sets every field but `target` from the arguments |
| Pools.HashTimerEntryPool.GetFromPoolCorrected | source/core/Scheduler.cpp:227-247 | every field of the result holds its argument, whether the entry is reused or new |
| Pools.HashTimerEntryPool.PushToPool | source/core/Scheduler.cpp:248-250 | the entry is appended, with no bound |
| Pools.ListEntryRoundTrip | source/core/Scheduler.cpp:128-153 | pushing to a pool below the bound and then getting hands back the same node with the new fields, and leaves the pool as before |
| Pools.ListEntryFullPoolDrops | source/core/Scheduler.cpp:147-153 | pushing to a full pool drops the entry, so the next get pops the entry that was on top before |
| Pools.HashUpdateEntryRoundTrip | source/core/Scheduler.cpp:171-195 | pushing to a pool below the bound and then getting hands back the same value with the new fields, and leaves the pool as before |
| Pools.HashTimerEntryRoundTrip | source/core/Scheduler.cpp:227-250 | with the corrected get, push then get hands back the same value with every new field, and leaves the pool as before |
| Pools.EmptyPoolDropsTimers | source/core/Scheduler.cpp:244-246 | on an empty pool, the entry got holds none of the timers asked for |
| Pools.ReuseKeepsStaleTarget | source/core/Scheduler.cpp:233-243 | a reused entry keeps its old target instead of the one asked for |

## Left out

- The scheduler's own operations (scheduling, unscheduling, pausing, `update` over the lists and hashes, `_priorityIn`/`_appendIn`, `enableForTarget`) are declared in `Scheduler.h` without bodies; `Scheduler::Scheduler()` is commented out in `Scheduler.cpp`. Only the scheduler's fields, their initialisers and its inline accessors are modelled.
- Callback bodies are foreign code:
  - the model records the argument of each invocation in the ghost `calls` log;
  - the model assumes their only effect on `update` is through `isCurrentTimerSalvaged()`, which becomes the `reports` sequence of answers;
  - a callback that holds its timer could call the public `setInterval` during the delay trigger, before the interval is read, and so change the loop's step. The model does not capture this;
  - the `_scheduler` pointer is kept as a field but not followed.
- `float` rounding is not modelled: times are exact `real` values. A float loop can stop early, or repeat, where exact arithmetic does not.
- `Timer` and `TimerTargetCallback` are flattened into one class. `setupTimerWithInterval`, `trigger` and `cancel` are pure virtual in `Timer`. This derived class holds the only definitions of `trigger` and `cancel`. For `setupTimerWithInterval`, the derived class's override is declared but never defined, and the only definition is the base one in `Scheduler.cpp`, which the model uses.
- Memory management (`new`/`delete`, destructors) is left out. The model does not capture:
  - the entries `pushToPool` leaks when a pool is full;
  - `HashTimerEntry::release` deleting its timers and target;
  - `HashUpdateEntry::release`, whose comma expression `delete _list, _entry, _target` deletes only `_list` and changes no field, so recycling a hash-update entry leaves its references in place.
- The static pool vectors become pool objects that are passed explicitly, so two pools of one kind can coexist in the model.
- The `System` base part of `Scheduler` is not repeated in the `Scheduler` class.
- `ISchedulable` identity strings are plain `string` values.
- Scheduling.Timer.Update: the salvage answers always come from `reports`, even when the timer's `scheduler` is null (its default, `Scheduler.h:57`). The source dereferences `_scheduler` at `Scheduler.cpp:87` after every loop trigger that neither cancels the timer nor empties the clock, so with a null scheduler it fails there. For example, after setup with interval 1 and repeat 5, priming, and then `update(3)`, the source fails after the first trigger while the model fires three times. The model does not capture that failure. `InitWithCallback` accepts a null scheduler, as `Scheduler.cpp:95-96` does.
- Systems.Priority: only the four named enumerators are modelled. `enum struct Priority : uint32_t` can hold any `uint32_t`, for example one converted by a cast, and `setPriority` accepts it. For such values, the comparator's facts would read as comparisons of raw numbers, not of tiers.
- The export macros and the demo and test programs (`Main.cpp`, `Tests.cpp`) are not part of this model.
- Where the timer-entry pool departs from the other two pools and from its own six-argument constructor (`Scheduler.cpp:201-212`), the model follows the code:
  - the timer-entry pool has no size bound, unlike the other two;
  - its `getFromPool` neither builds from its arguments on an empty pool nor sets the target on reuse (see Findings).

## Findings

| source | as written | input that shows it | evidently intended | confidence | as-written member | corrected member |
|---|---|---|---|---|---|---|
| source/core/Scheduler.cpp:227-247 | `HashTimerEntry::getFromPool` returns `new HashTimerEntry()` on an empty pool, dropping all six arguments. On reuse it never assigns `_target`, so the entry keeps the recycled entry's (already deleted) target | an empty pool and a non-empty `timers` argument gives an entry with no timers; a pooled entry whose target differs from the requested one keeps the old target | every field of the entry handed back holds its argument, as the other two pools and the six-argument constructor do | not executed | Pools.HashTimerEntryPool.GetFromPool, shown by Pools.EmptyPoolDropsTimers and Pools.ReuseKeepsStaleTarget | Pools.HashTimerEntryPool.GetFromPoolCorrected, with Pools.HashTimerEntryRoundTrip |
