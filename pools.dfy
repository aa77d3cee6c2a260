/** The free lists that recycle update-list nodes, update-hash values and
    timer-hash values. Each pool is an explicit object holding a LIFO stack
    of entry references: `GetFromPool` hands back the most recently pushed
    entry, overwritten with its arguments, or a new entry when the pool is
    empty. */
module Pools {
  import opened Systems
  import opened Scheduling

  /** How many `ListEntry` or `HashUpdateEntry` objects a pool keeps. */
  const MAX_POOL_SIZE: nat := 20

  /** The free list of `ListEntry` nodes. */
  class ListEntryPool {
    var entries: seq<ListEntry>

    ghost predicate Valid()
      reads this
    {
      |entries| <= MAX_POOL_SIZE
    }

    constructor ()
      ensures entries == [] && Valid()
    {
      entries := [];
    }

    /** Pops the last pooled entry and overwrites all four fields with the
        arguments, or builds a new entry from them when the pool is empty. */
    method GetFromPool(target: object?, priority: Priority, paused: bool, markedForDeletion: bool)
      returns (result: ListEntry)
      modifies this, if entries == [] then {} else {entries[|entries| - 1]}
      ensures result.target == target && result.priority == priority
      ensures result.paused == paused && result.markedForDeletion == markedForDeletion
      ensures old(entries) == [] ==> fresh(result) && entries == []
      ensures old(entries) != [] ==>
        result == old(entries)[|old(entries)| - 1] && entries == old(entries)[..|old(entries)| - 1]
      ensures old(Valid()) ==> Valid()
    {
      if entries != [] {
        result := entries[|entries| - 1];
        entries := entries[..|entries| - 1];
        result.target := target;
        result.priority := priority;
        result.paused := paused;
        result.markedForDeletion := markedForDeletion;
      } else {
        result := new ListEntry(target, priority, paused, markedForDeletion);
      }
    }

    /** Recycles `entry` with its target cleared while the pool holds fewer
        than `MAX_POOL_SIZE` entries; a full pool leaves everything as it is. */
    method PushToPool(entry: ListEntry)
      modifies this, entry
      ensures |old(entries)| < MAX_POOL_SIZE ==>
        entries == old(entries) + [entry] && entry.target == null
      ensures |old(entries)| >= MAX_POOL_SIZE ==>
        entries == old(entries) && entry.target == old(entry.target)
      ensures entry.priority == old(entry.priority) && entry.paused == old(entry.paused)
      ensures entry.markedForDeletion == old(entry.markedForDeletion)
      ensures old(Valid()) ==> Valid()
    {
      if |entries| < MAX_POOL_SIZE {
        entry.target := null;
        entries := entries + [entry];
      }
    }
  }

  /** The free list of `HashUpdateEntry` values. */
  class HashUpdateEntryPool {
    var entries: seq<HashUpdateEntry>

    ghost predicate Valid()
      reads this
    {
      |entries| <= MAX_POOL_SIZE
    }

    constructor ()
      ensures entries == [] && Valid()
    {
      entries := [];
    }

    /** Pops the last pooled entry and overwrites all four fields with the
        arguments, or builds a new entry from them when the pool is empty. */
    method GetFromPool(list: object?, entry: ListEntry?, target: object?, callback: Callback)
      returns (result: HashUpdateEntry)
      modifies this, if entries == [] then {} else {entries[|entries| - 1]}
      ensures result.list == list && result.entry == entry
      ensures result.target == target && result.callback == callback
      ensures old(entries) == [] ==> fresh(result) && entries == []
      ensures old(entries) != [] ==>
        result == old(entries)[|old(entries)| - 1] && entries == old(entries)[..|old(entries)| - 1]
      ensures old(Valid()) ==> Valid()
    {
      if entries != [] {
        result := entries[|entries| - 1];
        entries := entries[..|entries| - 1];
        result.list := list;
        result.entry := entry;
        result.target := target;
        result.callback := callback;
      } else {
        result := new HashUpdateEntry(list, entry, target, callback);
      }
    }

    /** Recycles `entry` with its callback emptied while the pool holds fewer
        than `MAX_POOL_SIZE` entries; a full pool leaves everything as it is.
        The list, list entry and target references are left in place. */
    method PushToPool(entry: HashUpdateEntry)
      modifies this, entry
      ensures |old(entries)| < MAX_POOL_SIZE ==>
        entries == old(entries) + [entry] && entry.callback == NoCallback
      ensures |old(entries)| >= MAX_POOL_SIZE ==>
        entries == old(entries) && entry.callback == old(entry.callback)
      ensures entry.list == old(entry.list) && entry.entry == old(entry.entry)
      ensures entry.target == old(entry.target)
      ensures old(Valid()) ==> Valid()
    {
      if |entries| < MAX_POOL_SIZE {
        entry.callback := NoCallback;
        entries := entries + [entry];
      }
    }
  }

  /** The free list of `HashTimerEntry` values. Unlike the other two pools it
      has no bound. */
  class HashTimerEntryPool {
    var entries: seq<HashTimerEntry>

    constructor ()
      ensures entries == []
    {
      entries := [];
    }

    /** As written: on an empty pool the arguments are ignored and a default
        entry comes back; on reuse the entry is released and every field but
        `target` is overwritten, so the target stays the pooled entry's. */
    method GetFromPool(timers: seq<Timer>, target: object?, timerIndex: u32, currentTimer: Timer?,
                       currentTimerSalvaged: bool, paused: bool)
      returns (result: HashTimerEntry)
      modifies this, if entries == [] then {} else {entries[|entries| - 1]}
      ensures old(entries) == [] ==>
        && fresh(result) && entries == []
        && result.timers == [] && result.target == null && result.timerIndex == 0
        && result.currentTimer == null && !result.currentTimerSalvaged && !result.paused
      ensures old(entries) != [] ==>
        && result == old(entries)[|old(entries)| - 1] && entries == old(entries)[..|old(entries)| - 1]
        && result.timers == timers && result.target == old(result.target)
        && result.timerIndex == timerIndex && result.currentTimer == currentTimer
        && result.currentTimerSalvaged == currentTimerSalvaged && result.paused == paused
    {
      if entries != [] {
        result := entries[|entries| - 1];
        entries := entries[..|entries| - 1];
        result.Release();
        result.timers := timers;
        result.currentTimer := currentTimer;
        result.timerIndex := timerIndex;
        result.currentTimerSalvaged := currentTimerSalvaged;
        result.paused := paused;
      } else {
        result := new HashTimerEntry.Default();
      }
    }

    /** `GetFromPool` as its callers need it: every field of the result holds
        its argument, whether the entry is reused or new. */
    method GetFromPoolCorrected(timers: seq<Timer>, target: object?, timerIndex: u32, currentTimer: Timer?,
                                currentTimerSalvaged: bool, paused: bool)
      returns (result: HashTimerEntry)
      modifies this, if entries == [] then {} else {entries[|entries| - 1]}
      ensures result.timers == timers && result.target == target && result.timerIndex == timerIndex
      ensures result.currentTimer == currentTimer
      ensures result.currentTimerSalvaged == currentTimerSalvaged && result.paused == paused
      ensures old(entries) == [] ==> fresh(result) && entries == []
      ensures old(entries) != [] ==>
        result == old(entries)[|old(entries)| - 1] && entries == old(entries)[..|old(entries)| - 1]
    {
      if entries != [] {
        result := entries[|entries| - 1];
        entries := entries[..|entries| - 1];
        result.Release();
        result.timers := timers;
        result.target := target;
        result.currentTimer := currentTimer;
        result.timerIndex := timerIndex;
        result.currentTimerSalvaged := currentTimerSalvaged;
        result.paused := paused;
      } else {
        result := new HashTimerEntry(timers, target, timerIndex, currentTimer, currentTimerSalvaged, paused);
      }
    }

    /** Recycles `entry` as it is, with no bound on the pool's size. */
    method PushToPool(entry: HashTimerEntry)
      modifies this
      ensures entries == old(entries) + [entry]
    {
      entries := entries + [entry];
    }
  }

  // ---------------------------------------------------------------------------
  // Recycling round trips

  /** An entry pushed to a pool that is not full is the one the next get
      hands back, carrying the new arguments, and the pool is as before. */
  method ListEntryRoundTrip(pool: ListEntryPool, entry: ListEntry, target: object?, priority: Priority,
                            paused: bool, markedForDeletion: bool)
    returns (result: ListEntry)
    requires pool.Valid() && |pool.entries| < MAX_POOL_SIZE
    modifies pool, entry
    ensures result == entry && pool.entries == old(pool.entries) && pool.Valid()
    ensures result.target == target && result.priority == priority
    ensures result.paused == paused && result.markedForDeletion == markedForDeletion
  {
    pool.PushToPool(entry);
    result := pool.GetFromPool(target, priority, paused, markedForDeletion);
  }

  /** Pushing to a full pool drops the entry: the next get hands back the
      entry that was on top before. */
  method ListEntryFullPoolDrops(pool: ListEntryPool, entry: ListEntry, target: object?, priority: Priority,
                                paused: bool, markedForDeletion: bool)
    returns (result: ListEntry)
    requires |pool.entries| == MAX_POOL_SIZE
    modifies pool, entry, pool.entries
    ensures result == old(pool.entries)[MAX_POOL_SIZE - 1]
    ensures pool.entries == old(pool.entries)[..MAX_POOL_SIZE - 1]
  {
    pool.PushToPool(entry);
    result := pool.GetFromPool(target, priority, paused, markedForDeletion);
  }

  /** An entry pushed to a pool that is not full is the one the next get
      hands back, carrying the new arguments, and the pool is as before. */
  method HashUpdateEntryRoundTrip(pool: HashUpdateEntryPool, entry: HashUpdateEntry, list: object?,
                                  listEntry: ListEntry?, target: object?, callback: Callback)
    returns (result: HashUpdateEntry)
    requires pool.Valid() && |pool.entries| < MAX_POOL_SIZE
    modifies pool, entry
    ensures result == entry && pool.entries == old(pool.entries) && pool.Valid()
    ensures result.list == list && result.entry == listEntry
    ensures result.target == target && result.callback == callback
  {
    pool.PushToPool(entry);
    result := pool.GetFromPool(list, listEntry, target, callback);
  }

  /** With the corrected get, an entry pushed to the timer-entry pool is the
      one the next get hands back, carrying every argument, and the pool is as
      before. */
  method HashTimerEntryRoundTrip(pool: HashTimerEntryPool, entry: HashTimerEntry, timers: seq<Timer>,
                                 target: object?, timerIndex: u32, currentTimer: Timer?,
                                 currentTimerSalvaged: bool, paused: bool)
    returns (result: HashTimerEntry)
    modifies pool, entry
    ensures result == entry && pool.entries == old(pool.entries)
    ensures result.timers == timers && result.target == target && result.timerIndex == timerIndex
    ensures result.currentTimer == currentTimer
    ensures result.currentTimerSalvaged == currentTimerSalvaged && result.paused == paused
  {
    pool.PushToPool(entry);
    result := pool.GetFromPoolCorrected(timers, target, timerIndex, currentTimer, currentTimerSalvaged, paused);
  }

  // ---------------------------------------------------------------------------
  // The timer-entry pool as written drops its arguments

  /** On an empty pool the entry handed back holds none of the timers asked
      for. */
  method EmptyPoolDropsTimers(pool: HashTimerEntryPool, timers: seq<Timer>, target: object?,
                              timerIndex: u32, currentTimer: Timer?, currentTimerSalvaged: bool, paused: bool)
    returns (result: HashTimerEntry)
    requires pool.entries == [] && timers != []
    modifies pool
    ensures result.timers != timers
  {
    result := pool.GetFromPool(timers, target, timerIndex, currentTimer, currentTimerSalvaged, paused);
  }

  /** On reuse the entry handed back keeps the target of the recycled entry,
      not the one asked for. */
  method ReuseKeepsStaleTarget(pool: HashTimerEntryPool, entry: HashTimerEntry, timers: seq<Timer>,
                               target: object?, timerIndex: u32, currentTimer: Timer?,
                               currentTimerSalvaged: bool, paused: bool)
    returns (result: HashTimerEntry)
    requires target != entry.target
    modifies pool, entry
    ensures result == entry && result.target != target
  {
    pool.PushToPool(entry);
    result := pool.GetFromPool(timers, target, timerIndex, currentTimer, currentTimerSalvaged, paused);
  }
}
