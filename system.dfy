/** The base header of the scheduler: unsigned 32-bit counters, the priority
    tiers, and the `System` base class with its priority comparator. */
module Systems {

  /** One past the largest `uint32_t`. */
  const U32_LIMIT: int := 0x1_0000_0000

  /** A `uint32_t` value. */
  type u32 = x: int | 0 <= x < 0x1_0000_0000

  /** The `Priority` enumeration; its underlying type is `uint32_t`. */
  datatype Priority = LOW | MEDIUM | HIGH | SCHEDULER {

    /** The enumerator's numeric value, which is what `<` and `>` compare. */
    function Value(): (v: u32)
      ensures v == 0 <==> this == LOW
    {
      match this
      case LOW => 0
      case MEDIUM => 100
      case HIGH => 200
      case SCHEDULER => 0x8000_0000
    }
  }

  /** The four tiers are strictly ordered by value, so no two share a value. */
  lemma PriorityValuesStrictlyOrdered(p: Priority, q: Priority)
    ensures LOW.Value() < MEDIUM.Value() < HIGH.Value() < SCHEDULER.Value()
    ensures p.Value() == q.Value() <==> p == q
  {
  }

  /** A system: an `ISchedulable` identity (`id`, `uuid`) with a priority and
      an edit-mode flag. */
  class System {
    var id: string
    var uuid: string
    var priority: Priority
    var executeInEditMode: bool

    /** `System() = default`: the in-class initialisers apply. */
    constructor ()
      ensures priority == LOW && !executeInEditMode
      ensures id == "" && uuid == ""
    {
      id := "";
      uuid := "";
      priority := LOW;
      executeInEditMode := false;
    }

    function GetId(): (s: string)
      reads this
      ensures s == id
    {
      id
    }

    method SetId(s: string)
      modifies this`id
      ensures GetId() == s
    {
      id := s;
    }

    function GetPriority(): (p: Priority)
      reads this
      ensures p == priority
    {
      priority
    }

    method SetPriority(p: Priority)
      modifies this`priority
      ensures GetPriority() == p
    {
      priority := p;
    }

    function GetExecuteInEditMode(): (b: bool)
      reads this
      ensures b == executeInEditMode
    {
      executeInEditMode
    }

    method SetExecuteInEditMode(b: bool)
      modifies this`executeInEditMode
      ensures GetExecuteInEditMode() == b
    {
      executeInEditMode := b;
    }

    /** Three-way comparator for sorting systems: positive when `a` must come
        after `b`, negative when before, so that higher priorities sort first. */
    static function SortByPriority(a: System, b: System): (r: int)
      reads a, b
      ensures r == 1 || r == 0 || r == -1
      ensures r > 0 <==> a.priority.Value() < b.priority.Value()
      ensures r < 0 <==> b.priority.Value() < a.priority.Value()
      ensures r == 0 <==> a.priority == b.priority
    {
      PriorityValuesStrictlyOrdered(a.priority, b.priority);
      if a.priority.Value() < b.priority.Value() then 1
      else if a.priority.Value() > b.priority.Value() then -1
      else 0
    }
  }

  /** Swapping the arguments negates the comparison. */
  lemma SortByPriorityAntisymmetric(a: System, b: System)
    ensures System.SortByPriority(a, b) == -System.SortByPriority(b, a)
  {
  }

  /** "`a` sorts no later than `b`" (`SortByPriority(a, b) <= 0`) is a total
      preorder: total and transitive. */
  lemma SortByPriorityTotalPreorder(a: System, b: System, c: System)
    ensures System.SortByPriority(a, b) <= 0 || System.SortByPriority(b, a) <= 0
    ensures System.SortByPriority(a, b) <= 0 && System.SortByPriority(b, c) <= 0
            ==> System.SortByPriority(a, c) <= 0
    ensures System.SortByPriority(a, b) < 0 && System.SortByPriority(b, c) < 0
            ==> System.SortByPriority(a, c) < 0
  {
  }
}
