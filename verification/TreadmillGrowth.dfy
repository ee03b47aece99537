/** When the collector takes more memory, over whole cycles.

  A cycle lasts from one flip to the next.  The collector counts the insertions of the cycle and
  the lengths of the vectors made in it; `TreadmillRing` shows that its counters take the steps below.
 */
module TreadmillGrowth {

  /** Insertions since the last flip, cells in all, and cells asked for beside the ring. */
  datatype Counters = Counters(inserts: nat, total: nat, request: int)

  datatype Event = Insertion | VectorMade(len: nat) | Flip

  /** How many cells a flip adds. */
  function Added(c: Counters): nat {
    if c.inserts > c.total / 2 - 20000 then (if c.request >= 0 then c.request else 100000) else 0
  }

  function After(c: Counters, e: Event): Counters {
    match e
    case Insertion => c.(inserts := c.inserts + 1)
    case VectorMade(len) => c.(request := c.request + len)
    case Flip => Counters(0, c.total + Added(c), -1)
  }

  function AfterAll(c: Counters, events: seq<Event>): Counters
    decreases |events|
  {
    if events == [] then c else After(AfterAll(c, events[..|events| - 1]), events[|events| - 1])
  }

  function Insertions(events: seq<Event>): nat {
    if events == [] then 0
    else Insertions(events[..|events| - 1]) + if events[|events| - 1].Insertion? then 1 else 0
  }

  function Lengths(events: seq<Event>): nat {
    if events == [] then 0
    else
      var e := events[|events| - 1];
      Lengths(events[..|events| - 1]) + if e.VectorMade? then e.len else 0
  }

  /** Within a cycle the counters only count. */
  lemma {:induction false} WithinCycle(c: Counters, since: seq<Event>)
    requires Flip !in since
    ensures AfterAll(c, since) == Counters(c.inserts + Insertions(since), c.total, c.request + Lengths(since))
    decreases |since|
  {
    if since != [] {
      WithinCycle(c, since[..|since| - 1]);
    }
  }

  lemma {:induction false} Chained(c: Counters, a: seq<Event>, b: seq<Event>)
    ensures AfterAll(c, a + b) == AfterAll(AfterAll(c, a), b)
    decreases |b|
  {
    if b == [] {
      assert a + b == a;
    } else {
      assert (a + b)[..|a + b| - 1] == a + b[..|b| - 1];
      Chained(c, a, b[..|b| - 1]);
    }
  }

  /** Whatever has happened before, the flip that ends a cycle adds cells exactly if twice the
      insertions of that cycle and 40000 more exceed the cells in all; and then as many as the
      vectors of the cycle are long, less one, or 100000 if no vector with an element was made. */
  lemma GrowthOverCycles(n: nat, before: seq<Event>, since: seq<Event>)
    requires Flip !in since
    ensures var start := Counters(0, n, -1);
            var total := AfterAll(start, before + [Flip]).total;
            var end := AfterAll(start, before + [Flip] + since);
            && end.total == total
            && AfterAll(start, before + [Flip] + since + [Flip]).total == total +
                 if 2 * Insertions(since) + 40000 > total
                 then (if Lengths(since) > 0 then Lengths(since) - 1 else 100000)
                 else 0
  {
    var start := Counters(0, n, -1);
    var c := AfterAll(start, before + [Flip]);
    assert (before + [Flip])[..|before|] == before;
    Chained(start, before + [Flip], since);
    WithinCycle(c, since);
    Chained(start, before + [Flip] + since, [Flip]);
    assert [Flip][..0] == [];
    assert AfterAll(AfterAll(c, since), [Flip]) == After(AfterAll(c, since), Flip);
  }

  /** The first cycle, which no flip begins. */
  lemma FirstGrowth(n: nat, since: seq<Event>)
    requires Flip !in since
    ensures Added(AfterAll(Counters(0, n, -1), since)) ==
              if 2 * Insertions(since) + 40000 > n
              then (if Lengths(since) > 0 then Lengths(since) - 1 else 100000)
              else 0
  {
    WithinCycle(Counters(0, n, -1), since);
  }
}
