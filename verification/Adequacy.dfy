/** From agreement with an evaluator to exact statements about runs. */
module Adequacy {
  import opened Registers
  import opened MachineRuns

  type Answers<!S> = nat -> Eval<Out<S>>

  /** Whatever the fuel, the run of `m` does what the answer says. */
  ghost predicate Described<S>(f: Stepper<S>, answer: Answers<S>, m: Machine<S>) {
    forall fuel: nat :: Known(f, answer, m, fuel)
  }

  ghost predicate Known<S>(f: Stepper<S>, answer: Answers<S>, m: Machine<S>, fuel: nat) {
    exists k: nat, p: nat :: Agrees(f, fuel, answer(fuel), m, k, p)
  }

  /** The run of `m` returns the result to the dump it began with, having used `o.frames` frames
      on top of it. */
  ghost predicate Returns<S>(f: Stepper<S>, m: Machine<S>, o: Out<S>) {
    exists k: nat, p: nat :: ReturnsAt(f, m, o, k, p)
  }

  ghost predicate ReturnsAt<S>(f: Stepper<S>, m: Machine<S>, o: Out<S>, k: nat, p: nat) {
    Segment(f, m, k, p, m.dump, o.frames) && After(f, m, k) == Got(Ret(o.v, m.dump, o.s))
  }

  ghost predicate Fails<S>(f: Stepper<S>, m: Machine<S>) {
    exists k: nat :: FailsAt(f, m, k)
  }

  ghost predicate FailsAt<S>(f: Stepper<S>, m: Machine<S>, k: nat) {
    Over(f, m, k, m.dump) && After(f, m, k) == Fault
  }

  ghost predicate RunsForEver<S>(f: Stepper<S>, m: Machine<S>) {
    forall k: nat :: Over(f, m, k, m.dump)
  }

  lemma EndIsLast<S>(f: Stepper<S>, m: Machine<S>, k: nat, v: Value, s: S)
    requires After(f, m, k) == Fault || After(f, m, k) == Got(Ret(v, m.dump, s))
    ensures !(Going(f, m, k) && m.dump <= At(f, m, k).dump)
  {
  }

  lemma ReturnIsLast<S>(f: Stepper<S>, m: Machine<S>, o: Out<S>, k: nat, p: nat, j: nat)
    requires ReturnsAt(f, m, o, k, p) && Over(f, m, j, m.dump)
    ensures j <= k
  {
    EndIsLast(f, m, k, o.v, o.s);
    if k < j {
      assert false;
    }
  }

  lemma FailureIsLast<S>(f: Stepper<S>, m: Machine<S>, k: nat, j: nat)
    requires FailsAt(f, m, k) && Over(f, m, j, m.dump)
    ensures j <= k
  {
    if k < j {
      NotGoing(f, m, k);
      assert false;
    }
  }

  lemma NotGoing<S>(f: Stepper<S>, m: Machine<S>, k: nat)
    requires FailsAt(f, m, k)
    ensures !Going(f, m, k)
  {
  }

  /** A run returns once, with one result. */
  lemma SameReturn<S>(f: Stepper<S>, m: Machine<S>, k1: nat, p1: nat, o1: Out<S>, k2: nat, p2: nat, o2: Out<S>)
    requires ReturnsAt(f, m, o1, k1, p1) && ReturnsAt(f, m, o2, k2, p2)
    ensures o1 == o2
  {
    SegmentOver(f, m, k1, p1, m.dump, o1.frames);
    SegmentOver(f, m, k2, p2, m.dump, o2.frames);
    ReturnIsLast(f, m, o1, k1, p1, k2);
    ReturnIsLast(f, m, o2, k2, p2, k1);
    assert Above(At(f, m, p1), m.dump, o2.frames) && Above(At(f, m, p2), m.dump, o1.frames);
  }

  lemma ReturnOrFail<S>(f: Stepper<S>, m: Machine<S>, o: Out<S>, k1: nat, p1: nat, k2: nat)
    requires ReturnsAt(f, m, o, k1, p1)
    ensures !FailsAt(f, m, k2)
  {
    if FailsAt(f, m, k2) {
      SegmentOver(f, m, k1, p1, m.dump, o.frames);
      ReturnIsLast(f, m, o, k1, p1, k2);
      FailureIsLast(f, m, k2, k1);
      assert false;
    }
  }

  /** The machine returns a value, with a store and a depth of dump, exactly if the evaluator gives
      them for some amount of fuel; whatever the dump is. */
  lemma ReturnsIff<S>(f: Stepper<S>, answer: Answers<S>, m: Machine<S>, o: Out<S>)
    requires Described(f, answer, m)
    ensures Returns(f, m, o) <==> exists fuel: nat :: answer(fuel) == Got(o)
  {
    if fuel: nat :| answer(fuel) == Got(o) {
      assert Known(f, answer, m, fuel);
      var k: nat, p: nat :| Agrees(f, fuel, answer(fuel), m, k, p);
      assert ReturnsAt(f, m, o, k, p);
    }
    if Returns(f, m, o) {
      var k: nat, p: nat :| ReturnsAt(f, m, o, k, p);
      assert Known(f, answer, m, k);
      var k1: nat, p1: nat :| Agrees(f, k, answer(k), m, k1, p1);
      var r := answer(k);
      if r.Got? {
        assert ReturnsAt(f, m, r.value, k1, p1);
        SameReturn(f, m, k, p, o, k1, p1, r.value);
      } else if r.Timeout? {
        ReturnIsLast(f, m, o, k, p, k + 1);
      } else {
        ReturnOrFail(f, m, o, k, p, k1);
      }
    }
  }

  lemma FailsIff<S>(f: Stepper<S>, answer: Answers<S>, m: Machine<S>)
    requires Described(f, answer, m)
    ensures Fails(f, m) <==> exists fuel: nat :: answer(fuel) == Fault
  {
    if fuel: nat :| answer(fuel) == Fault {
      assert Known(f, answer, m, fuel);
      var k: nat, p: nat :| Agrees(f, fuel, answer(fuel), m, k, p);
      assert FailsAt(f, m, k);
    }
    if Fails(f, m) {
      var k: nat :| FailsAt(f, m, k);
      assert Known(f, answer, m, k);
      var k1: nat, p1: nat :| Agrees(f, k, answer(k), m, k1, p1);
      var r := answer(k);
      if r.Got? {
        ReturnOrFail(f, m, r.value, k1, p1, k);
      } else if r.Timeout? {
        FailureIsLast(f, m, k, k + 1);
      }
    }
  }

  lemma RunsForEverIff<S>(f: Stepper<S>, answer: Answers<S>, m: Machine<S>)
    requires Described(f, answer, m)
    ensures RunsForEver(f, m) <==> forall fuel: nat :: answer(fuel) == Timeout
  {
    if forall fuel: nat :: answer(fuel) == Timeout {
      forall k: nat ensures Over(f, m, k, m.dump) {
        assert Known(f, answer, m, k);
      }
    }
    if RunsForEver(f, m) {
      forall fuel: nat ensures answer(fuel) == Timeout {
        assert Known(f, answer, m, fuel);
        var k: nat, p: nat :| Agrees(f, fuel, answer(fuel), m, k, p);
        var r := answer(fuel);
        assert Over(f, m, k + 1, m.dump);
        if r.Got? {
          ReturnIsLast(f, m, r.value, k, p, k + 1);
        } else if r.Fault? {
          FailureIsLast(f, m, k, k + 1);
        }
      }
    }
  }

  /** Fuel decides only whether there is an answer, not which. */
  lemma FuelOnlyDelays<S>(f: Stepper<S>, answer: Answers<S>, m: Machine<S>, a: nat, b: nat)
    requires Described(f, answer, m)
    ensures answer(a) == Timeout || answer(b) == Timeout || answer(a) == answer(b)
  {
    assert Known(f, answer, m, a) && Known(f, answer, m, b);
    var k1: nat, p1: nat :| Agrees(f, a, answer(a), m, k1, p1);
    var k2: nat, p2: nat :| Agrees(f, b, answer(b), m, k2, p2);
    var r1, r2 := answer(a), answer(b);
    if r1.Got? && r2.Got? {
      SameReturn(f, m, k1, p1, r1.value, k2, p2, r2.value);
    }
    if r1.Got? && r2.Fault? {
      ReturnOrFail(f, m, r1.value, k1, p1, k2);
    }
    if r2.Got? && r1.Fault? {
      ReturnOrFail(f, m, r2.value, k2, p2, k1);
    }
  }

  // ---------------------------------------------------------------------------
  // Runs with nothing below them
  // ---------------------------------------------------------------------------

  lemma {:induction false} EndStays<S>(f: Stepper<S>, m: Machine<S>, a: nat, b: nat)
    requires a <= b && !Going(f, m, a)
    ensures After(f, m, b) == After(f, m, a)
    decreases a
  {
    if a > 0 && f(m).Got? && f(m).value.Next? {
      EndStays(f, f(m).value.m, a - 1, b - 1);
    }
  }

  lemma OneEnd<S>(f: Stepper<S>, m: Machine<S>, a: nat, b: nat)
    requires !Going(f, m, a) && !Going(f, m, b)
    ensures After(f, m, a) == After(f, m, b)
  {
    if a <= b {
      EndStays(f, m, a, b);
    } else {
      EndStays(f, m, b, a);
    }
  }

  lemma GoingAfter<S>(f: Stepper<S>, m: Machine<S>, k: nat)
    requires Over(f, m, k + 1, m.dump)
    ensures Going(f, m, k)
  {
  }

  /** How a run with an empty dump ends, if the evaluator says so. */
  function Ending<S>(r: Eval<Out<S>>): (end: Eval<Status<S>>)
    requires !r.Timeout?
    ensures !end.Timeout? && (end.Got? ==> end.value.Stop?)
  {
    if r.Got? then Got(Stop(r.value.v, r.value.s)) else Fault
  }

  ghost predicate EndsWith<S>(f: Stepper<S>, m: Machine<S>, end: Eval<Status<S>>) {
    exists k: nat :: After(f, m, k) == end
  }

  /** The machine comes to an end exactly if the evaluator does, and to the same one. */
  lemma EndsIff<S>(f: Stepper<S>, answer: Answers<S>, m: Machine<S>, end: Eval<Status<S>>)
    requires Described(f, answer, m) && m.dump == [] && (end.Got? ==> end.value.Stop?) && !end.Timeout?
    ensures EndsWith(f, m, end)
       <==> exists fuel: nat :: !answer(fuel).Timeout? && Ending(answer(fuel)) == end
  {
    if fuel: nat :| !answer(fuel).Timeout? && Ending(answer(fuel)) == end {
      assert Known(f, answer, m, fuel);
      var k: nat, p: nat :| Agrees(f, fuel, answer(fuel), m, k, p);
      assert After(f, m, k) == end;
    }
    if k: nat :| After(f, m, k) == end {
      assert Known(f, answer, m, k);
      var k1: nat, p1: nat :| Agrees(f, k, answer(k), m, k1, p1);
      if answer(k).Timeout? {
        GoingAfter(f, m, k);
        assert false;
      } else {
        OneEnd(f, m, k, k1);
        assert Ending(answer(k)) == end;
      }
    }
  }
}
