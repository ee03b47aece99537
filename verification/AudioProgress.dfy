/** Every call of the audio callback comes to its end, whichever thread goes first at every step. */
module AudioProgress {
  import opened AudioBarrier

  /** How many steps the callback has still to go in its call. */
  function CallbackToGo(c: Setup, pc: CallbackPc): int {
    match pc
    case Idle => 0
    case Signal => if c.zeroLatency then c.samples + 5 else 3
    case AwaitDone => if c.zeroLatency then c.samples + 4 else 2
    case Clear => if c.zeroLatency then c.samples + 3 else 1
    case Flip => if c.zeroLatency then c.samples + 2 else c.samples + 5
    case Sum(i) => c.samples - i + if c.zeroLatency then 1 else 4
  }

  /** The signal of the call is still to be given. */
  predicate BeforeSignal(c: Setup, pc: CallbackPc) {
    pc == Signal || (!c.zeroLatency && (pc == Flip || pc.Sum?))
  }

  /** How many steps all threads together have still to go until the call returns. */
  function StepsToGo(c: Setup, s: State): int
    requires |s.workers| == c.workers
  {
    CallbackToGo(c, s.pc) + AllToGo(c, s, c.workers) + if BeforeSignal(c, s.pc) then c.workers * (c.samples + 4) else 0
  }

  /** A signal gives every worker a round to do. */
  lemma {:induction false} SignalledToGo(c: Setup, s: State, s1: State, n: nat)
    requires n <= |s.workers| && s1.workers == s.workers && s1.signals == s.signals + 1
    requires forall w | 0 <= w < |s.workers| :: Parked(s.workers[w]) && s.workers[w].count == s.signals
    ensures AllToGo(c, s1, n) == AllToGo(c, s, n) + n * (c.samples + 4)
    decreases n
  {
    if n > 0 {
      SignalledToGo(c, s, s1, n - 1);
      assert n * (c.samples + 4) == (n - 1) * (c.samples + 4) + (c.samples + 4);
    } else {
      assert 0 * (c.samples + 4) == 0;
    }
  }

  lemma {:induction false} SameToGo(c: Setup, s: State, s1: State, n: nat)
    requires n <= |s.workers| && s1.workers == s.workers && s1.signals == s.signals
    ensures AllToGo(c, s1, n) == AllToGo(c, s, n)
    decreases n
  {
    if n > 0 {
      SameToGo(c, s, s1, n - 1);
    }
  }

  lemma CallbackLowers(c: Setup, s: State)
    requires Inv(c, s) && s.pc != Idle && Enabled(c, s, CallbackStep)
    ensures StepsToGo(c, ApplyCallback(c, s)) < StepsToGo(c, s)
  {
    var s1 := ApplyCallback(c, s);
    if s.pc == Signal {
      forall w | 0 <= w < |s.workers| ensures Parked(s.workers[w]) && s.workers[w].count == s.signals {
        assert CountOk(s, s.workers[w]);
      }
      SignalledToGo(c, s, s1, c.workers);
    } else {
      SameToGo(c, s, s1, c.workers);
    }
  }

  /** During a call every step of any thread brings its end nearer ... */
  lemma StepLowers(c: Setup, s: State, a: Step)
    requires Inv(c, s) && s.pc != Idle && Enabled(c, s, a)
    ensures StepsToGo(c, Apply(c, s, a)) < StepsToGo(c, s)
  {
    if a == CallbackStep {
      CallbackLowers(c, s);
    } else {
      WorkersComeToAnEnd(c, s, a.w);
    }
  }

  lemma ToGoIsNat(c: Setup, s: State)
    requires Inv(c, s)
    ensures StepsToGo(c, s) >= 0 && (StepsToGo(c, s) == 0 ==> s.pc == Idle)
  {
    assert c.workers * (c.samples + 4) >= 0;
  }

  /** ... and some thread can take one: the callback itself, unless it waits for workers, of which then one can go
      on. */
  lemma CallGoesOn(c: Setup, s: State) returns (a: Step)
    requires Inv(c, s)
    ensures Enabled(c, s, a)
    ensures a != CallbackStep <==> s.pc == AwaitDone && s.done < c.workers
  {
    if s.pc == AwaitDone && s.done != c.workers {
      var w := SomebodyCanGo(c, s);
      a := WorkerStep(w);
      assert s.done <= c.workers;
    } else {
      a := CallbackStep;
    }
  }

  /** In any run a call that has begun has returned after at most so many steps as there are to go. */
  lemma {:induction false} CallReturns(c: Setup, states: seq<State>, steps: seq<Step>, i: nat, j: nat)
    requires Run(c, states, steps) && i <= j < |states|
    requires |states[i].workers| == c.workers && forall k | i <= k < j :: states[k].pc != Idle
    ensures j - i <= StepsToGo(c, states[i])
    decreases j - i
  {
    RunKeeps(c, states, steps, i);
    if i < j {
      RunKeeps(c, states, steps, i + 1);
      StepLowers(c, states[i], steps[i]);
      CallReturns(c, states, steps, i + 1, j);
    } else {
      ToGoIsNat(c, states[i]);
    }
  }

  /** From wherever a run has come to, it can go on until one more call has put out its data. */
  lemma {:induction false} EveryCallIsHeard(c: Setup, states: seq<State>, steps: seq<Step>)
    returns (more: seq<State>, after: seq<Step>)
    requires Run(c, states, steps) && states[|steps|].pc != Idle
    ensures Run(c, states + more, steps + after)
    ensures more != [] && more[|more| - 1].pc == Idle
    ensures |more[|more| - 1].heard| == |states[|steps|].heard| + 1 == more[|more| - 1].calls == states[|steps|].calls
    decreases Bound(c, states, steps)
  {
    var s := states[|steps|];
    RunKeeps(c, states, steps, |steps|);
    var a := CallGoesOn(c, s);
    var s1 := Apply(c, s, a);
    StepLowers(c, s, a);
    StepKeeps(c, s, a);
    ToGoIsNat(c, s1);
    var states1, steps1 := states + [s1], steps + [a];
    assert Run(c, states1, steps1);
    if s1.pc == Idle {
      more, after := [s1], [a];
    } else {
      more, after := EveryCallIsHeard(c, states1, steps1);
      assert states1 + more == states + ([s1] + more) && steps1 + after == steps + ([a] + after);
      more, after := [s1] + more, [a] + after;
    }
  }

  ghost function Bound(c: Setup, states: seq<State>, steps: seq<Step>): nat
    requires Run(c, states, steps)
  {
    RunKeeps(c, states, steps, |steps|);
    ToGoIsNat(c, states[|steps|]);
    StepsToGo(c, states[|steps|])
  }
}
