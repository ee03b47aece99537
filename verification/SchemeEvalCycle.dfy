/** `Eval_Cycle`: opcodes one after the other, and what comes of it. */
module SchemeEvalCycle {
  import opened Registers
  import opened RegisterFile
  import opened SchemeMachine
  import opened MachineRuns
  import opened Adequacy
  import opened SchemeTheorems
  import SchemeInterpreter

  /** `k` more opcodes lead to this end. */
  predicate Leads(m: Machine<Store>, k: nat, end: Eval<Status<Store>>) {
    After(Step, m, k) == end
  }

  /** An opcode more has been executed, of the `j` that lead to `end`. */
  lemma OneMore(f: Stepper<Store>, before: Machine<Store>, r: Outcome, after: Machine<Store>, j: nat,
                end: Eval<Status<Store>>)
    requires j > 0 && After(f, before, j) == end && Did(f(before), r, after)
    ensures r == Running ==> After(f, after, j - 1) == end
    ensures r != Running ==> Did(end, r, after)
  {
    Unroll(f, before, j);
  }

  method ExecuteOne(sc: Scheme<Store>, ghost k: nat, ghost end: Eval<Status<Store>>) returns (r: Outcome)
    requires k > 0 && Leads(sc.State(), k, end)
    modifies sc
    ensures r == Running ==> Leads(sc.State(), k - 1, end)
    ensures r != Running ==> Did(end, r, sc.State())
  {
    r := SchemeInterpreter.Execute(sc);
    OneMore(Step, old(sc.State()), r, sc.State(), k, end);
  }

  /** What has come out of the expression that `m` was about to evaluate is what the evaluator says. */
  ghost predicate Explained(m: Machine<Store>, r: Outcome, v: Value, s: Store) {
    match r
    case Stopped => Gives(m, v, s)
    case Failed => Faults(m)
    case Running => true
  }

  lemma {:induction false} NeverShort(m: Machine<Store>, k: nat)
    ensures After(Step, m, k) != Timeout
    decreases k
  {
    if k > 0 && Step(m).Got? && Step(m).value.Next? {
      NeverShort(Step(m).value.m, k - 1);
    }
  }

  lemma OutcomeEnds<S>(f: Stepper<S>, m: Machine<S>, limit: nat, r: Outcome, after: Machine<S>)
    requires Did(After(f, m, limit), r, after) && After(f, m, limit) != Timeout
    ensures r == Stopped ==> EndsWith(f, m, Got(Stop(after.value, after.store)))
    ensures r == Failed ==> EndsWith(f, m, Fault)
  {
  }

  lemma OutcomeExplained(m: Machine<Store>, limit: nat, r: Outcome, after: Machine<Store>)
    requires m.op == EVAL && m.dump == [] && Did(After(Step, m, limit), r, after)
    ensures Explained(m, r, after.value, after.store)
  {
    NeverShort(m, limit);
    OutcomeEnds(Step, m, limit, r, after);
    if r == Stopped {
      StopsIffEvaluates(m, after.value, after.store);
    } else if r == Failed {
      ErrsIffEvaluatorFaults(m);
    }
  }

  /** `limit` opcodes at most.  A value that comes out, or an error, is the evaluator's. */
  method EvalCycle(sc: Scheme<Store>, limit: nat) returns (r: Outcome)
    modifies sc
    ensures Did(After(Step, old(sc.State()), limit), r, sc.State())
    ensures old(sc.op == EVAL && sc.dump == []) ==> Explained(old(sc.State()), r, sc.value, sc.store)
  {
    ghost var end := After(Step, sc.State(), limit);
    var n: nat := 0;
    r := Running;
    while n < limit && r == Running
      invariant n <= limit
      invariant r == Running ==> Leads(sc.State(), limit - n, end)
      invariant r != Running ==> Did(end, r, sc.State())
    {
      r := ExecuteOne(sc, limit - n, end);
      n := n + 1;
    }
    if old(sc.op == EVAL && sc.dump == []) {
      OutcomeExplained(old(sc.State()), limit, r, sc.State());
    }
  }

  /** Without a limit: an expression that the evaluator finishes, with whatever fuel, comes to the
      same value and store, or to an error. */
  method EvalToTheEnd(sc: Scheme<Store>, ghost fuel: nat) returns (r: Outcome)
    requires sc.op == EVAL && sc.dump == [] && !Evaluated(sc.State(), fuel).Timeout?
    modifies sc
    ensures Did(Ending(Evaluated(old(sc.State()), fuel)), r, sc.State()) && r != Running
  {
    ghost var end := Ending(Evaluated(sc.State(), fuel));
    ghost var k := StepsToTheEnd(sc.State(), fuel);
    r := Running;
    while r == Running
      invariant r == Running ==> Leads(sc.State(), k, end)
      invariant r != Running ==> Did(end, r, sc.State())
      decreases k, r == Running
    {
      StillGoing(sc.State(), k, end);
      r := ExecuteOne(sc, k, end);
      k := k - 1;
    }
  }

  lemma StillGoing(m: Machine<Store>, k: nat, end: Eval<Status<Store>>)
    requires Leads(m, k, end) && (end.Got? ==> end.value.Stop?)
    ensures k > 0
  {
  }
}
