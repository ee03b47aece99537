/** What a run of the register machine does, in terms of the evaluator: exactly what it returns, and
    when it fails or goes on for ever. */
module SchemeTheorems {
  import opened Registers
  import opened SchemeMachine
  import opened SchemeEvaluator
  import opened MachineRuns
  import opened SchemeCorrectness
  import opened Adequacy

  /** What the evaluator says of the expression that the machine is about to evaluate. */
  function Evaluated(m: Machine<Store>, fuel: nat): Eval<Out<Store>> {
    Evaluate(fuel, m.code, m.envir, m.store)
  }

  function Answer(m: Machine<Store>): Answers<Store> {
    (fuel: nat) => Evaluated(m, fuel)
  }

  lemma EvaluationDescribed(m: Machine<Store>)
    requires m.op == EVAL
    ensures Described(Step, Answer(m), m)
  {
    forall fuel: nat ensures Known(Step, Answer(m), m, fuel) {
      var k, p := EvaluateAgrees(fuel, m);
      assert Agrees(Step, fuel, Answer(m)(fuel), m, k, p);
    }
  }

  /** The machine returns a value, with a store and a peak of dump frames, exactly if the evaluator
      gives them for some amount of fuel; whatever dump it starts with. */
  lemma ReturnsIffEvaluates(m: Machine<Store>, o: Out<Store>)
    requires m.op == EVAL
    ensures Returns(Step, m, o) <==> exists fuel: nat :: Evaluated(m, fuel) == Got(o)
  {
    EvaluationDescribed(m);
    ReturnsIff(Step, Answer(m), m, o);
    if fuel: nat :| Evaluated(m, fuel) == Got(o) {
      assert Answer(m)(fuel) == Got(o);
    }
    if fuel: nat :| Answer(m)(fuel) == Got(o) {
      assert Evaluated(m, fuel) == Got(o);
    }
  }

  lemma FailsIffEvaluatorFaults(m: Machine<Store>)
    requires m.op == EVAL
    ensures Fails(Step, m) <==> exists fuel: nat :: Evaluated(m, fuel) == Fault
  {
    EvaluationDescribed(m);
    FailsIff(Step, Answer(m), m);
    if fuel: nat :| Evaluated(m, fuel) == Fault {
      assert Answer(m)(fuel) == Fault;
    }
    if fuel: nat :| Answer(m)(fuel) == Fault {
      assert Evaluated(m, fuel) == Fault;
    }
  }

  lemma RunsForEverIffNoFuelIsEnough(m: Machine<Store>)
    requires m.op == EVAL
    ensures RunsForEver(Step, m) <==> forall fuel: nat :: Evaluated(m, fuel) == Timeout
  {
    EvaluationDescribed(m);
    RunsForEverIff(Step, Answer(m), m);
    if forall fuel: nat :: Evaluated(m, fuel) == Timeout {
      forall fuel: nat ensures Answer(m)(fuel) == Timeout {
        assert Evaluated(m, fuel) == Timeout;
      }
    }
    if forall fuel: nat :: Answer(m)(fuel) == Timeout {
      forall fuel: nat ensures Evaluated(m, fuel) == Timeout {
        assert Answer(m)(fuel) == Timeout;
      }
    }
  }

  /** Fuel decides only whether there is an answer, not which. */
  lemma MoreFuelSameAnswer(c: Value, e: nat, s: Store, a: nat, b: nat)
    ensures var r1, r2 := Evaluate(a, c, e, s), Evaluate(b, c, e, s);
            r1 == Timeout || r2 == Timeout || r1 == r2
  {
    var m := Machine(EVAL, Nil, e, c, Nil, [], s);
    EvaluationDescribed(m);
    FuelOnlyDelays(Step, Answer(m), m, a, b);
  }

  ghost predicate Gives(m: Machine<Store>, v: Value, s: Store) {
    exists fuel: nat, h: nat :: Evaluated(m, fuel) == Got(Out(v, s, h))
  }

  ghost predicate Faults(m: Machine<Store>) {
    exists fuel: nat :: Evaluated(m, fuel) == Fault
  }

  /** With an empty dump the machine stops with a value and a store exactly if the evaluator gives
      them for some amount of fuel ... */
  lemma StopsIffEvaluates(m: Machine<Store>, v: Value, s: Store)
    requires m.op == EVAL && m.dump == []
    ensures EndsWith(Step, m, Got(Stop(v, s))) <==> Gives(m, v, s)
  {
    EvaluationDescribed(m);
    EndsIff(Step, Answer(m), m, Got(Stop(v, s)));
    if fuel: nat :| !Answer(m)(fuel).Timeout? && Ending(Answer(m)(fuel)) == Got(Stop(v, s)) {
      assert Evaluated(m, fuel) == Got(Out(v, s, Evaluated(m, fuel).value.frames));
    }
    if fuel: nat, h: nat :| Evaluated(m, fuel) == Got(Out(v, s, h)) {
      assert Ending(Answer(m)(fuel)) == Got(Stop(v, s));
    }
  }

  /** ... and with an error exactly if the evaluator faults. */
  lemma ErrsIffEvaluatorFaults(m: Machine<Store>)
    requires m.op == EVAL && m.dump == []
    ensures EndsWith(Step, m, Fault) <==> Faults(m)
  {
    EvaluationDescribed(m);
    EndsIff(Step, Answer(m), m, Fault);
    if fuel: nat :| !Answer(m)(fuel).Timeout? && Ending(Answer(m)(fuel)) == Fault {
      assert Evaluated(m, fuel) == Fault;
    }
    if fuel: nat :| Evaluated(m, fuel) == Fault {
      assert Ending(Answer(m)(fuel)) == Fault;
    }
  }

  /** So many opcodes are executed when the evaluator has enough fuel. */
  lemma StepsToTheEnd(m: Machine<Store>, fuel: nat) returns (k: nat)
    requires m.op == EVAL && m.dump == [] && !Evaluated(m, fuel).Timeout?
    ensures After(Step, m, k) == Ending(Evaluated(m, fuel))
  {
    var p;
    k, p := EvaluateAgrees(fuel, m);
  }
}
