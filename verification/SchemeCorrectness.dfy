/** The register machine computes what the evaluator computes. */
module SchemeCorrectness {
  import opened Registers
  import opened SchemeMachine
  import opened SchemeEvaluator
  import opened MachineRuns

  /** A step that saves a frame and evaluates a part. */
  lemma PushEval(fuel: nat, m: Machine<Store>, m1: Machine<Store>, fr: Frame) returns (k: nat, p: nat)
    requires fuel > 0 && Step(m) == Got(Next(m1)) && m1.op == EVAL && m1.dump == m.dump + [fr]
    ensures Part(Step, fuel, Evaluate(fuel - 1, m1.code, m1.envir, m1.store), fr, m, k, p)
    decreases fuel, 0
  {
    var k1, p1 := EvaluateAgrees(fuel - 1, m1);
    k, p := Push(Step, fuel, m, m1, fr, Evaluate(fuel - 1, m1.code, m1.envir, m1.store), k1, p1);
  }

  lemma EvaluateAgrees(fuel: nat, m: Machine<Store>) returns (k: nat, p: nat)
    requires m.op == EVAL
    ensures Agrees(Step, fuel, Evaluate(fuel, m.code, m.envir, m.store), m, k, p)
    decreases fuel, 3
  {
    k, p := 1, 0;
    if fuel == 0 {
    } else if m.code.Pair? {
      if IsSyntax(m.code.car) {
        assert FormOp(SyntaxNum(m.code.car));
        var m1 := m.(op := SyntaxNum(m.code.car), code := m.code.cdr);
        var k1, p1 := SpecialAgrees(fuel - 1, m1);
        k, p := Tail(Step, fuel, m, m1, Special(fuel - 1, m1.op, m1.code, m1.envir, m1.store), k1, p1);
      } else {
        k, p := CombinationAgrees(fuel, m);
      }
    } else if Evaluate(fuel, m.code, m.envir, m.store).Got? {
      Return(Step, fuel, m, Evaluate(fuel, m.code, m.envir, m.store).value);
    } else {
      Fail(Step, fuel, m);
    }
  }

  /** The operator, the operands, the call. */
  lemma CombinationAgrees(fuel: nat, m: Machine<Store>) returns (k: nat, p: nat)
    requires fuel > 0 && m.op == EVAL && m.code.Pair? && !IsSyntax(m.code.car)
    ensures Agrees(Step, fuel, Evaluate(fuel, m.code, m.envir, m.store), m, k, p)
    decreases fuel, 2
  {
    var fr := Frame(E0ARGS, Nil, m.envir, m.code);
    var m1 := m.(op := EVAL, code := m.code.car, dump := m.dump + [fr]);
    k, p := PushEval(fuel, m, m1, fr);
    var r1 := Evaluate(fuel - 1, m1.code, m1.envir, m1.store);
    if r1.Got? {
      var m2 := Resume(fr, r1.value, m.dump);
      var m3 := m2.(op := E1ARGS, code := m.code.cdr);
      assert Step(m2) == Got(Next(m3));
      var vals := EvaluateList(fuel - 1, E1ARGS, m3.code, m3.envir, m3.store);
      var k1, p1, m4, k2, p2 := OperandsAgree(fuel, m3, vals);
      k, p := PartThenList(Step, fuel, r1, fr, m, k, p, m3, vals, k1, p1, m4, Called(fuel - 1, m3, vals), k2, p2);
    }
  }

  /** The result of a call whose operands are still to be evaluated. */
  function Called(fuel: nat, m3: Machine<Store>, vals: Eval<Out<Store>>): Eval<Out<Store>> {
    if vals.Got? then Apply(fuel, m3.value, vals.value.v, vals.value.s) else vals
  }

  lemma OperandsAgree(fuel: nat, m3: Machine<Store>, vals: Eval<Out<Store>>)
    returns (k1: nat, p1: nat, m4: Machine<Store>, k2: nat, p2: nat)
    requires fuel > 0 && m3.op == E1ARGS && m3.args == Nil
    requires vals == EvaluateList(fuel - 1, E1ARGS, m3.code, m3.envir, m3.store)
    ensures ListedThen(Step, fuel - 1, vals, m3, k1, p1, m4, Called(fuel - 1, m3, vals), k2, p2)
    decreases fuel, 1
  {
    k1, p1, m4 := FreshListAgrees(fuel - 1, m3);
    k2, p2 := 0, 0;
    if vals.Got? {
      k2, p2 := ApplyAgrees(fuel - 1, m4);
    }
  }

  lemma ReverseOne(a: Value, l: Value)
    ensures ReverseOnto(Pair(a, Nil), l) == Pair(a, l)
  {
    assert ReverseOnto(Pair(a, Nil), l) == ReverseOnto(Nil, Pair(a, l));
  }

  predicate ListOp(op: Op) {
    op == E1ARGS || op == LET1 || op == LET1REC
  }

  function LastOf(v: Value, list: Value): Value
    decreases list
  {
    if list.Pair? then LastOf(list.car, list.cdr) else v
  }

  /** Where the machine is at the end of a list: the values stand in order behind those that
      were on `args`. */
  predicate ListDone(m: Machine<Store>, o: Out<Store>, m1: Machine<Store>) {
    var all := ReverseOnto(Pair(m.value, m.args), o.v);
    && m1.op == ListEnd(m.op) && m1.code == all.car && m1.args == all.cdr && m1.value == LastOf(m.value, o.v)
    && m1.envir == m.envir && m1.dump == m.dump && m1.store == o.s
  }

  lemma ListAgrees(fuel: nat, m: Machine<Store>) returns (k: nat, p: nat, m1: Machine<Store>)
    requires ListOp(m.op)
    ensures var r := EvaluateList(fuel, m.op, m.code, m.envir, m.store);
            Listed(Step, fuel, r, m, k, p, m1) && (r.Got? ==> ListDone(m, r.value, m1))
    decreases fuel, 2
  {
    k, p, m1 := 1, 0, m;
    if fuel == 0 {
    } else if !m.code.Pair? {
      OneStep(Step, m);
      m1 := Step(m).value.m;
    } else if NextExpr(m.op, m.code).Got? {
      k, p, m1 := ListMore(fuel, m);
    } else {
      Fail(Step, fuel, m);
    }
  }

  /** A list that begins with nothing on `args`. */
  lemma FreshListAgrees(fuel: nat, m: Machine<Store>) returns (k: nat, p: nat, m1: Machine<Store>)
    requires ListOp(m.op) && m.args == Nil
    ensures var r := EvaluateList(fuel, m.op, m.code, m.envir, m.store);
            && Listed(Step, fuel, r, m, k, p, m1)
            && (r.Got? ==> m1 == m.(op := ListEnd(m.op), code := m.value, args := r.value.v,
                                    value := LastOf(m.value, r.value.v), store := r.value.s))
    decreases fuel, 3
  {
    k, p, m1 := ListAgrees(fuel, m);
    var r := EvaluateList(fuel, m.op, m.code, m.envir, m.store);
    if r.Got? {
      ReverseOne(m.value, r.value.v);
    }
  }

  lemma ListMore(fuel: nat, m: Machine<Store>) returns (k: nat, p: nat, m1: Machine<Store>)
    requires fuel > 0 && ListOp(m.op) && m.code.Pair? && NextExpr(m.op, m.code).Got?
    ensures var r := EvaluateList(fuel, m.op, m.code, m.envir, m.store);
            Listed(Step, fuel, r, m, k, p, m1) && (r.Got? ==> ListDone(m, r.value, m1))
    decreases fuel, 1
  {
    var fr := Frame(m.op, Pair(m.value, m.args), m.envir, m.code.cdr);
    var m2 := m.(op := EVAL, args := Nil, code := NextExpr(m.op, m.code).value, dump := m.dump + [fr]);
    assert Step(m) == Got(Next(m2));
    k, p := PushEval(fuel, m, m2, fr);
    m1 := m;
    var r := Evaluate(fuel - 1, m2.code, m2.envir, m2.store);
    if r.Got? {
      var m3 := Resume(fr, r.value, m.dump);
      var k1, p1;
      k1, p1, m1 := ListAgrees(fuel - 1, m3);
      var rest := EvaluateList(fuel - 1, m.op, m.code.cdr, m.envir, r.value.s);
      var v := if rest.Got? then Pair(r.value.v, rest.value.v) else Nil;
      k, p := ListNext(Step, fuel, r, fr, m, k, p, rest, k1, p1, m1, v);
    }
  }

  lemma ApplyAgrees(fuel: nat, m: Machine<Store>) returns (k: nat, p: nat)
    requires m.op == APPLY
    ensures Agrees(Step, fuel, Apply(fuel, m.code, m.args, m.store), m, k, p)
    decreases fuel, 1
  {
    k, p := 1, 0;
    if fuel == 0 {
    } else if Step(m).Fault? {
      Fail(Step, fuel, m);
    } else {
      var m1 := Step(m).value.m;
      if m.code.Closure? {
        var k1, p1 := BeginAgrees(fuel - 1, m1);
        k, p := Tail(Step, fuel, m, m1, Begin(fuel - 1, m1.code, m1.envir, m1.store), k1, p1);
      } else {
        OneStep(Step, m);
        p := Extend(Step, m, 1, 0, m.dump, 0, m1);
        k := 2;
      }
    }
  }

  lemma BeginAgrees(fuel: nat, m: Machine<Store>) returns (k: nat, p: nat)
    requires m.op == BEGIN
    ensures Agrees(Step, fuel, Begin(fuel, m.code, m.envir, m.store), m, k, p)
    decreases fuel, 3
  {
    k, p := 1, 0;
    if fuel == 0 {
    } else if !m.code.Pair? {
      Return(Step, fuel, m, Out(m.code, m.store, 0));
    } else if m.code.cdr == Nil {
      var m1 := m.(op := EVAL, code := m.code.car);
      var k1, p1 := EvaluateAgrees(fuel - 1, m1);
      k, p := Tail(Step, fuel, m, m1, Evaluate(fuel - 1, m1.code, m1.envir, m1.store), k1, p1);
    } else {
      k, p := SequenceAgrees(fuel, m);
    }
  }

  lemma SequenceAgrees(fuel: nat, m: Machine<Store>) returns (k: nat, p: nat)
    requires fuel > 0 && m.op == BEGIN && m.code.Pair? && m.code.cdr != Nil
    ensures Agrees(Step, fuel, Begin(fuel, m.code, m.envir, m.store), m, k, p)
    decreases fuel, 1
  {
    var fr := Frame(BEGIN, Nil, m.envir, m.code.cdr);
    var m1 := m.(op := EVAL, code := m.code.car, dump := m.dump + [fr]);
    k, p := PushEval(fuel, m, m1, fr);
    var r := Evaluate(fuel - 1, m1.code, m1.envir, m1.store);
    if r.Got? {
      var m2 := Resume(fr, r.value, m.dump);
      var k1, p1 := BeginAgrees(fuel - 1, m2);
      k, p := PartThen(Step, fuel, r, fr, m, k, p, Begin(fuel - 1, m2.code, m2.envir, m2.store), k1, p1);
    }
  }

  lemma IfAgrees(fuel: nat, m: Machine<Store>) returns (k: nat, p: nat)
    requires m.op == IF0
    ensures Agrees(Step, fuel, If(fuel, m.code, m.envir, m.store), m, k, p)
    decreases fuel, 3
  {
    k, p := 1, 0;
    if fuel > 0 {
      var parts := Uncons(m.code);
      if parts.Fault? {
        Fail(Step, fuel, m);
      } else {
        var (test, rest) := parts.value;
        var fr := Frame(IF1, Nil, m.envir, rest);
        k, p := PushEval(fuel, m, m.(op := EVAL, code := test, dump := m.dump + [fr]), fr);
        var t := Evaluate(fuel - 1, test, m.envir, m.store);
        if t.Got? {
          k, p := BranchAgrees(fuel, m, t, rest, fr, k, p);
        }
      }
    }
  }

  lemma BranchAgrees(fuel: nat, m: Machine<Store>, t: Eval<Out<Store>>, rest: Value, fr: Frame, k0: nat, p0: nat)
    returns (k: nat, p: nat)
    requires fuel > 0 && t.Got? && fr == Frame(IF1, Nil, m.envir, rest) && Part(Step, fuel, t, fr, m, k0, p0)
    ensures var branch := if t.value.v != False then CarOf(rest) else CadrOf(rest);
            var r := if branch.Got? then Evaluate(fuel - 1, branch.value, m.envir, t.value.s) else Fault;
            Agrees(Step, fuel, WithFrames(r, 1 + t.value.frames), m, k, p)
    decreases fuel, 1
  {
    var m2 := Resume(fr, t.value, m.dump);
    var branch := if t.value.v != False then CarOf(rest) else CadrOf(rest);
    if branch.Got? {
      var m3 := m2.(op := EVAL, code := branch.value);
      assert Step(m2) == Got(Next(m3));
      k, p := TailEval(fuel, m, t, fr, k0, p0, m3);
    } else {
      k, p := PartThenFault(Step, fuel, t, fr, m, k0, p0);
    }
  }

  /** After a part, an expression in tail position ... */
  lemma TailEval(fuel: nat, m: Machine<Store>, t: Eval<Out<Store>>, fr: Frame, k0: nat, p0: nat, m3: Machine<Store>)
    returns (k: nat, p: nat)
    requires fuel > 0 && t.Got? && Part(Step, fuel, t, fr, m, k0, p0)
    requires Step(Resume(fr, t.value, m.dump)) == Got(Next(m3)) && m3.op == EVAL && m3.dump == m.dump
    ensures Agrees(Step, fuel, WithFrames(Evaluate(fuel - 1, m3.code, m3.envir, m3.store), 1 + t.value.frames), m, k, p)
    decreases fuel, 0
  {
    var k1, p1 := EvaluateAgrees(fuel - 1, m3);
    k, p := PartThenTail(Step, fuel, t, fr, m, k0, p0, m3, Evaluate(fuel - 1, m3.code, m3.envir, m3.store), k1, p1);
  }

  /** ... or a body. */
  lemma TailBegin(fuel: nat, m: Machine<Store>, t: Eval<Out<Store>>, fr: Frame, k0: nat, p0: nat, m3: Machine<Store>)
    returns (k: nat, p: nat)
    requires fuel > 0 && t.Got? && Part(Step, fuel, t, fr, m, k0, p0)
    requires Step(Resume(fr, t.value, m.dump)) == Got(Next(m3)) && m3.op == BEGIN && m3.dump == m.dump
    ensures Agrees(Step, fuel, WithFrames(Begin(fuel - 1, m3.code, m3.envir, m3.store), 1 + t.value.frames), m, k, p)
    decreases fuel, 0
  {
    var k1, p1 := BeginAgrees(fuel - 1, m3);
    k, p := PartThenTail(Step, fuel, t, fr, m, k0, p0, m3, Begin(fuel - 1, m3.code, m3.envir, m3.store), k1, p1);
  }

  lemma DefineAgrees(fuel: nat, m: Machine<Store>) returns (k: nat, p: nat)
    requires m.op == DEF0
    ensures Agrees(Step, fuel, DefineForm(fuel, m.code, m.envir, m.store), m, k, p)
    decreases fuel, 3
  {
    k, p := 1, 0;
    if fuel > 0 {
      var parts := DefineParts(m.code);
      if parts.Fault? {
        Fail(Step, fuel, m);
      } else {
        var (name, expr) := parts.value;
        var fr := Frame(DEF1, Nil, m.envir, name);
        k, p := PushEval(fuel, m, m.(op := EVAL, code := expr, dump := m.dump + [fr]), fr);
        var t := Evaluate(fuel - 1, expr, m.envir, m.store);
        if t.Got? {
          k, p := PartThenReturn(Step, fuel, t, fr, m, k, p, name, Define(t.value.s, m.envir, name, t.value.v));
        }
      }
    }
  }

  lemma SetAgrees(fuel: nat, m: Machine<Store>) returns (k: nat, p: nat)
    requires m.op == SET0
    ensures Agrees(Step, fuel, SetForm(fuel, m.code, m.envir, m.store), m, k, p)
    decreases fuel, 3
  {
    k, p := 1, 0;
    if fuel > 0 {
      var parts := Uncons(m.code);
      if parts.Fault? || CarOf(parts.value.1).Fault? {
        Fail(Step, fuel, m);
      } else {
        var (name, rest) := parts.value;
        var expr := CarOf(rest).value;
        var fr := Frame(SET1, Nil, m.envir, name);
        k, p := PushEval(fuel, m, m.(op := EVAL, code := expr, dump := m.dump + [fr]), fr);
        var t := Evaluate(fuel - 1, expr, m.envir, m.store);
        if t.Got? {
          k, p := AssignAgrees(fuel, m, t, name, fr, k, p);
        }
      }
    }
  }

  lemma AssignAgrees(fuel: nat, m: Machine<Store>, t: Eval<Out<Store>>, name: Value, fr: Frame, k0: nat, p0: nat)
    returns (k: nat, p: nat)
    requires fuel > 0 && t.Got? && fr == Frame(SET1, Nil, m.envir, name) && Part(Step, fuel, t, fr, m, k0, p0)
    ensures var at := FindSlot(t.value.s, m.envir, name, true);
            var r := if name.Sym? && at.0 > 0
                     then Got(Out(t.value.v, SetSlot(t.value.s, at, t.value.v), 1 + t.value.frames)) else Fault;
            Agrees(Step, fuel, r, m, k, p)
  {
    var at := FindSlot(t.value.s, m.envir, name, true);
    if name.Sym? && at.0 > 0 {
      k, p := PartThenReturn(Step, fuel, t, fr, m, k0, p0, t.value.v, SetSlot(t.value.s, at, t.value.v));
    } else {
      k, p := PartThenFault(Step, fuel, t, fr, m, k0, p0);
    }
  }

  lemma LetAgrees(fuel: nat, m: Machine<Store>) returns (k: nat, p: nat)
    requires m.op == LET0
    ensures Agrees(Step, fuel, LetForm(fuel, m.code, m.envir, m.store), m, k, p)
    decreases fuel, 3
  {
    k, p := 1, 0;
    if fuel > 0 {
      if LetBindings(m.code).Fault? {
        Fail(Step, fuel, m);
      } else {
        var vals, k1, p1, m2 := LetListAgrees(fuel, m);
        k, p := k1, p1;
        if vals.Got? {
          k, p := LetBodyAgrees(fuel, m, vals, k, p, m2);
        }
      }
    }
  }

  lemma LetListAgrees(fuel: nat, m: Machine<Store>)
    returns (vals: Eval<Out<Store>>, k: nat, p: nat, m2: Machine<Store>)
    requires fuel > 0 && m.op == LET0 && LetBindings(m.code).Got?
    ensures vals == EvaluateList(fuel - 1, LET1, LetBindings(m.code).value, m.envir, m.store)
    ensures Listed(Step, fuel, vals, m, k, p, m2)
    ensures vals.Got? ==>
              m2 == m.(op := LET2, args := vals.value.v, value := m2.value, store := vals.value.s)
    decreases fuel, 0
  {
    var m1 := m.(op := LET1, args := Nil, value := m.code, code := LetBindings(m.code).value);
    vals := EvaluateList(fuel - 1, LET1, m1.code, m.envir, m.store);
    k, p, m2 := FreshListAgrees(fuel - 1, m1);
    k, p := StepThenList(Step, fuel, m, m1, vals, k, p, m2);
  }

  lemma LetBodyAgrees(fuel: nat, m: Machine<Store>, vals: Eval<Out<Store>>, k0: nat, p0: nat, m2: Machine<Store>)
    returns (k: nat, p: nat)
    requires fuel > 0 && vals.Got? && Listed(Step, fuel, vals, m, k0, p0, m2)
    requires m2 == m.(op := LET2, args := vals.value.v, value := m2.value, store := vals.value.s)
    ensures var (s1, e1) := NewFrame(vals.value.s, m.envir);
            var entered := EnterLet(s1, e1, m.code, vals.value.v);
            var r := if entered.Got? then Begin(fuel - 1, entered.value.1, e1, entered.value.0) else Fault;
            Agrees(Step, fuel, WithFrames(r, vals.value.frames), m, k, p)
    decreases fuel, 0
  {
    var (s1, e1) := NewFrame(vals.value.s, m.envir);
    var entered := EnterLet(s1, e1, m.code, vals.value.v);
    if entered.Got? {
      var m3 := m2.(op := BEGIN, args := Nil, envir := e1, code := entered.value.1, store := entered.value.0);
      assert Step(m2) == Got(Next(m3));
      var k1, p1 := BeginAgrees(fuel - 1, m3);
      k, p := ListThenTail(Step, fuel, vals, m, k0, p0, m2, m3, Begin(fuel - 1, m3.code, m3.envir, m3.store), k1, p1);
    } else {
      ListThenFault(Step, fuel, vals, m, k0, p0, m2);
      k, p := k0 + 1, p0;
    }
  }

  lemma LetrecAgrees(fuel: nat, m: Machine<Store>) returns (k: nat, p: nat)
    requires m.op == LET0REC
    ensures Agrees(Step, fuel, LetrecForm(fuel, m.code, m.envir, m.store), m, k, p)
    decreases fuel, 3
  {
    k, p := 1, 0;
    if fuel > 0 {
      if Uncons(m.code).Fault? {
        Fail(Step, fuel, m);
      } else {
        var (s1, e1) := NewFrame(m.store, m.envir);
        var vals, k1, p1, m2 := LetrecListAgrees(fuel, m);
        k, p := k1, p1;
        if vals.Got? {
          k, p := LetrecBodyAgrees(fuel, m, e1, vals, k, p, m2);
        }
      }
    }
  }

  lemma LetrecListAgrees(fuel: nat, m: Machine<Store>)
    returns (vals: Eval<Out<Store>>, k: nat, p: nat, m2: Machine<Store>)
    requires fuel > 0 && m.op == LET0REC && Uncons(m.code).Got?
    ensures var (s1, e1) := NewFrame(m.store, m.envir);
            && vals == EvaluateList(fuel - 1, LET1REC, Uncons(m.code).value.0, e1, s1)
            && Listed(Step, fuel, vals, m, k, p, m2)
            && (vals.Got? ==> m2 == m.(op := LET2REC, args := vals.value.v, envir := e1, value := m2.value,
                                       store := vals.value.s))
    decreases fuel, 0
  {
    var (s1, e1) := NewFrame(m.store, m.envir);
    var m1 := m.(op := LET1REC, args := Nil, envir := e1, value := m.code, code := Uncons(m.code).value.0, store := s1);
    vals := EvaluateList(fuel - 1, LET1REC, m1.code, e1, s1);
    k, p, m2 := FreshListAgrees(fuel - 1, m1);
    k, p := StepThenList(Step, fuel, m, m1, vals, k, p, m2);
  }

  lemma LetrecBodyAgrees(fuel: nat, m: Machine<Store>, e1: nat, vals: Eval<Out<Store>>, k0: nat, p0: nat,
                         m2: Machine<Store>)
    returns (k: nat, p: nat)
    requires fuel > 0 && vals.Got? && Listed(Step, fuel, vals, m, k0, p0, m2) && Uncons(m.code).Got?
    requires m2 == m.(op := LET2REC, args := vals.value.v, envir := e1, value := m2.value, store := vals.value.s)
    ensures var (binds, body) := Uncons(m.code).value;
            var s2 := BindLet(vals.value.s, e1, binds, vals.value.v);
            var r := if s2.Got? then Begin(fuel - 1, body, e1, s2.value) else Fault;
            Agrees(Step, fuel, WithFrames(r, vals.value.frames), m, k, p)
    decreases fuel, 0
  {
    var (binds, body) := Uncons(m.code).value;
    var s2 := BindLet(vals.value.s, e1, binds, vals.value.v);
    if s2.Got? {
      var m3 := m2.(op := BEGIN, args := Nil, code := body, store := s2.value);
      assert Step(m2) == Got(Next(m3));
      var k1, p1 := BeginAgrees(fuel - 1, m3);
      k, p := ListThenTail(Step, fuel, vals, m, k0, p0, m2, m3, Begin(fuel - 1, m3.code, m3.envir, m3.store), k1, p1);
    } else {
      ListThenFault(Step, fuel, vals, m, k0, p0, m2);
      k, p := k0 + 1, p0;
    }
  }

  lemma LetStarAgrees(fuel: nat, m: Machine<Store>) returns (k: nat, p: nat)
    requires m.op == LET0AST
    ensures Agrees(Step, fuel, LetStarForm(fuel, m.code, m.envir, m.store), m, k, p)
    decreases fuel, 3
  {
    k, p := 1, 0;
    if fuel > 0 {
      var parts := Uncons(m.code);
      if parts.Got? && parts.value.0 == Nil {
        var (s1, e1) := NewFrame(m.store, m.envir);
        var m1 := m.(op := BEGIN, envir := e1, code := parts.value.1, store := s1);
        assert Step(m) == Got(Next(m1));
        var k1, p1 := BeginAgrees(fuel - 1, m1);
        k, p := Tail(Step, fuel, m, m1, Begin(fuel - 1, m1.code, m1.envir, m1.store), k1, p1);
      } else if parts.Fault? || !parts.value.0.Pair? || CadarOf(parts.value.0).Fault? {
        Fail(Step, fuel, m);
      } else {
        k, p := LetStarFirst(fuel, m, parts.value.0, parts.value.1);
      }
    }
  }

  lemma LetStarFirst(fuel: nat, m: Machine<Store>, binds: Value, body: Value) returns (k: nat, p: nat)
    requires fuel > 0 && m.op == LET0AST && Uncons(m.code) == Got((binds, body))
    requires binds.Pair? && CadarOf(binds).Got?
    ensures Agrees(Step, fuel, LetStarForm(fuel, m.code, m.envir, m.store), m, k, p)
    decreases fuel, 1
  {
    var expr := CadarOf(binds).value;
    var fr := Frame(LET1AST, body, m.envir, binds);
    var m1 := m.(op := EVAL, code := expr, dump := m.dump + [fr]);
    assert Step(m) == Got(Next(m1));
    k, p := PushEval(fuel, m, m1, fr);
    var t := Evaluate(fuel - 1, expr, m.envir, m.store);
    if t.Got? {
      var (s1, e1) := NewFrame(t.value.s, m.envir);
      var m2 := Resume(fr, t.value, m.dump);
      var m3 := m2.(op := LET2AST, envir := e1, store := s1);
      assert Step(m2) == Got(Next(m3));
      var k1, p1 := LetStarRestAgrees(fuel - 1, m3);
      k, p := PartThenTail(Step, fuel, t, fr, m, k, p, m3,
                           LetStarRest(fuel - 1, binds, t.value.v, body, e1, s1), k1, p1);
    }
  }

  lemma LetStarRestAgrees(fuel: nat, m: Machine<Store>) returns (k: nat, p: nat)
    requires m.op == LET2AST
    ensures Agrees(Step, fuel, LetStarRest(fuel, m.code, m.value, m.args, m.envir, m.store), m, k, p)
    decreases fuel, 3
  {
    k, p := 1, 0;
    if fuel > 0 {
      var parts := Uncons(m.code);
      if parts.Fault? || CarOf(parts.value.0).Fault? {
        Fail(Step, fuel, m);
      } else {
        var rest := parts.value.1;
        var s1 := NewSlot(m.store, m.envir, CarOf(parts.value.0).value, m.value);
        if !rest.Pair? {
          var m1 := m.(op := BEGIN, args := Nil, code := m.args, store := s1);
          assert Step(m) == Got(Next(m1));
          var k1, p1 := BeginAgrees(fuel - 1, m1);
          k, p := Tail(Step, fuel, m, m1, Begin(fuel - 1, m1.code, m1.envir, m1.store), k1, p1);
        } else if CadarOf(rest).Fault? {
          Fail(Step, fuel, m);
        } else {
          k, p := LetStarNext(fuel, m, rest, s1);
        }
      }
    }
  }

  lemma LetStarNext(fuel: nat, m: Machine<Store>, rest: Value, s1: Store) returns (k: nat, p: nat)
    requires fuel > 0 && m.op == LET2AST && Uncons(m.code).Got? && CarOf(Uncons(m.code).value.0).Got?
    requires rest == Uncons(m.code).value.1 && rest.Pair? && CadarOf(rest).Got?
    requires s1 == NewSlot(m.store, m.envir, CarOf(Uncons(m.code).value.0).value, m.value)
    ensures Agrees(Step, fuel, LetStarRest(fuel, m.code, m.value, m.args, m.envir, m.store), m, k, p)
    decreases fuel, 1
  {
    var expr := CadarOf(rest).value;
    var fr := Frame(LET2AST, m.args, m.envir, rest);
    var m1 := m.(op := EVAL, args := Nil, code := expr, store := s1, dump := m.dump + [fr]);
    assert Step(m) == Got(Next(m1));
    k, p := PushEval(fuel, m, m1, fr);
    var t := Evaluate(fuel - 1, expr, m.envir, s1);
    if t.Got? {
      var m2 := Resume(fr, t.value, m.dump);
      var k1, p1 := LetStarRestAgrees(fuel - 1, m2);
      k, p := PartThen(Step, fuel, t, fr, m, k, p,
                       LetStarRest(fuel - 1, rest, t.value.v, m.args, m.envir, t.value.s), k1, p1);
    }
  }

  /** The machine is about to save a frame for the first of these clauses. */
  predicate CondEntry(m: Machine<Store>, clauses: Value) {
    || (m.op == COND0 && m.code == clauses && clauses.Pair?)
    || (m.op == COND1 && m.value == False && CdrOf(m.code) == Got(clauses) && clauses != Nil)
  }

  lemma CondStep(m: Machine<Store>, clauses: Value)
    requires CondEntry(m, clauses)
    ensures var parts := Uncons(clauses);
            if parts.Fault? || Uncons(parts.value.0).Fault? then Step(m) == Fault
            else Step(m) == Got(Next(m.(op := EVAL, code := Uncons(parts.value.0).value.0,
                                        dump := m.dump + [Frame(COND1, Nil, m.envir, clauses)])))
  {
  }

  lemma CondAgrees(fuel: nat, m: Machine<Store>, clauses: Value) returns (k: nat, p: nat)
    requires CondEntry(m, clauses)
    ensures Agrees(Step, fuel, Cond(fuel, clauses, m.envir, m.store), m, k, p)
    decreases fuel, 4
  {
    k, p := 1, 0;
    if fuel > 0 {
      var parts := Uncons(clauses);
      CondStep(m, clauses);
      if parts.Fault? || Uncons(parts.value.0).Fault? {
        Fail(Step, fuel, m);
      } else {
        k, p := ClauseAgrees(fuel, m, clauses);
      }
    }
  }

  lemma ClauseAgrees(fuel: nat, m: Machine<Store>, clauses: Value) returns (k: nat, p: nat)
    requires fuel > 0 && Uncons(clauses).Got? && Uncons(Uncons(clauses).value.0).Got?
    requires Step(m) == Got(Next(m.(op := EVAL, code := Uncons(Uncons(clauses).value.0).value.0,
                                    dump := m.dump + [Frame(COND1, Nil, m.envir, clauses)])))
    ensures Agrees(Step, fuel, Cond(fuel, clauses, m.envir, m.store), m, k, p)
    decreases fuel, 3
  {
    var (test, body) := Uncons(Uncons(clauses).value.0).value;
    var fr := Frame(COND1, Nil, m.envir, clauses);
    k, p := PushEval(fuel, m, m.(op := EVAL, code := test, dump := m.dump + [fr]), fr);
    var t := Evaluate(fuel - 1, test, m.envir, m.store);
    if t.Got? {
      if t.value.v == False {
        k, p := CondFalse(fuel, m, clauses, t, fr, k, p);
      } else {
        k, p := CondTrue(fuel, m, clauses, body, t, fr, k, p);
      }
    }
  }

  lemma CondFalse(fuel: nat, m: Machine<Store>, clauses: Value, t: Eval<Out<Store>>, fr: Frame, k0: nat, p0: nat)
    returns (k: nat, p: nat)
    requires fuel > 0 && t.Got? && t.value.v == False && Part(Step, fuel, t, fr, m, k0, p0)
    requires fr == Frame(COND1, Nil, m.envir, clauses) && Uncons(clauses).Got?
    ensures var others := Uncons(clauses).value.1;
            var r := if others == Nil then Got(Out(Nil, t.value.s, 0)) else Cond(fuel - 1, others, m.envir, t.value.s);
            Agrees(Step, fuel, WithFrames(r, 1 + t.value.frames), m, k, p)
    decreases fuel, 1
  {
    var others := Uncons(clauses).value.1;
    if others == Nil {
      k, p := PartThenReturn(Step, fuel, t, fr, m, k0, p0, Nil, t.value.s);
    } else {
      k, p := OthersAgree(fuel, m, others, t, fr, k0, p0);
    }
  }

  lemma OthersAgree(fuel: nat, m: Machine<Store>, others: Value, t: Eval<Out<Store>>, fr: Frame, k0: nat, p0: nat)
    returns (k: nat, p: nat)
    requires fuel > 0 && t.Got? && t.value.v == False && Part(Step, fuel, t, fr, m, k0, p0) && others != Nil
    requires fr.op == COND1 && fr.envir == m.envir && CdrOf(fr.code) == Got(others)
    ensures Agrees(Step, fuel, WithFrames(Cond(fuel - 1, others, m.envir, t.value.s), 1 + t.value.frames), m, k, p)
    decreases fuel, 0
  {
    var k1, p1 := CondAgrees(fuel - 1, Resume(fr, t.value, m.dump), others);
    k, p := PartThen(Step, fuel, t, fr, m, k0, p0, Cond(fuel - 1, others, m.envir, t.value.s), k1, p1);
  }

  lemma TrueStep(m2: Machine<Store>, clauses: Value, body: Value)
    requires m2.op == COND1 && m2.code == clauses && m2.value != False
    requires Uncons(clauses).Got? && Uncons(Uncons(clauses).value.0).Got?
    requires body == Uncons(Uncons(clauses).value.0).value.1
    ensures Step(m2) == if body == Nil then Got(Ret(m2.value, m2.dump, m2.store)) else ClauseNext(m2, body)
  {
  }

  lemma CondTrue(fuel: nat, m: Machine<Store>, clauses: Value, body: Value, t: Eval<Out<Store>>, fr: Frame,
                 k0: nat, p0: nat)
    returns (k: nat, p: nat)
    requires fuel > 0 && t.Got? && t.value.v != False && Part(Step, fuel, t, fr, m, k0, p0)
    requires fr == Frame(COND1, Nil, m.envir, clauses)
    requires Uncons(clauses).Got? && Uncons(Uncons(clauses).value.0).Got?
    requires body == Uncons(Uncons(clauses).value.0).value.1
    ensures var r :=
              if body == Nil then Got(Out(t.value.v, t.value.s, 0))
              else if Uncons(body).Fault? then Fault
              else if Uncons(body).value.0 == FEED_TO then
                if !Uncons(body).value.1.Pair? then Fault
                else Evaluate(fuel - 1, Feed(Uncons(body).value.1.car, t.value.v), m.envir, t.value.s)
              else Begin(fuel - 1, body, m.envir, t.value.s);
            Agrees(Step, fuel, WithFrames(r, 1 + t.value.frames), m, k, p)
    decreases fuel, 2
  {
    var m2 := Resume(fr, t.value, m.dump);
    TrueStep(m2, clauses, body);
    if body == Nil {
      k, p := PartThenReturn(Step, fuel, t, fr, m, k0, p0, t.value.v, t.value.s);
    } else {
      k, p := ClauseBodyAgrees(fuel, m, body, t, fr, k0, p0);
    }
  }

  lemma ClauseBodyAgrees(fuel: nat, m: Machine<Store>, body: Value, t: Eval<Out<Store>>, fr: Frame, k0: nat, p0: nat)
    returns (k: nat, p: nat)
    requires fuel > 0 && t.Got? && Part(Step, fuel, t, fr, m, k0, p0) && fr.envir == m.envir
    requires Step(Resume(fr, t.value, m.dump)) == ClauseNext(Resume(fr, t.value, m.dump), body)
    ensures var r :=
              if Uncons(body).Fault? then Fault
              else if Uncons(body).value.0 == FEED_TO then
                if !Uncons(body).value.1.Pair? then Fault
                else Evaluate(fuel - 1, Feed(Uncons(body).value.1.car, t.value.v), m.envir, t.value.s)
              else Begin(fuel - 1, body, m.envir, t.value.s);
            Agrees(Step, fuel, WithFrames(r, 1 + t.value.frames), m, k, p)
    decreases fuel, 1
  {
    var m2 := Resume(fr, t.value, m.dump);
    if ClauseNext(m2, body).Fault? {
      k, p := PartThenFault(Step, fuel, t, fr, m, k0, p0);
    } else if Uncons(body).value.0 == FEED_TO {
      k, p := TailEval(fuel, m, t, fr, k0, p0, m2.(op := EVAL, code := Feed(Uncons(body).value.1.car, t.value.v)));
    } else {
      k, p := TailBegin(fuel, m, t, fr, k0, p0, m2.(op := BEGIN, code := body));
    }
  }

  /** The machine is about to save a frame for the first of these forms of an `and` or `or`. */
  predicate AndOrEntry(m: Machine<Store>, conj: bool) {
    && m.code != Nil
    && if conj then m.op == AND0 || (m.op == AND1 && m.value != False)
       else m.op == OR0 || (m.op == OR1 && m.value == False)
  }

  lemma AndOrStep(m: Machine<Store>, conj: bool)
    requires AndOrEntry(m, conj)
    ensures Step(m) == if Uncons(m.code).Fault? then Fault
                       else var (expr, rest) := Uncons(m.code).value;
                            Got(Next(m.(op := EVAL, code := expr, dump := m.dump +
                                        [Frame(if conj then AND1 else OR1, Nil, m.envir, rest)])))
  {
  }

  lemma AndOrAgrees(fuel: nat, m: Machine<Store>, conj: bool) returns (k: nat, p: nat)
    requires AndOrEntry(m, conj)
    ensures Agrees(Step, fuel, AndOr(fuel, conj, m.code, m.envir, m.store), m, k, p)
    decreases fuel, 3
  {
    k, p := 1, 0;
    if fuel > 0 {
      var parts := Uncons(m.code);
      AndOrStep(m, conj);
      if parts.Fault? {
        Fail(Step, fuel, m);
      } else {
        k, p := AndOrFirst(fuel, m, conj, parts.value.0, parts.value.1);
      }
    }
  }

  lemma AndOrFirst(fuel: nat, m: Machine<Store>, conj: bool, expr: Value, rest: Value) returns (k: nat, p: nat)
    requires fuel > 0 && Uncons(m.code) == Got((expr, rest))
    requires Step(m) == Got(Next(m.(op := EVAL, code := expr, dump := m.dump +
                                    [Frame(if conj then AND1 else OR1, Nil, m.envir, rest)])))
    ensures Agrees(Step, fuel, AndOr(fuel, conj, m.code, m.envir, m.store), m, k, p)
    decreases fuel, 2
  {
    var fr := Frame(if conj then AND1 else OR1, Nil, m.envir, rest);
    k, p := PushEval(fuel, m, m.(op := EVAL, code := expr, dump := m.dump + [fr]), fr);
    var t := Evaluate(fuel - 1, expr, m.envir, m.store);
    if t.Got? {
      k, p := AndOrNext(fuel, m, conj, t, rest, fr, k, p);
    }
  }

  lemma AndOrNext(fuel: nat, m: Machine<Store>, conj: bool, t: Eval<Out<Store>>, rest: Value, fr: Frame,
                  k0: nat, p0: nat)
    returns (k: nat, p: nat)
    requires fuel > 0 && t.Got? && Part(Step, fuel, t, fr, m, k0, p0)
    requires fr == Frame(if conj then AND1 else OR1, Nil, m.envir, rest)
    ensures var r := if (conj <==> t.value.v == False) || rest == Nil then Got(Out(t.value.v, t.value.s, 0))
                     else AndOr(fuel - 1, conj, rest, m.envir, t.value.s);
            Agrees(Step, fuel, WithFrames(r, 1 + t.value.frames), m, k, p)
    decreases fuel, 1
  {
    if (conj <==> t.value.v == False) || rest == Nil {
      k, p := AndOrLast(fuel, m, conj, t, rest, fr, k0, p0);
    } else {
      k, p := AndOrMore(fuel, m, conj, t, rest, fr, k0, p0);
    }
  }

  lemma AndOrMore(fuel: nat, m: Machine<Store>, conj: bool, t: Eval<Out<Store>>, rest: Value, fr: Frame,
                  k0: nat, p0: nat)
    returns (k: nat, p: nat)
    requires fuel > 0 && t.Got? && Part(Step, fuel, t, fr, m, k0, p0)
    requires fr == Frame(if conj then AND1 else OR1, Nil, m.envir, rest)
    requires !(conj <==> t.value.v == False) && rest != Nil
    ensures Agrees(Step, fuel, WithFrames(AndOr(fuel - 1, conj, rest, m.envir, t.value.s), 1 + t.value.frames), m, k, p)
    decreases fuel, 0
  {
    var m2 := Resume(fr, t.value, m.dump);
    assert AndOrEntry(m2, conj);
    var k1, p1 := AndOrAgrees(fuel - 1, m2, conj);
    k, p := PartThen(Step, fuel, t, fr, m, k0, p0, AndOr(fuel - 1, conj, rest, m.envir, t.value.s), k1, p1);
  }

  lemma AndOrLast(fuel: nat, m: Machine<Store>, conj: bool, t: Eval<Out<Store>>, rest: Value, fr: Frame,
                  k0: nat, p0: nat)
    returns (k: nat, p: nat)
    requires fuel > 0 && t.Got? && Part(Step, fuel, t, fr, m, k0, p0)
    requires fr == Frame(if conj then AND1 else OR1, Nil, m.envir, rest)
    requires (conj <==> t.value.v == False) || rest == Nil
    ensures Agrees(Step, fuel, Got(Out(t.value.v, t.value.s, 1 + t.value.frames)), m, k, p)
  {
    assert Step(Resume(fr, t.value, m.dump)) == Got(Ret(t.value.v, m.dump, t.value.s));
    k, p := PartThenReturn(Step, fuel, t, fr, m, k0, p0, t.value.v, t.value.s);
  }

  predicate FormOp(op: Op) {
    op in {QUOTE, LAMBDA, DEF0, SET0, BEGIN, IF0, LET0, LET0AST, LET0REC, COND0, AND0, OR0}
  }

  lemma SpecialAgrees(fuel: nat, m: Machine<Store>) returns (k: nat, p: nat)
    requires FormOp(m.op)
    ensures Agrees(Step, fuel, Special(fuel, m.op, m.code, m.envir, m.store), m, k, p)
    decreases fuel, 5
  {
    if m.op == DEF0 {
      k, p := DefineAgrees(fuel, m);
    } else if m.op == SET0 {
      k, p := SetAgrees(fuel, m);
    } else if m.op == BEGIN {
      k, p := BeginAgrees(fuel, m);
    } else if m.op == IF0 {
      k, p := IfAgrees(fuel, m);
    } else if m.op == LET0 {
      k, p := LetAgrees(fuel, m);
    } else if m.op == LET0AST {
      k, p := LetStarAgrees(fuel, m);
    } else if m.op == LET0REC {
      k, p := LetrecAgrees(fuel, m);
    } else if m.op == COND0 && fuel > 0 && m.code.Pair? {
      k, p := CondAgrees(fuel, m, m.code);
    } else if (m.op == AND0 || m.op == OR0) && fuel > 0 && m.code != Nil {
      k, p := AndOrAgrees(fuel, m, m.op == AND0);
    } else {
      Simple(fuel, m);
      k, p := 1, 0;
    }
  }

  /** The forms that take one step. */
  lemma Simple(fuel: nat, m: Machine<Store>)
    requires m.op == QUOTE || m.op == LAMBDA || (m.op == COND0 && (fuel == 0 || !m.code.Pair?))
          || ((m.op == AND0 || m.op == OR0) && (fuel == 0 || m.code == Nil))
    ensures Agrees(Step, fuel, Special(fuel, m.op, m.code, m.envir, m.store), m, 1, 0)
  {
    if fuel > 0 {
      var r := Special(fuel, m.op, m.code, m.envir, m.store);
      if r.Got? {
        Return(Step, fuel, m, r.value);
      } else {
        Fail(Step, fuel, m);
      }
    }
  }
}
