/** Proper tail calls (section 3.5 of R5RS) as the machine has them: a tail call leaves the dump as
    deep as it was, so a run made of tail calls, however long, stays within a bounded dump. */
module SchemeTailCalls {
  import opened Registers
  import opened SchemeMachine
  import opened SchemeEvaluator
  import opened MachineRuns
  import opened SchemeCorrectness
  import opened Adequacy
  import opened SchemeTheorems

  /** An expression to evaluate, its environment and the store. */
  datatype Config = Config(code: Value, e: nat, s: Store)

  /** What is left to evaluate in tail position, and the frames it took to get there. */
  datatype Tail = Tail(next: Config, frames: nat)

  function WithPeak(r: Eval<Tail>, h: nat): Eval<Tail> {
    if r.Got? then Got(Tail(r.value.next, Max(h, r.value.frames))) else r
  }

  // ---------------------------------------------------------------------------
  // Tail positions
  // ---------------------------------------------------------------------------

  /** The last form of a body. */
  function LastForm(fuel: nat, body: Value, e: nat, s: Store): Eval<Tail> {
    if !body.Pair? then Fault
    else if body.cdr == Nil then Got(Tail(Config(body.car, e, s), 0))
    else
      var first :- Evaluate(fuel, body.car, e, s);
      WithPeak(LastForm(fuel, body.cdr, e, first.s), 1 + first.frames)
  }

  /** The branch of an `if` that is taken. */
  function Branch(fuel: nat, code: Value, e: nat, s: Store): Eval<Tail> {
    var (test, rest) :- Uncons(code);
    var t :- Evaluate(fuel, test, e, s);
    var branch :- (if t.v != False then CarOf(rest) else CadrOf(rest));
    Got(Tail(Config(branch, e, t.s), 1 + t.frames))
  }

  /** What a clause whose test gave `v` goes on with: the call of its receiver, or its body's last form. */
  function ClauseTail(fuel: nat, body: Value, v: Value, e: nat, s: Store): Eval<Tail> {
    if !body.Pair? then Fault
    else if body.car != FEED_TO then LastForm(fuel, body, e, s)
    else if body.cdr.Pair? then Got(Tail(Config(Feed(body.cdr.car, v), e, s), 0))
    else Fault
  }

  /** The first clause of a `cond` whose test succeeds. */
  function ChosenClause(fuel: nat, clauses: Value, e: nat, s: Store): Eval<Tail> {
    if !clauses.Pair? then Fault
    else
      var (test, body) :- Uncons(clauses.car);
      var t :- Evaluate(fuel, test, e, s);
      WithPeak(if t.v == False then ChosenClause(fuel, clauses.cdr, e, t.s) else ClauseTail(fuel, body, t.v, e, t.s),
               1 + t.frames)
  }

  function LetTail(fuel: nat, code: Value, e: nat, s: Store): Eval<Tail> {
    var binds :- LetBindings(code);
    var vals :- EvaluateList(fuel, LET1, binds, e, s);
    var (s1, e1) := NewFrame(vals.s, e);
    var (s2, body) :- EnterLet(s1, e1, code, vals.v);
    WithPeak(LastForm(fuel, body, e1, s2), vals.frames)
  }

  function LetrecTail(fuel: nat, code: Value, e: nat, s: Store): Eval<Tail> {
    var (s1, e1) := NewFrame(s, e);
    var (binds, body) :- Uncons(code);
    var vals :- EvaluateList(fuel, LET1REC, binds, e1, s1);
    var s2 :- BindLet(vals.s, e1, binds, vals.v);
    WithPeak(LastForm(fuel, body, e1, s2), vals.frames)
  }

  function LetStarTail(fuel: nat, code: Value, e: nat, s: Store): Eval<Tail> {
    var (binds, body) :- Uncons(code);
    if binds == Nil then
      var (s1, e1) := NewFrame(s, e);
      LastForm(fuel, body, e1, s1)
    else if !binds.Pair? then Fault
    else
      var expr :- CadarOf(binds);
      var first :- Evaluate(fuel, expr, e, s);
      var (s1, e1) := NewFrame(first.s, e);
      WithPeak(LetStarRestTail(fuel, binds, first.v, body, e1, s1), 1 + first.frames)
  }

  function LetStarRestTail(fuel: nat, binds: Value, v: Value, body: Value, e: nat, s: Store): Eval<Tail>
    decreases binds
  {
    if !binds.Pair? then Fault
    else
      var name :- CarOf(binds.car);
      var s1 := NewSlot(s, e, name, v);
      if binds.cdr.Pair? then
        var expr :- CadarOf(binds.cdr);
        var next :- Evaluate(fuel, expr, e, s1);
        WithPeak(LetStarRestTail(fuel, binds.cdr, next.v, body, e, next.s), 1 + next.frames)
      else LastForm(fuel, body, e, s1)
  }

  /** The last form of the closure that is called. */
  function CallTail(fuel: nat, head: Value, rest: Value, e: nat, s: Store): Eval<Tail> {
    var operator :- Evaluate(fuel, head, e, s);
    var args :- EvaluateList(fuel, E1ARGS, rest, e, operator.s);
    WithPeak(BodyTail(fuel, operator.v, args.v, args.s), Max(1 + operator.frames, args.frames))
  }

  function BodyTail(fuel: nat, operator: Value, args: Value, s: Store): Eval<Tail> {
    if !operator.Closure? then Fault
    else
      var (s1, e) := NewFrame(s, operator.env);
      var (params, body) :- Uncons(operator.code);
      var s2 :- BindParams(s1, e, params, args);
      LastForm(fuel, body, e, s2)
  }

  /** What an expression goes on with in tail position; a fault where it has none. */
  function TailOf(fuel: nat, c: Config): Eval<Tail> {
    if !c.code.Pair? then Fault
    else if IsSyntax(c.code.car) then
      match SyntaxNum(c.code.car)
      case BEGIN => LastForm(fuel, c.code.cdr, c.e, c.s)
      case IF0 => Branch(fuel, c.code.cdr, c.e, c.s)
      case COND0 => ChosenClause(fuel, c.code.cdr, c.e, c.s)
      case LET0 => LetTail(fuel, c.code.cdr, c.e, c.s)
      case LET0AST => LetStarTail(fuel, c.code.cdr, c.e, c.s)
      case LET0REC => LetrecTail(fuel, c.code.cdr, c.e, c.s)
      case _ => Fault
    else CallTail(fuel, c.code.car, c.code.cdr, c.e, c.s)
  }

  // ---------------------------------------------------------------------------
  // The machine on its way to a tail position
  // ---------------------------------------------------------------------------

  predicate Starts(m: Machine<Store>, c: Config) {
    m.op == EVAL && m.code == c.code && m.envir == c.e && m.store == c.s
  }

  /** From `m` the machine gets to `m1`, where it evaluates what is left, on the dump that `m` has. */
  ghost predicate GetsTo(m: Machine<Store>, m1: Machine<Store>, r: Eval<Tail>, h: nat) {
    r.Got? && Starts(m1, r.value.next) && Reaches(Step, m, m1, h)
  }

  predicate Within(r: Eval<Tail>, h: nat) {
    r.Got? && r.value.frames <= h
  }

  lemma Via(m: Machine<Store>, m0: Machine<Store>, m1: Machine<Store>, r: Eval<Tail>, h: nat)
    requires Reaches(Step, m, m0, h) && GetsTo(m0, m1, r, h)
    ensures GetsTo(m, m1, r, h)
  {
    Transitive(Step, m, m0, m1, h);
  }

  lemma AfterStep(m: Machine<Store>, m0: Machine<Store>, m1: Machine<Store>, r: Eval<Tail>, h: nat)
    requires Step(m) == Got(Next(m0)) && m0.dump == m.dump && GetsTo(m0, m1, r, h)
    ensures GetsTo(m, m1, r, h)
  {
    ByStep(Step, m, m0, h);
    Via(m, m0, m1, r, h);
  }

  /** A part, evaluated above a saved frame. */
  lemma ByEval(fuel: nat, m: Machine<Store>, m1: Machine<Store>, fr: Frame, t: Out<Store>, h: nat)
    returns (m2: Machine<Store>)
    requires Step(m) == Got(Next(m1)) && m1.op == EVAL && m1.dump == m.dump + [fr]
    requires Evaluate(fuel, m1.code, m1.envir, m1.store) == Got(t) && 1 + t.frames <= h
    ensures m2 == Resume(fr, t, m.dump) && Reaches(Step, m, m2, h)
  {
    var k, p := PushEval(fuel + 1, m, m1, fr);
    m2 := Resume(fr, t, m.dump);
  }

  /** A list of operands or of the expressions of bindings. */
  lemma ByList(fuel: nat, m: Machine<Store>, vals: Out<Store>, m1: Machine<Store>, h: nat)
    requires ListOp(m.op) && m.args == Nil && EvaluateList(fuel, m.op, m.code, m.envir, m.store) == Got(vals)
    requires m1 == m.(op := ListEnd(m.op), code := m.value, args := vals.v, value := LastOf(m.value, vals.v),
                      store := vals.s)
    requires vals.frames <= h
    ensures Reaches(Step, m, m1, h)
  {
    var k, p, m2 := FreshListAgrees(fuel, m);
  }

  lemma {:induction false} LastFormReached(fuel: nat, m: Machine<Store>, h: nat) returns (m1: Machine<Store>)
    requires m.op == BEGIN && Within(LastForm(fuel, m.code, m.envir, m.store), h)
    ensures GetsTo(m, m1, LastForm(fuel, m.code, m.envir, m.store), h)
    decreases m.code
  {
    if m.code.cdr == Nil {
      m1 := m.(op := EVAL, code := m.code.car);
      ByStep(Step, m, m1, h);
    } else {
      var t := Evaluate(fuel, m.code.car, m.envir, m.store).value;
      var fr := Frame(BEGIN, Nil, m.envir, m.code.cdr);
      var m2 := ByEval(fuel, m, m.(op := EVAL, code := m.code.car, dump := m.dump + [fr]), fr, t, h);
      m1 := LastFormReached(fuel, m2, h);
      Transitive(Step, m, m2, m1, h);
    }
  }

  lemma BranchReached(fuel: nat, m: Machine<Store>, h: nat) returns (m1: Machine<Store>)
    requires m.op == IF0 && Within(Branch(fuel, m.code, m.envir, m.store), h)
    ensures GetsTo(m, m1, Branch(fuel, m.code, m.envir, m.store), h)
  {
    var (test, rest) := Uncons(m.code).value;
    var t := Evaluate(fuel, test, m.envir, m.store).value;
    var fr := Frame(IF1, Nil, m.envir, rest);
    var m2 := ByEval(fuel, m, m.(op := EVAL, code := test, dump := m.dump + [fr]), fr, t, h);
    m1 := BranchTaken(m2, Branch(fuel, m.code, m.envir, m.store).value.next.code, h);
    Transitive(Step, m, m2, m1, h);
  }

  lemma BranchTaken(m: Machine<Store>, branch: Value, h: nat) returns (m1: Machine<Store>)
    requires m.op == IF1 && Got(branch) == if m.value != False then CarOf(m.code) else CadrOf(m.code)
    ensures m1 == m.(op := EVAL, code := branch) && Reaches(Step, m, m1, h)
  {
    m1 := m.(op := EVAL, code := branch);
    ByStep(Step, m, m1, h);
  }

  lemma ClauseReached(fuel: nat, m: Machine<Store>, body: Value, h: nat) returns (m1: Machine<Store>)
    requires m.op == COND1 && m.value != False && m.code.Pair? && Uncons(m.code.car).Got?
    requires body == Uncons(m.code.car).value.1 && Within(ClauseTail(fuel, body, m.value, m.envir, m.store), h)
    ensures GetsTo(m, m1, ClauseTail(fuel, body, m.value, m.envir, m.store), h)
  {
    TrueStep(m, m.code, body);
    if body.car == FEED_TO {
      m1 := m.(op := EVAL, code := Feed(body.cdr.car, m.value));
      ByStep(Step, m, m1, h);
    } else {
      var m0 := m.(op := BEGIN, code := body);
      m1 := LastFormReached(fuel, m0, h);
      AfterStep(m, m0, m1, LastForm(fuel, body, m.envir, m.store), h);
    }
  }

  /** What a chosen clause is made of. */
  lemma ChosenParts(fuel: nat, clauses: Value, e: nat, s: Store, h: nat)
    returns (test: Value, body: Value, t: Out<Store>)
    requires Within(ChosenClause(fuel, clauses, e, s), h)
    ensures clauses.Pair? && Uncons(clauses.car) == Got((test, body))
    ensures Evaluate(fuel, test, e, s) == Got(t) && 1 + t.frames <= h
    ensures var r := if t.v == False then ChosenClause(fuel, clauses.cdr, e, t.s)
                     else ClauseTail(fuel, body, t.v, e, t.s);
            Within(r, h) && r.value.next == ChosenClause(fuel, clauses, e, s).value.next
  {
    test, body := Uncons(clauses.car).value.0, Uncons(clauses.car).value.1;
    t := Evaluate(fuel, test, e, s).value;
  }

  lemma {:induction false} ChosenClauseReached(fuel: nat, m: Machine<Store>, clauses: Value, h: nat)
    returns (m1: Machine<Store>)
    requires CondEntry(m, clauses) && Within(ChosenClause(fuel, clauses, m.envir, m.store), h)
    ensures GetsTo(m, m1, ChosenClause(fuel, clauses, m.envir, m.store), h)
    decreases clauses
  {
    var test, body, t := ChosenParts(fuel, clauses, m.envir, m.store, h);
    var fr := Frame(COND1, Nil, m.envir, clauses);
    CondStep(m, clauses);
    var m2 := ByEval(fuel, m, m.(op := EVAL, code := test, dump := m.dump + [fr]), fr, t, h);
    if t.v == False {
      assert CondEntry(m2, clauses.cdr);
      m1 := ChosenClauseReached(fuel, m2, clauses.cdr, h);
    } else {
      m1 := ClauseReached(fuel, m2, body, h);
    }
    Transitive(Step, m, m2, m1, h);
  }

  lemma LetReached(fuel: nat, m: Machine<Store>, h: nat) returns (m1: Machine<Store>)
    requires m.op == LET0 && Within(LetTail(fuel, m.code, m.envir, m.store), h)
    ensures GetsTo(m, m1, LetTail(fuel, m.code, m.envir, m.store), h)
  {
    var binds := LetBindings(m.code).value;
    var vals := EvaluateList(fuel, LET1, binds, m.envir, m.store).value;
    var m2 := m.(op := LET1, args := Nil, value := m.code, code := binds);
    var m3 := m2.(op := LET2, code := m.code, args := vals.v, value := LastOf(m.code, vals.v), store := vals.s);
    ByStep(Step, m, m2, h);
    ByList(fuel, m2, vals, m3, h);
    Transitive(Step, m, m2, m3, h);
    m1 := LetBodyReached(fuel, m3, h);
    Via(m, m3, m1, LetBodyTail(fuel, m3), h);
  }

  function LetBodyTail(fuel: nat, m: Machine<Store>): Eval<Tail> {
    var (s1, e1) := NewFrame(m.store, m.envir);
    var (s2, body) :- EnterLet(s1, e1, m.code, m.args);
    LastForm(fuel, body, e1, s2)
  }

  lemma LetBodyReached(fuel: nat, m: Machine<Store>, h: nat) returns (m1: Machine<Store>)
    requires m.op == LET2 && Within(LetBodyTail(fuel, m), h)
    ensures GetsTo(m, m1, LetBodyTail(fuel, m), h)
  {
    var (s1, e1) := NewFrame(m.store, m.envir);
    var (s2, body) := EnterLet(s1, e1, m.code, m.args).value;
    var m0 := m.(op := BEGIN, args := Nil, envir := e1, code := body, store := s2);
    m1 := LastFormReached(fuel, m0, h);
    AfterStep(m, m0, m1, LetBodyTail(fuel, m), h);
  }

  lemma LetrecReached(fuel: nat, m: Machine<Store>, h: nat) returns (m1: Machine<Store>)
    requires m.op == LET0REC && Within(LetrecTail(fuel, m.code, m.envir, m.store), h)
    ensures GetsTo(m, m1, LetrecTail(fuel, m.code, m.envir, m.store), h)
  {
    var (s1, e1) := NewFrame(m.store, m.envir);
    var (binds, body) := Uncons(m.code).value;
    var vals := EvaluateList(fuel, LET1REC, binds, e1, s1).value;
    var m2 := m.(op := LET1REC, args := Nil, envir := e1, value := m.code, code := binds, store := s1);
    var m3 := m2.(op := LET2REC, code := m.code, args := vals.v, value := LastOf(m.code, vals.v), store := vals.s);
    ByStep(Step, m, m2, h);
    ByList(fuel, m2, vals, m3, h);
    Transitive(Step, m, m2, m3, h);
    m1 := LetrecBodyReached(fuel, m3, h);
    Via(m, m3, m1, LetrecBodyTail(fuel, m3), h);
  }

  function LetrecBodyTail(fuel: nat, m: Machine<Store>): Eval<Tail> {
    var (binds, body) :- Uncons(m.code);
    var s2 :- BindLet(m.store, m.envir, binds, m.args);
    LastForm(fuel, body, m.envir, s2)
  }

  lemma LetrecBodyReached(fuel: nat, m: Machine<Store>, h: nat) returns (m1: Machine<Store>)
    requires m.op == LET2REC && Within(LetrecBodyTail(fuel, m), h)
    ensures GetsTo(m, m1, LetrecBodyTail(fuel, m), h)
  {
    var (binds, body) := Uncons(m.code).value;
    var m0 := m.(op := BEGIN, args := Nil, code := body, store := BindLet(m.store, m.envir, binds, m.args).value);
    m1 := LastFormReached(fuel, m0, h);
    AfterStep(m, m0, m1, LetrecBodyTail(fuel, m), h);
  }

  lemma LetStarReached(fuel: nat, m: Machine<Store>, h: nat) returns (m1: Machine<Store>)
    requires m.op == LET0AST && Within(LetStarTail(fuel, m.code, m.envir, m.store), h)
    ensures GetsTo(m, m1, LetStarTail(fuel, m.code, m.envir, m.store), h)
  {
    var (binds, body) := Uncons(m.code).value;
    if binds == Nil {
      var (s1, e1) := NewFrame(m.store, m.envir);
      var m0 := m.(op := BEGIN, envir := e1, code := body, store := s1);
      m1 := LastFormReached(fuel, m0, h);
      AfterStep(m, m0, m1, LastForm(fuel, body, e1, s1), h);
    } else {
      m1 := LetStarFirstReached(fuel, m, binds, body, h);
    }
  }

  lemma LetStarFirstReached(fuel: nat, m: Machine<Store>, binds: Value, body: Value, h: nat)
    returns (m1: Machine<Store>)
    requires m.op == LET0AST && Uncons(m.code) == Got((binds, body)) && binds.Pair?
    requires Within(LetStarTail(fuel, m.code, m.envir, m.store), h)
    ensures GetsTo(m, m1, LetStarTail(fuel, m.code, m.envir, m.store), h)
  {
    var expr := CadarOf(binds).value;
    var t := Evaluate(fuel, expr, m.envir, m.store).value;
    var fr := Frame(LET1AST, body, m.envir, binds);
    var m2 := ByEval(fuel, m, m.(op := EVAL, code := expr, dump := m.dump + [fr]), fr, t, h);
    m1 := LetStarEntered(fuel, m2, h);
    Transitive(Step, m, m2, m1, h);
  }

  function EnteredTail(fuel: nat, m: Machine<Store>): Eval<Tail> {
    var (s1, e1) := NewFrame(m.store, m.envir);
    LetStarRestTail(fuel, m.code, m.value, m.args, e1, s1)
  }

  lemma LetStarEntered(fuel: nat, m: Machine<Store>, h: nat) returns (m1: Machine<Store>)
    requires m.op == LET1AST && Within(EnteredTail(fuel, m), h)
    ensures GetsTo(m, m1, EnteredTail(fuel, m), h)
  {
    var (s1, e1) := NewFrame(m.store, m.envir);
    var m0 := m.(op := LET2AST, envir := e1, store := s1);
    m1 := LetStarRestReached(fuel, m0, h);
    AfterStep(m, m0, m1, EnteredTail(fuel, m), h);
  }

  lemma {:induction false} LetStarRestReached(fuel: nat, m: Machine<Store>, h: nat) returns (m1: Machine<Store>)
    requires m.op == LET2AST && Within(LetStarRestTail(fuel, m.code, m.value, m.args, m.envir, m.store), h)
    ensures GetsTo(m, m1, LetStarRestTail(fuel, m.code, m.value, m.args, m.envir, m.store), h)
    decreases m.code
  {
    var s1 := NewSlot(m.store, m.envir, CarOf(m.code.car).value, m.value);
    if m.code.cdr.Pair? {
      var expr := CadarOf(m.code.cdr).value;
      var t := Evaluate(fuel, expr, m.envir, s1).value;
      var fr := Frame(LET2AST, m.args, m.envir, m.code.cdr);
      var m0 := m.(op := EVAL, args := Nil, code := expr, store := s1, dump := m.dump + [fr]);
      var m2 := ByEval(fuel, m, m0, fr, t, h);
      m1 := LetStarRestReached(fuel, m2, h);
      Transitive(Step, m, m2, m1, h);
    } else {
      var m0 := m.(op := BEGIN, args := Nil, code := m.args, store := s1);
      m1 := LastFormReached(fuel, m0, h);
      AfterStep(m, m0, m1, LastForm(fuel, m.args, m.envir, s1), h);
    }
  }

  lemma CallReached(fuel: nat, m: Machine<Store>, h: nat) returns (m1: Machine<Store>)
    requires m.op == EVAL && m.code.Pair? && !IsSyntax(m.code.car)
    requires Within(CallTail(fuel, m.code.car, m.code.cdr, m.envir, m.store), h)
    ensures GetsTo(m, m1, CallTail(fuel, m.code.car, m.code.cdr, m.envir, m.store), h)
  {
    var operator := Evaluate(fuel, m.code.car, m.envir, m.store).value;
    var fr := Frame(E0ARGS, Nil, m.envir, m.code);
    var m2 := ByEval(fuel, m, m.(op := EVAL, code := m.code.car, dump := m.dump + [fr]), fr, operator, h);
    var m3 := m2.(op := E1ARGS, code := m.code.cdr);
    ByStep(Step, m2, m3, h);
    Transitive(Step, m, m2, m3, h);
    m1 := OperandsReached(fuel, m3, h);
    Transitive(Step, m, m3, m1, h);
  }

  function OperandsTail(fuel: nat, m: Machine<Store>): Eval<Tail> {
    var args :- EvaluateList(fuel, E1ARGS, m.code, m.envir, m.store);
    WithPeak(BodyTail(fuel, m.value, args.v, args.s), args.frames)
  }

  lemma OperandsReached(fuel: nat, m: Machine<Store>, h: nat) returns (m1: Machine<Store>)
    requires m.op == E1ARGS && m.args == Nil && Within(OperandsTail(fuel, m), h)
    ensures GetsTo(m, m1, OperandsTail(fuel, m), h)
  {
    var args := EvaluateList(fuel, E1ARGS, m.code, m.envir, m.store).value;
    var m2 := m.(op := APPLY, code := m.value, args := args.v, value := LastOf(m.value, args.v), store := args.s);
    ByList(fuel, m, args, m2, h);
    m1 := BodyReached(fuel, m2, h);
    Transitive(Step, m, m2, m1, h);
  }

  lemma BodyReached(fuel: nat, m: Machine<Store>, h: nat) returns (m1: Machine<Store>)
    requires m.op == APPLY && Within(BodyTail(fuel, m.code, m.args, m.store), h)
    ensures GetsTo(m, m1, BodyTail(fuel, m.code, m.args, m.store), h)
  {
    var (s1, e) := NewFrame(m.store, m.code.env);
    var (params, body) := Uncons(m.code.code).value;
    var m0 := m.(op := BEGIN, args := Nil, envir := e, code := body, store := BindParams(s1, e, params, m.args).value);
    m1 := LastFormReached(fuel, m0, h);
    AfterStep(m, m0, m1, BodyTail(fuel, m.code, m.args, m.store), h);
  }

  /** The same for a form that begins with a keyword. */
  lemma FormReached(fuel: nat, m: Machine<Store>, r: Eval<Tail>, h: nat) returns (m1: Machine<Store>)
    requires r == match m.op
                  case BEGIN => LastForm(fuel, m.code, m.envir, m.store)
                  case IF0 => Branch(fuel, m.code, m.envir, m.store)
                  case COND0 => ChosenClause(fuel, m.code, m.envir, m.store)
                  case LET0 => LetTail(fuel, m.code, m.envir, m.store)
                  case LET0AST => LetStarTail(fuel, m.code, m.envir, m.store)
                  case LET0REC => LetrecTail(fuel, m.code, m.envir, m.store)
                  case _ => Fault
    requires Within(r, h)
    ensures GetsTo(m, m1, r, h)
  {
    match m.op
    case BEGIN => m1 := LastFormReached(fuel, m, h);
    case IF0 => m1 := BranchReached(fuel, m, h);
    case COND0 => m1 := ChosenClauseReached(fuel, m, m.code, h);
    case LET0 => m1 := LetReached(fuel, m, h);
    case LET0AST => m1 := LetStarReached(fuel, m, h);
    case _ => m1 := LetrecReached(fuel, m, h);
  }

  /** Whatever an expression goes on with in tail position, the machine comes to evaluate it on the
      dump that it evaluates the expression on. */
  lemma TailReached(fuel: nat, m: Machine<Store>, c: Config, h: nat) returns (m1: Machine<Store>)
    requires Starts(m, c) && Within(TailOf(fuel, c), h)
    ensures GetsTo(m, m1, TailOf(fuel, c), h)
  {
    if IsSyntax(c.code.car) {
      var m0 := m.(op := SyntaxNum(c.code.car), code := c.code.cdr);
      m1 := FormReached(fuel, m0, TailOf(fuel, c), h);
      AfterStep(m, m0, m1, TailOf(fuel, c), h);
    } else {
      m1 := CallReached(fuel, m, h);
    }
  }

  // ---------------------------------------------------------------------------
  // Runs of tail calls
  // ---------------------------------------------------------------------------

  /** `c` goes on with `c1` in tail position, and takes `h` frames at most to get there. */
  ghost predicate TailCall(c: Config, c1: Config, h: nat) {
    exists fuel: nat :: Within(TailOf(fuel, c), h) && TailOf(fuel, c).value.next == c1
  }

  lemma ByTailCall(c: Config, c1: Config, h: nat, m: Machine<Store>) returns (m1: Machine<Store>)
    requires TailCall(c, c1, h) && Starts(m, c)
    ensures Starts(m1, c1) && Reaches(Step, m, m1, h)
  {
    var fuel: nat :| Within(TailOf(fuel, c), h) && TailOf(fuel, c).value.next == c1;
    m1 := TailReached(fuel, m, c, h);
  }

  /** One call after the other. */
  ghost predicate TailCalls(c: seq<Config>, h: nat) {
    InTurn((a, b) => TailCall(a, b, h), c)
  }

  lemma TailCallsCarry(h: nat)
    ensures Carries(Step, (a, b) => TailCall(a, b, h), (m, c) => Starts(m, c), h)
  {
    forall c, c1, m | TailCall(c, c1, h) && Starts(m, c)
      ensures Brings(Step, (m, c) => Starts(m, c), m, c1, h)
    {
      var m1 := ByTailCall(c, c1, h, m);
    }
  }

  lemma CallsChained(c: seq<Config>, h: nat, m: Machine<Store>) returns (m1: Machine<Store>, k: nat, p: nat, g: nat)
    requires TailCalls(c, h) && Starts(m, c[0])
    ensures Starts(m1, c[|c| - 1]) && Stretch(Step, m, m1, k, p, g, h, |c| - 1)
  {
    TailCallsCarry(h);
    m1, k, p, g := Chained(Step, (a, b) => TailCall(a, b, h), (m, c) => Starts(m, c), c, h, m);
  }

  /** A run of tail calls, however many, comes to evaluate the last expression on the dump that it
      began with, and takes no more frames on the way than a single one of the calls. */
  lemma TailCallsInBoundedDump(c: seq<Config>, h: nat, m: Machine<Store>)
    requires TailCalls(c, h) && Starts(m, c[0])
    ensures exists m1 :: Starts(m1, c[|c| - 1]) && Reaches(Step, m, m1, h)
  {
    var m1, k, p, g := CallsChained(c, h, m);
    assert Reaches(Step, m, m1, h);
  }

  /** If the last expression has a value, the run returns it and has taken no more frames than a call
      or that expression takes. */
  lemma TailCallsReturn(c: seq<Config>, h: nat, m: Machine<Store>, fuel: nat, o: Out<Store>)
    requires TailCalls(c, h) && Starts(m, c[0])
    requires Evaluate(fuel, c[|c| - 1].code, c[|c| - 1].e, c[|c| - 1].s) == Got(o)
    ensures exists g: nat :: g <= Max(h, o.frames) && Returns(Step, m, Out(o.v, o.s, g))
  {
    var m1, k, p, g := CallsChained(c, h, m);
    var k1, p1 := EvaluateAgrees(fuel, m1);
    var q := Join(Step, m, k, p, m.dump, g, m1, k1, p1, o.frames);
    assert ReturnsAt(Step, m, Out(o.v, o.s, Max(g, o.frames)), k + k1, q);
  }

  /** A loop of tail calls that never ends stays within the same frames for ever. */
  lemma EndlessTailCalls(c: nat -> Config, h: nat, m: Machine<Store>, k: nat)
    requires Starts(m, c(0)) && forall i: nat :: TailCall(c(i), c(i + 1), h)
    ensures Going(Step, m, k) && Above(At(Step, m, k), m.dump, h)
  {
    var d := seq(k + 2, (i: nat) => c(i));
    var m1, n, p, g := CallsChained(d, h, m);
  }

  // ---------------------------------------------------------------------------
  // What is no tail position
  // ---------------------------------------------------------------------------

  /** The last form of an `and` or `or`, if those before do not decide. */
  function LastOperand(fuel: nat, conj: bool, forms: Value, e: nat, s: Store): Eval<Tail> {
    if !forms.Pair? then Fault
    else if forms.cdr == Nil then Got(Tail(Config(forms.car, e, s), 0))
    else
      var first :- Evaluate(fuel, forms.car, e, s);
      if conj <==> first.v == False then Fault
      else WithPeak(LastOperand(fuel, conj, forms.cdr, e, first.s), 1 + first.frames)
  }

  /** The machine evaluates the last form of an `and` or `or` above a frame that is of no use any
      more: it is no tail position. */
  lemma {:induction false} AndOrTakesAFrame(fuel: nat, conj: bool, m: Machine<Store>, r: Tail, h: nat)
    returns (m1: Machine<Store>)
    requires AndOrEntry(m, conj) && LastOperand(fuel, conj, m.code, m.envir, m.store) == Got(r) && r.frames <= h
    ensures m1 == m || Reaches(Step, m, m1, h)
    ensures m1.dump == m.dump && Step(m1).Got? && Step(m1).value.Next?
    ensures var last := Step(m1).value.m;
            && Starts(last, r.next)
            && last.dump == m.dump + [Frame(if conj then AND1 else OR1, Nil, m.envir, Nil)]
    decreases m.code
  {
    AndOrStep(m, conj);
    m1 := m;
    if m.code.cdr != Nil {
      var t := Evaluate(fuel, m.code.car, m.envir, m.store).value;
      var fr := Frame(if conj then AND1 else OR1, Nil, m.envir, m.code.cdr);
      var m2 := ByEval(fuel, m, m.(op := EVAL, code := m.code.car, dump := m.dump + [fr]), fr, t, h);
      m1 := AndOrTakesAFrame(fuel, conj, m2, LastOperand(fuel, conj, m.code.cdr, m.envir, t.s).value, h);
      if m1 != m2 {
        Transitive(Step, m, m2, m1, h);
      }
    }
  }
}
