/** The opcodes of `opexe_0` and `opexe_1`, one method for each or for a few that share their code. */
module SchemeInterpreter {
  import opened Registers
  import opened RegisterFile
  import opened SchemeMachine
  import opened MachineRuns

  /** `find_slot_in_env`: from the innermost frame outwards. */
  method FindSlotInEnv(sc: Scheme<Store>, name: Value, all: bool) returns (at: (nat, nat))
    ensures at == FindSlot(sc.store, sc.envir, name, all)
  {
    var e: nat := sc.envir;
    while 0 < e <= |sc.store|
      invariant FindSlot(sc.store, e, name, all) == FindSlot(sc.store, sc.envir, name, all)
      decreases e
    {
      var slots := sc.store[e - 1].slots;
      var i: nat := 0;
      while i < |slots| && slots[i].0 != name
        invariant i <= |slots| && SlotIn(slots, name) == i + SlotIn(slots[i..], name)
      {
        assert slots[i..][1..] == slots[i + 1..];
        i := i + 1;
      }
      if i < |slots| {
        return (e, i);
      }
      if !all || sc.store[e - 1].parent >= e {
        return (0, 0);
      }
      e := sc.store[e - 1].parent;
    }
    return (0, 0);
  }

  /** The slots of a closure's parameters. */
  method BindArguments(sc: Scheme<Store>, params: Value, arguments: Value) returns (ok: bool)
    modifies sc`store
    ensures ok == BindParams(old(sc.store), sc.envir, params, arguments).Got?
    ensures ok ==> Got(sc.store) == BindParams(old(sc.store), sc.envir, params, arguments)
  {
    var x, y := params, arguments;
    while x.Pair?
      invariant BindParams(sc.store, sc.envir, x, y) == BindParams(old(sc.store), sc.envir, params, arguments)
      decreases x
    {
      var parts := Uncons(y);
      if y == Nil || parts.Fault? {
        return false;
      }
      sc.store := NewSlot(sc.store, sc.envir, x.car, parts.value.0);
      x, y := x.cdr, parts.value.1;
    }
    if x.Sym? {
      sc.store := NewSlot(sc.store, sc.envir, x, y);
    }
    ok := x == Nil || x.Sym?;
  }

  method OpEval(sc: Scheme<Store>) returns (r: Outcome)
    modifies sc
    ensures Did(StepEval(old(sc.State())), r, sc.State())
  {
    if sc.code.Sym? {
      var at := FindSlotInEnv(sc, sc.code, true);
      if at.0 == 0 {
        return Failed;
      }
      r := sc.SReturn(sc.store[at.0 - 1].slots[at.1].1);
    } else if sc.code.Pair? {
      var head := sc.code.car;
      if IsSyntax(head) {
        sc.code := sc.code.cdr;
        r := sc.Goto(SyntaxNum(head));
      } else {
        r := sc.Evaluate(E0ARGS, Nil, sc.code, head);
      }
    } else {
      r := sc.SReturn(sc.code);
    }
  }

  method OpApply(sc: Scheme<Store>) returns (r: Outcome)
    modifies sc
    ensures Did(StepApply(old(sc.State())), r, sc.State())
  {
    if sc.code.Proc? {
      r := sc.Goto(PRIM(sc.code.p));
    } else if sc.code.Closure? {
      var (s, e) := NewFrame(sc.store, sc.code.env);
      var parts := Uncons(sc.code.code);
      if parts.Fault? {
        return Failed;
      }
      sc.store, sc.envir := s, e;
      var ok := BindArguments(sc, parts.value.0, sc.args);
      if !ok {
        return Failed;
      }
      sc.code, sc.args := parts.value.1, Nil;
      r := sc.Goto(BEGIN);
    } else {
      r := Failed;
    }
  }

  method OpBegin(sc: Scheme<Store>) returns (r: Outcome)
    modifies sc
    ensures Did(StepBegin(old(sc.State())), r, sc.State())
  {
    if !sc.code.Pair? {
      r := sc.SReturn(sc.code);
    } else if sc.code.cdr != Nil {
      r := sc.Evaluate(BEGIN, Nil, sc.code.cdr, sc.code.car);
    } else {
      sc.code := sc.code.car;
      r := sc.Goto(EVAL);
    }
  }

  /** `OP_E1ARGS`, `OP_LET1` and `OP_LET1REC`. */
  method OpList(sc: Scheme<Store>) returns (r: Outcome)
    modifies sc
    ensures Did(StepList(old(sc.State())), r, sc.State())
  {
    sc.args := Pair(sc.value, sc.args);
    if sc.code.Pair? {
      var expr := NextExpr(sc.op, sc.code);
      if expr.Fault? {
        return Failed;
      }
      r := sc.Evaluate(sc.op, sc.args, sc.code.cdr, expr.value);
      sc.args := Nil;
    } else {
      var all := ReverseOnto(sc.args, Nil);
      sc.code, sc.args := all.car, all.cdr;
      r := sc.Goto(ListEnd(sc.op));
    }
  }

  method OpCond(sc: Scheme<Store>) returns (r: Outcome)
    requires sc.op == COND0 || sc.op == COND1
    modifies sc
    ensures Did(StepCond(old(sc.State())), r, sc.State())
  {
    if sc.op == COND0 {
      if !sc.code.Pair? {
        return Failed;
      }
      r := NextClause(sc, sc.code);
    } else if sc.value != False {
      r := EnterClause(sc);
    } else {
      var rest := CdrOf(sc.code);
      if rest.Fault? {
        return Failed;
      }
      if rest.value == Nil {
        r := sc.SReturn(Nil);
      } else {
        r := NextClause(sc, rest.value);
      }
    }
  }

  method NextClause(sc: Scheme<Store>, clauses: Value) returns (r: Outcome)
    modifies sc`op, sc`code, sc`dump
    ensures CaarOf(clauses).Fault? ==> r == Failed
    ensures CaarOf(clauses).Got? ==>
      Did(old(sc.State()).Save(COND1, Nil, clauses).Evaluate(CaarOf(clauses).value), r, sc.State())
  {
    var test := CaarOf(clauses);
    if test.Fault? {
      return Failed;
    }
    r := sc.Evaluate(COND1, Nil, clauses, test.value);
  }

  method EnterClause(sc: Scheme<Store>) returns (r: Outcome)
    requires sc.op == COND1 && sc.value != False
    modifies sc
    ensures Did(StepCond(old(sc.State())), r, sc.State())
  {
    var clause := CarOf(sc.code);
    if clause.Fault? || CdrOf(clause.value).Fault? {
      return Failed;
    }
    var body := CdrOf(clause.value).value;
    if body == Nil {
      r := sc.SReturn(sc.value);
    } else {
      var parts := Uncons(body);
      if parts.Fault? || (parts.value.0 == FEED_TO && !parts.value.1.Pair?) {
        return Failed;
      }
      if parts.value.0 == FEED_TO {
        sc.code := Feed(parts.value.1.car, sc.value);
        r := sc.Goto(EVAL);
      } else {
        sc.code := body;
        r := sc.Goto(BEGIN);
      }
    }
  }

  method OpAndOr(sc: Scheme<Store>) returns (r: Outcome)
    requires sc.op == AND0 || sc.op == AND1 || sc.op == OR0 || sc.op == OR1
    modifies sc
    ensures Did(StepAndOr(old(sc.State())), r, sc.State())
  {
    var first := sc.op == AND0 || sc.op == OR0;
    var conj := sc.op == AND0 || sc.op == AND1;
    if first && sc.code == Nil {
      r := sc.SReturn(if conj then True else False);
    } else if !first && ((conj <==> sc.value == False) || sc.code == Nil) {
      r := sc.SReturn(sc.value);
    } else {
      var parts := Uncons(sc.code);
      if parts.Fault? {
        return Failed;
      }
      r := sc.Evaluate(if conj then AND1 else OR1, Nil, parts.value.1, parts.value.0);
    }
  }

  method OpLetStar(sc: Scheme<Store>) returns (r: Outcome)
    requires sc.op == LET0AST || sc.op == LET2AST
    modifies sc
    ensures Did(StepLetStar(old(sc.State())), r, sc.State())
  {
    var parts := Uncons(sc.code);
    if parts.Fault? {
      return Failed;
    }
    if sc.op == LET0AST {
      var (binds, body) := parts.value;
      if binds == Nil {
        sc.store, sc.envir := NewFrame(sc.store, sc.envir).0, NewFrame(sc.store, sc.envir).1;
        sc.code := body;
        r := sc.Goto(BEGIN);
      } else if !binds.Pair? || CadarOf(binds).Fault? {
        r := Failed;
      } else {
        r := sc.Evaluate(LET1AST, body, binds, CadarOf(binds).value);
      }
    } else {
      r := BindAndGoOn(sc, parts.value.0, parts.value.1);
    }
  }

  method BindAndGoOn(sc: Scheme<Store>, binding: Value, rest: Value) returns (r: Outcome)
    requires sc.op == LET2AST && Uncons(sc.code) == Got((binding, rest))
    modifies sc
    ensures Did(StepLetStar(old(sc.State())), r, sc.State())
  {
    var name := CarOf(binding);
    if name.Fault? {
      return Failed;
    }
    sc.store := NewSlot(sc.store, sc.envir, name.value, sc.value);
    if !rest.Pair? {
      sc.code, sc.args := sc.args, Nil;
      r := sc.Goto(BEGIN);
    } else if CadarOf(rest).Fault? {
      r := Failed;
    } else {
      r := sc.Evaluate(LET2AST, sc.args, rest, CadarOf(rest).value);
      sc.args := Nil;
    }
  }

  /** The slots of a `let` or `letrec`, in frame `e`. */
  method BindVariables(sc: Scheme<Store>, e: nat, binds: Value, vals: Value) returns (ok: bool)
    modifies sc`store
    ensures ok == BindLet(old(sc.store), e, binds, vals).Got?
    ensures ok ==> Got(sc.store) == BindLet(old(sc.store), e, binds, vals)
  {
    var x, y := binds, vals;
    while y.Pair?
      invariant BindLet(sc.store, e, x, y) == BindLet(old(sc.store), e, binds, vals)
      decreases y
    {
      var parts := Uncons(x);
      if parts.Fault? || CarOf(parts.value.0).Fault? {
        return false;
      }
      sc.store := NewSlot(sc.store, e, CarOf(parts.value.0).value, y.car);
      x, y := parts.value.1, y.cdr;
    }
    ok := true;
  }

  /** `OP_LET2`: the variables, and the closure of a named `let`. */
  method EnterLetBody(sc: Scheme<Store>, e: nat) returns (ok: bool)
    modifies sc`store, sc`code
    ensures ok == EnterLet(old(sc.store), e, old(sc.code), sc.args).Got?
    ensures ok ==> Got((sc.store, sc.code)) == EnterLet(old(sc.store), e, old(sc.code), sc.args)
  {
    var parts := Uncons(sc.code);
    if parts.Fault? {
      return false;
    }
    var (head, rest) := parts.value;
    if !head.Sym? {
      ok := BindVariables(sc, e, head, sc.args);
      sc.code := rest;
    } else {
      var inner := Uncons(rest);
      if inner.Fault? {
        return false;
      }
      var (binds, body) := inner.value;
      ok := BindVariables(sc, e, binds, sc.args);
      if !ok || !binds.Pair? || LetNames(binds).Fault? {
        return false;
      }
      sc.store := NewSlot(sc.store, e, head, Closure(Pair(LetNames(binds).value, body), e));
      sc.code := body;
    }
  }

  method OpLet(sc: Scheme<Store>) returns (r: Outcome)
    requires sc.op == LET0 || sc.op == LET2
    modifies sc
    ensures Did(StepLet(old(sc.State())), r, sc.State())
  {
    if sc.op == LET0 {
      var binds := LetBindings(sc.code);
      if binds.Fault? {
        return Failed;
      }
      sc.value, sc.code, sc.args := sc.code, binds.value, Nil;
      r := sc.Goto(LET1);
    } else {
      var (s, e) := NewFrame(sc.store, sc.envir);
      sc.store, sc.envir := s, e;
      var ok := EnterLetBody(sc, e);
      if !ok {
        return Failed;
      }
      sc.args := Nil;
      r := sc.Goto(BEGIN);
    }
  }

  method OpLetrec(sc: Scheme<Store>) returns (r: Outcome)
    requires sc.op == LET0REC || sc.op == LET2REC
    modifies sc
    ensures Did(StepLet(old(sc.State())), r, sc.State())
  {
    var parts := Uncons(sc.code);
    if parts.Fault? {
      return Failed;
    }
    if sc.op == LET0REC {
      sc.store, sc.envir := NewFrame(sc.store, sc.envir).0, NewFrame(sc.store, sc.envir).1;
      sc.value, sc.code, sc.args := sc.code, parts.value.0, Nil;
      r := sc.Goto(LET1REC);
    } else {
      var ok := BindVariables(sc, sc.envir, parts.value.0, sc.args);
      if !ok {
        return Failed;
      }
      sc.code, sc.args := parts.value.1, Nil;
      r := sc.Goto(BEGIN);
    }
  }

  /** `OP_DEF0`, `OP_DEF1`, `OP_SET0` and `OP_SET1`. */
  method OpDefineSet(sc: Scheme<Store>) returns (r: Outcome)
    requires sc.op == DEF0 || sc.op == DEF1 || sc.op == SET0 || sc.op == SET1
    modifies sc
    ensures Did(Step(old(sc.State())), r, sc.State())
  {
    if sc.op == DEF0 {
      var parts := DefineParts(sc.code);
      if parts.Fault? {
        return Failed;
      }
      r := sc.Evaluate(DEF1, Nil, parts.value.0, parts.value.1);
    } else if sc.op == SET0 {
      var parts := Uncons(sc.code);
      if parts.Fault? || CarOf(parts.value.1).Fault? {
        return Failed;
      }
      r := sc.Evaluate(SET1, Nil, parts.value.0, CarOf(parts.value.1).value);
    } else {
      var at := FindSlotInEnv(sc, sc.code, sc.op == SET1);
      if sc.op == DEF1 {
        sc.store := if at.0 > 0 then SetSlot(sc.store, at, sc.value)
                    else NewSlot(sc.store, sc.envir, sc.code, sc.value);
        r := sc.SReturn(sc.code);
      } else if sc.code.Sym? && at.0 > 0 {
        sc.store := SetSlot(sc.store, at, sc.value);
        r := sc.SReturn(sc.value);
      } else {
        r := Failed;
      }
    }
  }

  method OpIf(sc: Scheme<Store>) returns (r: Outcome)
    requires sc.op == IF0 || sc.op == IF1
    modifies sc
    ensures Did(Step(old(sc.State())), r, sc.State())
  {
    if sc.op == IF0 {
      var parts := Uncons(sc.code);
      if parts.Fault? {
        return Failed;
      }
      r := sc.Evaluate(IF1, Nil, parts.value.1, parts.value.0);
    } else {
      var branch := if sc.value != False then CarOf(sc.code) else CadrOf(sc.code);
      if branch.Fault? {
        return Failed;
      }
      sc.code := branch.value;
      r := sc.Goto(EVAL);
    }
  }

  /** The opcodes that only take something apart, make a closure or a frame, or call a primitive. */
  method OpSimple(sc: Scheme<Store>) returns (r: Outcome)
    requires sc.op == E0ARGS || sc.op.PRIM? || sc.op == LAMBDA || sc.op == QUOTE || sc.op == LET1AST
    modifies sc
    ensures Did(Step(old(sc.State())), r, sc.State())
  {
    if sc.op == LET1AST {
      sc.store, sc.envir := NewFrame(sc.store, sc.envir).0, NewFrame(sc.store, sc.envir).1;
      r := sc.Goto(LET2AST);
    } else if sc.op == LAMBDA {
      r := sc.SReturn(Closure(sc.code, sc.envir));
    } else if sc.op == E0ARGS {
      var rest := CdrOf(sc.code);
      if rest.Fault? {
        return Failed;
      }
      sc.code := rest.value;
      r := sc.Goto(E1ARGS);
    } else {
      var v := if sc.op == QUOTE then CarOf(sc.code) else ApplyPrim(sc.op.p, sc.args);
      if v.Fault? {
        return Failed;
      }
      r := sc.SReturn(v.value);
    }
  }

  /** One opcode, through the dispatch table. */
  method Execute(sc: Scheme<Store>) returns (r: Outcome)
    modifies sc
    ensures Did(Step(old(sc.State())), r, sc.State())
  {
    match sc.op
    case EVAL => r := OpEval(sc);
    case E1ARGS => r := OpList(sc);
    case LET1 => r := OpList(sc);
    case LET1REC => r := OpList(sc);
    case APPLY => r := OpApply(sc);
    case DEF0 => r := OpDefineSet(sc);
    case DEF1 => r := OpDefineSet(sc);
    case SET0 => r := OpDefineSet(sc);
    case SET1 => r := OpDefineSet(sc);
    case BEGIN => r := OpBegin(sc);
    case IF0 => r := OpIf(sc);
    case IF1 => r := OpIf(sc);
    case LET0 => r := OpLet(sc);
    case LET2 => r := OpLet(sc);
    case LET0AST => r := OpLetStar(sc);
    case LET2AST => r := OpLetStar(sc);
    case LET0REC => r := OpLetrec(sc);
    case LET2REC => r := OpLetrec(sc);
    case COND0 => r := OpCond(sc);
    case COND1 => r := OpCond(sc);
    case AND0 => r := OpAndOr(sc);
    case AND1 => r := OpAndOr(sc);
    case OR0 => r := OpAndOr(sc);
    case OR1 => r := OpAndOr(sc);
    case E0ARGS => r := OpSimple(sc);
    case PRIM(_) => r := OpSimple(sc);
    case LAMBDA => r := OpSimple(sc);
    case QUOTE => r := OpSimple(sc);
    case LET1AST => r := OpSimple(sc);
    case _ => r := Failed;
  }
}
