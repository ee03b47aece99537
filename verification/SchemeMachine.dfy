/** The register machine of `src/Scheme.cpp` for its core language.

  One step is one case of `opexe_0` or `opexe_1`.  Lists and code are trees, environments are
  frames in a store, named by their position.  A symbol is a syntactic keyword by its name.
 */
module SchemeMachine {
  import opened Registers

  /** `car` and `cdr` of the three constants are the constants; of other atoms they are garbage. */
  function Uncons(v: Value): (r: Eval<(Value, Value)>)
    ensures !r.Timeout?
  {
    match v
    case Pair(a, d) => Got((a, d))
    case Nil => Got((Nil, Nil))
    case True => Got((True, True))
    case False => Got((False, False))
    case _ => Fault
  }

  function CarOf(v: Value): (r: Eval<Value>)
    ensures !r.Timeout?
  {
    var (a, _) :- Uncons(v);
    Got(a)
  }

  function CdrOf(v: Value): (r: Eval<Value>)
    ensures !r.Timeout?
  {
    var (_, d) :- Uncons(v);
    Got(d)
  }

  function CadrOf(v: Value): (r: Eval<Value>)
    ensures !r.Timeout?
  {
    var d :- CdrOf(v);
    CarOf(d)
  }

  function CaarOf(v: Value): (r: Eval<Value>)
    ensures !r.Timeout?
  {
    var a :- CarOf(v);
    CarOf(a)
  }

  /** `cadar`: the expression of the first binding of a list of bindings. */
  function CadarOf(v: Value): (r: Eval<Value>)
    ensures !r.Timeout?
  {
    var a :- CarOf(v);
    CadrOf(a)
  }

  // ---------------------------------------------------------------------------
  // Environments
  // ---------------------------------------------------------------------------

  datatype EnvFrame = EnvFrame(slots: seq<(Value, Value)>, parent: nat)

  /** Environment 0 is the empty one; environment `e` is frame `e - 1` and its parents. */
  type Store = seq<EnvFrame>

  function NewFrame(s: Store, parent: nat): (Store, nat) {
    (s + [EnvFrame([], parent)], |s| + 1)
  }

  function NewSlot(s: Store, e: nat, name: Value, v: Value): (r: Store)
    ensures |r| == |s|
  {
    if 0 < e <= |s| then s[e - 1 := s[e - 1].(slots := [(name, v)] + s[e - 1].slots)] else s
  }

  function SlotIn(slots: seq<(Value, Value)>, name: Value): (i: nat)
    ensures i <= |slots|
  {
    if slots == [] || slots[0].0 == name then 0 else 1 + SlotIn(slots[1..], name)
  }

  /** `find_slot_in_env`: the frame and the slot that hold a name; frame 0 if there is none. */
  function FindSlot(s: Store, e: nat, name: Value, all: bool): (r: (nat, nat))
    ensures 0 < r.0 ==> r.0 <= |s| && r.1 < |s[r.0 - 1].slots|
    decreases e
  {
    if e == 0 || |s| < e then (0, 0)
    else
      var i := SlotIn(s[e - 1].slots, name);
      if i < |s[e - 1].slots| then (e, i)
      else if all && s[e - 1].parent < e then FindSlot(s, s[e - 1].parent, name, all)
      else (0, 0)
  }

  function SetSlot(s: Store, at: (nat, nat), v: Value): Store
    requires 0 < at.0 <= |s| && at.1 < |s[at.0 - 1].slots|
  {
    var fr := s[at.0 - 1];
    s[at.0 - 1 := fr.(slots := fr.slots[at.1 := (fr.slots[at.1].0, v)])]
  }

  /** The frame of a closure call: one slot for each parameter, and one for the rest if the
      parameter list ends in a symbol.  Surplus arguments are dropped. */
  function BindParams(s: Store, e: nat, params: Value, args: Value): (r: Eval<Store>)
    ensures !r.Timeout?
    ensures r.Got? ==> |r.value| == |s|
    decreases params
  {
    match params
    case Pair(name, rest) =>
      if args == Nil then Fault
      else
        var (a, d) :- Uncons(args);
        BindParams(NewSlot(s, e, name, a), e, rest, d)
    case Nil => Got(s)
    case Sym(_) => Got(NewSlot(s, e, params, args))
    case _ => Fault
  }

  /** The slots of `let` and `letrec`: as many as there are values. */
  function BindLet(s: Store, e: nat, binds: Value, vals: Value): (r: Eval<Store>)
    ensures !r.Timeout?
    decreases vals
  {
    if !vals.Pair? then Got(s)
    else
      var (binding, rest) :- Uncons(binds);
      var name :- CarOf(binding);
      BindLet(NewSlot(s, e, name, vals.car), e, rest, vals.cdr)
  }

  /** The parameter list of the closure of a named `let`. */
  function LetNames(binds: Value): (r: Eval<Value>)
    ensures !r.Timeout?
  {
    if binds == Nil then Got(Nil)
    else if !binds.Pair? then Fault
    else
      var name :- CarOf(binds.car);
      var rest :- LetNames(binds.cdr);
      Got(Pair(name, rest))
  }

  /** The numbers of a list, added to (`sign` 1) or taken from (`sign` -1) an accumulator. */
  function Folded(acc: int, sign: int, args: Value): (r: Eval<Value>)
    ensures !r.Timeout?
    decreases args
  {
    match args
    case Nil => Got(Num(acc))
    case Pair(Num(n), rest) => Folded(acc + sign * n, sign, rest)
    case _ => Fault
  }

  /** Whether `a` and the numbers of a list are all the same; the types are looked at first. */
  function AllEqual(a: int, args: Value): (r: Eval<Value>)
    ensures !r.Timeout?
    decreases args
  {
    match args
    case Nil => Got(True)
    case Pair(Num(b), rest) =>
      var others :- AllEqual(b, rest);
      Got(if a == b then others else False)
    case _ => Fault
  }

  function ApplyPrim(p: Prim, args: Value): (r: Eval<Value>)
    ensures !r.Timeout?
  {
    match (p, args)
    case (Cons, Pair(a, Pair(b, Nil))) => Got(Pair(a, b))
    case (Car, Pair(Pair(a, _), Nil)) => Got(a)
    case (Cdr, Pair(Pair(_, d), Nil)) => Got(d)
    case (IsNull, Pair(a, Nil)) => Got(if a == Nil then True else False)
    case (IsPair, Pair(a, Nil)) => Got(if a.Pair? then True else False)
    case (Not, Pair(a, Nil)) => Got(if a == False then True else False)
    case (Plus, _) => Folded(0, 1, args)
    case (Minus, Pair(Num(a), Nil)) => Got(Num(-a))
    case (Minus, Pair(Num(a), rest)) => Folded(a, -1, rest)
    case (NumEq, Pair(Num(a), Pair(b, rest))) => AllEqual(a, Pair(b, rest))
    case _ => Fault
  }

  // ---------------------------------------------------------------------------
  // The machine
  // ---------------------------------------------------------------------------

  predicate IsSyntax(v: Value) {
    v.Sym? && v.name in
      ["lambda", "quote", "define", "if", "begin", "set!", "let", "let*", "letrec", "cond", "and", "or"]
  }

  /** `syntaxnum`. */
  function SyntaxNum(v: Value): Op
    requires IsSyntax(v)
  {
    if v.name == "lambda" then LAMBDA
    else if v.name == "quote" then QUOTE
    else if v.name == "define" then DEF0
    else if v.name == "if" then IF0
    else if v.name == "begin" then BEGIN
    else if v.name == "set!" then SET0
    else if v.name == "let" then LET0
    else if v.name == "let*" then LET0AST
    else if v.name == "letrec" then LET0REC
    else if v.name == "cond" then COND0
    else if v.name == "and" then AND0
    else OR0
  }

  const QUOTE_SYM: Value := Sym("quote")
  const LAMBDA_SYM: Value := Sym("lambda")
  const FEED_TO: Value := Sym("=>")

  /** The call that a clause `(test => receiver)` stands for. */
  function Feed(receiver: Value, v: Value): Value {
    Pair(receiver, Pair(Pair(QUOTE_SYM, Pair(v, Nil)), Nil))
  }

  /** What `define` is about: the name, and the expression for its value. */
  function DefineParts(code: Value): (r: Eval<(Value, Value)>)
    ensures !r.Timeout?
  {
    var (head, rest) :- Uncons(code);
    if head.Pair? then
      if head.car.Sym? then Got((head.car, Pair(LAMBDA_SYM, Pair(head.cdr, rest)))) else Fault
    else
      var expr :- CarOf(rest);
      if head.Sym? then Got((head, expr)) else Fault
  }

  /** The bindings of a `let`, named or not. */
  function LetBindings(code: Value): (r: Eval<Value>)
    ensures !r.Timeout?
  {
    var (head, rest) :- Uncons(code);
    if head.Sym? then CarOf(rest) else Got(head)
  }

  /** The expression of the first binding; `let` insists that the binding is a pair. */
  function LetInit(binds: Value): (r: Eval<Value>)
    ensures !r.Timeout?
  {
    var b :- CarOf(binds);
    if b.Pair? then CadrOf(b) else Fault
  }

  /** The frame of a `let` filled in, and the body.  The closure of a named `let` lives in the
      same frame as the variables.  A named `let` without bindings is an error. */
  function EnterLet(s: Store, e: nat, code: Value, vals: Value): (r: Eval<(Store, Value)>)
    ensures !r.Timeout?
  {
    var (head, rest) :- Uncons(code);
    if head.Sym? then
      var (binds, body) :- Uncons(rest);
      var s1 :- BindLet(s, e, binds, vals);
      if !binds.Pair? then Fault
      else
        var names :- LetNames(binds);
        Got((NewSlot(s1, e, head, Closure(Pair(names, body), e)), body))
    else
      var s1 :- BindLet(s, e, head, vals);
      Got((s1, rest))
  }

  /** `OP_DEF1`: only the innermost frame is searched. */
  function Define(s: Store, e: nat, name: Value, v: Value): Store {
    var at := FindSlot(s, e, name, false);
    if at.0 > 0 then SetSlot(s, at, v) else NewSlot(s, e, name, v)
  }

  function Step(m: Machine<Store>): (r: Eval<Status<Store>>)
    ensures !r.Timeout?
  {
    match m.op
    case EVAL => StepEval(m)
    case E0ARGS =>
      var rest :- CdrOf(m.code);
      Got(Next(m.(op := E1ARGS, code := rest)))
    case E1ARGS => StepList(m)
    case LET1 => StepList(m)
    case LET1REC => StepList(m)
    case APPLY => StepApply(m)
    case PRIM(p) =>
      var v :- ApplyPrim(p, m.args);
      m.Return(v)
    case LAMBDA => m.Return(Closure(m.code, m.envir))
    case QUOTE =>
      var v :- CarOf(m.code);
      m.Return(v)
    case DEF0 =>
      var parts :- DefineParts(m.code);
      m.Save(DEF1, Nil, parts.0).Evaluate(parts.1)
    case DEF1 => m.(store := Define(m.store, m.envir, m.code, m.value)).Return(m.code)
    case SET0 =>
      var (name, rest) :- Uncons(m.code);
      var expr :- CarOf(rest);
      m.Save(SET1, Nil, name).Evaluate(expr)
    case SET1 =>
      var at := FindSlot(m.store, m.envir, m.code, true);
      if m.code.Sym? && at.0 > 0 then m.(store := SetSlot(m.store, at, m.value)).Return(m.value)
      else Fault
    case BEGIN => StepBegin(m)
    case IF0 =>
      var (test, rest) :- Uncons(m.code);
      m.Save(IF1, Nil, rest).Evaluate(test)
    case IF1 =>
      var branch :- (if m.value != False then CarOf(m.code) else CadrOf(m.code));
      m.Evaluate(branch)
    case LET0 => StepLet(m)
    case LET2 => StepLet(m)
    case LET0AST => StepLetStar(m)
    case LET1AST =>
      var (s, e) := NewFrame(m.store, m.envir);
      m.(store := s, envir := e).Goto(LET2AST)
    case LET2AST => StepLetStar(m)
    case LET0REC => StepLet(m)
    case LET2REC => StepLet(m)
    case COND0 => StepCond(m)
    case COND1 => StepCond(m)
    case AND0 => StepAndOr(m)
    case AND1 => StepAndOr(m)
    case OR0 => StepAndOr(m)
    case OR1 => StepAndOr(m)
    case _ => Fault
  }

  function StepEval(m: Machine<Store>): (r: Eval<Status<Store>>)
    ensures !r.Timeout?
  {
    match m.code
    case Sym(_) =>
      var at := FindSlot(m.store, m.envir, m.code, true);
      if at.0 > 0 then m.Return(m.store[at.0 - 1].slots[at.1].1) else Fault
    case Pair(head, rest) =>
      if IsSyntax(head) then m.(code := rest).Goto(SyntaxNum(head))
      else m.Save(E0ARGS, Nil, m.code).Evaluate(head)
    case _ => m.Return(m.code)
  }

  function StepApply(m: Machine<Store>): (r: Eval<Status<Store>>)
    ensures !r.Timeout?
  {
    match m.code
    case Proc(p) => m.Goto(PRIM(p))
    case Closure(code, env) =>
      var (s, e) := NewFrame(m.store, env);
      var (params, body) :- Uncons(code);
      var s1 :- BindParams(s, e, params, m.args);
      Got(Next(m.(op := BEGIN, args := Nil, envir := e, code := body, store := s1)))
    case _ => Fault
  }

  function StepBegin(m: Machine<Store>): (r: Eval<Status<Store>>)
    ensures !r.Timeout?
  {
    if !m.code.Pair? then m.Return(m.code)
    else if m.code.cdr != Nil then m.Save(BEGIN, Nil, m.code.cdr).Evaluate(m.code.car)
    else m.Evaluate(m.code.car)
  }

  /** The expression that a list opcode evaluates next, and where it goes at the end of the list. */
  function NextExpr(op: Op, code: Value): (r: Eval<Value>)
    ensures !r.Timeout?
  {
    match op
    case LET1 => LetInit(code)
    case LET1REC => CadarOf(code)
    case _ => CarOf(code)
  }

  function ListEnd(op: Op): Op {
    match op
    case LET1 => LET2
    case LET1REC => LET2REC
    case _ => APPLY
  }

  /** `OP_E1ARGS`, `OP_LET1`, `OP_LET1REC`: values pile up on `args`, last first, and are turned
      round at the end; the first of them goes to `code`. */
  function StepList(m: Machine<Store>): (r: Eval<Status<Store>>)
    ensures !r.Timeout?
  {
    var args := Pair(m.value, m.args);
    if m.code.Pair? then
      var expr :- NextExpr(m.op, m.code);
      m.Save(m.op, args, m.code.cdr).(args := Nil).Evaluate(expr)
    else
      var all := ReverseOnto(args, Nil);
      Got(Next(m.(op := ListEnd(m.op), code := all.car, args := all.cdr)))
  }

  function StepLet(m: Machine<Store>): (r: Eval<Status<Store>>)
    ensures !r.Timeout?
  {
    match m.op
    case LET0 =>
      var binds :- LetBindings(m.code);
      Got(Next(m.(op := LET1, args := Nil, value := m.code, code := binds)))
    case LET2 =>
      var (s, e) := NewFrame(m.store, m.envir);
      var entered :- EnterLet(s, e, m.code, m.args);
      Got(Next(m.(op := BEGIN, args := Nil, envir := e, code := entered.1, store := entered.0)))
    case LET0REC =>
      var (s, e) := NewFrame(m.store, m.envir);
      var binds :- CarOf(m.code);
      Got(Next(m.(op := LET1REC, args := Nil, envir := e, value := m.code, code := binds, store := s)))
    case _ =>
      var (binds, body) :- Uncons(m.code);
      var s :- BindLet(m.store, m.envir, binds, m.args);
      Got(Next(m.(op := BEGIN, args := Nil, code := body, store := s)))
  }

  function StepLetStar(m: Machine<Store>): (r: Eval<Status<Store>>)
    ensures !r.Timeout?
  {
    match m.op
    case LET0AST =>
      var (binds, body) :- Uncons(m.code);
      if binds == Nil then
        var (s, e) := NewFrame(m.store, m.envir);
        m.(store := s, envir := e, code := body).Goto(BEGIN)
      else if !binds.Pair? then Fault
      else
        var expr :- CadarOf(binds);
        m.Save(LET1AST, body, binds).Evaluate(expr)
    case _ =>
      var (binding, rest) :- Uncons(m.code);
      var name :- CarOf(binding);
      var s := NewSlot(m.store, m.envir, name, m.value);
      if rest.Pair? then
        var expr :- CadarOf(rest);
        m.(store := s).Save(LET2AST, m.args, rest).(args := Nil).Evaluate(expr)
      else Got(Next(m.(op := BEGIN, args := Nil, code := m.args, store := s)))
  }

  /** What is done when a test succeeds, except for an empty clause. */
  function ClauseNext(m: Machine<Store>, body: Value): (r: Eval<Status<Store>>)
    ensures !r.Timeout?
  {
    var (head, rest) :- Uncons(body);
    if head == FEED_TO then
      if !rest.Pair? then Fault
      else m.Evaluate(Feed(rest.car, m.value))
    else m.(code := body).Goto(BEGIN)
  }

  function StepCond(m: Machine<Store>): (r: Eval<Status<Store>>)
    ensures !r.Timeout?
  {
    match m.op
    case COND0 =>
      if !m.code.Pair? then Fault
      else
        var test :- CaarOf(m.code);
        m.Save(COND1, Nil, m.code).Evaluate(test)
    case _ =>
      if m.value != False then
        var clause :- CarOf(m.code);
        var body :- CdrOf(clause);
        if body == Nil then m.Return(m.value) else ClauseNext(m, body)
      else
        var rest :- CdrOf(m.code);
        if rest == Nil then m.Return(Nil)
        else
          var test :- CaarOf(rest);
          m.Save(COND1, Nil, rest).Evaluate(test)
  }

  function StepAndOr(m: Machine<Store>): (r: Eval<Status<Store>>)
    ensures !r.Timeout?
  {
    var first := m.op == AND0 || m.op == OR0;
    var conj := m.op == AND0 || m.op == AND1;
    if first && m.code == Nil then m.Return(if conj then True else False)
    else if !first && ((conj <==> m.value == False) || m.code == Nil) then m.Return(m.value)
    else
      var (expr, rest) :- Uncons(m.code);
      m.Save(if conj then AND1 else OR1, Nil, rest).Evaluate(expr)
  }
}
