/** The core language by recursion on its expressions, with no dump and no registers.

  `fuel` bounds the depth of the recursion.  A result carries the number of dump frames that
  computing it takes: a frame is counted where something is left to do after a part has been
  evaluated, and the last form of a body, of a branch or of a clause adds none.
 */
module SchemeEvaluator {
  import opened Registers
  import opened SchemeMachine

  function Evaluate(fuel: nat, c: Value, e: nat, s: Store): Eval<Out<Store>>
    decreases fuel, 0
  {
    if fuel == 0 then Timeout
    else
      match c
      case Sym(_) =>
        var at := FindSlot(s, e, c, true);
        if at.0 > 0 then Got(Out(s[at.0 - 1].slots[at.1].1, s, 0)) else Fault
      case Pair(head, rest) =>
        if IsSyntax(head) then Special(fuel - 1, SyntaxNum(head), rest, e, s)
        else
          var operator :- Evaluate(fuel - 1, head, e, s);
          var args :- EvaluateList(fuel - 1, E1ARGS, rest, e, operator.s);
          var r :- Apply(fuel - 1, operator.v, args.v, args.s);
          Got(Out(r.v, r.s, Max(1 + operator.frames, Max(args.frames, r.frames))))
      case _ => Got(Out(c, s, 0))
  }

  /** The values of a list of operands or of the bindings of a `let` or `letrec`, in order. */
  function EvaluateList(fuel: nat, kind: Op, codes: Value, e: nat, s: Store): Eval<Out<Store>>
    decreases fuel, 0
  {
    if fuel == 0 then Timeout
    else if !codes.Pair? then Got(Out(Nil, s, 0))
    else
      var expr :- NextExpr(kind, codes);
      var first :- Evaluate(fuel - 1, expr, e, s);
      var rest :- EvaluateList(fuel - 1, kind, codes.cdr, e, first.s);
      Got(Out(Pair(first.v, rest.v), rest.s, Max(1 + first.frames, rest.frames)))
  }

  function Apply(fuel: nat, operator: Value, args: Value, s: Store): Eval<Out<Store>>
    decreases fuel, 0
  {
    if fuel == 0 then Timeout
    else
      match operator
      case Proc(p) =>
        var v :- ApplyPrim(p, args);
        Got(Out(v, s, 0))
      case Closure(code, env) =>
        var (s1, e) := NewFrame(s, env);
        var (params, body) :- Uncons(code);
        var s2 :- BindParams(s1, e, params, args);
        Begin(fuel - 1, body, e, s2)
      case _ => Fault
  }

  function Begin(fuel: nat, body: Value, e: nat, s: Store): Eval<Out<Store>>
    decreases fuel, 0
  {
    if fuel == 0 then Timeout
    else if !body.Pair? then Got(Out(body, s, 0))
    else if body.cdr == Nil then Evaluate(fuel - 1, body.car, e, s)
    else
      var first :- Evaluate(fuel - 1, body.car, e, s);
      var rest :- Begin(fuel - 1, body.cdr, e, first.s);
      Got(Out(rest.v, rest.s, Max(1 + first.frames, rest.frames)))
  }

  function If(fuel: nat, code: Value, e: nat, s: Store): Eval<Out<Store>>
    decreases fuel, 0
  {
    if fuel == 0 then Timeout
    else
      var (test, rest) :- Uncons(code);
      var t :- Evaluate(fuel - 1, test, e, s);
      var branch :- (if t.v != False then CarOf(rest) else CadrOf(rest));
      var r :- Evaluate(fuel - 1, branch, e, t.s);
      Got(Out(r.v, r.s, Max(1 + t.frames, r.frames)))
  }

  function DefineForm(fuel: nat, code: Value, e: nat, s: Store): Eval<Out<Store>>
    decreases fuel, 0
  {
    if fuel == 0 then Timeout
    else
      var (name, expr) :- DefineParts(code);
      var r :- Evaluate(fuel - 1, expr, e, s);
      Got(Out(name, Define(r.s, e, name, r.v), 1 + r.frames))
  }

  function SetForm(fuel: nat, code: Value, e: nat, s: Store): Eval<Out<Store>>
    decreases fuel, 0
  {
    if fuel == 0 then Timeout
    else
      var (name, rest) :- Uncons(code);
      var expr :- CarOf(rest);
      var r :- Evaluate(fuel - 1, expr, e, s);
      var at := FindSlot(r.s, e, name, true);
      if name.Sym? && at.0 > 0 then Got(Out(r.v, SetSlot(r.s, at, r.v), 1 + r.frames)) else Fault
  }

  function LetForm(fuel: nat, code: Value, e: nat, s: Store): Eval<Out<Store>>
    decreases fuel, 0
  {
    if fuel == 0 then Timeout
    else
      var binds :- LetBindings(code);
      var vals :- EvaluateList(fuel - 1, LET1, binds, e, s);
      var (s1, e1) := NewFrame(vals.s, e);
      var (s2, body) :- EnterLet(s1, e1, code, vals.v);
      var r :- Begin(fuel - 1, body, e1, s2);
      Got(Out(r.v, r.s, Max(vals.frames, r.frames)))
  }

  /** `let*`: the first binding is evaluated outside, the others in one frame that they share. */
  function LetStarForm(fuel: nat, code: Value, e: nat, s: Store): Eval<Out<Store>>
    decreases fuel, 0
  {
    if fuel == 0 then Timeout
    else
      var (binds, body) :- Uncons(code);
      if binds == Nil then
        var (s1, e1) := NewFrame(s, e);
        Begin(fuel - 1, body, e1, s1)
      else if !binds.Pair? then Fault
      else
        var expr :- CadarOf(binds);
        var first :- Evaluate(fuel - 1, expr, e, s);
        var (s1, e1) := NewFrame(first.s, e);
        var r :- LetStarRest(fuel - 1, binds, first.v, body, e1, s1);
        Got(Out(r.v, r.s, Max(1 + first.frames, r.frames)))
  }

  function LetStarRest(fuel: nat, binds: Value, v: Value, body: Value, e: nat, s: Store): Eval<Out<Store>>
    decreases fuel, 0
  {
    if fuel == 0 then Timeout
    else
      var (binding, rest) :- Uncons(binds);
      var name :- CarOf(binding);
      var s1 := NewSlot(s, e, name, v);
      if rest.Pair? then
        var expr :- CadarOf(rest);
        var next :- Evaluate(fuel - 1, expr, e, s1);
        var r :- LetStarRest(fuel - 1, rest, next.v, body, e, next.s);
        Got(Out(r.v, r.s, Max(1 + next.frames, r.frames)))
      else Begin(fuel - 1, body, e, s1)
  }

  function LetrecForm(fuel: nat, code: Value, e: nat, s: Store): Eval<Out<Store>>
    decreases fuel, 0
  {
    if fuel == 0 then Timeout
    else
      var (s1, e1) := NewFrame(s, e);
      var (binds, body) :- Uncons(code);
      var vals :- EvaluateList(fuel - 1, LET1REC, binds, e1, s1);
      var s2 :- BindLet(vals.s, e1, binds, vals.v);
      var r :- Begin(fuel - 1, body, e1, s2);
      Got(Out(r.v, r.s, Max(vals.frames, r.frames)))
  }

  function Cond(fuel: nat, clauses: Value, e: nat, s: Store): Eval<Out<Store>>
    decreases fuel, 0
  {
    if fuel == 0 then Timeout
    else
      var (clause, others) :- Uncons(clauses);
      var (test, body) :- Uncons(clause);
      var t :- Evaluate(fuel - 1, test, e, s);
      if t.v == False then
        if others == Nil then Got(Out(Nil, t.s, 1 + t.frames))
        else
          var r :- Cond(fuel - 1, others, e, t.s);
          Got(Out(r.v, r.s, Max(1 + t.frames, r.frames)))
      else if body == Nil then Got(Out(t.v, t.s, 1 + t.frames))
      else
        var (head, rest) :- Uncons(body);
        if head == FEED_TO && !rest.Pair? then Fault
        else
          var r :- (if head == FEED_TO
                    then Evaluate(fuel - 1, Feed(rest.car, t.v), e, t.s)
                    else Begin(fuel - 1, body, e, t.s));
          Got(Out(r.v, r.s, Max(1 + t.frames, r.frames)))
  }

  /** `and` and `or`; the last form is not in tail position. */
  function AndOr(fuel: nat, conj: bool, forms: Value, e: nat, s: Store): Eval<Out<Store>>
    decreases fuel, 0
  {
    if fuel == 0 then Timeout
    else
      var (expr, rest) :- Uncons(forms);
      var first :- Evaluate(fuel - 1, expr, e, s);
      if (conj <==> first.v == False) || rest == Nil then Got(Out(first.v, first.s, 1 + first.frames))
      else
        var r :- AndOr(fuel - 1, conj, rest, e, first.s);
        Got(Out(r.v, r.s, Max(1 + first.frames, r.frames)))
  }

  function Special(fuel: nat, op: Op, code: Value, e: nat, s: Store): Eval<Out<Store>>
    decreases fuel, 1
  {
    match op
    case QUOTE =>
      if fuel == 0 then Timeout
      else
        var v :- CarOf(code);
        Got(Out(v, s, 0))
    case LAMBDA => if fuel == 0 then Timeout else Got(Out(Closure(code, e), s, 0))
    case DEF0 => DefineForm(fuel, code, e, s)
    case SET0 => SetForm(fuel, code, e, s)
    case BEGIN => Begin(fuel, code, e, s)
    case IF0 => If(fuel, code, e, s)
    case LET0 => LetForm(fuel, code, e, s)
    case LET0AST => LetStarForm(fuel, code, e, s)
    case LET0REC => LetrecForm(fuel, code, e, s)
    case COND0 => if fuel == 0 then Timeout else if !code.Pair? then Fault else Cond(fuel, code, e, s)
    case _ =>
      if fuel == 0 then Timeout
      else if code == Nil then Got(Out(if op == AND0 then True else False, s, 0))
      else AndOr(fuel, op == AND0, code, e, s)
  }
}
