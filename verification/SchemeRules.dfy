/** What the forms of the language mean, as rules over expressions, values and frames.

  A rule speaks of names, expressions and values in sequences, and of what a name stands for in an
  environment; nothing in it mentions how the machine or the evaluator takes a form apart.  Every rule
  is proved of the evaluator, and `YieldsIffReturns` carries it over to the machine.
 */
module SchemeRules {
  import opened Registers
  import opened SchemeMachine
  import opened SchemeEvaluator
  import opened MachineRuns
  import opened Adequacy
  import opened SchemeCorrectness
  import opened SchemeTheorems
  import opened SchemeFrames

  /** The expression evaluates to the value, and the store changes from `s` to `s1`. */
  ghost predicate Yields(c: Value, e: nat, s: Store, v: Value, s1: Store) {
    exists fuel: nat, h: nat :: Evaluate(fuel, c, e, s) == Got(Out(v, s1, h))
  }

  ghost predicate Errs(c: Value, e: nat, s: Store) {
    exists fuel: nat :: Evaluate(fuel, c, e, s) == Fault
  }

  /** The machine at `OP_EVAL` returns this value and store to the dump it began with. */
  ghost predicate ReturnsWith(m: Machine<Store>, v: Value, s: Store) {
    exists o: Out<Store> :: Returns(Step, m, o) && o.v == v && o.s == s
  }

  lemma YieldsIffReturns(m: Machine<Store>, v: Value, s: Store)
    requires m.op == EVAL
    ensures Yields(m.code, m.envir, m.store, v, s) <==> ReturnsWith(m, v, s)
  {
    if Yields(m.code, m.envir, m.store, v, s) {
      var fuel: nat, h: nat :| Evaluate(fuel, m.code, m.envir, m.store) == Got(Out(v, s, h));
      assert Evaluated(m, fuel) == Got(Out(v, s, h));
      ReturnsIffEvaluates(m, Out(v, s, h));
    }
    if ReturnsWith(m, v, s) {
      var o: Out<Store> :| Returns(Step, m, o) && o.v == v && o.s == s;
      ReturnsIffEvaluates(m, o);
      var fuel: nat :| Evaluated(m, fuel) == Got(o);
      assert Evaluate(fuel, m.code, m.envir, m.store) == Got(Out(v, s, o.frames));
    }
  }

  /** An expression has one value at most. */
  lemma YieldsOnce(c: Value, e: nat, s: Store, v: Value, s1: Store, w: Value, s2: Store)
    requires Yields(c, e, s, v, s1) && Yields(c, e, s, w, s2)
    ensures v == w && s1 == s2
  {
    var f: nat, h: nat :| Evaluate(f, c, e, s) == Got(Out(v, s1, h));
    var g: nat, k: nat :| Evaluate(g, c, e, s) == Got(Out(w, s2, k));
    MoreFuelSameAnswer(c, e, s, f, g);
  }

  /** From some amount of fuel on the answer stays. */
  lemma Enough(c: Value, e: nat, s: Store, v: Value, s1: Store) returns (k: nat, h: nat)
    requires Yields(c, e, s, v, s1)
    ensures forall b: nat | b >= k :: Evaluate(b, c, e, s) == Got(Out(v, s1, h))
  {
    var fuel: nat, h0: nat :| Evaluate(fuel, c, e, s) == Got(Out(v, s1, h0));
    h := h0;
    var m := Machine(EVAL, Nil, e, c, Nil, [], s);
    var p;
    k, p := EvaluateAgrees(fuel, m);
    assert After(Step, m, k) == Got(Stop(v, s1));
    forall b: nat | b >= k ensures Evaluate(b, c, e, s) == Got(Out(v, s1, h)) {
      MoreFuelSameAnswer(c, e, s, fuel, b);
      if Evaluate(b, c, e, s) == Timeout {
        StillGoes(m, b, k);
      }
    }
  }

  lemma StillGoes(m: Machine<Store>, b: nat, k: nat)
    requires m.op == EVAL && Evaluated(m, b) == Timeout && k <= b
    ensures Going(Step, m, k)
  {
    var j, p := EvaluateAgrees(b, m);
  }

  // ---------------------------------------------------------------------------
  // Lists of expressions
  // ---------------------------------------------------------------------------

  /** Expressions evaluated one after the other, each in the store that the one before it left. */
  ghost predicate YieldAll(cs: seq<Value>, e: nat, s: Store, vs: seq<Value>, s1: Store)
    decreases |cs|
  {
    && |vs| == |cs|
    && if cs == [] then s1 == s
       else exists mid :: Yields(cs[0], e, s, vs[0], mid) && YieldAll(cs[1..], e, mid, vs[1..], s1)
  }

  /** A body: all its forms in order, and the value of the last. */
  ghost predicate YieldLast(cs: seq<Value>, e: nat, s: Store, v: Value, s1: Store)
    decreases |cs|
  {
    && cs != []
    && if |cs| == 1 then Yields(cs[0], e, s, v, s1)
       else exists w, mid :: Yields(cs[0], e, s, w, mid) && YieldLast(cs[1..], e, mid, v, s1)
  }

  /** The expressions that a list opcode comes to in this code. */
  predicate Exprs(kind: Op, codes: Value, cs: seq<Value>)
    decreases |cs|
  {
    if cs == [] then !codes.Pair?
    else codes.Pair? && NextExpr(kind, codes) == Got(cs[0]) && Exprs(kind, codes.cdr, cs[1..])
  }

  lemma {:induction false} ListEnough(kind: Op, codes: Value, cs: seq<Value>, e: nat, s: Store,
                                      vs: seq<Value>, s1: Store)
    returns (k: nat, h: nat)
    requires Exprs(kind, codes, cs) && YieldAll(cs, e, s, vs, s1)
    ensures forall b: nat | b >= k :: EvaluateList(b, kind, codes, e, s) == Got(Out(ListOf(vs, Nil), s1, h))
    decreases |cs|
  {
    k, h := 1, 0;
    if cs != [] {
      var mid :| Yields(cs[0], e, s, vs[0], mid) && YieldAll(cs[1..], e, mid, vs[1..], s1);
      var k1, h1 := Enough(cs[0], e, s, vs[0], mid);
      var k2, h2 := ListEnough(kind, codes.cdr, cs[1..], e, mid, vs[1..], s1);
      k, h := k1 + k2 + 1, Max(1 + h1, h2);
    }
  }

  lemma {:induction false} BodyEnough(cs: seq<Value>, e: nat, s: Store, v: Value, s1: Store)
    returns (k: nat, h: nat)
    requires YieldLast(cs, e, s, v, s1)
    ensures forall b: nat | b >= k :: Begin(b, ListOf(cs, Nil), e, s) == Got(Out(v, s1, h))
    decreases |cs|
  {
    if |cs| == 1 {
      k, h := Enough(cs[0], e, s, v, s1);
      assert ListOf(cs, Nil) == Pair(cs[0], Nil);
    } else {
      var w, mid :| Yields(cs[0], e, s, w, mid) && YieldLast(cs[1..], e, mid, v, s1);
      var k1, h1 := Enough(cs[0], e, s, w, mid);
      var k2, h2 := BodyEnough(cs[1..], e, mid, v, s1);
      assert ListOf(cs[1..], Nil).Pair?;
      k, h := Max(k1, k2), Max(1 + h1, h2);
    }
    k := k + 1;
  }

  // ---------------------------------------------------------------------------
  // Constants, variables and syntactic forms
  // ---------------------------------------------------------------------------

  /** A form that begins with a keyword. */
  function Form(keyword: string, parts: seq<Value>): Value {
    Pair(Sym(keyword), ListOf(parts, Nil))
  }

  lemma ConstantRule(c: Value, e: nat, s: Store)
    requires !c.Sym? && !c.Pair?
    ensures Yields(c, e, s, c, s)
  {
    assert Evaluate(1, c, e, s) == Got(Out(c, s, 0));
  }

  lemma VariableRule(name: string, e: nat, s: Store, v: Value)
    requires Bound(s, e, Sym(name), v)
    ensures Yields(Sym(name), e, s, v, s)
  {
    BoundIsFound(s, e, Sym(name), v);
    assert Evaluate(1, Sym(name), e, s) == Got(Out(v, s, 0));
  }

  lemma UnboundRule(name: string, e: nat, s: Store)
    requires forall f: nat :: !FoundIn(s, e, Sym(name), f)
    ensures Errs(Sym(name), e, s)
  {
    FindsFirst(s, e, Sym(name));
    assert Evaluate(1, Sym(name), e, s) == Fault;
  }

  lemma KeywordForm(b: nat, keyword: string, op: Op, rest: Value, e: nat, s: Store)
    requires IsSyntax(Sym(keyword)) && SyntaxNum(Sym(keyword)) == op
    ensures Evaluate(b + 1, Pair(Sym(keyword), rest), e, s) == Special(b, op, rest, e, s)
  {
  }

  lemma QuoteRule(v: Value, e: nat, s: Store)
    ensures Yields(Form("quote", [v]), e, s, v, s)
  {
    assert IsSyntax(Sym("quote"));
    KeywordForm(1, "quote", QUOTE, ListOf([v], Nil), e, s);
    assert Evaluate(2, Form("quote", [v]), e, s) == Got(Out(v, s, 0));
  }

  /** The value of a `lambda` form is a closure of its parameters and body in this environment. */
  lemma LambdaRule(params: Value, body: Value, e: nat, s: Store)
    ensures Yields(Pair(Sym("lambda"), Pair(params, body)), e, s, Closure(Pair(params, body), e), s)
  {
    assert IsSyntax(Sym("lambda"));
    KeywordForm(1, "lambda", LAMBDA, Pair(params, body), e, s);
    assert Evaluate(2, Pair(Sym("lambda"), Pair(params, body)), e, s) == Got(Out(Closure(Pair(params, body), e), s, 0));
  }

  /** Anything but `#f` counts as true. */
  lemma IfRule(test: Value, a: Value, b: Value, e: nat, s: Store, t: Value, s1: Store, v: Value, s2: Store)
    requires Yields(test, e, s, t, s1)
    requires Yields(if t == False then b else a, e, s1, v, s2)
    ensures Yields(Form("if", [test, a, b]), e, s, v, s2)
  {
    var k1, h1 := Enough(test, e, s, t, s1);
    var k2, h2 := Enough(if t == False then b else a, e, s1, v, s2);
    var n := k1 + k2;
    ListParts([a, b]);
    assert [test, a, b][1..] == [a, b];
    IfForms(n + 1, ListOf([test, a, b], Nil), e, s);
    IfValue(n, test, a, b, e, s, Out(t, s1, h1), Out(v, s2, h2));
  }

  lemma IfValue(n: nat, test: Value, a: Value, b: Value, e: nat, s: Store, t: Out<Store>, r: Out<Store>)
    requires Evaluate(n, test, e, s) == Got(t)
    requires Evaluate(n, if t.v == False then b else a, e, t.s) == Got(r)
    ensures If(n + 1, Pair(test, Pair(a, Pair(b, Nil))), e, s) == Got(Out(r.v, r.s, Max(1 + t.frames, r.frames)))
  {
  }

  lemma IfForms(b: nat, code: Value, e: nat, s: Store)
    ensures Evaluate(b + 1, Pair(Sym("if"), code), e, s) == If(b, code, e, s)
  {
    assert IsSyntax(Sym("if"));
    KeywordForm(b, "if", IF0, code, e, s);
  }

  /** Without an alternative the value is the empty list. */
  lemma OneArmedIfRule(test: Value, a: Value, e: nat, s: Store, s1: Store)
    requires Yields(test, e, s, False, s1)
    ensures Yields(Form("if", [test, a]), e, s, Nil, s1)
  {
    var k, h := Enough(test, e, s, False, s1);
    ListParts([test, a]);
    IfForms(k + 2, ListOf([test, a], Nil), e, s);
    assert If(k + 2, Pair(test, Pair(a, Nil)), e, s) == Got(Out(Nil, s1, Max(1 + h, 0)));
  }

  lemma BeginRule(forms: seq<Value>, e: nat, s: Store, v: Value, s1: Store)
    requires YieldLast(forms, e, s, v, s1)
    ensures Yields(Form("begin", forms), e, s, v, s1)
  {
    var k, h := BodyEnough(forms, e, s, v, s1);
    assert IsSyntax(Sym("begin"));
    KeywordForm(k, "begin", BEGIN, ListOf(forms, Nil), e, s);
    assert Evaluate(k + 1, Form("begin", forms), e, s) == Got(Out(v, s1, h));
  }

  /** The innermost frame gets the definition; the value of the form is the name. */
  lemma DefineRule(name: string, expr: Value, e: nat, s: Store, v: Value, s1: Store) returns (s2: Store)
    requires Yields(expr, e, s, v, s1) && IsFrame(s1, e)
    ensures Yields(Form("define", [Sym(name), expr]), e, s, Sym(name), s2) && Changed(s1, e, Sym(name), v, s2)
  {
    var k, h := Enough(expr, e, s, v, s1);
    s2 := Define(s1, e, Sym(name), v);
    DefineChanges(s1, e, Sym(name), v);
    ListParts([Sym(name), expr]);
    DefineForms(k + 1, ListOf([Sym(name), expr], Nil), e, s);
    assert DefineForm(k + 1, ListOf([Sym(name), expr], Nil), e, s) == Got(Out(Sym(name), s2, 1 + h));
  }

  lemma DefineForms(b: nat, code: Value, e: nat, s: Store)
    ensures Evaluate(b + 1, Pair(Sym("define"), code), e, s) == DefineForm(b, code, e, s)
  {
    assert IsSyntax(Sym("define"));
    KeywordForm(b, "define", DEF0, code, e, s);
  }

  /** `(define (name . params) . body)` defines a closure. */
  lemma DefineFunctionRule(name: string, params: Value, body: Value, e: nat, s: Store) returns (s1: Store)
    requires IsFrame(s, e)
    ensures Yields(Pair(Sym("define"), Pair(Pair(Sym(name), params), body)), e, s, Sym(name), s1)
    ensures Changed(s, e, Sym(name), Closure(Pair(params, body), e), s1)
  {
    var f := Closure(Pair(params, body), e);
    var rest := Pair(Pair(Sym(name), params), body);
    LambdaRule(params, body, e, s);
    var k, h := Enough(Pair(Sym("lambda"), Pair(params, body)), e, s, f, s);
    s1 := Define(s, e, Sym(name), f);
    DefineChanges(s, e, Sym(name), f);
    DefineForms(k + 1, rest, e, s);
    assert DefineParts(rest) == Got((Sym(name), Pair(LAMBDA_SYM, Pair(params, body))));
    assert DefineForm(k + 1, rest, e, s) == Got(Out(Sym(name), s1, 1 + h));
  }

  lemma SetForms(b: nat, code: Value, e: nat, s: Store)
    ensures Evaluate(b + 1, Pair(Sym("set!"), code), e, s) == SetForm(b, code, e, s)
  {
    assert IsSyntax(Sym("set!"));
    KeywordForm(b, "set!", SET0, code, e, s);
  }

  /** An assignment changes the frame in which the name is found; its value is the value assigned. */
  lemma SetRule(name: string, expr: Value, e: nat, s: Store, v: Value, s1: Store, f: nat) returns (s2: Store)
    requires Yields(expr, e, s, v, s1) && FoundIn(s1, e, Sym(name), f)
    ensures Yields(Form("set!", [Sym(name), expr]), e, s, v, s2) && Changed(s1, f, Sym(name), v, s2)
  {
    var k, h := Enough(expr, e, s, v, s1);
    FindsFirst(s1, e, Sym(name));
    var at := FindSlot(s1, e, Sym(name), true);
    assert at.0 == f;
    FoundIsFrame(s1, e, Sym(name), f);
    s2 := SetSlot(s1, at, v);
    SetSlotChanges(s1, f, Sym(name), at.1, v);
    ListParts([Sym(name), expr]);
    SetForms(k + 1, ListOf([Sym(name), expr], Nil), e, s);
    assert SetForm(k + 1, ListOf([Sym(name), expr], Nil), e, s) == Got(Out(v, s2, 1 + h));
  }

  lemma {:induction false} FoundIsFrame(s: Store, e: nat, name: Value, f: nat)
    requires FoundIn(s, e, name, f)
    ensures IsFrame(s, f)
    decreases e
  {
    if !Names(s[e - 1].slots, name) {
      FoundIsFrame(s, s[e - 1].parent, name, f);
    }
  }

  lemma SetUnboundRule(name: string, expr: Value, e: nat, s: Store, v: Value, s1: Store)
    requires Yields(expr, e, s, v, s1) && forall f: nat :: !FoundIn(s1, e, Sym(name), f)
    ensures Errs(Form("set!", [Sym(name), expr]), e, s)
  {
    var k, h := Enough(expr, e, s, v, s1);
    FindsFirst(s1, e, Sym(name));
    ListParts([Sym(name), expr]);
    SetForms(k + 1, ListOf([Sym(name), expr], Nil), e, s);
    assert SetForm(k + 1, ListOf([Sym(name), expr], Nil), e, s) == Fault;
  }
}
