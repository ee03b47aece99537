/** What bindings, clauses and connectives mean, as rules like those of `SchemeRules`. */
module SchemeFormRules {
  import opened Registers
  import opened SchemeMachine
  import opened SchemeEvaluator
  import opened SchemeFrames
  import opened SchemeRules

  // ---------------------------------------------------------------------------
  // let
  // ---------------------------------------------------------------------------

  lemma {:induction false} BindingExprs(kind: Op, names: seq<Value>, cs: seq<Value>)
    requires (kind == LET1 || kind == LET1REC) && |names| == |cs|
    ensures Exprs(kind, Bindings(names, cs), cs)
    decreases |cs|
  {
    if cs != [] {
      BindingExprs(kind, names[1..], cs[1..]);
    }
  }

  /** A new frame inside environment `e`, in which these names stand for these values. */
  predicate LetFrame(s: Store, e: nat, names: seq<Value>, vs: seq<Value>, s1: Store) {
    |s1| == |s| + 1 && s1 == s + [EnvFrame(s1[|s|].slots, e)] && SlotsFor(s1[|s|].slots, names, vs, [])
  }

  lemma LetFrameMade(s: Store, e: nat, names: seq<Value>, cs: seq<Value>, vs: seq<Value>, s1: Store)
    requires |names| == |cs| == |vs| && LetFrame(s, e, names, vs, s1)
    ensures BindLet(s + [EnvFrame([], e)], |s| + 1, Bindings(names, cs), ListOf(vs, Nil)) == Got(s1)
  {
    LetBoundIs(s + [EnvFrame([], e)], |s| + 1, names, cs, vs, s1[|s|].slots, s1);
  }

  lemma LetForms(b: nat, code: Value, e: nat, s: Store)
    ensures Evaluate(b + 1, Pair(Sym("let"), code), e, s) == LetForm(b, code, e, s)
  {
    assert IsSyntax(Sym("let"));
    KeywordForm(b, "let", LET0, code, e, s);
  }

  lemma LetValue(b: nat, code: Value, binds: Value, e: nat, s: Store, vals: Out<Store>, s1: Store, body: Value, r: Out<Store>)
    requires LetBindings(code) == Got(binds) && EvaluateList(b, LET1, binds, e, s) == Got(vals)
    requires EnterLet(vals.s + [EnvFrame([], e)], |vals.s| + 1, code, vals.v) == Got((s1, body))
    requires Begin(b, body, |vals.s| + 1, s1) == Got(r)
    ensures LetForm(b + 1, code, e, s) == Got(Out(r.v, r.s, Max(vals.frames, r.frames)))
  {
  }

  lemma EnterPlain(names: seq<Value>, cs: seq<Value>, body: Value, e: nat, vs: seq<Value>, s: Store, s1: Store)
    requires |names| == |cs| == |vs| && LetFrame(s, e, names, vs, s1)
    ensures LetBindings(Pair(Bindings(names, cs), body)) == Got(Bindings(names, cs))
    ensures EnterLet(s + [EnvFrame([], e)], |s| + 1, Pair(Bindings(names, cs), body), ListOf(vs, Nil)) == Got((s1, body))
  {
    LetFrameMade(s, e, names, cs, vs, s1);
  }

  /** The expressions are evaluated outside, in order; the body inside one new frame. */
  lemma LetRule(names: seq<Value>, cs: seq<Value>, body: seq<Value>, e: nat, s: Store, vs: seq<Value>, s1: Store,
                s2: Store, v: Value, s3: Store)
    requires |names| == |cs| && YieldAll(cs, e, s, vs, s1) && LetFrame(s1, e, names, vs, s2)
    requires YieldLast(body, |s1| + 1, s2, v, s3)
    ensures Yields(Pair(Sym("let"), Pair(Bindings(names, cs), ListOf(body, Nil))), e, s, v, s3)
  {
    EnterPlain(names, cs, ListOf(body, Nil), e, vs, s1, s2);
    BindingExprs(LET1, names, cs);
    var n, h := LetEnough(Pair(Bindings(names, cs), ListOf(body, Nil)), Bindings(names, cs), cs, body, e, s, vs, s1, s2, v, s3);
    LetForms(n, Pair(Bindings(names, cs), ListOf(body, Nil)), e, s);
  }

  lemma LetEnough(code: Value, binds: Value, cs: seq<Value>, body: seq<Value>, e: nat, s: Store, vs: seq<Value>, s1: Store,
                  s2: Store, v: Value, s3: Store)
    returns (n: nat, h: nat)
    requires LetBindings(code) == Got(binds) && Exprs(LET1, binds, cs) && YieldAll(cs, e, s, vs, s1)
    requires EnterLet(s1 + [EnvFrame([], e)], |s1| + 1, code, ListOf(vs, Nil)) == Got((s2, ListOf(body, Nil)))
    requires YieldLast(body, |s1| + 1, s2, v, s3)
    ensures LetForm(n, code, e, s) == Got(Out(v, s3, h))
  {
    var k1, h1 := ListEnough(LET1, binds, cs, e, s, vs, s1);
    var k2, h2 := BodyEnough(body, |s1| + 1, s2, v, s3);
    LetValue(Max(k1, k2), code, binds, e, s, Out(ListOf(vs, Nil), s1, h1), s2, ListOf(body, Nil), Out(v, s3, h2));
    n, h := Max(k1, k2) + 1, Max(h1, h2);
  }

  /** The frame of a named `let` holds the variables and, in front, the closure that the name stands for,
      whose environment is that very frame. */
  predicate LoopFrame(s: Store, e: nat, name: Value, names: seq<Value>, body: Value, vs: seq<Value>, s1: Store) {
    && |s1| == |s| + 1 && s1 == s + [EnvFrame(s1[|s|].slots, e)] && s1[|s|].slots != []
    && s1[|s|].slots[0] == (name, Closure(Pair(ListOf(names, Nil), body), |s| + 1))
    && SlotsFor(s1[|s|].slots[1..], names, vs, [])
  }

  lemma LoopFrameMade(s: Store, e: nat, name: Value, names: seq<Value>, cs: seq<Value>, body: Value, vs: seq<Value>,
                      s1: Store)
    requires |names| == |cs| == |vs| && names != [] && name.Sym? && LoopFrame(s, e, name, names, body, vs, s1)
    ensures EnterLet(s + [EnvFrame([], e)], |s| + 1, Pair(name, Pair(Bindings(names, cs), body)), ListOf(vs, Nil))
         == Got((s1, body))
  {
    var s0 := s + [EnvFrame(s1[|s|].slots[1..], e)];
    LetFrameMade(s, e, names, cs, vs, s0);
    NamesOf(names, cs);
    NamedSlot(s, e, s1[|s|].slots, name, Closure(Pair(ListOf(names, Nil), body), |s| + 1));
    EnterNamed(s + [EnvFrame([], e)], |s| + 1, name, Bindings(names, cs), body, ListOf(vs, Nil), s0, ListOf(names, Nil));
  }

  lemma NamedSlot(s: Store, e: nat, slots: Slots, name: Value, v: Value)
    requires slots != [] && slots[0] == (name, v)
    ensures NewSlot(s + [EnvFrame(slots[1..], e)], |s| + 1, name, v) == s + [EnvFrame(slots, e)]
  {
    assert [(name, v)] + slots[1..] == slots;
  }

  lemma EnterNamed(s: Store, e: nat, name: Value, binds: Value, body: Value, vals: Value, s1: Store, names: Value)
    requires name.Sym? && binds.Pair? && BindLet(s, e, binds, vals) == Got(s1) && LetNames(binds) == Got(names)
    ensures EnterLet(s, e, Pair(name, Pair(binds, body)), vals)
         == Got((NewSlot(s1, e, name, Closure(Pair(names, body), e)), body))
  {
  }

  lemma NamedLetRule(name: string, names: seq<Value>, cs: seq<Value>, body: seq<Value>, e: nat, s: Store,
                     vs: seq<Value>, s1: Store, s2: Store, v: Value, s3: Store)
    requires |names| == |cs| && names != [] && YieldAll(cs, e, s, vs, s1)
    requires LoopFrame(s1, e, Sym(name), names, ListOf(body, Nil), vs, s2)
    requires YieldLast(body, |s1| + 1, s2, v, s3)
    ensures Yields(Pair(Sym("let"), Pair(Sym(name), Pair(Bindings(names, cs), ListOf(body, Nil)))), e, s, v, s3)
  {
    var binds, forms := Bindings(names, cs), ListOf(body, Nil);
    var code := Pair(Sym(name), Pair(binds, forms));
    BindingExprs(LET1, names, cs);
    LoopFrameMade(s1, e, Sym(name), names, cs, forms, vs, s2);
    var n, h := LetEnough(code, binds, cs, body, e, s, vs, s1, s2, v, s3);
    LetForms(n, code, e, s);
  }

  // ---------------------------------------------------------------------------
  // letrec and let*
  // ---------------------------------------------------------------------------

  lemma LetrecForms(b: nat, code: Value, e: nat, s: Store)
    ensures Evaluate(b + 1, Pair(Sym("letrec"), code), e, s) == LetrecForm(b, code, e, s)
  {
    assert IsSyntax(Sym("letrec"));
    KeywordForm(b, "letrec", LET0REC, code, e, s);
  }

  lemma LetrecValue(b: nat, binds: Value, body: Value, e: nat, s: Store, vals: Out<Store>, s1: Store, r: Out<Store>)
    requires EvaluateList(b, LET1REC, binds, |s| + 1, s + [EnvFrame([], e)]) == Got(vals)
    requires BindLet(vals.s, |s| + 1, binds, vals.v) == Got(s1) && Begin(b, body, |s| + 1, s1) == Got(r)
    ensures LetrecForm(b + 1, Pair(binds, body), e, s) == Got(Out(r.v, r.s, Max(vals.frames, r.frames)))
  {
  }

  /** The frame of a `letrec` is there before its expressions are evaluated in it, and gets all slots after that. */
  lemma LetrecRule(names: seq<Value>, cs: seq<Value>, body: seq<Value>, e: nat, s: Store, vs: seq<Value>, s1: Store,
                   s2: Store, v: Value, s3: Store)
    requires |names| == |cs| && YieldAll(cs, |s| + 1, s + [EnvFrame([], e)], vs, s1) && |s| < |s1| == |s2|
    requires Filled(s1, |s| + 1, s2[|s|].slots, s2) && SlotsFor(s2[|s|].slots, names, vs, s1[|s|].slots)
    requires YieldLast(body, |s| + 1, s2, v, s3)
    ensures Yields(Pair(Sym("letrec"), Pair(Bindings(names, cs), ListOf(body, Nil))), e, s, v, s3)
  {
    var binds, forms := Bindings(names, cs), ListOf(body, Nil);
    BindingExprs(LET1REC, names, cs);
    var k1, h1 := ListEnough(LET1REC, binds, cs, |s| + 1, s + [EnvFrame([], e)], vs, s1);
    var k2, h2 := BodyEnough(body, |s| + 1, s2, v, s3);
    LetBoundIs(s1, |s| + 1, names, cs, vs, s2[|s|].slots, s2);
    var n := k1 + k2;
    LetrecValue(n, binds, forms, e, s, Out(ListOf(vs, Nil), s1, h1), s2, Out(v, s3, h2));
    LetrecForms(n + 1, Pair(binds, forms), e, s);
  }

  /** The store with one more slot in frame `e`. */
  function WithSlot(s: Store, e: nat, name: Value, v: Value): Store
    requires IsFrame(s, e)
  {
    s[e - 1 := EnvFrame([(name, v)] + s[e - 1].slots, s[e - 1].parent)]
  }

  /** Bindings one after the other in frame `e`, each with those before it in place. */
  ghost predicate InTurn(names: seq<Value>, cs: seq<Value>, e: nat, s: Store, vs: seq<Value>, s1: Store)
    decreases |names|
  {
    && |names| == |cs| == |vs|
    && if names == [] then s1 == s
       else exists u :: Yields(cs[0], e, s, vs[0], u) && IsFrame(u, e)
                        && InTurn(names[1..], cs[1..], e, WithSlot(u, e, names[0], vs[0]), vs[1..], s1)
  }

  lemma {:induction false} StarEnough(names: seq<Value>, cs: seq<Value>, body: seq<Value>, e: nat, s: Store, vs: seq<Value>,
                                      s1: Store, v: Value, s2: Store)
    returns (k: nat, h: nat)
    requires |names| == |cs| == |vs| && names != [] && IsFrame(s, e)
    requires InTurn(names[1..], cs[1..], e, WithSlot(s, e, names[0], vs[0]), vs[1..], s1)
    requires YieldLast(body, e, s1, v, s2)
    ensures forall b: nat | b >= k ::
      LetStarRest(b, Bindings(names, cs), vs[0], ListOf(body, Nil), e, s) == Got(Out(v, s2, h))
    decreases |names|
  {
    var t := WithSlot(s, e, names[0], vs[0]);
    var rest, forms := Bindings(names[1..], cs[1..]), ListOf(body, Nil);
    if |names| == 1 {
      var k1, h1 := BodyEnough(body, e, s1, v, s2);
      k, h := LastBound(names[0], cs[0], vs[0], forms, e, s, Out(v, s2, h1), k1);
    } else {
      var u :| Yields(cs[1..][0], e, t, vs[1..][0], u) && IsFrame(u, e)
               && InTurn(names[1..][1..], cs[1..][1..], e, WithSlot(u, e, names[1..][0], vs[1..][0]), vs[1..][1..], s1);
      var k1, h1 := Enough(cs[1], e, t, vs[1], u);
      var k2, h2 := StarEnough(names[1..], cs[1..], body, e, u, vs[1..], s1, v, s2);
      k, h := NextBound(names[0], cs[0], rest, cs[1], vs[0], forms, e, s, Out(vs[1], u, h1), k1, Out(v, s2, h2), k2);
    }
  }

  lemma LastBound(name: Value, c: Value, v: Value, body: Value, e: nat, s: Store, r: Out<Store>, k1: nat)
    returns (k: nat, h: nat)
    requires IsFrame(s, e) && forall b: nat | b >= k1 :: Begin(b, body, e, WithSlot(s, e, name, v)) == Got(r)
    ensures forall b: nat | b >= k :: LetStarRest(b, Pair(Pair(name, Pair(c, Nil)), Nil), v, body, e, s) == Got(Out(r.v, r.s, h))
  {
    k, h := k1 + 1, r.frames;
    assert WithSlot(s, e, name, v) == NewSlot(s, e, name, v);
    forall b: nat | b >= k
      ensures LetStarRest(b, Pair(Pair(name, Pair(c, Nil)), Nil), v, body, e, s) == Got(Out(r.v, r.s, h))
    {
      LastBinding(b - 1, name, c, v, body, e, s);
    }
  }

  lemma NextBound(name: Value, c: Value, rest: Value, expr: Value, v: Value, body: Value, e: nat, s: Store,
                  o: Out<Store>, k1: nat, r: Out<Store>, k2: nat)
    returns (k: nat, h: nat)
    requires IsFrame(s, e) && rest.Pair? && CadarOf(rest) == Got(expr)
    requires forall b: nat | b >= k1 :: Evaluate(b, expr, e, WithSlot(s, e, name, v)) == Got(o)
    requires forall b: nat | b >= k2 :: LetStarRest(b, rest, o.v, body, e, o.s) == Got(r)
    ensures forall b: nat | b >= k :: LetStarRest(b, Pair(Pair(name, Pair(c, Nil)), rest), v, body, e, s) == Got(Out(r.v, r.s, h))
  {
    k, h := k1 + k2 + 1, Max(1 + o.frames, r.frames);
    assert WithSlot(s, e, name, v) == NewSlot(s, e, name, v);
    forall b: nat | b >= k
      ensures LetStarRest(b, Pair(Pair(name, Pair(c, Nil)), rest), v, body, e, s) == Got(Out(r.v, r.s, h))
    {
      NextBinding(b - 1, name, c, rest, expr, v, body, e, s, o, r);
    }
  }

  lemma LastBinding(b: nat, name: Value, c: Value, v: Value, body: Value, e: nat, s: Store)
    ensures LetStarRest(b + 1, Pair(Pair(name, Pair(c, Nil)), Nil), v, body, e, s)
         == Begin(b, body, e, NewSlot(s, e, name, v))
  {
  }

  lemma NextBinding(b: nat, name: Value, c: Value, rest: Value, expr: Value, v: Value, body: Value, e: nat, s: Store,
                    o: Out<Store>, r: Out<Store>)
    requires rest.Pair? && CadarOf(rest) == Got(expr)
    requires Evaluate(b, expr, e, NewSlot(s, e, name, v)) == Got(o) && LetStarRest(b, rest, o.v, body, e, o.s) == Got(r)
    ensures LetStarRest(b + 1, Pair(Pair(name, Pair(c, Nil)), rest), v, body, e, s)
         == Got(Out(r.v, r.s, Max(1 + o.frames, r.frames)))
  {
    var binds := Pair(Pair(name, Pair(c, Nil)), rest);
    assert Uncons(binds) == Got((Pair(name, Pair(c, Nil)), rest)) && CarOf(Pair(name, Pair(c, Nil))) == Got(name);
    assert LetStarRest(b + 1, binds, v, body, e, s) == Got(Out(r.v, r.s, Max(1 + o.frames, r.frames)));
  }

  lemma LetStarForms(b: nat, code: Value, e: nat, s: Store)
    ensures Evaluate(b + 1, Pair(Sym("let*"), code), e, s) == LetStarForm(b, code, e, s)
  {
    assert IsSyntax(Sym("let*"));
    KeywordForm(b, "let*", LET0AST, code, e, s);
  }

  lemma LetStarValue(b: nat, binds: Value, expr: Value, body: Value, e: nat, s: Store, o: Out<Store>, r: Out<Store>)
    requires binds.Pair? && CadarOf(binds) == Got(expr) && Evaluate(b, expr, e, s) == Got(o)
    requires LetStarRest(b, binds, o.v, body, |o.s| + 1, o.s + [EnvFrame([], e)]) == Got(r)
    ensures LetStarForm(b + 1, Pair(binds, body), e, s) == Got(Out(r.v, r.s, Max(1 + o.frames, r.frames)))
  {
  }

  /** The first expression is evaluated outside; there is one new frame, in which the others are evaluated,
      each after the bindings in front of it. */
  lemma LetStarRule(names: seq<Value>, cs: seq<Value>, body: seq<Value>, e: nat, s: Store, vs: seq<Value>, s0: Store,
                    s1: Store, v: Value, s2: Store)
    requires |names| == |cs| == |vs| && names != [] && Yields(cs[0], e, s, vs[0], s0)
    requires InTurn(names[1..], cs[1..], |s0| + 1, s0 + [EnvFrame([(names[0], vs[0])], e)], vs[1..], s1)
    requires YieldLast(body, |s0| + 1, s1, v, s2)
    ensures Yields(Pair(Sym("let*"), Pair(Bindings(names, cs), ListOf(body, Nil))), e, s, v, s2)
  {
    var binds, forms := Bindings(names, cs), ListOf(body, Nil);
    var t := s0 + [EnvFrame([], e)];
    assert [(names[0], vs[0])] + [] == [(names[0], vs[0])];
    assert WithSlot(t, |t|, names[0], vs[0]) == s0 + [EnvFrame([(names[0], vs[0])], e)];
    var k1, h1 := Enough(cs[0], e, s, vs[0], s0);
    var k2, h2 := StarEnough(names, cs, body, |t|, t, vs, s1, v, s2);
    var n := k1 + k2;
    LetStarValue(n, binds, cs[0], forms, e, s, Out(vs[0], s0, h1), Out(v, s2, h2));
    LetStarForms(n + 1, Pair(binds, forms), e, s);
  }

  // ---------------------------------------------------------------------------
  // cond
  // ---------------------------------------------------------------------------

  function Clauses(tests: seq<Value>, bodies: seq<seq<Value>>): Value
    requires |tests| == |bodies|
  {
    if tests == [] then Nil
    else Pair(Pair(tests[0], ListOf(bodies[0], Nil)), Clauses(tests[1..], bodies[1..]))
  }

  function Falses(n: nat): seq<Value> {
    seq(n, i => False)
  }

  /** What the clause comes to whose test has the value `t`: that value if it has no body, a call for `=>`,
      and otherwise its body. */
  ghost predicate ClauseYields(body: seq<Value>, t: Value, e: nat, s: Store, v: Value, s1: Store) {
    if body == [] then v == t && s1 == s
    else if body[0] == Sym("=>") then
      |body| > 1 && Yields(ListOf([body[1], ListOf([Sym("quote"), t], Nil)], Nil), e, s, v, s1)
    else YieldLast(body, e, s, v, s1)
  }

  lemma FeedIs(receiver: Value, t: Value)
    ensures ListOf([receiver, ListOf([Sym("quote"), t], Nil)], Nil) == Feed(receiver, t)
  {
    ListParts([Sym("quote"), t]);
    ListParts([receiver, ListOf([Sym("quote"), t], Nil)]);
  }

  /** The same with this much fuel. */
  predicate ClauseGives(b: nat, body: seq<Value>, t: Value, e: nat, s: Store, r: Out<Store>) {
    if body == [] then r == Out(t, s, 0)
    else if body[0] == Sym("=>") then |body| > 1 && Evaluate(b, Feed(body[1], t), e, s) == Got(r)
    else Begin(b, ListOf(body, Nil), e, s) == Got(r)
  }

  lemma ClauseEnough(body: seq<Value>, t: Value, e: nat, s: Store, v: Value, s1: Store) returns (k: nat, h: nat)
    requires ClauseYields(body, t, e, s, v, s1)
    ensures forall b: nat | b >= k :: ClauseGives(b, body, t, e, s, Out(v, s1, h))
  {
    k, h := 0, 0;
    if body == [] {
    } else if body[0] == Sym("=>") {
      FeedIs(body[1], t);
      k, h := Enough(Feed(body[1], t), e, s, v, s1);
    } else {
      k, h := BodyEnough(body, e, s, v, s1);
    }
  }

  lemma TakenClause(body: seq<Value>, test: Value, others: Value, e: nat, s: Store, t: Value, s1: Store, v: Value, s2: Store)
    returns (k: nat, h: nat)
    requires Yields(test, e, s, t, s1) && t != False && ClauseYields(body, t, e, s1, v, s2)
    ensures forall b: nat | b >= k :: Cond(b, Pair(Pair(test, ListOf(body, Nil)), others), e, s) == Got(Out(v, s2, h))
  {
    var k1, h1 := Enough(test, e, s, t, s1);
    var k2, h2 := ClauseEnough(body, t, e, s1, v, s2);
    k, h := TakenEnough(body, test, others, e, s, Out(t, s1, h1), k1, Out(v, s2, h2), k2);
  }

  lemma TakenEnough(body: seq<Value>, test: Value, others: Value, e: nat, s: Store, o: Out<Store>, k1: nat, r: Out<Store>,
                    k2: nat)
    returns (k: nat, h: nat)
    requires o.v != False
    requires forall b: nat | b >= k1 :: Evaluate(b, test, e, s) == Got(o)
    requires forall b: nat | b >= k2 :: ClauseGives(b, body, o.v, e, o.s, r)
    ensures forall b: nat | b >= k :: Cond(b, Pair(Pair(test, ListOf(body, Nil)), others), e, s) == Got(Out(r.v, r.s, h))
  {
    k, h := k1 + k2 + 1, Max(1 + o.frames, r.frames);
    forall b: nat | b >= k ensures Cond(b, Pair(Pair(test, ListOf(body, Nil)), others), e, s) == Got(Out(r.v, r.s, h)) {
      ClauseValue(b - 1, test, body, others, e, s, o, r);
    }
  }

  lemma ClauseValue(b: nat, test: Value, body: seq<Value>, others: Value, e: nat, s: Store, o: Out<Store>, r: Out<Store>)
    requires Evaluate(b, test, e, s) == Got(o) && o.v != False && ClauseGives(b, body, o.v, e, o.s, r)
    ensures Cond(b + 1, Pair(Pair(test, ListOf(body, Nil)), others), e, s)
         == Got(Out(r.v, r.s, Max(1 + o.frames, r.frames)))
  {
    ListParts(body);
  }

  /** Clauses whose tests are false are passed over. */
  lemma {:induction false} CondEnough(tests: seq<Value>, bodies: seq<seq<Value>>, i: nat, e: nat, s: Store, s1: Store,
                                      t: Value, s2: Store, v: Value, s3: Store)
    returns (k: nat, h: nat)
    requires |tests| == |bodies| && i < |tests| && YieldAll(tests[..i], e, s, Falses(i), s1)
    requires Yields(tests[i], e, s1, t, s2) && t != False && ClauseYields(bodies[i], t, e, s2, v, s3)
    ensures forall b: nat | b >= k :: Cond(b, Clauses(tests, bodies), e, s) == Got(Out(v, s3, h))
    decreases i
  {
    if i == 0 {
      k, h := TakenClause(bodies[0], tests[0], Clauses(tests[1..], bodies[1..]), e, s, t, s2, v, s3);
    } else {
      var mid := FalseFirst(tests, i, e, s, s1);
      var k1, h1 := Enough(tests[0], e, s, False, mid);
      assert tests[1..][i - 1] == tests[i] && bodies[1..][i - 1] == bodies[i];
      var k2, h2 := CondEnough(tests[1..], bodies[1..], i - 1, e, mid, s1, t, s2, v, s3);
      k, h := PassedEnough(tests[0], ListOf(bodies[0], Nil), Clauses(tests[1..], bodies[1..]), e, s,
                           Out(False, mid, h1), k1, Out(v, s3, h2), k2);
    }
  }

  lemma PassedEnough(test: Value, body: Value, others: Value, e: nat, s: Store, o: Out<Store>, k1: nat, r: Out<Store>,
                     k2: nat)
    returns (k: nat, h: nat)
    requires o.v == False && others != Nil
    requires forall b: nat | b >= k1 :: Evaluate(b, test, e, s) == Got(o)
    requires forall b: nat | b >= k2 :: Cond(b, others, e, o.s) == Got(r)
    ensures forall b: nat | b >= k :: Cond(b, Pair(Pair(test, body), others), e, s) == Got(Out(r.v, r.s, h))
  {
    k, h := k1 + k2 + 1, Max(1 + o.frames, r.frames);
    forall b: nat | b >= k ensures Cond(b, Pair(Pair(test, body), others), e, s) == Got(Out(r.v, r.s, h)) {
      PassedClause(b - 1, test, body, others, e, s, o, r);
    }
  }

  lemma FalseFirst(tests: seq<Value>, i: nat, e: nat, s: Store, s1: Store) returns (mid: Store)
    requires 0 < i <= |tests| && YieldAll(tests[..i], e, s, Falses(i), s1)
    ensures Yields(tests[0], e, s, False, mid) && YieldAll(tests[1..][..i - 1], e, mid, Falses(i - 1), s1)
  {
    var cs, vs := tests[..i], Falses(i);
    mid :| Yields(cs[0], e, s, vs[0], mid) && YieldAll(cs[1..], e, mid, vs[1..], s1);
    assert cs[1..] == tests[1..][..i - 1] && vs[1..] == Falses(i - 1);
  }

  lemma PassedClause(b: nat, test: Value, body: Value, others: Value, e: nat, s: Store, o: Out<Store>, r: Out<Store>)
    requires Evaluate(b, test, e, s) == Got(o) && o.v == False && others != Nil && Cond(b, others, e, o.s) == Got(r)
    ensures Cond(b + 1, Pair(Pair(test, body), others), e, s) == Got(Out(r.v, r.s, Max(1 + o.frames, r.frames)))
  {
  }

  lemma CondForms(b: nat, code: Value, e: nat, s: Store)
    requires b > 0 && code.Pair?
    ensures Evaluate(b + 1, Pair(Sym("cond"), code), e, s) == Cond(b, code, e, s)
  {
    assert IsSyntax(Sym("cond"));
    KeywordForm(b, "cond", COND0, code, e, s);
  }

  /** The first clause whose test is true decides. */
  lemma CondRule(tests: seq<Value>, bodies: seq<seq<Value>>, i: nat, e: nat, s: Store, s1: Store, t: Value, s2: Store,
                 v: Value, s3: Store)
    requires |tests| == |bodies| && i < |tests| && YieldAll(tests[..i], e, s, Falses(i), s1)
    requires Yields(tests[i], e, s1, t, s2) && t != False && ClauseYields(bodies[i], t, e, s2, v, s3)
    ensures Yields(Pair(Sym("cond"), Clauses(tests, bodies)), e, s, v, s3)
  {
    var k, h := CondEnough(tests, bodies, i, e, s, s1, t, s2, v, s3);
    CondForms(k + 1, Clauses(tests, bodies), e, s);
  }

  lemma {:induction false} NoClauseEnough(tests: seq<Value>, bodies: seq<seq<Value>>, e: nat, s: Store, s1: Store)
    returns (k: nat, h: nat)
    requires |tests| == |bodies| && tests != [] && YieldAll(tests, e, s, Falses(|tests|), s1)
    ensures forall b: nat | b >= k :: Cond(b, Clauses(tests, bodies), e, s) == Got(Out(Nil, s1, h))
    decreases |tests|
  {
    assert tests[..|tests|] == tests;
    var mid := FalseFirst(tests, |tests|, e, s, s1);
    var k1, h1 := Enough(tests[0], e, s, False, mid);
    var others := Clauses(tests[1..], bodies[1..]);
    assert tests[1..][..|tests| - 1] == tests[1..];
    if |tests| == 1 {
      k, h := k1 + 1, 1 + h1;
      forall b: nat | b >= k ensures Cond(b, Clauses(tests, bodies), e, s) == Got(Out(Nil, s1, h)) {
        LastClause(b - 1, tests[0], ListOf(bodies[0], Nil), e, s, Out(False, mid, h1));
      }
    } else {
      var k2, h2 := NoClauseEnough(tests[1..], bodies[1..], e, mid, s1);
      k, h := PassedEnough(tests[0], ListOf(bodies[0], Nil), others, e, s, Out(False, mid, h1), k1, Out(Nil, s1, h2), k2);
    }
  }

  lemma LastClause(b: nat, test: Value, body: Value, e: nat, s: Store, o: Out<Store>)
    requires Evaluate(b, test, e, s) == Got(o) && o.v == False
    ensures Cond(b + 1, Pair(Pair(test, body), Nil), e, s) == Got(Out(Nil, o.s, 1 + o.frames))
  {
  }

  /** Without a true test the value is the empty list. */
  lemma NoClauseRule(tests: seq<Value>, bodies: seq<seq<Value>>, e: nat, s: Store, s1: Store)
    requires |tests| == |bodies| && tests != [] && YieldAll(tests, e, s, Falses(|tests|), s1)
    ensures Yields(Pair(Sym("cond"), Clauses(tests, bodies)), e, s, Nil, s1)
  {
    var k, h := NoClauseEnough(tests, bodies, e, s, s1);
    CondForms(k + 1, Clauses(tests, bodies), e, s);
  }

  // ---------------------------------------------------------------------------
  // and, or
  // ---------------------------------------------------------------------------

  /** Whether the value ends the evaluation of an `and` (`conj`) or an `or`. */
  predicate Decides(conj: bool, v: Value) {
    if conj then v == False else v != False
  }

  lemma {:induction false} ConnectiveEnough(conj: bool, cs: seq<Value>, i: nat, e: nat, s: Store, vs: seq<Value>, s1: Store,
                                            v: Value, s2: Store)
    returns (k: nat, h: nat)
    requires i < |cs| && YieldAll(cs[..i], e, s, vs, s1) && forall j | 0 <= j < |vs| :: !Decides(conj, vs[j])
    requires Yields(cs[i], e, s1, v, s2) && (Decides(conj, v) || i == |cs| - 1)
    ensures forall b: nat | b >= k :: AndOr(b, conj, ListOf(cs, Nil), e, s) == Got(Out(v, s2, h))
    decreases i
  {
    var others := ListOf(cs[1..], Nil);
    if i == 0 {
      var k1, h1 := Enough(cs[0], e, s, v, s2);
      k, h := LastEnough(conj, cs[0], others, e, s, Out(v, s2, h1), k1);
    } else {
      var front := cs[..i];
      var mid :| Yields(front[0], e, s, vs[0], mid) && YieldAll(front[1..], e, mid, vs[1..], s1);
      assert front[1..] == cs[1..][..i - 1];
      var k1, h1 := Enough(cs[0], e, s, vs[0], mid);
      var k2, h2 := ConnectiveEnough(conj, cs[1..], i - 1, e, mid, vs[1..], s1, v, s2);
      assert others.Pair?;
      k, h := NextEnough(conj, cs[0], others, e, s, Out(vs[0], mid, h1), k1, Out(v, s2, h2), k2);
    }
  }

  lemma LastEnough(conj: bool, c: Value, others: Value, e: nat, s: Store, o: Out<Store>, k1: nat) returns (k: nat, h: nat)
    requires Decides(conj, o.v) || others == Nil
    requires forall b: nat | b >= k1 :: Evaluate(b, c, e, s) == Got(o)
    ensures forall b: nat | b >= k :: AndOr(b, conj, Pair(c, others), e, s) == Got(Out(o.v, o.s, h))
  {
    k, h := k1 + 1, 1 + o.frames;
    forall b: nat | b >= k ensures AndOr(b, conj, Pair(c, others), e, s) == Got(Out(o.v, o.s, h)) {
      LastOperand(b - 1, conj, c, others, e, s, o);
    }
  }

  lemma NextEnough(conj: bool, c: Value, others: Value, e: nat, s: Store, o: Out<Store>, k1: nat, r: Out<Store>, k2: nat)
    returns (k: nat, h: nat)
    requires !Decides(conj, o.v) && others != Nil
    requires forall b: nat | b >= k1 :: Evaluate(b, c, e, s) == Got(o)
    requires forall b: nat | b >= k2 :: AndOr(b, conj, others, e, o.s) == Got(r)
    ensures forall b: nat | b >= k :: AndOr(b, conj, Pair(c, others), e, s) == Got(Out(r.v, r.s, h))
  {
    k, h := k1 + k2 + 1, Max(1 + o.frames, r.frames);
    forall b: nat | b >= k ensures AndOr(b, conj, Pair(c, others), e, s) == Got(Out(r.v, r.s, h)) {
      NextOperand(b - 1, conj, c, others, e, s, o, r);
    }
  }

  lemma LastOperand(b: nat, conj: bool, c: Value, others: Value, e: nat, s: Store, o: Out<Store>)
    requires Evaluate(b, c, e, s) == Got(o) && (Decides(conj, o.v) || others == Nil)
    ensures AndOr(b + 1, conj, Pair(c, others), e, s) == Got(Out(o.v, o.s, 1 + o.frames))
  {
  }

  lemma NextOperand(b: nat, conj: bool, c: Value, others: Value, e: nat, s: Store, o: Out<Store>, r: Out<Store>)
    requires Evaluate(b, c, e, s) == Got(o) && !Decides(conj, o.v) && others != Nil
    requires AndOr(b, conj, others, e, o.s) == Got(r)
    ensures AndOr(b + 1, conj, Pair(c, others), e, s) == Got(Out(r.v, r.s, Max(1 + o.frames, r.frames)))
  {
  }

  lemma ConnectiveForms(b: nat, conj: bool, code: Value, e: nat, s: Store)
    requires b > 0
    ensures Evaluate(b + 1, Pair(Sym(if conj then "and" else "or"), code), e, s)
         == if code == Nil then Got(Out(Truth(conj), s, 0)) else AndOr(b, conj, code, e, s)
  {
    var keyword, op := if conj then "and" else "or", if conj then AND0 else OR0;
    assert IsSyntax(Sym(keyword));
    KeywordForm(b, keyword, op, code, e, s);
  }

  /** The value is that of the first form that decides, or of the last: for `and` a false value decides,
      for `or` a true one.  Later forms are not evaluated. */
  lemma ConnectiveRule(conj: bool, cs: seq<Value>, i: nat, e: nat, s: Store, vs: seq<Value>, s1: Store, v: Value, s2: Store)
    requires i < |cs| && YieldAll(cs[..i], e, s, vs, s1) && forall j | 0 <= j < |vs| :: !Decides(conj, vs[j])
    requires Yields(cs[i], e, s1, v, s2) && (Decides(conj, v) || i == |cs| - 1)
    ensures Yields(Form(if conj then "and" else "or", cs), e, s, v, s2)
  {
    var k, h := ConnectiveEnough(conj, cs, i, e, s, vs, s1, v, s2);
    ConnectiveForms(k + 1, conj, ListOf(cs, Nil), e, s);
  }

  /** `(and)` is true and `(or)` false. */
  lemma EmptyConnectiveRule(conj: bool, e: nat, s: Store)
    ensures Yields(Form(if conj then "and" else "or", []), e, s, Truth(conj), s)
  {
    ConnectiveForms(1, conj, Nil, e, s);
  }
}
