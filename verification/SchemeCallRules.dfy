/** What calls, bindings, clauses and connectives mean, as rules like those of `SchemeRules`. */
module SchemeCallRules {
  import opened Registers
  import opened SchemeMachine
  import opened SchemeEvaluator
  import opened MachineRuns
  import opened Adequacy
  import opened SchemeTheorems
  import opened SchemeFrames
  import opened SchemeRules

  // ---------------------------------------------------------------------------
  // Calls
  // ---------------------------------------------------------------------------

  lemma {:induction false} Operands(cs: seq<Value>)
    ensures Exprs(E1ARGS, ListOf(cs, Nil), cs)
    decreases |cs|
  {
    if cs != [] {
      Operands(cs[1..]);
    }
  }

  lemma CallValue(b: nat, f: Value, code: Value, e: nat, s: Store, o1: Out<Store>, o2: Out<Store>, r: Eval<Out<Store>>)
    requires !IsSyntax(f) && Evaluate(b, f, e, s) == Got(o1)
    requires EvaluateList(b, E1ARGS, code, e, o1.s) == Got(o2) && Apply(b, o1.v, o2.v, o2.s) == r && !r.Timeout?
    ensures Evaluate(b + 1, Pair(f, code), e, s) ==
              if r.Got? then Got(Out(r.value.v, r.value.s, Max(1 + o1.frames, Max(o2.frames, r.value.frames)))) else Fault
  {
  }

  lemma ApplyClosure(b: nat, params: Value, body: Value, env: nat, args: Value, s: Store)
    ensures var r := BindParams(s + [EnvFrame([], env)], |s| + 1, params, args);
            && (r.Got? ==> Apply(b + 1, Closure(Pair(params, body), env), args, s) == Begin(b, body, |s| + 1, r.value))
            && (r == Fault ==> Apply(b + 1, Closure(Pair(params, body), env), args, s) == Fault)
  {
  }

  /** Operator and operands together, from some amount of fuel on. */
  lemma CallParts(f: Value, cs: seq<Value>, e: nat, s: Store, fn: Value, s1: Store, vs: seq<Value>, s2: Store)
    returns (n: nat, o1: Out<Store>, o2: Out<Store>)
    requires Yields(f, e, s, fn, s1) && YieldAll(cs, e, s1, vs, s2)
    ensures o1.v == fn && o1.s == s1 && o2.v == ListOf(vs, Nil) && o2.s == s2
    ensures forall b: nat | b >= n :: Evaluate(b, f, e, s) == Got(o1)
    ensures forall b: nat | b >= n :: EvaluateList(b, E1ARGS, ListOf(cs, Nil), e, s1) == Got(o2)
  {
    var k1, h1 := Enough(f, e, s, fn, s1);
    Operands(cs);
    var k2, h2 := ListEnough(E1ARGS, ListOf(cs, Nil), cs, e, s1, vs, s2);
    n, o1, o2 := Max(k1, k2), Out(fn, s1, h1), Out(ListOf(vs, Nil), s2, h2);
  }

  /** The operator is evaluated first, then the operands in order; a closure's body is evaluated in a
      new frame, inside the closure's environment, that holds the arguments. */
  lemma CallRule(f: Value, cs: seq<Value>, e: nat, s: Store, names: seq<Value>, rest: Value, body: seq<Value>, env: nat,
                 s1: Store, vs: seq<Value>, s2: Store, s3: Store, v: Value, s4: Store)
    requires !IsSyntax(f) && (rest == Nil || rest.Sym?)
    requires Yields(f, e, s, Closure(Pair(ListOf(names, rest), ListOf(body, Nil)), env), s1)
    requires YieldAll(cs, e, s1, vs, s2) && |names| <= |vs|
    requires CallFrame(s2 + [EnvFrame([], env)], |s2| + 1, names, rest, vs, s3)
    requires YieldLast(body, |s2| + 1, s3, v, s4)
    ensures Yields(Pair(f, ListOf(cs, Nil)), e, s, v, s4)
  {
    var fn := Closure(Pair(ListOf(names, rest), ListOf(body, Nil)), env);
    var k1, o1, o2 := CallParts(f, cs, e, s, fn, s1, vs, s2);
    var k2, h := BodyEnough(body, |s2| + 1, s3, v, s4);
    BoundFrame(s2, env, names, rest, vs, s3);
    var n := k1 + k2;
    ApplyClosure(n, ListOf(names, rest), ListOf(body, Nil), env, ListOf(vs, Nil), s2);
    CallValue(n + 1, f, ListOf(cs, Nil), e, s, o1, o2, Got(Out(v, s4, h)));
  }

  lemma BoundFrame(s: Store, env: nat, names: seq<Value>, rest: Value, vs: seq<Value>, s1: Store)
    requires (rest == Nil || rest.Sym?) && |names| <= |vs|
    requires CallFrame(s + [EnvFrame([], env)], |s| + 1, names, rest, vs, s1)
    ensures BindParams(s + [EnvFrame([], env)], |s| + 1, ListOf(names, rest), ListOf(vs, Nil)) == Got(s1)
  {
    var s0, e := s + [EnvFrame([], env)], |s| + 1;
    ParamsBound(s0, e, names, rest, vs);
    OneCallFrame(s0, e, names, rest, vs, s1, BindParams(s0, e, ListOf(names, rest), ListOf(vs, Nil)).value);
  }

  /** Too few arguments are an error, after all of them have been evaluated. */
  lemma TooFewRule(f: Value, cs: seq<Value>, e: nat, s: Store, names: seq<Value>, rest: Value, body: Value, env: nat,
                   s1: Store, vs: seq<Value>, s2: Store)
    requires !IsSyntax(f) && (rest == Nil || rest.Sym?)
    requires Yields(f, e, s, Closure(Pair(ListOf(names, rest), body), env), s1)
    requires YieldAll(cs, e, s1, vs, s2) && |vs| < |names|
    ensures Errs(Pair(f, ListOf(cs, Nil)), e, s)
  {
    var n := TooFewFaults(f, cs, e, s, names, rest, body, env, s1, vs, s2);
  }

  lemma TooFewFaults(f: Value, cs: seq<Value>, e: nat, s: Store, names: seq<Value>, rest: Value, body: Value, env: nat,
                     s1: Store, vs: seq<Value>, s2: Store)
    returns (n: nat)
    requires !IsSyntax(f) && (rest == Nil || rest.Sym?)
    requires Yields(f, e, s, Closure(Pair(ListOf(names, rest), body), env), s1)
    requires YieldAll(cs, e, s1, vs, s2) && |vs| < |names|
    ensures Evaluate(n + 2, Pair(f, ListOf(cs, Nil)), e, s) == Fault
  {
    var fn := Closure(Pair(ListOf(names, rest), body), env);
    var o1, o2;
    n, o1, o2 := CallParts(f, cs, e, s, fn, s1, vs, s2);
    TooFewApplied(n, names, rest, body, env, vs, s2);
    CallValue(n + 1, f, ListOf(cs, Nil), e, s, o1, o2, Fault);
  }

  lemma TooFewApplied(b: nat, names: seq<Value>, rest: Value, body: Value, env: nat, vs: seq<Value>, s: Store)
    requires (rest == Nil || rest.Sym?) && |vs| < |names|
    ensures Apply(b + 1, Closure(Pair(ListOf(names, rest), body), env), ListOf(vs, Nil), s) == Fault
  {
    ParamsBound(s + [EnvFrame([], env)], |s| + 1, names, rest, vs);
    ApplyClosure(b, ListOf(names, rest), body, env, ListOf(vs, Nil), s);
  }

  lemma PrimitiveRule(f: Value, cs: seq<Value>, e: nat, s: Store, p: Prim, s1: Store, vs: seq<Value>, s2: Store, v: Value)
    requires !IsSyntax(f) && Yields(f, e, s, Proc(p), s1) && YieldAll(cs, e, s1, vs, s2) && Computes(p, vs, v)
    ensures Yields(Pair(f, ListOf(cs, Nil)), e, s, v, s2)
  {
    var n, o1, o2 := CallParts(f, cs, e, s, Proc(p), s1, vs, s2);
    PrimitiveComputes(p, vs, v);
    assert Apply(n + 1, Proc(p), ListOf(vs, Nil), s2) == Got(Out(v, s2, 0));
    CallValue(n + 1, f, ListOf(cs, Nil), e, s, o1, o2, Got(Out(v, s2, 0)));
  }

  /** Constants are their own values. */
  lemma {:induction false} ConstantsRule(cs: seq<Value>, e: nat, s: Store)
    requires forall i | 0 <= i < |cs| :: !cs[i].Sym? && !cs[i].Pair?
    ensures YieldAll(cs, e, s, cs, s)
    decreases |cs|
  {
    if cs != [] {
      ConstantRule(cs[0], e, s);
      ConstantsRule(cs[1..], e, s);
    }
  }

  /** `((lambda (p0 ... pn) pi) c0 ... cn)`: the machine returns `ci`, whichever parameter it is and
      however many arguments there are beyond the parameters. */
  lemma CallReturnsArgument(m: Machine<Store>, names: seq<Value>, i: nat, cs: seq<Value>)
    requires i < |names| <= |cs| && Distinct(names) && names[i].Sym?
    requires forall k | 0 <= k < |cs| :: !cs[k].Sym? && !cs[k].Pair?
    requires m.op == EVAL
    requires m.code == Pair(Pair(Sym("lambda"), Pair(ListOf(names, Nil), ListOf([names[i]], Nil))), ListOf(cs, Nil))
    ensures exists s :: ReturnsWith(m, cs[i], s) && |s| == |m.store| + 1 && s[..|m.store|] == m.store
  {
    var e, s := m.envir, m.store;
    var f := Pair(Sym("lambda"), Pair(ListOf(names, Nil), ListOf([names[i]], Nil)));
    LambdaRule(ListOf(names, Nil), ListOf([names[i]], Nil), e, s);
    ConstantsRule(cs, e, s);
    var s1 := ArgumentFound(names, i, cs, e, s);
    CallRule(f, cs, e, s, names, Nil, [names[i]], e, s, cs, s, s1, cs[i], s1);
    YieldsIffReturns(m, cs[i], s1);
  }

  lemma ArgumentFound(names: seq<Value>, i: nat, vs: seq<Value>, env: nat, s: Store) returns (s1: Store)
    requires i < |names| <= |vs| && Distinct(names) && names[i].Sym?
    ensures CallFrame(s + [EnvFrame([], env)], |s| + 1, names, Nil, vs, s1)
    ensures YieldLast([names[i]], |s| + 1, s1, vs[i], s1)
    ensures |s1| == |s| + 1 && s1[..|s|] == s
  {
    var s0 := s + [EnvFrame([], env)];
    ParamsBound(s0, |s0|, names, Nil, vs);
    s1 := BindParams(s0, |s0|, ListOf(names, Nil), ListOf(vs, Nil)).value;
    SlotsHold(s1[|s|].slots, names, vs, [], i);
    HeldIsBound(s1, |s0|, names[i], vs[i]);
    VariableRule(names[i].name, |s0|, s1, vs[i]);
    assert s1[..|s|] == s;
  }

  /** A name that the innermost frame holds is bound to what it holds there. */
  lemma HeldIsBound(s: Store, e: nat, name: Value, v: Value)
    requires IsFrame(s, e) && Holds(s[e - 1].slots, name, v)
    ensures Bound(s, e, name, v)
  {
    assert FoundIn(s, e, name, e);
  }
}
