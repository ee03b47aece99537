/** The registers as the interpreter keeps them: fields that every opcode changes. */
module RegisterFile {
  import opened Registers

  datatype Outcome = Running | Stopped | Failed

  /** What an opcode did is what a step of the machine says. */
  predicate Did<S(==)>(step: Eval<Status<S>>, outcome: Outcome, after: Machine<S>) {
    match step
    case Got(Next(m)) => outcome == Running && after == m
    case Got(Stop(v, s)) => outcome == Stopped && after.value == v && after.store == s
    case _ => outcome == Failed
  }

  class Scheme<S(==)> {
    var op: Op
    var args: Value
    var envir: nat
    var code: Value
    var value: Value
    var dump: seq<Frame>
    var store: S

    function State(): Machine<S>
      reads this
    {
      Machine(op, args, envir, code, value, dump, store)
    }

    constructor (o: Op, a: Value, e: nat, c: Value, s: S)
      ensures State() == Machine(o, a, e, c, Nil, [], s)
    {
      op, args, envir, code, value, dump, store := o, a, e, c, Nil, [], s;
    }

    method SSave(o: Op, a: Value, c: Value)
      modifies this`dump
      ensures State() == old(State()).Save(o, a, c)
      ensures dump == old(dump) + [Frame(o, a, envir, c)]
    {
      dump := dump + [Frame(o, a, envir, c)];
    }

    method SReturn(v: Value) returns (r: Outcome)
      modifies this
      ensures Did(Got(Ret(v, old(dump), old(store))), r, State())
      ensures value == v && store == old(store) && (r == Stopped <==> old(dump) == [])
      ensures old(dump) != [] ==>
        r == Running && old(dump) == dump + [Frame(op, args, envir, code)]
    {
      value := v;
      if dump == [] {
        r := Stopped;
      } else {
        var fr := dump[|dump| - 1];
        dump := dump[..|dump| - 1];
        op, args, envir, code := fr.op, fr.args, fr.envir, fr.code;
        r := Running;
      }
    }

    method Goto(o: Op) returns (r: Outcome)
      modifies this`op
      ensures r == Running && State() == old(State()).(op := o)
    {
      op := o;
      r := Running;
    }

    /** Save a frame and evaluate a part. */
    method Evaluate(o: Op, a: Value, c: Value, expr: Value) returns (r: Outcome)
      modifies this`op, this`code, this`dump
      ensures Did(old(State()).Save(o, a, c).Evaluate(expr), r, State())
    {
      SSave(o, a, c);
      code := expr;
      r := Goto(EVAL);
    }
  }
}
