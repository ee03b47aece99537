/** Values, and the registers and the dump of `struct scheme`, which the evaluator, the reader and the
    printer share.  `store` is what else a group of opcodes works on. */
module Registers {
  datatype Prim = Cons | Car | Cdr | IsNull | IsPair | Not | Plus | Minus | NumEq

  datatype Value =
    | Nil
    | True
    | False
    | EofObj
    | Num(n: int)
    | Str(chars: string)
    | Char(c: char)
    | Literal(text: string)
    | Sym(name: string)
    | Pair(car: Value, cdr: Value)
    | Closure(code: Value, env: nat)
    | Proc(p: Prim)

  /** A result, an error of the program, or (in the evaluator) too little fuel. */
  datatype Eval<+T> = Got(value: T) | Fault | Timeout {
    predicate IsFailure() {
      !Got?
    }

    function PropagateFailure<U>(): Eval<U>
      requires !Got?
    {
      if Fault? then Fault else Timeout
    }

    function Extract(): T
      requires Got?
    {
      value
    }
  }

  /** `reverse_in_place(sc, term, list)`. */
  function ReverseOnto(list: Value, term: Value): (r: Value)
    ensures list.Pair? || term.Pair? ==> r.Pair?
  {
    if list.Pair? then ReverseOnto(list.cdr, Pair(list.car, term)) else term
  }

  datatype Op =
    | EVAL | E0ARGS | E1ARGS | APPLY | PRIM(p: Prim)
    | LAMBDA | QUOTE | DEF0 | DEF1 | SET0 | SET1 | BEGIN | IF0 | IF1
    | LET0 | LET1 | LET2 | LET0AST | LET1AST | LET2AST | LET0REC | LET1REC | LET2REC
    | COND0 | COND1 | AND0 | AND1 | OR0 | OR1
    | RDSEXPR | RDLIST | RDDOT | RDQUOTE | RDQQUOTE | RDUNQUOTE | RDUQTSP
    | P0LIST | P1LIST

  datatype Frame = Frame(op: Op, args: Value, envir: nat, code: Value)

  datatype Machine<S> = Machine(op: Op, args: Value, envir: nat, code: Value, value: Value,
                                dump: seq<Frame>, store: S)
  {
    /** `s_save`. */
    function Save(op: Op, args: Value, code: Value): Machine<S> {
      this.(dump := dump + [Frame(op, args, envir, code)])
    }

    /** `s_goto(sc, OP_EVAL)` with a new `code`. */
    function Evaluate(code: Value): Eval<Status<S>> {
      Got(Next(this.(op := EVAL, code := code)))
    }

    function Goto(op: Op): Eval<Status<S>> {
      Got(Next(this.(op := op)))
    }

    function Return(v: Value): Eval<Status<S>> {
      Got(Ret(v, dump, store))
    }
  }

  datatype Status<S> = Next(m: Machine<S>) | Stop(value: Value, store: S)

  /** `_s_return`: back to the frame on top of the dump; with an empty dump the machine stops. */
  function Ret<S>(v: Value, dump: seq<Frame>, s: S): Status<S> {
    if dump == [] then Stop(v, s)
    else
      var fr := dump[|dump| - 1];
      Next(Machine(fr.op, fr.args, fr.envir, fr.code, v, dump[..|dump| - 1], s))
  }

  /** A result, and the number of dump frames that computing it takes. */
  datatype Out<S> = Out(v: Value, s: S, frames: nat)

  function Max(a: nat, b: nat): nat {
    if a < b then b else a
  }
}
