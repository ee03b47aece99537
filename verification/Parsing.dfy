/** The reader, on any scanner and any layout of texts that fit together.  This is where the shape
    of the opcodes matters; what characters there are does not. */
module Parsing {
  import opened Registers
  import opened MachineRuns
  import opened Adequacy
  import opened Lexer
  import opened Reader
  import opened Printer

  /** What is written where: the text of a datum, or the rest of a list, is next in a text from a
      position on; and where the reader is after it. */
  datatype Layout = Layout(
    facing: (Value, string, nat) -> bool,
    end: (Value, string, nat) -> nat,
    tail: (Value, string, nat) -> bool,
    tailEnd: (Value, string, nat) -> nat)

  /** The port has moved on to `q`, with this many parentheses open. */
  predicate Stands(s1: Port, s: Port, q: nat, nesting: int) {
    s1.text == s.text && s1.load == s.load && s1.pos == q && s1.nesting == nesting
  }

  predicate IsAtomToken(token: Token) {
    token == ATOM || token == DQUOTE || token == SHARPCONST
  }

  predicate IsQuoteToken(token: Token) {
    token == TICK || token == BACKTICK || token == COMMA || token == ATMARK
  }

  /** The tokens that a datum can begin with. */
  predicate IsStart(token: Token) {
    IsAtomToken(token) || token == OPEN || IsQuoteToken(token)
  }

  /** A text that begins with this would be taken for part of the sign `,@`. */
  predicate StartsWithAt(v: Value) {
    v.Sym? && v.name != "" && v.name[0] == '@'
  }

  predicate Ambiguous(v: Value) {
    Abbreviated(v) && v.car == Sym("unquote") && StartsWithAt(v.cdr.car)
  }

  /** Nowhere is the symbol after a `,` one that begins with `@`. */
  predicate Unambiguous(v: Value) {
    if !v.Pair? then true
    else if Abbreviated(v) then Unambiguous(v.cdr.car) && !Ambiguous(v)
    else Unambiguous(v.car) && TailUnambiguous(v.cdr)
  }

  predicate TailUnambiguous(v: Value) {
    v.Pair? ==> Unambiguous(v.car) && TailUnambiguous(v.cdr)
  }

  predicate Facing(y: Layout, v: Value, s: Port) {
    y.facing(v, s.text, s.pos)
  }

  function End(y: Layout, v: Value, s: Port): nat {
    y.end(v, s.text, s.pos)
  }

  /** The elements of a list are next. */
  predicate FacingElements(y: Layout, v: Value, s: Port) {
    v.Pair? && Facing(y, v.car, s) && y.tail(v.cdr, s.text, End(y, v.car, s))
  }

  function ElementsEnd(y: Layout, v: Value, s: Port): nat
    requires v.Pair?
  {
    y.tailEnd(v.cdr, s.text, End(y, v.car, s))
  }

  predicate AtomFact(x: Scanner, y: Layout, v: Value, s: Port) {
    !v.Pair? && v != Nil && Facing(y, v, s) ==>
      && IsAtomToken(x.next(s).token) && x.atom(x.next(s)).Got? && x.atom(x.next(s)).value.0 == v
      && Stands(x.atom(x.next(s)).value.1, s, End(y, v, s), s.nesting)
  }

  predicate NilFact(x: Scanner, y: Layout, s: Port) {
    Facing(y, Nil, s) ==>
      && x.next(s).token == OPEN && x.next(x.next(s)).token == CLOSE
      && Stands(x.next(x.next(s)), s, End(y, Nil, s), s.nesting)
  }

  predicate SignFact(x: Scanner, y: Layout, v: Value, s: Port) {
    Abbreviated(v) && Facing(y, v, s) ==>
      && IsQuoteToken(x.next(s).token) && (Ambiguous(v) ==> x.next(s).token == ATMARK)
      && (!Ambiguous(v) ==>
            && Quotation(Quoting(x.next(s).token)) == v.car
            && Stands(x.next(s), s, x.next(s).pos, s.nesting)
            && Facing(y, v.cdr.car, x.next(s)) && End(y, v, s) == End(y, v.cdr.car, x.next(s)))
  }

  predicate OpenFact(x: Scanner, y: Layout, v: Value, s: Port) {
    v.Pair? && !Abbreviated(v) && Facing(y, v, s) ==>
      && x.next(s).token == OPEN && Stands(x.next(s), s, x.next(s).pos, s.nesting)
      && FacingElements(y, v, x.next(s)) && End(y, v, s) == ElementsEnd(y, v, x.next(s))
  }

  predicate StartFact(x: Scanner, y: Layout, v: Value, s: Port) {
    Facing(y, v, s) ==> IsStart(x.next(s).token)
  }

  predicate ElementFact(x: Scanner, y: Layout, v: Value, s: Port) {
    v.Pair? && y.tail(v, s.text, s.pos) && s.pos < |s.text| ==>
      && x.element(s) == x.next(GoTo(s, s.pos + 1)) && FacingElements(y, v, GoTo(s, s.pos + 1))
      && y.tailEnd(v, s.text, s.pos) == ElementsEnd(y, v, GoTo(s, s.pos + 1))
  }

  predicate CloseFact(x: Scanner, y: Layout, s: Port) {
    y.tail(Nil, s.text, s.pos) ==>
      && x.element(s).token == CLOSE
      && Stands(x.closed(x.element(s)), s, y.tailEnd(Nil, s.text, s.pos), s.nesting - 1)
  }

  predicate DotFact(x: Scanner, y: Layout, v: Value, s: Port) {
    !v.Pair? && v != Nil && y.tail(v, s.text, s.pos) ==>
      && x.element(s).token == DOT && Stands(x.element(s), s, x.element(s).pos, s.nesting)
      && Facing(y, v, x.element(s)) && Closing(s.text, End(y, v, x.element(s)))
      && y.tailEnd(v, s.text, s.pos) == End(y, v, x.element(s)) + 1
  }

  predicate Closing(t: string, p: nat) {
    p < |t| && t[p] == ')'
  }

  predicate ClosingFact(x: Scanner, s: Port) {
    Closing(s.text, s.pos) ==> x.next(s).token == CLOSE && Stands(x.next(s), s, s.pos + 1, s.nesting)
  }

  predicate TailFact(y: Layout, v: Value, s: Port) {
    y.tail(v, s.text, s.pos) ==> s.pos < |s.text|
  }

  predicate NestFact(x: Scanner, s: Port) {
    x.next(Nested(s, 1)) == Nested(x.next(s), 1)
  }

  /** Scanner and layout fit together. */
  ghost predicate Fit(x: Scanner, y: Layout) {
    && (forall v, s: Port :: AtomFact(x, y, v, s))
    && (forall s: Port :: NilFact(x, y, s))
    && (forall v, s: Port :: SignFact(x, y, v, s))
    && (forall v, s: Port :: OpenFact(x, y, v, s))
    && (forall v, s: Port :: StartFact(x, y, v, s))
    && (forall v, s: Port :: ElementFact(x, y, v, s))
    && (forall s: Port :: CloseFact(x, y, s))
    && (forall v, s: Port :: DotFact(x, y, v, s))
    && (forall s: Port :: ClosingFact(x, s))
    && (forall v, s: Port :: TailFact(y, v, s))
    && (forall s: Port :: NestFact(x, s))
  }

  function Size(v: Value): nat {
    if v.Pair? then 1 + Size(v.car) + Size(v.cdr) else 1
  }

  /** The reader has got the datum, stands at `q` and has this many parentheses open. */
  predicate Reads(r: Eval<Out<Port>>, v: Value, s: Port, q: nat, nesting: int) {
    r.Got? && r.value.v == v && Stands(r.value.s, s, q, nesting)
  }

  lemma {:induction false} DatumReads(x: Scanner, y: Layout, fuel: nat, v: Value, s: Port)
    requires Fit(x, y) && Facing(y, v, s) && Unambiguous(v) && fuel >= Size(v)
    ensures Reads(Datum(x, fuel, x.next(s)), v, s, End(y, v, s), s.nesting)
    decreases v, 2
  {
    if !v.Pair? {
      AtomDatum(x, y, fuel, v, s);
    } else if Abbreviated(v) {
      QuoteReads(x, y, fuel, v, s);
    } else {
      ListReads(x, y, fuel, v, s);
    }
  }

  lemma AtomDatum(x: Scanner, y: Layout, fuel: nat, v: Value, s: Port)
    requires Fit(x, y) && !v.Pair? && Facing(y, v, s) && fuel > 0
    ensures Reads(Datum(x, fuel, x.next(s)), v, s, End(y, v, s), s.nesting)
  {
    if v == Nil {
      assert NilFact(x, y, s);
    } else {
      assert AtomFact(x, y, v, s);
    }
  }

  lemma {:induction false} QuoteReads(x: Scanner, y: Layout, fuel: nat, v: Value, s: Port)
    requires Fit(x, y) && Facing(y, v, s) && Unambiguous(v) && Abbreviated(v) && fuel >= Size(v)
    ensures Reads(Datum(x, fuel, x.next(s)), v, s, End(y, v, s), s.nesting)
    decreases v, 1
  {
    assert SignFact(x, y, v, s);
    assert StartFact(x, y, v.cdr.car, x.next(s));
    DatumReads(x, y, fuel - 1, v.cdr.car, x.next(s));
    QuoteIsDatum(x, fuel, x.next(s));
  }

  lemma QuoteIsDatum(x: Scanner, fuel: nat, s: Port)
    requires fuel > 0 && IsQuoteToken(s.token) && !(s.token == BACKTICK && x.next(s).token == VEC)
    ensures Datum(x, fuel, s) == Quote(x, fuel, s)
  {
  }

  lemma {:induction false} ListReads(x: Scanner, y: Layout, fuel: nat, v: Value, s: Port)
    requires Fit(x, y) && Facing(y, v, s) && Unambiguous(v) && v.Pair? && !Abbreviated(v) && fuel >= Size(v)
    ensures Reads(Datum(x, fuel, x.next(s)), v, s, End(y, v, s), s.nesting)
    decreases v, 1
  {
    assert OpenFact(x, y, v, s);
    assert StartFact(x, y, v.car, x.next(s));
    assert NestFact(x, x.next(s));
    ElementsRead(x, y, fuel, v, Nested(x.next(s), 1));
  }

  lemma {:induction false} ElementsRead(x: Scanner, y: Layout, fuel: nat, v: Value, s: Port)
    requires Fit(x, y) && FacingElements(y, v, s) && fuel >= Size(v)
    requires Unambiguous(v.car) && TailUnambiguous(v.cdr)
    ensures Reads(Elements(x, fuel, x.next(s)), v, s, ElementsEnd(y, v, s), s.nesting - 1)
    decreases v, 0
  {
    DatumReads(x, y, fuel - 1, v.car, s);
    TailReads(x, y, fuel - 1, v.cdr, Datum(x, fuel - 1, x.next(s)).value.s);
  }

  lemma {:induction false} TailReads(x: Scanner, y: Layout, fuel: nat, v: Value, s: Port)
    requires Fit(x, y) && y.tail(v, s.text, s.pos) && TailUnambiguous(v) && fuel > Size(v)
    ensures Reads(Rest(x, fuel, x.element(s)), v, s, y.tailEnd(v, s.text, s.pos), s.nesting - 1)
    decreases v, 2
  {
    if v.Pair? {
      assert TailFact(y, v, s);
      assert ElementFact(x, y, v, s);
      var s1 := GoTo(s, s.pos + 1);
      assert StartFact(x, y, v.car, s1);
      ElementsRead(x, y, fuel, v, s1);
    } else if v == Nil {
      assert CloseFact(x, y, s);
    } else {
      DottedReads(x, y, fuel, v, s);
    }
  }

  lemma DottedReads(x: Scanner, y: Layout, fuel: nat, v: Value, s: Port)
    requires Fit(x, y) && !v.Pair? && v != Nil && y.tail(v, s.text, s.pos) && fuel > 1
    ensures Reads(Rest(x, fuel, x.element(s)), v, s, y.tailEnd(v, s.text, s.pos), s.nesting - 1)
  {
    assert DotFact(x, y, v, s);
    AtomDatum(x, y, fuel - 1, v, x.element(s));
    assert ClosingFact(x, Datum(x, fuel - 1, x.next(x.element(s))).value.s);
  }

  // ---------------------------------------------------------------------------
  // Ambiguous data
  // ---------------------------------------------------------------------------

  predicate Gives(r: Eval<Out<Port>>, v: Value) {
    r.Got? && r.value.v == v
  }

  /** An ambiguous datum is never read back: some other datum is read, or none. */
  lemma {:induction false} Misread(x: Scanner, y: Layout, fuel: nat, v: Value, s: Port)
    requires Fit(x, y) && Facing(y, v, s) && !Unambiguous(v)
    ensures !Gives(Datum(x, fuel, x.next(s)), v)
    decreases v, 2
  {
    if fuel > 0 {
      if Abbreviated(v) {
        QuoteMisread(x, y, fuel, v, s);
      } else {
        assert OpenFact(x, y, v, s);
        assert StartFact(x, y, v.car, x.next(s));
        assert NestFact(x, x.next(s));
        ElementsMisread(x, y, fuel, v, Nested(x.next(s), 1));
      }
    }
  }

  lemma {:induction false} QuoteMisread(x: Scanner, y: Layout, fuel: nat, v: Value, s: Port)
    requires Fit(x, y) && Facing(y, v, s) && Abbreviated(v) && !Unambiguous(v) && fuel > 0
    ensures !Gives(Datum(x, fuel, x.next(s)), v)
    decreases v, 1
  {
    assert SignFact(x, y, v, s);
    QuoteGives(x, fuel, x.next(s), v);
    if !Ambiguous(v) {
      Misread(x, y, fuel - 1, v.cdr.car, x.next(s));
    }
  }

  lemma QuoteGives(x: Scanner, fuel: nat, s: Port, v: Value)
    requires fuel > 0 && IsQuoteToken(s.token) && Abbreviated(v)
    ensures Gives(Datum(x, fuel, s), v) ==>
              Quotation(Quoting(s.token)) == v.car && Gives(Datum(x, fuel - 1, x.next(s)), v.cdr.car)
  {
    if s.token == BACKTICK && x.next(s).token == VEC {
      VectorFaults(x, fuel, s);
    } else {
      QuoteIsDatum(x, fuel, s);
    }
  }

  lemma VectorFaults(x: Scanner, fuel: nat, s: Port)
    requires fuel > 0 && s.token == BACKTICK && x.next(s).token == VEC
    ensures Datum(x, fuel, s) == Fault
  {
  }

  lemma {:induction false} ElementsMisread(x: Scanner, y: Layout, fuel: nat, v: Value, s: Port)
    requires Fit(x, y) && FacingElements(y, v, s) && !(Unambiguous(v.car) && TailUnambiguous(v.cdr))
    ensures !Gives(Elements(x, fuel, x.next(s)), v)
    decreases v, 0
  {
    if fuel > 0 {
      if !Unambiguous(v.car) {
        Misread(x, y, fuel - 1, v.car, s);
      } else {
        FirstRead(x, y, fuel - 1, v.car, s);
        var first := Datum(x, fuel - 1, x.next(s));
        if first.Got? {
          TailMisread(x, y, fuel - 1, v.cdr, first.value.s);
        }
      }
    }
  }

  /** An unambiguous element is read back, if there is fuel enough to read it. */
  lemma FirstRead(x: Scanner, y: Layout, fuel: nat, v: Value, s: Port)
    requires Fit(x, y) && Facing(y, v, s) && Unambiguous(v)
    ensures var r := Datum(x, fuel, x.next(s)); r != Timeout ==> Reads(r, v, s, End(y, v, s), s.nesting)
  {
    DatumReads(x, y, Size(v), v, s);
    MoreFuelSameDatum(x, x.next(s), fuel, Size(v));
  }

  lemma {:induction false} TailMisread(x: Scanner, y: Layout, fuel: nat, v: Value, s: Port)
    requires Fit(x, y) && y.tail(v, s.text, s.pos) && !TailUnambiguous(v)
    ensures !Gives(Rest(x, fuel, x.element(s)), v)
    decreases v, 2
  {
    if fuel > 0 {
      assert TailFact(y, v, s);
      assert ElementFact(x, y, v, s);
      var s1 := GoTo(s, s.pos + 1);
      assert StartFact(x, y, v.car, s1);
      ElementsMisread(x, y, fuel, v, s1);
    }
  }

  /** The run of `m` returns the datum to the dump it began with exactly if `good` is true; and then
      the reader stands at `q` and has as many parentheses open as `s` had. */
  ghost predicate ReadsBackExactlyIf(x: Scanner, v: Value, s: Port, q: nat, good: bool, m: Machine<Port>) {
    && (good <==> exists o: Out<Port> :: Returns(Reading(x), m, o) && o.v == v)
    && forall o: Out<Port> :: Returns(Reading(x), m, o) && o.v == v ==> Stands(o.s, s, q, s.nesting)
  }

  /** The machine in place of the descent. */
  lemma MachineReads(x: Scanner, v: Value, s: Port, size: nat, q: nat, good: bool, m: Machine<Port>)
    requires m.op == RDSEXPR
    requires good ==> Reads(Datum(x, size, m.store), v, s, q, s.nesting)
    requires !good ==> forall fuel: nat :: !Gives(Datum(x, fuel, m.store), v)
    ensures ReadsBackExactlyIf(x, v, s, q, good, m)
  {
    var f, answer := Reading(x), DatumAnswer(x, m.store);
    ReadingDescribed(x, m);
    if good {
      var o := Datum(x, size, m.store).value;
      assert answer(size) == Got(o);
      ReturnsIff(f, answer, m, o);
    }
    forall o: Out<Port> | Returns(f, m, o) && o.v == v
      ensures good && Stands(o.s, s, q, s.nesting)
    {
      ReturnsIff(f, answer, m, o);
      var fuel: nat :| answer(fuel) == Got(o);
      assert Gives(Datum(x, fuel, m.store), v);
      FuelOnlyDelays(f, answer, m, fuel, size);
    }
  }

  /** Reading with the machine gives the datum back, in the right place and with the dump it began
      with, exactly if the datum is not ambiguous. */
  lemma MachineReadsIff(x: Scanner, y: Layout, v: Value, s: Port, q: nat, m: Machine<Port>)
    requires Fit(x, y) && Facing(y, v, s) && End(y, v, s) == q && m.op == RDSEXPR && m.store == x.next(s)
    ensures ReadsBackExactlyIf(x, v, s, q, Unambiguous(v), m)
  {
    if Unambiguous(v) {
      DatumReads(x, y, Size(v), v, s);
    } else {
      forall fuel: nat ensures !Gives(Datum(x, fuel, x.next(s)), v) {
        Misread(x, y, fuel, v, s);
      }
    }
    MachineReads(x, v, s, Size(v), q, Unambiguous(v), m);
  }
}
