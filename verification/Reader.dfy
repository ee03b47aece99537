/** The reader: opcodes of `opexe_5` that keep what is to be done on the dump, and the same as a
    recursive descent through the text. */
module Reader {
  import opened Registers
  import opened MachineRuns
  import opened Adequacy
  import opened Lexer

  /** The input port, the token read last and the count of open parentheses.  `load` says that the
      port is the load port. */
  datatype PortState = PortState(text: string, pos: nat, token: Token, nesting: int, load: bool)

  type Port = s: PortState | IsBytes(s.text) && s.pos <= |s.text| witness PortState("", 0, END, 0, false)

  function GoTo(s: Port, q: nat): Port
    requires q <= |s.text|
  {
    s.(pos := q)
  }

  function Nested(s: Port, n: int): Port {
    s.(nesting := s.nesting + n)
  }

  /** `sc->tok = token(sc)`. */
  function Lex(s: Port): Port {
    var (token, pos) := NextToken(s.text, s.pos);
    s.(token := token, pos := pos)
  }

  /** The rest of a line after a comment sign. */
  function SkipLine(t: string, p: nat): (q: nat)
    ensures p <= |t| ==> q <= |t|
    decreases |t| - p
  {
    var (c, q) := Inchar(t, p);
    if c == EOF || c == '\n' as int then q else SkipLine(t, q)
  }

  /** The token after an element of a list; one comment before it is skipped. */
  function LexElement(s: Port): Port {
    var s1 := Lex(s);
    if s1.token == COMMENT then Lex(GoTo(s1, SkipLine(s1.text, s1.pos))) else s1
  }

  /** After a closing parenthesis a newline is swallowed. */
  function CloseList(s: Port): Port {
    var (c, q) := Inchar(s.text, s.pos);
    Nested(GoTo(s, if c == '\n' as int then q else Backchar(c, q)), -1)
  }

  function SkipComment(s: Port): Port {
    Lex(GoTo(s, SkipLine(s.text, s.pos)))
  }

  function Atom(s: Port): (r: Eval<(Value, Port)>)
    ensures !r.Timeout?
  {
    var (v, q) :- ReadAtom(s.text, s.token, s.pos);
    Got((v, GoTo(s, q)))
  }

  /** What the opcodes need of the functions that move along the text. */
  datatype Scanner = Scanner(
    next: Port -> Port,
    element: Port -> Port,
    closed: Port -> Port,
    comment: Port -> Port,
    atom: Port -> Eval<(Value, Port)>)

  /** The functions of the program. */
  function Program(): Scanner {
    Scanner(Lex, LexElement, CloseList, SkipComment, Atom)
  }

  /** `OP_RDDOT` reads the closing parenthesis and forgets the token. */
  function CloseDotted(s: Port, s1: Port): Port {
    s1.(token := s.token, nesting := s1.nesting - 1)
  }

  function Quotation(op: Op): Value {
    Sym(if op == RDQUOTE then "quote"
        else if op == RDQQUOTE then "quasiquote"
        else if op == RDUNQUOTE then "unquote"
        else "unquote-splicing")
  }

  predicate IsQuotation(op: Op) {
    op == RDQUOTE || op == RDQQUOTE || op == RDUNQUOTE || op == RDUQTSP
  }

  /** The opcode that waits for the datum after a quotation sign. */
  function Quoting(token: Token): Op {
    if token == TICK then RDQUOTE
    else if token == BACKTICK then RDQQUOTE
    else if token == COMMA then RDUNQUOTE
    else RDUQTSP
  }

  function StepRead(x: Scanner, m: Machine<Port>): Eval<Status<Port>> {
    match m.op
    case RDSEXPR => StepDatum(x, m)
    case RDLIST => StepList(x, m.(args := Pair(m.value, m.args), store := x.element(m.store)))
    case RDDOT =>
      var s := x.next(m.store);
      if s.token != CLOSE then Fault
      else Got(Ret(ReverseOnto(m.args, m.value), m.dump, CloseDotted(m.store, s)))
    case _ =>
      if IsQuotation(m.op) then m.Return(Pair(Quotation(m.op), Pair(m.value, Nil))) else Fault
  }

  function StepDatum(x: Scanner, m: Machine<Port>): Eval<Status<Port>> {
    var s := m.store;
    if s.token == END then if s.load then Fault else m.Return(EofObj)
    else if s.token == COMMENT then m.(store := x.comment(s)).Goto(RDSEXPR)
    else if s.token == OPEN then
      var s1 := x.next(s);
      if s1.token == CLOSE then m.(store := s1).Return(Nil)
      else if s1.token == DOT then Fault
      else m.(store := Nested(s1, 1)).Save(RDLIST, Nil, Nil).Goto(RDSEXPR)
    else if s.token == BACKTICK && x.next(s).token == VEC then Fault
    else if s.token in {TICK, BACKTICK, COMMA, ATMARK} then
      m.(store := x.next(s)).Save(Quoting(s.token), Nil, Nil).Goto(RDSEXPR)
    else
      var r := x.atom(s);
      if r.Got? then m.(store := r.value.1).Return(r.value.0) else Fault
  }

  /** `OP_RDLIST`, when the element is on `args` and the next token is read. */
  function StepList(x: Scanner, m: Machine<Port>): Eval<Status<Port>> {
    if m.store.token == CLOSE then Got(Ret(ReverseOnto(m.args, Nil), m.dump, x.closed(m.store)))
    else if m.store.token == DOT then m.Save(RDDOT, m.args, Nil).(store := x.next(m.store)).Goto(RDSEXPR)
    else m.Save(RDLIST, m.args, Nil).Goto(RDSEXPR)
  }

  function Reading(x: Scanner): Stepper<Port> {
    (m: Machine<Port>) => StepRead(x, m)
  }

  // ---------------------------------------------------------------------------
  // Recursive descent
  // ---------------------------------------------------------------------------

  /** The datum that begins with the token read last. */
  function Datum(x: Scanner, fuel: nat, s: Port): Eval<Out<Port>>
    decreases fuel, 1
  {
    if fuel == 0 then Timeout
    else if s.token == END then if s.load then Fault else Got(Out(EofObj, s, 0))
    else if s.token == COMMENT then Datum(x, fuel - 1, x.comment(s))
    else if s.token == OPEN then
      var s1 := x.next(s);
      if s1.token == CLOSE then Got(Out(Nil, s1, 0))
      else if s1.token == DOT then Fault
      else Elements(x, fuel, Nested(s1, 1))
    else if s.token == BACKTICK && x.next(s).token == VEC then Fault
    else if s.token in {TICK, BACKTICK, COMMA, ATMARK} then Quote(x, fuel, s)
    else
      var r := x.atom(s);
      if r.Got? then Got(Out(r.value.0, r.value.1, 0)) else Fault
  }

  function Quote(x: Scanner, fuel: nat, s: Port): Eval<Out<Port>>
    requires fuel > 0
    decreases fuel, 0
  {
    var r :- Datum(x, fuel - 1, x.next(s));
    Got(Out(Pair(Quotation(Quoting(s.token)), Pair(r.v, Nil)), r.s, 1 + r.frames))
  }

  /** The elements of a list, up to its end, and what comes after a dot. */
  function Elements(x: Scanner, fuel: nat, s: Port): Eval<Out<Port>>
    decreases fuel, 0
  {
    if fuel == 0 then Timeout
    else
      var first :- Datum(x, fuel - 1, s);
      var rest :- Rest(x, fuel - 1, x.element(first.s));
      Got(Out(Pair(first.v, rest.v), rest.s, Max(1 + first.frames, rest.frames)))
  }

  function Rest(x: Scanner, fuel: nat, s: Port): Eval<Out<Port>>
    decreases fuel, 2
  {
    if fuel == 0 then Timeout
    else if s.token == CLOSE then Got(Out(Nil, x.closed(s), 0))
    else if s.token == DOT then
      var tail :- Datum(x, fuel - 1, x.next(s));
      var s1 := x.next(tail.s);
      if s1.token != CLOSE then Fault
      else Got(Out(tail.v, CloseDotted(tail.s, s1), 1 + tail.frames))
    else Elements(x, fuel, s)
  }

  // ---------------------------------------------------------------------------
  // The two agree
  // ---------------------------------------------------------------------------

  lemma DatumAgrees(x: Scanner, fuel: nat, m: Machine<Port>) returns (k: nat, p: nat)
    requires m.op == RDSEXPR
    ensures Agrees(Reading(x), fuel, Datum(x, fuel, m.store), m, k, p)
    decreases fuel, 3
  {
    k, p := 1, 0;
    var s := m.store;
    if fuel == 0 {
    } else if s.token == COMMENT {
      var m1 := m.(store := x.comment(s));
      assert StepRead(x, m) == Got(Next(m1));
      var k1, p1 := DatumAgrees(x, fuel - 1, m1);
      k, p := Tail(Reading(x), fuel, m, m1, Datum(x, fuel - 1, m1.store), k1, p1);
    } else if IsQuote(x, s) {
      k, p := QuoteAgrees(x, fuel, m);
    } else if s.token == OPEN && x.next(s).token != CLOSE && x.next(s).token != DOT {
      var s1 := x.next(s);
      var m1 := m.(store := Nested(s1, 1)).Save(RDLIST, Nil, Nil);
      assert StepRead(x, m) == Got(Next(m1));
      k, p := ElementsAgree(x, fuel, m, m1, Nil);
    } else {
      AtomAgrees(x, fuel, m);
    }
  }

  predicate IsQuote(x: Scanner, s: Port) {
    s.token == TICK || s.token == COMMA || s.token == ATMARK || (s.token == BACKTICK && x.next(s).token != VEC)
  }

  lemma AtomAgrees(x: Scanner, fuel: nat, m: Machine<Port>)
    requires fuel > 0 && m.op == RDSEXPR && !IsQuote(x, m.store) && m.store.token != COMMENT
    requires m.store.token == OPEN ==> x.next(m.store).token == CLOSE || x.next(m.store).token == DOT
    ensures Agrees(Reading(x), fuel, Datum(x, fuel, m.store), m, 1, 0)
  {
    var r := Datum(x, fuel, m.store);
    if r.Got? {
      Return(Reading(x), fuel, m, r.value);
    } else {
      Fail(Reading(x), fuel, m);
    }
  }

  lemma QuoteAgrees(x: Scanner, fuel: nat, m: Machine<Port>) returns (k: nat, p: nat)
    requires fuel > 0 && m.op == RDSEXPR && IsQuote(x, m.store)
    ensures Agrees(Reading(x), fuel, Quote(x, fuel, m.store), m, k, p)
    decreases fuel, 1
  {
    var fr := Frame(Quoting(m.store.token), Nil, m.envir, Nil);
    var m1 := m.(store := x.next(m.store), dump := m.dump + [fr]);
    QuoteStep(x, m);
    var k1, p1 := DatumAgrees(x, fuel - 1, m1);
    var r := Datum(x, fuel - 1, m1.store);
    var (v, s) := if r.Got? then (Pair(Quotation(fr.op), Pair(r.value.v, Nil)), r.value.s) else (Nil, m.store);
    if r.Got? {
      QuotationStep(x, fr, r.value, m.dump);
    }
    k, p := Wrapped(Reading(x), fuel, m, m1, fr, r, k1, p1, v, s);
  }

  lemma QuoteStep(x: Scanner, m: Machine<Port>)
    requires m.op == RDSEXPR && IsQuote(x, m.store)
    ensures StepRead(x, m)
         == Got(Next(m.(store := x.next(m.store), dump := m.dump + [Frame(Quoting(m.store.token), Nil, m.envir, Nil)])))
  {
  }

  lemma QuotationStep(x: Scanner, fr: Frame, o: Out<Port>, d: seq<Frame>)
    requires IsQuotation(fr.op)
    ensures StepRead(x, Resume(fr, o, d)) == Got(Ret(Pair(Quotation(fr.op), Pair(o.v, Nil)), d, o.s))
  {
  }

  /** The values of a list in front of which `args` stand in reverse. */
  function Onto(args: Value, r: Eval<Out<Port>>): Eval<Out<Port>> {
    if r.Got? then Got(r.value.(v := ReverseOnto(args, r.value.v))) else r
  }

  lemma ElementsParts(x: Scanner, fuel: nat, s: Port, args: Value)
    requires fuel > 0
    ensures var first := Datum(x, fuel - 1, s);
            Onto(args, Elements(x, fuel, s)) ==
              if !first.Got? then first
              else WithFrames(Onto(Pair(first.value.v, args), Rest(x, fuel - 1, x.element(first.value.s))),
                              1 + first.value.frames)
  {
  }

  /** The machine is about to save the frame of a list whose elements so far are on `args`. */
  lemma ElementsAgree(x: Scanner, fuel: nat, m: Machine<Port>, m1: Machine<Port>, args: Value) returns (k: nat, p: nat)
    requires fuel > 0 && StepRead(x, m) == Got(Next(m1))
    requires m1.op == RDSEXPR && m1.dump == m.dump + [Frame(RDLIST, args, m.envir, Nil)]
    ensures Agrees(Reading(x), fuel, Onto(args, Elements(x, fuel, m1.store)), m, k, p)
    decreases fuel, 1
  {
    var fr := Frame(RDLIST, args, m.envir, Nil);
    var first := Datum(x, fuel - 1, m1.store);
    ElementsParts(x, fuel, m1.store, args);
    k, p := FirstAgrees(x, fuel, m, m1, fr);
    if first.Got? {
      k, p := OthersAgree(x, fuel, m, fr, first, k, p);
    }
  }

  lemma FirstAgrees(x: Scanner, fuel: nat, m: Machine<Port>, m1: Machine<Port>, fr: Frame) returns (k: nat, p: nat)
    requires fuel > 0 && StepRead(x, m) == Got(Next(m1)) && m1.op == RDSEXPR && m1.dump == m.dump + [fr]
    ensures Part(Reading(x), fuel, Datum(x, fuel - 1, m1.store), fr, m, k, p)
    decreases fuel, 0
  {
    k, p := DatumAgrees(x, fuel - 1, m1);
    k, p := Push(Reading(x), fuel, m, m1, fr, Datum(x, fuel - 1, m1.store), k, p);
  }

  lemma OthersAgree(x: Scanner, fuel: nat, m: Machine<Port>, fr: Frame, first: Eval<Out<Port>>, k0: nat, p0: nat)
    returns (k: nat, p: nat)
    requires fuel > 0 && first.Got? && Part(Reading(x), fuel, first, fr, m, k0, p0) && fr.op == RDLIST
    ensures var rest := Rest(x, fuel - 1, x.element(first.value.s));
            Agrees(Reading(x), fuel, WithFrames(Onto(Pair(first.value.v, fr.args), rest), 1 + first.value.frames),
                   m, k, p)
    decreases fuel, 0
  {
    var k2, p2 := RestAgrees(x, fuel - 1, Resume(fr, first.value, m.dump));
    var rest := Rest(x, fuel - 1, x.element(first.value.s));
    k, p := PartThen(Reading(x), fuel, first, fr, m, k0, p0, Onto(Pair(first.value.v, fr.args), rest), k2, p2);
  }

  lemma RestAgrees(x: Scanner, fuel: nat, m: Machine<Port>) returns (k: nat, p: nat)
    requires m.op == RDLIST
    ensures Agrees(Reading(x), fuel, Onto(Pair(m.value, m.args), Rest(x, fuel, x.element(m.store))), m, k, p)
    decreases fuel, 2
  {
    k, p := 1, 0;
    var s := x.element(m.store);
    var args := Pair(m.value, m.args);
    if fuel == 0 {
    } else if s.token == CLOSE {
      Return(Reading(x), fuel, m, Out(ReverseOnto(args, Nil), x.closed(s), 0));
    } else if s.token == DOT {
      k, p := DotAgrees(x, fuel, m);
    } else {
      var m1 := m.(args := args, store := s).Save(RDLIST, args, Nil).(op := RDSEXPR);
      assert StepRead(x, m) == Got(Next(m1));
      k, p := ElementsAgree(x, fuel, m, m1, args);
    }
  }

  lemma DotAgrees(x: Scanner, fuel: nat, m: Machine<Port>) returns (k: nat, p: nat)
    requires fuel > 0 && m.op == RDLIST && x.element(m.store).token == DOT
    ensures Agrees(Reading(x), fuel, Onto(Pair(m.value, m.args), Rest(x, fuel, x.element(m.store))), m, k, p)
    decreases fuel, 1
  {
    var s := x.element(m.store);
    var args := Pair(m.value, m.args);
    var fr := Frame(RDDOT, args, m.envir, Nil);
    var m1 := m.(op := RDSEXPR, args := args, store := x.next(s), dump := m.dump + [fr]);
    assert StepRead(x, m) == Got(Next(m1));
    var k1, p1 := DatumAgrees(x, fuel - 1, m1);
    var tail := Datum(x, fuel - 1, x.next(s));
    k, p := Push(Reading(x), fuel, m, m1, fr, tail, k1, p1);
    if tail.Got? {
      DotStep(x, args, m.envir, tail.value, m.dump);
      var s1 := x.next(tail.value.s);
      if s1.token == CLOSE {
        k, p := PartThenReturn(Reading(x), fuel, tail, fr, m, k, p, ReverseOnto(args, tail.value.v),
                               CloseDotted(tail.value.s, s1));
      } else {
        k, p := PartThenFault(Reading(x), fuel, tail, fr, m, k, p);
      }
    }
  }

  lemma DotStep(x: Scanner, args: Value, e: nat, o: Out<Port>, d: seq<Frame>)
    ensures StepRead(x, Resume(Frame(RDDOT, args, e, Nil), o, d))
         == if x.next(o.s).token != CLOSE then Fault
            else Got(Ret(ReverseOnto(args, o.v), d, CloseDotted(o.s, x.next(o.s))))
  {
  }

  /** What the machine does when it reads a datum, in terms of the descent. */
  function DatumAnswer(x: Scanner, s: Port): Answers<Port> {
    (fuel: nat) => Datum(x, fuel, s)
  }

  lemma ReadingDescribed(x: Scanner, m: Machine<Port>)
    requires m.op == RDSEXPR
    ensures Described(Reading(x), DatumAnswer(x, m.store), m)
  {
    forall fuel: nat ensures Known(Reading(x), DatumAnswer(x, m.store), m, fuel) {
      var k, p := DatumAgrees(x, fuel, m);
      assert Agrees(Reading(x), fuel, DatumAnswer(x, m.store)(fuel), m, k, p);
    }
  }

  lemma MoreFuelSameDatum(x: Scanner, s: Port, a: nat, b: nat)
    ensures Datum(x, a, s) == Timeout || Datum(x, b, s) == Timeout || Datum(x, a, s) == Datum(x, b, s)
  {
    var m := Machine(RDSEXPR, Nil, 0, Nil, Nil, [], s);
    ReadingDescribed(x, m);
    FuelOnlyDelays(Reading(x), DatumAnswer(x, s), m, a, b);
  }
}
