/** The opcodes of `opexe_5` that read and print, on a string port and on the registers, and the loops
    that execute them. */
module TextInterpreter {
  import opened Registers
  import opened RegisterFile
  import opened MachineRuns
  import opened Adequacy
  import opened TextPort
  import L = Lexer
  import R = Reader
  import P = Printer
  import E = ReaderEnds

  /** What the reader keeps beside its registers and the port's cursor. */
  datatype ReadState = ReadState(token: L.Token, nesting: int, load: bool)

  function PortOf(text: string, curr: nat, st: ReadState): R.PortState {
    R.PortState(text, curr, st.token, st.nesting, st.load)
  }

  function StoreOf(port: InputPort, st: ReadState): R.Port
    requires port.Valid()
    reads port
  {
    PortOf(port.text, port.curr, st)
  }

  function WithStore<S, T>(m: Machine<S>, s: T): Machine<T> {
    Machine(m.op, m.args, m.envir, m.code, m.value, m.dump, s)
  }

  /** The reading machine as registers and port show it. */
  function View(sc: Scheme<ReadState>, port: InputPort): Machine<R.Port>
    requires port.Valid()
    reads sc, port
  {
    WithStore(sc.State(), StoreOf(port, sc.store))
  }

  lemma ReturnSeen<S, T>(v: Value, dump: seq<Frame>, st: S, r: Outcome, after: Machine<S>, s: T)
    requires Did(Got(Ret(v, dump, st)), r, after)
    ensures Did(Got(Ret(v, dump, s)), r, WithStore(after, s)) && after.store == st
  {
  }

  // ---------------------------------------------------------------------------
  // Along the text
  // ---------------------------------------------------------------------------

  /** `sc->tok = token(sc)`. */
  method NextToken(sc: Scheme<ReadState>, port: InputPort)
    requires port.Valid()
    modifies sc`store, port
    ensures port.Valid() && View(sc, port) == old(View(sc, port)).(store := R.Lex(old(StoreOf(port, sc.store))))
  {
    var token := port.Token();
    sc.store := sc.store.(token := token);
  }

  method SkipLine(port: InputPort)
    requires port.Valid()
    modifies port
    ensures port.Valid() && port.curr == R.SkipLine(port.text, old(port.curr))
  {
    ghost var before := port.curr;
    var c := port.Inchar();
    while c != '\n' as int && c != L.EOF
      invariant port.Valid() && before <= |port.text| && (c, port.curr) == L.Inchar(port.text, before)
      invariant R.SkipLine(port.text, before) == R.SkipLine(port.text, old(port.curr))
      decreases |port.text| - before
    {
      before := port.curr;
      c := port.Inchar();
    }
  }

  method SkipComment(sc: Scheme<ReadState>, port: InputPort)
    requires port.Valid()
    modifies sc`store, port
    ensures port.Valid() && View(sc, port) == old(View(sc, port)).(store := R.SkipComment(old(StoreOf(port, sc.store))))
  {
    SkipLine(port);
    NextToken(sc, port);
  }

  method NextElement(sc: Scheme<ReadState>, port: InputPort)
    requires port.Valid()
    modifies sc`store, port
    ensures port.Valid() && View(sc, port) == old(View(sc, port)).(store := R.LexElement(old(StoreOf(port, sc.store))))
  {
    NextToken(sc, port);
    if sc.store.token == L.COMMENT {
      SkipComment(sc, port);
    }
  }

  method CloseList(sc: Scheme<ReadState>, port: InputPort)
    requires port.Valid()
    modifies sc`store, port
    ensures port.Valid() && View(sc, port) == old(View(sc, port)).(store := R.CloseList(old(StoreOf(port, sc.store))))
  {
    var c := port.Inchar();
    if c != '\n' as int {
      port.Backchar(c);
    }
    sc.store := sc.store.(nesting := sc.store.nesting - 1);
  }

  /** An atom, of the kind that the token says. */
  method ReadAtom(token: L.Token, port: InputPort) returns (v: Eval<Value>)
    requires port.Valid()
    modifies port
    ensures port.Valid() && !v.Timeout?
    ensures var a := L.ReadAtom(port.text, token, old(port.curr));
            if a.Got? then v == Got(a.value.0) && port.curr == a.value.1 else v == Fault
  {
    if token == L.ATOM {
      var word := port.ReadStrUpTo();
      v := Got(L.MkAtom(word));
    } else if token == L.DQUOTE {
      var s := port.ReadStrExp();
      v := if s.Got? then Got(Str(s.value)) else Fault;
    } else if token == L.SHARPCONST {
      var word := port.ReadStrUpTo();
      v := L.MkSharpConst(word);
    } else {
      v := Fault;
    }
  }

  // ---------------------------------------------------------------------------
  // The opcodes of the reader
  // ---------------------------------------------------------------------------

  method Return(sc: Scheme<ReadState>, port: InputPort, v: Value) returns (r: Outcome)
    requires port.Valid()
    modifies sc
    ensures Did(Got(Ret(v, old(sc.dump), old(StoreOf(port, sc.store)))), r, View(sc, port))
  {
    ghost var dump, st := sc.dump, sc.store;
    r := sc.SReturn(v);
    ReturnSeen(v, dump, st, r, sc.State(), StoreOf(port, st));
  }

  method OpRdSexpr(sc: Scheme<ReadState>, port: InputPort) returns (r: Outcome)
    requires port.Valid() && sc.op == RDSEXPR
    modifies sc, port
    ensures port.Valid() && Did(R.StepRead(R.Program(), old(View(sc, port))), r, View(sc, port))
  {
    var token := sc.store.token;
    if token == L.END {
      if sc.store.load {
        return Failed;
      }
      r := Return(sc, port, EofObj);
    } else if token == L.COMMENT {
      SkipComment(sc, port);
      r := sc.Goto(RDSEXPR);
    } else if token == L.OPEN {
      r := OpenList(sc, port);
    } else if token in {L.TICK, L.BACKTICK, L.COMMA, L.ATMARK} {
      r := OpenSign(sc, port);
    } else {
      var v := ReadAtom(token, port);
      if v.Fault? {
        return Failed;
      }
      r := Return(sc, port, v.value);
    }
  }

  method OpenList(sc: Scheme<ReadState>, port: InputPort) returns (r: Outcome)
    requires port.Valid() && sc.op == RDSEXPR && sc.store.token == L.OPEN
    modifies sc, port
    ensures port.Valid() && Did(R.StepRead(R.Program(), old(View(sc, port))), r, View(sc, port))
  {
    NextToken(sc, port);
    if sc.store.token == L.CLOSE {
      r := Return(sc, port, Nil);
    } else if sc.store.token == L.DOT {
      r := Failed;
    } else {
      sc.store := sc.store.(nesting := sc.store.nesting + 1);
      sc.SSave(RDLIST, Nil, Nil);
      r := sc.Goto(RDSEXPR);
    }
  }

  method OpenSign(sc: Scheme<ReadState>, port: InputPort) returns (r: Outcome)
    requires port.Valid() && sc.op == RDSEXPR && sc.store.token in {L.TICK, L.BACKTICK, L.COMMA, L.ATMARK}
    modifies sc, port
    ensures port.Valid() && Did(R.StepRead(R.Program(), old(View(sc, port))), r, View(sc, port))
  {
    var token := sc.store.token;
    NextToken(sc, port);
    if token == L.BACKTICK && sc.store.token == L.VEC {
      return Failed;
    }
    sc.SSave(R.Quoting(token), Nil, Nil);
    r := sc.Goto(RDSEXPR);
  }

  method OpRdList(sc: Scheme<ReadState>, port: InputPort) returns (r: Outcome)
    requires port.Valid() && sc.op == RDLIST
    modifies sc, port
    ensures port.Valid() && Did(R.StepRead(R.Program(), old(View(sc, port))), r, View(sc, port))
  {
    ghost var m := View(sc, port);
    sc.args := Pair(sc.value, sc.args);
    NextElement(sc, port);
    r := AfterElement(sc, port, R.Program());
    assert R.StepRead(R.Program(), m) ==
           R.StepList(R.Program(), m.(args := Pair(m.value, m.args), store := R.LexElement(m.store)));
  }

  /** `OP_RDLIST`, when the element is on `args` and the next token is read. */
  method AfterElement(sc: Scheme<ReadState>, port: InputPort, ghost x: R.Scanner) returns (r: Outcome)
    requires port.Valid() && sc.op == RDLIST && x == R.Program()
    modifies sc, port
    ensures port.Valid() && Did(R.StepList(x, old(View(sc, port))), r, View(sc, port))
  {
    if sc.store.token == L.CLOSE {
      CloseList(sc, port);
      r := Return(sc, port, ReverseOnto(sc.args, Nil));
    } else if sc.store.token == L.DOT {
      sc.SSave(RDDOT, sc.args, Nil);
      NextToken(sc, port);
      r := sc.Goto(RDSEXPR);
    } else {
      sc.SSave(RDLIST, sc.args, Nil);
      r := sc.Goto(RDSEXPR);
    }
  }

  /** The token after the datum is looked at and forgotten. */
  method OpRdDot(sc: Scheme<ReadState>, port: InputPort) returns (r: Outcome)
    requires port.Valid() && sc.op == RDDOT
    modifies sc, port
    ensures port.Valid() && Did(R.StepRead(R.Program(), old(View(sc, port))), r, View(sc, port))
  {
    var token := port.Token();
    if token != L.CLOSE {
      return Failed;
    }
    sc.store := sc.store.(nesting := sc.store.nesting - 1);
    r := Return(sc, port, ReverseOnto(sc.args, sc.value));
  }

  method Read(sc: Scheme<ReadState>, port: InputPort) returns (r: Outcome)
    requires port.Valid()
    modifies sc, port
    ensures port.Valid() && Did(R.StepRead(R.Program(), old(View(sc, port))), r, View(sc, port))
  {
    if sc.op == RDSEXPR {
      r := OpRdSexpr(sc, port);
    } else if sc.op == RDLIST {
      r := OpRdList(sc, port);
    } else if sc.op == RDDOT {
      r := OpRdDot(sc, port);
    } else if R.IsQuotation(sc.op) {
      r := Return(sc, port, Pair(R.Quotation(sc.op), Pair(sc.value, Nil)));
    } else {
      r := Failed;
    }
  }

  // ---------------------------------------------------------------------------
  // The opcodes of the printer
  // ---------------------------------------------------------------------------

  /** `printatom`. */
  method PrintAtom(v: Value) returns (text: string)
    ensures text == L.AtomText(v)
  {
    if v.Str? {
      text := PrintSlashString(v.chars);
    } else {
      text := L.AtomText(v);
    }
  }

  method OpP0List(sc: Scheme<string>) returns (r: Outcome)
    requires sc.op == P0LIST
    modifies sc
    ensures Did(P.StepPrint(old(sc.State())), r, sc.State())
  {
    if !sc.args.Pair? {
      var text := PrintAtom(sc.args);
      sc.store := sc.store + text;
      r := sc.SReturn(True);
    } else if P.Abbreviated(sc.args) {
      sc.store := sc.store + P.Sign(sc.args.car);
      sc.args := sc.args.cdr.car;
      r := sc.Goto(P0LIST);
    } else {
      sc.store := sc.store + "(";
      sc.SSave(P1LIST, sc.args.cdr, Nil);
      sc.args := sc.args.car;
      r := sc.Goto(P0LIST);
    }
  }

  method OpP1List(sc: Scheme<string>) returns (r: Outcome)
    requires sc.op == P1LIST
    modifies sc
    ensures Did(P.StepPrint(old(sc.State())), r, sc.State())
  {
    if sc.args.Pair? {
      sc.SSave(P1LIST, sc.args.cdr, Nil);
      sc.store := sc.store + " ";
      sc.args := sc.args.car;
      r := sc.Goto(P0LIST);
    } else {
      var end := ")";
      if sc.args != Nil {
        var text := PrintAtom(sc.args);
        end := " . " + text + end;
      }
      assert end == P.ListEnd(sc.args);
      sc.store := sc.store + end;
      r := sc.SReturn(True);
    }
  }

  method Print(sc: Scheme<string>) returns (r: Outcome)
    modifies sc
    ensures Did(P.StepPrint(old(sc.State())), r, sc.State())
  {
    if sc.op == P0LIST {
      r := OpP0List(sc);
    } else if sc.op == P1LIST {
      r := OpP1List(sc);
    } else {
      r := Failed;
    }
  }

  // ---------------------------------------------------------------------------
  // The loops
  // ---------------------------------------------------------------------------

  /** `k` more opcodes lead to this end, at which the machine has stopped. */
  predicate Leads<S(==)>(f: Stepper<S>, m: Machine<S>, k: nat, end: Eval<Status<S>>) {
    After(f, m, k) == end && (end.Got? ==> end.value.Stop?)
  }

  /** A machine on the way to that end, or there. */
  predicate OnTheWay<S(==)>(f: Stepper<S>, r: Outcome, m: Machine<S>, k: nat, end: Eval<Status<S>>) {
    if r == Running then Leads(f, m, k, end) else Did(end, r, m)
  }

  lemma OneOpcode<S>(f: Stepper<S>, m: Machine<S>, k: nat, end: Eval<Status<S>>, r: Outcome, after: Machine<S>)
    requires OnTheWay(f, Running, m, k, end) && Did(f(m), r, after)
    ensures k > 0 && OnTheWay(f, r, after, k - 1, end)
  {
    Unroll(f, m, k);
  }

  ghost predicate IsReader(f: Stepper<R.Port>) {
    f == R.Reading(R.Program())
  }

  method ReadOne(sc: Scheme<ReadState>, port: InputPort, ghost f: Stepper<R.Port>, ghost n: nat,
                 ghost end: Eval<Status<R.Port>>)
    returns (r: Outcome)
    requires port.Valid() && IsReader(f) && OnTheWay(f, Running, View(sc, port), n, end)
    modifies sc, port
    ensures port.Valid() && n > 0 && OnTheWay(f, r, View(sc, port), n - 1, end)
  {
    ghost var before := View(sc, port);
    r := Read(sc, port);
    OneOpcode(f, before, n, end, r, View(sc, port));
  }

  /** The opcodes of the reader, one after the other. */
  method ReadOn(sc: Scheme<ReadState>, port: InputPort, ghost f: Stepper<R.Port>, ghost k: nat,
                ghost end: Eval<Status<R.Port>>)
    returns (r: Outcome)
    requires port.Valid() && IsReader(f) && OnTheWay(f, Running, View(sc, port), k, end)
    modifies sc, port
    ensures port.Valid() && r != Running && Did(end, r, View(sc, port))
  {
    ghost var n := k;
    r := Running;
    while r == Running
      invariant port.Valid() && OnTheWay(f, r, View(sc, port), n, end)
      decreases n, r == Running
    {
      r := ReadOne(sc, port, f, n, end);
      n := n - 1;
    }
  }

  /** What a run that has ended has come to. */
  lemma EndSeen(m: Machine<R.Port>, k: nat, r: Outcome, after: Machine<R.Port>)
    requires m.op == RDSEXPR && m.dump == [] && E.EndsIn(m, k, E.Verdicts(m.store))
    requires E.Verdicts(m.store) != E.NeverComplete && Did(After(R.Reading(R.Program()), m, k), r, after)
    ensures r == Failed <==> E.Verdicts(m.store) == E.Broken
    ensures r == Stopped ==> EndsWith(R.Reading(R.Program()), m, Got(Stop(after.value, after.store)))
  {
    assert r == Stopped ==> After(R.Reading(R.Program()), m, k) == Got(Stop(after.value, after.store));
  }

  /** Reading, where the walk over the tokens says that it ends. */
  method ReadToTheEnd(sc: Scheme<ReadState>, port: InputPort) returns (r: Outcome)
    requires port.Valid() && sc.op == RDSEXPR && sc.dump == []
    requires E.Verdicts(StoreOf(port, sc.store)) != E.NeverComplete
    modifies sc, port
    ensures port.Valid() && r != Running
    ensures r == Failed <==> E.Verdicts(old(StoreOf(port, sc.store))) == E.Broken
    ensures r == Stopped ==>
      EndsWith(R.Reading(R.Program()), old(View(sc, port)), Got(Stop(sc.value, StoreOf(port, sc.store))))
  {
    ghost var m := View(sc, port);
    assert E.View(m) == E.Spot(m.store, true, []);
    ghost var k := E.WalkEnds(m);
    r := ReadOn(sc, port, R.Reading(R.Program()), k, After(R.Reading(R.Program()), m, k));
    EndSeen(m, k, r, View(sc, port));
  }

  /** Printing always ends, with the text of the datum behind what there was. */
  method PrintToTheEnd(sc: Scheme<string>) returns (r: Outcome)
    requires sc.op == P0LIST && sc.dump == []
    modifies sc
    ensures r == Stopped && sc.store == old(sc.store) + P.Text(old(sc.args))
  {
    ghost var m := sc.State();
    ghost var k, p := P.DatumWritten(m);
    ghost var end, n := After(P.StepPrint, m, k), k;
    r := Running;
    while r == Running
      invariant OnTheWay(P.StepPrint, r, sc.State(), n, end)
      decreases n, r == Running
    {
      ghost var before := sc.State();
      r := Print(sc);
      OneOpcode(P.StepPrint, before, n, end, r, sc.State());
      n := n - 1;
    }
  }
}
