/** Writing a datum and reading it back, with the loops of the interpreter on a string port. */
module WriteRead {
  import opened Registers
  import opened RegisterFile
  import opened MachineRuns
  import opened Adequacy
  import opened Lexer
  import opened AtomRoundTrip
  import opened Reader
  import opened Printer
  import opened Parsing
  import opened WrittenText
  import opened Layouts
  import opened ReadWrite
  import opened ReaderEnds
  import opened TextPort
  import T = TextInterpreter

  // ---------------------------------------------------------------------------
  // Runs with an empty dump
  // ---------------------------------------------------------------------------

  lemma StopIsReturn(x: Scanner, m: Machine<Port>, v: Value, s1: Port) returns (o: Out<Port>)
    requires m.op == RDSEXPR && m.dump == [] && EndsWith(Reading(x), m, Got(Stop(v, s1)))
    ensures Returns(Reading(x), m, o) && o.v == v && o.s == s1
  {
    var f, answer := Reading(x), DatumAnswer(x, m.store);
    ReadingDescribed(x, m);
    EndsIff(f, answer, m, Got(Stop(v, s1)));
    var fuel: nat :| !answer(fuel).Timeout? && Ending(answer(fuel)) == Got(Stop(v, s1));
    o := answer(fuel).value;
    ReturnsIff(f, answer, m, o);
  }

  lemma ReturnIsStop<S>(f: Stepper<S>, m: Machine<S>, o: Out<S>, v: Value, s1: S)
    requires m.dump == [] && Returns(f, m, o) && EndsWith(f, m, Got(Stop(v, s1)))
    ensures o.v == v && o.s == s1
  {
    var k: nat, p: nat :| ReturnsAt(f, m, o, k, p);
    var j: nat :| After(f, m, j) == Got(Stop(v, s1));
    OneEnd(f, m, j, k);
  }

  /** What has been read is what was written exactly if that is not ambiguous; and then the reader is
      behind it. */
  lemma ReadIsWritten(v: Value, s: Port, q: nat, m: Machine<Port>, w: Value, s1: Port)
    requires m.dump == [] && AboutToRead(AsWritten(), v, s, q, m)
    requires EndsWith(Reading(Program()), m, Got(Stop(w, s1)))
    ensures w == v <==> Unambiguous(v)
    ensures w == v ==> Stands(s1, s, q, s.nesting)
  {
    var f := Reading(Program());
    ReadsBackIff(v, s, q, m);
    if w == v {
      var o := StopIsReturn(Program(), m, w, s1);
    }
    if Unambiguous(v) {
      var o :| Returns(f, m, o) && o.v == v;
      ReturnIsStop(f, m, o, w, s1);
    }
  }

  lemma UnambiguousEnds(v: Value, s: Port, q: nat, m: Machine<Port>)
    requires AboutToRead(AsWritten(), v, s, q, m) && Unambiguous(v)
    ensures Verdicts(m.store) == Complete
  {
    ReadsBackIff(v, s, q, m);
    ReadingReturnsIff(m);
  }

  // ---------------------------------------------------------------------------
  // The loops together
  // ---------------------------------------------------------------------------

  method WriteDatum(v: Value) returns (text: string)
    ensures text == Text(v)
  {
    var sc := new Scheme(P0LIST, v, 0, Nil, "");
    var r := T.PrintToTheEnd(sc);
    text := sc.store;
    assert "" + Text(v) == Text(v);
  }

  const UNREAD: T.ReadState := T.ReadState(END, 0, false)

  /** The machine with the first token read, and nothing on the dump. */
  function Beginning(s: Port): Machine<Port> {
    Machine(RDSEXPR, Nil, 0, Nil, Nil, [], Lex(s))
  }

  /** Reading from `s` on comes to the datum `v`, and to `s1`. */
  ghost predicate ReadsTo(s: Port, v: Value, s1: Port) {
    EndsWith(Reading(Program()), Beginning(s), Got(Stop(v, s1)))
  }

  /** `read` on a string port: the first token, and then the datum. */
  method ReadDatum(port: InputPort) returns (r: Outcome, v: Value, st: T.ReadState)
    requires port.Valid() && Verdicts(Lex(T.StoreOf(port, UNREAD))) != NeverComplete
    modifies port
    ensures port.Valid() && (r == Stopped || r == Failed)
    ensures r == Failed <==> Verdicts(Lex(old(T.StoreOf(port, UNREAD)))) == Broken
    ensures r == Stopped ==> ReadsTo(old(T.StoreOf(port, UNREAD)), v, T.StoreOf(port, st))
  {
    ghost var s := T.StoreOf(port, UNREAD);
    var sc := new Scheme(RDSEXPR, Nil, 0, Nil, UNREAD);
    T.NextToken(sc, port);
    assert T.View(sc, port) == Beginning(s);
    r := T.ReadToTheEnd(sc, port);
    v, st := sc.value, sc.store;
  }

  /** A written datum comes, wherever it has been put and whatever comes after it. */
  lemma WrittenComes(v: Value, front: string, rest: string, s: Port, q: nat)
    requires Legible(v) && s.text == front + Text(v) + rest && s.pos == |front|
    requires SelfEnded(v) || rest == "" || rest[0] in DELIMITERS
    requires q == EndOf(v, s.text, s.pos + |AsWritten().text(v)|)
    ensures AboutToRead(AsWritten(), v, s, q, Beginning(s))
  {
    WrittenIsBefore(v, front, rest, s);
  }

  /** A datum is read where it has been written: what is read is the datum exactly if that is not
      ambiguous, and then the port stands behind it with no parenthesis left open. */
  method ReadBack(port: InputPort, ghost v: Value, ghost q: nat) returns (r: Outcome, w: Value, st: T.ReadState)
    requires port.Valid() && AboutToRead(AsWritten(), v, T.StoreOf(port, UNREAD), q, Beginning(T.StoreOf(port, UNREAD)))
    requires Unambiguous(v) || Verdicts(Lex(T.StoreOf(port, UNREAD))) != NeverComplete
    modifies port
    ensures port.Valid() && (r == Stopped && w == v <==> Unambiguous(v))
    ensures Unambiguous(v) ==> port.curr == q && st.nesting == 0
  {
    ghost var s := T.StoreOf(port, UNREAD);
    if Unambiguous(v) {
      UnambiguousEnds(v, s, q, Beginning(s));
    }
    r, w, st := ReadDatum(port);
    if r == Stopped {
      ReadIsWritten(v, s, q, Beginning(s), w, T.StoreOf(port, st));
    }
  }

  /** Out and in again. */
  method WriteThenRead(v: Value) returns (text: string, w: Value)
    requires Legible(v) && Unambiguous(v)
    ensures text == Text(v) && w == v
  {
    text := WriteDatum(v);
    TextIsBytes(v);
    var port := new InputPort(text);
    ghost var q := WrittenAlone(v, T.StoreOf(port, UNREAD));
    var r, st;
    r, w, st := ReadBack(port, v, q);
  }

  lemma WrittenAlone(v: Value, s: Port) returns (q: nat)
    requires Legible(v) && s.text == Text(v) && s.pos == 0
    ensures AboutToRead(AsWritten(), v, s, q, Beginning(s))
  {
    q := EndOf(v, s.text, s.pos + |AsWritten().text(v)|);
    assert s.text == "" + Text(v) + "";
    WrittenComes(v, "", "", s, q);
  }

  // ---------------------------------------------------------------------------
  // What is written is bytes
  // ---------------------------------------------------------------------------

  lemma {:induction false} EscapedIsBytes(s: string)
    requires StringOk(s)
    ensures IsBytes(EscapedText(s))
    decreases |s|
  {
    if s != [] {
      EscapedIsBytes(s[1..]);
    }
  }

  lemma {:induction false} DecimalIsBytes(n: nat)
    ensures IsBytes(Decimal(n))
    decreases n
  {
    if n >= 10 {
      DecimalIsBytes(n / 10);
    }
  }

  lemma CharIsBytes(c: char)
    requires c as int < 128
    ensures IsBytes(CharText(c))
  {
    if (c as int) < 32 {
      assert IsBytes(CHAR_NAMES[c as int]) by {
        NamesAreBytes(c as int);
      }
    }
  }

  lemma NamesAreBytes(i: nat)
    requires i < 32
    ensures IsBytes(CHAR_NAMES[i])
  {
    forall j | 0 <= j < |CHAR_NAMES[i]| ensures CHAR_NAMES[i][j] as int < 256 {
      NameLetters(i, j);
    }
  }

  lemma AtomIsBytes(v: Value)
    requires AtomOk(v)
    ensures IsBytes(AtomText(v))
  {
    match v
    case Num(n) => DecimalIsBytes(if n < 0 then -n else n);
    case Str(s) => EscapedIsBytes(s);
    case Char(c) => CharIsBytes(c);
    case _ =>
  }

  lemma {:induction false} TextIsBytes(v: Value)
    requires Legible(v)
    ensures IsBytes(Text(v)) && IsBytes(TailText(v))
    decreases v
  {
    if v.Pair? {
      TextIsBytes(v.car);
      TextIsBytes(v.cdr);
      if Abbreviated(v) {
        TextIsBytes(v.cdr.car);
      }
    } else {
      AtomIsBytes(v);
    }
  }
}
