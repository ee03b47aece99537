/** Reading what has been written. */
module ReadWrite {
  import opened Registers
  import opened MachineRuns
  import opened Adequacy
  import opened Lexer
  import opened AtomRoundTrip
  import opened Reader
  import opened Printer
  import opened Parsing
  import opened WrittenText
  import opened Layouts

  /** As the printer writes. */
  function AsWritten(): Spelling {
    Spelling(Text, TailText, Legible)
  }

  lemma TailShapes(v: Value)
    ensures TailShape(AsWritten(), v)
  {
    if !v.Pair? && v != Nil {
      Assoc(" . ", AtomText(v), ")");
    }
  }

  lemma PrinterSpells()
    ensures Spells(AsWritten())
  {
    var z := AsWritten();
    forall v ensures PartsLegible(z, v) {}
    forall v ensures PairText(z, v) {}
    forall v ensures TailShape(z, v) { TailShapes(v); }
    forall v ensures FirstFact(z, v) {
      if Legible(v) {
        FirstCharacter(v);
      }
    }
  }

  lemma AtomMoves(v: Value, s: Port)
    requires !v.Pair? && v != Nil && Before(v, s)
    ensures AtomMoved(v, s, EndOf(v, s.text, s.pos + |Text(v)|))
  {
    AtomReads(v, s.text, s.pos);
  }

  /** The text of the datum is next, and what follows does not change how it reads. */
  predicate Before(v: Value, s: Port) {
    Legible(v) && Spans(s.text, s.pos, Text(v)) && SetOff(v, s.text, s.pos + |Text(v)|)
  }

  lemma BeforeIsFacing(v: Value, s: Port)
    ensures FacingText(AsWritten(), v, s.text, s.pos) <==> Before(v, s)
    ensures AsWritten().text(v) == Text(v)
  {
  }

  lemma AtomsFit(v: Value, s: Port)
    ensures AtomFact(Program(), LayoutOf(AsWritten()), v, s)
  {
    BeforeIsFacing(v, s);
    if !v.Pair? && v != Nil && Before(v, s) {
      AtomMoves(v, s);
    }
    AtomFits(AsWritten(), v, s);
  }

  lemma AllFits()
    ensures Fit(Program(), LayoutOf(AsWritten()))
  {
    PrinterSpells();
    forall v, s: Port ensures AtomFact(Program(), LayoutOf(AsWritten()), v, s) { AtomsFit(v, s); }
    ProgramFits(AsWritten());
  }

  /** Reading a datum that has been written gives it back to the dump that reading began with, leaves
      the reader behind it with as many parentheses open as before, and does so exactly if the datum is
      not ambiguous. */
  lemma ReadsBackIff(v: Value, s: Port, q: nat, m: Machine<Port>)
    requires AboutToRead(AsWritten(), v, s, q, m)
    ensures ReadsBackExactlyIf(Program(), v, s, q, Unambiguous(v), m)
  {
    AllFits();
    MachineReadsWritten(AsWritten(), v, s, q, m);
  }

  lemma WrittenIsBefore(v: Value, front: string, rest: string, s: Port)
    requires Legible(v) && s.text == front + Text(v) + rest && s.pos == |front|
    requires SelfEnded(v) || rest == "" || rest[0] in DELIMITERS
    ensures FacingText(AsWritten(), v, s.text, s.pos)
  {
    BeforeIsFacing(v, s);
    var t, q := s.text, s.pos + |Text(v)|;
    assert t[s.pos..q] == Text(v);
    if !SelfEnded(v) {
      WordEnds(t, q, rest);
    }
  }

  lemma WordEnds(t: string, q: nat, rest: string)
    requires q + |rest| == |t| && t[q..] == rest && (rest == "" || rest[0] in DELIMITERS)
    ensures WordEnd(t, q)
  {
    if rest != "" {
      assert t[q] == rest[0];
    }
  }

  /** What the printing machine adds to a text is what `ReadsBackIff` asks for, wherever it is put and
      whatever comes after it, so long as that does not run on from the last word. */
  lemma WrittenIsReadable(pm: Machine<string>, rest: string, before: Port, q: nat, rm: Machine<Port>)
    requires pm.op == P0LIST && Legible(pm.args)
    requires before.text == pm.store + Text(pm.args) + rest && before.pos == |pm.store|
    requires SelfEnded(pm.args) || rest == "" || rest[0] in DELIMITERS
    requires rm.op == RDSEXPR && rm.store == Lex(before)
    requires q == EndOf(pm.args, before.text, before.pos + |AsWritten().text(pm.args)|)
    ensures Returns(StepPrint, pm, Out(True, pm.store + Text(pm.args), Depth(pm.args)))
    ensures AboutToRead(AsWritten(), pm.args, before, q, rm)
  {
    WrittenIsBefore(pm.args, pm.store, rest, before);
    WritesText(pm);
  }

  /** A name without colons that begins neither like a number nor like something else. */
  lemma PlainName(name: string)
    requires Unbroken(name) && name != "" && name != "\\"
    requires Starts(name[0]) && !IsDigit(name[0]) && name[0] != '+' && name[0] != '-'
    requires forall i | 0 <= i < |name| :: name[i] != ':'
    ensures SymbolOk(name)
  {
    NoColons(name, 0);
  }

  lemma UnquoteIsName()
    ensures SymbolOk("unquote")
  {
    PlainName("unquote");
  }

  lemma AtIsName()
    ensures SymbolOk("@a")
  {
    PlainName("@a");
  }

  /** The least ambiguous datum: `(unquote @a)` is written as `,@a`. */
  lemma AmbiguityExists()
    ensures var v := Pair(Sym("unquote"), Pair(Sym("@a"), Nil));
            Legible(v) && !Unambiguous(v) && Text(v) == ",@a"
  {
    UnquoteIsName();
    AtIsName();
    var x := Pair(Sym("@a"), Nil);
    assert Legible(x);
    assert Abbreviated(Pair(Sym("unquote"), x)) && Ambiguous(Pair(Sym("unquote"), x));
  }
}
