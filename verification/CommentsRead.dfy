/** What the program's reader makes of comments. */
module CommentsRead {
  import opened Registers
  import opened MachineRuns
  import opened Adequacy
  import opened Lexer
  import opened AtomRoundTrip
  import opened Reader
  import opened Printer
  import opened Parsing
  import opened WrittenText
  import opened Layouts
  import opened ReadWrite
  import opened Comments
  import opened CommentedText

  predicate WrittenWell(v: Value) {
    Legible(v) && Unambiguous(v)
  }

  /** As the printer writes. */
  function Plain(): Style {
    Style(Text, WrittenWell, SelfEnded, EndOf)
  }

  // ---------------------------------------------------------------------------
  // The program's scanner
  // ---------------------------------------------------------------------------

  lemma SignToken(sign: Value, t: string, p: nat)
    requires Sign(sign) != "" && p < |t| && t[p] == Sign(sign)[0]
    requires sign == Sym("unquote") ==> Apart(t, p + 1)
    requires sign == Sym("unquote-splicing") ==> p + 1 < |t| && t[p + 1] == '@'
    ensures var (token, q) := TokenAt(t, p);
            IsQuoteToken(token) && Quotation(Quoting(token)) == sign && q == p + |Sign(sign)|
  {
    if sign == Sym("unquote") {
      CommaToken(t, p);
    } else if sign == Sym("unquote-splicing") {
      CommaToken(t, p);
    } else if sign == Sym("quote") {
      assert TokenAt(t, p) == (TICK, p + 1);
    } else {
      assert TokenAt(t, p) == (BACKTICK, p + 1);
    }
  }

  lemma CommaToken(t: string, p: nat)
    requires p + 1 < |t| && t[p] == ',' && 0 < t[p + 1] as int < 255
    ensures TokenAt(t, p) == if t[p + 1] == '@' then (ATMARK, p + 2) else (COMMA, p + 1)
  {
    var c := Inchar(t, p + 1).0;
    assert Inchar(t, p) == (',' as int, p + 1);
  }

  lemma SignedHolds(sign: Value, s: Port)
    ensures SignedFact(Program(), sign, s)
  {
    if Sign(sign) != "" && Spans(s.text, s.pos, Sign(sign))
       && (sign == Sym("unquote") ==> Apart(s.text, s.pos + 1)) {
      SpansAt(s.text, s.pos, Sign(sign), 0);
      if sign == Sym("unquote-splicing") {
        SpansAt(s.text, s.pos, Sign(sign), 1);
      }
      FirstToken(s.text, s.pos);
      SignToken(sign, s.text, s.pos);
    }
  }

  lemma ClosedHolds(s: Port)
    ensures ClosedFact(Program(), s)
  {
    if Sees(s, ')') {
      LexClose(s);
    }
  }

  lemma PointHolds(s: Port)
    ensures PointFact(Program(), s)
  {
    if Spans(s.text, s.pos, ". ") {
      SpansAt(s.text, s.pos, ". ", 0);
      SpansAt(s.text, s.pos, ". ", 1);
      FirstToken(s.text, s.pos);
    }
  }

  lemma OpenedHolds(s: Port)
    ensures OpenedFact(Program(), s)
  {
    if Sees(s, '(') {
      LexOpen(s);
    }
  }

  lemma PlainHolds(s: Port)
    ensures PlainFact(Program(), s)
  {
    NestFits(s);
  }

  lemma ProgramLexes()
    ensures Lexes(Program())
  {
    var x := Program();
    forall bang, line, s: Port ensures CommentFact(x, bang, line, s) {
      if PlainLine(line) && Spans(s.text, s.pos, CommentLine(bang, line)) {
        CommentSkipped(s, bang, line);
      }
    }
    forall blanks, s: Port ensures SpaceFact(x, blanks, s) {
      if Blank(blanks) && Spans(s.text, s.pos, blanks) {
        BlanksSkipped(s, blanks);
      }
    }
    forall sign, s: Port ensures SignedFact(x, sign, s) { SignedHolds(sign, s); }
    forall s: Port ensures OpenedFact(x, s) { OpenedHolds(s); }
    forall s: Port ensures ClosedFact(x, s) { ClosedHolds(s); }
    forall s: Port ensures PointFact(x, s) { PointHolds(s); }
    forall s: Port ensures PlainFact(x, s) { PlainHolds(s); }
  }

  // ---------------------------------------------------------------------------
  // The printer's style
  // ---------------------------------------------------------------------------

  lemma LayoutSees(z: Spelling, v: Value, s: Port)
    ensures Facing(LayoutOf(z), v, s) == FacingText(z, v, s.text, s.pos)
    ensures End(LayoutOf(z), v, s) == EndOf(v, s.text, s.pos + |z.text(v)|)
  {
  }

  /** A style that writes this datum as a spelling does. */
  predicate WritesAs(z: Spelling, w: Style, v: Value, t: string, q: nat) {
    && w.text(v) == z.text(v) && w.ended(v) == SelfEnded(v) && w.end(v, t, q) == EndOf(v, t, q)
    && (w.good(v) ==> z.legible(v) && Unambiguous(v))
  }

  lemma PlainWritesAs(v: Value, t: string, q: nat)
    ensures WritesAs(AsWritten(), Plain(), v, t, q)
  {
  }

  lemma ReadHolds(v: Value, fuel: nat, s: Port)
    requires Fit(Program(), LayoutOf(AsWritten()))
    ensures ReadFact(Program(), Plain(), v, fuel, s)
  {
    PlainWritesAs(v, s.text, s.pos + |Plain().text(v)|);
    WrittenReads(Program(), AsWritten(), Plain(), v, fuel, s);
  }

  lemma WrittenReads(x: Scanner, z: Spelling, w: Style, v: Value, fuel: nat, s: Port)
    requires Fit(x, LayoutOf(z)) && WritesAs(z, w, v, s.text, s.pos + |w.text(v)|)
    ensures ReadFact(x, w, v, fuel, s)
  {
    LayoutSees(z, v, s);
    if Facing(LayoutOf(z), v, s) && Unambiguous(v) {
      FacingReads(x, LayoutOf(z), v, fuel, s);
    }
  }

  lemma FacingReads(x: Scanner, y: Layout, v: Value, fuel: nat, s: Port)
    requires Fit(x, y) && Unambiguous(v) && Facing(y, v, s)
    ensures IsStart(x.next(s).token)
    ensures fuel >= Size(v) ==> Reads(Datum(x, fuel, x.next(s)), v, s, End(y, v, s), s.nesting)
  {
    assert StartFact(x, y, v, s);
    if fuel >= Size(v) {
      DatumReads(x, y, fuel, v, s);
    }
  }

  lemma PlainIsStyled()
    ensures Styled(Program(), Plain())
  {
    AllFits();
    forall v, fuel: nat, s: Port ensures ReadFact(Program(), Plain(), v, fuel, s) { ReadHolds(v, fuel, s); }
    forall v, t: string, q: nat ensures InsideFact(Plain(), v, t, q) {
      if q < |t| && (t[q] == ' ' || t[q] == ')') {
        InnerEnd(v, t, q);
      }
    }
  }

  // ---------------------------------------------------------------------------
  // Reading with comments
  // ---------------------------------------------------------------------------

  /** The machine is about to read such a text, and what follows it does not run on from it. */
  predicate AboutToReadDoc(x: Scanner, w: Style, d: Doc, s: Port, m: Machine<Port>) {
    Good(w, d) && ComesNext(w, d, s) && m.op == RDSEXPR && m.store == x.next(s)
  }

  /** It returns the datum to the dump it began with, and stands behind the text with as many parentheses open,
      if the comments are where they may be; otherwise it fails. */
  ghost predicate ReadsIfUnderstood(x: Scanner, w: Style, d: Doc, s: Port, m: Machine<Port>) {
    if Understood(d) then
      ReadsBackExactlyIf(x, Of(d), s, DocEnd(w, d, s.text, s.pos + |Show(w, d)|), true, m)
    else
      Fails(Reading(x), m)
  }

  lemma DocReacts(x: Scanner, w: Style, d: Doc, s: Port, m: Machine<Port>)
    requires Lexes(x) && Styled(x, w) && AboutToReadDoc(x, w, d, s, m)
    ensures ReadsIfUnderstood(x, w, d, s, m)
  {
    var q := s.pos + |Show(w, d)|;
    var fuel := Weight(d);
    DocTold(x, w, fuel, d, s, q);
    if Understood(d) {
      MachineReads(x, Of(d), s, fuel, DocEnd(w, d, s.text, q), true, m);
    } else {
      FaultFails(x, fuel, m);
    }
  }

  lemma FaultFails(x: Scanner, fuel: nat, m: Machine<Port>)
    requires m.op == RDSEXPR && Datum(x, fuel, m.store) == Fault
    ensures Fails(Reading(x), m)
  {
    ReadingDescribed(x, m);
    assert DatumAnswer(x, m.store)(fuel) == Fault;
    FailsIff(Reading(x), DatumAnswer(x, m.store), m);
  }

  /** Comments and blanks do not change what is read, wherever they stand between the parts of a datum, with
      exactly these exceptions: a comment in an empty list or behind the datum after a dot, and a second
      comment before a dot or before the end of a list, are errors. */
  lemma CommentsReadIff(d: Doc, s: Port, m: Machine<Port>)
    requires AboutToReadDoc(Program(), Plain(), d, s, m)
    ensures ReadsIfUnderstood(Program(), Plain(), d, s, m)
  {
    ProgramLexes();
    PlainIsStyled();
    DocReacts(Program(), Plain(), d, s, m);
  }

  /** The least text that is not understood for its comments: an empty list with one in it. */
  lemma CommentInEmptyList(line: string, m: Machine<Port>)
    requires PlainLine(line) && m.op == RDSEXPR
    requires m.store == Lex(PortState("(;" + (line + "\n") + ")", 0, END, 0, false))
    ensures Fails(Reading(Program()), m)
  {
    var d := Empty([(false, line)]);
    var s: Port := PortState("(;" + (line + "\n") + ")", 0, END, 0, false);
    var one := CommentLine(false, line);
    assert LinesText([(false, line)]) == one + LinesText([]) == one;
    assert s.text == "(" + (one + ")");
    CommentsReadIff(d, s, m);
  }

  /** Where there are only blanks left, the end-of-file object is read, except from the load port. */
  lemma NothingToRead(s: Port, m: Machine<Port>)
    requires Blank(s.text[s.pos..]) && m.op == RDSEXPR && m.store == Lex(s)
    ensures if s.load then Fails(Reading(Program()), m)
            else ReadsBackExactlyIf(Program(), EofObj, s, |s.text|, true, m)
  {
    BlanksSkipped(s, s.text[s.pos..]);
    if s.load {
      FaultFails(Program(), 1, m);
    } else {
      MachineReads(Program(), EofObj, s, 1, |s.text|, true, m);
    }
  }
}
