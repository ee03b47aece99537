/** How texts are put together from those of their parts, and what the program's scanner makes of
    the joints. */
module Layouts {
  import opened Registers
  import opened Lexer
  import opened AtomRoundTrip
  import opened Reader
  import opened Printer
  import opened Parsing
  import opened WrittenText

  /** A way of writing data. */
  datatype Spelling = Spelling(text: Value -> string, tail: Value -> string, legible: Value -> bool)

  predicate PartsLegible(z: Spelling, v: Value) {
    v.Pair? && z.legible(v) ==> z.legible(v.car) && z.legible(v.cdr)
  }

  predicate PairText(z: Spelling, v: Value) {
    v.Pair? ==>
      z.text(v) == if Abbreviated(v) then Sign(v.car) + z.text(v.cdr.car) else "(" + (z.text(v.car) + z.tail(v.cdr))
  }

  predicate TailShape(z: Spelling, v: Value) {
    z.tail(v) == if v.Pair? then " " + (z.text(v.car) + z.tail(v.cdr))
                 else if v == Nil then ")"
                 else " . " + (z.text(v) + ")")
  }

  predicate FirstFact(z: Spelling, v: Value) {
    z.legible(v) ==>
      && z.text(v) != "" && 33 <= z.text(v)[0] as int < 127
      && (z.text(v)[0] == '@' <==> StartsWithAt(v))
  }

  ghost predicate Spells(z: Spelling) {
    && z.text(Nil) == "()"
    && (forall v :: PartsLegible(z, v))
    && (forall v :: PairText(z, v))
    && (forall v :: TailShape(z, v))
    && (forall v :: FirstFact(z, v))
  }

  predicate FacingText(z: Spelling, v: Value, t: string, p: nat) {
    z.legible(v) && Spans(t, p, z.text(v)) && SetOff(v, t, p + |z.text(v)|)
  }

  predicate FacingTail(z: Spelling, v: Value, t: string, p: nat) {
    z.legible(v) && Spans(t, p, z.tail(v))
  }

  function LayoutOf(z: Spelling): Layout {
    Layout((v: Value, t: string, p: nat) => FacingText(z, v, t, p),
           (v: Value, t: string, p: nat) => EndOf(v, t, p + |z.text(v)|),
           (v: Value, t: string, p: nat) => FacingTail(z, v, t, p),
           (v: Value, t: string, p: nat) => TailEnd(v, t, p + |z.tail(v)|))
  }

  // ---------------------------------------------------------------------------
  // Tokens
  // ---------------------------------------------------------------------------

  predicate Sees(s: Port, c: char) {
    s.pos < |s.text| && s.text[s.pos] == c
  }

  lemma LexOpen(s: Port)
    requires Sees(s, '(')
    ensures Lex(s) == s.(token := OPEN, pos := s.pos + 1)
  {
    FirstToken(s.text, s.pos);
  }

  lemma LexClose(s: Port)
    requires Sees(s, ')')
    ensures Lex(s) == s.(token := CLOSE, pos := s.pos + 1) && LexElement(s) == Lex(s)
    ensures Stands(CloseList(Lex(s)), s, TailEnd(Nil, s.text, s.pos + 1), s.nesting - 1)
  {
    FirstToken(s.text, s.pos);
  }

  lemma LexSpace(s: Port)
    requires Sees(s, ' ') && s.pos + 1 < |s.text| && 33 <= s.text[s.pos + 1] as int < 127
    ensures Lex(s) == Lex(GoTo(s, s.pos + 1))
  {
    AfterSpace(s.text, s.pos);
  }

  lemma LexDot(s: Port)
    requires Spans(s.text, s.pos, " . ")
    ensures LexElement(s) == s.(token := DOT, pos := s.pos + 3)
  {
    DotToken(s.text, s.pos);
  }

  // ---------------------------------------------------------------------------
  // The facts
  // ---------------------------------------------------------------------------

  /** An element of a list, and what follows it. */
  lemma Elementwise(z: Spelling, v: Value, t: string, p: nat)
    requires Spells(z) && v.Pair? && z.legible(v) && Spans(t, p, z.text(v.car) + z.tail(v.cdr))
    ensures FacingText(z, v.car, t, p) && EndOf(v.car, t, p + |z.text(v.car)|) == p + |z.text(v.car)|
    ensures FacingTail(z, v.cdr, t, p + |z.text(v.car)|)
    ensures p < |t| && 33 <= t[p] as int < 127
  {
    var a, d := z.text(v.car), z.tail(v.cdr);
    assert PartsLegible(z, v) && FirstFact(z, v.car) && TailShape(z, v.cdr);
    TailBegins(z, v.cdr);
    TextSplits(v.car, a, d, t, p);
  }

  lemma TailBegins(z: Spelling, v: Value)
    requires TailShape(z, v)
    ensures z.tail(v) != "" && (z.tail(v)[0] == ' ' || z.tail(v)[0] == ')')
  {
  }

  lemma TextSplits(v: Value, a: string, d: string, t: string, p: nat)
    requires Spans(t, p, a + d) && a != "" && d != "" && (d[0] == ' ' || d[0] == ')')
    ensures Spans(t, p, a) && Spans(t, p + |a|, d) && p < |t| && t[p] == a[0]
    ensures SetOff(v, t, p + |a|) && EndOf(v, t, p + |a|) == p + |a|
  {
    SpansPart(t, p, a, d);
    SpansAt(t, p, a, 0);
    SpansAt(t, p + |a|, d, 0);
    InnerEnd(v, t, p + |a|);
  }

  lemma NilFits(z: Spelling, s: Port)
    requires Spells(z)
    ensures NilFact(Program(), LayoutOf(z), s)
  {
    if FacingText(z, Nil, s.text, s.pos) {
      SpansAt(s.text, s.pos, "()", 0);
      SpansAt(s.text, s.pos, "()", 1);
      LexOpen(s);
      LexClose(Lex(s));
    }
  }

  lemma SignParts(z: Spelling, v: Value, t: string, p: nat)
    requires Spells(z) && Abbreviated(v) && FacingText(z, v, t, p)
    ensures var q := p + |Sign(v.car)|;
            && Spans(t, p, Sign(v.car)) && FacingText(z, v.cdr.car, t, q)
            && EndOf(v, t, p + |z.text(v)|) == EndOf(v.cdr.car, t, q + |z.text(v.cdr.car)|)
            && q < |t| && 33 <= t[q] as int < 127 && (t[q] == '@' <==> StartsWithAt(v.cdr.car))
  {
    var sign, x := Sign(v.car), v.cdr.car;
    assert PairText(z, v) && PartsLegible(z, v) && PartsLegible(z, v.cdr) && FirstFact(z, x);
    SpansPart(t, p, sign, z.text(x));
    SpansAt(t, p + |sign|, z.text(x), 0);
  }

  lemma LexSign(symbol: Value, s: Port)
    requires Sign(symbol) != "" && Spans(s.text, s.pos, Sign(symbol))
    requires s.pos + |Sign(symbol)| < |s.text| && 33 <= s.text[s.pos + |Sign(symbol)|] as int < 127
    ensures var ambiguous := symbol == Sym("unquote") && s.text[s.pos + 1] == '@';
            && IsQuoteToken(Lex(s).token) && (ambiguous ==> Lex(s).token == ATMARK)
            && (!ambiguous ==> Quotation(Quoting(Lex(s).token)) == symbol)
            && (!ambiguous ==> Stands(Lex(s), s, s.pos + |Sign(symbol)|, s.nesting))
  {
    SignReads(symbol, s.text, s.pos);
  }

  lemma SignFits(z: Spelling, v: Value, s: Port)
    requires Spells(z)
    ensures SignFact(Program(), LayoutOf(z), v, s)
  {
    if Abbreviated(v) && FacingText(z, v, s.text, s.pos) {
      SignMoves(z, v, s);
      SignTogether(Program(), LayoutOf(z), v, s, Lex(s));
    }
  }

  lemma SignMoves(z: Spelling, v: Value, s: Port)
    requires Spells(z) && Abbreviated(v) && FacingText(z, v, s.text, s.pos)
    ensures IsQuoteToken(Lex(s).token) && (Ambiguous(v) ==> Lex(s).token == ATMARK)
    ensures !Ambiguous(v) ==>
      Quotation(Quoting(Lex(s).token)) == v.car && Stands(Lex(s), s, s.pos + |Sign(v.car)|, s.nesting)
    ensures !Ambiguous(v) ==>
      Facing(LayoutOf(z), v.cdr.car, Lex(s)) && End(LayoutOf(z), v, s) == End(LayoutOf(z), v.cdr.car, Lex(s))
  {
    SignLexed(z, v, s);
    if !Ambiguous(v) {
      SignTexts(z, v, s, Lex(s));
    }
  }

  lemma SignLexed(z: Spelling, v: Value, s: Port)
    requires Spells(z) && Abbreviated(v) && FacingText(z, v, s.text, s.pos)
    ensures IsQuoteToken(Lex(s).token) && (Ambiguous(v) ==> Lex(s).token == ATMARK)
    ensures !Ambiguous(v) ==>
      Quotation(Quoting(Lex(s).token)) == v.car && Stands(Lex(s), s, s.pos + |Sign(v.car)|, s.nesting)
  {
    SignParts(z, v, s.text, s.pos);
    LexSign(v.car, s);
  }

  lemma SignTexts(z: Spelling, v: Value, s: Port, s1: Port)
    requires Spells(z) && Abbreviated(v) && FacingText(z, v, s.text, s.pos)
    requires Stands(s1, s, s.pos + |Sign(v.car)|, s.nesting)
    ensures Facing(LayoutOf(z), v.cdr.car, s1) && End(LayoutOf(z), v, s) == End(LayoutOf(z), v.cdr.car, s1)
  {
    SignParts(z, v, s.text, s.pos);
  }

  lemma SignTogether(x: Scanner, y: Layout, v: Value, s: Port, s1: Port)
    requires Abbreviated(v) && x.next(s) == s1 && IsQuoteToken(s1.token) && (Ambiguous(v) ==> s1.token == ATMARK)
    requires !Ambiguous(v) ==> Quotation(Quoting(s1.token)) == v.car && Stands(s1, s, s1.pos, s.nesting)
    requires !Ambiguous(v) ==> Facing(y, v.cdr.car, s1) && End(y, v, s) == End(y, v.cdr.car, s1)
    ensures SignFact(x, y, v, s)
  {
  }

  lemma OpenFits(z: Spelling, v: Value, s: Port)
    requires Spells(z)
    ensures OpenFact(Program(), LayoutOf(z), v, s)
  {
    if v.Pair? && !Abbreviated(v) && FacingText(z, v, s.text, s.pos) {
      var w := z.text(v.car) + z.tail(v.cdr);
      assert PairText(z, v);
      SpansPart(s.text, s.pos, "(", w);
      SpansAt(s.text, s.pos, "(", 0);
      LexOpen(s);
      Elementwise(z, v, s.text, s.pos + 1);
    }
  }

  lemma StartFits(z: Spelling, v: Value, s: Port)
    requires Spells(z) && AtomFact(Program(), LayoutOf(z), v, s)
    ensures StartFact(Program(), LayoutOf(z), v, s)
  {
    if v.Pair? {
      SignFits(z, v, s);
      OpenFits(z, v, s);
    } else if v == Nil {
      NilFits(z, s);
    }
  }

  lemma ElementParts(z: Spelling, v: Value, s: Port)
    requires Spells(z) && v.Pair? && FacingTail(z, v, s.text, s.pos)
    ensures Sees(s, ' ') && s.pos + 1 < |s.text| && 33 <= s.text[s.pos + 1] as int < 127
    ensures FacingElements(LayoutOf(z), v, GoTo(s, s.pos + 1))
    ensures TailEnd(v, s.text, s.pos + |z.tail(v)|) == ElementsEnd(LayoutOf(z), v, GoTo(s, s.pos + 1))
  {
    assert TailShape(z, v);
    SpansPart(s.text, s.pos, " ", z.text(v.car) + z.tail(v.cdr));
    SpansAt(s.text, s.pos, " ", 0);
    Elementwise(z, v, s.text, s.pos + 1);
  }

  lemma ElementFits(z: Spelling, v: Value, s: Port)
    requires Spells(z) && (v.Pair? && s.pos < |s.text| ==> AtomFact(Program(), LayoutOf(z), v.car, GoTo(s, s.pos + 1)))
    ensures ElementFact(Program(), LayoutOf(z), v, s)
  {
    assert LayoutOf(z).tail(v, s.text, s.pos) == FacingTail(z, v, s.text, s.pos);
    if v.Pair? && FacingTail(z, v, s.text, s.pos) && s.pos < |s.text| {
      ElementParts(z, v, s);
      LexSpace(s);
      StartFits(z, v.car, GoTo(s, s.pos + 1));
      NoComment(s);
    }
  }

  lemma NoComment(s: Port)
    requires Lex(s).token != COMMENT
    ensures LexElement(s) == Lex(s)
  {
  }

  lemma CloseFits(z: Spelling, s: Port)
    requires Spells(z)
    ensures CloseFact(Program(), LayoutOf(z), s)
  {
    if FacingTail(z, Nil, s.text, s.pos) {
      assert TailShape(z, Nil);
      SpansAt(s.text, s.pos, ")", 0);
      LexClose(s);
    }
  }

  lemma DotParts(z: Spelling, v: Value, t: string, p: nat)
    requires Spells(z) && !v.Pair? && v != Nil && FacingTail(z, v, t, p)
    ensures Spans(t, p, " . ") && FacingText(z, v, t, p + 3)
    ensures var q := p + 3 + |z.text(v)|;
            Closing(t, q) && EndOf(v, t, q) == q && p + |z.tail(v)| == q + 1
  {
    var w, q := z.text(v), p + 3;
    assert TailShape(z, v);
    SpansPart(t, p, " . ", w + ")");
    SpansPart(t, q, w, ")");
    SpansAt(t, q + |w|, ")", 0);
    InnerEnd(v, t, q + |w|);
  }

  lemma DotFits(z: Spelling, v: Value, s: Port)
    requires Spells(z)
    ensures DotFact(Program(), LayoutOf(z), v, s)
  {
    if !v.Pair? && v != Nil && FacingTail(z, v, s.text, s.pos) {
      DotParts(z, v, s.text, s.pos);
      LexDot(s);
      DotTexts(z, v, s, LexElement(s));
      DotTogether(Program(), LayoutOf(z), v, s, LexElement(s));
    }
  }

  lemma DotTexts(z: Spelling, v: Value, s: Port, s1: Port)
    requires Spells(z) && !v.Pair? && v != Nil && FacingTail(z, v, s.text, s.pos)
    requires s1.text == s.text && s1.pos == s.pos + 3
    ensures var y := LayoutOf(z);
            && Facing(y, v, s1) && Closing(s.text, End(y, v, s1))
            && y.tailEnd(v, s.text, s.pos) == End(y, v, s1) + 1
  {
    DotParts(z, v, s.text, s.pos);
  }

  lemma DotTogether(x: Scanner, y: Layout, v: Value, s: Port, s1: Port)
    requires x.element(s) == s1 && s1.token == DOT && Stands(s1, s, s1.pos, s.nesting)
    requires Facing(y, v, s1) && Closing(s.text, End(y, v, s1)) && y.tailEnd(v, s.text, s.pos) == End(y, v, s1) + 1
    ensures DotFact(x, y, v, s)
  {
  }

  lemma ClosingFits(s: Port)
    ensures ClosingFact(Program(), s)
  {
    if Closing(s.text, s.pos) {
      LexClose(s);
    }
  }

  lemma TailFits(z: Spelling, v: Value, s: Port)
    requires Spells(z)
    ensures TailFact(LayoutOf(z), v, s)
  {
    assert TailShape(z, v);
  }

  lemma NestFits(s: Port)
    ensures NestFact(Program(), s)
  {
  }

  lemma ProgramFits(z: Spelling)
    requires Spells(z) && forall v, s: Port :: AtomFact(Program(), LayoutOf(z), v, s)
    ensures Fit(Program(), LayoutOf(z))
  {
    var x, y := Program(), LayoutOf(z);
    forall s: Port ensures NilFact(x, y, s) { NilFits(z, s); }
    forall v, s: Port ensures SignFact(x, y, v, s) { SignFits(z, v, s); }
    forall v, s: Port ensures OpenFact(x, y, v, s) { OpenFits(z, v, s); }
    forall v, s: Port ensures StartFact(x, y, v, s) { StartFits(z, v, s); }
    forall v, s: Port ensures ElementFact(x, y, v, s) {
      assert v.Pair? && s.pos < |s.text| ==> AtomFact(x, y, v.car, GoTo(s, s.pos + 1));
      ElementFits(z, v, s);
    }
    forall s: Port ensures CloseFact(x, y, s) { CloseFits(z, s); }
    forall v, s: Port ensures DotFact(x, y, v, s) { DotFits(z, v, s); }
    forall s: Port ensures ClosingFact(x, s) { ClosingFits(s); }
    forall v, s: Port ensures TailFact(y, v, s) { TailFits(z, v, s); }
    forall s: Port ensures NestFact(x, s) { NestFits(s); }
  }

  /** Reading an atom moves on to `q`. */
  predicate AtomMoved(v: Value, s: Port, q: nat) {
    && IsAtomToken(Lex(s).token) && Atom(Lex(s)).Got? && Atom(Lex(s)).value.0 == v
    && Stands(Atom(Lex(s)).value.1, s, q, s.nesting)
  }

  lemma AtomFits(z: Spelling, v: Value, s: Port)
    requires !v.Pair? && v != Nil && FacingText(z, v, s.text, s.pos) ==>
      AtomMoved(v, s, EndOf(v, s.text, s.pos + |z.text(v)|))
    ensures AtomFact(Program(), LayoutOf(z), v, s)
  {
    assert Facing(LayoutOf(z), v, s) == FacingText(z, v, s.text, s.pos);
    assert End(LayoutOf(z), v, s) == EndOf(v, s.text, s.pos + |z.text(v)|);
  }

  /** The machine is about to read a datum that has been written, whose end is at `q`. */
  predicate AboutToRead(z: Spelling, v: Value, s: Port, q: nat, m: Machine<Port>) {
    && FacingText(z, v, s.text, s.pos) && q == EndOf(v, s.text, s.pos + |z.text(v)|)
    && m.op == RDSEXPR && m.store == Lex(s)
  }

  lemma MachineReadsWritten(z: Spelling, v: Value, s: Port, q: nat, m: Machine<Port>)
    requires Fit(Program(), LayoutOf(z)) && AboutToRead(z, v, s, q, m)
    ensures ReadsBackExactlyIf(Program(), v, s, q, Unambiguous(v), m)
  {
    MachineReadsIff(Program(), LayoutOf(z), v, s, q, m);
  }
}
