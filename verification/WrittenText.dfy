/** The texts of data, and how their parts are scanned. */
module WrittenText {
  import opened Registers
  import opened Lexer
  import opened AtomRoundTrip
  import opened Reader
  import opened Printer
  import opened Parsing

  predicate AtomOk(v: Value) {
    match v
    case Nil => true
    case True => true
    case False => true
    case Num(n) => MIN64 <= n <= MAX64
    case Str(s) => StringOk(s) && |s| < STRBUFF_SIZE
    case Char(c) => c as int < 128
    case Sym(name) => SymbolOk(name)
    case _ => false
  }

  /** A tree of atoms that by themselves read back. */
  predicate Legible(v: Value) {
    if v.Pair? then Legible(v.car) && Legible(v.cdr) else AtomOk(v)
  }

  // ---------------------------------------------------------------------------
  // Where a datum ends
  // ---------------------------------------------------------------------------

  predicate SelfEnded(v: Value) {
    if !v.Pair? then v == Nil || v.Str?
    else if Abbreviated(v) then SelfEnded(v.cdr.car)
    else true
  }

  /** What follows does not change how the datum reads: it is set off by itself, or a word ends. */
  predicate SetOff(v: Value, t: string, q: nat) {
    SelfEnded(v) || WordEnd(t, q)
  }

  /** Where the reader is after a datum whose text ends at `q`. */
  function EndOf(v: Value, t: string, q: nat): nat {
    if v.Pair? then if Abbreviated(v) then EndOf(v.cdr.car, t, q) else TailEnd(v.cdr, t, q)
    else if v == Nil || v.Str? then q
    else if v.Char? then CharEnd(v.c, t, q)
    else Peeked(t, q)
  }

  /** After a proper list a newline is swallowed. */
  function TailEnd(v: Value, t: string, q: nat): nat {
    if v.Pair? then TailEnd(v.cdr, t, q)
    else if v != Nil then q
    else if Inchar(t, q).0 == '\n' as int then q + 1
    else Peeked(t, q)
  }

  lemma {:induction false} InnerEnd(v: Value, t: string, q: nat)
    requires q < |t| && (t[q] == ' ' || t[q] == ')')
    ensures WordEnd(t, q) && EndOf(v, t, q) == q && TailEnd(v, t, q) == q
    decreases v
  {
    assert Peeked(t, q) == q;
    if v.Pair? {
      InnerEnd(v.cdr, t, q);
      if Abbreviated(v) {
        InnerEnd(v.cdr.car, t, q);
      }
    }
  }

  // ---------------------------------------------------------------------------
  // Atoms
  // ---------------------------------------------------------------------------

  lemma StringReads(s: string, t: string, p: nat)
    requires StringOk(s) && |s| < STRBUFF_SIZE && IsBytes(t) && Spans(t, p, Quoted(s))
    ensures NextToken(t, p) == (DQUOTE, p + 1)
    ensures ReadLiteral(t, p + 1) == Got((Str(s), p + |Quoted(s)|))
  {
    Assoc("\"", EscapedText(s), "\"");
    SpansPart(t, p, "\"", EscapedText(s) + "\"");
    SpansAt(t, p, "\"", 0);
    FirstToken(t, p);
    LiteralReadsBack(s, t, p + 1, "");
    assert "" + s == s;
  }

  lemma WordsRead(v: Value, t: string, p: nat)
    requires (v.Num? || v.Sym?) && AtomOk(v) && IsBytes(t) && Spans(t, p, AtomText(v)) && WordEnd(t, p + |AtomText(v)|)
    ensures NextToken(t, p) == (ATOM, p) && ReadWord(t, p) == (v, EndOf(v, t, p + |AtomText(v)|))
  {
    if v.Num? {
      IntegerReads(v.n, t, p);
    } else {
      SymbolReads(v.name, t, p);
    }
  }

  lemma AtomReads(v: Value, t: string, p: nat)
    requires !v.Pair? && v != Nil && AtomOk(v) && IsBytes(t) && Spans(t, p, AtomText(v))
    requires SetOff(v, t, p + |AtomText(v)|)
    ensures var (token, q) := NextToken(t, p);
            IsAtomToken(token) && ReadAtom(t, token, q) == Got((v, EndOf(v, t, p + |AtomText(v)|)))
  {
    if v.Num? || v.Sym? {
      WordsRead(v, t, p);
    } else if v.Str? {
      StringReads(v.chars, t, p);
    } else if v.Char? {
      CharAtom(v.c, t, p);
    } else {
      BooleanReads(v == True, t, p);
    }
  }

  // ---------------------------------------------------------------------------
  // How a datum begins
  // ---------------------------------------------------------------------------

  /** The first character of a datum: no blank, no dot with a blank after it, no closing. */
  lemma FirstCharacter(v: Value)
    requires Legible(v)
    ensures var w := Text(v);
            w != "" && 33 <= w[0] as int < 127 && (w[0] == '@' <==> StartsWithAt(v))
  {
    if v.Num? {
      IntegerIsAtom(v.n);
    } else if v.Char? {
      assert CharText(v.c)[0] == '#';
    }
  }

  /** The sign of a quotation symbol is read as that symbol, unless an `@` follows a comma. */
  lemma SignReads(symbol: Value, t: string, p: nat)
    requires Sign(symbol) != "" && Spans(t, p, Sign(symbol))
    requires p + |Sign(symbol)| < |t| && 33 <= t[p + |Sign(symbol)|] as int < 127
    ensures var (token, q) := NextToken(t, p);
            var ambiguous := symbol == Sym("unquote") && t[p + 1] == '@';
            && IsQuoteToken(token) && (ambiguous ==> token == ATMARK)
            && (!ambiguous ==> Quotation(Quoting(token)) == symbol && q == p + |Sign(symbol)|)
  {
    var sign := Sign(symbol);
    SpansAt(t, p, sign, 0);
    FirstToken(t, p);
    if |sign| == 2 {
      SpansAt(t, p, sign, 1);
    }
  }

  lemma AfterSpace(t: string, p: nat)
    requires p + 1 < |t| && t[p] == ' ' && 33 <= t[p + 1] as int < 127
    ensures NextToken(t, p) == NextToken(t, p + 1)
  {
  }

  lemma DotToken(t: string, p: nat)
    requires Spans(t, p, " . ")
    ensures NextToken(t, p) == (DOT, p + 3)
  {
    SpansAt(t, p, " . ", 0);
    SpansAt(t, p, " . ", 1);
    SpansAt(t, p, " . ", 2);
    FirstToken(t, p + 1);
    AfterSpace(t, p);
  }
}
