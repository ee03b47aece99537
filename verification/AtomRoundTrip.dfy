/** Reading an atom that has been written gives the atom back. */
module AtomRoundTrip {
  import opened Registers
  import opened Lexer

  predicate Spans(t: string, p: nat, s: string) {
    p + |s| <= |t| && t[p..p + |s|] == s
  }

  lemma SpansPart(t: string, p: nat, a: string, b: string)
    requires Spans(t, p, a + b)
    ensures Spans(t, p, a) && Spans(t, p + |a|, b)
  {
    assert t[p..p + |a|] == (a + b)[..|a|];
    assert t[p + |a|..p + |a| + |b|] == (a + b)[|a|..];
  }

  lemma SpansAt(t: string, p: nat, s: string, i: nat)
    requires Spans(t, p, s) && i < |s|
    ensures t[p + i] == s[i]
  {
    assert t[p..p + |s|][i] == s[i];
  }

  // ---------------------------------------------------------------------------
  // Strings
  // ---------------------------------------------------------------------------

  /** The characters of a string that a program can hold and write. */
  predicate StringOk(s: string) {
    forall i | 0 <= i < |s| :: 0 < s[i] as int < 256
  }

  lemma EscapedCharacter(c: char, t: string, p: nat, buf: string)
    requires 0 < c as int < 256 && IsBytes(t) && Spans(t, p, Escaped(c)) && |buf| < STRBUFF_SIZE
    ensures ReadString(t, p, buf, NoEscape) == ReadString(t, p + |Escaped(c)|, buf + [c], NoEscape)
  {
    var e := Escaped(c);
    SpansAt(t, p, e, 0);
    if |e| > 1 {
      SpansAt(t, p, e, 1);
      assert buf + "" == buf;
      assert ReadString(t, p, buf, NoEscape) == ReadString(t, p + 1, buf, Backslash);
      if |e| == 4 {
        HexEscape(c, t, p, buf);
      }
    }
  }

  lemma HexEscape(c: char, t: string, p: nat, buf: string)
    requires c as int < 256 && IsBytes(t) && |buf| < STRBUFF_SIZE
    requires Spans(t, p, ['\\', 'x', HexChar(c as int / 16), HexChar(c as int % 16)])
    ensures ReadString(t, p + 1, buf, Backslash) == ReadString(t, p + 4, buf + [c], NoEscape)
  {
    var e := ['\\', 'x', HexChar(c as int / 16), HexChar(c as int % 16)];
    SpansAt(t, p, e, 1);
    SpansAt(t, p, e, 2);
    SpansAt(t, p, e, 3);
    assert buf + "" == buf;
    assert ReadString(t, p + 1, buf, Backslash) == ReadString(t, p + 2, buf, Hex1(0));
    assert ReadString(t, p + 2, buf, Hex1(0)) == ReadString(t, p + 3, buf, Hex2(c as int / 16));
  }

  /** What reading the rest of a literal gives. */
  function Literally(s: string, p: nat, buf: string): Eval<(string, nat)> {
    if |buf| + |s| < STRBUFF_SIZE then Got((buf + s, p + |EscapedText(s)| + 1)) else Fault
  }

  lemma LiterallyNext(s: string, p: nat, buf: string)
    requires s != []
    ensures Literally(s[1..], p + |Escaped(s[0])|, buf + [s[0]]) == Literally(s, p, buf)
  {
    assert [s[0]] + s[1..] == s;
    Assoc(buf, [s[0]], s[1..]);
  }

  lemma EscapedNext(s: string)
    requires s != []
    ensures EscapedText(s) + "\"" == Escaped(s[0]) + (EscapedText(s[1..]) + "\"")
  {
    Assoc(Escaped(s[0]), EscapedText(s[1..]), "\"");
  }

  lemma Assoc(a: string, b: string, c: string)
    ensures (a + b) + c == a + (b + c)
  {
  }

  lemma LiteralEnd(t: string, p: nat, buf: string)
    requires IsBytes(t) && Spans(t, p, EscapedText("") + "\"") && |buf| <= STRBUFF_SIZE
    ensures ReadString(t, p, buf, NoEscape) == Literally("", p, buf)
  {
    SpansAt(t, p, EscapedText("") + "\"", 0);
    assert buf + "" == buf;
  }

  /** A literal that has been written reads back, whatever follows it, exactly if the buffer holds
      the string and its terminator. */
  lemma {:induction false} LiteralReadsBack(s: string, t: string, p: nat, buf: string)
    requires StringOk(s) && IsBytes(t) && Spans(t, p, EscapedText(s) + "\"") && |buf| <= STRBUFF_SIZE
    ensures ReadString(t, p, buf, NoEscape) == Literally(s, p, buf)
    decreases |s|
  {
    if s == [] {
      LiteralEnd(t, p, buf);
    } else if |buf| < STRBUFF_SIZE {
      LiterallyNext(s, p, buf);
      EscapedNext(s);
      SpansPart(t, p, Escaped(s[0]), EscapedText(s[1..]) + "\"");
      EscapedCharacter(s[0], t, p, buf);
      LiteralReadsBack(s[1..], t, p + |Escaped(s[0])|, buf + [s[0]]);
    } else {
      Full(t, p, buf, NoEscape);
    }
  }

  lemma Full(t: string, p: nat, buf: string, state: Escape)
    requires IsBytes(t) && |buf| >= STRBUFF_SIZE
    ensures ReadString(t, p, buf, state) == Fault
  {
  }

  // ---------------------------------------------------------------------------
  // Words
  // ---------------------------------------------------------------------------

  /** A word ends here. */
  predicate WordEnd(t: string, p: nat) {
    IsOneOf(DELIMITERS, Inchar(t, p).0)
  }

  /** No character of a word ends it. */
  predicate Unbroken(w: string) {
    forall i | 0 <= i < |w| :: 0 < w[i] as int < 128 && w[i] !in DELIMITERS
  }

  /** Where the reader is when it has looked at the character after a word. */
  function Peeked(t: string, p: nat): nat {
    Backchar(Inchar(t, p).0, Inchar(t, p).1)
  }

  lemma {:induction false} WordExtent(w: string, t: string, p: nat)
    requires Spans(t, p, w) && Unbroken(w) && WordEnd(t, p + |w|)
    ensures Extent(t, p) == |w|
    decreases |w|
  {
    if w != [] {
      assert w == [w[0]] + w[1..];
      SpansPart(t, p, [w[0]], w[1..]);
      SpansAt(t, p, w, 0);
      WordExtent(w[1..], t, p + 1);
    }
  }

  lemma WordReads(w: string, t: string, p: nat)
    requires Spans(t, p, w) && Unbroken(w) && WordEnd(t, p + |w|) && w != "\\"
    ensures ReadUpTo(t, p) == (w, Peeked(t, p + |w|))
  {
    WordExtent(w, t, p);
    if |w| == 1 {
      SpansAt(t, p, w, 0);
      assert w == [w[0]];
    }
  }

  /** A character that is neither blank nor the start of something else than an atom. */
  predicate Starts(c: char) {
    33 <= c as int < 127 && c !in "().';\"`,#"
  }

  lemma FirstToken(t: string, p: nat)
    requires p < |t| && 33 <= t[p] as int < 127
    ensures NextToken(t, p) == TokenAt(t, p)
  {
  }

  /** A name that the reader takes for the symbol of that name. */
  predicate SymbolOk(name: string) {
    && name != [] && name != "." && name != "\\"
    && Unbroken(name) && (Starts(name[0]) || name[0] == '.')
    && MkAtom(name) == Sym(name)
  }

  lemma WordToken(t: string, p: nat)
    requires p < |t| && Starts(t[p])
    ensures NextToken(t, p) == (ATOM, p)
  {
    FirstToken(t, p);
  }

  lemma DottedToken(t: string, p: nat)
    requires p + 1 < |t| && t[p] == '.' && 0 < t[p + 1] as int < 128 && t[p + 1] !in DELIMITERS
    ensures NextToken(t, p) == (ATOM, p)
  {
    FirstToken(t, p);
  }

  lemma WordIs(t: string, p: nat, w: string, q: nat, v: Value)
    requires p <= |t| && ReadUpTo(t, p) == (w, q) && MkAtom(w) == v
    ensures ReadWord(t, p) == (v, q)
  {
  }

  /** A word that does not begin with a dot. */
  lemma WordAtomReads(w: string, v: Value, t: string, p: nat)
    requires Unbroken(w) && w != "" && w != "\\" && Starts(w[0]) && MkAtom(w) == v
    requires IsBytes(t) && Spans(t, p, w) && WordEnd(t, p + |w|)
    ensures NextToken(t, p) == (ATOM, p) && ReadWord(t, p) == (v, Peeked(t, p + |w|))
  {
    WordReads(w, t, p);
    SpansAt(t, p, w, 0);
    WordToken(t, p);
    WordIs(t, p, w, Peeked(t, p + |w|), v);
  }

  /** A word that begins with a dot and goes on. */
  lemma DottedWordReads(w: string, v: Value, t: string, p: nat)
    requires Unbroken(w) && |w| > 1 && w[0] == '.' && MkAtom(w) == v
    requires IsBytes(t) && Spans(t, p, w) && WordEnd(t, p + |w|)
    ensures NextToken(t, p) == (ATOM, p) && ReadWord(t, p) == (v, Peeked(t, p + |w|))
  {
    WordReads(w, t, p);
    SpansAt(t, p, w, 0);
    SpansAt(t, p, w, 1);
    DottedToken(t, p);
    WordIs(t, p, w, Peeked(t, p + |w|), v);
  }

  lemma SymbolReads(name: string, t: string, p: nat)
    requires SymbolOk(name) && IsBytes(t) && Spans(t, p, name) && WordEnd(t, p + |name|)
    ensures NextToken(t, p) == (ATOM, p) && ReadWord(t, p) == (Sym(name), Peeked(t, p + |name|))
  {
    if name[0] == '.' {
      assert |name| == 1 ==> name == ".";
      DottedWordReads(name, Sym(name), t, p);
    } else {
      WordAtomReads(name, Sym(name), t, p);
    }
  }

  // ---------------------------------------------------------------------------
  // Integers
  // ---------------------------------------------------------------------------

  predicate AllDigits(s: string) {
    forall i | 0 <= i < |s| :: IsDigit(s[i])
  }

  lemma {:induction false} DecimalValue(n: nat)
    ensures AllDigits(Decimal(n)) && DigitsValue(Decimal(n)) == n
    decreases n
  {
    if n >= 10 {
      DecimalValue(n / 10);
      var d := Decimal(n);
      assert d[..|d| - 1] == Decimal(n / 10);
    } else {
      assert Decimal(n)[..0] == [];
    }
  }

  lemma {:induction false} DigitsShape(q: string, i: nat)
    requires i <= |q| && forall j | i <= j < |q| :: IsDigit(q[j])
    ensures NumberShape(q, i, false, false) == Integer
    decreases |q| - i
  {
    if i < |q| {
      DigitsShape(q, i + 1);
    }
  }

  lemma {:induction false} NoColons(q: string, i: nat)
    requires i <= |q| && forall j | 0 <= j < |q| :: q[j] != ':'
    ensures ColonsAt(q, i) == |q|
    decreases |q| - i
  {
    if i + 1 < |q| {
      NoColons(q, i + 1);
    }
  }

  /** Digits, perhaps behind a minus sign. */
  predicate IntegerWord(q: string) {
    && q != "" && (IsDigit(q[0]) || (q[0] == '-' && |q| > 1))
    && forall i | 0 < i < |q| :: IsDigit(q[i])
  }

  function WordValue(q: string): int
    requires q != ""
  {
    if q[0] == '-' then 0 - DigitsValue(q[1..]) as int else DigitsValue(q)
  }

  lemma IntegerWordShape(q: string)
    requires IntegerWord(q)
    ensures AtomShape(q) == Integer && ColonsAt(q, 0) == |q|
    ensures Unbroken(q) && Starts(q[0]) && q != "\\"
  {
    DigitsShape(q, if q[0] == '-' then 2 else 1);
    NoColons(q, 0);
  }

  lemma IntegerWordIsAtom(q: string)
    requires IntegerWord(q)
    ensures MkAtom(q) == Num(Clamp(WordValue(q)))
  {
    IntegerWordShape(q);
  }

  lemma IntegerIsAtom(n: int)
    requires MIN64 <= n <= MAX64
    ensures MkAtom(IntegerText(n)) == Num(n)
    ensures Unbroken(IntegerText(n)) && Starts(IntegerText(n)[0]) && IntegerText(n) != "\\"
  {
    IntegerDigits(n);
    IntegerWordShape(IntegerText(n));
    IntegerWordIsAtom(IntegerText(n));
  }

  lemma IntegerDigits(n: int)
    ensures IntegerWord(IntegerText(n)) && WordValue(IntegerText(n)) == n
  {
    if n < 0 {
      DecimalValue(-n);
      Negative(Decimal(-n));
    } else {
      DecimalValue(n);
    }
  }

  lemma Negative(d: string)
    requires AllDigits(d) && d != ""
    ensures IntegerWord("-" + d) && WordValue("-" + d) == 0 - DigitsValue(d) as int
  {
    assert ("-" + d)[1..] == d;
  }

  lemma IntegerReads(n: int, t: string, p: nat)
    requires MIN64 <= n <= MAX64 && IsBytes(t) && Spans(t, p, IntegerText(n)) && WordEnd(t, p + |IntegerText(n)|)
    ensures NextToken(t, p) == (ATOM, p)
    ensures ReadWord(t, p) == (Num(n), Peeked(t, p + |IntegerText(n)|))
  {
    IntegerIsAtom(n);
    WordAtomReads(IntegerText(n), Num(n), t, p);
  }

  // ---------------------------------------------------------------------------
  // Booleans and characters
  // ---------------------------------------------------------------------------

  /** A word after a `#`. */
  lemma SharpReads(name: string, t: string, p: nat)
    requires Spans(t, p, "#" + name) && name != [] && name[0] in "tfodxb\\"
    ensures NextToken(t, p) == (SHARPCONST, p + 1) && Spans(t, p + 1, name)
  {
    SpansPart(t, p, "#", name);
    SpansAt(t, p, "#", 0);
    SpansAt(t, p + 1, name, 0);
    FirstToken(t, p);
  }

  lemma BooleanReads(b: bool, t: string, p: nat)
    requires IsBytes(t) && Spans(t, p, AtomText(if b then True else False)) && WordEnd(t, p + 2)
    ensures NextToken(t, p) == (SHARPCONST, p + 1)
    ensures ReadConst(t, p + 1) == Got((if b then True else False, Peeked(t, p + 2)))
  {
    var name := if b then "t" else "f";
    assert AtomText(if b then True else False) == "#" + name;
    SharpReads(name, t, p);
    WordReads(name, t, p + 1);
  }

  lemma NamesDiffer(i: nat, k: nat)
    requires i < k < 32
    ensures CHAR_NAMES[i] != CHAR_NAMES[k]
  {
    var a, b := CHAR_NAMES[i], CHAR_NAMES[k];
    assert |a| >= 2;
    if |a| == |b| && a[0] == b[0] && a[1] == b[1] && |a| > 2 {
      assert a[2] != b[2];
    }
  }

  lemma NameShape(k: nat)
    requires k < 32
    ensures 2 <= |CHAR_NAMES[k]| <= 3 && CHAR_NAMES[k][0] != 'x'
  {
  }

  lemma NotTabNotDel(k: nat)
    requires k < 32
    ensures CHAR_NAMES[k] != "tab" && CHAR_NAMES[k] != "del"
  {
    var n := CHAR_NAMES[k];
    if n[0] == 'd' || n[0] == 't' {
      assert n[1] == 'l' || n[1] == 'c';
    }
  }

  predicate Alphanumeric(c: char) {
    'a' <= c <= 'z' || IsDigit(c)
  }

  lemma NameLetters(k: nat, i: nat)
    requires k < 32 && i < |CHAR_NAMES[k]|
    ensures Alphanumeric(CHAR_NAMES[k][i])
  {
    NameShape(k);
    if i == 0 {
      assert Alphanumeric(CHAR_NAMES[k][0]);
    } else if i == 1 {
      assert Alphanumeric(CHAR_NAMES[k][1]);
    }
  }

  lemma NameUnbroken(k: nat)
    requires k < 32
    ensures Unbroken(CHAR_NAMES[k])
  {
    forall i | 0 <= i < |CHAR_NAMES[k]| ensures Alphanumeric(CHAR_NAMES[k][i]) {
      NameLetters(k, i);
    }
    Lettered(CHAR_NAMES[k]);
  }

  lemma ControlName(k: nat)
    requires k < 32 && k != 9 && k != 10 && k != 13
    ensures NamedChar(CHAR_NAMES[k]) == Got(Char(k as char))
  {
    var n := CHAR_NAMES[k];
    ControlIndex(k);
    NameShape(k);
    NotTabNotDel(k);
    assert n != "space" && n != "newline" && n != "return";
  }

  lemma ControlIndex(k: nat)
    requires k < 32
    ensures NameIndex(CHAR_NAMES, CHAR_NAMES[k], 0) == k
  {
    var j := NameIndex(CHAR_NAMES, CHAR_NAMES[k], 0);
    FirstIndex(CHAR_NAMES, CHAR_NAMES[k], 0, k);
    if j < k {
      NamesDiffer(j, k);
    }
  }

  lemma {:induction false} FirstIndex(names: seq<string>, name: string, i: nat, k: nat)
    requires i <= k < |names| && names[k] == name
    ensures NameIndex(names, name, i) <= k
    decreases k - i
  {
    if names[i] != name {
      FirstIndex(names, name, i + 1, k);
    }
  }

  /** A name that stands for a character: a letter by itself, or a word. */
  predicate Names(n: string, c: char) {
    && NamedChar(n) == Got(Char(c))
    && ((n == [c] && 32 < c as int < 127) || (n != [] && Unbroken(n) && c !in "();"))
  }

  lemma OneLetter(c: char)
    requires 32 < c as int < 127
    ensures Names([c], c)
  {
    var k := NameIndex(CHAR_NAMES, [c], 0);
    if k < 32 {
      NameShape(k);
    }
  }

  lemma Delete()
    ensures Names("del", 127 as char)
  {
    var k := NameIndex(CHAR_NAMES, "del", 0);
    if k < 32 {
      NotTabNotDel(k);
    }
    Lettered("del");
  }

  lemma WhiteName(c: char)
    requires c == ' ' || c == '\n' || c == '\r' || c == '\t'
    ensures Names(NameOf(c), c)
  {
    var n := NameOf(c);
    assert n == if c == ' ' then "space" else if c == '\n' then "newline" else if c == '\r' then "return" else "tab";
    assert forall i | 0 <= i < |n| :: Alphanumeric(n[i]);
    Lettered(n);
  }

  lemma ControlNames(k: nat)
    requires k < 32 && k != 9 && k != 10 && k != 13
    ensures Names(CHAR_NAMES[k], k as char)
  {
    ControlName(k);
    NameShape(k);
    NameUnbroken(k);
  }

  lemma Lettered(n: string)
    requires forall i | 0 <= i < |n| :: Alphanumeric(n[i])
    ensures Unbroken(n)
  {
  }

  /** The name by which a character is written. */
  function NameOf(c: char): (n: string)
    requires (c as int) < 128
    ensures CharText(c) == "#\\" + n && |CharText(c)| == 2 + |n|
  {
    CharText(c)[2..]
  }

  lemma NameReads(c: char)
    requires (c as int) < 128
    ensures Names(NameOf(c), c)
  {
    if c == ' ' || c == '\n' || c == '\r' || c == '\t' {
      WhiteName(c);
    } else if (c as int) < 32 {
      assert NameOf(c) == CHAR_NAMES[c as int];
      ControlNames(c as int);
    } else if c as int < 127 {
      assert NameOf(c) == [c];
      OneLetter(c);
    } else {
      assert NameOf(c) == "del";
      Delete();
    }
  }

  /** The word behind the `#`: a backslash and a name, or a backslash and a parenthesis or semicolon. */
  predicate CharWord(c: char, w: string) {
    if c in "();" then w == ['\\', c] else Unbroken(w) && |w| > 1 && w[0] == '\\'
  }

  lemma WordFor(c: char) returns (w: string)
    requires (c as int) < 128
    ensures CharText(c) == "#" + w && CharWord(c, w) && MkSharpConst(w) == Got(Char(c))
  {
    var n := NameOf(c);
    NameReads(c);
    Backslashed(n);
    w := "\\" + n;
    assert CharText(c) == "#" + w;
    if c in "();" {
      assert w == ['\\', c];
    } else {
      BackslashUnbroken(n);
    }
  }

  /** A delimiter is kept as part of the word. */
  lemma CharWordReads(c: char, w: string, t: string, p: nat, q: nat)
    requires CharWord(c, w) && q == p + |w| && IsBytes(t) && Spans(t, p, w) && WordEnd(t, q)
    ensures ReadUpTo(t, p) == (w, CharEnd(c, t, q))
  {
    if c in "();" {
      DelimiterReads(c, w, t, p);
    } else {
      WordReads(w, t, p);
    }
  }

  lemma CharWordAtom(c: char, w: string, text: string, t: string, p: nat, q: nat)
    requires CharWord(c, w) && text == "#" + w && MkSharpConst(w) == Got(Char(c)) && q == p + |text|
    requires IsBytes(t) && Spans(t, p, text) && WordEnd(t, q)
    ensures NextToken(t, p) == (SHARPCONST, p + 1)
    ensures ReadConst(t, p + 1) == Got((Char(c), CharEnd(c, t, q)))
  {
    SharpReads(w, t, p);
    CharWordReads(c, w, t, p + 1, q);
    SharpAtom(t, p + 1, w, CharEnd(c, t, q), Char(c));
  }

  lemma CharAtom(c: char, t: string, p: nat)
    requires (c as int) < 128 && IsBytes(t) && Spans(t, p, CharText(c)) && WordEnd(t, p + |CharText(c)|)
    ensures NextToken(t, p) == (SHARPCONST, p + 1)
    ensures ReadConst(t, p + 1) == Got((Char(c), CharEnd(c, t, p + |CharText(c)|)))
  {
    var text := CharText(c);
    TextAtom(c, text, t, p, p + |text|);
  }

  lemma TextAtom(c: char, text: string, t: string, p: nat, q: nat)
    requires (c as int) < 128 && text == CharText(c) && q == p + |text|
    requires IsBytes(t) && Spans(t, p, text) && WordEnd(t, q)
    ensures NextToken(t, p) == (SHARPCONST, p + 1)
    ensures ReadConst(t, p + 1) == Got((Char(c), CharEnd(c, t, q)))
  {
    var w := WordFor(c);
    CharWordAtom(c, w, text, t, p, q);
  }

  lemma BackslashUnbroken(n: string)
    requires Unbroken(n) || (|n| == 1 && 32 < n[0] as int < 127 && n[0] !in "();")
    ensures Unbroken("\\" + n)
  {
  }

  lemma Backslashed(n: string)
    ensures MkSharpConst("\\" + n) == NamedChar(n)
  {
    assert ("\\" + n)[1..] == n;
  }

  lemma SharpAtom(t: string, p: nat, w: string, q: nat, v: Value)
    requires IsBytes(t) && p <= |t| && ReadUpTo(t, p) == (w, q) && MkSharpConst(w) == Got(v)
    ensures ReadConst(t, p) == Got((v, q))
  {
  }

  /** Where the reader is after a character: a delimiter takes no look at what follows it. */
  function CharEnd(c: char, t: string, p: nat): nat {
    if c in "();" then p else Peeked(t, p)
  }

  lemma DelimiterReads(c: char, w: string, t: string, p: nat)
    requires 32 < c as int < 127 && c in DELIMITERS && w == ['\\', c] && Spans(t, p, w)
    ensures ReadUpTo(t, p) == (w, p + 2)
  {
    SpansAt(t, p, w, 0);
    SpansAt(t, p, w, 1);
    assert Inchar(t, p + 1) == (c as int, p + 2) && WordEnd(t, p + 1);
    assert Extent(t, p) == 1;
  }
}
