/** What words and escapes mean to the reader, also those that the printer never writes. */
module Words {
  import opened Registers
  import opened Lexer
  import opened AtomRoundTrip

  // ---------------------------------------------------------------------------
  // Integers
  // ---------------------------------------------------------------------------

  /** Digits with a sign or without, however many: beyond 64 bits they stand for the nearest number. */
  lemma SignedDigits(d: string)
    requires AllDigits(d) && d != ""
    ensures var v := DigitsValue(d);
            var most: int := if v > 9223372036854775807 then 9223372036854775807 else v;
            && MkAtom(d) == Num(most) && MkAtom("+" + d) == Num(most)
            && MkAtom("-" + d) == Num(if v > 9223372036854775808 then -9223372036854775808 else 0 - v)
  {
    IntegerAtom("", d);
    IntegerAtom("+", d);
    IntegerAtom("-", d);
    assert "" + d == d;
  }

  lemma IntegerAtom(sign: string, d: string)
    requires sign in {"", "+", "-"} && AllDigits(d) && d != ""
    ensures MkAtom(sign + d) == Num(Atoll(sign + d))
    ensures Atoll(sign + d) == Clamp(if sign == "-" then 0 - DigitsValue(d) as int else DigitsValue(d))
  {
    var q := sign + d;
    assert forall j | |sign| <= j < |q| :: q[j] == d[j - |sign|];
    assert q[|sign|..] == d;
    DigitsShape(q, |sign| + 1);
    NoColons(q, 0);
  }

  /** A plus sign in front of digits changes nothing. */
  lemma PlusReads(d: string, w: string, t: string, p: nat)
    requires AllDigits(d) && d != "" && w == "+" + d && IsBytes(t) && Spans(t, p, w) && WordEnd(t, p + |w|)
    ensures NextToken(t, p) == (ATOM, p) && ReadWord(t, p) == (MkAtom(d), Peeked(t, p + |w|))
  {
    SignedDigits(d);
    PlusIsWord(d, w);
    WordAtomReads(w, MkAtom(d), t, p);
  }

  lemma PlusIsWord(d: string, w: string)
    requires AllDigits(d) && w == "+" + d
    ensures Unbroken(w) && w != "" && w != "\\" && Starts(w[0])
  {
    assert w[0] == '+';
    forall i | 0 <= i < |w| ensures 0 < w[i] as int < 128 && w[i] !in DELIMITERS {
      assert i > 0 ==> w[i] == d[i - 1] && IsDigit(d[i - 1]);
    }
  }

  /** Zeros in front change nothing. */
  lemma {:induction false} LeadingZero(d: string)
    ensures DigitsValue("0" + d) == DigitsValue(d)
    decreases |d|
  {
    var q := "0" + d;
    if d == "" {
      assert q[..0] == "" && q[0] == '0';
    } else {
      LeadingZero(d[..|d| - 1]);
      assert q[..|q| - 1] == "0" + d[..|d| - 1];
    }
  }

  // ---------------------------------------------------------------------------
  // Other numbers, and symbols
  // ---------------------------------------------------------------------------

  predicate InNumbers(c: char) {
    IsDigit(c) || c in "./eE+-"
  }

  lemma {:induction false} NotANumber(q: string, i: nat, point: bool, slash: bool, k: nat)
    requires i <= k < |q| && !InNumbers(q[k])
    ensures NumberShape(q, i, point, slash) == Symbolic
    decreases |q| - i
  {
    if i < k {
      if i + 1 <= k {
        NotANumber(q, i + 1, point, slash, k);
        NotANumber(q, i + 1, true, slash, k);
        NotANumber(q, i + 1, point, true, k);
      }
      if i + 2 <= k {
        NotANumber(q, i + 2, true, slash, k);
      }
    }
  }

  /** A word with a character that is in no number, and without two colons together, is a symbol. */
  lemma WordIsSymbol(q: string, k: nat)
    requires k < |q| && !InNumbers(q[k]) && forall i | 0 < i < |q| :: !(q[i - 1] == ':' && q[i] == ':')
    ensures MkAtom(q) == Sym(q)
  {
    NoTwoColons(q, 0);
    if k >= 3 {
      NotANumber(q, 3, true, false, k);
    }
    if k >= 2 {
      NotANumber(q, 2, false, false, k);
      NotANumber(q, 2, true, false, k);
    }
    if k >= 1 {
      NotANumber(q, 1, false, false, k);
    }
  }

  lemma {:induction false} NoTwoColons(q: string, i: nat)
    requires i <= |q| && forall j | 0 < j < |q| :: !(q[j - 1] == ':' && q[j] == ':')
    ensures ColonsAt(q, i) == |q|
    decreases |q| - i
  {
    if i + 1 < |q| {
      assert !(q[i + 1 - 1] == ':' && q[i + 1] == ':');
      NoTwoColons(q, i + 1);
    }
  }

  /** A sign by itself is a symbol, and so is one in front of anything but a digit or a point. */
  lemma SignIsSymbol(q: string)
    requires q != "" && q[0] in "+-" && (|q| == 1 || (!IsDigit(q[1]) && q[1] != '.')) && ColonsAt(q, 0) == |q|
    ensures MkAtom(q) == Sym(q)
  {
  }

  /** Digits from `i` on. */
  lemma {:induction false} DigitsTo(q: string, i: nat, k: nat, point: bool, slash: bool)
    requires i <= k <= |q| && forall j | i <= j < k :: IsDigit(q[j])
    ensures NumberShape(q, i, point, slash) == NumberShape(q, k, point, slash)
    decreases k - i
  {
    if i < k {
      DigitsTo(q, i + 1, k, point, slash);
    }
  }

  /** A decimal or a ratio: digits, a point or a slash, and perhaps more digits, with a sign or without. */
  lemma FractionIsLiteral(sign: string, d: string, c: char, e: string)
    requires sign in {"", "+", "-"} && AllDigits(d) && d != "" && c in "./" && AllDigits(e)
    ensures MkAtom(sign + d + [c] + e) == Literal(sign + d + [c] + e)
    ensures AtomShape(sign + d + [c] + e) == if c == '/' then Ratio else RealNumber
  {
    var q, k := sign + d + [c] + e, |sign| + |d|;
    PartsOf(sign, d, [c], e);
    NoColons(q, 0);
    DigitsTo(q, |sign| + 1, k, false, false);
    assert NumberShape(q, k, false, false) == NumberShape(q, k + 1, c == '.', c == '/');
    DigitsTo(q, k + 1, |q|, c == '.', c == '/');
  }

  lemma PartsOf(a: string, d: string, c: string, e: string)
    requires a in {"", "+", "-"} && AllDigits(d) && AllDigits(e)
    ensures var q := a + d + c + e;
            && |q| == |a| + |d| + |c| + |e| && (a != "" ==> q[0] == a[0])
            && (forall j | |a| <= j < |a| + |d| :: IsDigit(q[j]))
            && (forall j | 0 <= j < |c| :: q[|a| + |d| + j] == c[j])
            && (forall j | |a| + |d| + |c| <= j < |q| :: IsDigit(q[j]))
  {
    var q := a + d + c + e;
    assert forall j | |a| <= j < |a| + |d| :: q[j] == d[j - |a|];
    assert forall j | |a| + |d| + |c| <= j < |q| :: q[j] == e[j - |a| - |d| - |c|];
  }

  /** A number with an exponent. */
  lemma ExponentIsLiteral(sign: string, d: string, c: char, minus: string, e: string)
    requires sign in {"", "+", "-"} && AllDigits(d) && d != "" && c in "eE" && minus in {"", "+", "-"}
    requires AllDigits(e) && e != ""
    ensures MkAtom(sign + d + ([c] + minus) + e) == Literal(sign + d + ([c] + minus) + e)
    ensures AtomShape(sign + d + ([c] + minus) + e) == RealNumber
  {
    var q, k := sign + d + ([c] + minus) + e, |sign| + |d|;
    PartsOf(sign, d, [c] + minus, e);
    assert q[k] == ([c] + minus)[0] == c;
    assert minus != "" ==> q[k + 1] == ([c] + minus)[1] == minus[0];
    NoColons(q, 0);
    DigitsTo(q, |sign| + 1, k, false, false);
    assert NumberShape(q, k, false, false) == NumberShape(q, k + 2, true, false);
    DigitsTo(q, k + 2, |q|, true, false);
  }

  /** `a::b` stands for a list of three. */
  lemma ColonHook(a: string, b: string)
    requires ColonsAt(a + "::" + b, 0) == |a|
    ensures MkAtom(a + "::" + b) ==
      Pair(Sym("*colon-hook*"), Pair(Pair(Sym("quote"), Pair(MkAtom(b), Nil)), Pair(Sym(a), Nil)))
  {
    var q := a + "::" + b;
    assert q[|a| + 2..] == b && q[..|a|] == a;
  }

  /** The first two colons together count. */
  lemma {:induction false} FirstColons(a: string, b: string, i: nat)
    requires i <= |a| && (forall j | 0 < j < |a| :: !(a[j - 1] == ':' && a[j] == ':')) && (a != "" ==> a[|a| - 1] != ':')
    ensures ColonsAt(a + "::" + b, i) == |a|
    decreases |a| - i
  {
    var q := a + "::" + b;
    assert q[|a|] == ':' && q[|a| + 1] == ':';
    if i < |a| {
      assert q[i] == a[i];
      assert i + 1 < |a| ==> q[i + 1] == a[i + 1] && !(a[i + 1 - 1] == ':' && a[i + 1] == ':');
      FirstColons(a, b, i + 1);
    }
  }

  // ---------------------------------------------------------------------------
  // Escapes
  // ---------------------------------------------------------------------------

  /** `c` is the hexadecimal digit `d`, small or capital. */
  predicate HexOf(c: char, d: nat) {
    d < 16 && (c == "0123456789abcdef"[d] || c == "0123456789ABCDEF"[d])
  }

  lemma HexOfIs(c: char, d: nat)
    requires HexOf(c, d)
    ensures '0' as int <= ToUpper(c as int) <= 'F' as int
    ensures forall h: nat :: HexDigit(h, ToUpper(c as int)) == 16 * h + d
  {
    if d < 10 {
      SmallDigit(d);
    } else {
      LargeDigit(d);
    }
  }

  lemma SmallDigit(d: nat)
    requires d < 10
    ensures "0123456789abcdef"[d] == "0123456789ABCDEF"[d] == ('0' as int + d) as char
  {
  }

  lemma LargeDigit(d: nat)
    requires 10 <= d < 16
    ensures "0123456789abcdef"[d] == ('a' as int + (d - 10)) as char
    ensures "0123456789ABCDEF"[d] == ('A' as int + (d - 10)) as char
  {
  }

  /** Two hexadecimal digits, small or capital, stand for the byte of that number. */
  lemma HexPairReads(x: char, a: char, hi: nat, b: char, lo: nat, t: string, p: nat, buf: string)
    requires x in "xX" && HexOf(a, hi) && HexOf(b, lo) && IsBytes(t) && Spans(t, p, ['\\', x, a, b])
    requires |buf| < STRBUFF_SIZE
    ensures ReadString(t, p, buf, NoEscape) == ReadString(t, p + 4, buf + [(16 * hi + lo) as char], NoEscape)
  {
    var e := ['\\', x, a, b];
    SpansAt(t, p, e, 0);
    SpansAt(t, p, e, 1);
    SpansAt(t, p, e, 2);
    SpansAt(t, p, e, 3);
    HexBegins(t, p, buf);
    HexDigits(a, hi, b, lo, t, p + 2, buf);
  }

  lemma HexBegins(t: string, p: nat, buf: string)
    requires IsBytes(t) && p + 1 < |t| && t[p] == '\\' && t[p + 1] in "xX" && |buf| < STRBUFF_SIZE
    ensures ReadString(t, p, buf, NoEscape) == ReadString(t, p + 2, buf, Hex1(0))
  {
    assert buf + "" == buf;
    assert ReadString(t, p, buf, NoEscape) == ReadString(t, p + 1, buf, Backslash);
  }

  lemma HexDigits(a: char, hi: nat, b: char, lo: nat, t: string, p: nat, buf: string)
    requires HexOf(a, hi) && HexOf(b, lo) && IsBytes(t) && p + 1 < |t| && t[p] == a && t[p + 1] == b
    requires |buf| < STRBUFF_SIZE
    ensures ReadString(t, p, buf, Hex1(0)) == ReadString(t, p + 2, buf + [(16 * hi + lo) as char], NoEscape)
  {
    HexOfIs(a, hi);
    HexOfIs(b, lo);
    HexChars(a, hi);
    HexChars(b, lo);
    assert buf + "" == buf;
    assert ReadString(t, p, buf, Hex1(0)) == ReadString(t, p + 1, buf, Hex2(hi));
  }

  lemma HexChars(c: char, d: nat)
    requires HexOf(c, d)
    ensures 0 < c as int < 128
  {
    if d < 10 {
      SmallDigit(d);
    } else {
      LargeDigit(d);
    }
  }

  /** Three letters stand for control characters, and any other character for itself. */
  lemma EscapeReads(c: char, t: string, p: nat, buf: string)
    requires 0 < c as int < 255 && c !in "xX" && IsBytes(t) && Spans(t, p, ['\\', c]) && |buf| < STRBUFF_SIZE
    ensures var k := if c == 'n' then 10 as char else if c == 't' then 9 as char else if c == 'r' then 13 as char else c;
            ReadString(t, p, buf, NoEscape) == ReadString(t, p + 2, buf + [k], NoEscape)
  {
    var e := ['\\', c];
    SpansAt(t, p, e, 0);
    SpansAt(t, p, e, 1);
    assert buf + "" == buf;
    assert ReadString(t, p, buf, NoEscape) == ReadString(t, p + 1, buf, Backslash);
  }

  // ---------------------------------------------------------------------------
  // Characters and tokens
  // ---------------------------------------------------------------------------

  /** The text ends where it is at an end, or at a NUL or a byte 255. */
  lemma EndsAt(t: string, p: nat)
    requires IsBytes(t)
    ensures Inchar(t, p).0 == EOF <==> p >= |t| || t[p] as int in {0, 255}
  {
  }

  /** A word goes on until a parenthesis, a semicolon, a blank, or the end. */
  lemma DelimitersAre(t: string, p: nat)
    requires IsBytes(t)
    ensures WordEnd(t, p) <==> p >= |t| || t[p] in "();" || t[p] as int in {0, 9, 10, 13, 32, 255}
  {
  }

  /** How tokens are spelt. */
  predicate Spelt(spelling: string, token: Token) {
    (spelling, token) in {("(", OPEN), (")", CLOSE), ("'", TICK), ("`", BACKTICK), (",@", ATMARK), (";", COMMENT),
                          ("#!", COMMENT), ("#(", VEC), ("\"", DQUOTE), (". ", DOT), (".\n", DOT), (".\t", DOT)}
  }

  /** A token that is spelt out is taken off the text. */
  lemma TokenSpelt(spelling: string, token: Token, t: string, p: nat)
    requires Spelt(spelling, token) && Spans(t, p, spelling)
    ensures NextToken(t, p) == (token, p + |spelling|)
  {
    SpansAt(t, p, spelling, 0);
    if |spelling| > 1 {
      SpansAt(t, p, spelling, 1);
    }
    FirstToken(t, p);
  }

  /** Of the other tokens only the first character is taken off, and nothing of an atom. */
  lemma TokenLookedAt(t: string, p: nat)
    requires p + 1 < |t| && 33 <= t[p] as int < 127 && 0 < t[p + 1] as int < 127
    ensures t[p] == ',' && t[p + 1] != '@' ==> NextToken(t, p) == (COMMA, p + 1)
    ensures t[p] == '#' && t[p + 1] in " tfodxb\\" ==> NextToken(t, p) == (SHARPCONST, p + 1)
    ensures t[p] == '#' && t[p + 1] !in " tfodxb\\(!" ==> NextToken(t, p) == (SHARP, p + 1)
    ensures t[p] == '.' && t[p + 1] !in " \n\t" ==> NextToken(t, p) == (ATOM, p)
    ensures t[p] !in "().'\";`,#" ==> NextToken(t, p) == (ATOM, p)
  {
    FirstToken(t, p);
  }
}
