/** Characters, tokens and atoms: what the reader's opcodes call, and the text of an atom.

  A text is a sequence of bytes.  As in the program a byte is read as a signed number, so that
  0xff is taken for the end of the input; so is a NUL.
 */
module Lexer {
  import opened Registers

  const EOF: int := -1
  const DELIMITERS: string := "();\t\n\r "

  function Signed(c: char): int {
    if c as int < 128 then c as int else c as int - 256
  }

  function CharOf(c: int): char
    requires -256 <= c < 256
  {
    (if c < 0 then c + 256 else c) as char
  }

  /** `inchar`: a character, and the position after it. */
  function Inchar(t: string, p: nat): (r: (int, nat))
    ensures p <= |t| ==> r.1 <= |t|
    ensures r.1 == p || r.1 == p + 1
    ensures r.0 != EOF ==> p < |t| && r == (Signed(t[p]), p + 1) && t[p] != '\0'
  {
    if p >= |t| || t[p] == '\0' then (EOF, p) else (Signed(t[p]), p + 1)
  }

  /** `backchar`. */
  function Backchar(c: int, p: nat): nat {
    if c == EOF || p == 0 then p else p - 1
  }

  predicate IsOneOf(s: string, c: int) {
    c == EOF || (0 <= c < 256 && c as char in s)
  }

  /** `isspace` or `iscntrl`. */
  predicate IsBlank(c: int) {
    0 <= c <= 32 || c == 127
  }

  function SkipSpace(t: string, p: nat): (q: nat)
    ensures p <= |t| ==> q <= |t|
    decreases |t| - p
  {
    var (c, q) := Inchar(t, p);
    if IsBlank(c) then SkipSpace(t, q) else Backchar(c, q)
  }

  datatype Token =
    | END | OPEN | CLOSE | DOT | ATOM | TICK | COMMENT | DQUOTE | BACKTICK | COMMA | ATMARK
    | SHARP | SHARPCONST | VEC

  /** `token`: the next token, and the position after what it consumes. */
  function NextToken(t: string, p: nat): (r: (Token, nat))
    ensures p <= |t| ==> r.1 <= |t|
  {
    TokenAt(t, SkipSpace(t, p))
  }

  function TokenAt(t: string, p: nat): (r: (Token, nat))
    ensures p <= |t| ==> r.1 <= |t|
  {
    var (c, q) := Inchar(t, p);
    if c == EOF then (END, q)
    else if t[p] == '(' then (OPEN, q)
    else if t[p] == ')' then (CLOSE, q)
    else if t[p] == '.' then
      var (c1, q1) := Inchar(t, q);
      if IsOneOf(" \n\t", c1) then (DOT, q1) else (ATOM, Backchar('.' as int, Backchar(c1, q1)))
    else if t[p] == '\'' then (TICK, q)
    else if t[p] == ';' then (COMMENT, q)
    else if t[p] == '"' then (DQUOTE, q)
    else if t[p] == '`' then (BACKTICK, q)
    else if t[p] == ',' then
      var (c1, q1) := Inchar(t, q);
      if c1 == '@' as int then (ATMARK, q1) else (COMMA, Backchar(c1, q1))
    else if t[p] == '#' then
      var (c1, q1) := Inchar(t, q);
      if c1 == '(' as int then (VEC, q1)
      else if c1 == '!' as int then (COMMENT, q1)
      else (if IsOneOf(" tfodxb\\", c1) then SHARPCONST else SHARP, Backchar(c1, q1))
    else (ATOM, Backchar(c, q))
  }

  /** How many characters there are before a delimiter. */
  function Extent(t: string, p: nat): (n: nat)
    requires p <= |t|
    ensures p + n <= |t|
    decreases |t| - p
  {
    if IsOneOf(DELIMITERS, Inchar(t, p).0) then 0 else 1 + Extent(t, p + 1)
  }

  /** `readstr_upto`: a backslash before the delimiter keeps it. */
  function ReadUpTo(t: string, p: nat): (r: (string, nat))
    requires p <= |t|
    ensures r.1 <= |t|
  {
    var n := Extent(t, p);
    var (c, q) := Inchar(t, p + n);
    if n == 1 && t[p] == '\\' then (if -256 <= c < 256 then [t[p], CharOf(c)] else [t[p]], q)
    else (t[p..p + n], Backchar(c, q))
  }

  // ---------------------------------------------------------------------------
  // String literals
  // ---------------------------------------------------------------------------

  const STRBUFF_SIZE: nat := 4194304

  datatype Escape = NoEscape | Backslash | Hex1(h: nat) | Hex2(h: nat)

  function ToUpper(c: int): int {
    if 'a' as int <= c <= 'z' as int then c - 32 else c
  }

  /** What one character adds to the buffer inside a literal, and the state after it. */
  function LiteralStep(state: Escape, c: int): (r: Eval<(string, Escape)>)
    requires -128 <= c < 256
    ensures !r.Timeout?
  {
    match state
    case NoEscape => if c == '\\' as int then Got(("", Backslash)) else Got(([CharOf(c)], NoEscape))
    case Backslash =>
      if c == 'x' as int || c == 'X' as int then Got(("", Hex1(0)))
      else
        var k := if c == 'n' as int then '\n' else if c == 't' as int then '\t'
                 else if c == 'r' as int then '\r' else CharOf(c);
        Got(([k], NoEscape))
    case Hex1(h) =>
      var u := ToUpper(c);
      if '0' as int <= u <= 'F' as int then Got(("", Hex2(HexDigit(h, u)))) else Fault
    case Hex2(h) =>
      var u := ToUpper(c);
      if '0' as int <= u <= 'F' as int then Got(([CharOf(HexDigit(h, u) % 256)], NoEscape)) else Fault
  }

  function HexDigit(h: nat, u: int): nat
    requires '0' as int <= u <= 'F' as int
  {
    if u <= '9' as int then 16 * h + u - '0' as int else 16 * h + u - 'A' as int + 10
  }

  predicate IsBytes(t: string) {
    forall i | 0 <= i < |t| :: t[i] as int < 256
  }

  /** `readstrexp`: the string, and the position after the closing quote. */
  function ReadString(t: string, p: nat, buf: string, state: Escape): (r: Eval<(string, nat)>)
    requires IsBytes(t)
    ensures !r.Timeout?
    ensures r.Got? ==> r.value.1 <= |t|
    decreases |t| - p
  {
    var (c, q) := Inchar(t, p);
    if c == EOF || |buf| > STRBUFF_SIZE - 1 then Fault
    else if state == NoEscape && c == '"' as int then Got((buf, q))
    else
      var (more, next) :- LiteralStep(state, c);
      ReadString(t, q, buf + more, next)
  }

  /** `printslashstring`, without the quotes around. */
  function Escaped(c: char): string {
    if c == '"' then "\\\""
    else if c == '\n' then "\\n"
    else if c == '\t' then "\\t"
    else if c == '\r' then "\\r"
    else if c == '\\' then "\\\\"
    else if c as int == 0xff || (c as int) < 32 then ['\\', 'x', HexChar(c as int / 16), HexChar(c as int % 16)]
    else [c]
  }

  function HexChar(d: nat): char
    requires d < 16
  {
    if d < 10 then ('0' as int + d) as char else ('A' as int + d - 10) as char
  }

  function EscapedText(s: string): string {
    if s == [] then [] else Escaped(s[0]) + EscapedText(s[1..])
  }

  function Quoted(s: string): string {
    "\"" + EscapedText(s) + "\""
  }

  // ---------------------------------------------------------------------------
  // Atoms
  // ---------------------------------------------------------------------------

  predicate IsDigit(c: char) {
    '0' <= c <= '9'
  }

  datatype Shape = Symbolic | Integer | Ratio | RealNumber

  /** The loop of `mk_atom` over what follows the first digit. */
  function NumberShape(q: string, i: nat, point: bool, slash: bool): Shape
    decreases |q| - i
  {
    if i >= |q| then if point then RealNumber else if slash then Ratio else Integer
    else
      var c := q[i];
      if IsDigit(c) then NumberShape(q, i + 1, point, slash)
      else if c == '.' && !point then NumberShape(q, i + 1, true, slash)
      else if c == '/' && !slash then NumberShape(q, i + 1, point, true)
      else if (c == 'e' || c == 'E') && i + 1 < |q| && (q[i + 1] == '-' || q[i + 1] == '+' || IsDigit(q[i + 1]))
      then NumberShape(q, i + 2, true, slash)
      else Symbolic
  }

  predicate DigitAt(q: string, i: nat) {
    i < |q| && IsDigit(q[i])
  }

  function AtomShape(q: string): Shape
    requires q != []
  {
    if q[0] == '+' || q[0] == '-' then
      if |q| > 1 && q[1] == '.' then if DigitAt(q, 2) then NumberShape(q, 3, true, false) else Symbolic
      else if DigitAt(q, 1) then NumberShape(q, 2, false, false) else Symbolic
    else if q[0] == '.' then if DigitAt(q, 1) then NumberShape(q, 2, true, false) else Symbolic
    else if IsDigit(q[0]) then NumberShape(q, 1, false, false)
    else Symbolic
  }

  /** Where `::` first stands in a name; its length if nowhere. */
  function ColonsAt(q: string, i: nat): (k: nat)
    requires i <= |q|
    ensures i <= k <= |q| && (k < |q| ==> k + 1 < |q|)
    decreases |q| - i
  {
    if i + 1 >= |q| then |q|
    else if q[i] == ':' && q[i + 1] == ':' then i
    else ColonsAt(q, i + 1)
  }

  /** `mk_atom`.  Rational and real numbers stay literals. */
  function MkAtom(q: string): Value
    decreases |q|
  {
    if q == [] then Nil
    else
      var k := ColonsAt(q, 0);
      if k < |q| then
        Pair(Sym("*colon-hook*"),
             Pair(Pair(Sym("quote"), Pair(MkAtom(q[k + 2..]), Nil)), Pair(Sym(q[..k]), Nil)))
      else
        match AtomShape(q)
        case Symbolic => Sym(q)
        case Integer => Num(Atoll(q))
        case _ => Literal(q)
  }

  function DigitValue(c: char): nat {
    if IsDigit(c) then c as int - '0' as int else 0
  }

  function DigitsValue(s: string): nat {
    if s == [] then 0 else 10 * DigitsValue(s[..|s| - 1]) + DigitValue(s[|s| - 1])
  }

  const MAX64: int := 0x7fff_ffff_ffff_ffff
  const MIN64: int := -0x8000_0000_0000_0000

  function Clamp(n: int): int {
    if n < MIN64 then MIN64 else if n > MAX64 then MAX64 else n
  }

  /** `atoll` of an optional sign and digits. */
  function Atoll(q: string): int
    requires q != []
  {
    if q[0] == '-' then Clamp(0 - DigitsValue(q[1..]) as int)
    else if q[0] == '+' then Clamp(DigitsValue(q[1..]))
    else Clamp(DigitsValue(q))
  }

  function Decimal(n: nat): (r: string)
    ensures r != []
  {
    if n < 10 then [('0' as int + n) as char] else Decimal(n / 10) + [('0' as int + n % 10) as char]
  }

  function IntegerText(n: int): (r: string)
    ensures r != []
  {
    if n < 0 then "-" + Decimal(-n) else Decimal(n)
  }

  const CHAR_NAMES: seq<string> := [
    "nul", "soh", "stx", "etx", "eot", "enq", "ack", "bel", "bs", "ht", "lf", "vt", "ff", "cr", "so", "si",
    "dle", "dc1", "dc2", "dc3", "dc4", "nak", "syn", "etb", "can", "em", "sub", "esc", "fs", "gs", "rs", "us"]

  /** `is_ascii_name`: the place of a name in the table; its length if it is not there. */
  function NameIndex(names: seq<string>, name: string, i: nat): (k: nat)
    requires i <= |names|
    ensures i <= k <= |names| && (k < |names| ==> names[k] == name)
    decreases |names| - i
  {
    if i == |names| then |names| else if names[i] == name then i else NameIndex(names, name, i + 1)
  }

  /** `mk_sharp_const`: what follows the `#`.  Numbers with a radix and hexadecimal characters stay
      literals. */
  function MkSharpConst(name: string): (r: Eval<Value>)
    ensures !r.Timeout?
  {
    if name == "t" then Got(True)
    else if name == "f" then Got(False)
    else if name == [] then Fault
    else if name[0] in "odxb" then Got(Literal(name))
    else if name[0] == '\\' then NamedChar(name[1..])
    else Fault
  }

  function NamedChar(n: string): (r: Eval<Value>)
    ensures !r.Timeout?
  {
    if n == "space" then Got(Char(' '))
    else if n == "newline" then Got(Char('\n'))
    else if n == "return" then Got(Char('\r'))
    else if n == "tab" then Got(Char('\t'))
    else if |n| > 1 && n[0] == 'x' then Got(Literal(n))
    else if NameIndex(CHAR_NAMES, n, 0) < 32 then Got(Char(NameIndex(CHAR_NAMES, n, 0) as char))
    else if n == "del" then Got(Char(127 as char))
    else if |n| == 1 then Got(Char(n[0]))
    else Fault
  }

  function CharText(c: char): string {
    if c == ' ' then "#\\space"
    else if c == '\n' then "#\\newline"
    else if c == '\r' then "#\\return"
    else if c == '\t' then "#\\tab"
    else if c as int == 127 then "#\\del"
    else if (c as int) < 32 then "#\\" + CHAR_NAMES[c as int]
    else "#\\" + [c]
  }

  /** `atom2str` for `write`. */
  function AtomText(v: Value): string {
    match v
    case Nil => "()"
    case True => "#t"
    case False => "#f"
    case EofObj => "#<EOF>"
    case Num(n) => IntegerText(n)
    case Str(s) => Quoted(s)
    case Char(c) => CharText(c)
    case Sym(name) => name
    case Literal(text) => text
    case Closure(_, _) => "#<CLOSURE>"
    case Proc(_) => "#<PROCEDURE>"
    case Pair(_, _) => ""
  }

  /** An atom that is a word. */
  function ReadWord(t: string, p: nat): (r: (Value, nat))
    requires p <= |t|
    ensures r.1 <= |t|
  {
    (MkAtom(ReadUpTo(t, p).0), ReadUpTo(t, p).1)
  }

  function ReadLiteral(t: string, p: nat): (r: Eval<(Value, nat)>)
    requires IsBytes(t)
    ensures !r.Timeout? && (r.Got? ==> r.value.1 <= |t|)
  {
    var (s, q) :- ReadString(t, p, "", NoEscape);
    Got((Str(s), q))
  }

  /** A constant after a `#`. */
  function ReadConst(t: string, p: nat): (r: Eval<(Value, nat)>)
    requires p <= |t|
    ensures !r.Timeout? && (r.Got? ==> r.value.1 <= |t|)
  {
    var v :- MkSharpConst(ReadUpTo(t, p).0);
    Got((v, ReadUpTo(t, p).1))
  }

  /** What the opcodes of the reader do with a token that begins an atom. */
  function ReadAtom(t: string, token: Token, p: nat): (r: Eval<(Value, nat)>)
    requires IsBytes(t) && p <= |t|
    ensures !r.Timeout? && (r.Got? ==> r.value.1 <= |t|)
  {
    if token == ATOM then Got(ReadWord(t, p))
    else if token == DQUOTE then ReadLiteral(t, p)
    else if token == SHARPCONST then ReadConst(t, p)
    else Fault
  }
}
