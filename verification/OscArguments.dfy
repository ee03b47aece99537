/** The argument codec of OSC messages (`src/OSC.cpp`): OSC 1.0 type tags, and the body they describe. */
module OscArguments {
  import Lexer

  type Byte = x: int | 0 <= x < 256

  /** Arguments of a message that `processArgs` gives tags to; real numbers are left out. */
  datatype Arg = Str(s: string) | Integer(i: int) | List(items: seq<Arg>)

  /** A string that survives: no NUL, no quote, bytes only, within the reader's 4096 characters. */
  predicate StringOk(s: string) {
    |s| <= 4096 && forall k | 0 <= k < |s| :: 0 < s[k] as int < 256 && s[k] != '"'
  }

  /** The range of an integer as the tag `h` (64 bits) or `i` (32 bits) has it. */
  predicate InRange(i: int, long: bool) {
    if long then -0x8000_0000_0000_0000 <= i < 0x8000_0000_0000_0000 else -0x8000_0000 <= i < 0x8000_0000
  }

  predicate Sendable(a: Arg, long: bool)
    decreases a, 0
  {
    match a
    case Str(s) => StringOk(s)
    case Integer(i) => InRange(i, long)
    case List(items) => items != [] && AllSendable(items, long)
  }

  predicate AllSendable(args: seq<Arg>, long: bool)
    decreases args, 1
  {
    args != [] ==> Sendable(args[0], long) && AllSendable(args[1..], long)
  }

  // ---------------------------------------------------------------------------
  // Atoms
  // ---------------------------------------------------------------------------

  /** `n` in `k` bytes, highest first. */
  function BigEndian(n: nat, k: nat): (r: seq<Byte>)
    ensures |r| == k
    decreases k
  {
    if k == 0 then [] else BigEndian(n / 256, k - 1) + [n % 256]
  }

  function FromBigEndian(b: seq<Byte>): nat {
    if b == [] then 0 else 256 * FromBigEndian(b[..|b| - 1]) + b[|b| - 1]
  }

  function Power256(k: nat): nat {
    if k == 0 then 1 else 256 * Power256(k - 1)
  }

  lemma {:induction false} BigEndianReadsBack(n: nat, k: nat)
    requires n < Power256(k)
    ensures FromBigEndian(BigEndian(n, k)) == n
    decreases k
  {
    if k > 0 {
      BigEndianReadsBack(n / 256, k - 1);
      assert BigEndian(n, k)[..k - 1] == BigEndian(n / 256, k - 1);
    }
  }

  function Width(long: bool): nat {
    if long then 8 else 4
  }

  function Modulus(long: bool): nat {
    if long then 0x1_0000_0000_0000_0000 else 0x1_0000_0000
  }

  /** Two's complement. */
  function Unsigned(i: int, long: bool): nat {
    i % Modulus(long)
  }

  function SignedOf(n: nat, long: bool): int {
    if n < Modulus(long) / 2 then n else n - Modulus(long)
  }

  function IntegerBytes(i: int, long: bool): (r: seq<Byte>)
    ensures |r| == Width(long)
  {
    BigEndian(Unsigned(i, long), Width(long))
  }

  lemma PowersOf256(long: bool)
    ensures Power256(Width(long)) == Modulus(long)
  {
    assert Power256(4) == 0x1_0000_0000;
    assert Power256(8) == 0x1_0000_0000_0000_0000;
  }

  lemma TwosComplement(i: int, long: bool)
    requires InRange(i, long)
    ensures Unsigned(i, long) == (if i >= 0 then i else i + Modulus(long)) && Unsigned(i, long) < Modulus(long)
    ensures SignedOf(Unsigned(i, long), long) == i
  {
    if i < 0 {
      assert (i + Modulus(long)) % Modulus(long) == i % Modulus(long);
    }
  }

  lemma IntegerReadsBack(i: int, long: bool)
    requires InRange(i, long)
    ensures SignedOf(FromBigEndian(IntegerBytes(i, long)), long) == i
  {
    PowersOf256(long);
    TwosComplement(i, long);
    BigEndianReadsBack(Unsigned(i, long), Width(long));
  }

  function Zeros(n: nat): (r: seq<Byte>)
    ensures |r| == n && forall k | 0 <= k < n :: r[k] == 0
  {
    seq(n, k => 0)
  }

  function Codes(s: string): (r: seq<Byte>)
    ensures |r| == |s| && forall k | 0 <= k < |s| :: r[k] == s[k] as int % 256
  {
    seq(|s|, k requires 0 <= k < |s| => s[k] as int % 256)
  }

  /** A string is followed by one to four NULs, up to a multiple of four. */
  function StringBytes(s: string): (r: seq<Byte>)
    ensures |r| == |s| + 4 - |s| % 4 && |r| % 4 == 0
  {
    Codes(s) + Zeros(4 - |s| % 4)
  }

  /** How many characters `getOSCString` takes from a position on: up to a NUL or 4096 of them. */
  function StringExtent(b: seq<Byte>, p: nat, n: nat): (r: nat)
    ensures n <= 4096 ==> n <= r <= 4096
    ensures p <= |b| ==> r - n <= |b| - p
    decreases 4096 - n
  {
    if n >= 4096 || p >= |b| || b[p] == 0 then n else StringExtent(b, p + 1, n + 1)
  }

  function TextOf(b: seq<Byte>): string {
    seq(|b|, k requires 0 <= k < |b| => b[k] as char)
  }

  /** `getOSCString`, for strings without quotes: the string and the bytes it takes. */
  function StringAt(b: seq<Byte>, p: nat): (string, nat)
    requires p <= |b|
  {
    var n := StringExtent(b, p, 0);
    (TextOf(b[p..p + n]), n + 4 - n % 4)
  }

  /** The bytes from `p` on are these. */
  predicate Spans(b: seq<Byte>, p: nat, x: seq<Byte>) {
    p + |x| <= |b| && b[p..p + |x|] == x
  }

  lemma SpansAt(b: seq<Byte>, p: nat, x: seq<Byte>, k: nat)
    requires Spans(b, p, x) && k < |x|
    ensures b[p + k] == x[k]
  {
    assert b[p..p + |x|][k] == x[k];
  }

  lemma SpansParts(b: seq<Byte>, p: nat, x: seq<Byte>, y: seq<Byte>)
    requires Spans(b, p, x + y)
    ensures Spans(b, p, x) && Spans(b, p + |x|, y)
  {
    assert b[p..p + |x|] == (x + y)[..|x|];
    assert b[p + |x|..p + |x| + |y|] == (x + y)[|x|..];
  }

  lemma {:induction false} ExtentIs(b: seq<Byte>, p: nat, n: nat, k: nat)
    requires p + k < |b| && b[p + k] == 0 && n + k <= 4096 && forall j | p <= j < p + k :: b[j] != 0
    ensures StringExtent(b, p, n) == n + k
    decreases k
  {
    if k > 0 {
      ExtentIs(b, p + 1, n + 1, k - 1);
    }
  }

  lemma StringReadsBack(s: string, b: seq<Byte>, p: nat)
    requires StringOk(s) && Spans(b, p, StringBytes(s))
    ensures StringAt(b, p) == (s, |StringBytes(s)|)
  {
    var n := |s|;
    CharactersAt(s, b, p);
    ExtentIs(b, p, 0, n);
    assert TextOf(b[p..p + n]) == s;
  }

  /** The characters of a string and the NUL behind them. */
  lemma CharactersAt(s: string, b: seq<Byte>, p: nat)
    requires StringOk(s) && Spans(b, p, StringBytes(s))
    ensures p + |s| < |b| && b[p + |s|] == 0 && forall j | p <= j < p + |s| :: b[j] == s[j - p] as int
  {
    var x := StringBytes(s);
    SpansAt(b, p, x, |s|);
    forall j | p <= j < p + |s| ensures b[j] == s[j - p] as int {
      SpansAt(b, p, x, j - p);
    }
  }

  /** One character more, and the string is read back short. */
  lemma LongStringIsCut(s: string, b: seq<Byte>)
    requires |s| > 4096 && (forall k | 0 <= k < |s| :: 0 < s[k] as int < 256) && Spans(b, 0, StringBytes(s))
    ensures StringAt(b, 0) == (s[..4096], 4100)
  {
    forall j | 0 <= j < 4096 ensures b[j] == s[j] as int {
      SpansAt(b, 0, StringBytes(s), j);
    }
    ExtentAtLimit(b, 0);
    assert TextOf(b[0..4096]) == s[..4096];
  }

  lemma {:induction false} ExtentAtLimit(b: seq<Byte>, n: nat)
    requires n <= 4096 <= |b| && forall j | n <= j < 4096 :: b[j] != 0
    ensures StringExtent(b, n, n) == 4096
    decreases 4096 - n
  {
    if n < 4096 {
      ExtentAtLimit(b, n + 1);
    }
  }

  // ---------------------------------------------------------------------------
  // Messages
  // ---------------------------------------------------------------------------

  /** The tags of an argument; lists stand in brackets. */
  function TagsOf(a: Arg, long: bool): string
    decreases a, 0
  {
    if a.List? then "[" + (AllTags(a.items, long) + "]") else [AtomTag(a, long)]
  }

  function AtomTag(a: Arg, long: bool): char {
    if a.Str? then 's' else if long then 'h' else 'i'
  }

  function AllTags(args: seq<Arg>, long: bool): string
    decreases args, 1
  {
    if args == [] then "" else TagsOf(args[0], long) + AllTags(args[1..], long)
  }

  function BodyOf(a: Arg, long: bool): seq<Byte>
    decreases a, 0
  {
    match a
    case Str(s) => StringBytes(s)
    case Integer(i) => IntegerBytes(i, long)
    case List(items) => Body(items, long)
  }

  function Body(args: seq<Arg>, long: bool): seq<Byte>
    decreases args, 1
  {
    if args == [] then [] else BodyOf(args[0], long) + Body(args[1..], long)
  }

  /** An argument in the call that the receiver makes of a message. */
  function CallText(a: Arg): string
    decreases a, 0
  {
    match a
    case Str(s) => " \"" + s + "\""
    case Integer(i) => " " + Lexer.IntegerText(i)
    case List(items) => " (list " + (AllCallTexts(items) + ")")
  }

  function AllCallTexts(args: seq<Arg>): string
    decreases args, 1
  {
    if args == [] then "" else CallText(args[0]) + AllCallTexts(args[1..])
  }

  datatype Decoded = Call(text: string, pos: nat) | Dropped

  /** The text for one tag and the position after its bytes; tags of real numbers are left out. */
  function DecodeTag(tag: char, b: seq<Byte>, p: nat): Decoded {
    if tag == 'i' || tag == 'h' then
      var n := Width(tag == 'h');
      if p + n > |b| then Dropped
      else Call(" " + Lexer.IntegerText(SignedOf(FromBigEndian(b[p..p + n]), tag == 'h')), p + n)
    else if tag == 's' then
      if p > |b| then Dropped else var (s, n) := StringAt(b, p); Call(" \"" + s + "\"", p + n)
    else if tag == '[' then Call(" (list ", p)
    else if tag == ']' then Call(")", p)
    else Dropped
  }

  function Before(text: string, d: Decoded): Decoded {
    if d.Call? then Call(text + d.text, d.pos) else Dropped
  }

  /** What is done with one tag at a position of the body. */
  type TagDecoder = (char, nat) -> Decoded

  function InBody(b: seq<Byte>): TagDecoder {
    (tag: char, p: nat) => DecodeTag(tag, b, p)
  }

  function Decode(f: TagDecoder, tags: string, p: nat): Decoded
    decreases |tags|
  {
    if tags == "" then Call("", p)
    else
      var d := f(tags[0], p);
      if d.Dropped? then Dropped else Before(d.text, Decode(f, tags[1..], d.pos))
  }

  lemma DecodeStep(f: TagDecoder, c: char, tags: string, p: nat, text: string, q: nat)
    requires f(c, p) == Call(text, q)
    ensures Decode(f, [c] + tags, p) == Before(text, Decode(f, tags, q))
  {
    assert ([c] + tags)[1..] == tags;
  }

  lemma Assoc(x: string, y: string, z: string)
    ensures (x + y) + z == x + (y + z)
  {
  }

  lemma BeforeBefore(x: string, y: string, d: Decoded)
    ensures Before(x, Before(y, d)) == Before(x + y, d)
  {
    if d.Call? {
      assert x + (y + d.text) == (x + y) + d.text;
    }
  }

  predicate AtomFact(f: TagDecoder, a: Arg, long: bool, b: seq<Byte>, p: nat) {
    !a.List? && Sendable(a, long) && Spans(b, p, BodyOf(a, long)) ==>
      f(AtomTag(a, long), p) == Call(CallText(a), p + |BodyOf(a, long)|)
  }

  predicate BracketFact(f: TagDecoder, p: nat) {
    f('[', p) == Call(" (list ", p) && f(']', p) == Call(")", p)
  }

  /** A decoder that does the right thing with every tag that `processArgs` writes. */
  ghost predicate Decodes(f: TagDecoder, b: seq<Byte>, long: bool) {
    && (forall a, p: nat :: AtomFact(f, a, long, b, p))
    && (forall p: nat :: BracketFact(f, p))
  }

  lemma InBodyDecodes(b: seq<Byte>, long: bool)
    ensures Decodes(InBody(b), b, long)
  {
    forall a, p: nat ensures AtomFact(InBody(b), a, long, b, p) {
      if !a.List? && Sendable(a, long) && Spans(b, p, BodyOf(a, long)) {
        if a.Str? {
          StringDecodes(a.s, b, p);
        } else {
          IntegerDecodes(a.i, long, b, p);
        }
      }
    }
    forall p: nat ensures BracketFact(InBody(b), p) {}
  }

  lemma StringDecodes(s: string, b: seq<Byte>, p: nat)
    requires StringOk(s) && Spans(b, p, StringBytes(s))
    ensures DecodeTag('s', b, p) == Call(" \"" + s + "\"", p + |StringBytes(s)|)
  {
    StringReadsBack(s, b, p);
  }

  lemma IntegerDecodes(i: int, long: bool, b: seq<Byte>, p: nat)
    requires InRange(i, long) && Spans(b, p, IntegerBytes(i, long))
    ensures DecodeTag(if long then 'h' else 'i', b, p) == Call(" " + Lexer.IntegerText(i), p + Width(long))
  {
    IntegerReadsBack(i, long);
  }

  /** Brackets around tags that decode to `x` ... */
  lemma Bracketed(f: TagDecoder, tags: string, rest: string, x: string, p: nat, q: nat)
    requires BracketFact(f, p) && BracketFact(f, q)
    requires Decode(f, tags + ("]" + rest), p) == Before(x, Decode(f, "]" + rest, q))
    ensures Decode(f, ("[" + (tags + "]")) + rest, p) == Before(" (list " + (x + ")"), Decode(f, rest, q))
  {
    Assoc("[", tags + "]", rest);
    Assoc(tags, "]", rest);
    DecodeStep(f, '[', tags + ("]" + rest), p, " (list ", p);
    DecodeStep(f, ']', rest, q, ")", q);
    BeforeBefore(x, ")", Decode(f, rest, q));
    BeforeBefore(" (list ", x + ")", Decode(f, rest, q));
  }

  /** ... and tags one after the other. */
  lemma Followed(f: TagDecoder, t1: string, t2: string, rest: string, x1: string, x2: string, p: nat, q: nat, r: nat)
    requires Decode(f, t1 + (t2 + rest), p) == Before(x1, Decode(f, t2 + rest, q))
    requires Decode(f, t2 + rest, q) == Before(x2, Decode(f, rest, r))
    ensures Decode(f, (t1 + t2) + rest, p) == Before(x1 + x2, Decode(f, rest, r))
  {
    Assoc(t1, t2, rest);
    BeforeBefore(x1, x2, Decode(f, rest, r));
  }

  /** Decoding the tags and the body of an argument gives its text, and the decoder then stands where
      the bytes of the argument end. */
  lemma {:induction false} ArgumentDecodes(f: TagDecoder, a: Arg, long: bool, rest: string, b: seq<Byte>, p: nat)
    requires Decodes(f, b, long) && Sendable(a, long) && Spans(b, p, BodyOf(a, long))
    ensures Decode(f, TagsOf(a, long) + rest, p) == Before(CallText(a), Decode(f, rest, p + |BodyOf(a, long)|))
    decreases a, 0
  {
    if a.List? {
      var q := p + |Body(a.items, long)|;
      ArgumentsDecode(f, a.items, long, "]" + rest, b, p);
      assert BracketFact(f, p) && BracketFact(f, q);
      Bracketed(f, AllTags(a.items, long), rest, AllCallTexts(a.items), p, q);
    } else {
      assert AtomFact(f, a, long, b, p);
      DecodeStep(f, AtomTag(a, long), rest, p, CallText(a), p + |BodyOf(a, long)|);
    }
  }

  lemma {:induction false} ArgumentsDecode(f: TagDecoder, args: seq<Arg>, long: bool, rest: string,
                                          b: seq<Byte>, p: nat)
    requires Decodes(f, b, long) && AllSendable(args, long) && Spans(b, p, Body(args, long))
    ensures Decode(f, AllTags(args, long) + rest, p)
         == Before(AllCallTexts(args), Decode(f, rest, p + |Body(args, long)|))
    decreases args, 1
  {
    if args == [] {
      assert "" + rest == rest;
      BeforeNothing(Decode(f, rest, p));
    } else {
      var a, more := args[0], args[1..];
      var q := p + |BodyOf(a, long)|;
      SpansParts(b, p, BodyOf(a, long), Body(more, long));
      ArgumentDecodes(f, a, long, AllTags(more, long) + rest, b, p);
      ArgumentsDecode(f, more, long, rest, b, q);
      FirstAndOthers(f, args, long, rest, p, q);
    }
  }

  lemma FirstAndOthers(f: TagDecoder, args: seq<Arg>, long: bool, rest: string, p: nat, q: nat)
    requires args != [] && q == p + |BodyOf(args[0], long)|
    requires Decode(f, TagsOf(args[0], long) + (AllTags(args[1..], long) + rest), p)
          == Before(CallText(args[0]), Decode(f, AllTags(args[1..], long) + rest, q))
    requires Decode(f, AllTags(args[1..], long) + rest, q)
          == Before(AllCallTexts(args[1..]), Decode(f, rest, q + |Body(args[1..], long)|))
    ensures Decode(f, AllTags(args, long) + rest, p)
         == Before(AllCallTexts(args), Decode(f, rest, p + |Body(args, long)|))
  {
    Followed(f, TagsOf(args[0], long), AllTags(args[1..], long), rest, CallText(args[0]), AllCallTexts(args[1..]),
             p, q, q + |Body(args[1..], long)|);
  }

  lemma BeforeNothing(d: Decoded)
    ensures Before("", d) == d
  {
    if d.Call? {
      assert "" + d.text == d.text;
    }
  }

  /** A message round trip: the call rebuilds the arguments, nested as they were, and the decoder has
      used the body up. */
  lemma MessageDecodes(args: seq<Arg>, long: bool)
    requires AllSendable(args, long)
    ensures var b := Body(args, long);
            Decode(InBody(b), AllTags(args, long), 0) == Call(AllCallTexts(args), |b|)
  {
    var tags, b := AllTags(args, long), Body(args, long);
    assert tags + "" == tags && b[0..|b|] == b;
    InBodyDecodes(b, long);
    ArgumentsDecode(InBody(b), args, long, "", b, 0);
    assert AllCallTexts(args) + "" == AllCallTexts(args);
  }

  // ---------------------------------------------------------------------------
  // The format, written out
  // ---------------------------------------------------------------------------

  /** Integers stand with their highest byte first, as two's complement. */
  lemma IntegersWrittenOut(i: int, long: bool)
    requires InRange(i, long)
    ensures var b := IntegerBytes(i, long);
            var high := if long then 0x1_0000_0000_0000_0000 else 0x1_0000_0000;
            && |b| == (if long then 8 else 4)
            && (if i >= 0 then i else i + high) == if long then Eight(b) else Four(b)
  {
    var b := IntegerBytes(i, long);
    PowersOf256(long);
    TwosComplement(i, long);
    BigEndianReadsBack(Unsigned(i, long), Width(long));
    if long {
      EightBytes(b);
    } else {
      FourBytes(b);
    }
  }

  function Four(b: seq<Byte>): int
    requires |b| == 4
  {
    b[0] as int * 0x100_0000 + b[1] as int * 0x1_0000 + b[2] as int * 0x100 + b[3] as int
  }

  function Eight(b: seq<Byte>): int
    requires |b| == 8
  {
    Four(b[..4]) * 0x1_0000_0000 + Four(b[4..])
  }

  lemma FourBytes(b: seq<Byte>)
    requires |b| == 4
    ensures FromBigEndian(b) == Four(b)
  {
    BigEndianOf(b, 4);
    BigEndianOf(b, 3);
    BigEndianOf(b, 2);
    BigEndianOf(b, 1);
    assert b[..4] == b && b[..0] == [];
  }

  lemma EightBytes(b: seq<Byte>)
    requires |b| == 8
    ensures FromBigEndian(b) == Eight(b)
  {
    FourBytes(b[..4]);
    BigEndianOf(b, 8);
    BigEndianOf(b, 7);
    BigEndianOf(b, 6);
    BigEndianOf(b, 5);
    assert b[..8] == b;
  }

  lemma BigEndianOf(b: seq<Byte>, k: nat)
    requires 0 < k <= |b|
    ensures FromBigEndian(b[..k]) == 256 * FromBigEndian(b[..k - 1]) + b[k - 1]
  {
    assert b[..k][..k - 1] == b[..k - 1];
  }

  /** A string is its characters and zeros, one at least and four at most, up to a multiple of four. */
  lemma StringsWrittenOut(s: string, z: seq<Byte>)
    requires StringOk(s) && 1 <= |z| <= 4 && (|s| + |z|) % 4 == 0 && forall k | 0 <= k < |z| :: z[k] == 0
    ensures |StringBytes(s)| == |s| + |z|
    ensures forall k | 0 <= k < |s| :: StringBytes(s)[k] == s[k] as int
    ensures StringBytes(s)[|s|..] == z
  {
    assert |z| == 4 - |s| % 4;
  }

  /** A message with a string, an integer and a list: its tags, its body and the call that is made of it. */
  lemma MessageWrittenOut(s: string, i: int, t: string, long: bool)
    ensures var args := [Str(s), Integer(i), List([Str(t)])];
            && AllTags(args, long) == "s" + (if long then "h" else "i") + "[s]"
            && Body(args, long) == StringBytes(s) + IntegerBytes(i, long) + StringBytes(t)
            && AllCallTexts(args) == " \"" + s + "\" " + Lexer.IntegerText(i) + " (list  \"" + t + "\")"
  {
    var list := List([Str(t)]);
    var args := [Str(s), Integer(i), list];
    OneArgument(Str(t), long);
    OneArgument(list, long);
    FirstArgument(Integer(i), [list], long);
    FirstArgument(Str(s), [Integer(i), list], long);
    assert args[1..] == [Integer(i), list];
  }

  lemma OneArgument(a: Arg, long: bool)
    ensures AllTags([a], long) == TagsOf(a, long) && Body([a], long) == BodyOf(a, long) && AllCallTexts([a]) == CallText(a)
  {
    assert [a][1..] == [];
  }

  lemma FirstArgument(a: Arg, more: seq<Arg>, long: bool)
    ensures AllTags([a] + more, long) == TagsOf(a, long) + AllTags(more, long)
    ensures Body([a] + more, long) == BodyOf(a, long) + Body(more, long)
    ensures AllCallTexts([a] + more) == CallText(a) + AllCallTexts(more)
  {
    assert ([a] + more)[1..] == more;
  }

  /** A tag of another kind, or a body that is too short for an integer, drops the message. */
  lemma DroppedIff(tag: char, b: seq<Byte>, p: nat)
    requires p <= |b|
    ensures DecodeTag(tag, b, p).Dropped? <==>
      tag !in "ihs[]" || (tag == 'i' && p + 4 > |b|) || (tag == 'h' && p + 8 > |b|)
  {
  }
}
