/** Base64 (section 4 of RFC 4648), as `src/UNIV.cpp` encodes and decodes it. */
module Base64 {

  type Byte = x: int | 0 <= x < 256

  type Sextet = x: int | 0 <= x < 64

  const PAD: char := '='

  /** `base64_std_encoding_table`. */
  function Digit(n: Sextet): char {
    if n < 26 then ('A' as int + n) as char
    else if n < 52 then ('a' as int + n - 26) as char
    else if n < 62 then ('0' as int + n - 52) as char
    else if n == 62 then '+' else '/'
  }

  /** `base64_std_decoding_table`, and 0 for padding; what the table holds for other characters is
      not specified, and is 0 here. */
  function Value(c: char): Sextet {
    if 'A' <= c <= 'Z' then c as int - 'A' as int
    else if 'a' <= c <= 'z' then c as int - 'a' as int + 26
    else if '0' <= c <= '9' then c as int - '0' as int + 52
    else if c == '+' then 62
    else if c == '/' then 63
    else 0
  }

  lemma DigitsHaveValues(n: Sextet)
    ensures Value(Digit(n)) == n && Digit(n) != PAD
  {
  }

  // ---------------------------------------------------------------------------
  // Groups
  // ---------------------------------------------------------------------------

  function Triple(a: Byte, b: Byte, c: Byte): nat {
    0x10000 * a + 0x100 * b + c
  }

  /** The four sextets of a triple. */
  function Split(t: nat): (r: seq<Sextet>)
    ensures |r| == 4
  {
    [t / 64 / 64 / 64 % 64, t / 64 / 64 % 64, t / 64 % 64, t % 64]
  }

  function Join(a: Sextet, b: Sextet, c: Sextet, d: Sextet): nat {
    0x40000 * a + 0x1000 * b + 0x40 * c + d
  }

  function Octets(t: nat): (r: seq<Byte>)
    ensures |r| == 3
  {
    [t / 256 / 256 % 256, t / 256 % 256, t % 256]
  }

  lemma SplitJoins(t: nat)
    requires t < 0x1000000
    ensures var s := Split(t); Join(s[0], s[1], s[2], s[3]) == t
  {
    var u, v := t / 64, t / 64 / 64;
    assert t == 64 * u + t % 64 && u == 64 * v + u % 64 && v == 64 * (v / 64) + v % 64;
    assert v / 64 < 64;
  }

  lemma OctetsOfTriple(a: Byte, b: Byte, c: Byte)
    ensures Octets(Triple(a, b, c)) == [a, b, c]
  {
    var t := Triple(a, b, c);
    Shift(0x100 * a + b, c);
    Shift(a, b);
    assert t == 256 * (0x100 * a + b) + c;
  }

  lemma Shift(q: nat, r: Byte)
    ensures (256 * q + r) / 256 == q && (256 * q + r) % 256 == r
  {
  }

  type Group = s: string | |s| == 4 witness "AAAA"

  type Bytes3 = s: seq<Byte> | |s| == 3 witness [0, 0, 0]

  function EncodeGroup(a: Byte, b: Byte, c: Byte): Group {
    var s := Split(Triple(a, b, c));
    [Digit(s[0]), Digit(s[1]), Digit(s[2]), Digit(s[3])]
  }

  function DecodeGroup(d: Group): Bytes3 {
    Octets(Join(Value(d[0]), Value(d[1]), Value(d[2]), Value(d[3])))
  }

  lemma GroupDecodes(a: Byte, b: Byte, c: Byte)
    ensures DecodeGroup(EncodeGroup(a, b, c)) == [a, b, c]
  {
    var s := Split(Triple(a, b, c));
    DigitsHaveValues(s[0]);
    DigitsHaveValues(s[1]);
    DigitsHaveValues(s[2]);
    DigitsHaveValues(s[3]);
    SplitJoins(Triple(a, b, c));
    OctetsOfTriple(a, b, c);
  }

  /** Where bytes are missing the sextets for them are zero. */
  lemma LastSextet(a: Byte, b: Byte)
    ensures Split(Triple(a, b, 0))[3] == 0
  {
    LowBits(1024 * a + 4 * b);
  }

  lemma ThirdSextet(a: Byte)
    ensures Split(Triple(a, 0, 0))[2] == 0
  {
    LowBits(1024 * a);
    LowBits(16 * a);
  }

  lemma LowBits(n: nat)
    ensures 64 * n % 64 == 0 && 64 * n / 64 == n
  {
  }

  /** Digits are never padding. */
  lemma NoPadding(a: Byte, b: Byte, c: Byte)
    ensures forall k | 0 <= k < 4 :: EncodeGroup(a, b, c)[k] != PAD
  {
    var s := Split(Triple(a, b, c));
    DigitsHaveValues(s[0]);
    DigitsHaveValues(s[1]);
    DigitsHaveValues(s[2]);
    DigitsHaveValues(s[3]);
  }

  lemma GroupDigits(a: Byte, b: Byte, c: Byte)
    ensures var d := EncodeGroup(a, b, c);
            (c == 0 ==> Value(d[3]) == 0) && (b == 0 && c == 0 ==> Value(d[2]) == 0)
  {
    if c == 0 {
      LastSextet(a, b);
      DigitsHaveValues(0);
      if b == 0 {
        ThirdSextet(a);
      }
    }
  }

  // ---------------------------------------------------------------------------
  // Whole texts
  // ---------------------------------------------------------------------------

  type Encoder = (Byte, Byte, Byte) -> Group

  type Decoder = Group -> Bytes3

  /** The digits of the first `n` groups of three bytes. */
  function Digits(g: Encoder, x: seq<Byte>, n: nat): (r: string)
    requires 3 * n <= |x|
    ensures |r| == 4 * n
  {
    if n == 0 then "" else Digits(g, x, n - 1) + g(x[3 * n - 3], x[3 * n - 2], x[3 * n - 1])
  }

  /** All bytes of the first `n` groups of four digits. */
  function Bytes(h: Decoder, d: string, n: nat): (r: seq<Byte>)
    requires 4 * n <= |d|
    ensures |r| == 3 * n
  {
    if n == 0 then [] else Bytes(h, d, n - 1) + h(d[4 * n - 4..4 * n])
  }

  /** How many groups there are, and how many bytes are missing from the last one. */
  function Groups(n: nat): nat {
    (n + 2) / 3
  }

  function Missing(n: nat): (p: nat)
    ensures p < 3 && n + p == 3 * Groups(n)
  {
    3 * Groups(n) - n
  }

  function Zeros(n: nat): (r: seq<Byte>)
    ensures |r| == n && forall k | 0 <= k < n :: r[k] == 0
  {
    seq(n, k => 0)
  }

  function Padding(n: nat): (r: string)
    ensures |r| == n && forall k | 0 <= k < n :: r[k] == PAD
  {
    seq(n, k => PAD)
  }

  function Filled(x: seq<Byte>): (r: seq<Byte>)
    ensures |r| == 3 * Groups(|x|)
  {
    x + Zeros(Missing(|x|))
  }

  /** Padding in place of the last `p` digits. */
  function Padded(d: string, p: nat): (r: string)
    requires p <= |d|
    ensures |r| == |d|
  {
    d[..|d| - p] + Padding(p)
  }

  /** The encoding: the digits of the bytes filled up with zeros, with padding. */
  function EncodedBy(g: Encoder, x: seq<Byte>): (r: string)
    ensures |r| == 4 * Groups(|x|)
  {
    Padded(Digits(g, Filled(x), Groups(|x|)), Missing(|x|))
  }

  function Encoded(x: seq<Byte>): string {
    EncodedBy(EncodeGroup, x)
  }

  /** The length of what is decoded from `n` groups: padding at the end counts. */
  function DecodedLength(d: string, n: nat): (r: nat)
    requires |d| == 4 * n && n > 0
    ensures r <= 3 * n
  {
    3 * n - (if d[|d| - 1] == PAD then 1 else 0) - (if d[|d| - 2] == PAD then 1 else 0)
  }

  function DecodedBy(h: Decoder, d: string, n: nat): seq<Byte>
    requires |d| == 4 * n && n > 0
  {
    Bytes(h, d, n)[..DecodedLength(d, n)]
  }

  function Decoded(d: string): seq<Byte>
    requires |d| % 4 == 0 && d != ""
  {
    DecodedBy(DecodeGroup, d, |d| / 4)
  }

  // ---------------------------------------------------------------------------
  // The round trip
  // ---------------------------------------------------------------------------

  predicate SameValues(d: string, e: string) {
    |d| == |e| && forall k | 0 <= k < |d| :: Value(d[k]) == Value(e[k])
  }

  /** A group decodes to what it encodes. */
  predicate Inverse(g: Encoder, h: Decoder, a: Byte, b: Byte, c: Byte) {
    h(g(a, b, c)) == [a, b, c]
  }

  predicate GroupFact(g: Encoder, a: Byte, b: Byte, c: Byte) {
    && (forall k | 0 <= k < 4 :: g(a, b, c)[k] != PAD)
    && (c == 0 ==> Value(g(a, b, c)[3]) == 0) && (b == 0 && c == 0 ==> Value(g(a, b, c)[2]) == 0)
  }

  /** Encoder and decoder of groups that belong together. */
  ghost predicate Match(g: Encoder, h: Decoder) {
    && (forall a: Byte, b: Byte, c: Byte :: Inverse(g, h, a, b, c) && GroupFact(g, a, b, c))
    && (forall q: Group, r: Group :: SameValues(q, r) ==> h(q) == h(r))
  }

  lemma GroupsMatch()
    ensures Match(EncodeGroup, DecodeGroup)
  {
    forall a: Byte, b: Byte, c: Byte
      ensures Inverse(EncodeGroup, DecodeGroup, a, b, c) && GroupFact(EncodeGroup, a, b, c)
    {
      GroupDecodes(a, b, c);
      NoPadding(a, b, c);
      GroupDigits(a, b, c);
    }
  }

  lemma {:induction false} DigitsAt(g: Encoder, x: seq<Byte>, n: nat, k: nat)
    requires k < n && 3 * n <= |x|
    ensures Digits(g, x, n)[4 * k..4 * k + 4] == g(x[3 * k], x[3 * k + 1], x[3 * k + 2])
    decreases n
  {
    if k < n - 1 {
      DigitsAt(g, x, n - 1, k);
    }
  }

  /** Only the values of digits matter: a text with the same values decodes like the digits. */
  lemma {:induction false} DigitsDecode(g: Encoder, h: Decoder, x: seq<Byte>, n: nat, e: string, k: nat)
    requires Match(g, h) && 3 * n <= |x| && k <= n && SameValues(e, Digits(g, x, n))
    ensures Bytes(h, e, k) == x[..3 * k]
    decreases k
  {
    if k > 0 {
      DigitsDecode(g, h, x, n, e, k - 1);
      DigitsAt(g, x, n, k - 1);
      var d := Digits(g, x, n);
      assert SameValues(e[4 * k - 4..4 * k], d[4 * k - 4..4 * k]);
      assert Inverse(g, h, x[3 * k - 3], x[3 * k - 2], x[3 * k - 1]);
      LastThree(x, k);
    }
  }

  lemma LastThree(x: seq<Byte>, k: nat)
    requires 0 < k && 3 * k <= |x|
    ensures x[..3 * k] == x[..3 * (k - 1)] + [x[3 * k - 3], x[3 * k - 2], x[3 * k - 1]]
  {
  }

  /** No digit is padding, and those that stand for missing bytes are zero. */
  lemma EndsInZeros(g: Encoder, h: Decoder, x: seq<Byte>, n: nat, p: nat)
    requires Match(g, h) && n > 0 && |x| == 3 * n && p < 3 && forall k | |x| - p <= k < |x| :: x[k] == 0
    ensures var d := Digits(g, x, n);
            d[4 * n - 1] != PAD && d[4 * n - 2] != PAD && d[4 * n - 3] != PAD
            && forall k | 4 * n - p <= k < 4 * n :: Value(d[k]) == 0
  {
    var d := Digits(g, x, n);
    var a, b, c := x[3 * n - 3], x[3 * n - 2], x[3 * n - 1];
    assert GroupFact(g, a, b, c);
    DigitsAt(g, x, n, n - 1);
    assert d[4 * n - 4..4 * n] == g(a, b, c);
    assert d[4 * n - 1] == g(a, b, c)[3] && d[4 * n - 2] == g(a, b, c)[2] && d[4 * n - 3] == g(a, b, c)[1];
  }

  lemma PaddingCounts(d: string, n: nat, p: nat)
    requires n > 0 && |d| == 4 * n && p < 3
    requires d[4 * n - 1] != PAD && d[4 * n - 2] != PAD && d[4 * n - 3] != PAD
    requires forall k | 4 * n - p <= k < 4 * n :: Value(d[k]) == 0
    ensures SameValues(Padded(d, p), d) && DecodedLength(Padded(d, p), n) == 3 * n - p
  {
  }

  lemma DecodesBackBy(g: Encoder, h: Decoder, x: seq<Byte>)
    requires x != [] && Match(g, h)
    ensures DecodedBy(h, EncodedBy(g, x), Groups(|x|)) == x
  {
    var n, p, y := Groups(|x|), Missing(|x|), Filled(x);
    EndsInZeros(g, h, y, n, p);
    PaddingCounts(Digits(g, y, n), n, p);
    DigitsDecode(g, h, y, n, EncodedBy(g, x), n);
    assert y[..3 * n][..|x|] == x;
  }

  /** Decoding an encoding gives the bytes back, with or without padding. */
  lemma DecodesBack(x: seq<Byte>)
    requires x != []
    ensures |Encoded(x)| % 4 == 0 && Decoded(Encoded(x)) == x
  {
    GroupsMatch();
    DecodesBackBy(EncodeGroup, DecodeGroup, x);
    assert |Encoded(x)| / 4 == Groups(|x|);
  }

  // ---------------------------------------------------------------------------
  // The encoding, written out
  // ---------------------------------------------------------------------------

  const CAPITALS: string := "ABCDEFGHIJKLMNOPQRSTUVWXYZ"
  const SMALL: string := "abcdefghijklmnopqrstuvwxyz"
  const NUMERALS: string := "0123456789"
  const ALPHABET: string := CAPITALS + SMALL + NUMERALS + "+/"

  /** Digit `n` is character `n` of the alphabet. */
  lemma DigitInAlphabet(n: Sextet)
    ensures |ALPHABET| == 64 && Digit(n) == ALPHABET[n]
  {
    if n < 26 {
      Capital(n);
    } else if n < 52 {
      SmallLetter(n - 26);
    } else if n < 62 {
      Numeral(n - 52);
    }
  }

  lemma Capital(n: nat)
    requires n < 26
    ensures |CAPITALS| == 26 && CAPITALS[n] == ('A' as int + n) as char
  {
    Consecutive(CAPITALS, n);
  }

  lemma SmallLetter(n: nat)
    requires n < 26
    ensures |SMALL| == 26 && SMALL[n] == ('a' as int + n) as char
  {
    Consecutive(SMALL, n);
  }

  lemma Numeral(n: nat)
    requires n < 10
    ensures |NUMERALS| == 10 && NUMERALS[n] == ('0' as int + n) as char
  {
    Consecutive(NUMERALS, n);
  }

  lemma {:induction false} Consecutive(s: string, n: nat)
    requires n < |s| && forall i | 0 < i < |s| :: s[i] as int == s[i - 1] as int + 1
    ensures s[n] as int == s[0] as int + n
    decreases n
  {
    if n > 0 {
      Consecutive(s, n - 1);
    }
  }

  /** The digits of three bytes are their bits, six at a time. */
  lemma GroupBits(a: Byte, b: Byte, c: Byte)
    ensures |ALPHABET| == 64
    ensures EncodeGroup(a, b, c) ==
      [ALPHABET[a / 4], ALPHABET[a % 4 * 16 + b / 16], ALPHABET[b % 16 * 4 + c / 64], ALPHABET[c % 64]]
  {
    SplitBits(a, b, c);
    DigitInAlphabet(a / 4);
    DigitInAlphabet(a % 4 * 16 + b / 16);
    DigitInAlphabet(b % 16 * 4 + c / 64);
    DigitInAlphabet(c % 64);
  }

  lemma SplitBits(a: Byte, b: Byte, c: Byte)
    ensures Split(Triple(a, b, c)) == [a / 4, a % 4 * 16 + b / 16, b % 16 * 4 + c / 64, c % 64]
  {
    var t := Triple(a, b, c);
    SixBits(t, 1024 * a + 4 * b + c / 64, c % 64);
    SixBits(1024 * a + 4 * b + c / 64, 16 * a + b / 16, b % 16 * 4 + c / 64);
    SixBits(16 * a + b / 16, a / 4, a % 4 * 16 + b / 16);
  }

  lemma SixBits(t: nat, q: nat, r: nat)
    requires t == 64 * q + r && r < 64
    ensures t / 64 == q && t % 64 == r
  {
  }

  /** Two padding characters after one byte, one after two, and none after three; and what comes after three
      bytes is encoded by itself. */
  lemma EncodingWrittenOut(a: Byte, b: Byte, c: Byte, x: seq<Byte>)
    ensures |ALPHABET| == 64 && Encoded([]) == ""
    ensures Encoded([a]) == [ALPHABET[a / 4], ALPHABET[a % 4 * 16], '=', '=']
    ensures Encoded([a, b]) == [ALPHABET[a / 4], ALPHABET[a % 4 * 16 + b / 16], ALPHABET[b % 16 * 4], '=']
    ensures Encoded([a, b, c] + x) ==
      [ALPHABET[a / 4], ALPHABET[a % 4 * 16 + b / 16], ALPHABET[b % 16 * 4 + c / 64], ALPHABET[c % 64]] + Encoded(x)
  {
    OneByteEncoded(a);
    TwoBytesEncoded(a, b);
    GroupBits(a, b, c);
    FirstGroup(EncodeGroup, a, b, c, x);
  }

  lemma OneByteEncoded(a: Byte)
    ensures |ALPHABET| == 64 && Encoded([a]) == [ALPHABET[a / 4], ALPHABET[a % 4 * 16], '=', '=']
  {
    GroupAt(a, 0, 0, a / 4, a % 4 * 16, 0, 0);
    OneByte(EncodeGroup, a);
  }

  lemma TwoBytesEncoded(a: Byte, b: Byte)
    ensures |ALPHABET| == 64
    ensures Encoded([a, b]) == [ALPHABET[a / 4], ALPHABET[a % 4 * 16 + b / 16], ALPHABET[b % 16 * 4], '=']
  {
    GroupAt(a, b, 0, a / 4, a % 4 * 16 + b / 16, b % 16 * 4, 0);
    TwoBytes(EncodeGroup, a, b);
  }

  lemma GroupAt(a: Byte, b: Byte, c: Byte, i: nat, j: nat, k: nat, l: nat)
    requires i == a / 4 && j == a % 4 * 16 + b / 16 && k == b % 16 * 4 + c / 64 && l == c % 64
    ensures |ALPHABET| == 64 && i < 64 && j < 64 && k < 64 && l < 64
    ensures EncodeGroup(a, b, c) == [ALPHABET[i], ALPHABET[j], ALPHABET[k], ALPHABET[l]]
  {
    GroupBits(a, b, c);
  }

  lemma OneByte(g: Encoder, a: Byte)
    ensures var q := g(a, 0, 0); EncodedBy(g, [a]) == [q[0], q[1], '=', '=']
  {
    assert Filled([a]) == [a, 0, 0];
    assert Digits(g, [a, 0, 0], 0) == "";
  }

  lemma TwoBytes(g: Encoder, a: Byte, b: Byte)
    ensures var q := g(a, b, 0); EncodedBy(g, [a, b]) == [q[0], q[1], q[2], '=']
  {
    assert Filled([a, b]) == [a, b, 0];
    assert Digits(g, [a, b, 0], 0) == "";
  }

  lemma FirstGroup(g: Encoder, a: Byte, b: Byte, c: Byte, x: seq<Byte>)
    ensures EncodedBy(g, [a, b, c] + x) == g(a, b, c) + EncodedBy(g, x)
  {
    var y, n := [a, b, c] + x, Groups(|x|);
    assert Groups(|y|) == n + 1 && Missing(|y|) == Missing(|x|);
    assert Filled(y) == [a, b, c] + Filled(x);
    LaterDigits(g, a, b, c, Filled(x), n);
  }

  lemma {:induction false} LaterDigits(g: Encoder, a: Byte, b: Byte, c: Byte, x: seq<Byte>, n: nat)
    requires 3 * n <= |x|
    ensures Digits(g, [a, b, c] + x, n + 1) == g(a, b, c) + Digits(g, x, n)
    decreases n
  {
    if n > 0 {
      LaterDigits(g, a, b, c, x, n - 1);
    } else {
      assert Digits(g, [a, b, c] + x, 0) == "";
    }
  }

  // ---------------------------------------------------------------------------
  // The loops
  // ---------------------------------------------------------------------------

  /** `base64_encode`. */
  method Base64Encode(data: array<Byte>) returns (encoded: array<char>)
    ensures fresh(encoded) && encoded[..] == Encoded(data[..])
  {
    encoded := EncodeGroups(EncodeGroup, data);
    PadEnd(encoded, Missing(data.Length));
  }

  /** Group by group, bytes that are missing being zero. */
  method EncodeGroups(g: Encoder, data: array<Byte>) returns (encoded: array<char>)
    ensures fresh(encoded) && encoded[..] == Digits(g, Filled(data[..]), Groups(data.Length))
  {
    encoded := new char[4 * Groups(data.Length)];
    ghost var y, k := Filled(data[..]), 0;
    var i, j := 0, 0;
    while i < data.Length
      invariant i == 3 * k && j == 4 * k && k <= Groups(data.Length)
      invariant encoded[..j] == Digits(g, y, k)
    {
      var a := data[i];
      var b: Byte := if i + 1 < data.Length then data[i + 1] else 0;
      var c: Byte := if i + 2 < data.Length then data[i + 2] else 0;
      FilledAt(data[..], k);
      PutGroup(encoded, j, g(a, b, c));
      i, j, k := i + 3, j + 4, k + 1;
    }
    assert encoded[..j] == encoded[..];
  }

  lemma FilledAt(x: seq<Byte>, k: nat)
    requires 3 * k < |x|
    ensures var y := Filled(x);
            && k < Groups(|x|) && y[3 * k] == x[3 * k]
            && y[3 * k + 1] == (if 3 * k + 1 < |x| then x[3 * k + 1] else 0)
            && y[3 * k + 2] == (if 3 * k + 2 < |x| then x[3 * k + 2] else 0)
  {
  }

  method PutGroup(encoded: array<char>, j: nat, group: Group)
    requires j + 4 <= encoded.Length
    modifies encoded
    ensures encoded[..j + 4] == old(encoded[..j]) + group
  {
    encoded[j], encoded[j + 1], encoded[j + 2], encoded[j + 3] := group[0], group[1], group[2], group[3];
  }

  /** `=` in place of the last digits. */
  method PadEnd(encoded: array<char>, p: nat)
    requires p <= encoded.Length
    modifies encoded
    ensures encoded[..] == Padded(old(encoded[..]), p)
  {
    var i := 0;
    while i < p
      invariant i <= p
      invariant forall k | 0 <= k < encoded.Length - i :: encoded[k] == old(encoded[k])
      invariant forall k | encoded.Length - i <= k < encoded.Length :: encoded[k] == PAD
    {
      encoded[encoded.Length - 1 - i] := PAD;
      i := i + 1;
    }
  }

  /** `base64_decode`, of a text that is not empty: nothing if its length is not a multiple of four. */
  method Base64Decode(data: array<char>) returns (decoded: array?<Byte>)
    requires data.Length > 0
    ensures decoded == null <==> data.Length % 4 != 0
    ensures decoded != null ==> fresh(decoded) && data.Length % 4 == 0 && decoded[..] == Decoded(data[..])
  {
    if data.Length % 4 != 0 {
      return null;
    }
    var groups := data.Length / 4;
    var n := LengthOf(data, groups);
    decoded := DecodeGroups(DecodeGroup, data, n, groups);
  }

  method LengthOf(data: array<char>, groups: nat) returns (n: nat)
    requires data.Length == 4 * groups && groups > 0
    ensures n == DecodedLength(data[..], groups)
  {
    n := 3 * groups;
    if data[data.Length - 1] == PAD {
      n := n - 1;
    }
    if data[data.Length - 2] == PAD {
      n := n - 1;
    }
  }

  /** Group by group, as far as there is room. */
  method DecodeGroups(h: Decoder, data: array<char>, n: nat, ghost groups: nat) returns (decoded: array<Byte>)
    requires data.Length == 4 * groups && n <= 3 * groups
    ensures fresh(decoded) && decoded[..] == Bytes(h, data[..], groups)[..n]
  {
    decoded := new Byte[n];
    ghost var k := 0;
    var i, j := 0, 0;
    while i < data.Length
      invariant i == 4 * k && k <= groups && j == (if 3 * k < n then 3 * k else n)
      invariant forall m | 0 <= m < j :: decoded[m] == Bytes(h, data[..], k)[m]
    {
      assert data[..][4 * k..4 * k + 4] == data[i..i + 4];
      j := PutBytes(decoded, j, h(data[i..i + 4]));
      i, k := i + 4, k + 1;
    }
  }

  /** As many of three bytes as there is room for. */
  method PutBytes(decoded: array<Byte>, j: nat, group: Bytes3) returns (next: nat)
    requires j <= decoded.Length
    modifies decoded
    ensures next == if j + 3 < decoded.Length then j + 3 else decoded.Length
    ensures forall m | 0 <= m < j :: decoded[m] == old(decoded[m])
    ensures forall m | j <= m < next :: decoded[m] == group[m - j]
  {
    next := j;
    if next < decoded.Length {
      decoded[next] := group[0];
      next := next + 1;
    }
    if next < decoded.Length {
      decoded[next] := group[1];
      next := next + 1;
    }
    if next < decoded.Length {
      decoded[next] := group[2];
      next := next + 1;
    }
  }
}
