/** Exact arithmetic: integers and rationals, as `num` values and as cells.

  Integers are unbounded here; real numbers are left out.
 */
module ExactNumbers {

  datatype Number = Int(i: int) | Rat(n: int, d: int)

  /** The division operator of C, which truncates. */
  function TruncDiv(a: int, b: int): int
    requires b != 0
  {
    var q := Abs(a) / Abs(b);
    if (a < 0) == (b < 0) then q else -q
  }

  function Abs(x: int): nat {
    if x < 0 then -x else x
  }

  /** Its remainder, which has the sign of the dividend. */
  function TruncRem(a: int, b: int): (r: int)
    requires b != 0
    ensures Abs(r) < Abs(b) && (a >= 0 ==> r >= 0) && (a <= 0 ==> r <= 0)
  {
    assert Abs(a) == Abs(b) * (Abs(a) / Abs(b)) + Abs(a) % Abs(b);
    RemainderSign(a, b);
    a - b * TruncDiv(a, b)
  }

  lemma RemainderSign(a: int, b: int)
    requires b != 0
    ensures a - b * TruncDiv(a, b) == if a < 0 then -(Abs(a) % Abs(b)) else Abs(a) % Abs(b)
  {
    var q, r := Abs(a) / Abs(b), Abs(a) % Abs(b);
    assert Abs(a) == Abs(b) * q + r;
    if b < 0 {
      assert Abs(b) * q == -(b * q);
    }
    if (a < 0) != (b < 0) {
      assert b * -q == -(b * q);
    }
  }

  /** The remainder is the only one of its size and sign. */
  lemma RemainderUnique(a: int, b: int, q: int, r: int)
    requires b != 0 && a == b * q + r && Abs(r) < Abs(b) && (a >= 0 ==> r >= 0) && (a <= 0 ==> r <= 0)
    ensures TruncRem(a, b) == r && TruncDiv(a, b) == q
  {
    var q1, r1 := TruncDiv(a, b), TruncRem(a, b);
    Differ(b, q, r, q1, r1);
    SameSide(b, r, r1, a);
    if q > q1 {
      Multiple(b, q - q1);
    } else if q < q1 {
      Multiple(b, q1 - q);
    }
  }

  lemma Differ(b: int, q: int, r: int, q1: int, r1: int)
    requires b * q + r == b * q1 + r1
    ensures b * (q - q1) == r1 - r && b * (q1 - q) == r - r1
  {
  }

  lemma SameSide(b: int, r: int, r1: int, a: int)
    requires Abs(r) < Abs(b) && Abs(r1) < Abs(b)
    requires (a >= 0 ==> r >= 0 && r1 >= 0) && (a <= 0 ==> r <= 0 && r1 <= 0)
    ensures Abs(r - r1) < Abs(b) && Abs(r1 - r) < Abs(b)
  {
  }

  lemma Multiple(b: int, k: int)
    requires k > 0
    ensures Abs(b * k) >= Abs(b)
  {
    if b >= 0 {
      assert b * k == b + b * (k - 1);
    } else {
      assert b * k == b + b * (k - 1);
    }
  }

  // ---------------------------------------------------------------------------
  // The greatest common divisor, with a sign
  // ---------------------------------------------------------------------------

  function Gcd(a: int, b: int): int
    decreases Abs(b)
  {
    if b == 0 then a else Gcd(b, TruncRem(a, b))
  }

  method GcdLoop(x: int, y: int) returns (a: int)
    ensures a == Gcd(x, y)
  {
    a := x;
    var b := y;
    while b != 0
      invariant Gcd(a, b) == Gcd(x, y)
      decreases Abs(b)
    {
      a, b := b, TruncRem(a, b);
    }
  }

  lemma RemainderScales(k: int, a: int, b: int)
    requires k != 0 && b != 0
    ensures k * b != 0 && TruncRem(k * a, k * b) == k * TruncRem(a, b)
  {
    var q, r := TruncDiv(a, b), TruncRem(a, b);
    Distribute(k, b, q, r);
    NotZero(k, b);
    AbsLess(k, r, b);
    SignScales(k, a, r);
    RemainderUnique(k * a, k * b, q, k * r);
  }

  lemma Distribute(k: int, b: int, q: int, r: int)
    ensures k * (b * q + r) == (k * b) * q + k * r
  {
    assert k * (b * q) == (k * b) * q;
  }

  lemma NotZero(k: int, b: int)
    requires k != 0 && b != 0
    ensures k * b != 0
  {
  }

  lemma AbsLess(k: int, r: int, b: int)
    requires k != 0 && Abs(r) < Abs(b)
    ensures Abs(k * r) < Abs(k * b)
  {
    AbsProduct(k, b);
    AbsProduct(k, r);
    TimesOrder(Abs(k), Abs(r), Abs(b));
  }

  lemma TimesOrder(k: nat, a: nat, b: nat)
    requires k > 0 && a < b
    ensures k * a < k * b
  {
    assert k * b == k * a + k * (b - a);
    Positive(k, b - a);
  }

  lemma Positive(k: nat, n: nat)
    requires k > 0 && n > 0
    ensures k * n > 0
  {
  }

  lemma AbsProduct(a: int, b: int)
    ensures Abs(a * b) == Abs(a) * Abs(b)
  {
    if a < 0 {
      assert -a * b == -(a * b);
    }
    if b < 0 {
      assert a * -b == -(a * b);
    }
    if a < 0 && b < 0 {
      assert -a * -b == a * b;
    }
  }

  lemma SignScales(k: int, a: int, r: int)
    requires k != 0 && (a >= 0 ==> r >= 0) && (a <= 0 ==> r <= 0)
    ensures (k * a >= 0 ==> k * r >= 0) && (k * a <= 0 ==> k * r <= 0)
  {
  }

  /** Scaling both numbers, by a negative factor too, scales the divisor. */
  lemma {:induction false} GcdScales(k: int, a: int, b: int)
    requires k != 0
    ensures Gcd(k * a, k * b) == k * Gcd(a, b)
    decreases Abs(b)
  {
    if b == 0 {
      assert k * b == 0;
    } else {
      RemainderScales(k, a, b);
      GcdScales(k, b, TruncRem(a, b));
    }
  }

  /** The divisor divides. */
  lemma {:induction false} GcdDivides(a: int, b: int) returns (x: int, y: int)
    requires a != 0 || b != 0
    ensures Gcd(a, b) != 0 && a == Gcd(a, b) * x && b == Gcd(a, b) * y
    decreases Abs(b)
  {
    if b == 0 {
      x, y := 1, 0;
    } else {
      var g, q, r := Gcd(a, b), TruncDiv(a, b), TruncRem(a, b);
      var x1, y1 := GcdDivides(b, r);
      x, y := x1 * q + y1, x1;
      Distribute(g, x1, q, y1);
    }
  }

  // ---------------------------------------------------------------------------
  // Cells
  // ---------------------------------------------------------------------------

  datatype Result = Cell(value: Number) | Error

  /** `mk_rational`. */
  function MkRational(n: int, d: int): Result {
    if d == 0 then Error
    else if n == 0 then Cell(Int(0))
    else if Gcd(n, d) == 0 then Error
    else Cell(Rat(TruncDiv(n, Gcd(n, d)), TruncDiv(d, Gcd(n, d))))
  }

  /** A number as cells hold it. */
  predicate IsCell(x: Number) {
    x.Rat? ==> x.n != 0 && x.d != 0 && Gcd(x.n, x.d) == 1
  }

  lemma ExactQuotient(g: int, x: int)
    requires g != 0
    ensures TruncDiv(g * x, g) == x
  {
    RemainderUnique(g * x, g, x, 0);
  }

  /** What `mk_rational` makes is in lowest terms and proportional to what it is given. */
  lemma MkRationalReduces(n: int, d: int) returns (g: int)
    requires n != 0 && d != 0
    ensures var r := MkRational(n, d);
            && g != 0 && r.Cell? && r.value.Rat? && IsCell(r.value)
            && n == g * r.value.n && d == g * r.value.d
  {
    g := Gcd(n, d);
    var x, y := GcdDivides(n, d);
    ExactQuotient(g, x);
    ExactQuotient(g, y);
    GcdScales(g, x, y);
    assert g == g * Gcd(x, y);
    OneFactor(g, Gcd(x, y));
  }

  lemma OneFactor(g: int, k: int)
    requires g != 0 && g == g * k
    ensures k == 1
  {
    assert g * (k - 1) == 0;
  }

  /** Two fractions in lowest terms that are equal are the same, sign by sign. */
  lemma LowestTermsUnique(p: int, q: int, r: int, s: int)
    requires q != 0 && s != 0 && Gcd(p, q) == 1 && Gcd(r, s) == 1 && p * s == r * q
    ensures p == r && q == s
  {
    GcdScales(s, p, q);
    GcdScales(q, r, s);
    assert s * p == q * r && s * q == q * s;
    SameFactor(q, p, r);
  }

  lemma SameFactor(q: int, p: int, r: int)
    requires q != 0 && q * p == q * r
    ensures p == r
  {
    assert q * (p - r) == 0;
  }

  lemma CrossReduced(g: int, h: int, p: int, q: int, r: int, s: int)
    requires g != 0 && h != 0 && (g * p) * (h * s) == (h * r) * (g * q)
    ensures p * s == r * q
  {
    Regroup(g, p, h, s);
    Regroup(h, r, g, q);
    NotZero(g, h);
    SameFactor(g * h, p * s, r * q);
  }

  lemma Regroup(a: int, b: int, c: int, d: int)
    ensures (a * b) * (c * d) == (a * c) * (b * d)
  {
    assert (a * b) * (c * d) == ((a * b) * c) * d;
    assert (a * b) * c == (a * c) * b;
    assert ((a * c) * b) * d == (a * c) * (b * d);
  }

  /** `mk_rational` is canonical: proportional pairs, whatever their signs, make the same cell. */
  lemma Canonical(n1: int, d1: int, n2: int, d2: int)
    requires d1 != 0 && d2 != 0 && n1 * d2 == n2 * d1
    ensures MkRational(n1, d1) == MkRational(n2, d2)
  {
    if n1 == 0 {
      assert n2 * d1 == 0;
      SameFactor(d1, n2, 0);
    } else if n2 == 0 {
      assert n1 * d2 == 0;
      SameFactor(d2, n1, 0);
    } else {
      var g := MkRationalReduces(n1, d1);
      var h := MkRationalReduces(n2, d2);
      var a, b := MkRational(n1, d1).value, MkRational(n2, d2).value;
      CrossReduced(g, h, a.n, a.d, b.n, b.d);
      LowestTermsUnique(a.n, a.d, b.n, b.d);
    }
  }

  /** The form is canonical, yet the sign may be with the denominator. */
  lemma MinusOneHalf()
    ensures MkRational(-1, 2) == Cell(Rat(1, -2)) && MkRational(1, -2) == Cell(Rat(1, -2))
  {
    assert TruncRem(-1, 2) == -1 && TruncRem(2, -1) == 0 && TruncRem(1, -2) == 1 && TruncRem(-2, 1) == 0;
    assert Gcd(-1, 2) == Gcd(2, -1) == Gcd(-1, 0) == -1;
    assert Gcd(1, -2) == Gcd(-2, 1) == Gcd(1, 0) == 1;
  }

  // ---------------------------------------------------------------------------
  // Arithmetic
  // ---------------------------------------------------------------------------

  /** A `num` that can be a value: intermediate results need not be in lowest terms. */
  predicate Proper(x: Number) {
    x.Rat? ==> x.d != 0
  }

  function Val(x: Number): real
    requires Proper(x)
  {
    match x
    case Int(i) => i as real
    case Rat(n, d) => n as real / d as real
  }

  function NumAdd(a: Number, b: Number): Number {
    match (a, b)
    case (Int(i), Int(j)) => Int(i + j)
    case (Int(i), Rat(n, d)) => Rat(i * d + n, d)
    case (Rat(n, d), Int(i)) => Rat(i * d + n, d)
    case (Rat(n, d), Rat(m, e)) => Rat(n * e + m * d, d * e)
  }

  function NumSub(a: Number, b: Number): Number {
    match (a, b)
    case (Int(i), Int(j)) => Int(i - j)
    case (Int(i), Rat(n, d)) => Rat(i * d - n, d)
    case (Rat(n, d), Int(i)) => Rat(n - i * d, d)
    case (Rat(n, d), Rat(m, e)) => Rat(n * e - m * d, d * e)
  }

  function NumMul(a: Number, b: Number): Number {
    match (a, b)
    case (Int(i), Int(j)) => Int(i * j)
    case (Int(i), Rat(n, d)) => Rat(i * n, d)
    case (Rat(n, d), Int(i)) => Rat(i * n, d)
    case (Rat(n, d), Rat(m, e)) => Rat(n * m, d * e)
  }

  predicate IsZero(x: Number) {
    match x
    case Int(i) => i == 0
    case Rat(n, _) => n == 0
  }

  function NumDiv(a: Number, b: Number): Number
    requires !IsZero(b)
  {
    match (a, b)
    case (Int(i), Int(j)) => if TruncRem(i, j) == 0 then Int(TruncDiv(i, j)) else Rat(i, j)
    case (Int(i), Rat(n, d)) => Rat(i * d, n)
    case (Rat(n, d), Int(i)) => Rat(n, i * d)
    case (Rat(n, d), Rat(m, e)) => Rat(n * e, d * m)
  }

  /** `mk_number`. */
  function MkNumber(x: Number): Result {
    match x
    case Int(i) => Cell(x)
    case Rat(n, d) => MkRational(n, d)
  }

  /** `num_eq`. */
  predicate NumEq(a: Number, b: Number) {
    match (a, b)
    case (Int(i), Int(j)) => i == j
    case (Rat(n, d), Int(i)) => d * i == n
    case (Int(i), Rat(n, d)) => d * i == n
    case (Rat(n, d), Rat(m, e)) => n == m && d == e
  }

  // ---------------------------------------------------------------------------
  // Fractions
  // ---------------------------------------------------------------------------

  lemma FractionIs(n: int, d: int, x: real)
    requires d != 0
    ensures n as real / d as real == x <==> n as real == x * d as real
  {
  }

  lemma ProductNotZero(a: int, b: int)
    requires a != 0 && b != 0
    ensures a * b != 0 && (a * b) as real == a as real * b as real
  {
    NotZero(a, b);
  }

  lemma AddIsSum(a: Number, b: Number)
    requires Proper(a) && Proper(b)
    ensures Proper(NumAdd(a, b)) && Val(NumAdd(a, b)) == Val(a) + Val(b)
  {
    match (a, b)
    case (Int(i), Int(j)) =>
    case (Int(i), Rat(n, d)) => SumOver(i as real, n, d, i * d + n);
    case (Rat(n, d), Int(i)) => SumOver(i as real, n, d, i * d + n);
    case (Rat(n, d), Rat(m, e)) =>
      ProductNotZero(d, e);
      CrossSum(n as real, d as real, m as real, e as real);
  }

  lemma SumOver(x: real, n: int, d: int, s: int)
    requires d != 0 && s as real == x * d as real + n as real
    ensures s as real / d as real == x + n as real / d as real
  {
    var y := n as real / d as real;
    assert (x + y) * d as real == x * d as real + n as real;
  }

  lemma CrossSum(n: real, d: real, m: real, e: real)
    requires d != 0.0 && e != 0.0 && d * e != 0.0
    ensures (n * e + m * d) / (d * e) == n / d + m / e
  {
    var x, y := n / d, m / e;
    assert x * d == n && y * e == m;
    assert (x + y) * (d * e) == (x * d) * e + (y * e) * d;
  }

  lemma SubIsDifference(a: Number, b: Number)
    requires Proper(a) && Proper(b)
    ensures Proper(NumSub(a, b)) && Val(NumSub(a, b)) == Val(a) - Val(b)
  {
    match (a, b)
    case (Int(i), Int(j)) =>
    case (Int(i), Rat(n, d)) => DifferenceOver(i as real, n, d, i * d - n);
    case (Rat(n, d), Int(i)) => SumOver(-(i as real), n, d, n - i * d);
    case (Rat(n, d), Rat(m, e)) =>
      ProductNotZero(d, e);
      CrossDifference(n as real, d as real, m as real, e as real);
  }

  lemma DifferenceOver(x: real, n: int, d: int, s: int)
    requires d != 0 && s as real == x * d as real - n as real
    ensures s as real / d as real == x - n as real / d as real
  {
    var y := n as real / d as real;
    assert (x - y) * d as real == x * d as real - n as real;
  }

  lemma CrossDifference(n: real, d: real, m: real, e: real)
    requires d != 0.0 && e != 0.0 && d * e != 0.0
    ensures (n * e - m * d) / (d * e) == n / d - m / e
  {
    var x, y := n / d, m / e;
    assert x * d == n && y * e == m;
    assert (x - y) * (d * e) == (x * d) * e - (y * e) * d;
  }

  lemma MulIsProduct(a: Number, b: Number)
    requires Proper(a) && Proper(b)
    ensures Proper(NumMul(a, b)) && Val(NumMul(a, b)) == Val(a) * Val(b)
  {
    match (a, b)
    case (Int(i), Int(j)) =>
    case (Int(i), Rat(n, d)) => IntegerTimes(i, n, d);
    case (Rat(n, d), Int(i)) => IntegerTimes(i, n, d);
    case (Rat(n, d), Rat(m, e)) => FractionTimes(n, d, m, e);
  }

  lemma RealProduct(a: int, b: int)
    ensures (a * b) as real == a as real * b as real
  {
  }

  lemma IntegerTimes(i: int, n: int, d: int)
    requires d != 0
    ensures (i * n) as real / d as real == i as real * (n as real / d as real)
  {
    RealProduct(i, n);
    ProductOver(i as real, n, d, i * n);
  }

  lemma FractionTimes(n: int, d: int, m: int, e: int)
    requires d != 0 && e != 0
    ensures d * e != 0 && (n * m) as real / (d * e) as real == (n as real / d as real) * (m as real / e as real)
  {
    ProductNotZero(d, e);
    RealProduct(n, m);
    CrossProduct(n as real, d as real, m as real, e as real);
  }

  lemma ProductOver(x: real, n: int, d: int, s: int)
    requires d != 0 && s as real == x * n as real
    ensures s as real / d as real == x * (n as real / d as real)
  {
    var y := n as real / d as real;
    assert (x * y) * d as real == x * (y * d as real);
  }

  lemma CrossProduct(n: real, d: real, m: real, e: real)
    requires d != 0.0 && e != 0.0 && d * e != 0.0
    ensures (n * m) / (d * e) == (n / d) * (m / e)
  {
    var x, y := n / d, m / e;
    assert x * d == n && y * e == m;
    assert (x * y) * (d * e) == (x * d) * (y * e);
  }

  lemma ZeroIff(x: Number)
    requires Proper(x)
    ensures IsZero(x) <==> Val(x) == 0.0
  {
  }

  /** The quotient is the number that gives the dividend back. */
  lemma DivIsQuotient(a: Number, b: Number)
    requires Proper(a) && Proper(b) && !IsZero(b)
    ensures Val(b) != 0.0 && Divided(a, b)
  {
    ZeroIff(b);
    if a.Int? && b.Int? {
      DivIntegers(a.i, b.i);
    } else if a.Int? {
      DivIntegerFraction(a.i, b.n, b.d);
    } else if b.Int? {
      DivFractionInteger(a.n, a.d, b.i);
    } else {
      DivFractions(a.n, a.d, b.n, b.d);
    }
  }

  predicate Divided(a: Number, b: Number)
    requires Proper(a) && Proper(b) && !IsZero(b)
  {
    Proper(NumDiv(a, b)) && Val(NumDiv(a, b)) * Val(b) == Val(a)
  }

  lemma DivIntegers(i: int, j: int)
    requires j != 0
    ensures Divided(Int(i), Int(j))
  {
    IntegerQuotient(i, j);
  }

  lemma DivIntegerFraction(i: int, n: int, d: int)
    requires n != 0 && d != 0
    ensures Divided(Int(i), Rat(n, d))
  {
    IntegerByFraction(i, n, d);
  }

  lemma DivFractionInteger(n: int, d: int, i: int)
    requires d != 0 && i != 0
    ensures Divided(Rat(n, d), Int(i))
  {
    FractionByInteger(n, d, i);
  }

  lemma DivFractions(n: int, d: int, m: int, e: int)
    requires d != 0 && m != 0 && e != 0
    ensures Divided(Rat(n, d), Rat(m, e))
  {
    FractionQuotient(n, d, m, e);
  }

  lemma IntegerQuotient(i: int, j: int)
    requires j != 0
    ensures TruncRem(i, j) == 0 ==> TruncDiv(i, j) as real * j as real == i as real
    ensures (i as real / j as real) * j as real == i as real
  {
    if TruncRem(i, j) == 0 {
      RealProduct(j, TruncDiv(i, j));
    }
  }

  lemma IntegerByFraction(i: int, n: int, d: int)
    requires n != 0 && d != 0
    ensures ((i * d) as real / n as real) * (n as real / d as real) == i as real
  {
    RealProduct(i, d);
    Undo(i as real * d as real, n as real, d as real, i as real);
  }

  lemma FractionByInteger(n: int, d: int, i: int)
    requires d != 0 && i != 0
    ensures i * d != 0 && (n as real / (i * d) as real) * i as real == n as real / d as real
  {
    ProductNotZero(i, d);
    var x, y := n as real / (i * d) as real, n as real / d as real;
    assert (x * i as real) * d as real == x * (i as real * d as real);
    SameQuotient(x * i as real, y, d as real);
  }

  lemma FractionQuotient(n: int, d: int, m: int, e: int)
    requires d != 0 && m != 0 && e != 0
    ensures d * m != 0 && ((n * e) as real / (d * m) as real) * (m as real / e as real) == n as real / d as real
  {
    ProductNotZero(d, m);
    RealProduct(n, e);
    QuotientBack(n as real, d as real, m as real, e as real);
  }

  lemma Undo(a: real, n: real, d: real, x: real)
    requires n != 0.0 && d != 0.0 && a == x * d
    ensures (a / n) * (n / d) == x
  {
    var z, y := a / n, n / d;
    assert z * n == a && y * d == n;
    assert (z * y) * d == z * (y * d);
    SameQuotient(z * y, x, d);
  }

  lemma QuotientBack(n: real, d: real, m: real, e: real)
    requires d != 0.0 && m != 0.0 && e != 0.0 && d * m != 0.0
    ensures ((n * e) / (d * m)) * (m / e) == n / d
  {
    var z, y, x := (n * e) / (d * m), m / e, n / d;
    assert z * (d * m) == n * e && y * e == m && x * d == n;
    assert ((z * y) * d) * e == z * (d * (y * e));
    SameQuotient((z * y) * d, n, e);
    SameQuotient(z * y, x, d);
  }

  lemma SameQuotient(x: real, y: real, d: real)
    requires d != 0.0 && x * d == y * d
    ensures x == y
  {
    assert (x - y) * d == 0.0;
  }

  // ---------------------------------------------------------------------------
  // Cells stand for numbers
  // ---------------------------------------------------------------------------

  /** Making a cell keeps the value. */
  lemma MkNumberKeeps(x: Number)
    requires Proper(x)
    ensures MkNumber(x).Cell? && IsCell(MkNumber(x).value) && Val(MkNumber(x).value) == Val(x)
  {
    if x.Rat? && x.n != 0 {
      var g := MkRationalReduces(x.n, x.d);
      var r := MkRational(x.n, x.d).value;
      Reduced(g, r.n, r.d, x.n, x.d);
    }
  }

  lemma Reduced(g: int, p: int, q: int, n: int, d: int)
    requires g != 0 && q != 0 && d != 0 && n == g * p && d == g * q
    ensures n as real / d as real == p as real / q as real
  {
    RealProduct(g, p);
    RealProduct(g, q);
    Cancel(g as real, p as real, q as real);
  }

  lemma Cancel(g: real, n: real, d: real)
    requires g != 0.0 && d != 0.0
    ensures g * d != 0.0 && (g * n) / (g * d) == n / d
  {
    var x := n / d;
    assert x * d == n;
    assert x * (g * d) == g * (x * d);
  }

  /** `num_eq` on cells is equality of numbers, although it compares rationals part by part. */
  lemma NumEqIff(a: Number, b: Number)
    requires IsCell(a) && IsCell(b)
    ensures NumEq(a, b) <==> Val(a) == Val(b)
  {
    match (a, b)
    case (Int(i), Int(j)) =>
    case (Rat(n, d), Int(i)) => IntegerFraction(n, d, i);
    case (Int(i), Rat(n, d)) => IntegerFraction(n, d, i);
    case (Rat(n, d), Rat(m, e)) =>
      if Val(a) == Val(b) {
        CrossEqual(n, d, m, e);
        LowestTermsUnique(n, d, m, e);
      }
  }

  lemma IntegerFraction(n: int, d: int, i: int)
    requires d != 0
    ensures d * i == n <==> n as real / d as real == i as real
  {
    assert (d * i) as real == d as real * i as real;
    FractionIs(n, d, i as real);
  }

  lemma CrossEqual(n: int, d: int, m: int, e: int)
    requires d != 0 && e != 0 && n as real / d as real == m as real / e as real
    ensures n * e == m * d
  {
    var x := n as real / d as real;
    assert n as real == x * d as real && m as real == x * e as real;
    assert (n * e) as real == (x * d as real) * e as real;
    assert (m * d) as real == (x * e as real) * d as real;
    assert (x * d as real) * e as real == (x * e as real) * d as real;
  }

  // ---------------------------------------------------------------------------
  // The opcodes
  // ---------------------------------------------------------------------------

  predicate Cells(args: seq<Number>) {
    forall k | 0 <= k < |args| :: IsCell(args[k])
  }

  function Sum(args: seq<Number>): real
    requires Cells(args)
  {
    if args == [] then 0.0 else Sum(args[..|args| - 1]) + Val(args[|args| - 1])
  }

  function Product(args: seq<Number>): real
    requires Cells(args)
  {
    if args == [] then 1.0 else Product(args[..|args| - 1]) * Val(args[|args| - 1])
  }

  method OpAdd(args: seq<Number>) returns (r: Result)
    requires Cells(args)
    ensures r.Cell? && IsCell(r.value) && Val(r.value) == Sum(args)
  {
    var v := Int(0);
    var k := 0;
    while k < |args|
      invariant k <= |args| && Proper(v) && Val(v) == Sum(args[..k])
    {
      AddIsSum(v, args[k]);
      assert args[..k + 1][..k] == args[..k];
      v := NumAdd(v, args[k]);
      k := k + 1;
    }
    assert args[..k] == args;
    MkNumberKeeps(v);
    r := MkNumber(v);
  }

  method OpMul(args: seq<Number>) returns (r: Result)
    requires Cells(args)
    ensures r.Cell? && IsCell(r.value) && Val(r.value) == Product(args)
  {
    var v := Int(1);
    ghost var p := 1.0;
    var k := 0;
    while k < |args|
      invariant k <= |args| && Proper(v) && Val(v) == p && p == Product(args[..k])
    {
      p := TimesStep(v, args, k, p);
      v := NumMul(v, args[k]);
      k := k + 1;
    }
    assert args[..k] == args;
    MkNumberKeeps(v);
    r := MkNumber(v);
  }

  lemma TimesStep(v: Number, args: seq<Number>, k: nat, p: real) returns (p1: real)
    requires Cells(args) && k < |args| && p == Product(args[..k]) && Proper(v) && Val(v) == p
    ensures Proper(NumMul(v, args[k])) && Val(NumMul(v, args[k])) == p1 && p1 == Product(args[..k + 1])
  {
    NextProduct(args, k, p);
    p1 := TimesValue(v, args[k], p);
    SameProduct(p1, Product(args[..k + 1]), p, Val(args[k]));
  }

  predicate IsProduct(q: real, x: real, y: real) {
    q == x * y
  }

  lemma NextProduct(args: seq<Number>, k: nat, p: real)
    requires Cells(args) && k < |args| && p == Product(args[..k])
    ensures IsProduct(Product(args[..k + 1]), p, Val(args[k]))
  {
    ProductNext(args, k);
  }

  lemma TimesValue(a: Number, b: Number, x: real) returns (q: real)
    requires Proper(a) && Proper(b) && Val(a) == x
    ensures Proper(NumMul(a, b)) && Val(NumMul(a, b)) == q && IsProduct(q, x, Val(b))
  {
    MulIsProduct(a, b);
    q := Val(NumMul(a, b));
  }

  lemma SameProduct(p: real, q: real, x: real, y: real)
    requires IsProduct(p, x, y) && IsProduct(q, x, y)
    ensures p == q
  {
  }

  lemma OneArgument(x: Number)
    requires IsCell(x)
    ensures Cells([x]) && Sum([x]) == Val(x) && Product([x]) == Val(x)
  {
    assert [x][..0] == [];
  }

  /** The first argument less the others, or a single argument's negative. */
  method OpSub(args: seq<Number>) returns (r: Result)
    requires Cells(args)
    ensures r.Cell? && IsCell(r.value)
    ensures |args| == 0 ==> Val(r.value) == 0.0
    ensures |args| == 1 ==> Val(r.value) == 0.0 - Val(args[0])
    ensures |args| > 1 ==> Val(r.value) == Val(args[0]) - Sum(args[1..])
  {
    var v, rest := Int(0), args;
    if |args| == 1 {
      OneArgument(args[0]);
    } else if |args| > 1 {
      v, rest := args[0], args[1..];
    }
    ghost var x := Val(v);
    var k := 0;
    while k < |rest|
      invariant k <= |rest| && Proper(v) && Val(v) == x - Sum(rest[..k])
    {
      SubIsDifference(v, rest[k]);
      assert rest[..k + 1][..k] == rest[..k];
      v := NumSub(v, rest[k]);
      k := k + 1;
    }
    assert rest[..k] == rest;
    MkNumberKeeps(v);
    r := MkNumber(v);
  }

  /** An error if a divisor is zero, and otherwise the number that times all divisors gives the
      dividend. */
  method OpDiv(args: seq<Number>) returns (r: Result)
    requires Cells(args)
    ensures |args| == 0 ==> r == Cell(Int(1))
    ensures |args| == 1 ==>
      && (r.Error? <==> Val(args[0]) == 0.0)
      && (r.Cell? ==> IsCell(r.value) && Quotient(r.value, Val(args[0]), 1.0))
    ensures |args| > 1 ==>
      && (r.Error? <==> exists k | 0 < k < |args| :: Val(args[k]) == 0.0)
      && (r.Cell? ==> IsCell(r.value) && Quotient(r.value, Product(args[1..]), Val(args[0])))
  {
    if |args| == 1 {
      OneArgument(args[0]);
      r := DivideBy(Int(1), args);
    } else if |args| > 1 {
      r := DivideBy(args[0], args[1..]);
      assert forall k | 0 < k < |args| :: args[k] == args[1..][k - 1];
    } else {
      r := MkNumber(Int(1));
    }
  }

  /** The loop over the divisors. */
  method DivideBy(first: Number, divisors: seq<Number>) returns (r: Result)
    requires IsCell(first) && Cells(divisors)
    ensures r.Error? <==> exists k | 0 <= k < |divisors| :: Val(divisors[k]) == 0.0
    ensures r.Cell? ==> IsCell(r.value) && Quotient(r.value, Product(divisors), Val(first))
  {
    var v := first;
    ghost var x, p := Val(v), 1.0;
    var k := 0;
    while k < |divisors|
      invariant k <= |divisors| && forall j | 0 <= j < k :: Val(divisors[j]) != 0.0
      invariant p == Product(divisors[..k]) && Quotient(v, p, x)
    {
      ZeroIff(divisors[k]);
      if IsZero(divisors[k]) {
        return Error;
      }
      p := NextQuotient(v, divisors, k, x, p);
      v := NumDiv(v, divisors[k]);
      k := k + 1;
    }
    assert divisors[..k] == divisors;
    QuotientKept(v, p, x);
    r := MkNumber(v);
  }

  lemma ProductNext(args: seq<Number>, k: nat)
    requires Cells(args) && k < |args|
    ensures Product(args[..k + 1]) == Product(args[..k]) * Val(args[k])
  {
    assert args[..k + 1][..k] == args[..k];
  }

  lemma NextQuotient(v: Number, args: seq<Number>, k: nat, x: real, p: real) returns (p1: real)
    requires Cells(args) && k < |args| && !IsZero(args[k]) && p == Product(args[..k]) && Quotient(v, p, x)
    ensures p1 == Product(args[..k + 1]) && Quotient(NumDiv(v, args[k]), p1, x)
  {
    ProductNext(args, k);
    p1 := DivideStep(v, args[k], x, p);
  }

  /** `v` times `p` is `x`. */
  ghost predicate Quotient(v: Number, p: real, x: real) {
    Proper(v) && p != 0.0 && Val(v) * p == x
  }

  lemma QuotientKept(v: Number, p: real, x: real)
    requires Quotient(v, p, x)
    ensures MkNumber(v).Cell? && IsCell(MkNumber(v).value) && Quotient(MkNumber(v).value, p, x)
  {
    MkNumberKeeps(v);
  }

  lemma DivideStep(v: Number, b: Number, x: real, p: real) returns (p1: real)
    requires Quotient(v, p, x) && Proper(b) && !IsZero(b)
    ensures p1 == p * Val(b) && Quotient(NumDiv(v, b), p1, x)
  {
    p1 := p * Val(b);
    DivIsQuotient(v, b);
    Together(Val(NumDiv(v, b)), Val(b), p);
  }

  lemma Together(z: real, y: real, p: real)
    requires y != 0.0 && p != 0.0
    ensures p * y != 0.0 && z * (p * y) == (z * y) * p
  {
  }
}
