/** Binary floating point as the reals that 53 or 24 significant bits can hold:
    which float a numeral is read as. Magnitudes are counted in the smallest
    double, two to the minus 1074; overflow is left to the caller. */
module Floats {

  function Pow2(k: nat): (p: nat)
    ensures p >= 1
  {
    if k == 0 then 1 else 2 * Pow2(k - 1)
  }

  /** The gap between neighbouring floats at magnitude m, with so many significant
      bits and none closer than `least`. */
  function Ulp(bits: nat, least: nat, m: nat): (u: nat)
    requires least >= 1
    ensures u >= 1
    decreases m
  {
    if m < Pow2(bits) * least then least
    else
      assert m >= 1;
      2 * Ulp(bits, least, m / 2)
  }

  /** The nearest whole number, ties to even. */
  function HalfEven(x: real): int {
    var q := x.Floor;
    var f := x - q as real;
    if f < 0.5 || (f == 0.5 && q % 2 == 0) then q else q + 1
  }

  function Product(d: real, u: real): real {
    d * u
  }

  /** The nearest multiple of u. */
  function ToMultiple(m: real, u: nat): real
    requires u >= 1
  {
    Product(HalfEven(m / (u as real)) as real, u as real)
  }

  function Round(bits: nat, least: nat, m: real): real
    requires least >= 1 && m >= 0.0
  {
    ToMultiple(m, Ulp(bits, least, m.Floor))
  }

  function Unit(): (u: real)
    ensures u >= 1.0
  {
    Pow2(1074) as real
  }

  const BITS64: nat := 53
  const BITS32: nat := 24

  /** The smallest float32 in smallest doubles. */
  function Least32(): (n: nat)
    ensures n >= 1
  {
    Pow2(925)
  }

  /** How many smallest doubles x is away from zero. */
  function Magnitude(x: real): (m: real)
    ensures m >= 0.0
  {
    if x < 0.0 then InUnits(-x) else InUnits(x)
  }

  function InUnits(x: real): (m: real)
    requires x >= 0.0
    ensures m >= 0.0
  {
    assert x * Unit() >= 0.0;
    Product(x, Unit())
  }

  function Signed(x: real, m: real): real {
    if x < 0.0 then -(m / Unit()) else m / Unit()
  }

  function Nearest64(x: real): real {
    Signed(x, Round(BITS64, 1, Magnitude(x)))
  }

  function Nearest32(x: real): real {
    Signed(x, Round(BITS32, Least32(), Magnitude(x)))
  }

  // ---- powers and gaps --------------------------------------------------------

  lemma {:induction false} Pow2Sum(a: nat, b: nat)
    ensures Pow2(a + b) == Pow2(a) * Pow2(b)
  {
    if a > 0 {
      Pow2Sum(a - 1, b);
      assert Pow2(a) * Pow2(b) == 2 * (Pow2(a - 1) * Pow2(b));
    }
  }

  lemma {:induction false} Pow2Grows(a: nat, b: nat)
    requires a <= b
    ensures Pow2(a) <= Pow2(b)
  {
    if a < b {
      Pow2Grows(a, b - 1);
    }
  }

  /** The least gap doubled k times, and where it doubles once more. */
  function Gap(least: nat, k: nat): nat {
    least * Pow2(k)
  }

  function Limit(bits: nat, least: nat, k: nat): nat {
    Pow2(bits) * Gap(least, k)
  }

  predicate InBinade(bits: nat, least: nat, m: nat, k: nat) {
    m < Limit(bits, least, k) && (k > 0 ==> 2 * m >= Limit(bits, least, k))
  }

  lemma LimitDoubles(bits: nat, least: nat, k: nat)
    ensures Limit(bits, least, k + 1) == 2 * Limit(bits, least, k)
    ensures Gap(least, k + 1) == 2 * Gap(least, k) && Gap(least, 0) == least
  {
    Double(least, Pow2(k));
    Double(Pow2(bits), Gap(least, k));
  }

  lemma UlpUnfolds(bits: nat, least: nat, m: nat)
    requires least >= 1
    ensures Ulp(bits, least, m) == if m < Limit(bits, least, 0) then least else 2 * Ulp(bits, least, m / 2)
  {
    assert Gap(least, 0) == least;
  }

  lemma Double(a: nat, x: nat)
    ensures a * (2 * x) == 2 * (a * x)
  {
  }

  /** The gap is the least one, doubled as often as the magnitude asks. */
  lemma {:induction false} UlpIs(bits: nat, least: nat, m: nat, k: nat)
    requires least >= 1 && InBinade(bits, least, m, k)
    ensures Ulp(bits, least, m) == Gap(least, k)
    decreases k
  {
    hide Limit, Gap, Ulp, Pow2;
    UlpUnfolds(bits, least, m);
    LimitDoubles(bits, least, 0);
    if k > 0 {
      LimitDoubles(bits, least, k - 1);
      LimitGrows(bits, least, k - 1);
      if k > 1 {
        LimitDoubles(bits, least, k - 2);
      }
      UlpIs(bits, least, m / 2, k - 1);
    }
  }

  lemma {:induction false} LimitGrows(bits: nat, least: nat, k: nat)
    ensures Limit(bits, least, 0) <= Limit(bits, least, k)
  {
    if k > 0 {
      LimitGrows(bits, least, k - 1);
      LimitDoubles(bits, least, k - 1);
      hide Limit;
    }
  }

  lemma ProductGrows(a: nat, x: nat, y: nat)
    requires x <= y
    ensures a * x <= a * y
  {
  }

  lemma {:induction false} BinadeOf(bits: nat, least: nat, m: nat) returns (k: nat)
    requires least >= 1
    ensures InBinade(bits, least, m, k)
    decreases m
  {
    k := 0;
    LimitDoubles(bits, least, 0);
    LimitPositive(bits, least);
    hide Limit, Pow2;
    if m >= Limit(bits, least, 0) {
      k := BinadeOf(bits, least, m / 2);
      LimitDoubles(bits, least, k);
      k := k + 1;
    }
  }

  lemma LimitPositive(bits: nat, least: nat)
    requires least >= 1
    ensures Limit(bits, least, 0) >= 1
  {
    ProductGrows(Pow2(bits), 1, least);
    assert Gap(least, 0) == least;
  }

  /** A gap of 24 bits is an even number of gaps of 53 bits. */
  lemma GapsNest(m: nat) returns (c: nat)
    ensures c >= 1 && Ulp(BITS32, Least32(), m) == 2 * c * Ulp(BITS64, 1, m)
  {
    hide Ulp, Pow2;
    var j := BinadeOf(BITS64, 1, m);
    var k := BinadeOf(BITS32, Least32(), m);
    UlpIs(BITS64, 1, m, j);
    UlpIs(BITS32, Least32(), m, k);
    Pow2Sum(925, k);
    Pow2Sum(24, 925 + k);
    Pow2Sum(53, j);
    assert 1 * Pow2(j) == Pow2(j);
    hide Ulp;
    if j > 0 && j + 53 > 925 + k + 25 {
      Pow2Grows(24 + (925 + k) + 1, 53 + j);
      Pow2Next(24 + (925 + k));
      assert false;
    }
    var d: nat := 925 + k - j - 1;
    c := Pow2(d);
    Pow2Sum(d, j);
    Pow2Next(d + j);
    assert 2 * (Pow2(d) * Pow2(j)) == 2 * c * Pow2(j) by { Associate(c, Pow2(j)); }
  }

  lemma Associate(a: nat, b: nat)
    ensures 2 * (a * b) == 2 * a * b
  {
  }

  lemma Pow2Next(k: nat)
    ensures Pow2(k + 1) == 2 * Pow2(k)
  {
  }

  // ---- rounding to multiples -----------------------------------------------------

  function Times(k: int, u: nat): real {
    Product(k as real, u as real)
  }

  /** A whole number of units. */
  ghost predicate IsMultiple(y: real, u: nat) {
    exists k: int :: y == Times(k, u)
  }

  function Distance(x: real, y: real): real {
    if x < y then y - x else x - y
  }

  lemma HalfEvenIsNear(x: real)
    ensures Distance(HalfEven(x) as real, x) <= 0.5
  {
  }

  lemma HalfEvenIs(x: real, k: int)
    requires Distance(k as real, x) < 0.5
    ensures HalfEven(x) == k
  {
  }

  lemma Scales(d: real, e: real, u: real)
    requires u > 0.0
    ensures Distance(Product(d, u), Product(e, u)) == Product(Distance(d, e), u)
    ensures d < e <==> Product(d, u) < Product(e, u)
    ensures d == e <==> Product(d, u) == Product(e, u)
  {
    Ordered(d, e, u);
    Ordered(e, d, u);
  }

  lemma Ordered(d: real, e: real, u: real)
    requires u > 0.0
    ensures d < e <==> Product(d, u) < Product(e, u)
    ensures Product(e - d, u) == Product(e, u) - Product(d, u)
  {
    assert (e - d) * u == e * u - d * u;
    if d < e {
      assert (e - d) * u > 0.0;
    } else {
      assert (d - e) * u >= 0.0;
    }
  }

  lemma DivideBack(m: real, u: real)
    requires u > 0.0
    ensures Product(m / u, u) == m
  {
  }

  lemma ToMultipleIsNear(m: real, u: nat)
    requires u >= 1
    ensures Distance(ToMultiple(m, u), m) <= Product(0.5, u as real)
  {
    var d := m / (u as real);
    HalfEvenIsNear(d);
    DivideBack(m, u as real);
    hide HalfEven, Product;
    var h := HalfEven(d) as real;
    Scales(h, d, u as real);
    Scales(Distance(h, d), 0.5, u as real);
  }

  lemma ToMultipleIs(m: real, u: nat, k: int)
    requires u >= 1 && Distance(Times(k, u), m) < Product(0.5, u as real)
    ensures ToMultiple(m, u) == Times(k, u)
  {
    var d := m / (u as real);
    DivideBack(m, u as real);
    hide HalfEven, Product;
    Scales(k as real, d, u as real);
    Scales(Distance(k as real, d), 0.5, u as real);
    HalfEvenIs(d, k);
  }

  /** Rounding to a coarser grid gives the finer result iff that already lies on
      the coarser grid. */
  lemma CoarserIff(m: real, u: nat, c: nat)
    requires u >= 1 && c >= 1
    ensures 2 * c * u >= 1
    ensures ToMultiple(m, 2 * c * u) == ToMultiple(m, u) <==> IsMultiple(ToMultiple(m, u), 2 * c * u)
  {
    var v, y := 2 * c * u, ToMultiple(m, u);
    CoarserIsLarger(c, u);
    ToMultipleIsNear(m, u);
    assert Product(0.5, u as real) < Product(0.5, v as real);
    hide HalfEven, Product;
    if ToMultiple(m, v) == y {
      assert y == Times(HalfEven(m / (v as real)), v);
    }
    if IsMultiple(y, v) {
      var k: int :| y == Times(k, v);
      hide ToMultiple, Times, IsMultiple;
      ToMultipleIs(m, v, k);
    }
  }

  lemma CoarserIsLarger(c: nat, u: nat)
    requires u >= 1 && c >= 1
    ensures 2 * c * u >= 2 * u
  {
  }

  /** A non-negative number is read as the same float32 and double iff the double
      is a whole number of float32 gaps. */
  lemma SameRoundIff(m: real)
    requires m >= 0.0
    ensures Round(BITS32, Least32(), m) == Round(BITS64, 1, m)
       <==> IsMultiple(Round(BITS64, 1, m), Ulp(BITS32, Least32(), m.Floor))
  {
    var c := GapsNest(m.Floor);
    hide Ulp, ToMultiple, IsMultiple;
    CoarserIff(m, Ulp(BITS64, 1, m.Floor), c);
  }

  /** The double nearest to x has no more digits than a float32 there can hold. */
  ghost predicate FitsFloat32(x: real) {
    IsMultiple(Round(BITS64, 1, Magnitude(x)), Ulp(BITS32, Least32(), Magnitude(x).Floor))
  }

  /** Reading a numeral as a float32 or as a double gives the same number iff that
      is so. */
  lemma SameFloatIff(x: real)
    ensures Nearest32(x) == Nearest64(x) <==> FitsFloat32(x)
  {
    var u := Unit();
    hide Unit, Round, IsMultiple, Ulp, Magnitude;
    SameRoundIff(Magnitude(x));
    Quotients(Round(BITS32, Least32(), Magnitude(x)), Round(BITS64, 1, Magnitude(x)), u);
  }

  lemma Quotients(a: real, b: real, u: real)
    requires u >= 1.0
    ensures a / u == b / u <==> a == b
  {
    DivideBack(a, u);
    DivideBack(b, u);
    hide Product;
  }

  // ---- whole numbers ----------------------------------------------------------------

  /** q units of u. */
  function Units(q: nat, u: nat): nat {
    q * u
  }

  /** The nearest multiple of u, ties to the even one. */
  function ToWholeMultiple(m: nat, u: nat): nat
    requires u >= 1
  {
    var q, r := m / u, m % u;
    Units(if 2 * r < u || (2 * r == u && q % 2 == 0) then q else q + 1, u)
  }

  /** The double nearest to a natural number. */
  function NearestDouble(m: nat): nat {
    ToWholeMultiple(m, Ulp(BITS64, 1, m))
  }

  function NearestDoubleInt(n: int): int {
    if n < 0 then 0 - NearestDouble(-n) else NearestDouble(n)
  }

  lemma Fraction(m: nat, u: nat)
    requires u >= 1
    ensures (m as real) / (u as real) == (m / u) as real + ((m % u) as real) / (u as real)
    ensures 0.0 <= ((m % u) as real) / (u as real) < 1.0
  {
    var q, r := m / u, m % u;
    var v := u as real;
    var f, x := (r as real) / v, (m as real) / v;
    DivideBack(r as real, v);
    DivideBack(m as real, v);
    assert m == Units(q, u) + r;
    UnitsAsReal(q, u);
    hide Product, Units;
    Ordered(f, q as real + f, v);
    Scales(x, q as real + f, v);
    Scales(f, 1.0, v);
    Scales(f, 0.0, v);
    OneAndZero(v);
  }

  lemma OneAndZero(u: real)
    ensures Product(1.0, u) == u && Product(0.0, u) == 0.0 && Product(0.5, u) == u / 2.0
  {
  }

  lemma ToMultipleOfWhole(m: nat, u: nat)
    requires u >= 1
    ensures ToMultiple(m as real, u) == ToWholeMultiple(m, u) as real
  {
    var q, r := m / u, m % u;
    var f := (r as real) / (u as real);
    Fraction(m, u);
    Halves(r, u);
    var x := (m as real) / (u as real);
    assert x.Floor == q;
    assert HalfEven(x) == if 2 * r < u || (2 * r == u && q % 2 == 0) then q else q + 1;
    UnitsAsReal(HalfEven(x), u);
  }

  lemma UnitsAsReal(q: nat, u: nat)
    ensures Units(q, u) as real == Product(q as real, u as real)
  {
  }

  lemma Halves(r: nat, u: nat)
    requires u >= 1
    ensures (r as real) / (u as real) < 0.5 <==> 2 * r < u
    ensures (r as real) / (u as real) == 0.5 <==> 2 * r == u
  {
    var f := (r as real) / (u as real);
    DivideBack(r as real, u as real);
    OneAndZero(u as real);
    hide Product;
    Scales(f, 0.5, u as real);
  }

  lemma RoundOfWhole(m: nat)
    ensures Round(BITS64, 1, m as real) == NearestDouble(m) as real
  {
    ToMultipleOfWhole(m, Ulp(BITS64, 1, m));
    assert (m as real).Floor == m;
  }

  /** Doubling a whole number doubles the double nearest to it. */
  lemma NearestDoubles(m: nat)
    ensures NearestDouble(2 * m) == 2 * NearestDouble(m)
  {
    var u := Ulp(BITS64, 1, m);
    if 2 * m < Pow2(53) * 1 {
      assert Ulp(BITS64, 1, 2 * m) == 1 == u;
      hide Ulp, Pow2;
      WholeStays(m);
      WholeStays(2 * m);
    } else {
      assert Ulp(BITS64, 1, 2 * m) == 2 * u;
      hide Ulp, Pow2;
      DoubleDivision(m, u);
      UnitsDouble(m / u, u);
      UnitsDouble(m / u + 1, u);
      hide Units;
    }
  }

  lemma WholeStays(m: nat)
    ensures ToWholeMultiple(m, 1) == m
  {
  }

  lemma UnitsDouble(q: nat, u: nat)
    ensures Units(q, 2 * u) == 2 * Units(q, u)
  {
  }

  lemma DoubleDivision(m: nat, u: nat)
    requires u >= 1
    ensures (2 * m) / (2 * u) == m / u && (2 * m) % (2 * u) == 2 * (m % u)
  {
    var q, r := m / u, m % u;
    assert m == q * u + r;
    assert 2 * m == q * (2 * u) + 2 * r && 2 * r < 2 * u;
    DivisionIs(2 * m, 2 * u, q, 2 * r);
  }

  lemma DivisionIs(a: nat, b: nat, q: nat, r: nat)
    requires b >= 1 && a == q * b + r && r < b
    ensures a / b == q && a % b == r
  {
    var q' := a / b;
    assert a == q' * b + a % b;
    if q' > q {
      ProductGrows(b, q + 1, q');
    } else if q' < q {
      ProductGrows(b, q' + 1, q);
    }
  }

  lemma {:induction false} NearestOfScaled(m: nat, k: nat)
    ensures NearestDouble(Units(m, Pow2(k))) == Units(NearestDouble(m), Pow2(k))
  {
    if k > 0 {
      NearestOfScaled(m, k - 1);
      UnitsDouble(m, Pow2(k - 1));
      UnitsDouble(NearestDouble(m), Pow2(k - 1));
      hide NearestDouble, Units;
      NearestDoubles(Units(m, Pow2(k - 1)));
    } else {
      hide NearestDouble;
      assert Pow2(0) == 1;
    }
  }

  lemma WholeInUnits(m: nat)
    ensures InUnits(m as real) == Units(m, Pow2(1074)) as real
  {
    UnitsAsReal(m, Pow2(1074));
    hide Pow2, Product, Units;
  }

  lemma NaturalReads(m: nat)
    ensures Round(BITS64, 1, InUnits(m as real)) == InUnits(NearestDouble(m) as real)
  {
    hide *;
    WholeInUnits(m);
    WholeInUnits(NearestDouble(m));
    NearestOfScaled(m, 1074);
    RoundOfWhole(Units(m, Pow2(1074)));
  }

  lemma FromUnits(x: real)
    requires x >= 0.0
    ensures InUnits(x) / Unit() == x
  {
    var u := Unit();
    DivideBack(InUnits(x), u);
    hide Unit;
    Scales(InUnits(x) / u, x, u);
    hide Product;
  }

  /** Whole numbers are read as the whole number the integer rounding gives. */
  lemma WholeReads(n: int)
    ensures Nearest64(n as real) == NearestDoubleInt(n) as real
  {
    var m: nat := if n < 0 then -n else n;
    assert Magnitude(n as real) == InUnits(m as real);
    hide Round, NearestDouble, InUnits, Unit, Magnitude, Ulp;
    NaturalReads(m);
    FromUnits(NearestDouble(m) as real);
  }

  /** A double holds this number exactly. */
  predicate IsDouble(n: int) {
    (if n < 0 then -n else n) % Ulp(BITS64, 1, if n < 0 then -n else n) == 0
  }

  lemma NearestDoubleIsExactIff(m: nat)
    ensures NearestDouble(m) == m <==> m % Ulp(BITS64, 1, m) == 0
  {
    var u := Ulp(BITS64, 1, m);
    hide Ulp;
    var q, r := m / u, m % u;
    assert m == q * u + r;
    assert (q + 1) * u == q * u + u;
  }

  lemma IntIsExactIff(n: int)
    ensures NearestDoubleInt(n) == n <==> IsDouble(n)
  {
    NearestDoubleIsExactIff(if n < 0 then -n else n);
    hide Ulp, NearestDouble;
  }

  /** Integers up to 2^53 in magnitude are always exact; one past it is not. */
  lemma SmallIntegersAreDoubles(n: int)
    ensures -0x20_0000_0000_0000 <= n <= 0x20_0000_0000_0000 ==> IsDouble(n)
    ensures !IsDouble(0x20_0000_0000_0001)
  {
    Pow2Of53();
    assert Ulp(BITS64, 1, 0x10_0000_0000_0000) == 1;
    assert Ulp(BITS64, 1, 0x20_0000_0000_0000) == 2;
    assert Ulp(BITS64, 1, 0x20_0000_0000_0001) == 2;
  }

  lemma Pow2Of53()
    ensures Pow2(53) == 0x20_0000_0000_0000
  {
    assert Pow2(10) == 1024;
    Pow2Sum(10, 10);
    Pow2Sum(20, 20);
    assert Pow2(13) == 8192;
    Pow2Sum(40, 13);
  }

  // ---- the nearest float ------------------------------------------------------------

  /** A magnitude with no more than so many significant bits. */
  predicate FloatWith(bits: nat, least: nat, y: real, k: nat, e: nat) {
    k <= Pow2(bits) && y == Times(k, Gap(least, e))
  }

  ghost predicate IsFloat(bits: nat, least: nat, y: real) {
    exists k: nat, e: nat :: FloatWith(bits, least, y, k, e)
  }

  lemma HalfEvenIsNearest(x: real, k: int)
    ensures Distance(HalfEven(x) as real, x) <= Distance(k as real, x)
    ensures Distance(HalfEven(x) as real, x) == 0.5 ==> HalfEven(x) % 2 == 0
  {
  }

  /** No multiple of the gap is nearer, and of two as near the even one is taken. */
  lemma ToMultipleIsNearest(m: real, u: nat, k: int)
    requires u >= 1
    ensures Distance(ToMultiple(m, u), m) <= Distance(Times(k, u), m)
    ensures Distance(ToMultiple(m, u), m) == Product(0.5, u as real) ==> HalfEven(m / (u as real)) % 2 == 0
  {
    var d := m / (u as real);
    HalfEvenIsNearest(d, k);
    DivideBack(m, u as real);
    hide HalfEven, Product;
    var h := HalfEven(d) as real;
    Scales(h, d, u as real);
    Scales(k as real, d, u as real);
    Scales(Distance(h, d), Distance(k as real, d), u as real);
    Scales(Distance(h, d), 0.5, u as real);
  }

  lemma Rotate(a: nat, b: nat, c: nat)
    ensures a * (b * c) == c * (a * b)
  {
  }

  lemma GapSum(least: nat, a: nat, b: nat)
    ensures Gap(least, a + b) == Pow2(b) * Gap(least, a)
  {
    Pow2Sum(a, b);
    hide Pow2;
    Rotate(least, Pow2(a), Pow2(b));
  }

  lemma TimesOfProduct(k: nat, c: nat, u: nat)
    ensures Times(k, c * u) == Times(k * c, u)
  {
    assert k * (c * u) == (k * c) * u;
    UnitsAsReal(k, c * u);
    UnitsAsReal(k * c, u);
  }

  lemma TimesGrows(k: nat, n: nat, u: nat)
    requires k <= n
    ensures Times(k, u) <= (n * u) as real
  {
    ProductGrows(u, k, n);
    UnitsAsReal(k, u);
  }

  lemma {:induction false} LimitsGrow(bits: nat, least: nat, a: nat, b: nat)
    requires a <= b
    ensures Limit(bits, least, a) <= Limit(bits, least, b)
  {
    if a < b {
      LimitsGrow(bits, least, a, b - 1);
      LimitDoubles(bits, least, b - 1);
      hide Limit;
    }
  }

  /** The lower end of a binade is a multiple of its gap. */
  lemma LowerEnd(bits: nat, least: nat, k: nat)
    requires bits >= 1 && k >= 1
    ensures Limit(bits, least, k - 1) as real == Times(Pow2(bits - 1), Gap(least, k))
    ensures Limit(bits, least, k) == 2 * Limit(bits, least, k - 1)
  {
    LimitDoubles(bits, least, k - 1);
    Pow2Next(bits - 1);
    hide Pow2;
    var g := Gap(least, k - 1);
    hide Gap;
    assert Pow2(bits - 1) * (2 * g) == (2 * Pow2(bits - 1)) * g;
    UnitsAsReal(Pow2(bits - 1), 2 * g);
    assert Units(Pow2(bits - 1), 2 * g) == Limit(bits, least, k - 1);
  }

  /** A float of a finer binade lies below this one. */
  lemma FinerIsLower(bits: nat, least: nat, m: real, y: real, k: nat, q: nat, e: nat)
    requires m >= 0.0 && InBinade(bits, least, m.Floor, k) && FloatWith(bits, least, y, q, e) && e < k && bits >= 1
    ensures y <= Limit(bits, least, k - 1) as real <= m
  {
    LowerEnd(bits, least, k);
    TimesGrows(q, Pow2(bits), Gap(least, e));
    LimitsGrow(bits, least, e, k - 1);
    assert (Pow2(bits) * Gap(least, e)) == Limit(bits, least, e);
    hide Limit, Gap, Pow2, Times;
  }

  /** Rounding gives the nearest float: no other is nearer. */
  lemma RoundIsNearest(bits: nat, least: nat, m: real, y: real)
    requires bits >= 1 && least >= 1 && m >= 0.0 && IsFloat(bits, least, y)
    ensures Distance(Round(bits, least, m), m) <= Distance(y, m)
  {
    var q: nat, e: nat :| FloatWith(bits, least, y, q, e);
    var k := BinadeOf(bits, least, m.Floor);
    UlpIs(bits, least, m.Floor, k);
    assert Round(bits, least, m) == ToMultiple(m, Ulp(bits, least, m.Floor));
    if e >= k {
      GapSum(least, k, e - k);
      TimesOfProduct(q, Pow2(e - k), Gap(least, k));
      hide *;
      ToMultipleIsNearest(m, Ulp(bits, least, m.Floor), q * Pow2(e - k));
      FloatIs(bits, least, y, q, e);
    } else {
      FinerIsLower(bits, least, m, y, k, q, e);
      LowerEnd(bits, least, k);
      hide Round, Ulp, Limit, Gap, Pow2, Times, ToMultiple, FloatWith;
      ToMultipleIsNearest(m, Ulp(bits, least, m.Floor), Pow2(bits - 1));
    }
  }

  lemma FloatIs(bits: nat, least: nat, y: real, k: nat, e: nat)
    requires FloatWith(bits, least, y, k, e)
    ensures k <= Pow2(bits) && y == Times(k, Gap(least, e))
  {
  }

  /** And it is a float. */
  lemma RoundIsFloat(bits: nat, least: nat, m: real)
    requires least >= 1 && m >= 0.0
    ensures IsFloat(bits, least, Round(bits, least, m))
  {
    var k := BinadeOf(bits, least, m.Floor);
    UlpIs(bits, least, m.Floor, k);
    var u, n := Ulp(bits, least, m.Floor), Pow2(bits);
    assert m < Limit(bits, least, k) as real && Limit(bits, least, k) == n * u;
    hide Limit, Gap, Pow2, Ulp;
    QuotientBelow(m, n, u);
    var h: nat := HalfEven(m / (u as real));
    assert FloatWith(bits, least, Round(bits, least, m), h, k);
  }

  lemma QuotientBelow(m: real, n: nat, u: nat)
    requires u >= 1 && 0.0 <= m < (n * u) as real
    ensures 0 <= HalfEven(m / (u as real)) <= n
  {
    var d := m / (u as real);
    DivideBack(m, u as real);
    UnitsAsReal(n, u);
    OneAndZero(u as real);
    hide Product;
    Scales(d, n as real, u as real);
    Scales(d, 0.0, u as real);
  }

  /** The double, or float32, nearest to x: y is one, and no other is nearer to x. */
  ghost predicate IsNearest(bits: nat, least: nat, x: real, y: real) {
    && IsFloat(bits, least, Magnitude(y))
    && forall z :: IsFloat(bits, least, Magnitude(z)) ==> Distance(y, x) <= Distance(z, x)
  }

  lemma MagnitudeOfSigned(x: real, m: real)
    requires m >= 0.0
    ensures Magnitude(Signed(x, m)) == m
  {
    var u := Unit();
    DivideBack(m, u);
    NotNegative(m, u);
    hide Unit;
  }

  lemma NotNegative(m: real, u: real)
    requires u >= 1.0 && m >= 0.0
    ensures m / u >= 0.0
  {
  }

  /** How far two numbers are apart, in smallest doubles: at least as far as their
      magnitudes. */
  lemma MagnitudesApart(x: real, z: real)
    ensures Product(Distance(z, x), Unit()) >= Distance(Magnitude(z), Magnitude(x))
    ensures (x < 0.0 <==> z < 0.0) ==> Product(Distance(z, x), Unit()) == Distance(Magnitude(z), Magnitude(x))
  {
    var u := Unit();
    hide Unit;
    assert Product(Distance(z, x), u) == Distance(Product(z, u), Product(x, u)) by {
      Scales(z, x, u);
    }
    assert Product(-z, u) == -Product(z, u) && Product(-x, u) == -Product(x, u);
    assert z < 0.0 ==> Product(z, u) <= 0.0;
    assert x < 0.0 ==> Product(x, u) <= 0.0;
    assert z >= 0.0 ==> Product(z, u) >= 0.0;
    assert x >= 0.0 ==> Product(x, u) >= 0.0;
    hide Product;
  }

  lemma NearestOf(bits: nat, least: nat, x: real)
    requires bits >= 1 && least >= 1
    ensures IsNearest(bits, least, x, Signed(x, Round(bits, least, Magnitude(x))))
  {
    var m := Magnitude(x);
    RoundIsFloat(bits, least, m);
    RoundIsPositive(bits, least, m);
    var r := Round(bits, least, m);
    var y := Signed(x, r);
    MagnitudeOfSigned(x, r);
    SignedApart(x, r);
    hide Round, IsFloat, Magnitude, Signed, Unit;
    forall z | IsFloat(bits, least, Magnitude(z)) ensures Distance(y, x) <= Distance(z, x) {
      MagnitudesApart(x, z);
      RoundIsNearest(bits, least, m, Magnitude(z));
      Scales(Distance(z, x), Distance(y, x), Unit());
    }
  }

  lemma RoundIsPositive(bits: nat, least: nat, m: real)
    requires least >= 1 && m >= 0.0
    ensures Round(bits, least, m) >= 0.0
  {
    RoundIsFloat(bits, least, m);
    var k: nat, e: nat :| FloatWith(bits, least, Round(bits, least, m), k, e);
    UnitsAsReal(k, Gap(least, e));
    hide Round, Gap, Pow2;
  }

  /** A number and its rounding are as far apart as their magnitudes. */
  lemma SignedApart(x: real, r: real)
    requires r >= 0.0
    ensures Product(Distance(Signed(x, r), x), Unit()) == Distance(r, Magnitude(x))
  {
    var u := Unit();
    var y := r / u;
    DivideBack(r, u);
    NotNegative(r, u);
    hide Unit;
    if x < 0.0 {
      Scales(-y, x, u);
      assert Product(-y, u) == -Product(y, u) && Product(-x, u) == -Product(x, u);
    } else {
      Scales(y, x, u);
    }
    hide Product;
  }

  /** A numeral is read as the nearest double, or float32. */
  lemma NearestIsNearest(x: real)
    ensures IsNearest(BITS64, 1, x, Nearest64(x))
    ensures IsNearest(BITS32, Least32(), x, Nearest32(x))
  {
    hide IsNearest, Round, Signed, Magnitude, Pow2;
    NearestOf(BITS64, 1, x);
    NearestOf(BITS32, Least32(), x);
  }

  // ---- one tenth ----------------------------------------------------------------------

  lemma Tenth(s: nat, u: nat, v: nat)
    requires u >= 1 && s == 0x100_0000_0000_0000 * u && v == 0x2000_0000 * u
    ensures ToMultiple(Product(0.1, s as real), u) == Times(7205759403792794, u)
    ensures !IsMultiple(Times(7205759403792794, u), v)
  {
    assert Times(7205759403792794, u) - Product(0.1, s as real) == Product(0.4, u as real);
    assert Product(0.4, u as real) < Product(0.5, u as real);
    ToMultipleIs(Product(0.1, s as real), u, 7205759403792794);
    if IsMultiple(Times(7205759403792794, u), v) {
      var k: int :| Times(7205759403792794, u) == Times(k, v);
      assert Times(k, v) == Times(0x2000_0000 * k, u);
      Scales(7205759403792794.0, (0x2000_0000 * k) as real, u as real);
    }
  }

  lemma SmallPowers()
    ensures Pow2(24) == 0x100_0000 && Pow2(29) == 0x2000_0000
    ensures Pow2(53) == 0x20_0000_0000_0000 && Pow2(56) == 0x100_0000_0000_0000
  {
    assert Pow2(10) == 1024 && Pow2(4) == 16 && Pow2(5) == 32 && Pow2(3) == 8;
    Pow2Of53();
    hide Pow2;
    Pow2Sum(10, 10);
    Pow2Sum(20, 4);
    Pow2Sum(24, 5);
    Pow2Sum(53, 3);
  }

  /** Both gaps at one tenth, in terms of the smaller one. */
  lemma TenthGaps(f: nat, u: nat)
    requires u == Pow2(1018) && 7205759403792793 * u <= f <= 7205759403792794 * u
    ensures Ulp(BITS64, 1, f) == u && Ulp(BITS32, Least32(), f) == 0x2000_0000 * u
  {
    hide Pow2, Ulp;
    SmallPowers();
    Pow2Sum(925, 122);
    Pow2Sum(29, 1018);
    assert Gap(1, 1018) == u && Gap(Least32(), 122) == 0x2000_0000 * u;
    assert Limit(BITS64, 1, 1018) == 0x20_0000_0000_0000 * u == Limit(BITS32, Least32(), 122);
    hide Limit, Gap;
    UlpIs(BITS64, 1, f, 1018);
    UlpIs(BITS32, Least32(), f, 122);
  }

  /** One tenth is not the same number as a float32 and as a double. */
  lemma OneTenthDiffers()
    ensures Nearest32(0.1) != Nearest64(0.1)
  {
    hide Pow2, Ulp;
    var s, u := Pow2(1074), Pow2(1018);
    SmallPowers();
    Pow2Sum(56, 1018);
    assert Magnitude(0.1) == Product(0.1, s as real);
    var f := Magnitude(0.1).Floor;
    assert 7205759403792793 * u <= f <= 7205759403792794 * u;
    hide Magnitude;
    TenthGaps(f, u);
    Tenth(s, u, 0x2000_0000 * u);
    SameFloatIff(0.1);
    hide ToMultiple, Times, IsMultiple, Product;
  }
}
