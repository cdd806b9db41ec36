/**
 * Integers as doubles: the conversion float64(x) rounds to nearest, ties to even
 * (section 5.4.1 of IEEE 754-2008), and its 64 bits cross the bridge as one word.
 */
module Binary64 {
  import opened Bytes

  // ---- powers, products, quotients ----

  function Pow2(n: nat): (p: nat)
    ensures p >= 1
  {
    if n == 0 then 1 else 2 * Pow2(n - 1)
  }

  lemma {:induction false} Pow2Add(a: nat, b: nat)
    ensures Pow2(a + b) == Pow2(a) * Pow2(b)
  {
    if a > 0 {
      Pow2Add(a - 1, b);
      Assoc(2, Pow2(a - 1), Pow2(b));
    }
  }

  lemma {:induction false} Pow2Monotone(a: nat, b: nat)
    requires a <= b
    ensures Pow2(a) <= Pow2(b)
    decreases b - a
  {
    if a < b {
      Pow2Monotone(a + 1, b);
    }
  }

  lemma Pow2Values()
    ensures Pow2(52) == 0x10_0000_0000_0000
    ensures Pow2(53) == 0x20_0000_0000_0000
    ensures Pow2(54) == 0x40_0000_0000_0000
    ensures Pow2(64) == TWO_64
  {
    assert Pow2(13) == 0x2000;
    Pow2Add(13, 13);
    Pow2Add(26, 26);
    assert Pow2(53) == 2 * Pow2(52);
    assert Pow2(54) == 2 * Pow2(53);
    Pow2Add(6, 6);
    Pow2Add(52, 12);
  }

  lemma Assoc(a: int, b: int, c: int)
    ensures a * b * c == a * (b * c)
  {
  }

  lemma MulMonotone(a: int, b: int, c: nat)
    requires a <= b
    ensures a * c <= b * c
  {
  }

  /** Quotient and remainder are unique. */
  lemma DivUnique(z: int, q: int, r: int, u: nat)
    requires u >= 1 && z == q * u + r && 0 <= r < u
    ensures z / u == q && z % u == r
  {
    var q' := z / u;
    assert z == q' * u + z % u;
    if q' < q {
      MulMonotone(q' + 1, q, u);
    } else if q' > q {
      MulMonotone(q + 1, q', u);
    }
  }

  lemma QuotientRange(m: nat, u: nat, lo: nat, hi: nat)
    requires u >= 1 && lo * u <= m < hi * u
    ensures lo <= m / u < hi
  {
    var q := m / u;
    assert m == q * u + m % u;
    if q < lo {
      MulMonotone(q + 1, lo, u);
    } else if q >= hi {
      MulMonotone(hi, q, u);
    }
  }

  /** The position of the highest set bit. */
  function TopBit(m: nat): (e: nat)
    requires m >= 1
    ensures Pow2(e) <= m < Pow2(e + 1)
  {
    if m == 1 then 0 else 1 + TopBit(m / 2)
  }

  lemma TopBitIs(m: nat, k: nat)
    requires m >= 1
    ensures m < Pow2(k) ==> TopBit(m) < k
    ensures m >= Pow2(k) ==> TopBit(m) >= k
  {
    if TopBit(m) >= k {
      Pow2Monotone(k, TopBit(m));
    } else {
      Pow2Monotone(TopBit(m) + 1, k);
    }
  }

  function Abs(x: int): nat {
    if x < 0 then -x else x
  }

  // ---- rounding ----

  /** m / u to the nearest integer, ties to even. */
  function RoundHalfEven(m: nat, u: nat): nat
    requires u >= 1
  {
    var q, r := m / u, m % u;
    if 2 * r < u || (2 * r == u && q % 2 == 0) then q else q + 1
  }

  /** The spacing of doubles of magnitude `m`, when it is at least one. */
  function Spacing(m: nat): (u: nat)
    requires m >= 1
    ensures u >= 1
  {
    if TopBit(m) <= 52 then 1 else Pow2(TopBit(m) - 52)
  }

  function RoundedMagnitude(m: nat): nat
    requires m >= 1
  {
    RoundHalfEven(m, Spacing(m)) * Spacing(m)
  }

  /** The integer that float64(x) stands for. */
  function Rounded(x: int): int {
    if x == 0 then 0
    else
      var r: int := RoundedMagnitude(Abs(x));
      if x < 0 then -r else r
  }

  // ---- the bits ----

  /** The 53-bit significand and the biased exponent of a positive integer. */
  function Significand(m: nat): (nat, nat)
    requires m >= 1
  {
    var e := TopBit(m);
    if e <= 52 then (m * Pow2(52 - e), e + 1023)
    else
      var q := RoundHalfEven(m, Pow2(e - 52));
      if q == Pow2(53) then (Pow2(52), e + 1024) else (q, e + 1023)
  }

  lemma SmallSignificand(m: nat)
    requires m >= 1 && TopBit(m) <= 52
    ensures Pow2(52) <= m * Pow2(52 - TopBit(m)) < Pow2(53)
  {
    var e := TopBit(m);
    var k := Pow2(52 - e);
    Pow2Add(e, 52 - e);
    Pow2Add(e + 1, 52 - e);
    ScaledRange(m, Pow2(e), Pow2(e + 1), k);
  }

  lemma ScaledRange(m: nat, lo: nat, hi: nat, k: nat)
    requires lo <= m < hi && k >= 1
    ensures lo * k <= m * k < hi * k
  {
    MulMonotone(lo, m, k);
    MulMonotone(m + 1, hi, k);
  }

  lemma LargeSignificand(m: nat)
    requires m >= 1 && TopBit(m) > 52
    ensures Pow2(52) <= RoundHalfEven(m, Pow2(TopBit(m) - 52)) <= Pow2(53)
  {
    var e := TopBit(m);
    Pow2Add(52, e - 52);
    Pow2Add(53, e - 52);
    QuotientRange(m, Pow2(e - 52), Pow2(52), Pow2(53));
  }

  lemma SignificandRange(m: nat)
    requires 1 <= m < TWO_64
    ensures var (mantissa, exponent) := Significand(m);
      && 0x10_0000_0000_0000 <= mantissa < 0x20_0000_0000_0000
      && 1023 <= exponent <= 1087
  {
    Pow2Values();
    TopBitIs(m, 64);
    if TopBit(m) <= 52 {
      SmallSignificand(m);
    } else {
      LargeSignificand(m);
    }
  }

  /** float64 of an integer, as its bits: sign, biased exponent, fraction. */
  function IntToDouble(x: int): (w: Word)
    requires Abs(x) < TWO_64
  {
    if x == 0 then 0
    else
      SignificandRange(Abs(x));
      var (mantissa, exponent) := Significand(Abs(x));
      Pack(if x < 0 then 1 else 0, exponent, mantissa - 0x10_0000_0000_0000)
  }

  function Pack(sign: nat, exponent: nat, fraction: nat): (w: Word)
    requires sign <= 1 && exponent < 2048 && fraction < 0x10_0000_0000_0000
    ensures SignOf(w) == sign && ExponentOf(w) == exponent && FractionOf(w) == fraction
  {
    sign * 0x8000_0000_0000_0000 + exponent * 0x10_0000_0000_0000 + fraction
  }

  function SignOf(w: Word): nat {
    w / 0x8000_0000_0000_0000
  }

  function ExponentOf(w: Word): nat {
    (w / 0x10_0000_0000_0000) % 2048
  }

  function FractionOf(w: Word): nat {
    w % 0x10_0000_0000_0000
  }

  /** The double with the bits `w` is the integer `v`: its value is significand * 2^(exponent - 1075). */
  ghost predicate StandsFor(w: Word, v: int) {
    var significand := 0x10_0000_0000_0000 + FractionOf(w);
    && (SignOf(w) == 1 ==> v <= 0) && (SignOf(w) == 0 ==> v >= 0)
    && if ExponentOf(w) == 0 then FractionOf(w) == 0 && v == 0
       else if ExponentOf(w) < 1075 then Abs(v) * Pow2(1075 - ExponentOf(w)) == significand
       else ExponentOf(w) < 2047 && Abs(v) == significand * Pow2(ExponentOf(w) - 1075)
  }

  /** A double stands for at most one integer. */
  lemma StandsForOne(w: Word, v: int, v': int)
    requires StandsFor(w, v) && StandsFor(w, v')
    ensures v == v'
  {
    var e := ExponentOf(w);
    if 0 < e < 1075 {
      var k := Pow2(1075 - e);
      if Abs(v) < Abs(v') {
        MulMonotone(Abs(v) + 1, Abs(v'), k);
      } else if Abs(v') < Abs(v) {
        MulMonotone(Abs(v') + 1, Abs(v), k);
      }
    }
  }

  /** The significand and exponent stand for the rounded magnitude. */
  lemma SignificandValue(m: nat)
    requires 1 <= m < TWO_64
    ensures var (mantissa, exponent) := Significand(m);
      if exponent < 1075 then RoundedMagnitude(m) * Pow2(1075 - exponent) == mantissa
      else RoundedMagnitude(m) == mantissa * Pow2(exponent - 1075)
  {
    var e := TopBit(m);
    if e <= 52 {
      assert RoundHalfEven(m, 1) == m;
    } else {
      var u := Pow2(e - 52);
      if RoundHalfEven(m, u) == Pow2(53) {
        Assoc(Pow2(52), 2, u);
      }
    }
  }

  /** The bits of float64(x) stand for exactly the rounded integer, for every 64-bit integer. */
  lemma DoubleOfInt(x: int)
    requires Abs(x) < TWO_64
    ensures StandsFor(IntToDouble(x), Rounded(x))
  {
    if x == 0 {
      assert ExponentOf(0) == 0;
    } else {
      SignificandRange(Abs(x));
      SignificandValue(Abs(x));
    }
  }

  lemma PowerTopBit(e: nat)
    ensures TopBit(Pow2(e)) == e
  {
    TopBitIs(Pow2(e), e);
    TopBitIs(Pow2(e), e + 1);
  }

  lemma MultipleOf(q: nat, u: nat)
    requires u >= 1
    ensures RoundHalfEven(q * u, u) == q
  {
    DivUnique(q * u, q, 0, u);
  }

  lemma PowerRounds(k: nat, e: nat)
    requires k <= e
    ensures RoundHalfEven(Pow2(e), Pow2(e - k)) == Pow2(k)
  {
    Pow2Add(k, e - k);
    MultipleOf(Pow2(k), Pow2(e - k));
  }

  lemma SmallPower(m: nat, e: nat)
    requires e <= 52 && m == Pow2(e)
    ensures Significand(m) == (0x10_0000_0000_0000, e + 1023)
  {
    PowerTopBit(e);
    Pow2Add(e, 52 - e);
    Pow2Values();
    assert Significand(m) == (m * Pow2(52 - e), e + 1023);
  }

  lemma LargePower(m: nat, e: nat)
    requires e > 52 && m == Pow2(e)
    ensures Significand(m) == (0x10_0000_0000_0000, e + 1023)
  {
    PowerTopBit(e);
    PowerRounds(52, e);
    Pow2Values();
  }

  /** The bits of powers of two, as the format has them: no fraction, the exponent biased by 1023, the sign on top. */
  lemma PowersOfTwo(m: nat, e: nat)
    requires e <= 63 && m == Pow2(e)
    ensures m < TWO_64
    ensures IntToDouble(m) == (1023 + e) * 0x10_0000_0000_0000
    ensures IntToDouble(0 - m) == 0x8000_0000_0000_0000 + (1023 + e) * 0x10_0000_0000_0000
  {
    Pow2Values();
    Pow2Monotone(e + 1, 64);
    if e <= 52 { SmallPower(m, e); } else { LargePower(m, e); }
  }

  // ---- when an integer survives ----

  lemma MultipleRounds(m: nat, u: nat)
    requires u >= 1
    ensures RoundHalfEven(m, u) * u == m <==> m % u == 0
    ensures 2 * Abs(RoundHalfEven(m, u) * u - m) <= u
    ensures 2 * Abs(RoundHalfEven(m, u) * u - m) == u ==> RoundHalfEven(m, u) % 2 == 0
  {
    var q, r := m / u, m % u;
    assert m == q * u + r;
    assert (q + 1) * u == q * u + u;
  }

  /**
   * An integer of a 64-bit type survives the conversion exactly when it is a multiple of
   * the spacing of doubles at its magnitude.
   */
  lemma DoubleTagSurvives(x: int)
    requires Abs(x) < TWO_64
    ensures StandsFor(IntToDouble(x), x) <==> x == 0 || Abs(x) % Spacing(Abs(x)) == 0
  {
    DoubleOfInt(x);
    if StandsFor(IntToDouble(x), x) {
      StandsForOne(IntToDouble(x), x, Rounded(x));
    }
    if x != 0 {
      MultipleRounds(Abs(x), Spacing(Abs(x)));
    }
  }

  /** Every integer of magnitude at most 2 to the 53rd survives; the next one does not. */
  lemma SurvivesTo53(x: int)
    requires Abs(x) <= 0x20_0000_0000_0001
    ensures StandsFor(IntToDouble(x), x) <==> Abs(x) <= 0x20_0000_0000_0000
  {
    DoubleTagSurvives(x);
    if x != 0 {
      SpacingTo53(Abs(x));
    }
  }

  lemma TopBitTo53(m: nat)
    requires 1 <= m <= 0x20_0000_0000_0001
    ensures if m < 0x20_0000_0000_0000 then TopBit(m) <= 52 else TopBit(m) == 53
  {
    TopBitIs(m, 53);
    TopBitIs(m, 54);
    Pow2Values();
  }

  lemma SpacingTo53(m: nat)
    requires 1 <= m <= 0x20_0000_0000_0001
    ensures Spacing(m) == if m < 0x20_0000_0000_0000 then 1 else 2
  {
    TopBitTo53(m);
    var k := 1;
    assert Pow2(k) == 2 * Pow2(k - 1);
    assert TopBit(m) == 53 ==> TopBit(m) - 52 == k;
  }

  /** What does not survive becomes a nearest double, of two the one with the even significand. */
  lemma RoundedIsNear(x: int)
    requires x != 0
    ensures 2 * Abs(Rounded(x) - x) <= Spacing(Abs(x))
    ensures Abs(Rounded(x)) % Spacing(Abs(x)) == 0
    ensures 2 * Abs(Rounded(x) - x) == Spacing(Abs(x)) ==> (Abs(Rounded(x)) / Spacing(Abs(x))) % 2 == 0
  {
    var m, u := Abs(x), Spacing(Abs(x));
    MultipleRounds(m, u);
    DivUnique(RoundedMagnitude(m), RoundHalfEven(m, u), 0, u);
  }

  // ---- 32-bit integers ----

  /** uint64(v.Int()): two's complement in 64 bits. */
  function Wrap64(x: int): Word {
    x % TWO_64
  }

  /** (int)(long)word in C: the low 32 bits as a signed number. */
  function Narrow32(w: Word): (x: int)
    ensures -0x8000_0000 <= x < 0x8000_0000
  {
    var low := w % 0x1_0000_0000;
    if low >= 0x8000_0000 then low - 0x1_0000_0000 else low
  }

  /** An integer sent under the integer tag survives exactly when it fits 32 signed bits. */
  lemma IntTagSurvives(x: int)
    ensures Narrow32(Wrap64(x)) == x <==> -0x8000_0000 <= x < 0x8000_0000
  {
  }
}
