/** How far the rounded accumulator of the number parser strays from the number written, and what
    that means for the limit of 1E307 (src/3rdparty/rapidjson/reader.h). */
module JsonLimits {
  import opened Sequences
  import opened JsonDouble
  import opened JsonGrammar
  import opened JsonProperties
  import R = JsonReader

  /** 10^307. */
  const TEN_TO_307: nat :=
    1_000_000_000_000_000_000_000_000_000_000_000_000_000_000_000_000_000_000_000_000_000_000_000_000_000_000_000_000_000_000_000_000_000_000_000_000_000_000_000_000_000_000_000_000_000_000_000_000_000_000_000_000_000_000_000_000_000_000_000_000_000_000_000_000_000_000_000_000_000_000_000_000_000_000_000_000_000_000_000_000_000_000_000_000_000_000_000_000_000_000_000_000_000_000_000_000_000_000_000_000_000_000_0

  // ---- one rounding ----

  lemma RoundBounds(n: nat)
    requires n < ROUNDED_TO_INFINITE
    ensures (TWO_TO_53 - 1) * n <= TWO_TO_53 * RoundDouble(n) <= (TWO_TO_53 + 1) * n
  {
    RoundError(n);
  }

  // ---- one step ----

  const PARTS: nat := 0x100_0000_0000   // 2^40

  /** n, k times. */
  function Times(k: nat, n: nat): nat { if k == 0 then 0 else n + Times(k - 1, n) }

  /** d is within k parts in 2^40 of n. */
  predicate Near(d: nat, n: nat, k: nat) { PARTS * n - Times(k, n) <= PARTS * d <= PARTS * n + Times(k, n) }

  lemma {:induction false} TimesTen(k: nat, n: nat, c: nat)
    ensures 10 * Times(k, n) <= Times(k, 10 * n + c)
  {
    if k > 0 { TimesTen(k - 1, n, c); }
  }

  lemma {:induction false} TimesAdd(a: nat, b: nat, n: nat)
    ensures Times(a + b, n) == Times(a, n) + Times(b, n)
  {
    if a > 0 { TimesAdd(a - 1, b, n); }
  }

  lemma {:induction false} TimesMore(k: nat, m: nat, n: nat)
    requires k <= m
    ensures Times(k, n) <= Times(m, n)
  {
    TimesAdd(m - k, k, n);
  }

  lemma {:induction false} Times400(n: nat)
    ensures Times(400, n) == 400 * n
  {
    assert Times(1, n) == n + Times(0, n);
    TimesAdd(1, 1, n);
    TimesAdd(2, 2, n);
    TimesAdd(4, 4, n);
    TimesAdd(8, 8, n);
    TimesAdd(16, 16, n);
    TimesAdd(32, 32, n);
    TimesAdd(64, 64, n);
    TimesAdd(128, 128, n);
    TimesAdd(256, 128, n);
    TimesAdd(384, 16, n);
  }

  lemma FewParts(k: nat, n: nat)
    requires k <= 400
    ensures Times(k, n) <= 400 * n
  {
    TimesMore(k, 400, n);
    Times400(n);
  }

  /** Times ten plus a digit, before rounding. */
  lemma {:induction false} NearTen(d: nat, n: nat, c: nat, k: nat)
    requires Near(d, n, k)
    ensures Near(10 * d + c, 10 * n + c, k)
  {
    TimesTen(k, n, c);
  }

  /** Two roundings cost less than one part. */
  lemma {:induction false} NearRounded(x: nat, n: nat, d: nat, k: nat)
    requires Near(x, n, k) && k <= 400
    requires (TWO_TO_53 - 1) * (TWO_TO_53 - 1) * x <= TWO_TO_53 * TWO_TO_53 * d <= (TWO_TO_53 + 1) * (TWO_TO_53 + 1) * x
    ensures Near(d, n, k + 1)
  {
    FewParts(k, n);
    RoundedParts(x, n, d, Times(k, n));
  }

  /** The same with Times(k, n) given as q. */
  lemma RoundedParts(x: nat, n: nat, d: nat, q: nat)
    requires PARTS * n - q <= PARTS * x <= PARTS * n + q && q <= 400 * n
    requires (TWO_TO_53 - 1) * (TWO_TO_53 - 1) * x <= TWO_TO_53 * TWO_TO_53 * d <= (TWO_TO_53 + 1) * (TWO_TO_53 + 1) * x
    ensures PARTS * n - q - n <= PARTS * d <= PARTS * n + q + n
  {
  }

  lemma StepBounds(d: nat, c: byte)
    requires IsDigit(c) && 10 * d < ROUNDED_TO_INFINITE && RoundDouble(d * 10) + DigitValue(c) < ROUNDED_TO_INFINITE
    ensures var x := 10 * d + DigitValue(c);
            (TWO_TO_53 - 1) * (TWO_TO_53 - 1) * x <= TWO_TO_53 * TWO_TO_53 * DoubleStep(d, c)
            <= (TWO_TO_53 + 1) * (TWO_TO_53 + 1) * x
  {
    RoundBounds(d * 10);
    RoundBounds(RoundDouble(d * 10) + DigitValue(c));
    TwoRoundings(10 * d, RoundDouble(d * 10), DigitValue(c), DoubleStep(d, c));
  }

  lemma TwoRoundings(a: nat, r: nat, c: nat, d: nat)
    requires (TWO_TO_53 - 1) * a <= TWO_TO_53 * r <= (TWO_TO_53 + 1) * a
    requires (TWO_TO_53 - 1) * (r + c) <= TWO_TO_53 * d <= (TWO_TO_53 + 1) * (r + c)
    ensures (TWO_TO_53 - 1) * (TWO_TO_53 - 1) * (a + c) <= TWO_TO_53 * TWO_TO_53 * d
            <= (TWO_TO_53 + 1) * (TWO_TO_53 + 1) * (a + c)
  {
  }

  // ---- powers of ten ----

  // Powers as multiples of earlier ones, with the factors written out.

  lemma Tens9(a: nat)
    ensures Pow10(a + 9) == 1_000_000_000 * Pow10(a)
  {
    assert Pow10(a + 3) == 10 * Pow10(a + 2) == 100 * Pow10(a + 1) == 1000 * Pow10(a);
    assert Pow10(a + 6) == 10 * Pow10(a + 5) == 100 * Pow10(a + 4) == 1000 * Pow10(a + 3);
    assert Pow10(a + 9) == 10 * Pow10(a + 8) == 100 * Pow10(a + 7) == 1000 * Pow10(a + 6);
  }

  lemma Tens19(a: nat)
    ensures Pow10(a + 19) == 10000000000000000000 * Pow10(a)
  {
    Tens9(a);
    Tens9(a + 9);
    assert Pow10(a + 19) == 10 * Pow10(a + 18);
  }

  lemma Tens38(a: nat)
    ensures Pow10(a + 38) == 100000000000000000000000000000000000000 * Pow10(a)
  {
    Tens19(a);
    Tens19(a + 19);
  }

  lemma Tens76(a: nat)
    ensures Pow10(a + 76) == 10000000000000000000000000000000000000000000000000000000000000000000000000000 * Pow10(a)
  {
    Tens38(a);
    Tens38(a + 38);
  }

  lemma Tens153(a: nat)
    ensures Pow10(a + 153) == 1000000000000000000000000000000000000000000000000000000000000000000000000000000000000000000000000000000000000000000000000000000000000000000000000000000000 * Pow10(a)
  {
    Tens76(a);
    Tens76(a + 76);
    assert Pow10(a + 153) == 10 * Pow10(a + 152);
  }

  lemma Pow10Of307()
    ensures Pow10(307) == TEN_TO_307
  {
    Tens153(0);
    Tens153(153);
    assert Pow10(307) == 10 * Pow10(306);
  }

  lemma {:induction false} DecimalBelow(ds: seq<byte>)
    requires DigitsOnly(ds)
    ensures Decimal(ds) < Pow10(|ds|)
  {
    if ds != [] { DecimalBelow(ds[..|ds| - 1]); }
  }

  lemma {:induction false} DecimalFrom(ds: seq<byte>)
    requires DigitsOnly(ds) && ds != [] && ds[0] != ZERO
    ensures Decimal(ds) >= Pow10(|ds| - 1)
  {
    if |ds| == 1 {
      assert Decimal(ds[..0]) == 0 && ds[0] in ds;
    } else {
      DecimalFrom(ds[..|ds| - 1]);
    }
  }

  lemma {:induction false} Pow10Grows(a: nat, b: nat)
    requires a <= b
    ensures Pow10(a) <= Pow10(b)
    decreases b
  {
    if a < b { Pow10Grows(a, b - 1); }
  }

  // ---- the accumulator ----

  lemma {:induction false} NearInteger(n: nat)
    requires n < ROUNDED_TO_INFINITE
    ensures Near(RoundDouble(n), n, 1)
  {
    RoundBounds(n);
    assert Times(1, n) == n + Times(0, n);
  }

  lemma {:induction false} NearMore(d: nat, n: nat, k: nat, m: nat)
    requires Near(d, n, k) && k <= m
    ensures Near(d, n, m)
  {
    TimesMore(k, m, n);
  }

  /** Far from infinity as long as the number has at most 307 digits. */
  lemma FarFromInfinite(d: nat, n: nat, c: nat, k: nat)
    requires Near(d, n, k) && k <= 400 && n < TEN_TO_307 && c < 10
    ensures 10 * d < ROUNDED_TO_INFINITE && RoundDouble(10 * d) + c < ROUNDED_TO_INFINITE
  {
    FewParts(k, n);
    assert 10 * d < 2 * 5 * TEN_TO_307 + TEN_TO_307;
    RoundBounds(10 * d);
  }

  /** One digit on both sides. */
  lemma {:induction false} DigitStep(negative: bool, ds: seq<byte>)
    requires DigitsOnly(ds) && ds != [] && !FitsInteger(negative, Decimal(ds))
    ensures IsDigit(ds[|ds| - 1])
    ensures Decimal(ds) == 10 * Decimal(ds[..|ds| - 1]) + DigitValue(ds[|ds| - 1])
    ensures IntegerDouble(negative, ds) == DoubleStep(IntegerDouble(negative, ds[..|ds| - 1]), ds[|ds| - 1])
  {
    assert ds[|ds| - 1] in ds;
  }

  lemma {:induction false} NearDigit(d: nat, n: nat, c: byte, k: nat)
    requires IsDigit(c) && Near(d, n, k) && k <= 400 && n < TEN_TO_307
    ensures Near(DoubleStep(d, c), 10 * n + DigitValue(c), k + 1)
  {
    FarFromInfinite(d, n, DigitValue(c), k);
    StepBounds(d, c);
    NearTen(d, n, DigitValue(c), k);
    NearRounded(10 * d + DigitValue(c), 10 * n + DigitValue(c), DoubleStep(d, c), k);
  }

  lemma {:induction false} NearStep(negative: bool, ds: seq<byte>)
    requires DigitsOnly(ds) && 0 < |ds| <= 308 && !FitsInteger(negative, Decimal(ds))
    requires Near(IntegerDouble(negative, ds[..|ds| - 1]), Decimal(ds[..|ds| - 1]), |ds|)
    ensures Near(IntegerDouble(negative, ds), Decimal(ds), |ds| + 1)
  {
    var front := ds[..|ds| - 1];
    DigitStep(negative, ds);
    DecimalBelow(front);
    Pow10Grows(|front|, 307);
    Pow10Of307();
    NearDigit(IntegerDouble(negative, front), Decimal(front), ds[|ds| - 1], |ds|);
  }

  /** Up to 308 digits the accumulator is within one part in 2^40 per digit of the number written,
      through all its roundings. */
  lemma {:induction false} AccumulatorNear(negative: bool, ds: seq<byte>)
    requires DigitsOnly(ds) && |ds| <= 308
    ensures Near(IntegerDouble(negative, ds), Decimal(ds), |ds| + 1)
  {
    if ds == [] || FitsInteger(negative, Decimal(ds)) {
      NearInteger(Decimal(ds));
      NearMore(IntegerDouble(negative, ds), Decimal(ds), 1, |ds| + 1);
    } else {
      AccumulatorNear(negative, ds[..|ds| - 1]);
      NearStep(negative, ds);
    }
  }

  // ---- the limit ----

  /** 2^967, the distance of doubles around 10^307. */
  const TWO_TO_967: nat :=
    1247400193459199882285232945648024103792157037772160963439092026523257432418102541115598728432897313180839029277620309527482773742745996037961982373928019637700003545594428547823461075902726866989158347965339952495831756534450543993055534542780027598441950566797347526026474059518965006204928

  lemma Twos15(a: nat)
    ensures Pow2(a + 15) == 0x8000 * Pow2(a)
  {
    assert Pow2(a + 5) == 2 * Pow2(a + 4) == 4 * Pow2(a + 3) == 8 * Pow2(a + 2) == 16 * Pow2(a + 1) == 32 * Pow2(a);
    assert Pow2(a + 10) == 2 * Pow2(a + 9) == 4 * Pow2(a + 8) == 8 * Pow2(a + 7) == 16 * Pow2(a + 6) == 32 * Pow2(a + 5);
    assert Pow2(a + 15) == 2 * Pow2(a + 14) == 4 * Pow2(a + 13) == 8 * Pow2(a + 12) == 16 * Pow2(a + 11) == 32 * Pow2(a + 10);
  }

  lemma Twos30(a: nat)
    ensures Pow2(a + 30) == 0x40000000 * Pow2(a)
  {
    Twos15(a);
    Twos15(a + 15);
  }

  lemma Twos60(a: nat)
    ensures Pow2(a + 60) == 0x1000000000000000 * Pow2(a)
  {
    Twos30(a);
    Twos30(a + 30);
  }

  lemma Twos120(a: nat)
    ensures Pow2(a + 120) == 0x1000000000000000000000000000000 * Pow2(a)
  {
    Twos60(a);
    Twos60(a + 60);
  }

  lemma Twos241(a: nat)
    ensures Pow2(a + 241) == 0x2000000000000000000000000000000000000000000000000000000000000 * Pow2(a)
  {
    Twos120(a);
    Twos120(a + 120);
    assert Pow2(a + 241) == 2 * Pow2(a + 240);
  }

  lemma Twos483(a: nat)
    ensures Pow2(a + 483) == 0x8000000000000000000000000000000000000000000000000000000000000000000000000000000000000000000000000000000000000000000000000 * Pow2(a)
  {
    Twos241(a);
    Twos241(a + 241);
    assert Pow2(a + 483) == 2 * Pow2(a + 482);
  }

  lemma Pow2Of967()
    ensures Pow2(967) == TWO_TO_967
  {
    Twos483(0);
    Twos483(483);
    assert Pow2(967) == 2 * Pow2(966);
  }

  lemma UlpAtLimit(n: nat)
    requires n == TEN_TO_307
    ensures Ulp(n) == TWO_TO_967
  {
    var e := UlpShape(n);
    Pow2Of967();
    if e < 967 { Pow2Grows(e + 1, 967); }
    if e > 967 { Pow2Grows(968, e); }
  }

  /** The limit is the double nearest to 10^307. */
  lemma LimitRounded(n: nat)
    requires n == TEN_TO_307
    ensures RoundDouble(n) == DOUBLE_1E307
  {
    UlpAtLimit(n);
    RoundedDown(n, 8016673440035891, TWO_TO_967, TEN_TO_307 - DOUBLE_1E307);
  }

  lemma BelowLimit(negative: bool, ds: seq<byte>)
    requires DigitsOnly(ds) && |ds| <= 306
    ensures IntegerDouble(negative, ds) < DOUBLE_1E307
  {
    AccumulatorNear(negative, ds);
    DecimalBelow(ds);
    Pow10Grows(|ds|, 306);
    Pow10Of307();
    FewParts(|ds| + 1, Decimal(ds));
  }

  lemma {:induction false} ShortNotTooBig(negative: bool, ds: seq<byte>)
    requires DigitsOnly(ds) && |ds| <= 307
    ensures !OverflowsDouble(negative, ds)
  {
    if ds != [] {
      ShortNotTooBig(negative, ds[..|ds| - 1]);
      BelowLimit(negative, ds[..|ds| - 1]);
    }
  }

  lemma RoundAtLeast(n: nat, t: nat)
    requires n >= 2 * t && t <= 8 * TEN_TO_307
    ensures RoundDouble(n) >= t
  {
    if n < ROUNDED_TO_INFINITE { RoundBounds(n); }
  }

  lemma LongAboveLimit(negative: bool, ds: seq<byte>)
    requires DigitsOnly(ds) && |ds| == 309 && ds[0] != ZERO
    ensures IntegerDouble(negative, ds) >= DOUBLE_1E307 && !FitsInteger(negative, Decimal(ds))
  {
    var front, c := ds[..308], ds[308];
    AccumulatorNear(negative, front);
    DecimalFrom(front);
    DecimalFrom(ds);
    Pow10Of307();
    var d := IntegerDouble(negative, front);
    FewParts(309, Decimal(front));
    assert 10 * d >= 8 * TEN_TO_307;
    RoundAtLeast(d * 10, 4 * TEN_TO_307);
    RoundAtLeast(RoundDouble(d * 10) + DigitValue(c), 2 * TEN_TO_307);
  }

  /** What the limit comes to: an integer part of at most 307 digits is never refused and one of
      310 digits or more always; in between the roundings decide. */
  lemma LengthDecides(negative: bool, ds: seq<byte>)
    requires IntegerText(ds)
    ensures |ds| <= 307 ==> !OverflowsDouble(negative, ds)
    ensures |ds| >= 310 ==> OverflowsDouble(negative, ds)
  {
    if |ds| <= 307 { ShortNotTooBig(negative, ds); }
    if |ds| >= 310 {
      var p := ds[..310];
      LongAboveLimit(negative, p[..309]);
      assert p == p[..309] + [p[309]];
      R.DecimalGrows(p[..309], [p[309]]);
      R.OverflowGrows(negative, p, ds[310..]);
      assert p + ds[310..] == ds;
    }
  }
}
