/** The double accumulator of the number parser (src/3rdparty/rapidjson/reader.h): non-negative
    whole numbers in IEEE 754 binary64, rounded to nearest with ties to even. */
module JsonDouble {

  const TWO_TO_52: nat := 0x10_0000_0000_0000
  const TWO_TO_53: nat := 0x20_0000_0000_0000

  /** Stands for infinity, 2^1024, and the least number that is rounded to it, 2^1024 - 2^970. */
  const INFINITE: nat :=
    179769313486231590772930519078902473361797697894230657273430081157732675805500963132708477322407536021120113879871393357658789768814416622492847430639474124377767893424865485276302219601246094119453082952085005768838150682342462881473913110540827237163350510684586298239947245938479716304835356329624224137216
  const ROUNDED_TO_INFINITE: nat :=
    179769313486231580793728971405303415079934132710037826936173778980444968292764750946649017977587207096330286416692887910946555547851940402630657488671505820681908902000708383676273854845817711531764475730270069855571366959622842914819860834936475292719074168444365510704342711559699508093042880177904174497792

  /** The distance between neighbouring doubles from n on. */
  function Ulp(n: nat): (u: nat)
    ensures u >= 1
  {
    if n < TWO_TO_53 then 1 else 2 * Ulp(n / 2)
  }

  /** n with its bits below the leading 53 rounded away; guard is the bit just below n, and sticky
      says whether any bit further below is set. */
  function Shrink(n: nat, guard: bool, sticky: bool): nat
    decreases n
  {
    if n >= TWO_TO_53 then 2 * Shrink(n / 2, n % 2 == 1, guard || sticky)
    else if guard && (sticky || n % 2 == 1) then n + 1
    else n
  }

  function RoundFinite(n: nat): nat { Shrink(n, false, false) }

  function RoundDouble(n: nat): nat {
    if n >= ROUNDED_TO_INFINITE then INFINITE else RoundFinite(n)
  }

  // ---- it is the rounding of IEEE 754 ----

  /** The nearest multiple of u, the even one of two that are equally near. */
  function RoundTo(n: nat, u: nat): nat
    requires u >= 1
  {
    var q, r := n / u, n % u;
    if 2 * r < u || (2 * r == u && q % 2 == 0) then q * u else q * u + u
  }

  /** guard and sticky are the two topmost facts about the rem units that are left of u. */
  predicate Tail(rem: nat, u: nat, guard: bool, sticky: bool) {
    && rem < u && (guard <==> 2 * rem >= u)
    && (if u == 1 then !guard && !sticky else sticky <==> rem != 0 && 2 * rem != u)
  }

  /** Dropping bits one by one rounds to the nearest multiple. */
  lemma {:induction false} ShrinkRounds(n: nat, guard: bool, sticky: bool, rem: nat, u: nat)
    requires Tail(rem, u, guard, sticky) && (u > 1 ==> u % 2 == 0)
    ensures Shrink(n, guard, sticky) * u == RoundTo(n * u + rem, u * Ulp(n))
    decreases n
  {
    if n < TWO_TO_53 {
      ShrinkLast(n, guard, sticky, rem, u);
    } else {
      var rest := if n % 2 == 1 then u + rem else rem;
      var more := Shrink(n / 2, n % 2 == 1, guard || sticky);
      TailStep(n % 2 == 1, guard, sticky, rem, u);
      ShrinkRounds(n / 2, n % 2 == 1, guard || sticky, rest, 2 * u);
      HalfOf(n, u, rem, rest);
      Doubled(more, u);
      Doubled(Ulp(n / 2), u);
    }
  }

  lemma ShrinkLast(n: nat, guard: bool, sticky: bool, rem: nat, u: nat)
    requires n < TWO_TO_53 && Tail(rem, u, guard, sticky) && (u > 1 ==> u % 2 == 0)
    ensures Shrink(n, guard, sticky) * u == RoundTo(n * u + rem, u * Ulp(n))
  {
    QuotientOf(n, u, rem);
    NextMultiple(n, u);
  }

  lemma TailStep(odd: bool, guard: bool, sticky: bool, rem: nat, u: nat)
    requires Tail(rem, u, guard, sticky)
    ensures Tail(if odd then u + rem else rem, 2 * u, odd, guard || sticky)
  {
  }

  lemma Doubled(a: nat, u: nat)
    ensures (2 * a) * u == a * (2 * u) == u * (2 * a) == (2 * u) * a
  {
  }

  lemma QuotientOf(q: nat, u: nat, r: nat)
    requires r < u
    ensures (q * u + r) / u == q && (q * u + r) % u == r
  {
    var n := q * u + r;
    Division(n, u);
    MultipleOrder(q, n / u, u);
    MultipleOrder(n / u, q, u);
  }

  lemma HalfOf(n: nat, u: nat, rem: nat, rest: nat)
    requires rest == if n % 2 == 1 then u + rem else rem
    ensures n * u + rem == n / 2 * (2 * u) + rest
  {
    var h := n / 2;
    assert n == if n % 2 == 1 then 2 * h + 1 else 2 * h;
    Doubled(h, u);
    NextMultiple(2 * h, u);
  }

  lemma RoundedBy(n: nat)
    ensures RoundFinite(n) == RoundTo(n, Ulp(n))
  {
    ShrinkRounds(n, false, false, 0, 1);
  }

  function Pow2(k: nat): (p: nat)
    ensures p >= 1
  {
    if k == 0 then 1 else 2 * Pow2(k - 1)
  }

  function Distance(a: nat, b: nat): nat { if a < b then b - a else a - b }

  /** Finite doubles that are whole: 53 bits times a power of two. */
  ghost predicate IsDouble(x: nat, m: nat, k: nat) { m <= TWO_TO_53 && x == m * Pow2(k) }

  lemma {:induction false} UlpShape(n: nat) returns (e: nat)
    ensures Ulp(n) == Pow2(e) && n < TWO_TO_53 * Ulp(n) && (e > 0 ==> n >= TWO_TO_52 * Ulp(n))
  {
    if n < TWO_TO_53 {
      e := 0;
    } else {
      var f := UlpShape(n / 2);
      e := f + 1;
    }
  }

  lemma {:induction false} Pow2Add(a: nat, b: nat)
    ensures Pow2(a + b) == Pow2(a) * Pow2(b)
  {
    if a > 0 { Pow2Add(a - 1, b); }
  }

  lemma {:induction false} MultipleOrder(a: nat, b: nat, u: nat)
    ensures a <= b ==> a * u <= b * u
    ensures a < b ==> a * u + u <= b * u
    decreases b
  {
    if a < b {
      MultipleOrder(a, b - 1, u);
      OneMore(b - 1, u);
    }
  }

  lemma OneMore(c: nat, u: nat)
    ensures (c + 1) * u == c * u + u
  {
  }

  lemma Division(n: nat, u: nat)
    requires u >= 1
    ensures n == n / u * u + n % u && n % u < u
  {
  }

  lemma NearerSide(n: nat, below: nat, r: nat, u: nat, y: nat, rounded: nat)
    requires n == below + r && r < u && (y <= below || y >= below + u)
    requires (rounded == below && 2 * r <= u) || (rounded == below + u && 2 * r >= u)
    ensures Distance(n, rounded) <= Distance(n, y) && 2 * Distance(n, rounded) <= u
  {
  }

  /** No multiple of u is nearer than the one chosen. */
  lemma NearestMultiple(n: nat, u: nat, y: nat)
    requires u >= 1
    ensures Distance(n, RoundTo(n, u)) <= Distance(n, y * u)
    ensures 2 * Distance(n, RoundTo(n, u)) <= u
  {
    Division(n, u);
    MultipleOrder(y, n / u, u);
    MultipleOrder(n / u, y, u);
    NearerSide(n, n / u * u, n % u, u, y * u, RoundTo(n, u));
  }

  /** Rounding yields a double, and no double is nearer. */
  lemma RoundedIsNearest(n: nat, m: nat, k: nat)
    requires m <= TWO_TO_53
    ensures exists m', k' :: IsDouble(RoundFinite(n), m', k')
    ensures Distance(n, RoundFinite(n)) <= Distance(n, m * Pow2(k))
  {
    var e := UlpShape(n);
    RoundedBy(n);
    var m' := RoundedMultiple(n, Ulp(n));
    assert IsDouble(RoundFinite(n), m', e);
    if k >= e { CoarserGrid(n, m, k, e, Ulp(n)); } else { FinerGrid(n, m, k, e, Ulp(n)); }
  }

  lemma {:induction false} FinerGrid(n: nat, m: nat, k: nat, e: nat, u: nat)
    requires k < e && u == Pow2(e) && n >= TWO_TO_52 * u && m <= TWO_TO_53
    ensures Distance(n, RoundTo(n, u)) <= Distance(n, m * Pow2(k))
  {
    SmallerUlp(m, k, e);
    BelowRange(n, u, m * Pow2(k));
  }

  lemma {:induction false} CoarserGrid(n: nat, m: nat, k: nat, e: nat, u: nat)
    requires k >= e && u == Pow2(e)
    ensures Distance(n, RoundTo(n, u)) <= Distance(n, m * Pow2(k))
  {
    Pow2Add(k - e, e);
    NearestProduct(n, u, m, Pow2(k - e), Pow2(k));
  }

  lemma NearestProduct(n: nat, u: nat, m: nat, a: nat, p: nat)
    requires u >= 1 && p == a * u
    ensures Distance(n, RoundTo(n, u)) <= Distance(n, m * p)
  {
    Associate(m, a, u);
    NearestMultiple(n, u, m * a);
  }

  lemma Associate(a: nat, b: nat, c: nat)
    ensures a * (b * c) == (a * b) * c
  {
  }

  lemma RoundedMultiple(n: nat, u: nat) returns (m: nat)
    requires u >= 1 && n < TWO_TO_53 * u
    ensures m <= TWO_TO_53 && RoundTo(n, u) == m * u
  {
    Division(n, u);
    MultipleOrder(TWO_TO_53, n / u, u);
    m := n / u;
    if RoundTo(n, u) != m * u {
      MultipleOrder(m, m + 1, u);
      m := m + 1;
      NextMultiple(n / u, u);
    }
  }

  lemma NextMultiple(q: nat, u: nat)
    ensures q * u + u == (q + 1) * u
  {
  }

  /** A number below the range with grid u is no nearer than the chosen multiple. */
  lemma BelowRange(n: nat, u: nat, x: nat)
    requires u >= 1 && x <= TWO_TO_52 * u <= n
    ensures Distance(n, RoundTo(n, u)) <= Distance(n, x)
  {
    NearestMultiple(n, u, TWO_TO_52);
  }

  lemma {:induction false} Pow2Grows(a: nat, b: nat)
    requires a <= b
    ensures Pow2(a) <= Pow2(b)
    decreases b
  {
    if a < b { Pow2Grows(a, b - 1); }
  }

  /** A double with a finer grid lies below the range in which the grid is 2^e. */
  lemma SmallerUlp(m: nat, k: nat, e: nat)
    requires m <= TWO_TO_53 && k < e
    ensures m * Pow2(k) <= TWO_TO_52 * Pow2(e)
  {
    MultipleOrder(m, TWO_TO_53, Pow2(k));
    assert Pow2(k + 1) == 2 * Pow2(k);
    Pow2Grows(k + 1, e);
  }

  /** A number a little above a multiple of its grid. */
  lemma RoundedDown(n: nat, q: nat, u: nat, r: nat)
    requires Ulp(n) == u && n == q * u + r && 2 * r < u
    ensures RoundFinite(n) == q * u
  {
    RoundedBy(n);
    QuotientOf(q, u, r);
  }

  lemma RoundUnit(n: nat)
    ensures RoundTo(n, 1) == n
  {
  }

  /** Half a unit in the last place: at most one part in 2^53. */
  lemma RoundError(n: nat)
    ensures TWO_TO_53 * Distance(n, RoundFinite(n)) <= n
  {
    var e := UlpShape(n);
    RoundedBy(n);
    if e == 0 { RoundUnit(n); } else { NearestMultiple(n, Ulp(n), 0); }
  }
}
