/**
 * The decay curve: what a challenge is worth once `n` visible accounts have solved it.
 *
 * `Price` is the curve over the unbounded integers. `SqlValue` is the expression the UPDATE evaluates,
 * with bigint overflow as the error Postgres raises. `GoValue` is the Go twin, where int64 wraps.
 */
module Decay {
  import opened Prelude

  datatype Function = Static | Linear | Logarithmic

  datatype Curve = Curve(kind: Function, initial: int, minimum: int, decay: int)

  const INT4 := 0x8000_0000
  const INT8 := 0x8000_0000_0000_0000

  function Min(a: int, b: int): int { if a <= b then a else b }

  predicate Fits4(x: int) { -INT4 <= x < INT4 }

  predicate Fits8(x: int) { -INT8 <= x < INT8 }

  // The three curve columns are int4.
  predicate Columns(c: Curve) {
    Fits4(c.initial) && Fits4(c.minimum) && Fits4(c.decay)
  }

  // The CHECK on a decaying challenge, and the Go Validate: one condition, written twice.
  predicate Valid(c: Curve) {
    && Columns(c)
    && c.initial >= 0
    && (c.kind != Static ==> c.decay >= 1 && c.initial >= c.minimum >= 0)
  }

  // Division that truncates toward zero, as in both languages.
  function Quot(a: int, b: int): int
    requires b != 0
  {
    if a >= 0 then a / b else -((-a) / b)
  }

  // Solves beyond the first.
  function Beyond(n: int): int { Max(n - 1, 0) }

  // The product the logarithmic branch divides, with the solves beyond the first clamped at `decay`.
  function Product(c: Curve, n: int): int {
    var m := Min(Beyond(n), c.decay);
    (c.initial - c.minimum) * m * m
  }

  // ── the curve ───────────────────────────────────────────────────────────────

  function Price(c: Curve, n: int): int {
    match c.kind
    case Static => c.initial
    case Linear => Max(c.minimum, c.initial - c.decay * Beyond(n))
    case Logarithmic =>
      if c.decay <= 0 || Beyond(n) >= c.decay then c.minimum
      else Max(c.minimum, c.initial - Quot(Product(c, n), c.decay * c.decay))
  }

  // ── the two implementations ─────────────────────────────────────────────────

  // Every intermediate the UPDATE computes stays in its column type; otherwise Postgres raises.
  predicate SqlFits(c: Curve, n: int) {
    match c.kind
    case Static => true
    case Linear => Fits8(c.decay * Beyond(n)) && Fits8(c.initial - c.decay * Beyond(n))
    case Logarithmic =>
      var m, d := Min(Beyond(n), c.decay), c.initial - c.minimum;
      && Fits4(d) && Fits8(d * m) && Fits8(d * m * m) && Fits8(c.decay * c.decay)
      && (c.decay != 0 ==> Fits8(c.initial - Quot(d * m * m, c.decay * c.decay)))
  }

  // NULLIF makes the quotient NULL at decay 0, and GREATEST ignores a NULL argument.
  function SqlGreatest(minimum: int, v: Option<int>): int {
    match v
    case None => minimum
    case Some(x) => Max(minimum, x)
  }

  // What RecalcChallengeValue stores for a decaying challenge, or None for the error it raises.
  function SqlValue(c: Curve, n: int): Option<int>
    requires c.kind != Static
  {
    if !SqlFits(c, n) then None
    else
      var v :=
        if c.kind == Linear then Some(c.initial - c.decay * Beyond(n))
        else if c.decay == 0 then None
        else Some(c.initial - Quot(Product(c, n), c.decay * c.decay));
      var r := SqlGreatest(c.minimum, v);
      if Fits4(r) then Some(r) else None
  }

  // Two's complement.
  function Wrap(x: int): int {
    (x + INT8) % (2 * INT8) - INT8
  }

  function GoValue(c: Curve, n: int): int {
    if c.kind == Static then c.initial
    else if c.kind == Linear then
      var v := Wrap(c.initial - Wrap(c.decay * Max(Wrap(n - 1), 0)));
      if v < c.minimum then c.minimum else v
    else
      var m := Max(Wrap(n - 1), 0);
      if c.decay <= 0 || m >= c.decay then c.minimum
      else if Wrap(c.decay * c.decay) == 0 then c.minimum // a division by zero; never taken by an int4 decay
      else
        var drop := Quot(Wrap(Wrap(Wrap(c.initial - c.minimum) * m) * m), Wrap(c.decay * c.decay));
        var v := Wrap(c.initial - drop);
        if v < c.minimum then c.minimum else v
  }

  // ── arithmetic ──────────────────────────────────────────────────────────────

  lemma WrapsNothing(x: int)
    requires Fits8(x)
    ensures Wrap(x) == x
  {
  }

  lemma Monotone(a: int, b: int, k: int)
    requires a <= b && k >= 0
    ensures a * k <= b * k && k * a <= k * b
  {
  }

  // D*m*m <= D*n*n when 0 <= m <= n.
  lemma SquareMonotone(d: int, m: int, n: int)
    requires d >= 0 && 0 <= m <= n
    ensures 0 <= d * m * m <= d * n * n
  {
    Monotone(m, n, d);
    Monotone(m, n, d * m);
    Monotone(d * m, d * n, n);
    Monotone(0, d * m, m);
  }

  lemma QuotMonotone(a: int, b: int, k: int)
    requires 0 <= a <= b && k > 0
    ensures 0 <= a / k <= b / k
  {
    if a / k > b / k {
      Monotone(b / k + 1, a / k, k);
    }
  }

  lemma SmallSquare(x: int)
    requires Fits4(x)
    ensures 0 <= x * x <= INT4 * INT4
    ensures Fits8(x * x)
  {
    var y := if x < 0 then -x else x;
    Monotone(0, y, y);
    Monotone(y, INT4, y);
    Monotone(y, INT4, INT4);
    assert y * y == x * x;
  }

  // Exact division, whatever the sign of D.
  lemma QuotExact(d: int, k: int)
    requires k > 0
    ensures Quot(d * k, k) == d
  {
    if d >= 0 {
      Monotone(0, d, k);
      DivideExact(d, k);
    } else {
      DivideExact(-d, k);
      assert -(d * k) == (-d) * k;
      Monotone(d, -1, k);
    }
  }

  lemma DivideExact(d: int, k: int)
    requires d >= 0 && k > 0
    ensures (d * k) / k == d
  {
    var q := (d * k) / k;
    if q > d { Monotone(d + 1, q, k); }
    if q < d { Monotone(q + 1, d, k); }
  }

  // ── both implementations compute the curve ──────────────────────────────────

  lemma DropIsWhole(c: Curve, n: int)
    requires c.kind == Logarithmic && c.decay != 0 && (c.decay < 0 || Beyond(n) >= c.decay)
    ensures c.initial - Quot(Product(c, n), c.decay * c.decay) == c.minimum
  {
    var d, k := c.initial - c.minimum, c.decay;
    assert Min(Beyond(n), k) == k;
    assert d * k * k == d * (k * k);
    assert k * k > 0;
    QuotExact(d, k * k);
  }

  /** Whenever the UPDATE does not raise, it stores the curve's price. */
  lemma SqlIsThePrice(c: Curve, n: int)
    requires c.kind != Static && SqlValue(c, n).Some?
    ensures SqlValue(c, n) == Some(Price(c, n))
  {
    if c.kind == Logarithmic && c.decay != 0 && (c.decay < 0 || Beyond(n) >= c.decay) {
      DropIsWhole(c, n);
    }
  }

  /** On a valid curve the UPDATE raises exactly when its one large product leaves int64. */
  lemma SqlRaisesIff(c: Curve, n: int)
    requires Valid(c) && c.kind != Static
    ensures SqlValue(c, n) == None
       <==> (if c.kind == Linear then c.decay * Beyond(n) >= INT8 else Product(c, n) >= INT8)
  {
    if c.kind == Linear {
      Monotone(0, Beyond(n), c.decay);
    } else {
      LogFitsIff(c, n);
      DropAtMostD(c, n);
    }
  }

  lemma LogFitsIff(c: Curve, n: int)
    requires Valid(c) && c.kind == Logarithmic
    ensures SqlFits(c, n) <==> Product(c, n) < INT8
  {
    var m, d := Min(Beyond(n), c.decay), c.initial - c.minimum;
    SmallSquare(c.decay);
    SmallProduct(d, m);
    DropBounds(d, m, c.decay);
  }

  // The drop is D at the knee and past it, and never more.
  lemma DropAtMostD(c: Curve, n: int)
    requires Valid(c) && c.kind == Logarithmic
    ensures 0 <= Quot(Product(c, n), c.decay * c.decay) <= c.initial - c.minimum
    ensures c.initial > c.minimum && Beyond(n) < c.decay ==>
              Quot(Product(c, n), c.decay * c.decay) < c.initial - c.minimum
  {
    DropBounds(c.initial - c.minimum, Min(Beyond(n), c.decay), c.decay);
  }

  lemma DropBounds(d: int, m: int, k: int)
    requires d >= 0 && 0 <= m <= k && k >= 1
    ensures k * k >= 1 && d * m * m >= 0
    ensures 0 <= (d * m * m) / (k * k) <= d
    ensures d > 0 && m < k ==> (d * m * m) / (k * k) < d
    ensures (d * m * m) / (k * k) <= d * m * m
  {
    Monotone(1, k, k);
    SquareMonotone(d, m, k);
    assert d * k * k == d * (k * k);
    var p, kk := d * m * m, k * k;
    QuotMonotone(p, d * kk, kk);
    DivideExact(d, kk);
    Monotone(1, kk, p / kk);
    if d > 0 && m < k { StrictlyLess(d, m, k); }
  }

  lemma StrictlyLess(d: int, m: int, k: int)
    requires d > 0 && 0 <= m < k
    ensures k * k >= 1 && d * m * m >= 0
    ensures (d * m * m) / (k * k) < d
  {
    Monotone(1, k, k);
    SquareMonotone(d, m, m);
    Monotone(m, k, d * m);
    Monotone(m + 1, k, d);
    Monotone(d * m + d, d * k, k);
    Below(d * m, d, k);
    BelowQuot(d * m * m, d, k * k);
  }

  lemma Below(x: int, d: int, k: int)
    requires d > 0 && k >= 1 && (x + d) * k <= d * k * k
    ensures x * k < d * (k * k)
  {
    assert (x + d) * k == x * k + d * k;
    Monotone(1, k, d);
    assert d * k * k == d * (k * k);
  }

  lemma BelowQuot(p: int, d: int, k: int)
    requires 0 <= p < d * k && k >= 1
    ensures p / k < d
  {
    if p / k >= d { Monotone(d, p / k, k); }
  }

  lemma PriceInBounds(c: Curve, n: int)
    requires Valid(c) && c.kind != Static
    ensures c.minimum <= Price(c, n) <= c.initial
  {
    if c.kind == Linear {
      Monotone(0, Beyond(n), c.decay);
    } else {
      DropAtMostD(c, n);
    }
  }

  /** The price never rises as solves come in. */
  lemma PriceFalls(c: Curve, n: int, n': int)
    requires Valid(c) && n <= n'
    ensures Price(c, n) >= Price(c, n')
  {
    if c.kind == Linear {
      Monotone(Beyond(n), Beyond(n'), c.decay);
    } else if c.kind == Logarithmic {
      PriceInBounds(c, n);
      if Beyond(n') < c.decay {
        SquareMonotone(c.initial - c.minimum, Beyond(n), Beyond(n'));
        Monotone(1, c.decay, c.decay);
        QuotMonotone(Product(c, n), Product(c, n'), c.decay * c.decay);
      }
    }
  }

  /** The first solver pays full price, and so does a challenge nobody has solved. */
  lemma FirstSolverPaysInitial(c: Curve)
    requires Valid(c)
    ensures Price(c, 0) == c.initial && Price(c, 1) == c.initial
  {
    if c.kind == Logarithmic {
      assert Product(c, 0) == 0 && Product(c, 1) == 0;
      SmallSquare(c.decay);
      assert c.decay * c.decay > 0;
    }
  }

  /** The logarithmic curve reaches its floor at exactly `decay` solves beyond the first. */
  lemma FloorExactlyAtDecay(c: Curve, n: int)
    requires Valid(c) && c.kind == Logarithmic && c.initial > c.minimum
    ensures Price(c, n) == c.minimum <==> n - 1 >= c.decay
  {
    DropAtMostD(c, n);
  }

  /** So the outer GREATEST never acts on it: the drop alone keeps it at or above the floor. */
  lemma GreatestIsRedundant(c: Curve, n: int)
    requires Valid(c) && c.kind == Logarithmic
    ensures Price(c, n) == c.initial - Quot(Product(c, n), c.decay * c.decay)
  {
    DropAtMostD(c, n);
    if Beyond(n) >= c.decay { DropIsWhole(c, n); }
  }

  /** The parabola, rounded up: the price is the least integer not below it. */
  lemma CeilingOfTheParabola(c: Curve, n: int)
    requires Valid(c) && c.kind == Logarithmic && Beyond(n) <= c.decay
    ensures var k, v := c.decay * c.decay, Price(c, n);
            var exact := c.initial * k - (c.initial - c.minimum) * Beyond(n) * Beyond(n);
            (v - 1) * k < exact <= v * k
  {
    GreatestIsRedundant(c, n);
    SquareMonotone(c.initial - c.minimum, Beyond(n), Beyond(n));
    Monotone(1, c.decay, c.decay);
    Ceiling(c.initial, Product(c, n), c.decay * c.decay);
  }

  lemma Ceiling(initial: int, p: int, k: int)
    requires p >= 0 && k >= 1
    ensures (initial - p / k - 1) * k < initial * k - p <= (initial - p / k) * k
  {
    var q := p / k;
    assert p == q * k + p % k;
    assert (initial - q) * k == initial * k - q * k;
    assert (initial - q - 1) * k == initial * k - q * k - k;
  }

  /** The product's maximum over all counts, so this bound decides whether the UPDATE can ever raise. */
  lemma LogNeverRaisesIff(c: Curve)
    requires Valid(c) && c.kind == Logarithmic
    ensures (forall n :: SqlValue(c, n).Some?) <==> (c.initial - c.minimum) * c.decay * c.decay < INT8
  {
    var most := (c.initial - c.minimum) * c.decay * c.decay;
    forall n | most < INT8 ensures SqlValue(c, n).Some? {
      SqlRaisesIff(c, n);
      SquareMonotone(c.initial - c.minimum, Min(Beyond(n), c.decay), c.decay);
    }
    SqlRaisesIff(c, c.decay + 1);
    assert Product(c, c.decay + 1) == most;
  }

  // ── the Go twin ─────────────────────────────────────────────────────────────

  /** Below the knee Go computes the same product, so it is right exactly when that fits int64. */
  lemma GoIsThePriceIff(c: Curve, n: int)
    requires Valid(c) && c.kind == Logarithmic && 0 <= n < INT8
    ensures GoValue(c, n) == Price(c, n) <==> (Beyond(n) >= c.decay || Product(c, n) < INT8)
  {
    var d, m, k := c.initial - c.minimum, Beyond(n), c.decay * c.decay;
    WrapsNothing(n - 1);
    SmallSquare(c.decay);
    Monotone(1, c.decay, c.decay);
    if m < c.decay {
      WrapsNothing(d);
      WrapsNothing(k);
      SmallProduct(d, m);
      WrapsNothing(d * m);
      assert Wrap(Wrap(Wrap(d) * m) * m) == Wrap(d * m * m);
      SquareMonotone(d, m, m);
      DropAtMostD(c, n);
      if Product(c, n) < INT8 {
        WrapsNothing(d * m * m);
        WrapsNothing(c.initial - Quot(d * m * m, k));
      } else {
        assert m >= 1;
        Monotone(2, c.decay, 2);
        Monotone(2, c.decay, c.decay);
        WrappedDropIsSmaller(d * m * m, k);
        WrapsNothing(c.initial - Quot(Wrap(d * m * m), k));
      }
    }
  }

  // An overflowing product wraps to a strictly smaller quotient: the wrap loses 2^64, k is at most 2^62.
  lemma WrappedDropIsSmaller(p: int, k: int)
    requires p >= INT8 && 4 <= k <= INT4 * INT4
    ensures -INT4 * INT4 <= Quot(Wrap(p), k) < Quot(p, k)
  {
    var w := Wrap(p);
    assert w <= p - 2 * INT8;
    QuotMonotone(INT8, p, k);
    assert INT8 / k >= 2 by { if INT8 / k < 2 { Monotone(INT8 / k + 1, 2, k); } }
    if w >= 0 {
      QuotMonotone(w + k, p, k);
      assert (w + k) / k == w / k + 1 by {
        var q := w / k;
        assert (q + 1) * k == q * k + k;
        QuotIs(w + k, k, q + 1);
      }
    } else {
      QuotMonotone(-w, INT8, k);
      QuotMonotone(0, -w, k);
      Monotone(4, k, INT8 / k);
      assert INT8 / k <= INT8 / 4;
    }
  }

  lemma QuotIs(a: int, k: int, q: int)
    requires a >= 0 && k > 0 && q * k <= a < q * k + k
    ensures a / k == q
  {
    var r := a / k;
    if r > q { Monotone(q + 1, r, k); }
    if r < q { Monotone(r + 1, q, k); }
  }

  lemma SmallProduct(d: int, m: int)
    requires 0 <= d < INT4 && 0 <= m < INT4
    ensures 0 <= d * m < INT4 * INT4
  {
    Monotone(0, d, m);
    Monotone(d, INT4, m);
    Monotone(m, INT4 - 1, INT4);
  }

  // A wrapped subtraction of a wrapped decrement, for a decrement of any size: it lands in one of two ranges.
  lemma WrappedLinear(initial: int, x: int)
    requires 0 <= initial < INT4 && x >= 0
    ensures var w := x % (2 * INT8);
            Wrap(initial - Wrap(x)) == if w <= INT8 + initial then initial - w else initial - w + 2 * INT8
  {
    var w := x % (2 * INT8);
    var q := x / (2 * INT8);
    assert x == q * (2 * INT8) + w;
    if w < INT8 {
      Decompose(x + INT8, q, w + INT8);
    } else {
      Decompose(x + INT8, q + 1, w - INT8);
    }
  }

  lemma Decompose(x: int, q: int, r: int)
    requires x == q * (2 * INT8) + r && 0 <= r < 2 * INT8
    ensures x % (2 * INT8) == r
  {
  }

  // A decrement that fits int64, or wraps to where it still takes the value to the floor.
  predicate LinearSurvives(c: Curve, drop: int) {
    drop < INT8 || c.initial - c.minimum <= drop % (2 * INT8) <= INT8 + c.initial
  }

  /**
   * The linear value in Go is right exactly when the decrement fits int64, or wraps to where it still takes
   * the value to the floor.
   */
  lemma GoLinearIsThePrice(c: Curve, n: int)
    requires Valid(c) && c.kind == Linear && 0 <= n < INT8
    ensures GoValue(c, n) == Price(c, n) <==> LinearSurvives(c, c.decay * Beyond(n))
  {
    WrapsNothing(n - 1);
    Monotone(0, Beyond(n), c.decay);
    LinearAt(c, c.decay * Beyond(n));
  }

  lemma LinearAt(c: Curve, x: int)
    requires Valid(c) && c.kind == Linear && x >= 0
    ensures Max(c.minimum, Wrap(c.initial - Wrap(x))) == Max(c.minimum, c.initial - x) <==> LinearSurvives(c, x)
  {
    WrappedLinear(c.initial, x);
    if x < INT8 { Decompose(x, 0, x); }
  }

  /** A linear price falls with the next solve exactly after the first one and above the floor. */
  lemma LinearFallsIff(c: Curve, n: nat)
    requires Valid(c) && c.kind == Linear
    ensures Price(c, n + 1) < Price(c, n) <==> n >= 1 && Price(c, n) > c.minimum
  {
    if n >= 1 { assert c.decay * Beyond(n + 1) == c.decay * Beyond(n) + c.decay; }
  }

  // Adding to a dividend raises the quotient exactly when the remainder overflows with it.
  lemma QuotientRises(p: int, q: int, k: int)
    requires p >= 0 && q >= 0 && k >= 1
    ensures (p + q) / k > p / k <==> p % k + q >= k
  {
    var a, b := p / k, (p + q) / k;
    assert p == a * k + p % k && p + q == b * k + (p + q) % k;
    if p % k + q < k { QuotIs(p + q, k, a); } else if b <= a { Monotone(b, a, k); }
  }

  // The next solve takes the remainder of the drop past the divisor.
  predicate DropRises(c: Curve, n: nat) {
    && 1 <= n <= c.decay && c.decay * c.decay > 0
    && Product(c, n) % (c.decay * c.decay) + (c.initial - c.minimum) * (2 * n - 1) >= c.decay * c.decay
  }

  lemma NextProduct(c: Curve, n: nat)
    requires Valid(c) && c.kind == Logarithmic && 1 <= n <= c.decay
    ensures Product(c, n) >= 0 && (c.initial - c.minimum) * (2 * n - 1) >= 0
    ensures Product(c, n + 1) == Product(c, n) + (c.initial - c.minimum) * (2 * n - 1)
  {
    var d, m := c.initial - c.minimum, n - 1;
    SquareMonotone(d, 0, m);
    Monotone(0, d, 2 * n - 1);
    assert d * (m + 1) * (m + 1) == d * m * m + d * (2 * m + 1);
  }

  /**
   * A logarithmic price falls with the next solve exactly while the floor is not reached and the parabola's
   * step overflows the remainder; it is enough that the step alone is as wide as the divisor.
   */
  lemma LogFallsIff(c: Curve, n: nat)
    requires Valid(c) && c.kind == Logarithmic
    ensures Price(c, n + 1) < Price(c, n) <==> DropRises(c, n)
    ensures 1 <= n <= c.decay && (c.initial - c.minimum) * (2 * n - 1) >= c.decay * c.decay ==> Price(c, n + 1) < Price(c, n)
  {
    var k := c.decay * c.decay;
    Monotone(1, c.decay, c.decay);
    GreatestIsRedundant(c, n);
    GreatestIsRedundant(c, n + 1);
    if 1 <= n <= c.decay {
      NextProduct(c, n);
      QuotientRises(Product(c, n), (c.initial - c.minimum) * (2 * n - 1), k);
    }
  }

  /**
   * The two engines agree wherever Postgres stores anything: also for a zero or negative decay an
   * imported row might carry, and for a minimum above the initial value.
   */
  lemma SqlAndGoAgree(c: Curve, n: int)
    requires Columns(c) && c.kind != Static && 0 <= n < INT8 && SqlValue(c, n).Some?
    ensures SqlValue(c, n) == Some(GoValue(c, n))
  {
    WrapsNothing(n - 1);
    SqlIsThePrice(c, n);
    if c.kind == Linear {
      var x := c.decay * Beyond(n);
      WrapsNothing(x);
      WrapsNothing(c.initial - x);
    } else if c.decay > 0 && Beyond(n) < c.decay {
      AgreeBelowTheKnee(c, n);
    }
  }

  lemma AgreeBelowTheKnee(c: Curve, n: int)
    requires Columns(c) && c.kind == Logarithmic && 0 <= n < INT8 && SqlFits(c, n)
    requires c.decay > 0 && Beyond(n) < c.decay
    ensures GoValue(c, n) == Price(c, n)
  {
    var d, m, k := c.initial - c.minimum, Beyond(n), c.decay * c.decay;
    WrapsNothing(n - 1);
    WrapsNothing(d);
    WrapsNothing(d * m);
    WrapsNothing(d * m * m);
    WrapsNothing(k);
    Monotone(1, c.decay, c.decay);
    WrapsNothing(c.initial - Quot(d * m * m, k));
  }

  /**
   * The Go comment says no curve Validate admits can overflow. This one does: the shown price lands
   * above the initial value, and the UPDATE raises on the same count.
   */
  lemma ValidCurveOverflows()
    ensures var c, n := Curve(Logarithmic, 1_000_000, 0, 4_000_000), 4_000_000;
            && Valid(c)
            && Price(c, n) == 1
            && GoValue(c, n) == 1_152_922
            && SqlValue(c, n) == None
  {
    var c, n := Curve(Logarithmic, 1_000_000, 0, 4_000_000), 4_000_000;
    WrapsNothing(3_999_999);
    WrapsNothing(1_000_000);
    WrapsNothing(3_999_999_000_000);
    WrapsNothing(16_000_000_000_000);
    WrapsNothing(1_152_922);
    assert Product(c, n) == 15_999_992_000_001_000_000 by {
      assert 1_000_000 * 3_999_999 == 3_999_999_000_000;
    }
    OverflowingDrop();
    SqlRaisesIff(c, n);
  }

  lemma OverflowingDrop()
    ensures Wrap(15_999_992_000_001_000_000) == -2_446_752_073_708_551_616
    ensures Quot(-2_446_752_073_708_551_616, 16_000_000_000_000) == -152_922
    ensures Quot(15_999_992_000_001_000_000, 16_000_000_000_000) == 999_999
  {
  }
}
