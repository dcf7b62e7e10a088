/** Output sizes that keep the project's aspect ratio to the pixel. */
module AspectSize {

  import opened Options

  // ---------------------------------------------------------------- the computation

  function Gcd(a: nat, b: nat): nat
    decreases b
  {
    if b == 0 then a else Gcd(b, a % b)
  }

  const DEFAULT_ASPECT := (9, 16)

  /** `parse_aspect_ratio` once both terms are numbers. */
  function Reduced(a: int, b: int): (int, int) {
    if a <= 0 || b <= 0 then DEFAULT_ASPECT
    else
      GcdPositive(a, b);
      (a / Gcd(a, b), b / Gcd(a, b))
  }

  /** Rounding to the nearest integer, a half to the even one. */
  function Rounded(n: int, d: int): int
    requires d > 0
  {
    var q, r := n / d, n % d;
    if 2 * r < d || (2 * r == d && q % 2 == 0) then q else q + 1
  }

  /** The integer square root. */
  function Isqrt(n: nat): (r: nat)
    ensures r * r <= n < (r + 1) * (r + 1)
  {
    if n == 0 then 0
    else
      var s := Isqrt(n - 1);
      if (s + 1) * (s + 1) <= n then s + 1 else s
  }

  function Min(a: int, b: int): int {
    if a < b then a else b
  }

  function Max(a: int, b: int): int {
    if a > b then a else b
  }

  /** The number of units of the size: nearest to the target, then clamped by the caps, never zero. */
  function Units(a: int, b: int, short: int, step: int, maxLong: Option<nat>, maxPixels: Option<nat>): int
    requires a > 0 && b > 0 && step > 0
  {
    Positive(step, Min(a, b));
    Positive(step, Max(a, b));
    Positive(a * b, step * step);
    Positive(a, b);
    Positive(step, step);
    var t0 := Max(1, Rounded(short, step * Min(a, b)));
    var t1 := if maxLong.None? then t0 else Min(t0, Max(1, maxLong.value / (step * Max(a, b))));
    var t2 := if maxPixels.None? then t1 else Min(t1, Max(1, Isqrt(maxPixels.value / (a * b * (step * step)))));
    Max(1, t2)
  }

  function Size(a: int, b: int, short: int, step: int, maxLong: Option<nat>, maxPixels: Option<nat>): (int, int)
    requires step > 0
  {
    var r := Reduced(a, b);
    ReducedPositive(a, b);
    var t := Units(r.0, r.1, short, step, maxLong, maxPixels);
    (r.0 * step * t, r.1 * step * t)
  }

  lemma Positive(x: int, y: int)
    requires x > 0 && y > 0
    ensures x * y > 0
  {
  }

  // ---------------------------------------------------------------- reduced ratios

  lemma {:induction false} GcdPositive(a: nat, b: nat)
    requires a > 0
    ensures Gcd(a, b) > 0
    decreases b
  {
    if b > 0 {
      GcdPositive(b, a % b);
    }
  }

  /** The coefficients of Bezout's identity. */
  function Bezout(a: nat, b: nat): (int, int)
    decreases b
  {
    if b == 0 then (1, 0)
    else
      var c := Bezout(b, a % b);
      (c.1, c.0 - a / b * c.1)
  }

  lemma {:induction false} BezoutHolds(a: nat, b: nat)
    ensures a * Bezout(a, b).0 + b * Bezout(a, b).1 == Gcd(a, b)
    decreases b
  {
    if b > 0 {
      BezoutHolds(b, a % b);
      var c := Bezout(b, a % b);
      Division(a, b);
      BezoutBack(a, b, a / b, a % b, c.0, c.1);
    }
  }

  lemma Division(a: int, b: int)
    requires b > 0
    ensures a == b * (a / b) + a % b
  {
  }

  lemma BezoutBack(a: int, b: int, q: int, m: int, x: int, y: int)
    requires a == b * q + m
    ensures a * y + b * (x - q * y) == b * x + m * y
  {
    DistributeLeft(b * q, m, y);
    DistributeRight(b, x, q * y);
    Associate(b, q, y);
  }

  lemma DistributeLeft(x: int, y: int, z: int)
    ensures (x + y) * z == x * z + y * z
  {
  }

  lemma DistributeRight(x: int, y: int, z: int)
    ensures x * (y - z) == x * y - x * z
  {
  }

  lemma Associate(x: int, y: int, z: int)
    ensures x * y * z == x * (y * z)
  {
  }

  /** Both numbers are multiples of their greatest common divisor. */
  lemma {:induction false} GcdDivides(a: nat, b: nat) returns (p: nat, q: nat)
    requires a > 0
    ensures Gcd(a, b) > 0 && a == Gcd(a, b) * p && b == Gcd(a, b) * q
    decreases b
  {
    GcdPositive(a, b);
    if b == 0 {
      p, q := 1, 0;
    } else {
      var p', q' := GcdDivides(b, a % b);
      p, q := p' * (a / b) + q', p';
      GcdBack(Gcd(a, b), a, b, p', q');
    }
  }

  lemma GcdBack(g: int, a: nat, b: nat, p: nat, q: nat)
    requires b > 0 && b == g * p && a % b == g * q
    ensures p * (a / b) + q >= 0 && a == g * (p * (a / b) + q)
  {
    assert a == b * (a / b) + a % b;
    assert g * p * (a / b) == g * (p * (a / b));
  }

  /** A ratio as its greatest common factor times two coprime terms. */
  lemma ReducedTerms(a: int, b: int) returns (g: int, p: int, q: int)
    requires a > 0 && b > 0
    ensures g > 0 && p > 0 && q > 0 && a == g * p && b == g * q && g == Gcd(a, b) && Reduced(a, b) == (p, q)
  {
    g := Gcd(a, b);
    p, q := GcdDivides(a, b);
    Divided(g, p);
    Divided(g, q);
    NotPositive(g, p);
    NotPositive(g, q);
  }

  /** The reduced terms: positive, without a common factor, and in the ratio asked for. */
  lemma ReducedIs(a: int, b: int)
    requires a > 0 && b > 0
    ensures var r := Reduced(a, b);
            r.0 > 0 && r.1 > 0 && r.0 * b == r.1 * a && exists x: int, y: int :: r.0 * x + r.1 * y == 1
  {
    hide Reduced, Gcd, Bezout;
    var g, p, q := ReducedTerms(a, b);
    BezoutHolds(a, b);
    var c := Bezout(a, b);
    Swap(p, g, q);
    CoprimeTerms(g, p, q, c.0, c.1);
  }

  lemma Swap(p: int, g: int, q: int)
    ensures p * (g * q) == q * (g * p)
  {
  }

  lemma CoprimeTerms(g: int, p: int, q: int, x: int, y: int)
    requires g > 0 && g * p * x + g * q * y == g
    ensures p * x + q * y == 1
  {
    assert g * p * x == g * (p * x) && g * q * y == g * (q * y);
    assert g * (p * x) + g * (q * y) == g * (p * x + q * y);
    Cancel(g, p * x + q * y, 1);
  }

  lemma Divided(g: int, p: int)
    requires g > 0
    ensures g * p / g == p
  {
    QuotientIs(g * p, g, p, 0);
  }

  lemma Cancel(g: int, x: int, y: int)
    requires g > 0 && g * x == g * y
    ensures x == y
  {
  }

  lemma ReducedPositive(a: int, b: int)
    ensures Reduced(a, b).0 > 0 && Reduced(a, b).1 > 0
  {
    if a > 0 && b > 0 {
      ReducedIs(a, b);
    }
  }

  lemma {:induction false} GcdScales(k: nat, a: nat, b: nat)
    requires k > 0
    ensures Gcd(k * a, k * b) == k * Gcd(a, b)
    decreases b
  {
    if b == 0 {
      assert k * b == 0;
    } else {
      Positive(k, b);
      ModScales(k, a, b);
      GcdScales(k, b, a % b);
    }
  }

  lemma ModScales(k: nat, a: nat, b: nat)
    requires k > 0 && b > 0 && k * b > 0
    ensures k * a % (k * b) == k * (a % b)
  {
    var q, m := a / b, a % b;
    assert k * a == k * b * q + k * m by {
      assert a == b * q + m;
      assert k * (b * q) == k * b * q;
    }
    assert k * m < k * b;
    QuotientIs(k * a, k * b, q, k * m);
  }

  lemma QuotientIs(n: int, d: int, q: int, r: int)
    requires d > 0 && n == d * q + r && 0 <= r < d
    ensures n / d == q && n % d == r
  {
    var e := n / d - q;
    assert n == d * (n / d) + n % d;
    assert d * (n / d) - d * q == d * e;
    Steps(d, e);
  }

  lemma Steps(d: int, e: int)
    requires d > 0
    ensures e >= 1 ==> d * e >= d
    ensures e <= -1 ==> d * e <= -d
  {
  }

  /** Scaling both terms of a ratio changes nothing. */
  lemma ScaleInvariant(k: int, a: int, b: int, short: int, step: int, maxLong: Option<nat>, maxPixels: Option<nat>)
    requires k > 0 && step > 0
    ensures Size(k * a, k * b, short, step, maxLong, maxPixels) == Size(a, b, short, step, maxLong, maxPixels)
  {
    hide Gcd, Units;
    if a > 0 && b > 0 {
      ReducedScales(k, a, b);
    } else {
      NotPositive(k, a);
      NotPositive(k, b);
    }
  }

  lemma ReducedScales(k: int, a: int, b: int)
    requires k > 0 && a > 0 && b > 0
    ensures k * a > 0 && k * b > 0 && Reduced(k * a, k * b) == Reduced(a, b)
  {
    hide Gcd;
    var g, p, q := ReducedTerms(a, b);
    Positive(k, a);
    Positive(k, b);
    Positive(k, g);
    GcdScales(k, a, b);
    Regroup(k, g, p);
    Regroup(k, g, q);
    Divided(k * g, p);
    Divided(k * g, q);
  }

  lemma Regroup(k: int, g: int, p: int)
    ensures k * (g * p) == k * g * p
  {
  }

  lemma NotPositive(k: int, a: int)
    requires k > 0
    ensures k * a <= 0 <==> a <= 0
  {
  }

  // ---------------------------------------------------------------- legal sizes

  /** A size that has exactly the ratio and both sides divisible by `step`. */
  predicate Legal(a: int, b: int, step: int, size: (int, int))
    requires step > 0
  {
    size.0 > 0 && size.1 > 0 && size.0 * b == size.1 * a && size.0 % step == 0 && size.1 % step == 0
  }

  predicate Fits(size: (int, int), maxLong: Option<nat>, maxPixels: Option<nat>) {
    FitsLong(size, maxLong) && FitsPixels(size, maxPixels)
  }

  predicate FitsLong(size: (int, int), maxLong: Option<nat>) {
    maxLong.Some? ==> Max(size.0, size.1) <= maxLong.value
  }

  predicate FitsPixels(size: (int, int), maxPixels: Option<nat>) {
    maxPixels.Some? ==> size.0 * size.1 <= maxPixels.value
  }

  function SizeAt(a: int, b: int, step: int, t: int): (int, int) {
    (a * step * t, b * step * t)
  }

  /** The legal sizes are exactly the whole multiples of the smallest one. */
  lemma LegalSizesAre(a: int, b: int, step: int, size: (int, int))
    requires a > 0 && b > 0 && step > 0
    ensures var r := Reduced(a, b);
            Legal(a, b, step, size) <==> exists t :: t >= 1 && size == SizeAt(r.0, r.1, step, t)
  {
    hide Reduced, Legal, SizeAt;
    var r := Reduced(a, b);
    if Legal(a, b, step, size) {
      var t := LegalIsMultiple(a, b, step, size);
      assert t >= 1 && size == SizeAt(r.0, r.1, step, t);
    }
    if t :| t >= 1 && size == SizeAt(r.0, r.1, step, t) {
      MultipleIsLegal(a, b, step, t);
    }
  }

  lemma LegalIsMultiple(a: int, b: int, step: int, size: (int, int)) returns (t: int)
    requires a > 0 && b > 0 && step > 0 && Legal(a, b, step, size)
    ensures t >= 1 && size == SizeAt(Reduced(a, b).0, Reduced(a, b).1, step, t)
  {
    hide Reduced;
    var g, p, q := ReducedTerms(a, b);
    var x, y := Coefficients(a, b);
    var m, n := size.0 / step, size.1 / step;
    Exact(size.0, step);
    Exact(size.1, step);
    t := m * x + n * y;
    ReducedMultiple(g, p, q, step, size.0, size.1, m, n, x, y);
  }

  lemma Exact(w: int, step: int)
    requires step > 0 && w % step == 0
    ensures w == step * (w / step)
  {
  }

  lemma ReducedMultiple(g: int, p: int, q: int, step: int, w: int, h: int, m: int, n: int, x: int, y: int)
    requires g > 0 && p > 0 && step > 0 && p * x + q * y == 1
    requires w > 0 && w == step * m && h == step * n && w * (g * q) == h * (g * p)
    ensures var t := m * x + n * y;
            t >= 1 && w == p * step * t && h == q * step * t
  {
    var t := m * x + n * y;
    CancelRatio(w, h, g, p, q);
    CancelStep(step, m, n, p, q);
    Recombine(m, n, p, q, x, y);
    Recombine(n, m, q, p, y, x);
    NotPositive(step, m);
    NotPositive(p, t);
    AsMultiple(p, step, t, m);
    AsMultiple(q, step, t, n);
  }

  lemma Coefficients(a: int, b: int) returns (x: int, y: int)
    requires a > 0 && b > 0
    ensures Reduced(a, b).0 * x + Reduced(a, b).1 * y == 1
  {
    ReducedIs(a, b);
    x, y :| Reduced(a, b).0 * x + Reduced(a, b).1 * y == 1;
  }

  lemma CancelRatio(w: int, h: int, g: int, p: int, q: int)
    requires g > 0 && w * (g * q) == h * (g * p)
    ensures w * q == h * p
  {
    assert w * (g * q) == g * (w * q) && h * (g * p) == g * (h * p);
    Cancel(g, w * q, h * p);
  }

  lemma CancelStep(step: int, m: int, n: int, p: int, q: int)
    requires step > 0 && step * m * q == step * n * p
    ensures m * q == n * p
  {
    assert step * m * q == step * (m * q) && step * n * p == step * (n * p);
    Cancel(step, m * q, n * p);
  }

  lemma Recombine(m: int, n: int, p: int, q: int, x: int, y: int)
    requires m * q == n * p && p * x + q * y == 1
    ensures p * (m * x + n * y) == m
  {
    assert p * (m * x + n * y) == m * (p * x) + n * p * y;
    assert m * q * y == m * (q * y);
    assert m * (p * x) + m * (q * y) == m * (p * x + q * y);
  }

  lemma AsMultiple(p: int, step: int, t: int, m: int)
    requires p * t == m
    ensures p * step * t == step * m
  {
  }

  lemma MultipleIsLegal(a: int, b: int, step: int, t: int)
    requires a > 0 && b > 0 && step > 0 && t >= 1
    ensures Legal(a, b, step, SizeAt(Reduced(a, b).0, Reduced(a, b).1, step, t))
  {
    hide Reduced;
    var g, p, q := ReducedTerms(a, b);
    MultipleOfStep(p, step, t);
    MultipleOfStep(q, step, t);
    CrossProducts(p, q, step * t, g);
    Associate(p, step, t);
    Associate(q, step, t);
  }

  lemma CrossProducts(p: int, q: int, e: int, g: int)
    ensures p * e * (g * q) == q * e * (g * p)
  {
    Associate(p, e, g * q);
    Associate(q, e, g * p);
    Associate(e, g, q);
    Associate(e, g, p);
    Swap(p, e * g, q);
  }

  lemma MultipleOfStep(p: int, step: int, t: int)
    requires p > 0 && step > 0 && t >= 1
    ensures p * step * t > 0 && p * step * t % step == 0
  {
    Positive(p, t);
    Positive(step, p * t);
    assert p * step * t == step * (p * t);
    QuotientIs(step * (p * t), step, p * t, 0);
  }

  // ---------------------------------------------------------------- the nearest legal size

  function Distance(x: int, y: int): nat {
    if x < y then y - x else x - y
  }

  lemma Monotone(u: int, t: int, t': int)
    requires u > 0 && t <= t'
    ensures u * t <= u * t'
  {
  }

  /** Rounding picks the nearest multiple, and never goes a whole unit past the target. */
  lemma RoundedIsNearest(short: int, u: int, t: int)
    requires u > 0
    ensures Distance(u * Rounded(short, u), short) <= Distance(u * t, short)
    ensures u * (Rounded(short, u) - 1) <= short
    ensures Rounded(short, u) <= 0 ==> short <= u
  {
    var q := short / u;
    assert short == u * q + short % u;
    assert u * (q + 1) == u * q + u;
    if t <= q {
      Monotone(u, t, q);
    } else {
      Monotone(u, q + 1, t);
    }
    if q <= 0 {
      Monotone(u, q, 0);
    }
    assert Rounded(short, u) == q + 1 || (Rounded(short, u) == q && u * (q - 1) == u * q - u);
  }

  /** The best number of units not above `cap`. */
  lemma ClampedIsNearest(short: int, u: int, cap: int, t: int)
    requires u > 0 && 1 <= t <= cap
    ensures var best := Min(Max(1, Rounded(short, u)), cap);
            1 <= best <= cap && Distance(u * best, short) <= Distance(u * t, short)
  {
    hide Rounded;
    var r := Rounded(short, u);
    var best := Min(Max(1, r), cap);
    RoundedIsNearest(short, u, t);
    if r <= 0 {
      Monotone(u, 1, t);
    } else if best == cap {
      Monotone(u, t, cap);
      if cap < r {
        Monotone(u, cap, r - 1);
      }
    }
  }

  lemma DivBound(n: nat, d: int, t: nat)
    requires d > 0
    ensures d * t <= n <==> t <= n / d
  {
    assert n == d * (n / d) + n % d;
    if t <= n / d {
      Monotone(d, t, n / d);
    } else {
      Monotone(d, n / d + 1, t);
      assert d * (n / d + 1) == d * (n / d) + d;
    }
  }

  lemma Squares(x: nat, y: nat)
    requires x <= y
    ensures x * x <= y * y
  {
    assert x * x <= x * y;
    assert x * y <= y * y;
  }

  lemma SquareBound(n: nat, t: nat)
    ensures t * t <= n <==> t <= Isqrt(n)
  {
    hide Isqrt;
    if t <= Isqrt(n) {
      Squares(t, Isqrt(n));
    } else {
      Squares(Isqrt(n) + 1, t);
    }
  }

  // ---------------------------------------------------------------- what the caller gets

  function LongCap(p: int, q: int, step: int, maxLong: Option<nat>): Option<nat>
    requires p > 0 && q > 0 && step > 0
  {
    if maxLong.None? then None
    else
      Positive(step, Max(p, q));
      Some(maxLong.value / (step * Max(p, q)))
  }

  function PixelCap(p: int, q: int, step: int, maxPixels: Option<nat>): Option<nat>
    requires p > 0 && q > 0 && step > 0
  {
    if maxPixels.None? then None
    else
      Positive(p, q);
      Positive(step, step);
      Positive(p * q, step * step);
      Some(Isqrt(maxPixels.value / (p * q * (step * step))))
  }

  lemma LongFits(p: int, q: int, step: int, t: nat, maxLong: nat)
    requires p > 0 && q > 0 && step > 0
    ensures Max(p * step * t, q * step * t) <= maxLong <==> t <= LongCap(p, q, step, Some(maxLong)).value
  {
    Positive(step, Max(p, q));
    DivBound(maxLong, step * Max(p, q), t);
    Monotone(step, p, Max(p, q));
    Monotone(step, q, Max(p, q));
    assert p * step * t == step * p * t && q * step * t == step * q * t;
    Grows(step * p, step * Max(p, q), t);
    Grows(step * q, step * Max(p, q), t);
  }

  lemma Grows(x: int, y: int, t: nat)
    requires x <= y
    ensures x * t <= y * t
  {
  }

  lemma PixelsFit(p: int, q: int, step: int, t: nat, maxPixels: nat)
    requires p > 0 && q > 0 && step > 0
    ensures p * step * t * (q * step * t) <= maxPixels <==> t <= PixelCap(p, q, step, Some(maxPixels)).value
  {
    hide Isqrt;
    Positive(p, q);
    Positive(step, step);
    Positive(p * q, step * step);
    var d := p * q * (step * step);
    SidesMultiply(p, q, step, t);
    NotNegative(t);
    DivBound(maxPixels, d, t * t);
    SquareBound(maxPixels / d, t);
  }

  lemma NotNegative(t: nat)
    ensures t * t >= 0
  {
  }

  lemma SidesMultiply(p: int, q: int, step: int, t: int)
    ensures p * step * t * (q * step * t) == p * q * (step * step) * (t * t)
  {
    var e := step * t;
    Associate(p, step, t);
    Associate(q, step, t);
    SquareOfProduct(p, e, q);
    SquareOfProduct(step, t, step);
    Associate(p * q, step * step, t * t);
  }

  lemma SquareOfProduct(p: int, e: int, q: int)
    ensures p * e * (q * e) == p * q * (e * e)
  {
    Associate(p, e, q * e);
    Swap(e, e, q);
    Associate(p, q, e * e);
  }

  predicate Allowed(t: int, cap: Option<nat>) {
    cap.None? || t <= cap.value
  }

  /** The clamping, on numbers of units. */
  lemma UnitsAreBest(p: int, q: int, short: int, step: int, maxLong: Option<nat>, maxPixels: Option<nat>, t: int)
    requires p > 0 && q > 0 && step > 0 && t >= 1
    ensures var best, x, y, u :=
              Units(p, q, short, step, maxLong, maxPixels), LongCap(p, q, step, maxLong),
                  PixelCap(p, q, step, maxPixels), step * Min(p, q);
            && best >= 1
            && (Allowed(t, x) && Allowed(t, y) ==>
                  Allowed(best, x) && Allowed(best, y) && Distance(u * best, short) <= Distance(u * t, short))
            && (!(Allowed(1, x) && Allowed(1, y)) ==> best == 1)
  {
    hide Rounded, Distance, Isqrt;
    var x, y, u := LongCap(p, q, step, maxLong), PixelCap(p, q, step, maxPixels), step * Min(p, q);
    Positive(step, Min(p, q));
    var t0 := Max(1, Rounded(short, u));
    ClampedIsNearest(short, u, t + t0, t);
    if x.Some? && t <= x.value {
      ClampedIsNearest(short, u, x.value, t);
    }
    if y.Some? && t <= y.value {
      ClampedIsNearest(short, u, y.value, t);
    }
  }

  lemma ShortEdge(p: int, q: int, step: int, t: int)
    requires p > 0 && q > 0 && step > 0 && t >= 1
    ensures Min(p * step * t, q * step * t) == step * Min(p, q) * t
  {
    assert p * step * t == step * p * t && q * step * t == step * q * t;
    Monotone(step, Min(p, q), Max(p, q));
    Grows(step * Min(p, q), step * Max(p, q), t);
  }

  lemma FitsIff(p: int, q: int, step: int, t: nat, maxLong: Option<nat>, maxPixels: Option<nat>)
    requires p > 0 && q > 0 && step > 0
    ensures Fits(SizeAt(p, q, step, t), maxLong, maxPixels)
       <==> Allowed(t, LongCap(p, q, step, maxLong)) && Allowed(t, PixelCap(p, q, step, maxPixels))
  {
    hide FitsLong, FitsPixels, SizeAt, Allowed, LongCap, PixelCap;
    LongFitsIff(p, q, step, t, maxLong);
    PixelsFitIff(p, q, step, t, maxPixels);
  }

  lemma LongFitsIff(p: int, q: int, step: int, t: nat, maxLong: Option<nat>)
    requires p > 0 && q > 0 && step > 0
    ensures FitsLong(SizeAt(p, q, step, t), maxLong) <==> Allowed(t, LongCap(p, q, step, maxLong))
  {
    if maxLong.Some? {
      LongFits(p, q, step, t, maxLong.value);
    }
  }

  lemma PixelsFitIff(p: int, q: int, step: int, t: nat, maxPixels: Option<nat>)
    requires p > 0 && q > 0 && step > 0
    ensures FitsPixels(SizeAt(p, q, step, t), maxPixels) <==> Allowed(t, PixelCap(p, q, step, maxPixels))
  {
    if maxPixels.Some? {
      PixelsFit(p, q, step, t, maxPixels.value);
    }
  }

  /** The size returned is legal; it is within the caps whenever any legal size is, and then its short
  edge is as near the target as that of any legal size within them; else it is the smallest legal size. */
  lemma SizeIsBest(a: int, b: int, short: int, step: int, maxLong: Option<nat>, maxPixels: Option<nat>, other: (int,
                   int))
    requires a > 0 && b > 0 && step > 0 && Legal(a, b, step, other)
    ensures var best := Size(a, b, short, step, maxLong, maxPixels);
            && Legal(a, b, step, best)
            && (Fits(other, maxLong, maxPixels) ==>
                  && Fits(best, maxLong, maxPixels)
                  && Distance(Min(best.0, best.1), short) <= Distance(Min(other.0, other.1), short))
            && (!Fits(best, maxLong, maxPixels) ==> best.0 <= other.0 && best.1 <= other.1)
  {
    hide Reduced, Units, Legal, Fits, LongCap, PixelCap, Distance;
    var r := Reduced(a, b);
    ReducedPositive(a, b);
    var t := LegalIsMultiple(a, b, step, other);
    var n := Units(r.0, r.1, short, step, maxLong, maxPixels);
    UnitsAreBest(r.0, r.1, short, step, maxLong, maxPixels, t);
    UnitsAreBest(r.0, r.1, short, step, maxLong, maxPixels, 1);
    MultipleIsLegal(a, b, step, n);
    FitsIff(r.0, r.1, step, t, maxLong, maxPixels);
    FitsIff(r.0, r.1, step, n, maxLong, maxPixels);
    ShortEdge(r.0, r.1, step, t);
    ShortEdge(r.0, r.1, step, n);
    Positive(r.0, step);
    Positive(r.1, step);
    Monotone(r.0 * step, 1, t);
    Monotone(r.1 * step, 1, t);
  }

  /** A ratio that is not two positive numbers counts as 9:16. */
  lemma InvalidIsPortrait(a: int, b: int, short: int, step: int, maxLong: Option<nat>, maxPixels: Option<nat>)
    requires step > 0
    ensures a <= 0 || b <= 0 ==>
              Size(a, b, short, step, maxLong, maxPixels) == Size(9, 16, short, step, maxLong, maxPixels)
  {
    hide Units;
    assert Gcd(9, 16) == Gcd(16, 9) == Gcd(9, 7) == Gcd(7, 2) == Gcd(2, 1) == Gcd(1, 0) == 1;
  }

  // ---------------------------------------------------------------- the quotient as a float

  /** `round` on a number: the nearest integer, a half to the even one. */
  function RoundedReal(x: real): int {
    var f := x.Floor;
    if x - f as real < 0.5 || (x - f as real == 0.5 && f % 2 == 0) then f else f + 1
  }

  /** `x` may be the double nearest to `n / d`: right to 53 bits, and exact where the quotient lies
  halfway between integers, which a double can represent. */
  predicate NearestDouble(x: real, n: nat, d: nat) {
    && -(n as real) <= (x * d as real - n as real) * 9007199254740992.0 <= n as real
    && (d > 0 && 2 * (n % d) == d ==> x * d as real == n as real)
  }

  /** `w` is `z` scaled by `d`. */
  lemma ScaledBack(z: real, d: real, w: real)
    requires d > 0.0 && w == z * d
    ensures 2.0 * w < d ==> z < 0.5
    ensures 2.0 * w > -d ==> z > -0.5
    ensures 2.0 * w == d ==> z == 0.5
  {
    ScaleMonotone(0.5, z, d);
    ScaleMonotone(z, 0.5, d);
    ScaleMonotone(z, -0.5, d);
  }

  lemma ScaleMonotone(x: real, y: real, d: real)
    requires d > 0.0
    ensures x <= y ==> x * d <= y * d
    ensures x < y ==> x * d < y * d
  {
  }

  lemma DistributeReal(k: real, x: real, d: real)
    ensures (k - x) * d == k * d - x * d
  {
  }

  lemma NearestInteger(x: real, k: int)
    requires -0.5 < k as real - x < 0.5
    ensures RoundedReal(x) == k
  {
  }

  lemma Halfway(x: real, q: int)
    requires x - q as real == 0.5
    ensures RoundedReal(x) == if q % 2 == 0 then q else q + 1
  {
  }

  /** The rounded quotient, scaled back, is within half a divisor. */
  lemma RoundedOffset(n: int, d: int)
    requires d > 0
    ensures var k := Rounded(n, d);
            && (2 * (n % d) != d ==> -d < 2 * (d * k - n) < d)
            && (2 * (n % d) == d ==>
                  && 2 * n == d + 2 * (d * (n / d))
                  && k == if (n / d) % 2 == 0 then n / d else n / d + 1)
  {
    Division(n, d);
    assert d * (n / d + 1) == d * (n / d) + d;
  }

  lemma RealProduct(d: int, k: int)
    ensures (d * k) as real == k as real * d as real
  {
  }

  /** `m` and `y` are `k` and `x` scaled by `d`. */
  lemma CloseToInteger(d: real, n: real, m: real, k: real, x: real, y: real)
    requires d > 0.0 && 1.0 - d <= 2.0 * (m - n) <= d - 1.0 && -0.5 < y - n < 0.5
    requires m == k * d && y == x * d
    ensures -0.5 < k - x < 0.5
  {
    DistributeReal(k, x, d);
    ScaledBack(k - x, d, m - y);
  }

  lemma ExactlyHalfway(d: real, n: real, m: real, q: real, x: real)
    requires d > 0.0 && 2.0 * n == d + 2.0 * m && m == q * d && x * d == n
    ensures x - q == 0.5
  {
    DistributeReal(x, q, d);
    ScaledBack(x - q, d, n - m);
  }

  /** The same over the reals. */
  lemma RealOffset(n: nat, d: int)
    requires d > 0
    ensures var k := Rounded(n, d);
            && (2 * (n % d) != d ==>
                  1.0 - d as real <= 2.0 * (k as real * d as real - n as real) <= d as real - 1.0)
            && (2 * (n % d) == d ==>
                  && 2.0 * n as real == d as real + 2.0 * ((n / d) as real * d as real)
                  && k == if (n / d) % 2 == 0 then n / d else n / d + 1)
  {
    hide Rounded;
    var k, q := Rounded(n, d), n / d;
    RoundedOffset(n, d);
    RealProduct(d, k);
    RealProduct(d, q);
    OffsetAsReal(d, n, d * k);
    OffsetAsReal(d, n, d * q);
  }

  lemma OffsetAsReal(d: int, n: int, m: int)
    ensures -d < 2 * (m - n) < d ==> 1.0 - d as real <= 2.0 * (m as real - n as real) <= d as real - 1.0
    ensures 2 * n == d + 2 * m ==> 2.0 * n as real == d as real + 2.0 * m as real
  {
    assert (2 * (m - n)) as real == 2.0 * (m as real - n as real);
  }

  /** The quotient scaled back is less than a half away. */
  lemma SmallError(x: real, n: nat, d: nat)
    requires n < 4503599627370496 && NearestDouble(x, n, d)
    ensures -0.5 < x * d as real - n as real < 0.5
  {
  }

  /** Rounding the floating-point quotient of a target below 2^52 is rounding the exact one. */
  lemma FloatQuotientSuffices(n: nat, d: nat, x: real)
    requires d > 0 && n < 4503599627370496 && NearestDouble(x, n, d)
    ensures RoundedReal(x) == Rounded(n, d)
  {
    hide RoundedReal, Rounded;
    var q, k := n / d, Rounded(n, d);
    RealOffset(n, d);
    SmallError(x, n, d);
    if 2 * (n % d) != d {
      hide NearestDouble;
      CloseToInteger(d as real, n as real, k as real * d as real, k as real, x, x * d as real);
      NearestInteger(x, k);
    } else {
      ExactlyHalfway(d as real, n as real, q as real * d as real, q as real, x);
      Halfway(x, q);
    }
  }
}
