/**
 * Positive doubles of binary64 and rounding to the nearest one, ties to even. Exponents are left unbounded:
 * register values and their quotients are nowhere near the ends of the range.
 */
module Doubles {

  /** 2 to the power of 52: a significand has 53 bits. */
  const TOP: nat := 0x10_0000_0000_0000

  function Pow2(k: nat): (p: nat)
    ensures p >= 1
    ensures k >= 1 ==> p % 2 == 0
  {
    if k == 0 then 1 else 2 * Pow2(k - 1)
  }

  /** significand / 2^places */
  datatype Double = Double(significand: nat, places: nat)

  /** Quotients below 2 to the power of 53 need no negative number of places. */
  predicate Representable(a: nat, b: nat) {
    0 < a < 2 * TOP * b
  }

  /** With how many binary places the quotient a / b has 53 significant bits. */
  function Places(a: nat, b: nat): (k: nat)
    requires Representable(a, b)
    ensures TOP * b <= a * Pow2(k) < 2 * TOP * b
    decreases TOP * b - a
  {
    if a >= TOP * b then 0
    else
      var k := Places(2 * a, b);
      assert 2 * a * Pow2(k) == a * Pow2(k + 1);
      k + 1
  }

  function Quotient(a: nat, b: nat): nat
    requires b > 0
  {
    a / b
  }

  function RoundHalfEven(a: nat, b: nat): nat
    requires b > 0
  {
    var q, r := Quotient(a, b), a % b;
    if 2 * r < b || (2 * r == b && q % 2 == 0) then q else q + 1
  }

  /** The double nearest to a / b. */
  function Nearest(a: nat, b: nat): Double
    requires Representable(a, b)
  {
    var k := Places(a, b);
    Double(RoundHalfEven(a * Pow2(k), b), k)
  }

  function Distance(x: int, y: int): nat {
    if x < y then y - x else x - y
  }

  // ----- Powers and places -----

  lemma {:induction false} Pow2Add(i: nat, j: nat)
    ensures Pow2(i + j) == Pow2(i) * Pow2(j)
    decreases i
  {
    if i > 0 {
      Pow2Add(i - 1, j);
      Associate(2, Pow2(i - 1), Pow2(j));
    }
  }

  lemma TimesMono(a: nat, x: nat, y: nat)
    requires x <= y
    ensures a * x <= a * y && x * a <= y * a
  {
  }

  lemma TimesTwice(a: nat, x: nat, y: nat)
    requires 2 * x <= y
    ensures 2 * (a * x) <= a * y
  {
    TimesMono(a, 2 * x, y);
    Associate(a, 2, x);
  }

  lemma Associate(x: int, y: int, z: int)
    ensures x * y * z == x * z * y == x * (y * z)
  {
  }

  lemma Pow2More(i: nat, j: nat)
    requires i < j
    ensures 2 * Pow2(i) <= Pow2(j)
  {
    Pow2Add(j - i, i);
    TimesMono(Pow2(i), 2, Pow2(j - i));
  }

  lemma PlacesAre(a: nat, b: nat, k: nat)
    requires Representable(a, b) && TOP * b <= a * Pow2(k) < 2 * TOP * b
    ensures Places(a, b) == k
  {
    var p := Places(a, b);
    if p < k {
      Pow2More(p, k);
      TimesTwice(a, Pow2(p), Pow2(k));
    } else if k < p {
      Pow2More(k, p);
      TimesTwice(a, Pow2(k), Pow2(p));
    }
  }

  // ----- Nearest is nearest -----

  /** No multiple of `b` is closer to `a` than the rounded one. */
  lemma RoundIsClosest(a: nat, b: nat, z: int)
    requires b > 0
    ensures Distance(RoundHalfEven(a, b) * b, a) <= Distance(z * b, a)
    ensures 2 * Distance(RoundHalfEven(a, b) * b, a) <= b
  {
    var q, r := a / b, a % b;
    assert a == q * b + r;
    assert (q + 1) * b == q * b + b;
    if z <= q {
      TimesDiff(q, z, b);
    } else {
      TimesDiff(z, q + 1, b);
    }
  }

  lemma TimesDiff(x: int, y: int, b: nat)
    requires x >= y
    ensures x * b >= y * b
  {
    assert x * b - y * b == (x - y) * b;
  }

  lemma DistanceTimes(x: int, y: int, p: nat)
    ensures Distance(x, y) * p == Distance(x * p, y * p)
  {
    assert (x - y) * p == x * p - y * p;
    assert (y - x) * p == y * p - x * p;
  }

  /**
   * No double is closer to a / b than the one returned: the distances of both, over the common denominator,
   * compare that way for every other significand and number of places.
   */
  lemma NearestIsNearest(a: nat, b: nat, other: Double)
    requires Representable(a, b) && other.significand <= 2 * TOP
    ensures var d := Nearest(a, b);
      Distance(d.significand * b, a * Pow2(d.places)) * Pow2(other.places)
        <= Distance(other.significand * b, a * Pow2(other.places)) * Pow2(d.places)
  {
    var d := Nearest(a, b);
    if other.places <= d.places {
      CoarserIsFarther(a, b, d, other.significand, other.places);
    } else {
      FinerIsFarther(a, b, d, other.significand, other.places);
    }
  }

  lemma CoarserIsFarther(a: nat, b: nat, d: Double, s: nat, k: nat)
    requires Representable(a, b) && d == Nearest(a, b) && k <= d.places
    ensures Distance(d.significand * b, a * Pow2(d.places)) * Pow2(k)
         <= Distance(s * b, a * Pow2(k)) * Pow2(d.places)
  {
    var m, p := Pow2(d.places - k), Pow2(k);
    Pow2Add(d.places - k, k);
    RoundIsClosest(a * Pow2(d.places), b, s * m);
    FarTimes(a, b, s, m, p);
    ThroughMultiple(Distance(d.significand * b, a * Pow2(d.places)), Distance(s * b, a * p), m, p);
  }

  lemma FarTimes(a: nat, b: nat, s: nat, m: nat, p: nat)
    ensures Distance(s * m * b, a * (m * p)) == Distance(s * b, a * p) * m
  {
    DistanceTimes(s * b, a * p, m);
    Associate(s, m, b);
    Associate(a, m, p);
  }

  lemma ThroughMultiple(near: nat, far: nat, m: nat, p: nat)
    requires near <= far * m
    ensures near * p <= far * (m * p)
  {
    TimesMono(p, near, far * m);
    Associate(far, m, p);
  }

  /** `p'` is a whole multiple of `p`, and a significand of 53 bits over it stays below the binade of a / b. */
  lemma BelowBinade(a: nat, b: nat, p: nat, m: nat, s: nat)
    requires TOP * b <= a * p && s <= TOP * m
    ensures (a * p - TOP * b) * m <= a * (m * p) - s * b
  {
    TimesMono(b, s, TOP * m);
    Associate(TOP, m, b);
    Associate(a, m, p);
    assert (a * p - TOP * b) * m == a * p * m - TOP * b * m;
  }

  lemma FinerIsFarther(a: nat, b: nat, d: Double, s: nat, k: nat)
    requires Representable(a, b) && d == Nearest(a, b) && d.places < k && s <= 2 * TOP
    ensures Distance(d.significand * b, a * Pow2(d.places)) * Pow2(k)
         <= Distance(s * b, a * Pow2(k)) * Pow2(d.places)
  {
    var m, p, p' := Pow2(k - d.places), Pow2(d.places), Pow2(k);
    Pow2Add(k - d.places, d.places);
    assert p' == m * p;
    Pow2More(0, k - d.places);
    RoundIsClosest(a * p, b, TOP);
    var near, gap := Distance(d.significand * b, a * p), a * p - TOP * b;
    assert near <= gap;
    TimesMono(TOP, 2, m);
    BelowBinade(a, b, p, m, s);
    ThroughGap(near, gap, Distance(s * b, a * p'), m, p);
  }

  lemma ThroughGap(near: nat, gap: nat, far: nat, m: nat, p: nat)
    requires near <= gap && gap * m <= far
    ensures near * (m * p) <= far * p
  {
    TimesMono(p, gap * m, far);
    TimesMono(m * p, near, gap);
    Associate(gap, m, p);
  }

  /** Half a unit in the last place is at most 2^-53 of the quotient. */
  lemma NearestIsClose(a: nat, b: nat)
    requires Representable(a, b)
    ensures var d := Nearest(a, b);
      2 * TOP * Distance(d.significand * b, a * Pow2(d.places)) <= a * Pow2(d.places)
  {
    var d := Nearest(a, b);
    RoundIsClosest(a * Pow2(d.places), b, 0);
    TimesMono(TOP, 2 * Distance(d.significand * b, a * Pow2(d.places)), b);
  }

  // ----- A register value over a multiplier and back -----

  /** A value of a register divided by its multiplier. */
  function Decoded(n: nat, m: nat): (x: Double)
    requires 0 < n < TOP && m > 0
    ensures x.significand >= TOP
  {
    TimesMono(2 * TOP, 1, m);
    var x := Nearest(n, m);
    FullSignificand(n, m);
    x
  }

  lemma FullSignificand(a: nat, b: nat)
    requires Representable(a, b)
    ensures Nearest(a, b).significand >= TOP
  {
    QuotientAtLeast(a * Pow2(Places(a, b)), b, TOP);
  }

  lemma QuotientAtLeast(p: nat, b: nat, t: nat)
    requires b > 0 && t * b <= p
    ensures p / b >= t
  {
    if p / b < t {
      TimesMono(b, p / b + 1, t);
    }
  }

  /** A double cut off behind the point. */
  function Floor(f: Double): nat {
    Quotient(f.significand, Pow2(f.places))
  }

  /** The product with the multiplier, rounded, and cut off behind the point. */
  function Encoded(x: Double, m: nat): nat
    requires Representable(x.significand * m, Pow2(x.places))
  {
    Floor(Nearest(x.significand * m, Pow2(x.places)))
  }

  /** How far the quotient n / m was rounded down, in its last place; nothing if it was rounded up. */
  function Shortfall(n: nat, m: nat): nat
    requires Representable(n, m)
  {
    var a := n * Pow2(Places(n, m));
    if RoundHalfEven(a, m) == a / m then a % m else 0
  }

  /**
   * Does the register value come back one lower? Exactly if the quotient was rounded down so far that the
   * product is nearer to the double below `n` than to `n`: by more than half a unit of the values just below.
   */
  predicate LosesStep(n: nat, m: nat)
    requires 0 < n < TOP && m > 0
  {
    TimesMono(2 * TOP, 1, m);
    2 * Shortfall(n, m) * Pow2(Places(2 * n - 1, 2)) > Pow2(Places(n, m))
  }

  /** A rounded quotient times the divisor: short of the dividend by the remainder, or a little above it. */
  lemma RoundTimes(a: nat, m: nat)
    requires m > 0
    ensures var q := RoundHalfEven(a, m);
      var short := if q == a / m then a % m else 0;
      && 2 * short <= m
      && if short > 0 then q * m == a - short else q * m >= a && 2 * (q * m - a) <= m
  {
    assert a == a / m * m + a % m;
    assert (a / m + 1) * m == a / m * m + m;
  }

  lemma PlacesExceed(n: nat, m: nat, p: nat)
    requires 0 < n < TOP && TOP * m <= n * p
    ensures m <= p
  {
    TimesMono(p, n, TOP);
    if m > p {
      TimesMono(TOP, p, m);
      assert false;
    }
  }

  /** The rounded quotient over `p` times the multiplier: `n` less the shortfall, or a little more than `n`. */
  lemma ProductAround(n: nat, m: nat)
    requires 0 < n < TOP && m > 0
    ensures var x := Decoded(n, m);
      var p := Pow2(x.places);
      && m <= p && TOP * m <= n * p
      && 2 * Shortfall(n, m) <= m
      && if Shortfall(n, m) > 0 then x.significand * m == n * p - Shortfall(n, m)
         else 2 * (x.significand * m - n * p) <= m && x.significand * m >= n * p
  {
    TimesMono(2 * TOP, 1, m);
    var p := Pow2(Places(n, m));
    RoundTimes(n * p, m);
    PlacesExceed(n, m, p);
  }

  /** The product of the decoded value stays in range. */
  lemma ProductInRange(n: nat, m: nat)
    requires 0 < n < TOP && m > 0
    ensures Representable(Decoded(n, m).significand * m, Pow2(Decoded(n, m).places))
  {
    var x := Decoded(n, m);
    var p := Pow2(x.places);
    ProductAround(n, m);
    TimesMono(x.significand, 1, m);
    TimesMono(p, n + 1, TOP);
    assert (n + 1) * p == n * p + p;
  }

  /** The register value after one decoding and encoding. */
  function Recoded(n: nat, m: nat): nat
    requires 0 < n < TOP && m > 0
  {
    ProductInRange(n, m);
    Encoded(Decoded(n, m), m)
  }

  lemma DivideIs(a: nat, b: nat, q: nat, r: nat)
    requires b > 0 && a == q * b + r && r < b
    ensures Quotient(a, b) == q && a % b == r
  {
    var d, t := a / b, a % b;
    assert (q - d) * b == t - r && (d - q) * b == r - t;
    if q > d {
      TimesMono(b, 1, q - d);
    } else if q < d {
      TimesMono(b, 1, d - q);
    }
  }

  /** In the binade of the values just below `n`, these have one place more than `n` needs at most. */
  lemma PlacesBelow(n: nat)
    requires 0 < n < TOP
    ensures var u := Pow2(Places(2 * n - 1, 2));
      u % 2 == 0 && n * u <= 2 * TOP <= (2 * n - 1) * u
  {
    var k := Places(2 * n - 1, 2);
    var u := Pow2(k);
    AtMost53Places(n);
    Pow2Add(k, 53 - k);
    Pow2Of53();
    InBinade(n, u, Pow2(53 - k));
  }

  lemma AtMost53Places(n: nat)
    requires 0 < n < TOP
    ensures 1 <= Places(2 * n - 1, 2) <= 53
  {
    var k := Places(2 * n - 1, 2);
    if k > 53 {
      Pow2Above53(k);
      TooBig(2 * n - 1, Pow2(k));
    }
  }

  lemma TooBig(a: nat, u: nat)
    requires a > 0 && u >= 4 * TOP
    ensures a * u >= 4 * TOP
  {
    TimesMono(u, 1, a);
  }

  lemma Pow2Above53(k: nat)
    requires k > 53
    ensures Pow2(k) >= 4 * TOP
  {
    Pow2Of53();
    Pow2More(53, k);
  }

  lemma InBinade(n: nat, u: nat, rest: nat)
    requires 0 < n && u * rest == 2 * TOP && (2 * n - 1) * u < 4 * TOP
    ensures n * u <= 2 * TOP
  {
    assert u * (2 * rest + 1) == 2 * (u * rest) + u;
    if n > rest {
      TimesMono(u, 2 * rest + 1, 2 * n - 1);
      assert false;
    }
    TimesMono(u, n, rest);
  }

  lemma Pow2Of48()
    ensures Pow2(48) == 0x1_0000_0000_0000
  {
    assert Pow2(3) == 8 && Pow2(6) == 64 && Pow2(9) == 512 && Pow2(12) == 4096;
    Pow2Add(12, 12);
    Pow2Add(24, 24);
  }

  lemma Pow2Of53()
    ensures Pow2(53) == 2 * TOP
  {
    Pow2Of48();
    Pow2Add(5, 48);
    assert Pow2(5) == 32;
  }

  /** A quotient just below `c`, rounded. */
  lemma RoundBelow(a: nat, b: nat, c: nat, gap: nat)
    requires c % 2 == 0 && 0 < gap <= b && a == c * b - gap
    ensures RoundHalfEven(a, b) == if 2 * gap > b then c - 1 else c
  {
    assert c * b == (c - 1) * b + b;
    DivideIs(a, b, c - 1, b - gap);
  }

  lemma RoundBetween(a: nat, b: nat, low: nat, high: nat)
    requires b > 0 && low * b <= a <= high * b
    ensures low <= RoundHalfEven(a, b) <= high
  {
    QuotientAtLeast(a, b, low);
    var q, r := a / b, a % b;
    assert a == q * b + r;
    if q > high {
      TimesMono(b, high + 1, q);
      assert false;
    }
  }

  /** A product that falls short of `n` by `r` places of 1 / `p`, where values just below `n` have `u` per unit. */
  lemma ShortProduct(n: nat, m: nat, p: nat, r: nat, u: nat)
    requires 0 < n && 0 < r && 2 * r <= m <= p && TOP * m <= n * p
    requires u > 0 && n * u <= 2 * TOP <= (2 * n - 1) * u
    ensures r <= n * p && r * u <= p && TOP * p <= (n * p - r) * u < 2 * TOP * p
  {
    TimesMono(p, 1, n);
    GapFits(n, m, p, r, u);
    ShortTimes(n, p, r, u);
    TimesMono(u, 2 * r, p);
    Associate(2, r, u);
    assert (2 * n - 1) * u == 2 * (n * u) - u;
    TimesMono(u, 1, r);
    StaysInBinade(n * u, u, p, r * u);
  }

  lemma ShortTimes(n: nat, p: nat, r: nat, u: nat)
    ensures (n * p - r) * u == n * u * p - r * u
  {
    assert (n * p - r) * u == n * p * u - r * u;
    Associate(n, p, u);
  }

  lemma StaysInBinade(w: nat, u: nat, p: nat, gap: nat)
    requires w <= 2 * TOP <= 2 * w - u && 0 < gap && 2 * gap <= u * p
    ensures TOP * p <= w * p - gap < 2 * TOP * p
  {
    TimesMono(p, w, 2 * TOP);
    TimesMono(p, 2 * TOP, 2 * w - u);
    assert (2 * w - u) * p == 2 * (w * p) - u * p;
  }

  lemma GapFits(n: nat, m: nat, p: nat, r: nat, u: nat)
    requires 2 * r <= m && TOP * m <= n * p && n * u <= 2 * TOP
    ensures r * u <= p
  {
    TimesMono(TOP, 2 * r, m);
    TimesMono(u, 2 * TOP * r, n * p);
    TimesMono(p, n * u, 2 * TOP);
    Associate(n, p, u);
    Associate(2 * TOP, r, u);
  }

  /** The condition over the names the proofs use. */
  lemma LosesStepMeans(n: nat, m: nat)
    requires 0 < n < TOP && m > 0
    ensures var r, u := Shortfall(n, m), Pow2(Places(2 * n - 1, 2));
      LosesStep(n, m) <==> 2 * (r * u) > Pow2(Decoded(n, m).places)
  {
    Associate(2, Shortfall(n, m), Pow2(Places(2 * n - 1, 2)));
  }

  lemma ShortEncoded(n: nat, m: nat)
    requires 0 < n < TOP && m > 0 && Shortfall(n, m) > 0
    ensures Recoded(n, m) == if LosesStep(n, m) then n - 1 else n
  {
    ProductInRange(n, m);
    var x := Decoded(n, m);
    var p, r, k := Pow2(x.places), Shortfall(n, m), Places(2 * n - 1, 2);
    ProductAround(n, m);
    PlacesBelow(n);
    ShortProduct(n, m, p, r, Pow2(k));
    PlacesAre(x.significand * m, p, k);
    TimesMono(Pow2(k), 1, r);
    ShortFloor(n, p, r, Pow2(k));
    LosesStepMeans(n, m);
  }

  lemma ShortFloor(n: nat, p: nat, r: nat, u: nat)
    requires 0 < n && r <= n * p && u % 2 == 0 && 0 < r * u <= p
    ensures Quotient(RoundHalfEven((n * p - r) * u, p), u) == if 2 * (r * u) > p then n - 1 else n
  {
    ShortTimes(n, p, r, u);
    EvenTimes(n, u);
    RoundBelow((n * p - r) * u, p, n * u, r * u);
    FloorNear(n, u);
  }

  lemma EvenTimes(n: nat, u: nat)
    requires u % 2 == 0
    ensures n * u % 2 == 0
  {
    assert n * u == 2 * (n * (u / 2));
  }

  lemma FloorNear(n: nat, u: nat)
    requires 0 < n && u >= 2
    ensures Quotient(n * u, u) == n && Quotient(n * u - 1, u) == n - 1
  {
    DivideIs(n * u, u, n, 0);
    assert n * u == (n - 1) * u + u;
    DivideIs(n * u - 1, u, n - 1, u - 1);
  }

  lemma FullEncoded(n: nat, m: nat)
    requires 0 < n < TOP && m > 0 && Shortfall(n, m) == 0
    ensures Recoded(n, m) == n
  {
    ProductInRange(n, m);
    var x := Decoded(n, m);
    var p, product := Pow2(x.places), x.significand * m;
    ProductAround(n, m);
    var k := Places(product, p);
    TimesMono(p, n + 1, TOP);
    assert (n + 1) * p == n * p + p;
    assert k >= 1;
    FullProduct(n, p, product, Pow2(k));
    var f := RoundHalfEven(product * Pow2(k), p);
    assert f == n * Pow2(k) + (f - n * Pow2(k));
    DivideIs(f, Pow2(k), n, f - n * Pow2(k));
  }

  lemma FullProduct(n: nat, p: nat, product: nat, u: nat)
    requires p > 0 && n * p <= product && 2 * (product - n * p) <= p && u % 2 == 0 && u > 0
    ensures n * u <= RoundHalfEven(product * u, p) < n * u + u
  {
    TimesMono(u, n * p, product);
    TimesMono(u, 2 * (product - n * p), p);
    Associate(n, p, u);
    assert 2 * (product - n * p) * u == 2 * (product * u) - 2 * (n * p * u);
    var half := u / 2;
    assert (n * u + half) * p == n * u * p + half * p;
    assert 2 * (half * p) == u * p;
    RoundBetween(product * u, p, n * u, n * u + half);
  }

  /**
   * For every register value and every multiplier: decoding and encoding again, both in rounded doubles, gives
   * the value back or one less, and one less exactly if the quotient was rounded down too far.
   */
  lemma EncodeDecodedExactly(n: nat, m: nat)
    requires 0 < n < TOP && m > 0
    ensures Recoded(n, m) == if LosesStep(n, m) then n - 1 else n
  {
    if Shortfall(n, m) > 0 {
      ShortEncoded(n, m);
    } else {
      FullEncoded(n, m);
    }
  }
}
