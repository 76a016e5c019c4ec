/** The finite-buffer queue formulas of asim over exact reals. */
module AsimQueueing {

  function Pow(x: real, n: nat): real {
    if n == 0 then 1.0 else x * Pow(x, n - 1)
  }

  lemma {:induction false} PowSign(x: real, n: nat)
    requires x >= 0.0
    ensures Pow(x, n) >= 0.0 && (x > 0.0 ==> Pow(x, n) > 0.0)
  {
    if n > 0 {
      PowSign(x, n - 1);
    }
  }

  /** A power of a ratio other than 1 is on the same side of 1 as the ratio. */
  lemma {:induction false} PowSide(x: real, n: nat)
    requires x >= 0.0 && n > 0
    ensures x < 1.0 ==> Pow(x, n) < 1.0
    ensures x > 1.0 ==> Pow(x, n) > 1.0
  {
    PowSign(x, n - 1);
    if n > 1 {
      PowSide(x, n - 1);
    }
    SideStep(x, Pow(x, n - 1));
  }

  lemma SideStep(x: real, y: real)
    requires x >= 0.0 && y >= 0.0
    ensures x < 1.0 && y <= 1.0 ==> x * y < 1.0
    ensures x > 1.0 && y >= 1.0 ==> x * y > 1.0
  {
    assert x * y == y - (1.0 - x) * y;
    ProductSign(x - 1.0, y);
    assert (1.0 - x) * y == -((x - 1.0) * y);
  }

  /** The probability that k of K places are taken at load rho. */
  function Pk(rho: real, K: nat, k: nat): real
    requires rho >= 0.0
  {
    if rho == 1.0 then 1.0 / ((K + 1) as real)
    else
      PowSide(rho, K + 1);
      (1.0 - rho) * Pow(rho, k) / (1.0 - Pow(rho, K + 1))
  }

  /** The queue length of the source. */
  function Lq(rho: real, K: nat): real
    requires rho >= 0.0
  {
    var n := K as real;
    if rho == 1.0 then n * (n - 1.0) / (2.0 * (n + 1.0))
    else
      PowSide(rho, K + 1);
      var t1 := rho / (1.0 - rho);
      var t2 := rho / (1.0 - Pow(rho, K + 1)) * (n * Pow(rho, K) + 1.0);
      (t1 - t2) / 2.0
  }

  function SumPk(rho: real, K: nat, n: nat): real
    requires rho >= 0.0
  {
    if n == 0 then 0.0 else SumPk(rho, K, n - 1) + Pk(rho, K, n - 1)
  }

  /** The expected number waiting among at most n: one of the k is in service. */
  function Waiting(rho: real, K: nat, n: nat): real
    requires rho >= 0.0
  {
    if n == 0 then 0.0 else Waiting(rho, K, n - 1) + ((n - 1) as real) * Pk(rho, K, n)
  }

  lemma ProductSign(a: real, b: real)
    requires b >= 0.0
    ensures a >= 0.0 ==> a * b >= 0.0
    ensures a <= 0.0 ==> a * b <= 0.0
    ensures a > 0.0 && b > 0.0 ==> a * b > 0.0
    ensures a < 0.0 && b > 0.0 ==> a * b < 0.0
  {
  }

  lemma QuotientSign(a: real, b: real)
    requires b != 0.0
    ensures (a >= 0.0 && b > 0.0) || (a <= 0.0 && b < 0.0) ==> a / b >= 0.0
    ensures (a > 0.0 && b > 0.0) || (a < 0.0 && b < 0.0) ==> a / b > 0.0
  {
    assert (a / b) * b == a;
  }

  lemma PkPositive(rho: real, K: nat, k: nat)
    requires rho >= 0.0
    ensures Pk(rho, K, k) >= 0.0 && (rho > 0.0 ==> Pk(rho, K, k) > 0.0)
  {
    if rho != 1.0 {
      PowSide(rho, K + 1);
      PowSign(rho, k);
      ProductSign(1.0 - rho, Pow(rho, k));
      QuotientSign((1.0 - rho) * Pow(rho, k), 1.0 - Pow(rho, K + 1));
    }
  }

  lemma OnlyOne(x: real, d: real, e: real)
    requires d != 0.0 && x * d == e && e == d
    ensures x == 1.0
  {
    assert (x - 1.0) * d == 0.0;
  }

  // The common factors are passed as g = 1 - rho and d = 1 - rho^(K+1), so that products keep one form.

  predicate Factors(rho: real, K: nat, g: real, d: real) {
    rho >= 0.0 && rho != 1.0 && g == 1.0 - rho && d == 1.0 - Pow(rho, K + 1)
  }

  lemma FactorsNonZero(rho: real, K: nat, g: real, d: real)
    requires Factors(rho, K, g, d)
    ensures g != 0.0 && d != 0.0
  {
    PowSide(rho, K + 1);
  }

  /** The numerator of Pk. */
  function Numerator(rho: real, k: nat): real {
    (1.0 - rho) * Pow(rho, k)
  }

  // Values of recursive functions are passed to the lemmas below as variables, so that products are of variables.

  lemma PkTimes(rho: real, K: nat, k: nat, g: real, d: real, p: real)
    requires Factors(rho, K, g, d) && p == Pk(rho, K, k)
    ensures p * d == Numerator(rho, k)
  {
    FactorsNonZero(rho, K, g, d);
    var num := Numerator(rho, k);
    assert p == num / d;
    assert num / d * d == num;
  }

  lemma SumTimes(g: real, x: real, y: real, z: real)
    requires x == y + z
    ensures g * x == g * y + g * z && x * g == y * g + z * g
  {
  }

  lemma NextPower(rho: real, n: nat, a: real, b: real)
    requires a == Pow(rho, n) && b == Pow(rho, n + 1)
    ensures b == rho * a && Numerator(rho, n) == a - b
  {
    assert (1.0 - rho) * a == a - rho * a;
    Times(1.0 - rho, a, Pow(rho, n));
    Times(rho, a, Pow(rho, n));
  }

  lemma Times(g: real, x: real, y: real)
    requires x == y
    ensures g * x == g * y
  {
  }

  lemma {:induction false} SumPkClosed(rho: real, K: nat, n: nat, g: real, d: real, sum: real)
    requires Factors(rho, K, g, d) && sum == SumPk(rho, K, n)
    ensures sum * d == 1.0 - Pow(rho, n)
  {
    if n > 0 {
      var s, p := SumPk(rho, K, n - 1), Pk(rho, K, n - 1);
      SumPkClosed(rho, K, n - 1, g, d, s);
      PkTimes(rho, K, n - 1, g, d, p);
      SumTimes(d, sum, s, p);
      NextPower(rho, n - 1, Pow(rho, n - 1), Pow(rho, n));
    }
  }

  lemma {:induction false} SumPkAtOne(K: nat, n: nat)
    ensures SumPk(1.0, K, n) * ((K + 1) as real) == n as real
  {
    if n > 0 {
      SumPkAtOne(K, n - 1);
      var m := (K + 1) as real;
      assert Pk(1.0, K, n - 1) * m == 1.0;
      assert (SumPk(1.0, K, n - 1) + Pk(1.0, K, n - 1)) * m == SumPk(1.0, K, n - 1) * m + Pk(1.0, K, n - 1) * m;
    }
  }

  lemma SumPkIsOne(rho: real, K: nat, g: real, d: real)
    requires Factors(rho, K, g, d)
    ensures SumPk(rho, K, K + 1) == 1.0
  {
    FactorsNonZero(rho, K, g, d);
    var sum := SumPk(rho, K, K + 1);
    SumPkClosed(rho, K, K + 1, g, d, sum);
    OnlyOne(sum, d, 1.0 - Pow(rho, K + 1));
  }

  /** Pk over k = 0..K is a probability distribution, at every load. */
  lemma PkIsDistribution(rho: real, K: nat)
    requires rho >= 0.0
    ensures SumPk(rho, K, K + 1) == 1.0
    ensures forall k: nat :: Pk(rho, K, k) >= 0.0
  {
    if rho == 1.0 {
      SumPkAtOne(K, K + 1);
      OnlyOne(SumPk(rho, K, K + 1), (K + 1) as real, (K + 1) as real);
    } else {
      var g, d := 1.0 - rho, 1.0 - Pow(rho, K + 1);
      SumPkIsOne(rho, K, g, d);
    }
    forall k: nat
      ensures Pk(rho, K, k) >= 0.0
    {
      PkPositive(rho, K, k);
    }
  }

  /** (1 - rho) (1 - rho^(K+1)) times the expected number waiting, as a polynomial. */
  function Polynomial(rho: real, n: nat): real {
    rho * rho - (n as real) * Pow(rho, n + 1) + (n as real - 1.0) * (rho * Pow(rho, n + 1))
  }

  lemma PolynomialStep(rho: real, n: nat, g: real, m: real, num: real)
    requires g == 1.0 - rho && m == n as real && num == Numerator(rho, n + 1)
    ensures Polynomial(rho, n + 1) == Polynomial(rho, n) + g * (m * num)
  {
    var a, b := Pow(rho, n + 1), Pow(rho, n + 2);
    NextPower(rho, n + 1, a, b);
    PolynomialIs(rho, n, m, a);
    PolynomialIs(rho, n + 1, m + 1.0, b);
    Regroup(rho, g, m, a, b, num);
  }

  lemma PolynomialIs(rho: real, n: nat, m: real, a: real)
    requires m == n as real && a == Pow(rho, n + 1)
    ensures Polynomial(rho, n) == rho * rho - m * a + (m - 1.0) * (rho * a)
  {
    Times(m, a, Pow(rho, n + 1));
    Times(rho, a, Pow(rho, n + 1));
    Times(m - 1.0, rho * a, rho * Pow(rho, n + 1));
  }

  lemma Regroup(rho: real, g: real, m: real, a: real, b: real, num: real)
    requires g == 1.0 - rho && b == rho * a && num == a - b
    ensures rho * rho - (m + 1.0) * b + m * (rho * b) == rho * rho - m * a + (m - 1.0) * (rho * a) + g * (m * num)
  {
    assert m * num == m * a - m * b;
    assert g * (m * num) == m * num - rho * (m * num);
    assert rho * (m * num) == m * (rho * a) - m * (rho * b);
  }

  /** The sum of (k - 1) times the numerator of Pk, for k up to n. */
  function Undivided(rho: real, n: nat): real {
    if n == 0 then 0.0 else Undivided(rho, n - 1) + ((n - 1) as real) * Numerator(rho, n)
  }

  lemma TermTimes(w': real, w: real, m: real, p: real, d: real, pd: real, wd: real)
    requires w' == w + m * p && p * d == pd && w * d == wd
    ensures w' * d == wd + m * pd
  {
    assert (w + m * p) * d == w * d + (m * p) * d;
    assert (m * p) * d == m * (p * d);
  }

  lemma WaitingIs(rho: real, K: nat, n: nat, w': real, w: real, m: real, p: real)
    requires rho >= 0.0 && n > 0 && m == (n - 1) as real
    requires w' == Waiting(rho, K, n) && w == Waiting(rho, K, n - 1) && p == Pk(rho, K, n)
    ensures w' == w + m * p
  {
  }

  lemma UndividedIs(rho: real, n: nat, u': real, u: real, m: real, num: real)
    requires n > 0 && m == (n - 1) as real
    requires u' == Undivided(rho, n) && u == Undivided(rho, n - 1) && num == Numerator(rho, n)
    ensures u' == u + m * num
  {
  }

  lemma {:induction false} WaitingTimes(rho: real, K: nat, n: nat, g: real, d: real, w: real, u: real)
    requires Factors(rho, K, g, d) && w == Waiting(rho, K, n) && u == Undivided(rho, n)
    ensures w * d == u
  {
    if n > 0 {
      var w0, u0, p := Waiting(rho, K, n - 1), Undivided(rho, n - 1), Pk(rho, K, n);
      var num, m := Numerator(rho, n), (n - 1) as real;
      WaitingTimes(rho, K, n - 1, g, d, w0, u0);
      PkTimes(rho, K, n, g, d, p);
      WaitingIs(rho, K, n, w, w0, m, p);
      UndividedIs(rho, n, u, u0, m, num);
      TermTimes(w, w0, m, p, d, num, u0);
    }
  }

  lemma {:induction false} UndividedClosed(rho: real, n: nat, g: real, u: real)
    requires g == 1.0 - rho && n > 0 && u == Undivided(rho, n)
    ensures g * u == Polynomial(rho, n)
  {
    if n == 1 {
      assert Pow(rho, 1) == rho * Pow(rho, 0) == rho;
      NextPower(rho, 1, rho, Pow(rho, 2));
    } else {
      var u0, m, num := Undivided(rho, n - 1), (n - 1) as real, Numerator(rho, n);
      UndividedClosed(rho, n - 1, g, u0);
      PolynomialStep(rho, n - 1, g, m, num);
      SumTimes(g, u, u0, m * num);
    }
  }

  lemma WaitingClosed(rho: real, K: nat, n: nat, g: real, d: real, w: real)
    requires Factors(rho, K, g, d) && n > 0 && w == Waiting(rho, K, n)
    ensures g * (w * d) == Polynomial(rho, n)
  {
    var u := Undivided(rho, n);
    WaitingTimes(rho, K, n, g, d, w, u);
    UndividedClosed(rho, n, g, u);
    Chain(g, w, d, u, Polynomial(rho, n));
  }

  lemma Chain(g: real, w: real, d: real, u: real, p: real)
    requires w * d == u && g * u == p
    ensures g * (w * d) == p
  {
  }

  /** What the source computes, without its divisions. */
  lemma LqClosed(rho: real, K: nat, g: real, d: real, lq: real)
    requires Factors(rho, K, g, d) && lq == 2.0 * Lq(rho, K)
    ensures g * (lq * d) == Polynomial(rho, K)
  {
    FactorsNonZero(rho, K, g, d);
    var n, q, a := K as real, Pow(rho, K), Pow(rho, K + 1);
    NextPower(rho, K, q, a);
    PolynomialIs(rho, K, n, a);
    var t1, u := rho / g, rho / d;
    assert lq == t1 - u * (n * q + 1.0) by {
      Times(n, q, Pow(rho, K));
    }
    Divisions(rho, g, d, n, q, a, t1, u, lq);
  }

  lemma Divisions(rho: real, g: real, d: real, n: real, q: real, a: real, t1: real, u: real, lq: real)
    requires g == 1.0 - rho && d == 1.0 - a && a == rho * q && g != 0.0 && d != 0.0
    requires t1 == rho / g && u == rho / d && lq == t1 - u * (n * q + 1.0)
    ensures g * (lq * d) == rho * rho - n * a + (n - 1.0) * (rho * a)
  {
    assert t1 * g == rho && u * d == rho;
    Regrouped(rho, g, d, n, q, a, t1, u, lq);
  }

  lemma Regrouped(rho: real, g: real, d: real, n: real, q: real, a: real, t1: real, u: real, lq: real)
    requires g == 1.0 - rho && d == 1.0 - a && a == rho * q && t1 * g == rho && u * d == rho
    requires lq == t1 - u * (n * q + 1.0)
    ensures g * (lq * d) == rho * rho - n * a + (n - 1.0) * (rho * a)
  {
    var k := n * q + 1.0;
    assert g * (lq * d) == (t1 * g) * d - g * ((u * d) * k);
    assert rho * d == rho - rho * a;
    assert rho * k == n * a + rho;
    assert g * (n * a + rho) == n * a + rho - rho * (n * a) - rho * rho;
    assert rho * (n * a) == n * (rho * a);
    assert (n - 1.0) * (rho * a) == n * (rho * a) - rho * a;
  }

  lemma Cancel(a: real, b: real, x: real, y: real, p: real)
    requires a != 0.0 && b != 0.0 && a * (x * b) == p && a * (y * b) == p
    ensures x == y
  {
    assert a * ((x - y) * b) == a * (x * b) - a * (y * b);
    assert a * b * (x - y) == 0.0;
  }

  lemma {:induction false} WaitingAtOne(K: nat, n: nat)
    ensures Waiting(1.0, K, n) * (2.0 * ((K + 1) as real)) == (n as real) * (n as real - 1.0)
  {
    if n > 0 {
      WaitingAtOne(K, n - 1);
      var m, w, p, j := 2.0 * ((K + 1) as real), Waiting(1.0, K, n - 1), Pk(1.0, K, n), (n - 1) as real;
      assert p * m == 2.0;
      assert (w + j * p) * m == w * m + j * (p * m);
      assert n as real == j + 1.0;
    }
  }

  lemma LqAtOne(K: nat)
    ensures Lq(1.0, K) == Waiting(1.0, K, K)
  {
    WaitingAtOne(K, K);
    var n := K as real;
    var m := 2.0 * (n + 1.0);
    assert n * (n - 1.0) / m * m == n * (n - 1.0);
    Cancel(1.0, m, Lq(1.0, K), Waiting(1.0, K, K), n * (n - 1.0));
  }

  /** Without a place both terms are the same. */
  lemma NoPlace(rho: real)
    requires rho >= 0.0 && rho != 1.0
    ensures Lq(rho, 0) == 0.0
  {
    assert Pow(rho, 1) == rho * Pow(rho, 0);
  }

  lemma LqElsewhere(rho: real, K: nat)
    requires rho >= 0.0 && rho != 1.0
    ensures 2.0 * Lq(rho, K) == Waiting(rho, K, K)
  {
    if K == 0 {
      NoPlace(rho);
      return;
    }
    var g, d := 1.0 - rho, 1.0 - Pow(rho, K + 1);
    FactorsNonZero(rho, K, g, d);
    var lq, w := 2.0 * Lq(rho, K), Waiting(rho, K, K);
    LqClosed(rho, K, g, d, lq);
    WaitingClosed(rho, K, K, g, d, w);
    Cancel(g, d, lq, w, Polynomial(rho, K));
  }

  /** Lq against the expected number waiting: equal at load 1, one half of it at every other load. */
  lemma LqIsHalf(rho: real, K: nat)
    requires rho >= 0.0
    ensures rho == 1.0 ==> Lq(rho, K) == Waiting(rho, K, K)
    ensures rho != 1.0 ==> 2.0 * Lq(rho, K) == Waiting(rho, K, K)
  {
    if rho == 1.0 {
      LqAtOne(K);
    } else {
      LqElsewhere(rho, K);
    }
  }

  lemma {:induction false} WaitingSign(rho: real, K: nat, n: nat)
    requires rho >= 0.0
    ensures Waiting(rho, K, n) >= 0.0
    ensures Waiting(rho, K, n) > 0.0 <==> rho > 0.0 && n >= 2
  {
    if n > 0 {
      WaitingSign(rho, K, n - 1);
      PkPositive(rho, K, n);
      var j, p := (n - 1) as real, Pk(rho, K, n);
      if rho > 0.0 {
        assert n >= 2 ==> j * p > 0.0;
      } else {
        assert Pow(rho, n) == 0.0;
        assert p * (1.0 - Pow(rho, K + 1)) == 0.0;
        assert p == 0.0;
      }
    }
  }

  /** The source's queue length is the expected number waiting exactly when the load is 1, or nobody
      can be waiting: no load, or at most one place. */
  lemma LqIsExactIff(rho: real, K: nat)
    requires rho >= 0.0
    ensures Lq(rho, K) == Waiting(rho, K, K) <==> rho == 1.0 || rho == 0.0 || K <= 1
  {
    LqIsHalf(rho, K);
    WaitingSign(rho, K, K);
  }
}
