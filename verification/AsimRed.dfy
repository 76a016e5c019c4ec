/** The RED operating point: the drop probability at which the delay of the thinned load is the
    average queue length that RED answers with that probability. */
module AsimRed {

  /** p is a drop probability that thins the load lambda below 1, and delay is that of a queue at the
      thinned load. */
  predicate Operating(lambda: real, p: real, delay: real) {
    0.0 <= p < 1.0 && lambda * (1.0 - p) < 1.0 && delay == lambda * (1.0 - p) / (1.0 - lambda * (1.0 - p))
  }

  /** RED answers an average queue length with p: no drops up to m, a straight line from m to M where
      p reaches P, and anything above P once the queue stands at M. */
  predicate Answers(m: real, M: real, P: real, queue: real, p: real)
    requires P > 0.0
  {
    && (p == 0.0 ==> queue <= m)
    && (0.0 < p <= P ==> queue == m + p * ((M - m) / P))
    && (P < p ==> queue == M)
  }

  class RedRouter {
    const minTh: real
    const maxTh: real
    const maxP: real
    var lambdaL: real
    var lambdaH: real

    ghost predicate Valid()
      reads this
    {
      && 0.0 <= minTh < maxTh && maxP > 0.0
      && lambdaL == minTh / (1.0 + minTh)
      && (maxP < 1.0 ==> lambdaH == maxTh / (1.0 + maxTh) / (1.0 - maxP))
    }

    constructor (minTh: int, maxTh: int, maxP: real)
      requires 0 <= minTh < maxTh && maxP > 0.0
      ensures Valid() && this.minTh == minTh as real && this.maxTh == maxTh as real && this.maxP == maxP
      // lambdaL is the load whose queue stands at minTh, lambdaH the one that, thinned by maxP, stands at maxTh
      ensures lambdaL < 1.0 && lambdaL / (1.0 - lambdaL) == this.minTh
      ensures maxP < 1.0 ==> Operating(lambdaH, maxP, this.maxTh)
    {
      LowLimit(minTh as real);
      HighLimit(maxTh as real, maxP);
      this.minTh, this.maxTh, this.maxP := minTh as real, maxTh as real, maxP;
      // Populate
      lambdaL := minTh as real / (1.0 + minTh as real);
      lambdaH := if maxP < 1.0 then maxTh as real / (1.0 + maxTh as real) / (1.0 - maxP) else 0.0;
    }

    predicate InRamp(lambda: real)
      reads this
    {
      lambda > lambdaL && !(maxP < 1.0 && lambda > lambdaH)
    }

    /** `root` stands for the square root the middle regime takes. */
    method ComputeProbability(lambda: real, root: real) returns (p: real, delay: real)
      requires Valid() && lambda >= 0.0
      requires InRamp(lambda) ==> root >= 0.0 && root * root == Discriminant(minTh, maxTh, maxP, lambda)
      ensures Operating(lambda, p, delay) && Answers(minTh, maxTh, maxP, delay, p)
      // which of the three parts of the response the load leads to
      ensures p == 0.0 <==> lambda <= lambdaL
      ensures 0.0 < p <= maxP <==> InRamp(lambda)
    {
      if lambda <= lambdaL {
        p, delay := LowRegime(minTh, maxTh, maxP, lambda);
        return p, delay;
      }
      if maxP < 1.0 && lambda > lambdaH {
        p, delay := HighRegime(minTh, maxTh, maxP, lambda, lambdaH);
        return p, delay;
      }
      p, delay := MiddleRegime(minTh, maxTh, maxP, lambda, root);
    }
  }

  method LowRegime(m: real, ghost M: real, ghost P: real, lambda: real) returns (p: real, delay: real)
    requires P > 0.0 && m >= 0.0 && 0.0 <= lambda <= m / (1.0 + m)
    ensures p == 0.0 && Operating(lambda, p, delay) && Answers(m, M, P, delay, p)
  {
    LowLoad(m, lambda);
    p, delay := 0.0, lambda / (1.0 - lambda);
  }

  method HighRegime(ghost m: real, M: real, P: real, lambda: real, lambdaH: real) returns (p: real, delay: real)
    requires M > 0.0 && 0.0 < P < 1.0 && lambdaH == M / (1.0 + M) / (1.0 - P) && lambda > lambdaH
    ensures P < p && Operating(lambda, p, delay) && Answers(m, M, P, delay, p)
  {
    AboveNothing(M, P, lambdaH);
    delay := M;
    p := (lambda - lambdaH * (1.0 - P)) / lambda;
    HighLoad(M, P, lambda, lambdaH, p);
  }

  /** The larger root of the quadratic a p^2 + b p + c of the middle regime, and the delay there. */
  method MiddleRegime(m: real, M: real, P: real, lambda: real, root: real) returns (p: real, delay: real)
    requires 0.0 <= m < M && P > 0.0 && lambda > m / (1.0 + m)
    requires P < 1.0 ==> lambda <= M / (1.0 + M) / (1.0 - P)
    requires root >= 0.0 && root * root == Discriminant(m, M, P, lambda)
    ensures 0.0 < p <= P && Operating(lambda, p, delay) && Answers(m, M, P, delay, p)
  {
    var a := lambda * (M - m) / P;
    var b := (M - m) * (1.0 - lambda) / P + m * lambda + lambda;
    var c := m * (1.0 - lambda) - lambda;
    RampQuadratic(m, M, P, lambda, root, a, b, c);
    p := (-b + root) / (2.0 * a);
    RampPoint(m, M, P, lambda, root, a, b, c, p);
    delay := lambda * (1.0 - p) / (1.0 - lambda * (1.0 - p));
  }

  /** b^2 - 4ac of the quadratic of the middle regime. */
  function Discriminant(m: real, M: real, P: real, lambda: real): real
    requires P > 0.0
  {
    var a := lambda * (M - m) / P;
    var b := (M - m) * (1.0 - lambda) / P + m * lambda + lambda;
    var c := m * (1.0 - lambda) - lambda;
    b * b - 4.0 * a * c
  }

  lemma LowLoad(m: real, l: real)
    requires m >= 0.0 && 0.0 <= l <= m / (1.0 + m)
    ensures l < 1.0 && Operating(l, 0.0, l / (1.0 - l)) && l / (1.0 - l) <= m
  {
    var q := m / (1.0 + m);
    assert q * (1.0 + m) == m;
    Products(q - l, 1.0 + m);
    assert m * (1.0 - l) >= l;
    var d := l / (1.0 - l);
    assert d * (1.0 - l) == l;
    if d > m {
      Products(d - m, 1.0 - l);
    }
  }

  /** The load whose queue stands at m. */
  lemma LowLimit(m: real)
    requires m >= 0.0
    ensures m / (1.0 + m) < 1.0 && m / (1.0 + m) / (1.0 - m / (1.0 + m)) == m
  {
    if m > 0.0 {
      Share(m, m / (1.0 + m));
      DelayIs(m / (1.0 + m), m);
    }
  }

  /** The load that, thinned by P, leaves the queue at M. */
  lemma HighLimit(M: real, P: real)
    requires M > 0.0 && P > 0.0
    ensures P < 1.0 ==> Operating(M / (1.0 + M) / (1.0 - P), P, M)
  {
    if P < 1.0 {
      var q := M / (1.0 + M);
      var h := q / (1.0 - P);
      assert h * (1.0 - P) == q;
      Share(M, q);
      DelayIs(q, M);
    }
  }

  lemma Positive(m: real, l: real)
    requires m >= 0.0 && l > m / (1.0 + m)
    ensures l > 0.0 && m * (1.0 - l) - l < 0.0
  {
    var q := m / (1.0 + m);
    assert q * (1.0 + m) == m;
    assert q >= 0.0;
    assert l * (1.0 + m) > q * (1.0 + m);
  }

  lemma RampLeading(w: real, P: real, l: real)
    requires w > 0.0 && P > 0.0 && l > 0.0
    ensures l * w / P > 0.0
  {
    assert l * w > 0.0;
    assert (l * w / P) * P == l * w;
  }

  lemma HighLoad(M: real, P: real, l: real, h: real, p: real)
    requires M > 0.0 && 0.0 < P < 1.0 && h == M / (1.0 + M) / (1.0 - P) && l > h && l > 0.0
    requires p == (l - h * (1.0 - P)) / l
    ensures P < p && Operating(l, p, M)
  {
    var q := M / (1.0 + M);
    Share(M, q);
    Thinned(P, l, h, p, q);
    assert M * (1.0 - q) == q;
    DelayIs(q, M);
  }

  lemma AboveNothing(M: real, P: real, h: real)
    requires M > 0.0 && 0.0 < P < 1.0 && h == M / (1.0 + M) / (1.0 - P)
    ensures h > 0.0
  {
    var q := M / (1.0 + M);
    Share(M, q);
    assert h * (1.0 - P) == q;
    OtherFactor(1.0 - P, h);
  }

  lemma Share(M: real, q: real)
    requires M > 0.0 && q == M / (1.0 + M)
    ensures q * (1.0 + M) == M && 0.0 < q < 1.0
  {
    OtherFactor(1.0 + M, q);
    OtherFactor(1.0 + M, 1.0 - q);
  }

  lemma Thinned(P: real, l: real, h: real, p: real, q: real)
    requires 0.0 < P < 1.0 && q > 0.0 && h == q / (1.0 - P) && l > h && l > 0.0
    requires p == (l - h * (1.0 - P)) / l
    ensures P < p < 1.0 && l * (1.0 - p) == q
  {
    assert h * (1.0 - P) == q;
    assert p * l == l - q;
    AboveLimit(P, l, h, p, q);
  }

  lemma AboveLimit(P: real, l: real, h: real, p: real, q: real)
    requires 0.0 < P < 1.0 && q > 0.0 && h * (1.0 - P) == q && l > h && l > 0.0 && p * l == l - q
    ensures P < p < 1.0 && l * (1.0 - p) == q
  {
    OtherFactor(l, 1.0 - p);
    Products(l - h, 1.0 - P);
    assert l * (p - P) == (l - h) * (1.0 - P);
    OtherFactor(l, p - P);
  }

  lemma Products(x: real, y: real)
    ensures x > 0.0 && y > 0.0 ==> x * y > 0.0
    ensures x >= 0.0 && y >= 0.0 ==> x * y >= 0.0
  {
  }

  lemma OtherFactor(x: real, y: real)
    requires x > 0.0 && x * y > 0.0
    ensures y > 0.0
  {
    if y <= 0.0 {
      Products(x, -y);
    }
  }

  ghost predicate IsRoot(a: real, b: real, c: real, s: real, p: real)
    requires a > 0.0
  {
    s >= 0.0 && s * s == b * b - 4.0 * a * c && p == (-b + s) / (2.0 * a)
  }

  /** The root of the quadratic that the source takes, written s = 2ap + b. */
  lemma RootSolves(a: real, b: real, c: real, s: real, p: real)
    requires a > 0.0 && IsRoot(a, b, c, s, p)
    ensures a * p * p + b * p + c == 0.0 && 2.0 * (a * p) + b == s
  {
    var ap := a * p;
    assert p * (2.0 * a) == s - b;
    assert ap == (s - b) / 2.0;
    assert 4.0 * (ap * ap) == (s - b) * (s - b);
    assert (s - b) * (s - b) == s * s - 2.0 * (s * b) + b * b;
    assert a * (a * p * p + b * p + c) == ap * ap + b * ap + a * c;
    assert b * ap == (s * b - b * b) / 2.0;
    Vanishes(a, a * p * p + b * p + c);
  }

  lemma Vanishes(a: real, x: real)
    requires a != 0.0 && a * x == 0.0
    ensures x == 0.0
  {
  }

  lemma LargerSquare(s: real, b: real)
    requires s >= 0.0 && s * s > b * b
    ensures s > b && s > -b
  {
    if b >= s {
      Products(b - s, b + s);
    }
    if -b >= s {
      Products(-b - s, s - b);
    }
  }

  /** The larger root is positive, and lies below every x > 0 at which the quadratic is positive,
      and at or below every x >= 0 at which it is not negative. */
  lemma RootPlace(a: real, b: real, c: real, s: real, p: real, x: real)
    requires a > 0.0 && c < 0.0 && IsRoot(a, b, c, s, p)
    requires x >= 0.0
    ensures p > 0.0
    ensures a * x * x + b * x + c > 0.0 ==> p < x
    ensures a * x * x + b * x + c >= 0.0 ==> p <= x
  {
    RootSolves(a, b, c, s, p);
    Products(a, -c);
    assert a * c == -(a * -c);
    LargerSquare(s, b);
    assert p * (2.0 * a) == s - b;
    OtherFactor(2.0 * a, p);
    // f(x) - f(p) == (x - p) (a (x + p) + b), and a p + b == -c / p > 0
    var k := a * (x + p) + b;
    assert a * x * x + b * x + c == (x - p) * k by {
      assert (x - p) * (a * (x + p) + b) == a * x * x - a * p * p + b * x - b * p;
    }
    var w := a * p + b;
    assert p * w == -c;
    if w <= 0.0 {
      Products(p, -w);
    }
    Products(a, x);
    assert k == a * x + w;
    if x < p {
      Products(p - x, k);
      assert (x - p) * k == -((p - x) * k);
    }
  }

  /** A load l1 whose queue has delay t: l1 == t (1 - l1). */
  lemma DelayIs(l1: real, t: real)
    requires l1 > 0.0 && t > 0.0 && t * (1.0 - l1) == l1
    ensures l1 < 1.0 && l1 / (1.0 - l1) == t
  {
    OtherFactor(t, 1.0 - l1);
    assert t * (1.0 - l1) / (1.0 - l1) == t;
  }

  /** The quadratic at x, with r the slope of the threshold t: t (1 - l (1 - x)) - l (1 - x). */
  lemma Quadratic(m: real, r: real, l: real, x: real, t: real)
    requires t == m + x * r
    ensures (l * r) * x * x + (r * (1.0 - l) + m * l + l) * x + (m * (1.0 - l) - l)
         == t * (1.0 - l * (1.0 - x)) - l * (1.0 - x)
  {
    var lx, y := l * x, 1.0 - l + l * x;
    assert l * (1.0 - x) == l - lx;
    assert (m + x * r) * y == m * y + (x * r) * y;
    assert m * y == m * (1.0 - l) + m * lx;
    assert (x * r) * y == (x * r) * (1.0 - l) + (x * r) * lx;
    assert (l * r) * x * x == (x * r) * lx;
    assert (r * (1.0 - l)) * x == (x * r) * (1.0 - l);
    assert m * lx == (m * l) * x;
  }

  /** In the middle regime, with the slope r of the threshold. */
  lemma RampRoot(m: real, r: real, l: real, s: real, p: real, a: real, b: real, c: real)
    requires m >= 0.0 && r > 0.0 && l > 0.0
    requires a == l * r && b == r * (1.0 - l) + m * l + l && c == m * (1.0 - l) - l
    requires a > 0.0 && c < 0.0 && IsRoot(a, b, c, s, p)
    ensures 0.0 < p < 1.0 && 0.0 < l * (1.0 - p) < 1.0
    ensures l * (1.0 - p) / (1.0 - l * (1.0 - p)) == m + p * r
  {
    Quadratic(m, r, l, 1.0, m + r);
    RootPlace(a, b, c, s, p, 1.0);
    RootSolves(a, b, c, s, p);
    Quadratic(m, r, l, p, m + p * r);
    Products(l, 1.0 - p);
    Products(p, r);
    DelayIs(l * (1.0 - p), m + p * r);
  }

  lemma BelowHigh(M: real, P: real, l: real)
    requires M > 0.0 && 0.0 < P < 1.0 && l <= M / (1.0 + M) / (1.0 - P)
    ensures M * (1.0 - l * (1.0 - P)) - l * (1.0 - P) >= 0.0
  {
    var q := M / (1.0 + M);
    assert q * (1.0 + M) == M;
    var h := q / (1.0 - P);
    assert h * (1.0 - P) == q;
    var z := l * (1.0 - P);
    Products(h - l, 1.0 - P);
    Products(q - z, 1.0 + M);
    assert z * (1.0 + M) <= q * (1.0 + M);
  }

  lemma RampBelow(m: real, M: real, P: real, r: real, l: real, s: real, p: real, a: real, b: real, c: real)
    requires 0.0 <= m < M && 0.0 < P < 1.0 && r * P == M - m && l <= M / (1.0 + M) / (1.0 - P)
    requires a == l * r && b == r * (1.0 - l) + m * l + l && c == m * (1.0 - l) - l
    requires a > 0.0 && c < 0.0 && IsRoot(a, b, c, s, p)
    ensures p <= P
  {
    BelowHigh(M, P, l);
    Quadratic(m, r, l, P, M);
    RootPlace(a, b, c, s, p, P);
  }

  lemma Slope(m: real, M: real, P: real, r: real)
    requires 0.0 <= m < M && P > 0.0 && r == (M - m) / P
    ensures r > 0.0 && r * P == M - m && m + P * r == M
  {
    OtherFactor(P, r);
  }

  lemma Ramp(m: real, M: real, P: real, r: real, l: real, s: real, p: real, a: real, b: real, c: real)
    requires 0.0 <= m < M && P > 0.0 && l > 0.0 && r > 0.0 && r * P == M - m
    requires a == l * r && b == r * (1.0 - l) + m * l + l && c == m * (1.0 - l) - l
    requires a > 0.0 && c < 0.0 && IsRoot(a, b, c, s, p)
    requires P < 1.0 ==> l <= M / (1.0 + M) / (1.0 - P)
    ensures 0.0 < p < 1.0 && p <= P && 0.0 < l * (1.0 - p) < 1.0
    ensures l * (1.0 - p) / (1.0 - l * (1.0 - p)) == m + p * r
  {
    RampRoot(m, r, l, s, p, a, b, c);
    if P < 1.0 {
      RampBelow(m, M, P, r, l, s, p, a, b, c);
    }
  }

  lemma RampQuadratic(m: real, M: real, P: real, l: real, root: real, a: real, b: real, c: real)
    requires 0.0 <= m < M && P > 0.0 && l > m / (1.0 + m) && root * root == Discriminant(m, M, P, l)
    requires a == l * (M - m) / P && b == (M - m) * (1.0 - l) / P + m * l + l && c == m * (1.0 - l) - l
    ensures l > 0.0 && a > 0.0 && c < 0.0 && root * root == b * b - 4.0 * a * c
  {
    Positive(m, l);
    RampLeading(M - m, P, l);
  }

  lemma RampCoefficients(m: real, M: real, P: real, l: real, r: real, a: real, b: real)
    requires 0.0 <= m < M && P > 0.0 && r == (M - m) / P
    requires a == l * (M - m) / P && b == (M - m) * (1.0 - l) / P + m * l + l
    ensures r > 0.0 && r * P == M - m && a == l * r && b == r * (1.0 - l) + m * l + l
  {
    Slope(m, M, P, r);
    Coefficients(M - m, P, r, l, m * l + l, a, b);
  }

  lemma RampPoint(m: real, M: real, P: real, l: real, root: real, a: real, b: real, c: real, p: real)
    requires 0.0 <= m < M && P > 0.0 && l > 0.0 && (P < 1.0 ==> l <= M / (1.0 + M) / (1.0 - P))
    requires a == l * (M - m) / P && b == (M - m) * (1.0 - l) / P + m * l + l && c == m * (1.0 - l) - l
    requires a > 0.0 && c < 0.0 && IsRoot(a, b, c, root, p)
    ensures 0.0 < p <= P && p < 1.0 && 0.0 < l * (1.0 - p) < 1.0
    ensures l * (1.0 - p) / (1.0 - l * (1.0 - p)) == m + p * ((M - m) / P)
  {
    var r := (M - m) / P;
    RampCoefficients(m, M, P, l, r, a, b);
    Ramp(m, M, P, r, l, root, p, a, b, c);
  }

  lemma Coefficients(w: real, P: real, r: real, l: real, k: real, a: real, b: real)
    requires P > 0.0 && r == w / P && a == l * w / P && b == w * (1.0 - l) / P + k
    ensures a == l * r && b == r * (1.0 - l) + k
  {
    OverP(l, w, P);
    OverP(1.0 - l, w, P);
  }

  lemma OverP(x: real, w: real, P: real)
    requires P > 0.0
    ensures x * w / P == x * (w / P) && w * x / P == (w / P) * x
  {
    var r := w / P;
    assert r * P == w;
    assert x * w == (x * r) * P;
    assert (x * r) * P / P == x * r;
  }

  lemma MoreDropsLessDelay(l: real, p: real, d: real, p': real, d': real)
    requires l >= 0.0 && p < p' && Operating(l, p, d) && Operating(l, p', d')
    ensures d' <= d && (l > 0.0 ==> d' < d) && d' >= 0.0
  {
    var x, x' := l * (1.0 - p), l * (1.0 - p');
    Products(l, p' - p);
    Products(l, 1.0 - p');
    DelayGrows(x', x, d', d);
  }

  lemma DelayGrows(x: real, y: real, d: real, e: real)
    requires 0.0 <= x <= y < 1.0 && d * (1.0 - x) == x && e * (1.0 - y) == y
    ensures 0.0 <= d <= e && (x < y ==> d < e)
  {
    NotNegative(1.0 - x, d);
    NotNegative(1.0 - y, e);
    // (e - d) (1 - x) == (y - x) (1 + e)
    Products(y - x, 1.0 + e);
    assert (e - d) * (1.0 - x) == (y - x) * (1.0 + e) by {
      assert e * (1.0 - x) == e * (1.0 - y) + e * (y - x);
    }
    NotNegative(1.0 - x, e - d);
  }

  lemma NotNegative(x: real, y: real)
    requires x > 0.0 && y * x >= 0.0
    ensures y >= 0.0 && (y * x > 0.0 ==> y > 0.0)
  {
    if y < 0.0 {
      Products(-y, x);
    }
  }

  lemma MoreDropsLongerQueue(m: real, M: real, P: real, p: real, d: real, p': real, d': real)
    requires 0.0 <= m < M && P > 0.0 && 0.0 <= p < p'
    requires Answers(m, M, P, d, p) && Answers(m, M, P, d', p')
    ensures d <= d' && d' > 0.0
  {
    var r := (M - m) / P;
    Slope(m, M, P, r);
    AnswerLine(m, M, P, r, d, p);
    AnswerLine(m, M, P, r, d', p');
    LineGrows(m, r, p, p');
    if p <= P {
      LineGrows(m, r, p, P);
    }
  }

  /** The answer as a line of slope r. */
  lemma AnswerLine(m: real, M: real, P: real, r: real, queue: real, p: real)
    requires P > 0.0 && r == (M - m) / P && p >= 0.0 && Answers(m, M, P, queue, p)
    ensures p == 0.0 ==> queue <= m
    ensures 0.0 < p <= P ==> queue == m + p * r
    ensures P < p ==> queue == M
  {
  }

  lemma LineGrows(m: real, r: real, p: real, q: real)
    requires m >= 0.0 && r > 0.0 && 0.0 <= p <= q
    ensures m <= m + p * r <= m + q * r && (q > 0.0 ==> m + q * r > 0.0)
  {
    Products(p, r);
    Products(q, r);
    Products(q - p, r);
  }

  /** There is one operating point at most: the one ComputeProbability returns. */
  lemma OperatingPointIsUnique(m: real, M: real, P: real, l: real, p: real, d: real, p': real, d': real)
    requires 0.0 <= m < M && P > 0.0 && l >= 0.0
    requires Operating(l, p, d) && Answers(m, M, P, d, p)
    requires Operating(l, p', d') && Answers(m, M, P, d', p')
    ensures p == p' && d == d'
  {
    if p < p' {
      MoreDropsLessDelay(l, p, d, p', d');
      MoreDropsLongerQueue(m, M, P, p, d, p', d');
    } else if p' < p {
      MoreDropsLessDelay(l, p', d', p, d);
      MoreDropsLongerQueue(m, M, P, p', d', p, d);
    }
  }
}
