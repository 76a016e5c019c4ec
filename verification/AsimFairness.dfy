/** Weighted max-min fairness of rates on a network, over exact reals: what it says, why a
    bottleneck for every flow implies it, and why only one allocation has it. */
module AsimFairness {

  /** How often a route crosses a link. */
  function Crossings(route: seq<nat>, l: nat): nat {
    if route == [] then 0 else (if route[0] == l then 1 else 0) + Crossings(route[1..], l)
  }

  lemma {:induction false} CrossesIffOn(route: seq<nat>, l: nat)
    ensures Crossings(route, l) > 0 <==> l in route
  {
    if route != [] {
      CrossesIffOn(route[1..], l);
      assert l in route <==> route[0] == l || l in route[1..];
    }
  }

  /** What rate x on a route adds to the load of a link. */
  function Share(x: real, route: seq<nat>, l: nat): real {
    x * (Crossings(route, l) as real)
  }

  /** The load of a link when flow i sends at rate x[i]. */
  function Load(x: seq<real>, routes: seq<seq<nat>>, l: nat): real
    requires |x| == |routes|
  {
    if x == [] then 0.0
    else Share(x[0], routes[0], l) + Load(x[1..], routes[1..], l)
  }

  lemma {:induction false} LoadUpdate(x: seq<real>, routes: seq<seq<nat>>, l: nat, t: nat, v: real)
    requires |x| == |routes| && t < |x|
    ensures Load(x[t := v], routes, l) == Load(x, routes, l) + Share(v, routes[t], l) - Share(x[t], routes[t], l)
  {
    if t == 0 {
      assert x[t := v][1..] == x[1..];
    } else {
      assert x[t := v][1..] == x[1..][t - 1 := v];
      LoadUpdate(x[1..], routes[1..], l, t - 1, v);
    }
  }

  lemma {:induction false} CrossingsAppend(route: seq<nat>, k: nat, l: nat)
    requires k < |route|
    ensures Crossings(route[..k + 1], l) == Crossings(route[..k], l) + (if route[k] == l then 1 else 0)
  {
    if k == 0 {
      assert route[..1][1..] == [];
    } else {
      assert route[..k + 1][1..] == route[1..][..k] && route[..k][1..] == route[1..][..k - 1];
      CrossingsAppend(route[1..], k - 1, l);
    }
  }

  /** One more hop of a route adds its rate once more to that link. */
  lemma ShareAppend(x: real, route: seq<nat>, k: nat, l: nat)
    requires k < |route|
    ensures Share(x, route[..k + 1], l) == Share(x, route[..k], l) + (if route[k] == l then x else 0.0)
  {
    CrossingsAppend(route, k, l);
  }

  /** One more flow adds its share to the load. */
  lemma {:induction false} LoadAppend(x: seq<real>, routes: seq<seq<nat>>, k: nat, l: nat)
    requires |x| == |routes| && k < |x|
    ensures Load(x[..k + 1], routes[..k + 1], l) == Load(x[..k], routes[..k], l) + Share(x[k], routes[k], l)
  {
    if k == 0 {
      assert x[..1][1..] == [] && routes[..1][1..] == [];
    } else {
      assert x[..k + 1][1..] == x[1..][..k] && x[..k][1..] == x[1..][..k - 1];
      assert routes[..k + 1][1..] == routes[1..][..k] && routes[..k][1..] == routes[1..][..k - 1];
      LoadAppend(x[1..], routes[1..], k - 1, l);
    }
  }

  lemma ShareMonotone(a: real, b: real, route: seq<nat>, l: nat)
    requires Crossings(route, l) > 0 ==> a <= b
    ensures Share(a, route, l) <= Share(b, route, l)
    ensures Crossings(route, l) > 0 && a < b ==> Share(a, route, l) < Share(b, route, l)
  {
    var c := Crossings(route, l) as real;
    assert c >= 0.0 && (Crossings(route, l) > 0 <==> c > 0.0);
    Scaled(a, b, c);
    assert Share(a, route, l) == a * c;
    assert Share(b, route, l) == b * c;
  }

  lemma Scaled(a: real, b: real, c: real)
    requires c >= 0.0
    ensures a <= b ==> a * c <= b * c
    ensures a < b && c > 0.0 ==> a * c < b * c
    ensures c == 0.0 ==> a * c == b * c == 0.0
  {
    assert (b - a) * c == b * c - a * c;
    PositiveProduct(b - a, c);
  }

  lemma PositiveProduct(x: real, c: real)
    requires c >= 0.0
    ensures x >= 0.0 ==> x * c >= 0.0
    ensures x > 0.0 && c > 0.0 ==> x * c > 0.0
  {
  }

  /** Raising rates on a link raises its load, strictly if one rises. */
  lemma {:induction false} LoadMonotone(x: seq<real>, y: seq<real>, routes: seq<seq<nat>>, l: nat)
    requires |x| == |y| == |routes|
    requires forall i :: 0 <= i < |x| && l in routes[i] ==> x[i] <= y[i]
    ensures Load(x, routes, l) <= Load(y, routes, l)
    ensures (exists i :: 0 <= i < |x| && l in routes[i] && x[i] < y[i]) ==> Load(x, routes, l) < Load(y, routes, l)
  {
    if x != [] {
      CrossesIffOn(routes[0], l);
      ShareMonotone(x[0], y[0], routes[0], l);
      assert forall i :: 0 <= i < |x| - 1 ==>
          x[1..][i] == x[i + 1] && y[1..][i] == y[i + 1] && routes[1..][i] == routes[i + 1];
      LoadMonotone(x[1..], y[1..], routes[1..], l);
      if i :| 0 <= i < |x| && l in routes[i] && x[i] < y[i] {
        if i > 0 {
          assert x[1..][i - 1] < y[1..][i - 1] && l in routes[1..][i - 1];
        }
      }
    }
  }

  /** A load of zero means that no flow with a positive rate crosses the link. */
  lemma {:induction false} NoLoadNoFlow(x: seq<real>, routes: seq<seq<nat>>, l: nat)
    requires |x| == |routes| && forall i :: 0 <= i < |x| ==> x[i] >= 0.0
    ensures Load(x, routes, l) >= 0.0
    ensures Load(x, routes, l) == 0.0 ==> forall i :: 0 <= i < |x| && l in routes[i] ==> x[i] == 0.0
  {
    if x != [] {
      var x1, r1 := x[1..], routes[1..];
      assert forall i :: 0 <= i < |x1| ==> x1[i] == x[i + 1] && r1[i] == routes[i + 1];
      NoLoadNoFlow(x1, r1, l);
      CrossesIffOn(routes[0], l);
      ShareMonotone(0.0, x[0], routes[0], l);
      if Load(x, routes, l) == 0.0 {
        forall i | 0 <= i < |x| && l in routes[i]
          ensures x[i] == 0.0
        {
          if i > 0 {
            assert x1[i - 1] == 0.0;
          }
        }
      }
    }
  }

  lemma {:induction false} NoFlowNoLoad(x: seq<real>, routes: seq<seq<nat>>, l: nat)
    requires |x| == |routes| && forall i :: 0 <= i < |x| && l in routes[i] ==> x[i] == 0.0
    ensures Load(x, routes, l) == 0.0
  {
    if x != [] {
      CrossesIffOn(routes[0], l);
      assert forall i :: 0 <= i < |x| - 1 ==> x[1..][i] == x[i + 1] && routes[1..][i] == routes[i + 1];
      NoFlowNoLoad(x[1..], routes[1..], l);
    }
  }

  lemma {:induction false} LoadAdds(x: seq<real>, y: seq<real>, z: seq<real>, routes: seq<seq<nat>>, l: nat)
    requires |x| == |y| == |z| == |routes| && forall i :: 0 <= i < |x| ==> z[i] == x[i] + y[i]
    ensures Load(z, routes, l) == Load(x, routes, l) + Load(y, routes, l)
  {
    if x != [] {
      LoadAdds(x[1..], y[1..], z[1..], routes[1..], l);
    }
  }

  // ----- fairness -----

  /** Flow i asks for demand[i] over routes[i]; a short flow gets what it asks for, whatever that is. */
  datatype Problem = Problem(routes: seq<seq<nat>>, cap: seq<real>, isShort: seq<bool>, demand: seq<real>)
  {
    ghost predicate WellFormed() {
      && |isShort| == |routes| && |demand| == |routes|
      && (forall i :: 0 <= i < |routes| && !isShort[i] ==> demand[i] > 0.0)
    }
  }

  /** Short flows get their demand, the others something non-negative, and no link is overloaded. */
  ghost predicate Feasible(x: seq<real>, p: Problem)
    requires p.WellFormed()
  {
    && |x| == |p.routes|
    && (forall i :: 0 <= i < |x| ==> if p.isShort[i] then x[i] == p.demand[i] else x[i] >= 0.0)
    && (forall l :: 0 <= l < |p.cap| ==> Load(x, p.routes, l) <= p.cap[l])
  }

  /** The ratio of rate to demand of g is no larger than that of f. */
  predicate NoLarger(x: seq<real>, w: seq<real>, g: nat, f: nat)
    requires |x| == |w| && g < |x| && f < |x|
  {
    x[g] * w[f] <= x[f] * w[g]
  }

  /** No feasible allocation gives f more without giving less to a flow whose ratio is no larger. */
  ghost predicate MaxMinFair(x: seq<real>, p: Problem)
    requires p.WellFormed()
  {
    && Feasible(x, p)
    && (forall y, f :: Feasible(y, p) && 0 <= f < |x| && y[f] > x[f] ==> Pays(x, y, p.demand, f))
  }

  ghost predicate Pays(x: seq<real>, y: seq<real>, w: seq<real>, f: nat)
    requires |x| == |y| == |w| && f < |x|
  {
    exists g :: 0 <= g < |x| && y[g] < x[g] && NoLarger(x, w, g, f)
  }

  /** Link l is full, f crosses it, and no normal flow on it has a larger ratio than f. */
  ghost predicate Bottleneck(x: seq<real>, p: Problem, f: nat, l: nat)
    requires p.WellFormed() && |x| == |p.routes| && f < |x|
  {
    && l < |p.cap| && l in p.routes[f] && Load(x, p.routes, l) == p.cap[l]
    && (forall g :: 0 <= g < |x| && l in p.routes[g] && !p.isShort[g] ==> NoLarger(x, p.demand, g, f))
  }

  ghost predicate HasBottleneck(x: seq<real>, p: Problem, f: nat)
    requires p.WellFormed() && |x| == |p.routes| && f < |x|
  {
    exists l: nat :: Bottleneck(x, p, f, l)
  }

  /** If every normal flow has a bottleneck, the allocation is weighted max-min fair. */
  lemma BottlenecksMakeFair(x: seq<real>, p: Problem)
    requires p.WellFormed() && Feasible(x, p)
    requires forall f :: 0 <= f < |x| && !p.isShort[f] ==> HasBottleneck(x, p, f)
    ensures MaxMinFair(x, p)
  {
    forall y, f | Feasible(y, p) && 0 <= f < |x| && y[f] > x[f]
      ensures Pays(x, y, p.demand, f)
    {
      assert HasBottleneck(x, p, f);
      var l: nat :| Bottleneck(x, p, f, l);
      if forall g :: 0 <= g < |x| && l in p.routes[g] ==> x[g] <= y[g] {
        LoadMonotone(x, y, p.routes, l);
        assert false;
      } else {
        var g :| 0 <= g < |x| && l in p.routes[g] && x[g] > y[g];
        assert NoLarger(x, p.demand, g, f);
      }
    }
  }

  // ----- uniqueness -----

  function Lower(x: seq<real>, y: seq<real>, i: nat): real
    requires |x| == |y| && i < |x|
  {
    if x[i] <= y[i] then x[i] else y[i]
  }

  /** Among the flows before n on which x and y differ, one whose lower ratio is smallest. */
  ghost predicate Least(x: seq<real>, y: seq<real>, w: seq<real>, n: nat, f: nat)
    requires |x| == |y| == |w| && n <= |x|
  {
    && f < n && x[f] != y[f]
    && (forall i :: 0 <= i < n && x[i] != y[i] ==> Lower(x, y, f) * w[i] <= Lower(x, y, i) * w[f])
  }

  lemma CrossTransitive(a: real, u: real, b: real, v: real, c: real, w: real)
    requires u > 0.0 && v > 0.0 && w > 0.0 && a * v <= b * u && b * w <= c * v
    ensures a * w <= c * u
  {
    Scaled(a * v, b * u, w);
    Scaled(b * w, c * v, u);
    assert (a * v) * w == (a * w) * v && (b * u) * w == (b * w) * u && (c * v) * u == (c * u) * v;
    Unscaled(a * w, c * u, v);
  }

  lemma Unscaled(x: real, y: real, v: real)
    requires v > 0.0 && x * v <= y * v
    ensures x <= y
  {
    Scaled(y, x, v);
  }

  /** Flow m, being lower than f, is no higher than flow i, which f is no higher than. */
  lemma LowerStill(x: seq<real>, y: seq<real>, w: seq<real>, n: nat, f: nat, m: nat, i: nat)
    requires |x| == |y| == |w| && n <= |x| && Least(x, y, w, n, f) && i < n && m < |x|
    requires x[i] != y[i] && w[f] > 0.0 && w[i] > 0.0 && w[m] > 0.0
    requires Lower(x, y, m) * w[f] < Lower(x, y, f) * w[m]
    ensures Lower(x, y, m) * w[i] <= Lower(x, y, i) * w[m]
  {
    CrossTransitive(Lower(x, y, m), w[m], Lower(x, y, f), w[f], Lower(x, y, i), w[i]);
  }

  lemma LeastStays(x: seq<real>, y: seq<real>, w: seq<real>, m: nat, f: nat)
    requires |x| == |y| == |w| && m < |x| && Least(x, y, w, m, f)
    requires x[m] == y[m] || Lower(x, y, f) * w[m] <= Lower(x, y, m) * w[f]
    ensures Least(x, y, w, m + 1, f)
  {
  }

  lemma LeastMoves(x: seq<real>, y: seq<real>, w: seq<real>, m: nat, f: nat)
    requires |x| == |y| == |w| && m < |x| && Least(x, y, w, m, f) && x[m] != y[m]
    requires Lower(x, y, m) * w[f] < Lower(x, y, f) * w[m]
    requires forall i :: 0 <= i <= m && x[i] != y[i] ==> w[i] > 0.0
    ensures Least(x, y, w, m + 1, m)
  {
    forall i | 0 <= i < m && x[i] != y[i]
      ensures Lower(x, y, m) * w[i] <= Lower(x, y, i) * w[m]
    {
      LowerStill(x, y, w, m, f, m, i);
    }
  }

  lemma {:induction false} LeastExists(x: seq<real>, y: seq<real>, w: seq<real>, n: nat) returns (f: nat)
    requires |x| == |y| == |w| && n <= |x| && (forall i :: 0 <= i < n && x[i] != y[i] ==> w[i] > 0.0)
    requires exists i :: 0 <= i < n && x[i] != y[i]
    ensures Least(x, y, w, n, f)
  {
    var m := n - 1;
    if forall i :: 0 <= i < m ==> x[i] == y[i] {
      f := m;
    } else {
      f := LeastExists(x, y, w, m);
      if x[m] != y[m] && Lower(x, y, m) * w[f] < Lower(x, y, f) * w[m] {
        LeastMoves(x, y, w, m, f);
        f := m;
      } else {
        LeastStays(x, y, w, m, f);
      }
    }
  }

  lemma NotBothFair(x: seq<real>, y: seq<real>, p: Problem, f: nat)
    requires p.WellFormed() && MaxMinFair(x, p) && Feasible(y, p) && Least(x, y, p.demand, |x|, f)
    ensures !(x[f] < y[f])
  {
    if x[f] < y[f] {
      assert Pays(x, y, p.demand, f);
      var g :| 0 <= g < |x| && y[g] < x[g] && NoLarger(x, p.demand, g, f);
      LeastBelow(x, y, p.demand, f, g);
    }
  }

  lemma LeastBelow(x: seq<real>, y: seq<real>, w: seq<real>, f: nat, g: nat)
    requires |x| == |y| == |w| && Least(x, y, w, |x|, f) && x[f] < y[f]
    requires g < |x| && y[g] < x[g] && w[f] > 0.0
    ensures !NoLarger(x, w, g, f)
  {
    assert Lower(x, y, f) == x[f] && Lower(x, y, g) == y[g];
    ScaleLess(y[g], x[g], w[f]);
  }

  lemma ScaleLess(a: real, b: real, c: real)
    requires a < b && c > 0.0
    ensures a * c < b * c
  {
  }

  /** There is only one weighted max-min fair allocation. */
  lemma FairIsUnique(x: seq<real>, y: seq<real>, p: Problem)
    requires p.WellFormed() && MaxMinFair(x, p) && MaxMinFair(y, p)
    ensures x == y
  {
    if i :| 0 <= i < |x| && x[i] != y[i] {
      var f := LeastExists(x, y, p.demand, |x|);
      NotBothFair(x, y, p, f);
      LeastSymmetric(x, y, p.demand, f);
      NotBothFair(y, x, p, f);
    }
  }

  lemma LeastSymmetric(x: seq<real>, y: seq<real>, w: seq<real>, f: nat)
    requires |x| == |y| == |w| && Least(x, y, w, |x|, f)
    ensures Least(y, x, w, |y|, f)
  {
    forall i | 0 <= i < |x| && y[i] != x[i]
      ensures Lower(y, x, f) * w[i] <= Lower(y, x, i) * w[f]
    {
      assert Lower(y, x, f) == Lower(x, y, f) && Lower(y, x, i) == Lower(x, y, i);
    }
  }
}
