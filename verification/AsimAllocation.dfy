/** The bandwidth allocator of asim: rounds that find the most congested link and scale the flows on
    it, over arrays that it changes in place. */
module AsimAllocation {
  import opened AsimFairness

  // ----- the state of the allocator as values -----

  /** The rates of the chosen flows, zero for the others. */
  function Only(x: seq<real>, chosen: seq<bool>): (r: seq<real>)
    requires |x| == |chosen|
    ensures |r| == |x|
    ensures forall i :: 0 <= i < |x| ==> r[i] == if chosen[i] then x[i] else 0.0
  {
    seq(|x|, i requires 0 <= i < |x| => if chosen[i] then x[i] else 0.0)
  }

  function Others(chosen: seq<bool>): (r: seq<bool>)
    ensures |r| == |chosen| && forall i :: 0 <= i < |r| ==> r[i] == !chosen[i]
  {
    seq(|chosen|, i requires 0 <= i < |chosen| => !chosen[i])
  }

  /** A round in progress: rates, which flows are settled, what is left of each link and what the
      unsettled flows on it still ask for; per settled flow the divisor it got and at which link. */
  datatype State = State(
    rate: seq<real>, scaled: seq<bool>, uc: seq<real>, utput: seq<real>, divisor: seq<real>, at: seq<nat>)

  ghost predicate Shaped(s: State, p: Problem) {
    && |s.rate| == |s.scaled| == |s.divisor| == |s.at| == |p.routes|
    && |s.uc| == |s.utput| == |p.cap|
  }

  /** uc is what the settled flows leave, utput what the others ask for. */
  ghost predicate Accounts(s: State, p: Problem)
    requires Shaped(s, p)
  {
    forall l :: 0 <= l < |p.cap| ==>
      && s.uc[l] == p.cap[l] - Load(Only(s.rate, s.scaled), p.routes, l)
      && s.utput[l] == Load(Only(s.rate, Others(s.scaled)), p.routes, l)
  }

  /** A normal flow has its demand until it is settled, then its demand over its divisor. */
  ghost predicate Priced(s: State, p: Problem)
    requires Shaped(s, p) && p.WellFormed()
  {
    forall i :: 0 <= i < |p.routes| ==>
      if p.isShort[i] then s.scaled[i] && s.rate[i] == p.demand[i]
      else if !s.scaled[i] then s.rate[i] == p.demand[i]
      else s.divisor[i] > 0.0 && s.rate[i] > 0.0 && s.rate[i] * s.divisor[i] == p.demand[i]
  }

  /** What is left of a link once the short flows have theirs. */
  ghost function Room(p: Problem, l: nat): real
    requires p.WellFormed() && l < |p.cap|
  {
    p.cap[l] - Load(Only(p.demand, p.isShort), p.routes, l)
  }

  /** Links with room stay at or above zero and are only used up when nobody asks; the others never
      have anything left. */
  ghost predicate Sound(s: State, p: Problem)
    requires Shaped(s, p) && p.WellFormed()
  {
    forall l :: 0 <= l < |p.cap| ==>
      if Room(p, l) > 0.0 then s.uc[l] >= 0.0 && (s.uc[l] == 0.0 ==> s.utput[l] == 0.0)
      else s.uc[l] <= 0.0
  }

  /** The link at which flow i was settled is used up, and every flow on it was settled there or
      earlier, with a divisor at least as large. */
  ghost predicate SettledAt(s: State, p: Problem, i: nat)
    requires Shaped(s, p) && p.WellFormed() && i < |p.routes|
  {
    && s.at[i] < |p.cap| && s.at[i] in p.routes[i] && Room(p, s.at[i]) > 0.0
    && s.uc[s.at[i]] == 0.0 && s.utput[s.at[i]] == 0.0
    && (forall j :: 0 <= j < |p.routes| && !p.isShort[j] && s.at[i] in p.routes[j] ==>
          s.scaled[j] && s.divisor[j] >= s.divisor[i])
  }

  ghost predicate Settled(s: State, p: Problem)
    requires Shaped(s, p) && p.WellFormed()
  {
    forall i :: 0 <= i < |p.routes| && !p.isShort[i] && s.scaled[i] ==> SettledAt(s, p, i)
  }

  /** Every divisor used so far is at least g. */
  ghost predicate DivisorsFrom(s: State, p: Problem, g: real)
    requires Shaped(s, p) && p.WellFormed()
  {
    forall i :: 0 <= i < |p.routes| && !p.isShort[i] && s.scaled[i] ==> s.divisor[i] >= g
  }

  ghost predicate RoundInv(s: State, p: Problem) {
    p.WellFormed() && Shaped(s, p) && Accounts(s, p) && Priced(s, p) && Sound(s, p) && Settled(s, p)
  }

  /** Settling flow t with divisor g at link b. */
  ghost function Scale(s: State, p: Problem, t: nat, g: real, b: nat): State
    requires Shaped(s, p) && t < |p.routes| && g > 0.0
  {
    var x := s.rate[t] / g;
    s.(rate := s.rate[t := x], scaled := s.scaled[t := true], divisor := s.divisor[t := g], at := s.at[t := b],
       uc := seq(|s.uc|, l requires 0 <= l < |s.uc| => s.uc[l] - Share(x, p.routes[t], l)),
       utput := seq(|s.utput|, l requires 0 <= l < |s.utput| => s.utput[l] - Share(s.rate[t], p.routes[t], l)))
  }

  lemma ShareOfQuotient(x: real, g: real, route: seq<nat>, l: nat)
    requires g > 0.0
    ensures Share(x / g, route, l) * g == Share(x, route, l)
    ensures x > 0.0 ==> Share(x / g, route, l) >= 0.0
  {
    var c := Crossings(route, l) as real;
    assert (x / g) * g == x;
    assert ((x / g) * c) * g == ((x / g) * g) * c;
  }

  lemma ShareNegates(x: real, route: seq<nat>, l: nat)
    ensures Share(-x, route, l) == -Share(x, route, l)
  {
  }

  lemma SlackStays(g: real, uc: real, utput: real, a: real, b: real)
    requires a * g == b
    ensures g * (uc - a) - (utput - b) == g * uc - utput
  {
  }

  lemma ScaleParts(s: State, p: Problem, t: nat, g: real, b: nat)
    requires Shaped(s, p) && t < |p.routes| && g > 0.0 && !s.scaled[t]
    ensures var s' := Scale(s, p, t, g, b);
            && Only(s'.rate, s'.scaled) == Only(s.rate, s.scaled)[t := s.rate[t] / g]
            && Only(s'.rate, Others(s'.scaled)) == Only(s.rate, Others(s.scaled))[t := 0.0]
  {
  }

  lemma ScaleLink(s: State, p: Problem, t: nat, g: real, b: nat, l: nat)
    requires Shaped(s, p) && t < |p.routes| && g > 0.0 && !s.scaled[t] && l < |p.cap|
    requires s.uc[l] == p.cap[l] - Load(Only(s.rate, s.scaled), p.routes, l)
    requires s.utput[l] == Load(Only(s.rate, Others(s.scaled)), p.routes, l)
    ensures var s' := Scale(s, p, t, g, b);
            && s'.uc[l] == p.cap[l] - Load(Only(s'.rate, s'.scaled), p.routes, l)
            && s'.utput[l] == Load(Only(s'.rate, Others(s'.scaled)), p.routes, l)
  {
    ScaleParts(s, p, t, g, b);
    LoadUpdate(Only(s.rate, s.scaled), p.routes, l, t, s.rate[t] / g);
    LoadUpdate(Only(s.rate, Others(s.scaled)), p.routes, l, t, 0.0);
  }

  lemma ScaleSlack(s: State, p: Problem, t: nat, g: real, b: nat, l: nat)
    requires Shaped(s, p) && t < |p.routes| && g > 0.0 && s.rate[t] > 0.0 && l < |p.cap|
    ensures var s' := Scale(s, p, t, g, b);
            g * s'.uc[l] - s'.utput[l] == g * s.uc[l] - s.utput[l] && s'.uc[l] <= s.uc[l]
  {
    ShareOfQuotient(s.rate[t], g, p.routes[t], l);
    SlackStays(g, s.uc[l], s.utput[l], Share(s.rate[t] / g, p.routes[t], l), Share(s.rate[t], p.routes[t], l));
  }

  lemma ScalePrice(s: State, p: Problem, t: nat, g: real, b: nat)
    requires p.WellFormed() && Shaped(s, p) && Priced(s, p)
    requires t < |p.routes| && g > 0.0 && !p.isShort[t] && !s.scaled[t]
    ensures Shaped(Scale(s, p, t, g, b), p) && Priced(Scale(s, p, t, g, b), p)
  {
    var x := s.rate[t] / g;
    assert x * g == s.rate[t] && x > 0.0;
  }

  /** Settling one flow keeps the accounts, and leaves g * uc - utput of every link as it was. */
  lemma ScaleKeepsAccounts(s: State, p: Problem, t: nat, g: real, b: nat)
    requires p.WellFormed() && Shaped(s, p) && Accounts(s, p) && Priced(s, p)
    requires t < |p.routes| && g > 0.0 && !p.isShort[t] && !s.scaled[t]
    ensures var s' := Scale(s, p, t, g, b);
            && Shaped(s', p) && Accounts(s', p) && Priced(s', p)
            && forall l :: 0 <= l < |p.cap| ==>
                 g * s'.uc[l] - s'.utput[l] == g * s.uc[l] - s.utput[l] && s'.uc[l] <= s.uc[l]
  {
    ScalePrice(s, p, t, g, b);
    forall l | 0 <= l < |p.cap|
      ensures var s' := Scale(s, p, t, g, b);
              && s'.uc[l] == p.cap[l] - Load(Only(s'.rate, s'.scaled), p.routes, l)
              && s'.utput[l] == Load(Only(s'.rate, Others(s'.scaled)), p.routes, l)
              && g * s'.uc[l] - s'.utput[l] == g * s.uc[l] - s.utput[l] && s'.uc[l] <= s.uc[l]
    {
      ScaleLink(s, p, t, g, b, l);
      ScaleSlack(s, p, t, g, b, l);
    }
  }

  // ----- a round -----

  /** Link b is the most congested: its ratio g is positive and no link with room has a larger one. */
  ghost predicate MostCongestedIs(s: State, p: Problem, b: nat, g: real)
    requires Shaped(s, p) && p.WellFormed()
  {
    && b < |p.cap| && g > 0.0 && s.uc[b] > 0.0 && s.utput[b] == g * s.uc[b]
    && NoRatioAbove(s, p, g)
  }

  /** In the middle of the round that began in s0 and settles the flows on b with divisor g. */
  ghost predicate Scaling(s: State, s0: State, p: Problem, b: nat, g: real)
    requires p.WellFormed()
  {
    && Shaped(s, p) && Shaped(s0, p) && Accounts(s, p) && Priced(s, p)
    && (forall l :: 0 <= l < |p.cap| ==> g * s.uc[l] - s.utput[l] == g * s0.uc[l] - s0.utput[l] && s.uc[l] <= s0.uc[l])
    && (forall i :: 0 <= i < |p.routes| ==>
          if s0.scaled[i] then s.scaled[i] && s.divisor[i] == s0.divisor[i] && s.at[i] == s0.at[i]
          else s.scaled[i] ==> s.divisor[i] == g && s.at[i] == b && b in p.routes[i])
  }

  lemma ScalingNext(s: State, s0: State, p: Problem, b: nat, g: real, t: nat)
    requires p.WellFormed() && Scaling(s, s0, p, b, g) && g > 0.0
    requires t < |p.routes| && b in p.routes[t] && !p.isShort[t] && !s.scaled[t]
    ensures Scaling(Scale(s, p, t, g, b), s0, p, b, g)
  {
    ScaleKeepsAccounts(s, p, t, g, b);
  }

  lemma UnsettledAsk(s: State, p: Problem, l: nat)
    requires p.WellFormed() && Shaped(s, p) && Accounts(s, p) && Priced(s, p) && l < |p.cap|
    ensures s.utput[l] >= 0.0
    ensures s.utput[l] == 0.0 <==> forall j :: 0 <= j < |p.routes| && l in p.routes[j] ==> s.scaled[j]
  {
    var x := Only(s.rate, Others(s.scaled));
    NoLoadNoFlow(x, p.routes, l);
    if forall j :: 0 <= j < |p.routes| && l in p.routes[j] ==> s.scaled[j] {
      NoFlowNoLoad(x, p.routes, l);
    }
    if s.utput[l] == 0.0 {
      forall j | 0 <= j < |p.routes| && l in p.routes[j]
        ensures s.scaled[j]
      {
        assert x[j] == 0.0;
      }
    }
  }

  lemma SlackAtZero(g: real, uc: real)
    requires g > 0.0 && g * uc - 0.0 == 0.0
    ensures uc == 0.0
  {
  }

  /** Once every flow on a link is settled, and its slack is nothing, the link is used up. */
  lemma LinkUsedUp(s: State, s0: State, p: Problem, b: nat, g: real, l: nat)
    requires p.WellFormed() && Scaling(s, s0, p, b, g) && g > 0.0 && l < |p.cap|
    requires s0.utput[l] == g * s0.uc[l]
    requires forall j :: 0 <= j < |p.routes| && l in p.routes[j] ==> s.scaled[j]
    ensures s.uc[l] == 0.0 && s.utput[l] == 0.0
  {
    UnsettledAsk(s, p, l);
    SlackAtZero(g, s.uc[l]);
  }

  lemma StillSettled(s: State, s0: State, p: Problem, b: nat, g: real, i: nat)
    requires RoundInv(s0, p) && Scaling(s, s0, p, b, g) && g > 0.0
    requires i < |p.routes| && !p.isShort[i] && s0.scaled[i]
    ensures SettledAt(s, p, i)
  {
    assert SettledAt(s0, p, i);
    var l := s0.at[i];
    assert forall j :: 0 <= j < |p.routes| && l in p.routes[j] ==> s.scaled[j] by {
      UnsettledAsk(s0, p, l);
    }
    LinkUsedUp(s, s0, p, b, g, l);
  }

  lemma NewlySettled(s: State, s0: State, p: Problem, b: nat, g: real, i: nat)
    requires RoundInv(s0, p) && Scaling(s, s0, p, b, g) && MostCongestedIs(s0, p, b, g) && DivisorsFrom(s0, p, g)
    requires forall j :: 0 <= j < |p.routes| && b in p.routes[j] ==> s.scaled[j]
    requires i < |p.routes| && !p.isShort[i] && s.scaled[i] && !s0.scaled[i]
    ensures SettledAt(s, p, i)
  {
    LinkUsedUp(s, s0, p, b, g, b);
    forall j | 0 <= j < |p.routes| && !p.isShort[j] && b in p.routes[j]
      ensures s.scaled[j] && s.divisor[j] >= s.divisor[i]
    {
      assert s0.scaled[j] ==> s0.divisor[j] >= g;
    }
  }

  lemma SlackKeepsSign(g: real, uc: real, utput: real, uc0: real, utput0: real)
    requires g > 0.0 && utput0 <= g * uc0 && utput >= 0.0 && g * uc - utput == g * uc0 - utput0
    ensures utput <= g * uc && uc >= 0.0 && (uc == 0.0 ==> utput == 0.0)
  {
    SignOfFactor(g, uc);
  }

  lemma SignOfFactor(g: real, uc: real)
    requires g > 0.0 && g * uc >= 0.0
    ensures uc >= 0.0
  {
  }

  /** A finished round keeps the invariant, uses up its link, and leaves no ratio above its own. */
  lemma RoundKeepsInv(s: State, s0: State, p: Problem, b: nat, g: real)
    requires RoundInv(s0, p) && Scaling(s, s0, p, b, g) && MostCongestedIs(s0, p, b, g) && DivisorsFrom(s0, p, g)
    requires forall j :: 0 <= j < |p.routes| && b in p.routes[j] ==> s.scaled[j]
    ensures RoundInv(s, p) && s.uc[b] == 0.0 && DivisorsFrom(s, p, g) && NoRatioAbove(s, p, g)
  {
    LinkUsedUp(s, s0, p, b, g, b);
    forall i | 0 <= i < |p.routes| && !p.isShort[i] && s.scaled[i]
      ensures SettledAt(s, p, i)
    {
      if s0.scaled[i] {
        StillSettled(s, s0, p, b, g, i);
      } else {
        NewlySettled(s, s0, p, b, g, i);
      }
    }
    forall l | 0 <= l < |p.cap|
      ensures if Room(p, l) > 0.0
              then s.uc[l] >= 0.0 && (s.uc[l] == 0.0 ==> s.utput[l] == 0.0) && s.utput[l] <= g * s.uc[l]
              else s.uc[l] <= 0.0
    {
      UnsettledAsk(s, p, l);
      if Room(p, l) > 0.0 {
        SlackKeepsSign(g, s.uc[l], s.utput[l], s0.uc[l], s0.utput[l]);
      }
    }
  }

  /** How many flows are not settled. */
  function Unsettled(scaled: seq<bool>): nat {
    if scaled == [] then 0 else (if scaled[0] then 0 else 1) + Unsettled(scaled[1..])
  }

  lemma {:induction false} UnsettledFalls(a: seq<bool>, b: seq<bool>)
    requires |a| == |b| && forall i :: 0 <= i < |a| && a[i] ==> b[i]
    ensures Unsettled(b) <= Unsettled(a)
    ensures (exists i :: 0 <= i < |a| && b[i] && !a[i]) ==> Unsettled(b) < Unsettled(a)
  {
    if a != [] {
      assert forall i :: 0 <= i < |a| - 1 ==> a[1..][i] == a[i + 1] && b[1..][i] == b[i + 1];
      UnsettledFalls(a[1..], b[1..]);
      if i :| 0 <= i < |a| && b[i] && !a[i] {
        if i > 0 {
          assert b[1..][i - 1] && !a[1..][i - 1];
        }
      }
    }
  }

  /** The most congested link is asked for something, so a round settles someone. */
  lemma AskedByOne(s: State, p: Problem, b: nat, g: real) returns (j: nat)
    requires p.WellFormed() && Shaped(s, p) && Accounts(s, p) && Priced(s, p) && b < |p.cap|
    requires g > 0.0 && s.uc[b] > 0.0 && s.utput[b] == g * s.uc[b]
    ensures j < |p.routes| && b in p.routes[j] && !s.scaled[j]
  {
    UnsettledAsk(s, p, b);
    PositiveProduct(g, s.uc[b]);
    j :| 0 <= j < |p.routes| && b in p.routes[j] && !s.scaled[j];
  }

  lemma SettlingStays(s0: State, p: Problem, b: nat, g: real, s: State)
    requires p.WellFormed() && Scaling(s, s0, p, b, g)
    ensures |s.scaled| == |s0.scaled| && forall i :: 0 <= i < |s.scaled| && s0.scaled[i] ==> s.scaled[i]
  {
  }

  lemma SomeoneAsked(s0: State, p: Problem, b: nat, g: real, s: State)
    requires RoundInv(s0, p) && Scaling(s, s0, p, b, g) && MostCongestedIs(s0, p, b, g)
    requires forall j :: 0 <= j < |p.routes| && b in p.routes[j] ==> s.scaled[j]
    ensures Unsettled(s.scaled) < Unsettled(s0.scaled)
  {
    var j := AskedByOne(s0, p, b, g);
    assert s.scaled[j] && !s0.scaled[j];
    SettlingStays(s0, p, b, g, s);
    UnsettledFalls(s0.scaled, s.scaled);
  }

  /** No link with room is asked for more than g times what it has left. */
  ghost predicate NoRatioAbove(s: State, p: Problem, g: real)
    requires Shaped(s, p) && p.WellFormed()
  {
    forall l :: 0 <= l < |p.cap| && Room(p, l) > 0.0 ==> s.utput[l] <= g * s.uc[l]
  }

  /** The first n of these flows are settled. */
  ghost predicate SettledUpTo(scaled: seq<bool>, flows: seq<nat>, n: nat) {
    n <= |flows| && forall k :: 0 <= k < n ==> flows[k] < |scaled| && scaled[flows[k]]
  }

  lemma SettledMore(before: seq<bool>, after: seq<bool>, flows: seq<nat>, n: nat)
    requires SettledUpTo(before, flows, n) && n < |flows| && flows[n] < |after| == |before| && after[flows[n]]
    requires forall j :: 0 <= j < |before| && before[j] ==> after[j]
    ensures SettledUpTo(after, flows, n + 1)
  {
  }

  lemma RoundDone(s: State, s0: State, p: Problem, b: nat, g: real, flows: seq<nat>)
    requires RoundInv(s0, p) && Scaling(s, s0, p, b, g) && MostCongestedIs(s0, p, b, g) && DivisorsFrom(s0, p, g)
    requires forall j :: 0 <= j < |p.routes| && b in p.routes[j] ==> j in flows
    requires SettledUpTo(s.scaled, flows, |flows|)
    ensures RoundInv(s, p) && s.uc[b] == 0.0 && DivisorsFrom(s, p, g) && NoRatioAbove(s, p, g)
    ensures Unsettled(s.scaled) < Unsettled(s0.scaled)
  {
    RoundKeepsInv(s, s0, p, b, g);
    SomeoneAsked(s0, p, b, g, s);
  }

  /** With only the short flows settled, the rounds can begin. */
  lemma RoundsBegin(s: State, p: Problem)
    requires p.WellFormed() && Shaped(s, p) && s.rate == p.demand && s.scaled == p.isShort
    requires forall l :: 0 <= l < |p.cap| ==>
               s.uc[l] == Room(p, l) && s.utput[l] == Load(Only(p.demand, Others(p.isShort)), p.routes, l)
    ensures RoundInv(s, p) && forall g :: DivisorsFrom(s, p, g)
  {
  }

  lemma QuotientBound(a: real, b: real, g: real)
    requires b > 0.0
    ensures a / b <= g <==> a <= g * b
    ensures (a / b) * b == a
  {
    assert (a / b) * b == a;
    if a / b <= g {
      assert (a / b) * b <= g * b;
    } else {
      assert (a / b) * b > g * b;
    }
  }

  /** What the search for the most congested link has found. */
  lemma CongestionFound(s: State, p: Problem, bneck: int, g: real)
    requires RoundInv(s, p) && -1 <= bneck < |p.cap|
    requires bneck == -1 ==> g == 0.0
    requires bneck >= 0 ==> g > 0.0 && s.uc[bneck] != 0.0 && g == s.utput[bneck] / s.uc[bneck]
    requires forall l :: 0 <= l < |p.cap| && s.uc[l] != 0.0 ==> s.utput[l] / s.uc[l] <= g
    ensures bneck == -1 ==> Calm(s, p)
    ensures bneck >= 0 ==> MostCongestedIs(s, p, bneck, g)
  {
    forall l | 0 <= l < |p.cap| && s.uc[l] > 0.0
      ensures s.utput[l] <= g * s.uc[l]
    {
      QuotientBound(s.utput[l], s.uc[l], g);
    }
    if bneck >= 0 {
      UnsettledAsk(s, p, bneck);
      PositiveQuotient(s.utput[bneck], s.uc[bneck]);
      QuotientBound(s.utput[bneck], s.uc[bneck], g);
    }
  }

  lemma PositiveQuotient(a: real, b: real)
    requires a >= 0.0 && b != 0.0 && a / b > 0.0
    ensures b > 0.0
  {
    var q := a / b;
    assert q * b == a;
  }

  /** The ratios of successive rounds never rise. */
  lemma RatiosFall(s: State, p: Problem, b: nat, last: real, g: real)
    requires RoundInv(s, p) && MostCongestedIs(s, p, b, g) && NoRatioAbove(s, p, last) && DivisorsFrom(s, p, last)
    ensures g <= last && DivisorsFrom(s, p, g)
  {
    assert Room(p, b) > 0.0;
    var c := s.uc[b];
    assert s.utput[b] <= last * c;
    assert s.utput[b] == g * c;
    FactorOrder(g, last, c);
  }

  lemma FactorOrder(a: real, b: real, c: real)
    requires c > 0.0 && a * c <= b * c
    ensures a <= b
  {
    Unscaled(a, b, c);
  }

  // ----- the result -----

  /** No link with anything left is asked for anything. */
  ghost predicate Calm(s: State, p: Problem)
    requires Shaped(s, p)
  {
    forall l :: 0 <= l < |p.cap| && s.uc[l] > 0.0 ==> s.utput[l] <= 0.0
  }

  /** Every link has room for the normal flows that cross it, or none cross it and the short ones fit. */
  ghost predicate Roomy(p: Problem)
    requires p.WellFormed()
  {
    forall l :: 0 <= l < |p.cap| ==> Room(p, l) > 0.0 || (Room(p, l) == 0.0 && NoNormalOn(p, l))
  }

  predicate NoNormalOn(p: Problem, l: nat)
    requires p.WellFormed()
  {
    forall i :: 0 <= i < |p.routes| && l in p.routes[i] ==> p.isShort[i]
  }

  /** Routes are links of the network, and none is empty. */
  predicate RoutesExist(p: Problem) {
    forall i :: 0 <= i < |p.routes| ==>
      p.routes[i] != [] && forall k :: 0 <= k < |p.routes[i]| ==> p.routes[i][k] < |p.cap|
  }

  /** A normal flow is settled if and only if it crosses a link with room. */
  lemma SettledIffRoom(s: State, p: Problem, i: nat)
    requires RoundInv(s, p) && Calm(s, p) && i < |p.routes| && !p.isShort[i]
    ensures s.scaled[i] <==> exists l :: 0 <= l < |p.cap| && l in p.routes[i] && Room(p, l) > 0.0
  {
    if s.scaled[i] {
      assert SettledAt(s, p, i);
    } else if l :| 0 <= l < |p.cap| && l in p.routes[i] && Room(p, l) > 0.0 {
      UnsettledAsk(s, p, l);
      assert false;
    }
  }

  lemma LoadSplits(s: State, p: Problem, l: nat)
    requires p.WellFormed() && Shaped(s, p) && Accounts(s, p) && l < |p.cap|
    ensures Load(s.rate, p.routes, l) == p.cap[l] - s.uc[l] + s.utput[l]
  {
    LoadAdds(Only(s.rate, s.scaled), Only(s.rate, Others(s.scaled)), s.rate, p.routes, l);
  }

  /** A link with room ends within its capacity. */
  lemma RoomSuffices(s: State, p: Problem, l: nat)
    requires RoundInv(s, p) && Calm(s, p) && l < |p.cap| && Room(p, l) > 0.0
    ensures Load(s.rate, p.routes, l) == p.cap[l] - s.uc[l] <= p.cap[l]
  {
    UnsettledAsk(s, p, l);
    LoadSplits(s, p, l);
  }

  /** A link without room ends within its capacity only if the short flows fill it exactly and no
      normal flow crosses it. */
  lemma NoRoomMeansExcess(s: State, p: Problem, l: nat)
    requires RoundInv(s, p) && l < |p.cap| && Room(p, l) <= 0.0
    ensures Load(s.rate, p.routes, l) <= p.cap[l] <==> Room(p, l) == 0.0 && NoNormalOn(p, l)
  {
    var short := Only(p.demand, p.isShort);
    LoadMonotone(short, s.rate, p.routes, l);
    if NoNormalOn(p, l) {
      LoadMonotone(s.rate, short, p.routes, l);
    } else {
      var i :| 0 <= i < |p.routes| && l in p.routes[i] && !p.isShort[i];
      assert short[i] < s.rate[i];
    }
  }

  /** All links are within capacity exactly when the problem is roomy. */
  lemma WithinCapacityIffRoomy(s: State, p: Problem)
    requires RoundInv(s, p) && Calm(s, p)
    ensures (forall l :: 0 <= l < |p.cap| ==> Load(s.rate, p.routes, l) <= p.cap[l]) <==> Roomy(p)
  {
    forall l | 0 <= l < |p.cap|
      ensures Load(s.rate, p.routes, l) <= p.cap[l] <==> Room(p, l) > 0.0 || (Room(p, l) == 0.0 && NoNormalOn(p, l))
    {
      if Room(p, l) > 0.0 {
        RoomSuffices(s, p, l);
      } else {
        NoRoomMeansExcess(s, p, l);
      }
    }
  }

  lemma RatioOrder(rg: real, dg: real, wg: real, rf: real, df: real, wf: real)
    requires rg > 0.0 && rf > 0.0 && rg * dg == wg && rf * df == wf && dg >= df
    ensures rg * wf <= rf * wg
  {
    var both := rg * rf;
    assert both > 0.0;
    assert rg * wf == both * df;
    assert rf * wg == both * dg;
    assert both * df <= both * dg;
  }

  lemma SettledOrder(s: State, p: Problem, f: nat, l: nat)
    requires p.WellFormed() && Shaped(s, p) && Priced(s, p) && f < |p.routes| && !p.isShort[f] && s.scaled[f]
    requires SettledAt(s, p, f) && l == s.at[f]
    ensures forall g :: 0 <= g < |p.routes| && l in p.routes[g] && !p.isShort[g] ==> NoLarger(s.rate, p.demand, g, f)
  {
    forall g | 0 <= g < |p.routes| && l in p.routes[g] && !p.isShort[g]
      ensures NoLarger(s.rate, p.demand, g, f)
    {
      PricedOrder(s, p, f, g);
    }
  }

  lemma PricedOrder(s: State, p: Problem, f: nat, g: nat)
    requires p.WellFormed() && Shaped(s, p) && Priced(s, p) && f < |p.routes| && g < |p.routes|
    requires !p.isShort[f] && s.scaled[f] && !p.isShort[g] && s.scaled[g] && s.divisor[g] >= s.divisor[f]
    ensures NoLarger(s.rate, p.demand, g, f)
  {
    RatioOrder(s.rate[g], s.divisor[g], p.demand[g], s.rate[f], s.divisor[f], p.demand[f]);
  }

  lemma SettledLoad(s: State, p: Problem, f: nat)
    requires RoundInv(s, p) && Calm(s, p) && f < |p.routes| && !p.isShort[f] && s.scaled[f]
    ensures s.at[f] < |p.cap| && s.at[f] in p.routes[f] && Load(s.rate, p.routes, s.at[f]) == p.cap[s.at[f]]
    ensures SettledAt(s, p, f)
  {
    assert SettledAt(s, p, f);
    RoomSuffices(s, p, s.at[f]);
  }

  /** The link at which a flow was settled is its bottleneck. */
  lemma SettledMeansBottleneck(s: State, p: Problem, f: nat)
    requires RoundInv(s, p) && Calm(s, p) && f < |p.routes| && !p.isShort[f] && s.scaled[f]
    ensures HasBottleneck(s.rate, p, f)
  {
    SettledLoad(s, p, f);
    SettledOrder(s, p, f, s.at[f]);
    assert Bottleneck(s.rate, p, f, s.at[f]);
  }

  /** Every normal flow that was settled has a bottleneck, roomy problem or not. */
  lemma SettledHaveBottlenecks(s: State, p: Problem)
    requires RoundInv(s, p) && Calm(s, p)
    ensures forall i :: 0 <= i < |p.routes| && !p.isShort[i] && s.scaled[i] ==> HasBottleneck(s.rate, p, i)
  {
    forall i | 0 <= i < |p.routes| && !p.isShort[i] && s.scaled[i]
      ensures HasBottleneck(s.rate, p, i)
    {
      SettledMeansBottleneck(s, p, i);
    }
  }

  /** The allocation the rounds end with is weighted max-min fair exactly when the problem is roomy. */
  lemma FairIffRoomy(s: State, p: Problem)
    requires RoundInv(s, p) && Calm(s, p) && RoutesExist(p)
    ensures MaxMinFair(s.rate, p) <==> Roomy(p)
  {
    WithinCapacityIffRoomy(s, p);
    if Roomy(p) {
      assert Feasible(s.rate, p);
      forall f | 0 <= f < |p.routes| && !p.isShort[f]
        ensures HasBottleneck(s.rate, p, f)
      {
        var l := p.routes[f][0];
        assert l in p.routes[f] && Room(p, l) > 0.0;
        SettledIffRoom(s, p, f);
        SettledMeansBottleneck(s, p, f);
      }
      BottlenecksMakeFair(s.rate, p);
    }
  }

  /** What the rounds have achieved when no link is asked for anything it has. */
  lemma Outcome(s: State, p: Problem)
    requires RoundInv(s, p) && Calm(s, p) && RoutesExist(p)
    ensures MaxMinFair(s.rate, p) <==> Roomy(p)
    ensures (forall l :: 0 <= l < |p.cap| ==> Load(s.rate, p.routes, l) <= p.cap[l]) <==> Roomy(p)
    ensures forall i :: 0 <= i < |p.routes| && !p.isShort[i] ==>
              (s.scaled[i] <==> exists l :: 0 <= l < |p.cap| && l in p.routes[i] && Room(p, l) > 0.0)
    ensures forall i :: 0 <= i < |p.routes| && (p.isShort[i] || !s.scaled[i]) ==> s.rate[i] == p.demand[i]
  {
    FairIffRoomy(s, p);
    WithinCapacityIffRoomy(s, p);
    forall i | 0 <= i < |p.routes| && !p.isShort[i]
      ensures s.scaled[i] <==> exists l :: 0 <= l < |p.cap| && l in p.routes[i] && Room(p, l) > 0.0
    {
      SettledIffRoom(s, p, i);
    }
  }

  // ----- the arrays -----

  class Asim {
    const adj: seq<seq<nat>>      // the links of each connection
    const isSflow: seq<bool>
    const mu: seq<real>
    const theflows: seq<seq<nat>> // the connections over each link
    const pTput: array<real>
    const scaled: array<bool>
    const uc: array<real>
    const utput: array<real>
    const tlambda: array<real>
    const lambda: array<real>
    const plambda: array<real>
    ghost var divisor: seq<real>
    ghost var at: seq<nat>

    /** Sizes agree, and theflows names for each link exactly the connections that cross it. */
    ghost predicate Valid()
      reads this
    {
      && |isSflow| == |adj| == pTput.Length == scaled.Length == |divisor| == |at|
      && |theflows| == |mu| == uc.Length == utput.Length == tlambda.Length == lambda.Length == plambda.Length
      && (forall i, k :: 0 <= i < |adj| && 0 <= k < |adj[i]| ==> adj[i][k] < |mu|)
      && (forall i :: 0 <= i < |adj| ==> adj[i] != [])
      && (forall l, k :: 0 <= l < |mu| && 0 <= k < |theflows[l]| ==> theflows[l][k] < |adj| && l in adj[theflows[l][k]])
      && (forall i, l :: 0 <= i < |adj| && 0 <= l < |mu| && l in adj[i] ==> i in theflows[l])
      && uc != utput && uc != pTput && uc != tlambda && uc != lambda && uc != plambda
      && utput != pTput && utput != tlambda && utput != lambda && utput != plambda
      && pTput != tlambda && pTput != lambda && pTput != plambda
      && tlambda != lambda && tlambda != plambda && lambda != plambda
    }

    ghost function Now(): State
      reads this, pTput, scaled, uc, utput
    {
      State(pTput[..], scaled[..], uc[..], utput[..], divisor, at)
    }

    /** The capacities the allocator aims at: five per cent above the service rates. */
    function Capacities(): (c: seq<real>)
      ensures |c| == |mu| && forall l :: 0 <= l < |mu| ==> c[l] == mu[l] * 1.05
    {
      seq(|mu|, l requires 0 <= l < |mu| => mu[l] * 1.05)
    }

    ghost function Asked(demand: seq<real>): Problem {
      Problem(adj, Capacities(), isSflow, demand)
    }

    /** Adds x to the entry of a for every hop of a route. */
    method AddAlong(a: array<real>, x: real, route: seq<nat>)
      requires forall k :: 0 <= k < |route| ==> route[k] < a.Length
      modifies a
      ensures forall l :: 0 <= l < a.Length ==> a[l] == old(a[l]) + Share(x, route, l)
    {
      for j := 0 to |route|
        invariant forall l :: 0 <= l < a.Length ==> a[l] == old(a[l]) + Share(x, route[..j], l)
      {
        forall l | 0 <= l < a.Length
          ensures Share(x, route[..j + 1], l) == Share(x, route[..j], l) + (if route[j] == l then x else 0.0)
        {
          ShareAppend(x, route, j, l);
        }
        a[route[j]] := a[route[j]] + x;
      }
      assert route[..|route|] == route;
    }

    method ResetLinks()
      requires Valid()
      modifies uc, utput
      ensures Valid() && forall k :: 0 <= k < |mu| ==> uc[k] == mu[k] * 1.05 && utput[k] == 0.0
    {
      for l := 0 to |mu|
        invariant forall k :: 0 <= k < l ==> uc[k] == mu[k] * 1.05 && utput[k] == 0.0
      {
        uc[l] := mu[l] * 1.05;
        utput[l] := 0.0;
      }
    }

    /** Enters connection i: a short flow takes its rate off its links, a normal one asks for it. */
    method EnterFlow(i: nat)
      requires Valid() && i < |adj|
      modifies uc, utput, scaled
      ensures scaled[..] == old(scaled[..])[i := isSflow[i]]
      ensures forall l :: 0 <= l < |mu| ==>
                && uc[l] == old(uc[l]) - Share(if isSflow[i] then pTput[i] else 0.0, adj[i], l)
                && utput[l] == old(utput[l]) + Share(if isSflow[i] then 0.0 else pTput[i], adj[i], l)
    {
      scaled[i] := isSflow[i];
      if isSflow[i] {
        AddAlong(uc, -pTput[i], adj[i]);
        forall l | 0 <= l < |mu|
          ensures Share(-pTput[i], adj[i], l) == -Share(pTput[i], adj[i], l)
        {
          ShareNegates(pTput[i], adj[i], l);
        }
      } else {
        AddAlong(utput, pTput[i], adj[i]);
      }
    }

    /** The first two loops of newupdate: capacities, and what short and normal flows ask of them. */
    method Start()
      requires Valid()
      modifies uc, utput, scaled
      ensures Valid() && pTput[..] == old(pTput[..]) && scaled[..] == isSflow
      ensures var p := Asked(pTput[..]);
              forall l :: 0 <= l < |mu| ==>
                && uc[l] == p.cap[l] - Load(Only(p.demand, p.isShort), adj, l)
                && utput[l] == Load(Only(p.demand, Others(p.isShort)), adj, l)
    {
      ResetLinks();
      ghost var short, normal := Only(pTput[..], isSflow), Only(pTput[..], Others(isSflow));
      for i := 0 to |adj|
        invariant pTput[..] == old(pTput[..])
        invariant forall k :: 0 <= k < i ==> scaled[..][k] == isSflow[k]
        invariant forall l :: 0 <= l < |mu| ==>
                    && uc[l] == mu[l] * 1.05 - Load(short[..i], adj[..i], l)
                    && utput[l] == Load(normal[..i], adj[..i], l)
      {
        forall l | 0 <= l < |mu|
          ensures Load(short[..i + 1], adj[..i + 1], l) == Load(short[..i], adj[..i], l) + Share(short[i], adj[i], l)
          ensures Load(normal[..i + 1], adj[..i + 1], l) == Load(normal[..i], adj[..i], l) + Share(normal[i], adj[i], l)
        {
          LoadAppend(short, adj, i, l);
          LoadAppend(normal, adj, i, l);
        }
        EnterFlow(i);
      }
      assert short[..|adj|] == short && normal[..|adj|] == normal && adj[..|adj|] == adj;
    }

    /** The search for the most congested link: -1 if no link is asked for anything it has. */
    method MostCongested() returns (bneck: int, maxgamma: real)
      requires Valid()
      ensures -1 <= bneck < |mu|
      ensures bneck == -1 ==> maxgamma == 0.0
      ensures bneck >= 0 ==> maxgamma > 0.0 && uc[bneck] != 0.0 && maxgamma == utput[bneck] / uc[bneck]
      ensures forall l :: 0 <= l < |mu| && uc[l] != 0.0 ==> utput[l] / uc[l] <= maxgamma
    {
      bneck, maxgamma := -1, 0.0;
      for i := 0 to |mu|
        invariant -1 <= bneck < i
        invariant bneck == -1 ==> maxgamma == 0.0
        invariant bneck >= 0 ==> maxgamma > 0.0 && uc[bneck] != 0.0 && maxgamma == utput[bneck] / uc[bneck]
        invariant forall l :: 0 <= l < i && uc[l] != 0.0 ==> utput[l] / uc[l] <= maxgamma
      {
        if uc[i] != 0.0 {
          var t := utput[i] / uc[i];
          if t > maxgamma {
            bneck := i;
            maxgamma := t;
          }
        }
      }
    }

    /** Settles connection t: its rate is divided, and taken off all its links. */
    method ScaleFlow(t: nat, maxgamma: real, ghost bneck: nat, ghost demand: seq<real>)
      requires Valid() && t < |adj| && maxgamma > 0.0
      modifies this`divisor, this`at, pTput, scaled, uc, utput
      ensures Valid() && Now() == Scale(old(Now()), Asked(demand), t, maxgamma, bneck)
    {
      ghost var s, p := Now(), Asked(demand);
      pTput[t] := pTput[t] / maxgamma;
      scaled[t] := true;
      divisor, at := divisor[t := maxgamma], at[t := bneck];
      AddAlong(uc, -pTput[t], adj[t]);
      assert pTput[t] * maxgamma == s.rate[t];
      AddAlong(utput, -(pTput[t] * maxgamma), adj[t]);
      ghost var s' := Scale(s, p, t, maxgamma, bneck);
      forall l | 0 <= l < |mu|
        ensures uc[l] == s'.uc[l] && utput[l] == s'.utput[l]
      {
        ShareNegates(pTput[t], adj[t], l);
        ShareNegates(s.rate[t], adj[t], l);
      }
      assert pTput[..] == s'.rate && scaled[..] == s'.scaled && uc[..] == s'.uc && utput[..] == s'.utput;
    }

    /** Settles connection t unless it is a short flow or settled already. */
    method SettleIfNeeded(t: nat, maxgamma: real, ghost bneck: nat, ghost demand: seq<real>, ghost s0: State)
      requires Valid() && Asked(demand).WellFormed() && Scaling(Now(), s0, Asked(demand), bneck, maxgamma)
      requires t < |adj| && bneck in adj[t] && maxgamma > 0.0
      modifies this`divisor, this`at, pTput, scaled, uc, utput
      ensures Valid() && Scaling(Now(), s0, Asked(demand), bneck, maxgamma) && Now().scaled[t]
      ensures forall j :: 0 <= j < |adj| && old(Now()).scaled[j] ==> Now().scaled[j]
    {
      if !isSflow[t] && !scaled[t] {
        ScalingNext(Now(), s0, Asked(demand), bneck, maxgamma, t);
        ScaleFlow(t, maxgamma, bneck, demand);
      }
    }

    /** The loop of a round over the connections of the most congested link. */
    method SettleAll(bneck: nat, maxgamma: real, ghost demand: seq<real>, ghost s0: State)
      requires Valid() && Asked(demand).WellFormed() && Scaling(Now(), s0, Asked(demand), bneck, maxgamma)
      requires bneck < |mu| && maxgamma > 0.0
      modifies this`divisor, this`at, pTput, scaled, uc, utput
      ensures Valid() && Scaling(Now(), s0, Asked(demand), bneck, maxgamma)
      ensures SettledUpTo(Now().scaled, theflows[bneck], |theflows[bneck]|)
    {
      ghost var flows := theflows[bneck];
      for i := 0 to |theflows[bneck]|
        invariant Valid() && Scaling(Now(), s0, Asked(demand), bneck, maxgamma)
        invariant SettledUpTo(Now().scaled, flows, i)
      {
        ghost var before := Now().scaled;
        SettleIfNeeded(theflows[bneck][i], maxgamma, bneck, demand, s0);
        SettledMore(before, Now().scaled, flows, i);
      }
    }

    /** One round: settles every unsettled normal flow on the most congested link. */
    method ScaleBottleneck(bneck: nat, maxgamma: real, ghost demand: seq<real>)
      requires Valid() && RoundInv(Now(), Asked(demand))
      requires MostCongestedIs(Now(), Asked(demand), bneck, maxgamma) && DivisorsFrom(Now(), Asked(demand), maxgamma)
      modifies this`divisor, this`at, pTput, scaled, uc, utput
      ensures Valid() && RoundInv(Now(), Asked(demand)) && DivisorsFrom(Now(), Asked(demand), maxgamma)
      ensures NoRatioAbove(Now(), Asked(demand), maxgamma)
      ensures Unsettled(Now().scaled) < Unsettled(old(Now()).scaled)
    {
      ghost var s0, p := Now(), Asked(demand);
      SettleAll(bneck, maxgamma, demand, s0);
      ghost var s := Now();
      RoundDone(s, s0, p, bneck, maxgamma, theflows[bneck]);
      uc[bneck] := 0.0;
      assert uc[..] == s.uc;
    }

    /** The rounds: until no link with anything left is asked for anything. */
    method Rounds(ghost demand: seq<real>)
      requires Valid() && RoundInv(Now(), Asked(demand)) && forall g :: DivisorsFrom(Now(), Asked(demand), g)
      modifies this`divisor, this`at, pTput, scaled, uc, utput
      ensures Valid() && RoundInv(Now(), Asked(demand)) && Calm(Now(), Asked(demand))
    {
      ghost var p := Asked(demand);
      var bneck, maxgamma := MostCongested();
      CongestionFound(Now(), p, bneck, maxgamma);
      while bneck != -1
        invariant Valid() && RoundInv(Now(), p) && -1 <= bneck < |mu|
        invariant bneck >= 0 ==> MostCongestedIs(Now(), p, bneck, maxgamma) && DivisorsFrom(Now(), p, maxgamma)
        invariant bneck == -1 ==> Calm(Now(), p)
        decreases bneck != -1, Unsettled(Now().scaled)
      {
        ghost var last := maxgamma;
        ScaleBottleneck(bneck, maxgamma, demand);
        bneck, maxgamma := MostCongested();
        CongestionFound(Now(), p, bneck, maxgamma);
        if bneck != -1 {
          RatiosFall(Now(), p, bneck, last, maxgamma);
          assert maxgamma <= last;
        }
      }
    }

    /** The whole allocation. Normal flows must ask for something; links may be too small. */
    method NewUpdate(niter: int)
      requires Valid() && Asked(pTput[..]).WellFormed()
      modifies this, pTput, scaled, uc, utput, lambda, plambda, tlambda
      ensures Valid()
      // the rates are the weighted max-min fair ones, unless some link cannot hold what crosses it
      ensures var p := Asked(old(pTput[..])); MaxMinFair(pTput[..], p) <==> Roomy(p)
      // a normal flow is settled exactly when it crosses a link with room; the others keep their rate
      ensures var p := Asked(old(pTput[..]));
              forall i :: 0 <= i < |adj| && !isSflow[i] ==>
                (scaled[..][i] <==> exists l :: 0 <= l < |mu| && l in adj[i] && Room(p, l) > 0.0)
      // each settled one has a bottleneck: a full link on which no normal flow fares better
      ensures var p := Asked(old(pTput[..]));
              forall i :: 0 <= i < |adj| && !isSflow[i] && scaled[..][i] ==> HasBottleneck(pTput[..], p, i)
      ensures forall i :: 0 <= i < |adj| && (isSflow[i] || !scaled[..][i]) ==> pTput[..][i] == old(pTput[..])[i]
      // the first update sets the load of every link, which is within 1.05 mu everywhere exactly if roomy
      ensures niter == 0 ==> forall l :: 0 <= l < |mu| ==> lambda[..][l] == Load(pTput[..], adj, l)
      ensures niter == 0 ==>
                ((forall l :: 0 <= l < |mu| ==> lambda[..][l] <= mu[l] * 1.05) <==> Roomy(Asked(old(pTput[..]))))
      // a later one moves it half way to the load, or to 1.1 mu if that is less, and keeps what it was
      ensures plambda[..] == old(lambda[..])
      ensures niter != 0 ==> forall l :: 0 <= l < |mu| ==> var load, tk := Load(pTput[..], adj, l), mu[l] * 1.1;
                lambda[..][l] == (old(lambda[..])[l] + if load > tk then tk else load) / 2.0
    {
      ghost var demand, p := pTput[..], Asked(pTput[..]);
      Start();
      RoundsBegin(Now(), p);
      Rounds(demand);
      Outcome(Now(), p);
      SettledHaveBottlenecks(Now(), p);
      Update(niter);
    }

    /** tlambda becomes the load of every link; with flag set only unsettled flows count. */
    method UpdateHelper(flag: bool)
      requires Valid()
      modifies tlambda
      ensures Valid()
      ensures var counted := if flag then Only(pTput[..], Others(scaled[..])) else pTput[..];
              forall l :: 0 <= l < |mu| ==> tlambda[l] == Load(counted, adj, l)
    {
      for l := 0 to |mu|
        invariant forall k :: 0 <= k < l ==> tlambda[k] == 0.0
      {
        tlambda[l] := 0.0;
      }
      ghost var counted := if flag then Only(pTput[..], Others(scaled[..])) else pTput[..];
      for i := 0 to |adj|
        invariant forall l :: 0 <= l < |mu| ==> tlambda[l] == Load(counted[..i], adj[..i], l)
      {
        forall l | 0 <= l < |mu|
          ensures Load(counted[..i + 1], adj[..i + 1], l)
               == Load(counted[..i], adj[..i], l) + Share(counted[i], adj[i], l)
        {
          LoadAppend(counted, adj, i, l);
        }
        if !flag || !scaled[i] {
          AddAlong(tlambda, pTput[i], adj[i]);
        }
      }
      assert counted[..|adj|] == counted && adj[..|adj|] == adj;
    }

    /** Update: the first time lambda is the new load, later a damped one. */
    method Update(niter: int)
      requires Valid()
      modifies tlambda, lambda, plambda
      ensures Valid() && plambda[..] == old(lambda[..])
      ensures forall l :: 0 <= l < |mu| ==> var load, tk := Load(pTput[..], adj, l), mu[l] * 1.1;
                lambda[l] == if niter == 0 then load
                             else if load > tk then (old(lambda[l]) + tk) / 2.0
                             else (load + old(lambda[l])) / 2.0
    {
      UpdateHelper(false);
      ghost var x := pTput[..];
      for i := 0 to |mu|
        invariant pTput[..] == x && forall l :: 0 <= l < |mu| ==> tlambda[l] == Load(x, adj, l)
        invariant forall l :: 0 <= l < i ==> plambda[l] == old(lambda[l])
        invariant forall l :: i <= l < |mu| ==> lambda[l] == old(lambda[l])
        invariant forall l :: 0 <= l < i ==> var load, tk := tlambda[l], mu[l] * 1.1;
                    lambda[l] == if niter == 0 then load
                                 else if load > tk then (old(lambda[l]) + tk) / 2.0
                                 else (load + old(lambda[l])) / 2.0
      {
        plambda[i] := lambda[i];
        var t;
        var tk := mu[i] * 1.1;
        if niter != 0 {
          if tlambda[i] > tk {
            t := (lambda[i] + tk) / 2.0;
          } else {
            t := (tlambda[i] + lambda[i]) / 2.0;
          }
        } else {
          t := tlambda[i];
        }
        lambda[i] := t;
      }
    }
  }
}
