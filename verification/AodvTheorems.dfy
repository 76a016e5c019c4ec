/** The main results about AODV: what holds in every state of every run. */
module AodvTheorems {
  import opened AodvTypes
  import opened AodvHandlers
  import opened AodvSteps
  import opened AodvStepProofs
  import opened AodvNetwork
  import Pigeonhole

  /** No hop count carried in this run up to state t reaches infinity. */
  ghost predicate HopCountsFit(r: seq<Net>, t: nat) {
    forall k :: 0 <= k <= t && k < |r| ==> HopsFit(r[k])
  }

  lemma InitialInv(s: Net)
    requires Initial(s)
    ensures Inv(s)
  {
    forall i, d | IsNode(s, i)
      ensures RouteOk(s, i, d)
    {
      assert s.nodes[i].table == map[];
    }
  }

  /** No route is under repair: nothing marks one. */
  ghost predicate Unrepaired(s: Net) {
    forall i, d :: IsNode(s, i) ==> !Lookup(s.nodes[i], d).flag.InRepair?
  }

  lemma NextMarksNothing(s: Net, s': Net)
    requires Inv(s) && Unrepaired(s) && Next(s, s')
    ensures Unrepaired(s')
  {
    var i: nat, ev, env :| Enabled(s, i, ev) && s' == Step(s, i, ev, env);
    HandleIsStep(s, i, ev, env);
    var (n', out) := Handle(s.nodes[i], ev, env);
    forall j, d | IsNode(s', j)
      ensures !Lookup(s'.nodes[j], d).flag.InRepair?
    {
      if j == i {
        assert RouteStep(s.nodes[i], n', d, InboxOf(ev));
      }
    }
  }

  /** A run leaves every node without a route under repair, so that an entry is up exactly when its hop count is
      finite. */
  lemma {:induction false} RunMarksNothing(r: seq<Net>, k: nat)
    requires Run(r) && k < |r| && HopCountsFit(r, k)
    ensures Unrepaired(r[k])
  {
    if k > 0 {
      RunMarksNothing(r, k - 1);
      RunKeepsInv(r, k - 1);
      assert Follow(r, k - 1);
      NextMarksNothing(r[k - 1], r[k]);
    }
  }

  lemma NextKeepsInv(s: Net, s': Net)
    requires Inv(s) && Next(s, s') && (|s.nodes| <= MAX_NODES || HopsFit(s'))
    ensures Inv(s') && Grows(s, s')
  {
    var i, ev, env :| Enabled(s, i, ev) && s' == Step(s, i, ev, env);
    StepKeepsInv(s, i, ev, env);
  }

  /** Every state of a run satisfies the invariant, whatever the number of nodes, while hop counts fit;
      for a small network there is nothing to assume. */
  lemma {:induction false} RunKeepsInv(r: seq<Net>, k: nat)
    requires Run(r) && k < |r| && (|r[0].nodes| <= MAX_NODES || HopCountsFit(r, k))
    ensures Inv(r[k]) && |r[k].nodes| == |r[0].nodes|
  {
    if k == 0 {
      InitialInv(r[0]);
    } else {
      RunKeepsInv(r, k - 1);
      assert Follow(r, k - 1);
      assert HopCountsFit(r, k) ==> HopsFit(r[k]);
      NextKeepsInv(r[k - 1], r[k]);
    }
  }

  /** In a network of at most 224 nodes hop counts always fit. */
  lemma SmallNetworksFit(r: seq<Net>)
    requires Run(r) && |r[0].nodes| <= MAX_NODES
    ensures HopCountsFit(r, |r| - 1)
  {
    forall k, m, c | 0 <= k < |r| && m in r[k].msgs && Offers(m, c)
      ensures 1 <= c.hops < INFINITY2
    {
      RunKeepsInv(r, k);
      assert MsgOk(r[k], m) && ClaimOk(r[k], c);
    }
  }

  // ----- loop freedom -----

  /** A walk along next hops of up routes towards d; only its last node may be d itself. */
  ghost predicate Follows(s: Net, d: Addr, p: seq<Addr>) {
    && (forall k :: 0 <= k < |p| ==> IsNode(s, p[k]))
    && (forall k :: 0 <= k < |p| - 1 ==>
          p[k] != d && Lookup(s.nodes[p[k]], d).flag.Up? && p[k + 1] == Lookup(s.nodes[p[k]], d).nextHop)
  }

  /** Each hop of a walk ranks strictly better than every node before it. */
  lemma {:induction false} RankImproves(s: Net, d: Addr, p: seq<Addr>, j: nat, k: nat)
    requires Inv(s) && Follows(s, d, p) && j < k < |p|
    ensures Outranks(s, p[k], d, Seqno(s, p[j], d), Hops(s, p[j], d))
  {
    assert p[k - 1] != d;
    assert RouteOk(s, p[k - 1], d);
    assert p[k - 1 + 1] == Lookup(s.nodes[p[k - 1]], d).nextHop;
    if j < k - 1 {
      RankImproves(s, d, p, j, k - 1);
    }
  }

  /** Loop freedom: in every state of every run, with any number of nodes, as long as carried hop counts
      stay below infinity, following next hops of up routes towards any destination visits no node
      twice, and so ends within as many hops as there are nodes. */
  lemma LoopFreedom(r: seq<Net>, t: nat, d: Addr, p: seq<Addr>)
    requires Run(r) && HopCountsFit(r, t) && t < |r| && Follows(r[t], d, p)
    ensures forall j, k :: 0 <= j < k < |p| ==> p[j] != p[k]
    ensures |p| <= |r[0].nodes|
  {
    RunKeepsInv(r, t);
    forall j, k | 0 <= j < k < |p|
      ensures p[j] != p[k]
    {
      RankImproves(r[t], d, p, j, k);
    }
    Pigeonhole.DistinctBelow(p, |r[t].nodes|);
  }

  /** So a network of at most 224 nodes is free of loops without any assumption. */
  lemma SmallNetworksAreLoopFree(r: seq<Net>, t: nat, d: Addr, p: seq<Addr>)
    requires Run(r) && |r[0].nodes| <= MAX_NODES && t < |r| && Follows(r[t], d, p)
    ensures forall j, k :: 0 <= j < k < |p| ==> p[j] != p[k]
  {
    SmallNetworksFit(r);
    LoopFreedom(r, t, d, p);
  }

  /** A walk that cannot be extended has reached the destination, or a node without an up route. */
  lemma WalkEndsAtDestination(r: seq<Net>, t: nat, d: Addr, p: seq<Addr>)
    requires Run(r) && HopCountsFit(r, t) && t < |r| && p != [] && Follows(r[t], d, p)
    requires forall x :: !Follows(r[t], d, p + [x])
    ensures p[|p| - 1] == d || !Lookup(r[t].nodes[p[|p| - 1]], d).flag.Up?
  {
    RunKeepsInv(r, t);
    var s, last := r[t], p[|p| - 1];
    if last != d && Lookup(s.nodes[last], d).flag.Up? {
      assert RouteOk(s, last, d);
      FollowsOn(s, d, p, Lookup(s.nodes[last], d).nextHop);
    }
  }

  lemma FollowsOn(s: Net, d: Addr, p: seq<Addr>, x: Addr)
    requires p != [] && Follows(s, d, p) && p[|p| - 1] != d && IsNode(s, x)
    requires Lookup(s.nodes[p[|p| - 1]], d).flag.Up? && x == Lookup(s.nodes[p[|p| - 1]], d).nextHop
    ensures Follows(s, d, p + [x])
  {
    var q := p + [x];
    forall k | 0 <= k < |q| - 1
      ensures q[k] != d && Lookup(s.nodes[q[k]], d).flag.Up? && q[k + 1] == Lookup(s.nodes[q[k]], d).nextHop
    {
      if k < |p| - 1 {
        assert p[k + 1] == Lookup(s.nodes[p[k]], d).nextHop;
      }
    }
  }

  // ----- ranks over time -----

  /** What a node knows about a destination never gets worse, and no own number ever falls. */
  lemma {:induction false} RanksNeverWorsen(r: seq<Net>, t: nat, u: nat, i: Addr, d: Addr)
    requires Run(r) && HopCountsFit(r, u) && t <= u < |r| && IsNode(r[0], i)
    ensures IsNode(r[t], i) && IsNode(r[u], i)
    ensures AtLeast(Seqno(r[u], i, d), Hops(r[u], i, d), Seqno(r[t], i, d), Hops(r[t], i, d))
    ensures var e, e' := Lookup(r[t].nodes[i], d), Lookup(r[u].nodes[i], d);
            AtLeast(e'.seqno, e'.hops, e.seqno, e.hops)
    decreases u - t
  {
    NodesStay(r, t);
    NodesStay(r, u);
    if t < u {
      RanksNeverWorsen(r, t, u - 1, i, d);
      assert Grows(r[u - 1], r[u]) by {
        RunKeepsInv(r, u - 1);
        assert Follow(r, u - 1);
        NextKeepsInv(r[u - 1], r[u]);
      }
    }
  }

  lemma NodesStay(r: seq<Net>, t: nat)
    requires Run(r) && HopCountsFit(r, t) && t < |r|
    ensures |r[t].nodes| == |r[0].nodes|
  {
    RunKeepsInv(r, t);
  }

  /** Every request or reply in flight offers a route strictly worse than its last sender's own
      entry, numbered by its destination, with a hop count no byte overflow has touched. */
  lemma FlightClaimsAreBacked(r: seq<Net>, t: nat, m: Msg, c: Claim)
    requires Run(r) && HopCountsFit(r, t) && t < |r| && m in r[t].msgs && Offers(m, c)
    ensures IsNode(r[t], c.via) && IsNode(r[t], c.dst)
    ensures Outranks(r[t], c.via, c.dst, c.seqno, c.hops)
    ensures c.seqno % 2 == 0 && c.seqno <= r[t].nodes[c.dst].seqno
    ensures 1 <= c.hops <= NETWORK_DIAMETER + |r[0].nodes|
  {
    RunKeepsInv(r, t);
    assert MsgOk(r[t], m) && ClaimOk(r[t], c);
    ChainBoundsHops(r[t], c.dst, c.seqno, c.hops);
  }

  // ----- sequence numbers -----

  /** Sequence number authorship: an own number is even; no entry, request or error anywhere carries
      a number for d above d's own number plus one; up entries are even and down entries odd or 0. */
  lemma NumbersAreAuthored(r: seq<Net>, t: nat, i: Addr, d: Addr)
    requires Run(r) && HopCountsFit(r, t) && t < |r| && IsNode(r[0], i)
    ensures IsNode(r[t], i) && r[t].nodes[i].seqno % 2 == 0
    ensures IsNode(r[t], d) ==> Lookup(r[t].nodes[i], d).seqno <= r[t].nodes[d].seqno + 1
    ensures !IsNode(r[t], d) ==> Lookup(r[t].nodes[i], d).seqno == 0
    ensures Lookup(r[t].nodes[i], d).flag.Up? ==> Lookup(r[t].nodes[i], d).seqno % 2 == 0
    ensures !Lookup(r[t].nodes[i], d).flag.Up? ==> OddOrZero(Lookup(r[t].nodes[i], d).seqno)
    ensures forall m :: m in r[t].msgs && m.Rreq? && IsNode(r[t], m.dst) ==> m.dstSeqno <= r[t].nodes[m.dst].seqno + 1
    ensures forall m, u :: m in r[t].msgs && m.Rerr? && u in m.unreachable && IsNode(r[t], u.dst) ==>
              u.seqno <= r[t].nodes[u.dst].seqno + 1
  {
    RunKeepsInv(r, t);
    RunMarksNothing(r, t);
    assert RouteOk(r[t], i, d);
    assert forall m :: m in r[t].msgs ==> MsgOk(r[t], m);
  }

  /** A destination's own number rises by exactly 2 each time it answers a request. */
  lemma AnswerRaisesByTwo(r: seq<Net>, t: nat, m: Msg, env: Env)
    requires Run(r) && HopCountsFit(r, t) && t < |r| && m in r[t].msgs && m.Rreq? && IsNode(r[t], m.dst)
    requires m.src != m.dst && (m.src, m.bcastId) !in r[t].nodes[m.dst].seen
    ensures var n := r[t].nodes[m.dst]; var (n', out) := RecvRequest(n, m, env);
            n'.seqno == n.seqno + 2 &&
            exists k :: 0 <= k < |out| && out[k].Rrep? && out[k].dst == m.dst
                        && out[k].dstSeqno == n.seqno + 2 && out[k].hops == 1
  {
    RunKeepsInv(r, t);
    var n := r[t].nodes[m.dst];
    assert MsgOk(r[t], m);
    FlightIsWholesome(r[t], m);
    assert m.dstSeqno <= Bound(r[t], m.dst);
    var n1 := n.(seen := n.seen[(m.src, m.bcastId) := env.now + BCAST_ID_SAVE]);
    ReverseRouteStep(n1, m, env.now);
    var (n2, data) := ReverseRoute(n1, m, env.now);
    var (n3, out) := AnswerRequest(n2, m, env);
    assert out == [SendReply(n3, m.src, 1, n.id, n3.seqno, MY_ROUTE_TIMEOUT)];
    assert RecvRequest(n, m, env) == (n3, data + out);
    assert (data + out)[|data|] == out[0];
  }

  // ----- asserts -----

  /** "Up if and only if the hop count is not infinite", with the parity of both sides, holds of
      every entry in every run, which is what the asserts of the handlers test. */
  lemma AssertsHold(r: seq<Net>, t: nat, i: Addr, d: Addr)
    requires Run(r) && HopCountsFit(r, t) && t < |r| && IsNode(r[t], i) && d in r[t].nodes[i].table
    ensures var e := r[t].nodes[i].table[d];
            && (e.flag.Up? <==> e.hops != INFINITY2) && !e.flag.InRepair?
            && (e.hops != INFINITY2 ==> e.seqno % 2 == 0)
            && (e.flag.Up? ==> (e.seqno + 1) % 2 == 1)
    ensures r[t].nodes[i].seqno % 2 == 0
  {
    RunKeepsInv(r, t);
    RunMarksNothing(r, t);
    assert Lookup(r[t].nodes[i], d) == r[t].nodes[i].table[d];
  }

  // ----- what the loops achieve -----

  /** A lost link takes down exactly the routes over it, each with its number raised by one, and
      reports each of them with that number. */
  lemma {:induction false} LinkFailureIsExact(n: Node, nbr: Addr, todo: seq<Addr>, d: Addr)
    requires SoundTable(n) && (forall k :: 0 <= k < |todo| ==> todo[k] in n.table)
    requires forall j, k :: 0 <= j < k < |todo| ==> todo[j] != todo[k]
    ensures var (n', dead) := FailRoutes(n, nbr, todo); var e, e' := Lookup(n, d), Lookup(n', d);
            if d in todo && RoutedOver(e, nbr) then
              e'.flag.Down? && e'.hops == INFINITY2 && e'.seqno == e.seqno + 1 && Unreachable(d, e'.seqno) in dead
            else Kept(e, e') && forall s :: Unreachable(d, s) !in dead
    decreases |todo|
  {
    if todo != [] {
      var x, rest := todo[0], todo[1..];
      assert x !in rest;
      LinkFailureIsExact(SetEntry(n, x, FailedEntry(Lookup(n, x), nbr)), nbr, rest, d);
    }
  }

  /** After a purge no expired route is up. */
  lemma {:induction false} PurgeLeavesNoExpiredRoute(n: Node, todo: seq<Addr>, env: Env, d: Addr)
    requires Sound(n) && (forall k :: 0 <= k < |todo| ==> todo[k] in n.table) && d in todo
    requires forall j, k :: 0 <= j < k < |todo| ==> todo[j] != todo[k]
    ensures var e := Lookup(PurgeRoutes(n, todo, env).0, d); e.flag.Up? ==> e.expire >= env.now
    decreases |todo|
  {
    var x, rest := todo[0], todo[1..];
    PurgeEntryStep(n, x, env);
    var (n1, out) := PurgeEntry(n, x, env);
    PurgeRoutesStep(n1, rest, env);
    if d == x {
      assert d !in rest;
    } else {
      PurgeLeavesNoExpiredRoute(n1, rest, env, d);
    }
  }
}
