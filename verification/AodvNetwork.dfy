/** N agents and every packet ever sent. A packet may be received by any node, any number of times,
    at any later time, in any order, or never. */
module AodvNetwork {
  import opened AodvTypes
  import opened AodvHandlers
  import opened AodvSteps
  import opened AodvStepProofs
  import Pigeonhole

  /** Node k has address k. */
  datatype Net = Net(nodes: seq<Node>, msgs: set<Msg>)

  datatype Event =
    | Receive(msg: Msg)
    | Send(uid: nat, dst: Addr)
    | PurgeTimer
    | IdTimer
    | LinkLost(nbr: Addr)
    | NeighborFound

  predicate Enabled(s: Net, i: nat, ev: Event) {
    i < |s.nodes| && (ev.Receive? ==> ev.msg in s.msgs)
  }

  function Handle(n: Node, ev: Event, env: Env): (Node, seq<Msg>) {
    match ev
    case Receive(m) =>
      (match m
       case Rreq(_, _, _, _, _, _, _, _) => RecvRequest(n, m, env)
       case Rrep(_, _, _, _, _, _, _, _) => RecvReply(n, m, env.now)
       case Rerr(_, _) => RecvError(n, m)
       case Data(p, _) => RecvData(n, p, env))
    case Send(uid, dst) => Originate(n, uid, dst, env)
    case PurgeTimer => RtPurge(n, env)
    case IdTimer => (IdPurge(n, env.now), [])
    case LinkLost(nbr) => NbDelete(n, nbr)
    case NeighborFound => (NbInsert(n), [])
  }

  function Step(s: Net, i: nat, ev: Event, env: Env): Net
    requires Enabled(s, i, ev)
  {
    var (n, out) := Handle(s.nodes[i], ev, env);
    Net(s.nodes[i := n], s.msgs + set m | m in out)
  }

  predicate Initial(s: Net) {
    s.msgs == {} && forall k :: 0 <= k < |s.nodes| ==> s.nodes[k] == Node(k, 2, 1, [], map[], map[], [])
  }

  ghost predicate Next(s: Net, s': Net) {
    exists i, ev, env :: Enabled(s, i, ev) && s' == Step(s, i, ev, env)
  }

  ghost predicate Follow(r: seq<Net>, k: nat)
    requires k + 1 < |r|
  {
    Next(r[k], r[k + 1])
  }

  /** A run of the protocol from its initial state. */
  ghost predicate Run(r: seq<Net>) {
    |r| > 0 && Initial(r[0]) && forall k :: 0 <= k < |r| - 1 ==> Follow(r, k)
  }

  /** No packet in flight carries a hop count that reached infinity, or wrapped to 0. */
  ghost predicate HopsFit(s: Net) {
    forall m, c :: m in s.msgs && Offers(m, c) ==> 1 <= c.hops < INFINITY2
  }

  /** A network small enough that no carried hop count can reach INFINITY2. */
  const MAX_NODES: nat := 224

  // ----- the invariant -----

  predicate IsNode(s: Net, d: Addr) {
    0 <= d < |s.nodes|
  }

  /** What node i knows about d; about itself it knows its own number, at no distance. */
  function Seqno(s: Net, i: Addr, d: Addr): nat
    requires IsNode(s, i)
  {
    if i == d then s.nodes[i].seqno else Lookup(s.nodes[i], d).seqno
  }

  function Hops(s: Net, i: Addr, d: Addr): nat
    requires IsNode(s, i)
  {
    if i == d then 0 else Lookup(s.nodes[i], d).hops
  }

  ghost predicate Outranks(s: Net, i: Addr, d: Addr, seqno: nat, hops: nat)
    requires IsNode(s, i)
  {
    Better(Seqno(s, i, d), Hops(s, i, d), seqno, hops)
  }

  /** No number for d is larger than this. */
  function Bound(s: Net, d: Addr): nat {
    if IsNode(s, d) then s.nodes[d].seqno + 1 else 0
  }

  function Excess(hops: nat): nat {
    if hops > NETWORK_DIAMETER then hops - NETWORK_DIAMETER else 0
  }

  /** Distinct nodes, one for every hop beyond the network diameter, each of which holds an entry
      at least as good as the claim was when it passed. */
  ghost predicate IsChain(s: Net, d: Addr, seqno: nat, hops: nat, p: seq<Addr>) {
    && |p| == Excess(hops)
    && (forall k :: 0 <= k < |p| ==> IsNode(s, p[k]))
    && (forall k :: 0 <= k < |p| ==>
          AtLeast(Lookup(s.nodes[p[k]], d).seqno, Lookup(s.nodes[p[k]], d).hops, seqno, NETWORK_DIAMETER + k))
    && (forall j, k :: 0 <= j < k < |p| ==> p[j] != p[k])
  }

  ghost predicate Chained(s: Net, d: Addr, seqno: nat, hops: nat) {
    exists p :: IsChain(s, d, seqno, hops, p)
  }

  /** A claim in flight was authored by its destination, and its sender's own rank is strictly better. */
  ghost predicate ClaimOk(s: Net, c: Claim) {
    && GoodClaim(c) && IsNode(s, c.dst) && IsNode(s, c.via)
    && c.seqno <= s.nodes[c.dst].seqno
    && Outranks(s, c.via, c.dst, c.seqno, c.hops)
    && Chained(s, c.dst, c.seqno, c.hops)
  }

  ghost predicate MsgOk(s: Net, m: Msg) {
    && (forall c :: Offers(m, c) ==> ClaimOk(s, c))
    && (m.Rreq? ==> m.ttl >= 1 && m.hops + m.ttl <= NETWORK_DIAMETER + 1 && m.dstSeqno <= Bound(s, m.dst))
    && (m.Rerr? ==> forall u :: u in m.unreachable ==> OddOrZero(u.seqno) && u.seqno <= Bound(s, u.dst))
  }

  /** A route with a finite hop count was authored by its destination, and its next hop ranks strictly better. */
  ghost predicate RouteOk(s: Net, i: Addr, d: Addr)
    requires IsNode(s, i)
  {
    var e := Lookup(s.nodes[i], d);
    && e.seqno <= Bound(s, d)
    && (e.hops != INFINITY2 ==>
          && IsNode(s, d) && e.seqno <= s.nodes[d].seqno && Chained(s, d, e.seqno, e.hops)
          && (d != i ==> IsNode(s, e.nextHop) && Outranks(s, e.nextHop, d, e.seqno, e.hops)))
  }

  ghost predicate Inv(s: Net) {
    && (forall i :: IsNode(s, i) ==> s.nodes[i].id == i && Sound(s.nodes[i]))
    && (forall m :: m in s.msgs ==> MsgOk(s, m))
    && (forall i, d :: IsNode(s, i) ==> RouteOk(s, i, d))
  }

  // ----- hop counts -----

  /** A claim that has come further than the diameter has passed that many distinct nodes. */
  lemma ChainBoundsHops(s: Net, d: Addr, seqno: nat, hops: nat)
    requires Chained(s, d, seqno, hops)
    ensures hops <= NETWORK_DIAMETER + |s.nodes|
  {
    var p :| IsChain(s, d, seqno, hops, p);
    Pigeonhole.DistinctBelow(p, |s.nodes|);
  }

  /** The node that holds a claim is not on the claim's chain, so it can extend it. */
  lemma ChainExtends(s: Net, i: Addr, d: Addr)
    requires IsNode(s, i)
    requires var e := Lookup(s.nodes[i], d); Chained(s, d, e.seqno, e.hops)
    ensures var e := Lookup(s.nodes[i], d); Chained(s, d, e.seqno, e.hops + 1)
  {
    var e := Lookup(s.nodes[i], d);
    var p :| IsChain(s, d, e.seqno, e.hops, p);
    var q := if e.hops + 1 > NETWORK_DIAMETER then p + [i] else [];
    assert IsChain(s, d, e.seqno, e.hops + 1, q);
  }

  // ----- growth: no step makes what a node knows worse -----

  ghost predicate Grows(s: Net, s': Net) {
    && |s'.nodes| == |s.nodes|
    && (forall i :: IsNode(s, i) ==> s'.nodes[i].seqno >= s.nodes[i].seqno)
    && (forall i, d :: IsNode(s, i) ==>
          var e, e' := Lookup(s.nodes[i], d), Lookup(s'.nodes[i], d);
          AtLeast(e'.seqno, e'.hops, e.seqno, e.hops))
  }

  lemma StepGrows(s: Net, i: nat, n': Node, inbox: Inbox, out: seq<Msg>)
    requires i < |s.nodes| && NodeStep(s.nodes[i], n', inbox, out)
    requires Sound(s.nodes[i])
    ensures Grows(s, Net(s.nodes[i := n'], s.msgs))
  {
    var s' := Net(s.nodes[i := n'], s.msgs);
    forall j, d | IsNode(s, j)
      ensures var e, e' := Lookup(s.nodes[j], d), Lookup(s'.nodes[j], d);
              AtLeast(e'.seqno, e'.hops, e.seqno, e.hops)
    {
      if j == i {
        assert RouteStep(s.nodes[i], n', d, inbox);
      }
    }
  }

  lemma OutranksGrows(s: Net, s': Net, i: Addr, d: Addr, seqno: nat, hops: nat)
    requires Grows(s, s') && IsNode(s, i) && Outranks(s, i, d, seqno, hops)
    ensures Outranks(s', i, d, seqno, hops)
  {
  }

  lemma ChainedGrows(s: Net, s': Net, d: Addr, seqno: nat, hops: nat)
    requires Grows(s, s') && Chained(s, d, seqno, hops)
    ensures Chained(s', d, seqno, hops)
  {
    var p :| IsChain(s, d, seqno, hops, p);
    assert IsChain(s', d, seqno, hops, p);
  }

  lemma ClaimOkGrows(s: Net, s': Net, c: Claim)
    requires Grows(s, s') && ClaimOk(s, c)
    ensures ClaimOk(s', c)
  {
    OutranksGrows(s, s', c.via, c.dst, c.seqno, c.hops);
    ChainedGrows(s, s', c.dst, c.seqno, c.hops);
  }

  lemma MsgOkGrows(s: Net, s': Net, m: Msg)
    requires Grows(s, s') && MsgOk(s, m)
    ensures MsgOk(s', m)
  {
    forall c | Offers(m, c)
      ensures ClaimOk(s', c)
    {
      ClaimOkGrows(s, s', c);
    }
  }

  lemma RouteOkGrows(s: Net, s': Net, i: Addr, d: Addr)
    requires Grows(s, s') && IsNode(s, i) && RouteOk(s, i, d)
    requires SameRoute(Lookup(s.nodes[i], d), Lookup(s'.nodes[i], d))
    ensures RouteOk(s', i, d)
  {
    var e := Lookup(s.nodes[i], d);
    if e.hops != INFINITY2 {
      ChainedGrows(s, s', d, e.seqno, e.hops);
      if d != i {
        OutranksGrows(s, s', e.nextHop, d, e.seqno, e.hops);
      }
    }
  }

  // ----- the invariant is kept -----

  /** What the packet a node handles is known to satisfy. */
  ghost predicate InboxOk(s: Net, inbox: Inbox) {
    inbox.Got? ==> MsgOk(s, inbox.msg)
  }

  lemma RoutesStayOk(s: Net, s': Net, i: nat, inbox: Inbox, d: Addr)
    requires Inv(s) && i < |s.nodes| && Grows(s, s') && InboxOk(s, inbox)
    requires RouteStep(s.nodes[i], s'.nodes[i], d, inbox)
    ensures RouteOk(s', i, d)
  {
    var e, e' := Lookup(s.nodes[i], d), Lookup(s'.nodes[i], d);
    assert RouteOk(s, i, d);
    if Kept(e, e') {
      RouteOkGrows(s, s', i, d);
    } else if TakenDown(e, e', d, inbox) {
      assert e'.seqno <= Bound(s, d);
    } else {
      var c :| InboxOffers(inbox, c) && c.dst == d && Accepted(e, e', c);
      assert ClaimOk(s, c);
      ClaimOkGrows(s, s', c);
    }
  }

  lemma SentRequestOk(s: Net, s': Net, i: nat, m: Msg, inbox: Inbox)
    requires Inv(s) && i < |s.nodes| && Grows(s, s') && InboxOk(s, inbox)
    requires s'.nodes[i].id == i && m.Rreq? && SentRequest(s.nodes[i], s'.nodes[i], m, inbox)
    requires forall d :: RouteOk(s', i, d)
    ensures MsgOk(s', m)
  {
    var c := Claim(m.src, m.srcSeqno, m.hops, m.from);
    assert RouteOk(s', i, m.dst);
    if inbox.Got? {
      MsgOkGrows(s, s', inbox.msg);
    }
    if m.src == i {
      assert IsChain(s', c.dst, c.seqno, c.hops, []);
    } else {
      var c0 := Claim(m.src, m.srcSeqno, inbox.msg.hops, inbox.msg.from);
      assert Offers(inbox.msg, c0);
      assert ClaimOk(s', c0);
      assert IsChain(s', c.dst, c.seqno, c.hops, []);
    }
    assert ClaimOk(s', c);
    assert forall c1 :: Offers(m, c1) ==> c1 == c;
  }

  lemma SentReplyOk(s: Net, s': Net, i: nat, m: Msg)
    requires Inv(s) && i < |s.nodes| && Grows(s, s') && Sound(s'.nodes[i])
    requires s'.nodes[i].id == i && m.Rrep? && (|s.nodes| <= MAX_NODES || 1 <= m.hops < INFINITY2)
    requires SentReply(s.nodes[i], s'.nodes[i], m)
    requires RouteOk(s', i, m.dst)
    ensures MsgOk(s', m)
  {
    var c := Claim(m.dst, m.dstSeqno, m.hops, m.from);
    if m.dst == i && s.nodes[i].seqno < m.dstSeqno == s'.nodes[i].seqno && m.hops == 1 {
      assert IsChain(s', c.dst, c.seqno, c.hops, []);
    } else {
      var e := Lookup(s'.nodes[i], m.dst);
      ChainBoundsHops(s', m.dst, e.seqno, e.hops);
      ChainExtends(s', i, m.dst);
      ChainBoundsHops(s', m.dst, e.seqno, e.hops + 1);
    }
    assert ClaimOk(s', c);
    assert forall c1 :: Offers(m, c1) ==> c1 == c;
  }

  lemma SentErrorOk(s': Net, i: nat, m: Msg)
    requires i < |s'.nodes| && Sound(s'.nodes[i]) && m.Rerr? && SentError(s'.nodes[i], m)
    requires forall d :: RouteOk(s', i, d)
    ensures MsgOk(s', m)
  {
    forall u | u in m.unreachable
      ensures OddOrZero(u.seqno) && u.seqno <= Bound(s', u.dst)
    {
      assert RouteOk(s', i, u.dst);
      assert SoundEntry(Lookup(s'.nodes[i], u.dst));
    }
  }

  /** Any NodeStep whose packet was in flight keeps the invariant, in a small network or as long as hop
      counts fit. */
  lemma NodeStepKeepsInv(s: Net, i: nat, n': Node, inbox: Inbox, out: seq<Msg>)
    requires Inv(s) && i < |s.nodes| && NodeStep(s.nodes[i], n', inbox, out) && InboxOk(s, inbox)
    requires |s.nodes| <= MAX_NODES || HopsFit(Net(s.nodes[i := n'], s.msgs + set m | m in out))
    ensures Inv(Net(s.nodes[i := n'], s.msgs + set m | m in out))
    ensures Grows(s, Net(s.nodes[i := n'], s.msgs + set m | m in out))
  {
    var s' := Net(s.nodes[i := n'], s.msgs + set m | m in out);
    StepGrows(s, i, n', inbox, out);
    assert Grows(s, s');
    forall d
      ensures RouteOk(s', i, d)
    {
      assert RouteStep(s.nodes[i], n', d, inbox);
      RoutesStayOk(s, s', i, inbox, d);
    }
    forall j, d | IsNode(s', j)
      ensures RouteOk(s', j, d)
    {
      if j != i {
        assert RouteOk(s, j, d);
        RouteOkGrows(s, s', j, d);
      }
    }
    forall m | m in s'.msgs
      ensures MsgOk(s', m)
    {
      if m in s.msgs {
        MsgOkGrows(s, s', m);
      } else {
        assert MaySend(s.nodes[i], n', m, inbox);
        match m
        case Rreq(_, _, _, _, _, _, _, _) => SentRequestOk(s, s', i, m, inbox);
        case Rrep(_, _, _, dst, dstSeqno, hops, _, _) =>
          assert Offers(m, Claim(dst, dstSeqno, hops, m.from));
          SentReplyOk(s, s', i, m);
        case Rerr(_, _) => SentErrorOk(s', i, m);
        case Data(_, _) =>
      }
    }
  }

  lemma FlightIsWholesome(s: Net, m: Msg)
    requires Inv(s) && m in s.msgs
    ensures Wholesome(m)
  {
    assert MsgOk(s, m);
  }

  function InboxOf(ev: Event): Inbox {
    if ev.Receive? then Got(ev.msg) else Nothing
  }

  /** A step on an empty inbox is a step on any inbox. */
  lemma StepWithInbox(n: Node, n': Node, inbox: Inbox, out: seq<Msg>)
    requires NodeStep(n, n', Nothing, out)
    ensures NodeStep(n, n', inbox, out)
  {
    forall d
      ensures RouteStep(n, n', d, inbox)
    {
      assert RouteStep(n, n', d, Nothing);
    }
    forall m | m in out
      ensures MaySend(n, n', m, inbox)
    {
      assert MaySend(n, n', m, Nothing);
    }
  }

  /** Every event is a NodeStep of the node it happens at. */
  lemma HandleIsStep(s: Net, i: nat, ev: Event, env: Env)
    requires Inv(s) && Enabled(s, i, ev)
    ensures var (n', out) := Handle(s.nodes[i], ev, env); NodeStep(s.nodes[i], n', InboxOf(ev), out)
  {
    var n := s.nodes[i];
    match ev
    case Receive(m) =>
      FlightIsWholesome(s, m);
      if m.Rreq? {
        RecvRequestStep(n, m, env);
      } else if m.Rrep? {
        RecvReplyStep(n, m, env.now);
      } else if m.Rerr? {
        RecvErrorStep(n, m);
      } else if m.packet.src == n.id || m.packet.ttl - 1 == 0 {
        KeptIsStep(n, n, Got(m), []);
      } else {
        RtResolveStep(n, m.packet.(ttl := m.packet.ttl - 1), env);
        var (n', out) := RecvData(n, m.packet, env);
        StepWithInbox(n, n', Got(m), out);
      }
    case Send(uid, dst) => RtResolveStep(n, Packet(uid, n.id, dst, NETWORK_DIAMETER), env);
    case PurgeTimer => RtPurgeStep(n, env);
    case IdTimer => KeptIsStep(n, IdPurge(n, env.now), Nothing, []);
    case LinkLost(nbr) => NbDeleteStep(n, nbr);
    case NeighborFound =>
      forall d
        ensures RouteStep(n, NbInsert(n), d, Nothing)
      {
        assert Kept(Lookup(n, d), Lookup(NbInsert(n), d));
      }
  }

  lemma StepKeepsInv(s: Net, i: nat, ev: Event, env: Env)
    requires Inv(s) && Enabled(s, i, ev)
    requires |s.nodes| <= MAX_NODES || HopsFit(Step(s, i, ev, env))
    ensures Inv(Step(s, i, ev, env)) && Grows(s, Step(s, i, ev, env))
  {
    HandleIsStep(s, i, ev, env);
    var (n', out) := Handle(s.nodes[i], ev, env);
    NodeStepKeepsInv(s, i, n', InboxOf(ev), out);
  }
}
