/** Local repair, which the shipped configuration compiles in: what it adds to the protocol, exactly when it
    makes a node know less than before, that without such a step there are no loops, and a run in
    which one such step leaves two nodes routing to each other. */
module AodvLocalRepair {
  import opened AodvTypes
  import opened AodvHandlers
  import opened AodvSteps
  import opened AodvStepProofs
  import opened AodvNetwork
  import opened AodvTheorems
  import opened AodvExactRequests
  import Pigeonhole

  // ----- the handlers -----

  /** How often a data packet was forwarded: the source sends it with the full TTL, and every node that
      forwards it takes one off. */
  function Forwards(p: Packet): int {
    NETWORK_DIAMETER - p.ttl
  }

  /** local_rt_repair: the route is marked, and a request for it goes out. */
  function LocalRepair(n: Node, p: Packet, env: Env): (Node, seq<Msg>)
    requires p.dst in n.table
  {
    var n1 := SetEntry(n.(queue := Enqueued(n.queue, p, env.now)), p.dst, n.table[p.dst].(flag := InRepair));
    SendRequest(n1, p.dst, env)
  }

  /** The guard: the packet has come farther than it has to go. */
  predicate Repairs(n: Node, p: Packet) {
    p.dst in n.table && Forwards(p) > n.table[p.dst].hops
  }

  /** rt_ll_failed for a data packet that did not get through to nbr. */
  function LinkReport(n: Node, p: Packet, nbr: Addr, env: Env): (Node, seq<Msg>) {
    if p.dst !in n.table then (n, [])
    else if Repairs(n, p) then LocalRepair(n, p, env)
    else NbDelete(n, nbr)
  }

  /** The timeout of a local repair: the route goes down, its number unchanged. */
  function RepairTimeout(n: Node, d: Addr): Node {
    if d in n.table && !n.table[d].flag.Up? then SetEntry(n, d, RtDown(n.table[d])) else n
  }

  // ----- the network with repairs -----

  datatype Alarm = Alarm(node: nat, dst: Addr, at: real)

  datatype RepairNet = RepairNet(net: Net, alarms: set<Alarm>, clock: real)

  datatype RepairEvent =
    | Ordinary(ev: Event)
    | Reported(p: Packet, nbr: Addr)
    | Rings(alarm: Alarm)

  /** Time does not run backwards, nor past an alarm; an alarm rings at its node, on time. */
  predicate Possible(s: RepairNet, i: nat, ev: RepairEvent, env: Env) {
    && i < |s.net.nodes| && s.clock <= env.now && (forall a :: a in s.alarms ==> env.now <= a.at)
    && match ev
       case Ordinary(e) => Enabled(s.net, i, e)
       case Reported(p, nbr) => Data(p, nbr) in s.net.msgs
       case Rings(a) => a in s.alarms && a.node == i && a.at == env.now
  }

  /** The net after node i became n and sent out. */
  function With(net: Net, i: nat, n: Node, out: seq<Msg>): Net
    requires i < |net.nodes|
  {
    Net(net.nodes[i := n], net.msgs + set m | m in out)
  }

  function RepairStep(s: RepairNet, i: nat, ev: RepairEvent, env: Env): RepairNet
    requires Possible(s, i, ev, env)
  {
    var node := s.net.nodes[i];
    match ev
    case Ordinary(e) => RepairNet(Step(s.net, i, e, env), s.alarms, env.now)
    case Reported(p, nbr) =>
      var (n, out) := LinkReport(node, p, nbr, env);
      // the time of the request's timeout is taken for a delay
      var alarms := if Repairs(node, p) then {Alarm(i, p.dst, env.now + Lookup(n, p.dst).reqTimeout)} else {};
      RepairNet(With(s.net, i, n, out), s.alarms + alarms, env.now)
    case Rings(a) => RepairNet(With(s.net, i, RepairTimeout(node, a.dst), []), s.alarms - {a}, env.now)
  }

  ghost predicate RepairNext(s: RepairNet, s': RepairNet) {
    exists i, ev, env :: Possible(s, i, ev, env) && s' == RepairStep(s, i, ev, env)
  }

  ghost predicate RepairFollow(r: seq<RepairNet>, k: nat)
    requires k + 1 < |r|
  {
    RepairNext(r[k], r[k + 1])
  }

  /** A run of the protocol with local repair, from its initial state. */
  ghost predicate RepairRun(r: seq<RepairNet>) {
    && |r| > 0 && Initial(r[0].net) && r[0].alarms == {} && r[0].clock == 0.0
    && forall k :: 0 <= k < |r| - 1 ==> RepairFollow(r, k)
  }

  // ----- exactly where rank is lost -----

  /** A repair timeout leaves what the node knows about d at least as good as before exactly when the route was
      not under repair. (A route under repair has its hop count still, as the guard needs it small.) */
  lemma TimeoutKeepsRankIff(n: Node, d: Addr)
    requires Lookup(n, d).flag.InRepair? ==> Lookup(n, d).hops < INFINITY2
    ensures var e, e' := Lookup(n, d), Lookup(RepairTimeout(n, d), d);
            AtLeast(e'.seqno, e'.hops, e.seqno, e.hops) <==> !e.flag.InRepair?
  {
  }

  /** A failed link leads to a repair exactly under the guard; the route then stays as it is. Otherwise a route over
      the lost neighbor, under repair or not, goes down with the next number, and any other stays. So no
      failed link loses rank; and a route that is repaired has fewer hops than the diameter, so that
      it was not down. */
  lemma RepairIff(n: Node, p: Packet, nbr: Addr, env: Env)
    requires Sound(n)
    ensures var n' := LinkReport(n, p, nbr, env).0; var e, e' := Lookup(n, p.dst), Lookup(n', p.dst);
            && (Repairs(n, p) ==> e'.flag.InRepair? && SameRoute(e, e'))
            && (!Repairs(n, p) && RoutedOver(e, nbr) ==>
                  e'.flag.Down? && e'.hops == INFINITY2 && e'.seqno == e.seqno + 1)
            && (!Repairs(n, p) && !RoutedOver(e, nbr) ==> Kept(e, e'))
            && AtLeast(e'.seqno, e'.hops, e.seqno, e.hops)
            && (Repairs(n, p) && p.ttl >= 0 ==> e.hops < NETWORK_DIAMETER && !e.flag.Down?)
  {
    if p.dst in n.table && !Repairs(n, p) {
      LinkFailureIsExact(n.(seqno := n.seqno + 2), nbr, n.list, p.dst);
    }
  }

  /** An alarm rings for a route that is still under repair, with its hop count. */
  predicate Undoes(s: RepairNet, i: nat, ev: RepairEvent)
    requires i < |s.net.nodes|
  {
    ev.Rings? && (var e := Lookup(s.net.nodes[i], ev.alarm.dst); e.flag.InRepair? && e.hops != INFINITY2)
  }

  /** Node i with its route to d marked, and another buffer. */
  function Marked(n: Node, d: Addr, queue: seq<Buffered>): Node
    requires d in n.table
  {
    SetEntry(n.(queue := queue), d, n.table[d].(flag := InRepair))
  }

  /** A repair buffers the packet and asks for the destination if a request is due; only a search given up at that
      moment drops it. */
  lemma RepairKeepsPacket(n: Node, p: Packet, nbr: Addr, env: Env)
    requires Repairs(n, p) && !Lookup(n, p.dst).flag.Down?
    ensures var (n', out) := LinkReport(n, p, nbr, env);
      var e, marked := Lookup(n, p.dst), Marked(n, p.dst, Enqueued(n.queue, p, env.now));
      && (e.reqTimeout > env.now ==> out == [] && n' == marked)
      && (e.reqTimeout <= env.now && Exhausted(e) ==> Abandoned(marked, n', p.dst, env.now, out))
      && (e.reqTimeout <= env.now && !Exhausted(e) ==> Asked(marked, n', p.dst, out))
      && (e.reqTimeout > env.now || !Exhausted(e) ==> Buffered(p, env.now + RTQ_TIMEOUT) in n'.queue)
  {
    RequestIsSentIff(Marked(n, p.dst, Enqueued(n.queue, p, env.now)), p.dst, env);
  }

  lemma MarkKeepsInv(s: Net, i: nat, d: Addr, queue: seq<Buffered>)
    requires Inv(s) && i < |s.nodes| && d in s.nodes[i].table
    ensures var s1 := Net(s.nodes[i := Marked(s.nodes[i], d, queue)], s.msgs); Inv(s1) && Grows(s, s1)
  {
    var n1 := Marked(s.nodes[i], d, queue);
    SetEntrySound(s.nodes[i].(queue := queue), d, s.nodes[i].table[d].(flag := InRepair));
    SameRoutesKeepInv(s, i, n1);
  }

  /** A change at one node that leaves rank and next hop of every route. */
  lemma SameRoutesKeepInv(s: Net, i: nat, n1: Node)
    requires Inv(s) && i < |s.nodes| && n1.id == i && n1.seqno == s.nodes[i].seqno && Sound(n1)
    requires forall d :: SameRoute(Lookup(s.nodes[i], d), Lookup(n1, d))
    ensures var s1 := Net(s.nodes[i := n1], s.msgs); Inv(s1) && Grows(s, s1)
  {
    var s1 := Net(s.nodes[i := n1], s.msgs);
    assert Grows(s, s1);
    forall j, d | IsNode(s1, j)
      ensures RouteOk(s1, j, d)
    {
      assert RouteOk(s, j, d) && SameRoute(Lookup(s.nodes[j], d), Lookup(s1.nodes[j], d));
      RouteOkGrows(s, s1, j, d);
    }
    forall m | m in s1.msgs
      ensures MsgOk(s1, m)
    {
      MsgOkGrows(s, s1, m);
    }
  }

  lemma RepairKeepsInv(s: Net, i: nat, p: Packet, env: Env)
    requires Inv(s) && i < |s.nodes| && p.dst in s.nodes[i].table
    requires var (n, out) := LocalRepair(s.nodes[i], p, env); |s.nodes| <= MAX_NODES || HopsFit(With(s, i, n, out))
    ensures var (n, out) := LocalRepair(s.nodes[i], p, env);
            Inv(With(s, i, n, out)) && Grows(s, With(s, i, n, out))
  {
    var queue := Enqueued(s.nodes[i].queue, p, env.now);
    var n1 := Marked(s.nodes[i], p.dst, queue);
    var s1 := Net(s.nodes[i := n1], s.msgs);
    MarkKeepsInv(s, i, p.dst, queue);
    SendRequestStep(n1, p.dst, env);
    var (n, out) := LocalRepair(s.nodes[i], p, env);
    assert s1.nodes[i := n] == s.nodes[i := n];
    NodeStepKeepsInv(s1, i, n, Nothing, out);
    GrowsOn(s, s1, With(s, i, n, out));
  }

  lemma GrowsOn(s: Net, s1: Net, s2: Net)
    requires Grows(s, s1) && Grows(s1, s2)
    ensures Grows(s, s2)
  {
  }

  lemma NothingSent(s: Net, i: nat)
    requires i < |s.nodes|
    ensures With(s, i, s.nodes[i], []) == s
  {
    assert s.nodes[i := s.nodes[i]] == s.nodes;
    assert (set m: Msg | m in []) == {};
  }

  lemma ReportKeepsInv(s: Net, i: nat, p: Packet, nbr: Addr, env: Env)
    requires Inv(s) && i < |s.nodes|
    requires var (n, out) := LinkReport(s.nodes[i], p, nbr, env); |s.nodes| <= MAX_NODES || HopsFit(With(s, i, n, out))
    ensures var (n, out) := LinkReport(s.nodes[i], p, nbr, env);
            Inv(With(s, i, n, out)) && Grows(s, With(s, i, n, out))
  {
    var node := s.nodes[i];
    if p.dst !in node.table {
      NothingSent(s, i);
    } else if Repairs(node, p) {
      RepairKeepsInv(s, i, p, env);
    } else {
      NbDeleteStep(node, nbr);
      NodeStepKeepsInv(s, i, NbDelete(node, nbr).0, Nothing, NbDelete(node, nbr).1);
    }
  }

  lemma TimeoutKeepsInv(s: Net, i: nat, d: Addr)
    requires Inv(s) && i < |s.nodes|
    requires Lookup(s.nodes[i], d).flag.InRepair? ==> Lookup(s.nodes[i], d).hops == INFINITY2
    ensures var s1 := With(s, i, RepairTimeout(s.nodes[i], d), []); Inv(s1) && Grows(s, s1)
  {
    var n, n1 := s.nodes[i], RepairTimeout(s.nodes[i], d);
    var s1 := With(s, i, n1, []);
    assert s1.msgs == s.msgs;
    if d in n.table && n.table[d].flag.InRepair? {
      SetEntrySound(n, d, RtDown(n.table[d]));
      assert Grows(s, s1);
      forall j, x | IsNode(s1, j)
        ensures RouteOk(s1, j, x)
      {
        assert RouteOk(s, j, x);
        if j != i || x != d {
          RouteOkGrows(s, s1, j, x);
        }
      }
      forall m | m in s1.msgs
        ensures MsgOk(s1, m)
      {
        MsgOkGrows(s, s1, m);
      }
    } else {
      assert d in n.table ==> n.table[d := n.table[d]] == n.table;
      NothingSent(s, i);
    }
  }

  lemma RepairStepKeepsInv(s: RepairNet, i: nat, ev: RepairEvent, env: Env)
    requires Inv(s.net) && Possible(s, i, ev, env) && !Undoes(s, i, ev)
    requires |s.net.nodes| <= MAX_NODES || HopsFit(RepairStep(s, i, ev, env).net)
    ensures Inv(RepairStep(s, i, ev, env).net) && Grows(s.net, RepairStep(s, i, ev, env).net)
  {
    match ev
    case Ordinary(e) => StepKeepsInv(s.net, i, e, env);
    case Reported(p, nbr) => ReportKeepsInv(s.net, i, p, nbr, env);
    case Rings(a) => TimeoutKeepsInv(s.net, i, a.dst);
  }

  /** What the nodes know gets no worse in a step exactly when no alarm rings for a route still under repair. */
  lemma StepKeepsRanksIff(s: RepairNet, i: nat, ev: RepairEvent, env: Env)
    requires Inv(s.net) && Possible(s, i, ev, env)
    requires |s.net.nodes| <= MAX_NODES || HopsFit(RepairStep(s, i, ev, env).net)
    ensures Grows(s.net, RepairStep(s, i, ev, env).net) <==> !Undoes(s, i, ev)
  {
    if Undoes(s, i, ev) {
      var e, e' := Lookup(s.net.nodes[i], ev.alarm.dst), Lookup(RepairStep(s, i, ev, env).net.nodes[i], ev.alarm.dst);
      assert Sound(s.net.nodes[i]) && !AtLeast(e'.seqno, e'.hops, e.seqno, e.hops);
    } else {
      RepairStepKeepsInv(s, i, ev, env);
    }
  }

  // ----- runs without such a step -----

  ghost predicate CalmNext(s: RepairNet, s': RepairNet) {
    exists i, ev, env :: Possible(s, i, ev, env) && s' == RepairStep(s, i, ev, env) && !Undoes(s, i, ev)
  }

  ghost predicate CalmFollow(r: seq<RepairNet>, k: nat)
    requires k + 1 < |r|
  {
    CalmNext(r[k], r[k + 1])
  }

  /** A run in which no alarm rings for a route still under repair. */
  ghost predicate CalmRun(r: seq<RepairNet>) {
    && |r| > 0 && Initial(r[0].net) && r[0].alarms == {} && r[0].clock == 0.0
    && forall k :: 0 <= k < |r| - 1 ==> CalmFollow(r, k)
  }

  lemma CalmRunsAreRuns(r: seq<RepairNet>)
    requires CalmRun(r)
    ensures RepairRun(r)
  {
    forall k | 0 <= k < |r| - 1
      ensures RepairFollow(r, k)
    {
      assert CalmFollow(r, k);
    }
  }

  ghost predicate RepairHopsFit(r: seq<RepairNet>, t: nat) {
    forall k :: 0 <= k <= t && k < |r| ==> HopsFit(r[k].net)
  }

  lemma CalmNextKeepsInv(s: RepairNet, s': RepairNet)
    requires Inv(s.net) && CalmNext(s, s') && (|s.net.nodes| <= MAX_NODES || HopsFit(s'.net))
    ensures Inv(s'.net) && |s'.net.nodes| == |s.net.nodes|
  {
    var i: nat, ev, env :| Possible(s, i, ev, env) && s' == RepairStep(s, i, ev, env) && !Undoes(s, i, ev);
    RepairStepKeepsInv(s, i, ev, env);
  }

  lemma {:induction false} CalmRunKeepsInv(r: seq<RepairNet>, t: nat)
    requires CalmRun(r) && t < |r| && (|r[0].net.nodes| <= MAX_NODES || RepairHopsFit(r, t))
    ensures Inv(r[t].net) && |r[t].net.nodes| == |r[0].net.nodes|
  {
    if t == 0 {
      InitialInv(r[0].net);
    } else {
      CalmRunKeepsInv(r, t - 1);
      assert CalmFollow(r, t - 1);
      assert RepairHopsFit(r, t) ==> HopsFit(r[t].net);
      CalmNextKeepsInv(r[t - 1], r[t]);
    }
  }

  /** Local repair does no harm as long as no alarm rings for a route still under repair: in every state of such a
      run, with any number of nodes while carried hop counts fit, or with at most 224 nodes,
      following next hops of up routes visits no node twice. */
  lemma CalmRunsAreLoopFree(r: seq<RepairNet>, t: nat, d: Addr, p: seq<Addr>)
    requires CalmRun(r) && t < |r| && (|r[0].net.nodes| <= MAX_NODES || RepairHopsFit(r, t))
    requires Follows(r[t].net, d, p)
    ensures forall j, k :: 0 <= j < k < |p| ==> p[j] != p[k]
    ensures |p| <= |r[0].net.nodes|
  {
    CalmRunKeepsInv(r, t);
    forall j, k | 0 <= j < k < |p|
      ensures p[j] != p[k]
    {
      RankImproves(r[t].net, d, p, j, k);
    }
    Pigeonhole.DistinctBelow(p, |r[t].net.nodes|);
  }

  // ----- a repair whose answer comes late -----

  lemma RepairAsks(b: Node, p: Packet, env: Env)
    requires p.dst in b.table && b.table[p.dst].flag.Up?
    requires b.table[p.dst].reqTimeout <= env.now && b.table[p.dst].reqCnt <= RREQ_RETRIES
    ensures var (b1, asked) := LocalRepair(b, p, env); var e, e1 := b.table[p.dst], Lookup(b1, p.dst);
            && |asked| == 1 && asked[0].Rreq? && asked[0].from == b.id && asked[0].src == b.id
            && asked[0].dst == p.dst && asked[0].dstSeqno == e.seqno && asked[0].bcastId == b.bid
            && asked[0].srcSeqno == b.seqno + 2 && asked[0].hops == 1 && asked[0].ttl >= 1
            && b1.id == b.id && p.dst in b1.table && e1.flag.InRepair? && SameRoute(e, e1)
            && (e.reqCnt == 0 && PerHopTime(env, p.dst) > 0.0 ==> e1.reqTimeout > env.now)
  {
    var e, perHop := b.table[p.dst].(flag := InRepair), PerHopTime(env, p.dst);
    if e.reqCnt == 0 && perHop > 0.0 {
      WaitsAWhile(e, env.now, perHop);
    }
  }

  lemma WaitsAWhile(e: Entry, now: real, perHop: real)
    requires perHop > 0.0 && e.flag.InRepair? && e.reqTimeout <= now && e.reqCnt == 0
    ensures TryRequest(e, now, perHop).Query? && TryRequest(e, now, perHop).entry.reqTimeout > now
  {
    var ttl := TryRequest(e, now, perHop).ttl;
    assert (ttl as real) * perHop >= perHop;
  }

  /** After the timeout any route with the old number is accepted. */
  lemma TimedOutAccepts(b: Node, rep: Msg, now: real)
    requires rep.Rrep? && rep.dst in b.table && b.table[rep.dst].flag.Down? && b.table[rep.dst].hops == INFINITY2
    requires b.table[rep.dst].seqno == rep.dstSeqno && rep.hops < INFINITY2
    ensures Lookup(RecvReply(b, rep, now).0, rep.dst).flag.Up?
    ensures Lookup(RecvReply(b, rep, now).0, rep.dst).nextHop == rep.from
  {
    var d := rep.dst;
    assert RtAdd(b, d) == b && Fresher(Lookup(b, d), rep.dstSeqno, rep.hops);
    var (b1, data) := ForwardRoute(b, rep, now);
    assert Lookup(b1, d).flag.Up? && Lookup(b1, d).nextHop == rep.from;
    var (b2, out) := RelayReply(b1, rep, now);
    assert Kept(Lookup(b1, d), Lookup(b2, d));
  }

  // ----- the run: source 3, then 2 and 1, then destination 0, in a line -----

  const NOW := Env(0.0, map[], 0)

  const FULL := Packet(7, 3, 0, 30)

  function FreshNode(k: nat): Node {
    Node(k, 2, 1, [], map[], map[], [])
  }

  /** Node k has heard the request of node 3, from x, and knows nothing of the destination. */
  predicate Heard(n: Node, k: nat, x: Addr) {
    && n.id == k && n.seqno == 2 && n.bid == 1 && n.queue == [] && n.seen.Keys == {(3, 1)}
    && 0 !in n.table && 3 in n.table && n.table[3].flag.Up? && n.table[3].nextHop == x && n.table[3].hops < 10
  }

  /** Node k routes to the destination over x. */
  predicate Routes(n: Node, k: nat, x: Addr, hops: nat) {
    && n.id == k && n.bid == 1 && n.seen.Keys == {(3, 1)} && n.queue == []
    && 0 in n.table && n.table[0].flag.Up? && n.table[0].nextHop == x
    && n.table[0].hops == hops && n.table[0].seqno == 4
    && n.table[0].reqTimeout == 0.0 && n.table[0].reqCnt == 0
  }

  lemma SourceAsks()
    ensures var (n, out) := Originate(FreshNode(3), 7, 0, NOW);
            && out == [Rreq(3, 3, 4, 0, 0, 1, 1, 30)]
            && n.id == 3 && 0 in n.table && n.table[0].flag.Down? && n.table[0].seqno == 0
            && n.queue == [Buffered(FULL, 30.0)]
  {
    assert Live([], 0.0) == [];
    var n0 := RtAdd(FreshNode(3), 0);
    assert Lookup(n0, 0) == FRESH;
    assert TryRequest(FRESH, 0.0, NODE_TRAVERSAL_TIME).Query?;
    assert TryRequest(FRESH, 0.0, NODE_TRAVERSAL_TIME).ttl == 30;
  }

  /** A node that hears the request first relays it. */
  lemma Relays(k: nat, from: Addr, hops: nat, ttl: nat)
    requires k != 3 && k != 0 && 1 <= hops < 10 && 2 <= ttl
    ensures var (n, out) := RecvRequest(FreshNode(k), Rreq(from, 3, 4, 0, 0, 1, hops, ttl), NOW);
            && out == [Rreq(k, 3, 4, 0, 0, 1, hops + 1, ttl - 1)]
            && Heard(n, k, from)
  {
    var m := Rreq(from, 3, 4, 0, 0, 1, hops, ttl);
    var n1 := FreshNode(k).(seen := map[(3, 1) := BCAST_ID_SAVE]);
    assert FreshNode(k).seen[(3, 1) := 0.0 + BCAST_ID_SAVE] == n1.seen;
    var (n2, data) := ReverseRoute(n1, m, 0.0);
    assert Live([], 0.0) == [] && For([], 3) == [] && NotFor([], 3) == [];
    assert data == [] && Heard(n2, k, from);
  }

  lemma DestinationAnswers()
    ensures RecvRequest(FreshNode(0), Rreq(1, 3, 4, 0, 0, 1, 3, 28), NOW).1 == [Rrep(0, 1, 3, 0, 4, 1, 10, 30)]
  {
    var m := Rreq(1, 3, 4, 0, 0, 1, 3, 28);
    var n1 := FreshNode(0).(seen := FreshNode(0).seen[(3, 1) := 0.0 + BCAST_ID_SAVE]);
    var (n2, data) := ReverseRoute(n1, m, 0.0);
    assert Live([], 0.0) == [] && For([], 3) == [] && NotFor([], 3) == [];
    assert data == [] && 3 in n2.table && n2.table[3].nextHop == 1 && n2.seqno == 2 && n2.id == 0;
    assert NextSeqno(2, 0) == 4;
  }

  /** A node on the way back installs the route and relays the reply. */
  lemma Installs(n: Node, k: nat, x: Addr, from: Addr, ipNext: Addr, hops: nat, ttl: nat)
    requires Heard(n, k, x) && k != 0 && k != 3 && 1 <= hops < 10 && 2 <= ttl
    ensures var (n', out) := RecvReply(n, Rrep(from, ipNext, 3, 0, 4, hops, 10, ttl), 0.0);
            && out == [Rrep(k, x, 3, 0, 4, hops + 1, 10, ttl - 1)]
            && Routes(n', k, from, hops)
  {
    var m := Rrep(from, ipNext, 3, 0, 4, hops, 10, ttl);
    var n0 := RtAdd(n, 0);
    assert Lookup(n0, 0) == FRESH && Fresher(FRESH, 4, hops);
    var (n1, data) := ForwardRoute(n0, m, 0.0);
    assert Live([], 0.0) == [] && For([], 0) == [] && NotFor([], 0) == [];
    assert data == [] && Routes(n1, k, from, hops) && 3 in n1.table && n1.table[3] == n.table[3];
    var (n2, out) := RelayReply(n1, m, 0.0);
    assert data + out == out;
  }

  /** The source sends the packet that waited. */
  lemma SourceSends(n: Node)
    requires n.id == 3 && 0 in n.table && n.table[0].flag.Down? && n.table[0].seqno == 0
    requires n.queue == [Buffered(FULL, 30.0)]
    ensures RecvReply(n, Rrep(2, 3, 3, 0, 4, 3, 10, 28), 0.0).1 == [Data(FULL, 2)]
  {
    var m := Rrep(2, 3, 3, 0, 4, 3, 10, 28);
    var b := Buffered(FULL, 30.0);
    assert n.queue[1..] == [];
    assert Live(n.queue, 0.0) == [b] && For([b], 0) == [b] && [b][1..] == [];
    assert Forwarded([b], 2) == [Data(FULL, 2)];
    assert RtAdd(n, 0) == n;
    var (n1, data) := ForwardRoute(n, m, 0.0);
    assert data == [Data(FULL, 2)];
    assert RelayReply(n1, m, 0.0).1 == [];
  }

  /** A node on the way forwards the packet. */
  lemma ForwardsIt(n: Node, k: nat, x: Addr, hops: nat, p: Packet)
    requires Routes(n, k, x, hops) && k != 0 && k != 3 && p.src == 3 && p.dst == 0 && p.ttl >= 2
    ensures var (n', out) := RecvData(n, p, NOW);
            out == [Data(p.(ttl := p.ttl - 1), x)] && Routes(n', k, x, hops)
  {
  }

  lemma Extended(r: seq<RepairNet>, i: nat, ev: RepairEvent, env: Env) returns (r': seq<RepairNet>)
    requires RepairRun(r) && Possible(r[|r| - 1], i, ev, env)
    ensures RepairRun(r') && r' == r + [RepairStep(r[|r| - 1], i, ev, env)]
  {
    r' := r + [RepairStep(r[|r| - 1], i, ev, env)];
    forall k | 0 <= k < |r'| - 1
      ensures RepairFollow(r', k)
    {
      if k < |r| - 1 {
        assert RepairFollow(r, k);
      } else {
        assert RepairNext(r'[k], r'[k + 1]);
      }
    }
  }

  lemma CalmlyExtended(r: seq<RepairNet>, i: nat, ev: RepairEvent, env: Env) returns (r': seq<RepairNet>)
    requires CalmRun(r) && Possible(r[|r| - 1], i, ev, env) && !Undoes(r[|r| - 1], i, ev)
    ensures CalmRun(r') && r' != [] && r'[0] == r[0] && r'[|r'| - 1] == RepairStep(r[|r| - 1], i, ev, env)
  {
    r' := r + [RepairStep(r[|r| - 1], i, ev, env)];
    forall k | 0 <= k < |r'| - 1
      ensures CalmFollow(r', k)
    {
      if k < |r| - 1 {
        assert CalmFollow(r, k);
      } else {
        assert CalmNext(r'[k], r'[k + 1]);
      }
    }
  }

  /** Quiet: four nodes, the clock at 0, and no repair yet. */
  predicate Quiet(s: RepairNet) {
    |s.net.nodes| == 4 && s.clock == 0.0 && s.alarms == {}
  }

  lemma Delivered(r: seq<RepairNet>, i: nat, m: Msg) returns (r': seq<RepairNet>)
    requires CalmRun(r) && Quiet(r[|r| - 1]) && i < 4 && m in r[|r| - 1].net.msgs
    ensures CalmRun(r') && r' != [] && r'[0] == r[0]
    ensures var s, s' := r[|r| - 1], r'[|r'| - 1]; var (n, out) := Handle(s.net.nodes[i], Receive(m), NOW);
            && Quiet(s') && s'.net.nodes == s.net.nodes[i := n]
            && (forall o :: o in s.net.msgs || o in out ==> o in s'.net.msgs)
  {
    r' := CalmlyExtended(r, i, Ordinary(Receive(m)), NOW);
  }

  /** The request goes from 3 over 2 and 1 to the destination, which answers. */
  lemma Answered() returns (r: seq<RepairNet>)
    ensures CalmRun(r) && r != [] && |r[0].net.nodes| == 4 && Quiet(r[|r| - 1])
    ensures var s := r[|r| - 1].net;
            && Heard(s.nodes[1], 1, 2) && Heard(s.nodes[2], 2, 3)
            && s.nodes[3].id == 3 && 0 in s.nodes[3].table && s.nodes[3].table[0].flag.Down?
            && s.nodes[3].table[0].seqno == 0 && s.nodes[3].queue == [Buffered(FULL, 30.0)]
            && Rrep(0, 1, 3, 0, 4, 1, 10, 30) in s.msgs
  {
    var start := Net([FreshNode(0), FreshNode(1), FreshNode(2), FreshNode(3)], {});
    r := [RepairNet(start, {}, 0.0)];
    SourceAsks();
    Relays(2, 3, 1, 30);
    Relays(1, 2, 2, 29);
    DestinationAnswers();
    var m := Rreq(3, 3, 4, 0, 0, 1, 1, 30);
    r := CalmlyExtended(r, 3, Ordinary(Send(7, 0)), NOW);
    assert m in [m] && m in r[|r| - 1].net.msgs;
    r := Delivered(r, 2, m);
    m := Rreq(2, 3, 4, 0, 0, 1, 2, 29);
    assert m in [m];
    r := Delivered(r, 1, m);
    m := Rreq(1, 3, 4, 0, 0, 1, 3, 28);
    assert m in [m];
    r := Delivered(r, 0, m);
    m := Rrep(0, 1, 3, 0, 4, 1, 10, 30);
    assert m in [m];
  }

  /** The reply comes back, and the source sends the packet. */
  lemma Replied() returns (r: seq<RepairNet>)
    ensures CalmRun(r) && r != [] && |r[0].net.nodes| == 4 && Quiet(r[|r| - 1])
    ensures var s := r[|r| - 1].net;
            Routes(s.nodes[1], 1, 0, 1) && Routes(s.nodes[2], 2, 1, 2) && Data(FULL, 2) in s.msgs
  {
    r := Answered();
    var m := Rrep(0, 1, 3, 0, 4, 1, 10, 30);
    Installs(r[|r| - 1].net.nodes[1], 1, 2, 0, 1, 1, 30);
    r := Delivered(r, 1, m);
    m := Rrep(1, 2, 3, 0, 4, 2, 10, 29);
    assert m in [m];
    Installs(r[|r| - 1].net.nodes[2], 2, 3, 1, 2, 2, 29);
    r := Delivered(r, 2, m);
    m := Rrep(2, 3, 3, 0, 4, 3, 10, 28);
    assert m in [m];
    SourceSends(r[|r| - 1].net.nodes[3]);
    r := Delivered(r, 3, m);
    m := Data(FULL, 2);
    assert m in [m];
  }

  /** The packet goes as far as node 1. */
  lemma Sent() returns (r: seq<RepairNet>)
    ensures CalmRun(r) && r != [] && |r[0].net.nodes| == 4 && Quiet(r[|r| - 1])
    ensures var s := r[|r| - 1].net;
            Routes(s.nodes[1], 1, 0, 1) && Routes(s.nodes[2], 2, 1, 2) && Data(FULL.(ttl := 28), 0) in s.msgs
  {
    r := Replied();
    ForwardsIt(r[|r| - 1].net.nodes[2], 2, 1, 2, FULL);
    r := Delivered(r, 2, Data(FULL, 2));
    var m := Data(FULL.(ttl := 29), 1);
    assert m in [m];
    ForwardsIt(r[|r| - 1].net.nodes[1], 1, 0, 1, FULL.(ttl := 29));
    r := Delivered(r, 1, m);
    m := Data(FULL.(ttl := 28), 0);
    assert m in [m];
  }

  /** Node 2 still routes over node 1, and says so when node 1 asks. */
  lemma AnswersRepair(n: Node, m: Msg)
    requires Routes(n, 2, 1, 2)
    requires m.Rreq? && m.from == 1 && m.src == 1 && m.dst == 0 && m.dstSeqno == 4 && m.hops == 1
    ensures var (n', out) := RecvRequest(n, m, NOW);
            && 0 in n'.table && n'.table[0].flag.Up? && n'.table[0].nextHop == 1
            && |out| == 1 && out[0].Rrep? && out[0].from == 2 && out[0].dst == 0
            && out[0].dstSeqno == 4 && out[0].hops == 3
  {
    var n1 := n.(seen := n.seen[(m.src, m.bcastId) := 0.0 + BCAST_ID_SAVE]);
    var (n2, data) := ReverseRoute(n1, m, 0.0);
    assert Live([], 0.0) == [] && For([], 1) == [] && NotFor([], 1) == [];
    assert data == [] && 0 in n2.table && n2.table[0] == n.table[0] && n2.id == 2;
    var (n3, out) := AnswerRequest(n2, m, NOW);
    assert data + out == out;
  }

  /** The link from 1 to 0 breaks under the packet, node 1 asks, and node 2 answers before node 1's alarm rings. */
  lemma Repairing() returns (r: seq<RepairNet>, alarm: Alarm, reply: Msg)
    ensures CalmRun(r) && r != [] && |r[0].net.nodes| == 4
    ensures var s := r[|r| - 1];
            && |s.net.nodes| == 4 && s.alarms == {alarm} && alarm.node == 1 && alarm.dst == 0 && s.clock <= alarm.at
            && 0 in s.net.nodes[1].table && s.net.nodes[1].table[0].flag.InRepair?
            && s.net.nodes[1].table[0].seqno == 4 && RoutedOver(s.net.nodes[1].table[0], 0)
            && 0 in s.net.nodes[2].table && s.net.nodes[2].table[0].flag.Up? && s.net.nodes[2].table[0].nextHop == 1
            && reply in s.net.msgs && reply.Rrep? && reply.from == 2 && reply.dst == 0
            && reply.dstSeqno == 4 && reply.hops == 3
  {
    r := Sent();
    var p, a, b := FULL.(ttl := 28), r[|r| - 1].net.nodes[2], r[|r| - 1].net.nodes[1];
    RepairAsks(b, p, NOW);
    var (b1, asked) := LocalRepair(b, p, NOW);
    assert Repairs(b, p) && asked[0] in asked;
    alarm := Alarm(1, 0, Lookup(b1, 0).reqTimeout);
    r := CalmlyExtended(r, 1, Reported(p, 0), NOW);
    assert r[|r| - 1].alarms == {alarm};
    AnswersRepair(a, asked[0]);
    var (a1, out) := RecvRequest(a, asked[0], NOW);
    reply := out[0];
    assert reply in out;
    r := CalmlyExtended(r, 2, Ordinary(Receive(asked[0])), NOW);
  }

  /** With local repair a run leads to a routing loop. Along the line 3 - 2 - 1 - 0, where every packet goes to a
      neighbour, the link from 1 to 0 breaks under a packet that was forwarded twice, more often than
      the one hop the route has; node 1 asks, node 2 answers from its own route over node 1, node 1's
      alarm rings first, and then it takes the answer. Loop freedom fails: 2 - 1 - 2 is a walk. But for
      the alarm the run is calm. */
  lemma LocalRepairLoops() returns (r: seq<RepairNet>)
    ensures RepairRun(r) && |r[0].net.nodes| == 4 && |r| > 2 && CalmRun(r[..|r| - 2])
    ensures Follows(r[|r| - 1].net, 0, [2, 1, 2])
  {
    var calm, alarm, reply := Repairing();
    CalmRunsAreRuns(calm);
    var late, b1 := Env(alarm.at, map[], 0), calm[|calm| - 1].net.nodes[1];
    r := Extended(calm, 1, Rings(alarm), late);
    assert r[|r| - 1].alarms == {};
    TimedOutAccepts(RepairTimeout(b1, 0), reply, late.now);
    r := Extended(r, 1, Ordinary(Receive(reply)), late);
    assert r[..|r| - 2] == calm;
  }

  /** A calm run also leads to where handle_link_failure asserts that a route over the lost neighbor is up: node 1
      may lose the link to 0 once more while its route over 0 is under repair. */
  lemma RepairTripsAssert() returns (r: seq<RepairNet>, env: Env)
    ensures CalmRun(r) && |r[0].net.nodes| == 4
    ensures Possible(r[|r| - 1], 1, Ordinary(LinkLost(0)), env)
    ensures var n := r[|r| - 1].net.nodes[1];
      0 in n.list && RoutedOver(Lookup(n, 0), 0) && Lookup(n, 0).flag.InRepair?
  {
    var alarm, reply;
    r, alarm, reply := Repairing();
    CalmRunKeepsInv(r, |r| - 1);
    env := Env(r[|r| - 1].clock, map[], 0);
    assert Sound(r[|r| - 1].net.nodes[1]);
  }
}
