/** What the handlers for requests and replies do, exactly: which packets they send, and what becomes of every
    route and every packet that waits. */
module AodvExactRequests {
  import opened Numbers
  import opened AodvTypes
  import opened AodvHandlers
  import opened AodvSteps

  // ----- packets sent -----

  /** The routing packets among those sent, in order. */
  function Control(out: seq<Msg>): seq<Msg> {
    if out == [] then [] else (if out[0].Data? then [] else [out[0]]) + Control(out[1..])
  }

  /** The data packets among those sent, in order. */
  function DataSent(out: seq<Msg>): seq<Msg> {
    if out == [] then [] else (if out[0].Data? then [out[0]] else []) + DataSent(out[1..])
  }

  lemma {:induction false} ControlConcat(a: seq<Msg>, b: seq<Msg>)
    ensures Control(a + b) == Control(a) + Control(b)
  {
    if a == [] {
      assert a + b == b;
    } else {
      assert (a + b)[1..] == a[1..] + b;
      ControlConcat(a[1..], b);
    }
  }

  lemma {:induction false} DataConcat(a: seq<Msg>, b: seq<Msg>)
    ensures DataSent(a + b) == DataSent(a) + DataSent(b)
  {
    if a == [] {
      assert a + b == b;
    } else {
      assert (a + b)[1..] == a[1..] + b;
      DataConcat(a[1..], b);
    }
  }

  lemma {:induction false} ForwardedIsData(q: seq<Buffered>, nextHop: Addr)
    ensures Control(Forwarded(q, nextHop)) == [] && DataSent(Forwarded(q, nextHop)) == Forwarded(q, nextHop)
  {
    if q != [] {
      ForwardedIsData(q[1..], nextHop);
      var rest := Forwarded(q[1..], nextHop);
      if q[0].packet.ttl == 0 {
        assert Forwarded(q, nextHop) == [] + rest == rest;
      } else {
        assert Forwarded(q, nextHop) == [Data(q[0].packet, nextHop)] + rest;
        assert Forwarded(q, nextHop)[1..] == rest;
      }
    }
  }

  lemma Sorted(data: seq<Msg>, q: seq<Buffered>, nextHop: Addr, control: seq<Msg>)
    requires data == [] || data == Forwarded(q, nextHop)
    requires |control| <= 1 && forall m :: m in control ==> !m.Data?
    ensures Control(data + control) == control && DataSent(data + control) == data
  {
    ControlConcat(data, control);
    DataConcat(data, control);
    ForwardedIsData(q, nextHop);
    if control != [] {
      assert control[0] in control;
      assert control == [control[0]] && control[1..] == [];
      assert Control([]) == [] && DataSent([]) == [];
    }
  }

  // ----- routes -----

  /** The packets that wait for d at a node and have not aged leave by x, and the others stay. */
  ghost predicate Delivered(n: Node, n': Node, d: Addr, now: real, x: Addr, data: seq<Msg>) {
    && data == (if d == n.id then [] else Forwarded(For(Live(n.queue, now), d), x))
    && n'.queue == NotFor(Live(n.queue, now), d)
  }

  /** A route as an offer has it. */
  predicate Installed(e: Entry, seqno: nat, hops: nat, from: Addr) {
    e.flag.Up? && e.seqno == seqno && e.hops == hops && e.nextHop == from
  }

  /** The state of an earlier search is forgotten. */
  predicate SearchReset(e: Entry, hops: nat) {
    e.reqCnt == 0 && e.reqTimeout == 0.0 && e.reqLastTtl == hops
  }

  predicate SearchKept(e: Entry, e': Entry) {
    e'.reqCnt == e.reqCnt && e'.reqTimeout == e.reqTimeout && e'.reqLastTtl == e.reqLastTtl
  }

  /** As it was, but perhaps for its precursors. */
  predicate Unchanged(e: Entry, e': Entry) {
    e' == e.(precursors := e'.precursors) && e.precursors <= e'.precursors
  }

  /** The same, with another lifetime. */
  predicate UnchangedBut(e: Entry, e': Entry, expire: real) {
    Unchanged(e.(expire := expire), e')
  }

  // ----- requests -----

  /** A request from another node that was not seen before. */
  predicate NewRequest(n: Node, m: Msg) {
    m.Rreq? && m.src != n.id && (m.src, m.bcastId) !in n.seen
  }

  /** A request of one's own, or one seen before, is dropped. */
  lemma OldRequestIsIgnored(n: Node, m: Msg, env: Env)
    requires m.Rreq? && !NewRequest(n, m)
    ensures RecvRequest(n, m, env) == (n, [])
  {
  }

  /** What the reverse-route half makes of the entry e of the source, with `data` what it forwards. */
  predicate Reversed(e: Entry, e': Entry, m: Msg, now: real, data: seq<Msg>)
    requires m.Rreq?
  {
    if Fresher(e, m.srcSeqno, m.hops) then
      && Installed(e', m.srcSeqno, m.hops, m.from) && e.precursors <= e'.precursors
      && (if e.reqTimeout > 0.0 then SearchReset(e', m.hops) else SearchKept(e, e'))
      && e'.expire == (if e.reqTimeout > 0.0 || data != [] then now + ACTIVE_ROUTE_TIMEOUT
                       else MaxReal(e.expire, now + REV_ROUTE_LIFE))
    else UnchangedBut(e, e', MaxReal(e.expire, now + REV_ROUTE_LIFE))
  }

  /** The two halves of a new request. */
  lemma Halves(n: Node, m: Msg, env: Env) returns (n1: Node, data: seq<Msg>, n2: Node, out: seq<Msg>)
    requires NewRequest(n, m)
    ensures (n1, data) == ReverseRoute(n.(seen := n.seen[(m.src, m.bcastId) := env.now + BCAST_ID_SAVE]), m, env.now)
    ensures (n2, out) == AnswerRequest(n1, m, env) && RecvRequest(n, m, env) == (n2, data + out)
    ensures n1.id == n.id && n1.seqno == n.seqno && |out| <= 1 && forall o :: o in out ==> !o.Data?
    ensures Control(data + out) == out && DataSent(data + out) == data
  {
    var n0 := n.(seen := n.seen[(m.src, m.bcastId) := env.now + BCAST_ID_SAVE]);
    n1, data := ReverseRoute(n0, m, env.now).0, ReverseRoute(n0, m, env.now).1;
    n2, out := AnswerRequest(n1, m, env).0, AnswerRequest(n1, m, env).1;
    Sorted(data, For(Live(n.queue, env.now), m.src), m.from, out);
  }

  lemma ReverseRouteIsExact(n: Node, m: Msg, now: real, d: Addr)
    requires m.Rreq? && m.src != n.id
    ensures var (n', data) := ReverseRoute(n, m, now); var e, e' := Lookup(n, d), Lookup(n', d);
      && m.src in n'.table && n'.bid == n.bid && n'.seen == n.seen
      && (if d == m.src then Reversed(e, e', m, now, data) else e' == e)
      && (if Fresher(Lookup(n, m.src), m.srcSeqno, m.hops) then Delivered(n, n', m.src, now, m.from, data)
          else data == [] && n'.queue == n.queue)
  {
  }

  lemma AnswerLeaves(n: Node, m: Msg, env: Env, d: Addr)
    requires m.Rreq? && m.src in n.table
    ensures var n' := AnswerRequest(n, m, env).0;
      && Unchanged(Lookup(n, d), Lookup(n', d)) && n'.queue == n.queue && n'.bid == n.bid && n'.seen == n.seen
  {
  }

  /** A new request is remembered, and a route back to its source is installed exactly if it offers a fresher one;
      then what waits for the source is forwarded along it. Every other route stays. */
  lemma RequestInstallsReverseRoute(n: Node, m: Msg, env: Env, d: Addr)
    requires NewRequest(n, m)
    ensures var (n', out) := RecvRequest(n, m, env); var e, e' := Lookup(n, d), Lookup(n', d);
      && m.src in n'.table && n'.id == n.id && n'.bid == n.bid
      && n'.seen == n.seen[(m.src, m.bcastId) := env.now + BCAST_ID_SAVE]
      && (if d == m.src then Reversed(e, e', m, env.now, DataSent(out)) else Unchanged(e, e'))
      && (if Fresher(Lookup(n, m.src), m.srcSeqno, m.hops) then Delivered(n, n', m.src, env.now, m.from, DataSent(out))
          else DataSent(out) == [] && n'.queue == n.queue)
  {
    var n1, data, n2, out := Halves(n, m, env);
    ReverseRouteIsExact(n.(seen := n.seen[(m.src, m.bcastId) := env.now + BCAST_ID_SAVE]), m, env.now, d);
    AnswerLeaves(n1, m, env, d);
  }

  /** The reply of a node that has a fresh enough route, or the request it relays otherwise. */
  ghost predicate AnsweredOrRelayed(n': Node, m: Msg, env: Env, control: seq<Msg>)
    requires m.Rreq?
  {
    var e, back := Lookup(n', m.dst), Lookup(n', m.src);
    if e.hops != INFINITY2 && e.seqno >= m.dstSeqno then
      && control == [Rrep(n'.id, back.nextHop, m.src, m.dst, e.seqno, Byte(e.hops + 1),
                          Lifetime(e.expire - env.now, env.castOfNegative), NETWORK_DIAMETER)]
      && back.nextHop in e.precursors && e.nextHop in back.precursors
    else
      control == if m.ttl == 1 then []
                 else [Rreq(n'.id, m.src, m.srcSeqno, m.dst, Max(e.seqno, m.dstSeqno), m.bcastId, Byte(m.hops + 1),
                            m.ttl - 1)]
  }

  lemma AnswerIsExact(n: Node, m: Msg, env: Env)
    requires m.Rreq? && m.dst != n.id && m.src in n.table
    ensures var (n', out) := AnswerRequest(n, m, env);
      n'.id == n.id && n'.seqno == n.seqno && AnsweredOrRelayed(n', m, env, out)
  {
  }

  /** A node that is not the destination replies if and only if it has, with the reverse route in, a finite route with
      at least the number asked for, and then only once, on behalf of the destination, towards the
      source, with the number, hop count and lifetime of its entry, and remembers who uses the route;
      otherwise it relays the request, once, with the larger of the two numbers, unless its TTL runs
      out. */
  lemma RequestAnsweredIff(n: Node, m: Msg, env: Env)
    requires NewRequest(n, m) && m.dst != n.id
    ensures var (n', out) := RecvRequest(n, m, env);
      n'.id == n.id && n'.seqno == n.seqno && AnsweredOrRelayed(n', m, env, Control(out))
  {
    var n1, data, n2, out := Halves(n, m, env);
    ReverseRouteIsExact(n.(seen := n.seen[(m.src, m.bcastId) := env.now + BCAST_ID_SAVE]), m, env.now, m.src);
    AnswerIsExact(n1, m, env);
  }

  /** So a reply is among what it sends exactly if the route is fresh enough. */
  lemma RepliesIffFreshEnough(n: Node, m: Msg, env: Env)
    requires NewRequest(n, m) && m.dst != n.id
    ensures var (n', out) := RecvRequest(n, m, env); var e := Lookup(n', m.dst);
      (exists o :: o in out && o.Rrep?) <==> e.hops != INFINITY2 && e.seqno >= m.dstSeqno
  {
    RequestAnsweredIff(n, m, env);
    var (n', out) := RecvRequest(n, m, env);
    ControlMembers(out);
    var e, control := Lookup(n', m.dst), Control(out);
    if e.hops != INFINITY2 && e.seqno >= m.dstSeqno {
      assert control[0] in control;
    }
  }

  lemma {:induction false} ControlMembers(out: seq<Msg>)
    ensures forall o :: o in Control(out) <==> o in out && !o.Data?
  {
    if out != [] {
      ControlMembers(out[1..]);
      assert forall o :: o in out <==> o == out[0] || o in out[1..];
    }
  }

  /** The destination answers every new request, once, with the next even number of its own above both its number and
      the one asked for. */
  lemma DestinationAnswersOnce(n: Node, m: Msg, env: Env)
    requires NewRequest(n, m) && m.dst == n.id
    ensures var (n', out) := RecvRequest(n, m, env);
      && n'.seqno % 2 == 0 && Max(n.seqno, m.dstSeqno) < n'.seqno <= Max(n.seqno, m.dstSeqno) + 2
      && Control(out) == [Rrep(n.id, Lookup(n', m.src).nextHop, m.src, n.id, n'.seqno, 1, MY_ROUTE_TIMEOUT,
                               NETWORK_DIAMETER)]
  {
    var n1, data, n2, out := Halves(n, m, env);
  }

  // ----- replies -----

  /** Whether a reply that was accepted is to go on. */
  predicate GoesOn(n': Node, m: Msg)
    requires m.Rrep?
  {
    m.ipDst != n'.id && Lookup(n', m.ipDst).hops != INFINITY2
  }

  /** The entry of the destination that a reply offers, if it is fresher. It lives until now plus the lifetime
      replied, or as an active route if a packet uses it already. */
  predicate Accepts(e: Entry, e': Entry, m: Msg, now: real, used: bool)
    requires m.Rrep?
  {
    && Installed(e', m.dstSeqno, m.hops, m.from) && SearchReset(e', m.hops) && e.precursors <= e'.precursors
    && e'.expire == if used then now + ACTIVE_ROUTE_TIMEOUT else now + m.lifetime as real
  }

  lemma ForwardRouteIsExact(n: Node, m: Msg, now: real)
    requires m.Rrep? && m.dst in n.table
    ensures var (n', data) := ForwardRoute(n, m, now); var e, e' := Lookup(n, m.dst), Lookup(n', m.dst);
      && m.dst in n'.table && n'.id == n.id && n'.seqno == n.seqno && n'.bid == n.bid && n'.seen == n.seen
      && Accepts(e, e', m, now, data != []) && Delivered(n, n', m.dst, now, m.from, data)
      && (forall d :: d != m.dst ==> Lookup(n', d) == Lookup(n, d))
  {
  }

  lemma RelayReplyIsExact(n: Node, m: Msg, now: real, d: Addr)
    requires m.Rrep? && m.dst in n.table
    ensures var (n', out) := RelayReply(n, m, now); var back := Lookup(n', m.ipDst);
      && n'.id == n.id && n'.seqno == n.seqno && n'.bid == n.bid && n'.seen == n.seen && n'.queue == n.queue
      && (GoesOn(n, m) <==> GoesOn(n', m))
      && out == (if GoesOn(n', m) && m.ttl != 1
                 then [Rrep(n.id, back.nextHop, m.ipDst, m.dst, m.dstSeqno, Byte(m.hops + 1), m.lifetime, m.ttl - 1)]
                 else [])
      && (GoesOn(n', m) ==> back.nextHop in Lookup(n', m.dst).precursors)
      && (if d == m.ipDst && out != [] then UnchangedBut(Lookup(n, d), Lookup(n', d), now + ACTIVE_ROUTE_TIMEOUT)
          else Unchanged(Lookup(n, d), Lookup(n', d)))
  {
  }

  /** A reply that offers nothing fresher changes no route and sends nothing. */
  lemma StaleReplyIsIgnored(n: Node, m: Msg, now: real, d: Addr)
    requires m.Rrep? && !Fresher(Lookup(n, m.dst), m.dstSeqno, m.hops)
    ensures var (n', out) := RecvReply(n, m, now);
      && out == [] && Lookup(n', d) == Lookup(n, d) && n'.queue == n.queue
      && n'.id == n.id && n'.seqno == n.seqno && n'.bid == n.bid && n'.seen == n.seen
  {
  }

  /** A fresher one is installed, for the lifetime replied unless it is used at once; what waits for the destination
      leaves along it; and the reply goes on, once, towards the source exactly if the node is not the
      source, has a finite route to it and the TTL allows it. Every other route stays. */
  lemma FreshReplyIsAccepted(n: Node, m: Msg, now: real, d: Addr)
    requires m.Rrep? && Fresher(Lookup(n, m.dst), m.dstSeqno, m.hops)
    ensures var (n', out) := RecvReply(n, m, now); var back := Lookup(n', m.ipDst);
      && n'.id == n.id && n'.seqno == n.seqno && n'.bid == n.bid && n'.seen == n.seen
      && Accepts(Lookup(n, m.dst), Lookup(n', m.dst), m, now,
                 DataSent(out) != [] || (m.dst == m.ipDst && Control(out) != []))
      && Delivered(n, n', m.dst, now, m.from, DataSent(out))
      && Control(out) == (if GoesOn(n', m) && m.ttl != 1
                          then [Rrep(n.id, back.nextHop, m.ipDst, m.dst, m.dstSeqno, Byte(m.hops + 1), m.lifetime,
                                     m.ttl - 1)]
                          else [])
      && (GoesOn(n', m) ==> back.nextHop in Lookup(n', m.dst).precursors)
      && (d == m.ipDst != m.dst && Control(out) != [] ==>
            UnchangedBut(Lookup(n, d), Lookup(n', d), now + ACTIVE_ROUTE_TIMEOUT))
      && (d != m.dst && (d != m.ipDst || Control(out) == []) ==> Unchanged(Lookup(n, d), Lookup(n', d)))
  {
    var n0 := RtAdd(n, m.dst);
    var (n1, data) := ForwardRoute(n0, m, now);
    var (n2, out) := RelayReply(n1, m, now);
    ForwardRouteIsExact(n0, m, now);
    RelayReplyIsExact(n1, m, now, d);
    RelayReplyIsExact(n1, m, now, m.dst);
    Sorted(data, For(Live(n.queue, now), m.dst), m.from, out);
    assert RecvReply(n, m, now) == (n2, data + out);
  }

  // ----- asking, and packets without a route -----

  /** Whether a request may go out: the route is not up, and the time of the last has passed. */
  predicate Due(e: Entry, now: real) {
    !e.flag.Up? && e.reqTimeout <= now
  }

  /** A search that has used its network-wide requests. */
  predicate Exhausted(e: Entry) {
    e.reqCnt > RREQ_RETRIES
  }

  /** One request of one's own: with the next own number and broadcast id, and the last number known. */
  ghost predicate Asked(n: Node, n': Node, d: Addr, out: seq<Msg>) {
    var e, e' := Lookup(n, d), Lookup(n', d);
    && out == [Rreq(n.id, n.id, n.seqno + 2, d, e.seqno, n.bid, 1, e'.reqLastTtl)]
    && n'.seqno == n.seqno + 2 && n'.bid == n.bid + 1 && n'.queue == n.queue
    && SameRoute(e, e') && e'.flag == e.flag && e'.precursors == e.precursors && e'.lastHops == e.lastHops
  }

  /** The search is given up: what waits is dropped, and the next may begin after the longest timeout. */
  ghost predicate Abandoned(n: Node, n': Node, d: Addr, now: real, out: seq<Msg>) {
    && out == [] && n'.seqno == n.seqno && n'.bid == n.bid
    && n'.queue == NotFor(Live(n.queue, now), d)
    && Lookup(n', d) == Lookup(n, d).(reqTimeout := now + MAX_RREQ_TIMEOUT, reqCnt := 0)
  }

  /** A request goes out exactly when one is due and the search is not exhausted; when it is, it is given up; a request
      that is not due changes nothing. */
  lemma RequestIsSentIff(n: Node, d: Addr, env: Env)
    ensures var (n', out) := SendRequest(n, d, env); var e := Lookup(n, d);
      && (!Due(e, env.now) ==> (n', out) == (n, []))
      && (Due(e, env.now) && Exhausted(e) ==> Abandoned(n, n', d, env.now, out))
      && (Due(e, env.now) && !Exhausted(e) ==> Asked(n, n', d, out))
      && (forall x :: x != d ==> Lookup(n', x) == Lookup(n, x))
  {
  }

  /** The expanding ring: below the threshold a request goes two hops farther than the last one, or than the route once
      was long, from there on everywhere; only the latter are counted. The next may follow after twice
      the round trip over its TTL, times that count, and within the longest timeout. */
  lemma RingWidens(e: Entry, now: real, perHop: real)
    requires Due(e, now) && !Exhausted(e) && SoundEntry(e)
    ensures TryRequest(e, now, perHop).Query?
    ensures var a := TryRequest(e, now, perHop); var e', last := a.entry, Max(e.reqLastTtl, e.lastHops);
      && e'.reqLastTtl == a.ttl > 0
      && (last < TTL_THRESHOLD ==> a.ttl == last + 2 && e'.reqCnt == e.reqCnt)
      && (last >= TTL_THRESHOLD ==> a.ttl == NETWORK_DIAMETER && e'.reqCnt == e.reqCnt + 1)
      && var wait := 2.0 * (a.ttl as real) * perHop * (if e'.reqCnt > 0 then e'.reqCnt as real else 1.0);
         e'.reqTimeout == if wait > MAX_RREQ_TIMEOUT then now + MAX_RREQ_TIMEOUT else now + wait
  {
  }

  /** What becomes of a data packet: along an up route it leaves; without one a packet of one's own is buffered and
      asked for; another's is reported as undeliverable, or buffered while the route is under repair. */
  lemma PacketIsRouted(n: Node, p: Packet, env: Env)
    ensures var (n', out) := RtResolve(n, p, env); var e, e' := Lookup(n, p.dst), Lookup(n', p.dst);
      && p.dst in n'.table && (forall d :: d != p.dst ==> Lookup(n', d) == Lookup(n, d))
      && (e.flag.Up? ==>
            && out == (if p.ttl == 0 || p.dst == n.id then [] else [Data(p, e.nextHop)]) && n'.queue == n.queue
            && e' == if out == [] then e else e.(expire := env.now + ACTIVE_ROUTE_TIMEOUT))
      && (!e.flag.Up? && p.src != n.id ==> e' == e)
      && (e.flag.InRepair? && p.src != n.id ==> out == [] && n'.queue == Enqueued(n.queue, p, env.now))
      && (e.flag.Down? && p.src != n.id ==>
            out == [Rerr(n.id, [Unreachable(p.dst, e.seqno)])] && n'.queue == n.queue)
  {
  }

  /** A packet of one's own without a route waits in the buffer, and a request goes out if one is due; only a search
      given up at that moment drops it. */
  lemma OwnPacketWaits(n: Node, p: Packet, env: Env)
    requires p.src == n.id && !Lookup(n, p.dst).flag.Up?
    ensures var (n', out) := RtResolve(n, p, env);
      var e, queued := Lookup(n, p.dst), n.(queue := Enqueued(n.queue, p, env.now));
      && (!Due(e, env.now) ==> out == [] && n'.queue == queued.queue && Lookup(n', p.dst) == e)
      && (Due(e, env.now) && Exhausted(e) ==> Abandoned(queued, n', p.dst, env.now, out))
      && (Due(e, env.now) && !Exhausted(e) ==> Asked(queued, n', p.dst, out))
      && (!(Due(e, env.now) && Exhausted(e)) ==> Buffered(p, env.now + RTQ_TIMEOUT) in n'.queue)
  {
    var n1 := RtAdd(n, p.dst).(queue := Enqueued(n.queue, p, env.now));
    RequestIsSentIff(n1, p.dst, env);
    assert RtResolve(n, p, env) == SendRequest(n1, p.dst, env);
  }

  /** A data packet from a neighbour: one's own is dropped, and so is one whose TTL runs out; any other goes on with one
      hop less to go. */
  lemma ReceivedPacketGoesOn(n: Node, p: Packet, env: Env)
    ensures p.src == n.id || p.ttl == 1 ==> RecvData(n, p, env) == (n, [])
    ensures p.src != n.id && p.ttl != 1 && Lookup(n, p.dst).flag.Up? && p.dst != n.id ==>
              RecvData(n, p, env).1 == [Data(p.(ttl := p.ttl - 1), Lookup(n, p.dst).nextHop)]
    ensures p.src != n.id && p.ttl != 1 && Lookup(n, p.dst).flag.Down? ==>
              RecvData(n, p, env).1 == [Rerr(n.id, [Unreachable(p.dst, Lookup(n, p.dst).seqno)])]
  {
  }
}
