/** The AODV agent as the source has it: fields that the handlers update in place, loops over the
    route list, and the linked send buffer. Each handler refines its function in AodvHandlers, and
    the asserts of the source stand where it has them. */
module AodvAgent {
  import opened Numbers
  import opened AodvTypes
  import opened AodvHandlers
  import opened AodvSteps
  import opened AodvStepProofs
  import opened AodvSendBuffer
  import opened AodvBroadcastIds

  /** The table after forwarding `out` along the entry of d. */
  ghost function Refreshed(table: map<Addr, Entry>, d: Addr, out: seq<Msg>, now: real): map<Addr, Entry>
    requires d in table
  {
    if out == [] then table else table[d := table[d].(expire := now + ACTIVE_ROUTE_TIMEOUT)]
  }

  /** What forwarding one packet sends. */
  ghost function SentFor(n: Node, p: Packet, nextHop: Addr): seq<Msg> {
    if p.ttl == 0 || p.dst == n.id then [] else [Data(p, nextHop)]
  }

  /** The packets forwarded so far, and those that follow from `waiting`, are what a delivery forwards. */
  ghost predicate Split(n: Node, d: Addr, now: real, nextHop: Addr, out: seq<Msg>, waiting: seq<Buffered>) {
    if d == n.id then out == []
    else Forwarded(For(Live(n.queue, now), d), nextHop) == out + Forwarded(waiting, nextHop)
  }

  /** The middle of a delivery: `out` has been forwarded, `waiting` has not. */
  ghost predicate Delivering(n: Node, d: Addr, now: real, table: map<Addr, Entry>, out: seq<Msg>,
                             waiting: seq<Buffered>)
    requires d in n.table
  {
    && table == Refreshed(n.table, d, out, now)
    && Split(n, d, now, n.table[d].nextHop, out, waiting)
  }

  lemma SplitNext(n: Node, d: Addr, now: real, nextHop: Addr, out: seq<Msg>, waiting: seq<Buffered>)
    requires Split(n, d, now, nextHop, out, waiting) && waiting != [] && waiting[0].packet.dst == d
    ensures Split(n, d, now, nextHop, out + SentFor(n, waiting[0].packet, nextHop), waiting[1..])
  {
    var sent := SentFor(n, waiting[0].packet, nextHop);
    if d != n.id {
      var rest := Forwarded(waiting[1..], nextHop);
      assert Forwarded(waiting, nextHop) == sent + rest;
      assert out + (sent + rest) == (out + sent) + rest;
    }
  }

  lemma RefreshedAgain(table: map<Addr, Entry>, d: Addr, out: seq<Msg>, sent: seq<Msg>, now: real)
    requires d in table
    ensures d in Refreshed(table, d, out, now)
    ensures Refreshed(Refreshed(table, d, out, now), d, sent, now) == Refreshed(table, d, out + sent, now)
  {
    if sent == [] {
      assert out + sent == out;
    } else {
      assert out + sent != [];
    }
  }

  lemma DeliveringNext(n: Node, d: Addr, now: real, table: map<Addr, Entry>, out: seq<Msg>, waiting: seq<Buffered>)
    requires d in n.table && Delivering(n, d, now, table, out, waiting) && waiting != [] && waiting[0].packet.dst == d
    ensures d in table && table[d].flag == n.table[d].flag
    ensures var sent := SentFor(n, waiting[0].packet, table[d].nextHop);
            Delivering(n, d, now, Refreshed(table, d, sent, now), out + sent, waiting[1..])
  {
    var nextHop := n.table[d].nextHop;
    var sent := SentFor(n, waiting[0].packet, nextHop);
    RefreshedAgain(n.table, d, out, sent, now);
    SplitNext(n, d, now, nextHop, out, waiting);
  }

  /** What waits for d in the buffer q, the packets for others being those of q0. */
  ghost predicate Waiting(q0: seq<Buffered>, q: seq<Buffered>, d: Addr, now: real, waiting: seq<Buffered>) {
    waiting == For(Live(q, now), d) && NotFor(Live(q, now), d) == NotFor(Live(q0, now), d)
  }

  /** The first of `waiting` has been drawn, and the others still wait in q. */
  ghost predicate Drawn(q0: seq<Buffered>, q: seq<Buffered>, d: Addr, now: real, drawn: seq<Buffered>,
                        waiting: seq<Buffered>) {
    if drawn == [] then waiting == [] && q == NotFor(Live(q0, now), d)
    else
      && |drawn| == 1 && waiting != [] && drawn[0] == waiting[0] && drawn[0].packet.dst == d
      && Waiting(q0, q, d, now, waiting[1..])
  }

  lemma TakesDraws(q0: seq<Buffered>, q: seq<Buffered>, r: seq<Buffered>, d: Addr, now: real, drawn: seq<Buffered>,
                   waiting: seq<Buffered>)
    requires Waiting(q0, q, d, now, waiting) && Takes(q, d, now, drawn, r)
    ensures Drawn(q0, r, d, now, drawn, waiting)
  {
    if drawn != [] {
      assert waiting == [drawn[0]] + For(r, d);
    }
  }

  lemma DeliveringDone(n: Node, d: Addr, now: real, table: map<Addr, Entry>, out: seq<Msg>)
    requires d in n.table && Delivering(n, d, now, table, out, [])
    ensures (n.(table := table, queue := NotFor(Live(n.queue, now), d)), out) == Deliver(n, d, now)
  {
    assert out + [] == out;
  }

  // ----- loops in the middle -----

  /** The loop of recvError: `dead` is collected, the reports `todo` remain. */
  ghost predicate Downing(n: Node, from: Addr, todo: seq<Unreachable>, dead: seq<Unreachable>,
                          result: (Node, seq<Unreachable>)) {
    var r := DownRoutes(n, from, todo);
    result.0 == r.0 && result.1 == dead + r.1
  }

  lemma DowningNext(n: Node, from: Addr, todo: seq<Unreachable>, dead: seq<Unreachable>,
                    result: (Node, seq<Unreachable>))
    requires Downing(n, from, todo, dead, result) && todo != []
    ensures var d, s := todo[0].dst, todo[0].seqno;
            if d in n.table && Invalidates(n.table[d], from, s) then
              var e := RtDown(n.table[d].(seqno := s));
              Downing(SetEntry(n, d, e.(precursors := {})), from, todo[1..],
                      if e.precursors == {} then dead else dead + [Unreachable(d, s)], result)
            else Downing(n, from, todo[1..], dead, result)
  {
    var d, s := todo[0].dst, todo[0].seqno;
    if d in n.table && Invalidates(n.table[d], from, s) {
      var more := DownRoutes(SetEntry(n, d, RtDown(n.table[d].(seqno := s)).(precursors := {})), from, todo[1..]).1;
      assert dead + ([Unreachable(d, s)] + more) == (dead + [Unreachable(d, s)]) + more;
      assert dead + ([] + more) == dead + more;
    }
  }

  /** The number of an up route is even, so that the next one is odd. */
  lemma OddNext(e: Entry, e': Entry)
    requires GoodEntry(e) && e.flag.Up? && e' == e.(seqno := e.seqno + 1)
    ensures e'.seqno % 2 == 1 && RtDown(e.(seqno := e.seqno + 1)) == RtDown(e')
  {
  }

  /** The two halves of recvRequest, one after the other. */
  ghost function BothHalves(n: Node, m: Msg, env: Env): (Node, seq<Msg>)
    requires m.Rreq?
  {
    var (n2, data) := ReverseRoute(n, m, env.now);
    var (n3, reply) := AnswerRequest(n2, m, env);
    (n3, data + reply)
  }

  lemma RequestInHalves(n: Node, m: Msg, env: Env)
    requires m.Rreq? && m.src != n.id && (m.src, m.bcastId) !in n.seen
    ensures AodvHandlers.RecvRequest(n, m, env)
         == BothHalves(n.(seen := n.seen[(m.src, m.bcastId) := env.now + BCAST_ID_SAVE]), m, env)
  {
  }

  /** The loop of handle_link_failure. */
  ghost predicate Failing(n: Node, nbr: Addr, todo: seq<Addr>, dead: seq<Unreachable>,
                          result: (Node, seq<Unreachable>)) {
    var r := FailRoutes(n, nbr, todo);
    result.0 == r.0 && result.1 == dead + r.1
  }

  lemma FailingNext(n: Node, nbr: Addr, todo: seq<Addr>, dead: seq<Unreachable>,
                    result: (Node, seq<Unreachable>))
    requires Failing(n, nbr, todo, dead, result) && todo != []
    ensures var d := todo[0]; var e := Lookup(n, d);
            Failing(SetEntry(n, d, FailedEntry(e, nbr)), nbr, todo[1..],
                    if RoutedOver(e, nbr) then dead + [Unreachable(d, FailedEntry(e, nbr).seqno)] else dead, result)
  {
    var d, f := todo[0], FailedEntry(Lookup(n, todo[0]), nbr);
    var more := FailRoutes(SetEntry(n, d, f), nbr, todo[1..]).1;
    assert dead + ([Unreachable(d, f.seqno)] + more) == (dead + [Unreachable(d, f.seqno)]) + more;
    assert dead + ([] + more) == dead + more;
  }

  /** The loop of rt_purge. */
  ghost predicate Purging(n: Node, todo: seq<Addr>, env: Env, out: seq<Msg>, result: (Node, seq<Msg>)) {
    var r := PurgeRoutes(n, todo, env);
    result.0 == r.0 && result.1 == out + r.1
  }

  lemma PurgingNext(n: Node, todo: seq<Addr>, env: Env, out: seq<Msg>, result: (Node, seq<Msg>))
    requires Purging(n, todo, env, out, result) && todo != []
    ensures var (n1, more) := PurgeEntry(n, todo[0], env); Purging(n1, todo[1..], env, out + more, result)
  {
    var (n1, more) := PurgeEntry(n, todo[0], env);
    var rest := PurgeRoutes(n1, todo[1..], env).1;
    assert out + (more + rest) == (out + more) + rest;
  }

  // ----- a handler leaves the node well formed -----

  lemma RequestLocal(n: Node, m: Msg, env: Env)
    requires Local(n) && m.Rreq? && Wholesome(m)
    ensures Local(AodvHandlers.RecvRequest(n, m, env).0)
  {
    RecvRequestStep(n, m, env);
    StaysLocal(n, AodvHandlers.RecvRequest(n, m, env).0, Got(m), AodvHandlers.RecvRequest(n, m, env).1);
  }

  lemma ReplyLocal(n: Node, m: Msg, now: real)
    requires Local(n) && m.Rrep? && Wholesome(m)
    ensures Local(AodvHandlers.RecvReply(n, m, now).0)
  {
    RecvReplyStep(n, m, now);
    StaysLocal(n, AodvHandlers.RecvReply(n, m, now).0, Got(m), AodvHandlers.RecvReply(n, m, now).1);
  }

  lemma ErrorLocal(n: Node, m: Msg)
    requires Local(n) && m.Rerr? && Wholesome(m)
    ensures Local(AodvHandlers.RecvError(n, m).0)
  {
    RecvErrorStep(n, m);
    StaysLocal(n, AodvHandlers.RecvError(n, m).0, Got(m), AodvHandlers.RecvError(n, m).1);
  }

  lemma FailureLocal(n: Node, nbr: Addr)
    requires Local(n)
    ensures Local(AodvHandlers.HandleLinkFailure(n, nbr).0)
  {
    FailRoutesStep(n, nbr, n.list);
    var n' := FailRoutes(n, nbr, n.list).0;
    forall d | d in n'.table
      ensures GoodEntry(n'.table[d])
    {
      assert KeptOrDown(n, n', d);
    }
  }

  lemma ResolveLocal(n: Node, p: Packet, env: Env)
    requires Local(n)
    ensures Local(AodvHandlers.RtResolve(n, p, env).0)
  {
    RtResolveStep(n, p, env);
    StaysLocal(n, AodvHandlers.RtResolve(n, p, env).0, Nothing, AodvHandlers.RtResolve(n, p, env).1);
  }

  lemma PurgeLocal(n: Node, d: Addr, env: Env)
    requires Local(n) && d in n.table
    ensures Local(PurgeEntry(n, d, env).0)
  {
    PurgeEntryStep(n, d, env);
    StaysLocal(n, PurgeEntry(n, d, env).0, Nothing, PurgeEntry(n, d, env).1);
  }

  lemma InstalledLocal(n: Node, m: Msg, now: real)
    requires Local(n) && m.Rrep? && Wholesome(m) && m.dst in n.table
    requires Fresher(n.table[m.dst], m.dstSeqno, m.hops)
    ensures Local(ForwardRoute(n, m, now).0) && m.dst in ForwardRoute(n, m, now).0.table
  {
    ForwardRouteStep(n, m, now);
    StaysLocal(n, ForwardRoute(n, m, now).0, Got(m), ForwardRoute(n, m, now).1);
  }

  class Agent {
    const index: Addr
    var seqno: nat
    var bid: nat
    var list: seq<Addr>
    var table: map<Addr, Entry>
    var ids: seq<BroadcastId>
    ghost var seen: map<(Addr, nat), real>  // what the list of ids stands for
    const rqueue: SendBuffer

    ghost predicate Valid()
      reads this, rqueue, rqueue.footprint
    {
      rqueue.Valid() && Local(State()) && DistinctKeys(ids) && Lists(ids, seen)
    }

    ghost function State(): Node
      requires rqueue.Valid()
      reads this, rqueue, rqueue.footprint
    {
      Node(index, seqno, bid, list, table, seen, rqueue.Contents())
    }

    constructor (id: Addr)
      ensures Valid() && State() == Node(id, 2, 1, [], map[], map[], []) && fresh(rqueue)
    {
      index := id;
      seqno, bid := 2, 1;
      list, table, ids, seen := [], map[], [], map[];
      rqueue := new SendBuffer();
    }

    // ----- the send buffer -----

    /** forward for a data packet with a route. */
    method Forward(d: Addr, p: Packet, now: real) returns (out: seq<Msg>)
      requires rqueue.Valid() && d in table && table[d].flag.Up?
      modifies this`table
      ensures out == if p.ttl == 0 || p.dst == index then [] else [Data(p, old(table)[d].nextHop)]
      ensures table == Refreshed(old(table), d, out, now)
      ensures rqueue.Valid() && rqueue.Contents() == old(rqueue.Contents())
    {
      if p.ttl == 0 || p.dst == index {
        return [];
      }
      assert table[d].flag == Up;
      table := table[d := table[d].(expire := now + ACTIVE_ROUTE_TIMEOUT)];
      out := [Data(p, table[d].nextHop)];
    }

    /** The next packet for d. `q0` is the buffer that the loop began with. */
    method NextFor(d: Addr, now: real, ghost q0: seq<Buffered>, ghost waiting: seq<Buffered>) returns (p: Cell?)
      requires rqueue.Valid() && Waiting(q0, rqueue.Contents(), d, now, waiting)
      modifies rqueue, rqueue.footprint
      ensures rqueue.Valid() && rqueue.footprint == old(rqueue.footprint)
      ensures Drawn(q0, rqueue.Contents(), d, now, Taken(p), waiting)
    {
      ghost var q := rqueue.Contents();
      p := rqueue.Deque(d, now);
      TakesDraws(q0, q, rqueue.Contents(), d, now, Taken(p), waiting);
    }

    /** Forwards every buffered packet for d along its route, oldest first. */
    method DeliverBuffered(d: Addr, now: real) returns (out: seq<Msg>)
      requires rqueue.Valid() && d in table && table[d].flag.Up?
      modifies this`table, rqueue, rqueue.footprint
      ensures rqueue.Valid() && rqueue.footprint == old(rqueue.footprint)
      ensures (State(), out) == Deliver(old(State()), d, now)
    {
      out := [];
      ghost var n, waiting := State(), For(Live(rqueue.Contents(), now), d);
      var p := NextFor(d, now, n.queue, waiting);
      while p != null
        invariant rqueue.Valid() && rqueue.footprint == old(rqueue.footprint)
        invariant Drawn(n.queue, rqueue.Contents(), d, now, Taken(p), waiting)
        invariant Delivering(n, d, now, table, out, waiting)
        decreases |waiting|
      {
        DeliveringNext(n, d, now, table, out, waiting);
        var sent := Forward(d, p.packet, now);
        out := out + sent;
        waiting := waiting[1..];
        p := NextFor(d, now, n.queue, waiting);
      }
      DeliveringDone(n, d, now, table, out);
    }

    /** Drops every buffered packet for d. */
    method FlushBuffered(d: Addr, now: real)
      requires rqueue.Valid()
      modifies rqueue, rqueue.footprint
      ensures rqueue.Valid() && rqueue.footprint == old(rqueue.footprint)
      ensures rqueue.Contents() == NotFor(Live(old(rqueue.Contents()), now), d)
    {
      ghost var live := Live(rqueue.Contents(), now);
      var p := rqueue.Deque(d, now);
      while p != null
        invariant rqueue.Valid() && rqueue.footprint == old(rqueue.footprint)
        invariant var q := rqueue.Contents();
                  && Live(q, now) == q && NotFor(q, d) == NotFor(live, d) && (p == null ==> q == NotFor(live, d))
        decreases p != null, |rqueue.Contents()|
      {
        p := rqueue.Deque(d, now);
      }
    }

    // ----- route entries -----

    method RtAddIfMissing(d: Addr)
      requires rqueue.Valid()
      modifies this`list, this`table
      ensures rqueue.Valid() && State() == RtAdd(old(State()), d)
    {
      if d !in table {
        list := [d] + list;
        table := table[d := FRESH];
      }
    }

    // ----- requests -----

    /** The arithmetic of sendRequest: when to ask again, how far, how long to wait. */
    method Attempted(rt: Entry, now: real, perHop: real) returns (a: Attempt)
      requires GoodEntry(rt)
      ensures a == TryRequest(rt, now, perHop)
    {
      if rt.flag == Up {
        assert rt.hops != INFINITY2;
        return Refused;
      }
      if rt.reqTimeout > now {
        return Refused;
      }
      if rt.reqCnt > RREQ_RETRIES {
        return GaveUp(rt.(reqTimeout := now + MAX_RREQ_TIMEOUT, reqCnt := 0));
      }
      var last, cnt := Max(rt.reqLastTtl, rt.lastHops), rt.reqCnt;
      var ttl;
      if last == 0 {
        ttl := TTL_START;
      } else if last < TTL_THRESHOLD {
        ttl := last + TTL_INCREMENT;
      } else {
        ttl := NETWORK_DIAMETER;
        cnt := cnt + 1;
      }
      var wait := 2.0 * (ttl as real) * perHop;
      if cnt > 0 {
        wait := wait * (cnt as real);
      }
      var timeout := wait + now;
      if timeout > now + MAX_RREQ_TIMEOUT {
        timeout := now + MAX_RREQ_TIMEOUT;
      }
      a := Query(rt.(reqLastTtl := ttl, reqCnt := cnt, reqTimeout := timeout, expire := 0.0), ttl);
    }

    /** sendRequest: rate limit, give up, or an expanding-ring query. */
    method SendRequest(d: Addr, env: Env) returns (out: seq<Msg>)
      requires rqueue.Valid() && d in table && GoodEntry(table[d]) && seqno % 2 == 0
      modifies this`table, this`bid, this`seqno, rqueue, rqueue.footprint
      ensures rqueue.Valid() && rqueue.footprint == old(rqueue.footprint)
      ensures (State(), out) == AodvHandlers.SendRequest(old(State()), d, env)
    {
      out := [];
      var rt := table[d];
      var a := Attempted(rt, env.now, PerHopTime(env, d));
      match a
      case Refused =>
      case GaveUp(e) =>
        table := table[d := e];
        FlushBuffered(d, env.now);
      case Query(e, ttl) =>
        out := Ask(d, e, ttl);
    }

    /** Sends the request itself, with the entry as it is to be. */
    method Ask(d: Addr, e: Entry, ttl: nat) returns (out: seq<Msg>)
      requires rqueue.Valid() && d in table && seqno % 2 == 0
      modifies this`table, this`bid, this`seqno
      ensures rqueue.Valid()
      ensures var n := old(State()); var n1 := SetEntry(n, d, e).(bid := n.bid + 1, seqno := n.seqno + 2);
        State() == n1 && out == [Rreq(n.id, n.id, n1.seqno, d, n.table[d].seqno, n.bid, 1, ttl)]
    {
      var rt := table[d];
      seqno := seqno + 2;
      assert seqno % 2 == 0;
      out := [Rreq(index, index, seqno, d, rt.seqno, bid, 1, ttl)];
      table := table[d := e];
      bid := bid + 1;
    }

    /** The reverse-route half of recvRequest. */
    method InstallReverseRoute(m: Msg, now: real) returns (out: seq<Msg>)
      requires rqueue.Valid() && m.Rreq? && Wholesome(m)
      modifies this`list, this`table, rqueue, rqueue.footprint
      ensures rqueue.Valid() && rqueue.footprint == old(rqueue.footprint) && m.src in table
      ensures (State(), out) == ReverseRoute(old(State()), m, now)
    {
      RtAddIfMissing(m.src);
      ghost var n0 := State();
      var rt0 := table[m.src].(expire := MaxReal(table[m.src].expire, now + REV_ROUTE_LIFE));
      if m.srcSeqno > rt0.seqno || (m.srcSeqno == rt0.seqno && m.hops < rt0.hops) {
        rt0 := RtUpdate(rt0, m.srcSeqno, m.hops, m.from, MaxReal(rt0.expire, now + REV_ROUTE_LIFE));
        if rt0.reqTimeout > 0.0 {
          rt0 := rt0.(reqCnt := 0, reqTimeout := 0.0, reqLastTtl := m.hops, expire := now + ACTIVE_ROUTE_TIMEOUT);
        }
        table := table[m.src := rt0];
        assert Offers(m, Claim(m.src, m.srcSeqno, m.hops, m.from));
        assert rt0.flag == Up && rt0.hops != INFINITY2;
        assert State() == SetEntry(n0, m.src, rt0);
        out := DeliverBuffered(m.src, now);
      } else {
        table := table[m.src := rt0];
        out := [];
      }
    }

    /** The reply-or-relay half of recvRequest. */
    method AnswerOrRelay(m: Msg, env: Env) returns (out: seq<Msg>)
      requires rqueue.Valid() && m.Rreq? && m.src in table
      modifies this`table, this`seqno
      ensures rqueue.Valid() && (State(), out) == AnswerRequest(old(State()), m, env)
    {
      if m.dst == index {
        seqno := Max(seqno, m.dstSeqno) + 1;
        if seqno % 2 == 1 {
          seqno := seqno + 1;
        }
        out := [SendReplyTo(m.src, 1, index, seqno, MY_ROUTE_TIMEOUT)];
      } else if m.dst in table && table[m.dst].hops != INFINITY2 && table[m.dst].seqno >= m.dstSeqno {
        var rt := table[m.dst];
        out := [SendReplyTo(m.src, rt.hops + 1, m.dst, rt.seqno, Lifetime(rt.expire - env.now, env.castOfNegative))];
        table := table[m.dst := rt.(precursors := rt.precursors + {NextHopTo(m.src)})];
        table := table[m.src := table[m.src].(precursors := table[m.src].precursors + {rt.nextHop})];
      } else {
        var asked := m.dstSeqno;
        if m.dst in table {
          asked := Max(table[m.dst].seqno, asked);
        }
        var ttl := m.ttl - 1;
        out := if ttl == 0 then []
               else [Rreq(index, m.src, m.srcSeqno, m.dst, asked, m.bcastId, Byte(m.hops + 1), ttl)];
      }
    }

    method IdInsert(src: Addr, id: nat, now: real)
      requires DistinctKeys(ids) && Lists(ids, seen) && (src, id) !in seen
      modifies this`ids, this`seen
      ensures DistinctKeys(ids) && Lists(ids, seen) && seen == old(seen)[(src, id) := now + BCAST_ID_SAVE]
    {
      var b := BroadcastId(src, id, now + BCAST_ID_SAVE);
      ListsMore(ids, seen, b);
      ids := [b] + ids;
      seen := seen[Key(b) := b.expire];
    }

    method IdLookup(src: Addr, id: nat) returns (found: bool)
      requires DistinctKeys(ids) && Lists(ids, seen)
      ensures found <==> (src, id) in seen
    {
      for i := 0 to |ids|
        invariant forall k :: 0 <= k < i ==> Key(ids[k]) != (src, id)
      {
        if ids[i].src == src && ids[i].id == id {
          assert Key(ids[i]) == (src, id);
          return true;
        }
      }
      return false;
    }

    method RecvRequest(m: Msg, env: Env) returns (out: seq<Msg>)
      requires Valid() && m.Rreq? && Wholesome(m)
      modifies this`list, this`table, this`seqno, this`ids, this`seen, rqueue, rqueue.footprint
      ensures Valid() && rqueue.footprint == old(rqueue.footprint)
      ensures (State(), out) == AodvHandlers.RecvRequest(old(State()), m, env)
    {
      RequestLocal(State(), m, env);
      if m.src == index {
        return [];
      }
      var known := IdLookup(m.src, m.bcastId);
      if known {
        return [];
      }
      out := RecvNewRequest(m, env);
    }

    /** A request that was not seen before. */
    method RecvNewRequest(m: Msg, env: Env) returns (out: seq<Msg>)
      requires rqueue.Valid() && DistinctKeys(ids) && Lists(ids, seen) && m.Rreq? && Wholesome(m)
      requires m.src != index && (m.src, m.bcastId) !in seen
      modifies this`list, this`table, this`seqno, this`ids, this`seen, rqueue, rqueue.footprint
      ensures rqueue.Valid() && rqueue.footprint == old(rqueue.footprint) && DistinctKeys(ids) && Lists(ids, seen)
      ensures (State(), out) == AodvHandlers.RecvRequest(old(State()), m, env)
    {
      ghost var n := State();
      IdInsert(m.src, m.bcastId, env.now);
      assert State() == n.(seen := seen);
      out := TakeRequest(m, env);
      RequestInHalves(n, m, env);
    }

    /** Both halves, once its broadcast id is known. */
    method TakeRequest(m: Msg, env: Env) returns (out: seq<Msg>)
      requires rqueue.Valid() && m.Rreq? && Wholesome(m)
      modifies this`list, this`table, this`seqno, rqueue, rqueue.footprint
      ensures rqueue.Valid() && rqueue.footprint == old(rqueue.footprint)
      ensures (State(), out) == BothHalves(old(State()), m, env)
    {
      var data := InstallReverseRoute(m, env.now);
      var reply := AnswerOrRelay(m, env);
      out := data + reply;
    }

    function NextHopTo(d: Addr): Addr
      reads this
    {
      if d in table then table[d].nextHop else 0
    }

    function SendReplyTo(ipDst: Addr, hops: nat, dst: Addr, rpSeqno: nat, lifetime: nat): Msg
      reads this
    {
      Rrep(index, NextHopTo(ipDst), ipDst, dst, rpSeqno, Byte(hops), lifetime, NETWORK_DIAMETER)
    }

    // ----- replies -----

    /** The half of recvReply that installs the offered route. */
    method InstallForwardRoute(m: Msg, now: real) returns (out: seq<Msg>)
      requires rqueue.Valid() && m.Rrep? && m.dst in table
      modifies this`table, rqueue, rqueue.footprint
      ensures rqueue.Valid() && rqueue.footprint == old(rqueue.footprint)
      ensures (State(), out) == ForwardRoute(old(State()), m, now)
    {
      var rt := RtUpdate(table[m.dst], m.dstSeqno, m.hops, m.from, now + m.lifetime as real);
      rt := rt.(reqCnt := 0, reqTimeout := 0.0, reqLastTtl := m.hops);
      assert ForwardRoute(State(), m, now) == Deliver(SetEntry(State(), m.dst, rt), m.dst, now);
      table := table[m.dst := rt];
      out := DeliverBuffered(m.dst, now);
    }

    /** The forwarding half of recvReply. */
    method Relay(m: Msg, now: real) returns (out: seq<Msg>)
      requires rqueue.Valid() && Local(State()) && m.Rrep? && m.dst in table
      modifies this`table
      ensures rqueue.Valid() && (State(), out) == RelayReply(old(State()), m, now)
    {
      out := [];
      if m.ipDst != index && m.ipDst in table && table[m.ipDst].hops != INFINITY2 {
        var rt0 := table[m.ipDst];
        assert rt0.flag == Up;
        if m.ttl - 1 != 0 {
          table := table[m.ipDst := rt0.(expire := now + ACTIVE_ROUTE_TIMEOUT)];
          out := [Rrep(index, rt0.nextHop, m.ipDst, m.dst, m.dstSeqno, Byte(m.hops + 1), m.lifetime, m.ttl - 1)];
        }
        table := table[m.dst := table[m.dst].(precursors := table[m.dst].precursors + {rt0.nextHop})];
      }
    }

    method RecvReply(m: Msg, now: real) returns (out: seq<Msg>)
      requires Valid() && m.Rrep? && Wholesome(m)
      modifies this`list, this`table, rqueue, rqueue.footprint
      ensures Valid() && rqueue.footprint == old(rqueue.footprint)
      ensures (State(), out) == AodvHandlers.RecvReply(old(State()), m, now)
    {
      ReplyLocal(State(), m, now);
      RtAddIfMissing(m.dst);
      RtAddLocal(old(State()), m.dst);
      var rt := table[m.dst];
      if !(rt.seqno < m.dstSeqno || (rt.seqno == m.dstSeqno && rt.hops > m.hops)) {
        return [];
      }
      InstalledLocal(State(), m, now);
      var data := InstallForwardRoute(m, now);
      var relayed := Relay(m, now);
      out := data + relayed;
    }

    // ----- errors -----

    /** The body of the loop of recvError for one report, the first of `rest`. */
    method DownNext(u: Unreachable, from: Addr, dead: seq<Unreachable>, ghost rest: seq<Unreachable>,
                    ghost result: (Node, seq<Unreachable>))
      returns (dead': seq<Unreachable>)
      requires rqueue.Valid() && GoodTable(State()) && rest != [] && rest[0] == u && OddOrZero(u.seqno)
      requires Downing(State(), from, rest, dead, result)
      modifies this`table
      ensures rqueue.Valid() && GoodTable(State()) && Downing(State(), from, rest[1..], dead', result)
    {
      DowningNext(State(), from, rest, dead, result);
      dead' := dead;
      if u.dst in table {
        var rt := table[u.dst];
        if rt.hops != INFINITY2 && rt.nextHop == from && rt.seqno <= u.seqno {
          assert rt.flag == Up;
          assert rt.seqno % 2 == 0;
          var down := RtDown(rt.(seqno := u.seqno));
          if down.precursors != {} {
            dead' := dead + [u];
          }
          table := table[u.dst := down.(precursors := {})];
        }
      }
    }

    /** The loop of recvError over the reported destinations. */
    method RecvError(m: Msg) returns (out: seq<Msg>)
      requires Valid() && m.Rerr? && Wholesome(m)
      modifies this`table
      ensures Valid() && (State(), out) == AodvHandlers.RecvError(old(State()), m)
    {
      ErrorLocal(State(), m);
      ghost var result := DownRoutes(State(), m.from, m.unreachable);
      var dead: seq<Unreachable> := [];
      assert dead + result.1 == result.1 && m.unreachable[0..] == m.unreachable;
      var i := 0;
      while i < |m.unreachable|
        invariant i <= |m.unreachable|
        invariant rqueue.Valid() && GoodTable(State()) && Downing(State(), m.from, m.unreachable[i..], dead, result)
      {
        assert m.unreachable[i..][1..] == m.unreachable[i + 1..];
        dead := DownNext(m.unreachable[i], m.from, dead, m.unreachable[i..], result);
        i := i + 1;
      }
      assert dead + [] == dead;
      out := if dead == [] then [] else [Rerr(index, dead)];
    }

    /** The body of handle_link_failure for one entry. */
    method FailOne(d: Addr, nbr: Addr) returns (hit: bool)
      requires rqueue.Valid() && d in table && GoodEntry(table[d])
      modifies this`table
      ensures var e := old(table)[d];
              && hit == RoutedOver(e, nbr)
              && rqueue.Valid() && State() == SetEntry(old(State()), d, FailedEntry(e, nbr))
              && d in table && GoodEntry(table[d])
    {
      var rt := table[d];
      hit := rt.hops != INFINITY2 && rt.nextHop == nbr;
      if hit {
        assert rt.flag == Up;
        assert rt.seqno % 2 == 0;
        rt := RtDown(rt.(seqno := rt.seqno + 1));
      }
      table := table[d := rt.(precursors := rt.precursors - {nbr})];
    }

    /** One turn of the loop of handle_link_failure, with `rest` still to go. */
    method FailNext(d: Addr, nbr: Addr, dead: seq<Unreachable>, ghost rest: seq<Addr>,
                    ghost result: (Node, seq<Unreachable>))
      returns (dead': seq<Unreachable>)
      requires rqueue.Valid() && GoodTable(State()) && d in table && rest != [] && rest[0] == d
      requires Failing(State(), nbr, rest, dead, result)
      modifies this`table
      ensures rqueue.Valid() && GoodTable(State()) && table.Keys == old(table).Keys
      ensures Failing(State(), nbr, rest[1..], dead', result)
    {
      FailingNext(State(), nbr, rest, dead, result);
      var hit := FailOne(d, nbr);
      dead' := if hit then dead + [Unreachable(d, table[d].seqno)] else dead;
    }

    /** The loop of handle_link_failure over the route list. */
    method HandleLinkFailure(nbr: Addr) returns (out: seq<Msg>)
      requires Valid()
      modifies this`table
      ensures Valid() && (State(), out) == AodvHandlers.HandleLinkFailure(old(State()), nbr)
    {
      FailureLocal(State(), nbr);
      ghost var result := FailRoutes(State(), nbr, list);
      var dead: seq<Unreachable> := [];
      assert dead + result.1 == result.1 && list[0..] == list;
      var i := 0;
      while i < |list|
        invariant i <= |list|
        invariant rqueue.Valid() && GoodTable(State()) && table.Keys == old(table).Keys
        invariant Failing(State(), nbr, list[i..], dead, result)
      {
        assert list[i..][1..] == list[i + 1..];
        assert list[i] in old(table).Keys;
        dead := FailNext(list[i], nbr, dead, list[i..], result);
        i := i + 1;
      }
      assert dead + [] == dead;
      out := if dead == [] then [] else [Rerr(index, dead)];
    }

    method NbDelete(nbr: Addr) returns (out: seq<Msg>)
      requires Valid()
      modifies this`table, this`seqno
      ensures Valid() && (State(), out) == AodvHandlers.NbDelete(old(State()), nbr)
    {
      seqno := seqno + 2;
      assert seqno % 2 == 0;
      assert State() == old(State()).(seqno := seqno);
      out := HandleLinkFailure(nbr);
    }

    // ----- timers and data -----

    /** An expired route: its packets are dropped and it goes down with the next, odd, number. */
    method Expire(d: Addr, now: real)
      requires rqueue.Valid() && d in table && GoodEntry(table[d]) && table[d].flag.Up?
      modifies this`table, rqueue, rqueue.footprint
      ensures rqueue.Valid() && rqueue.footprint == old(rqueue.footprint)
      ensures var e := old(table)[d];
              State() == SetEntry(Flush(old(State()), d, now), d, RtDown(e.(seqno := e.seqno + 1)))
    {
      var rt := table[d];
      assert rt.hops != INFINITY2;
      FlushBuffered(d, now);
      rt := rt.(seqno := rt.seqno + 1);
      OddNext(old(table)[d], rt);
      assert rt.seqno % 2 == 1;
      table := table[d := RtDown(rt)];
    }

    /** The body of rt_purge for one entry. */
    method PurgeOne(d: Addr, env: Env) returns (out: seq<Msg>)
      requires rqueue.Valid() && d in table && GoodEntry(table[d]) && seqno % 2 == 0
      modifies this`table, this`bid, this`seqno, rqueue, rqueue.footprint
      ensures rqueue.Valid() && rqueue.footprint == old(rqueue.footprint)
      ensures (State(), out) == PurgeEntry(old(State()), d, env)
    {
      out := [];
      var rt := table[d];
      if rt.flag == Up && rt.expire < env.now {
        Expire(d, env.now);
      } else if rt.flag == Up {
        assert rt.hops != INFINITY2;
        out := DeliverBuffered(d, env.now);
      } else {
        var waits := rqueue.Find(d);
        if waits {
          out := SendRequest(d, env);
        }
      }
    }

    /** One turn of the loop of rt_purge. */
    method PurgeNext(d: Addr, env: Env, out: seq<Msg>, ghost rest: seq<Addr>, ghost result: (Node, seq<Msg>))
      returns (out': seq<Msg>)
      requires rqueue.Valid() && Local(State()) && d in list && rest != [] && rest[0] == d
      requires Purging(State(), rest, env, out, result)
      modifies this`table, this`bid, this`seqno, rqueue, rqueue.footprint
      ensures rqueue.Valid() && rqueue.footprint == old(rqueue.footprint) && Local(State())
      ensures Purging(State(), rest[1..], env, out', result)
    {
      PurgingNext(State(), rest, env, out, result);
      PurgeLocal(State(), d, env);
      var more := PurgeOne(d, env);
      out' := out + more;
    }

    /** The loop of rt_purge over the route list. */
    method RtPurge(env: Env) returns (out: seq<Msg>)
      requires Valid()
      modifies this`table, this`bid, this`seqno, rqueue, rqueue.footprint
      ensures Valid() && rqueue.footprint == old(rqueue.footprint)
      ensures (State(), out) == AodvHandlers.RtPurge(old(State()), env)
    {
      ghost var result, todo := PurgeRoutes(State(), list, env), list;
      out := [];
      assert out + result.1 == result.1 && list[0..] == list;
      var i := 0;
      while i < |list|
        invariant i <= |list| && list == todo
        invariant rqueue.Valid() && rqueue.footprint == old(rqueue.footprint) && Local(State())
        invariant Purging(State(), todo[i..], env, out, result)
      {
        assert todo[i..][0] == list[i] && todo[i..][1..] == todo[i + 1..];
        out := PurgeNext(list[i], env, out, todo[i..], result);
        i := i + 1;
      }
      assert out + [] == out;
    }

    /** The walk of id_purge along the list. */
    method WalkIds(now: real)
      requires DistinctKeys(ids) && Lists(ids, seen)
      modifies this`ids
      ensures DistinctKeys(ids) && Lists(ids, Unexpired(seen, now))
    {
      assert KeptBy(seen, seen, now);
      var i := 0;
      while i < |ids|
        invariant Purged(ids, seen, now, i)
        decreases |ids| - i
      {
        if ids[i].expire <= now {
          PurgedOne(ids, seen, now, i);
          ids := ids[..i] + ids[i + 1..];
        } else {
          i := i + 1;
        }
      }
      PurgedDone(ids, seen, now);
    }

    /** id_purge: takes the expired broadcast ids out of the list. */
    method IdPurge(now: real)
      requires Valid()
      modifies this`ids, this`seen
      ensures Valid() && State() == AodvHandlers.IdPurge(old(State()), now)
    {
      WalkIds(now);
      seen := Unexpired(seen, now);
    }

    method Buffer(p: Packet, now: real)
      requires rqueue.Valid()
      modifies rqueue, rqueue.footprint
      ensures rqueue.Valid() && fresh(rqueue.footprint - old(rqueue.footprint))
      ensures State() == old(State()).(queue := Enqueued(old(rqueue.Contents()), p, now))
    {
      var cell := new Cell(p);
      rqueue.Enque(cell, now);
    }

    /** A packet of our own without a route. */
    method BufferAndAsk(p: Packet, env: Env) returns (out: seq<Msg>)
      requires rqueue.Valid() && p.dst in table && GoodEntry(table[p.dst]) && seqno % 2 == 0
      modifies this`table, this`bid, this`seqno, rqueue, rqueue.footprint
      ensures rqueue.Valid() && fresh(rqueue.footprint - old(rqueue.footprint))
      ensures (State(), out)
           == AodvHandlers.SendRequest(old(State()).(queue := Enqueued(old(State()).queue, p, env.now)), p.dst, env)
    {
      ghost var n := State();
      Buffer(p, env.now);
      assert State() == n.(queue := Enqueued(n.queue, p, env.now));
      out := SendRequest(p.dst, env);
    }

    method RtResolve(p: Packet, env: Env) returns (out: seq<Msg>)
      requires Valid()
      modifies this`list, this`table, this`bid, this`seqno, rqueue, rqueue.footprint
      ensures Valid() && fresh(rqueue.footprint - old(rqueue.footprint))
      ensures (State(), out) == AodvHandlers.RtResolve(old(State()), p, env)
    {
      ResolveLocal(State(), p, env);
      out := [];
      RtAddIfMissing(p.dst);
      var rt := table[p.dst];
      if rt.flag == Up {
        assert rt.hops != INFINITY2;
        out := Forward(p.dst, p, env.now);
      } else if p.src == index {
        out := BufferAndAsk(p, env);
      } else if rt.flag == InRepair {
        assert false;  // only a local repair marks a route so
      } else {
        assert rt.flag == Down;
        out := [Rerr(index, [Unreachable(p.dst, rt.seqno)])];
      }
    }
  }
}
