/** The packet handlers of one AODV agent (local repair compiled out), each as a function from the
    node before the call to the node after it and the packets it schedules. */
module AodvHandlers {
  import opened Numbers
  import opened AodvTypes

  // ----- route entries -----

  function Lookup(n: Node, d: Addr): Entry {
    if d in n.table then n.table[d] else FRESH
  }

  /** Adds an entry at the head of the route list unless the destination has one. */
  function RtAdd(n: Node, d: Addr): (r: Node)
  {
    if d in n.table then n else n.(list := [d] + n.list, table := n.table[d := FRESH])
  }

  function SetEntry(n: Node, d: Addr, e: Entry): Node {
    n.(table := n.table[d := e])
  }

  function RtUpdate(e: Entry, seqno: nat, hops: nat, nextHop: Addr, expire: real): Entry {
    e.(seqno := seqno, hops := hops, flag := Up, nextHop := nextHop, expire := expire)
  }

  function RtDown(e: Entry): Entry {
    if e.flag.Down? then e
    else e.(lastHops := e.hops, hops := INFINITY2, flag := Down, nextHop := 0, expire := 0.0)
  }

  /** The acceptance test of sections 6.2 and 6.7: a larger sequence number, or the same and fewer hops. */
  predicate Fresher(e: Entry, seqno: nat, hops: nat) {
    seqno > e.seqno || (seqno == e.seqno && hops < e.hops)
  }

  // ----- forwarding buffered data -----

  /** Of the packets taken from the buffer, those that `forward` passes to the next hop. */
  function Forwarded(q: seq<Buffered>, nextHop: Addr): seq<Msg> {
    if q == [] then []
    else (if q[0].packet.ttl == 0 then [] else [Data(q[0].packet, nextHop)]) + Forwarded(q[1..], nextHop)
  }

  /** Takes every packet for `d` from the buffer and forwards it along the entry of `d`. */
  function Deliver(n: Node, d: Addr, now: real): (Node, seq<Msg>) {
    var e := Lookup(n, d);
    var live := Live(n.queue, now);
    var out := if d == n.id then [] else Forwarded(For(live, d), e.nextHop);
    var n1 := n.(queue := NotFor(live, d));
    (if out == [] then n1 else SetEntry(n1, d, e.(expire := now + ACTIVE_ROUTE_TIMEOUT)), out)
  }

  /** Takes every packet for `d` from the buffer and drops it. */
  function Flush(n: Node, d: Addr, now: real): Node {
    n.(queue := NotFor(Live(n.queue, now), d))
  }

  // ----- route requests -----

  /** What sendRequest does with the entry's discovery state. */
  datatype Attempt = Refused | GaveUp(entry: Entry) | Query(entry: Entry, ttl: nat)

  function PerHopTime(env: Env, d: Addr): real {
    if d in env.perHop then env.perHop[d] else NODE_TRAVERSAL_TIME
  }

  function TryRequest(e: Entry, now: real, perHop: real): Attempt {
    if e.flag.Up? || e.reqTimeout > now then Refused
    else if e.reqCnt > RREQ_RETRIES then
      GaveUp(e.(reqTimeout := now + MAX_RREQ_TIMEOUT, reqCnt := 0))
    else
      var last := Max(e.reqLastTtl, e.lastHops);
      var ttl := if last == 0 then TTL_START
                 else if last < TTL_THRESHOLD then last + TTL_INCREMENT
                 else NETWORK_DIAMETER;
      var cnt := if last == 0 || last < TTL_THRESHOLD then e.reqCnt else e.reqCnt + 1;
      var wait := 2.0 * (ttl as real) * perHop * (if cnt > 0 then cnt as real else 1.0);
      var timeout := if wait > MAX_RREQ_TIMEOUT then now + MAX_RREQ_TIMEOUT else now + wait;
      Query(e.(reqLastTtl := ttl, reqCnt := cnt, reqTimeout := timeout, expire := 0.0), ttl)
  }

  function SendRequest(n: Node, d: Addr, env: Env): (Node, seq<Msg>) {
    var e := Lookup(n, d);
    match TryRequest(e, env.now, PerHopTime(env, d))
    case Refused => (n, [])
    case GaveUp(e1) => (Flush(SetEntry(n, d, e1), d, env.now), [])
    case Query(e1, ttl) =>
      var n1 := SetEntry(n, d, e1).(bid := n.bid + 1, seqno := n.seqno + 2);
      (n1, [Rreq(n.id, n.id, n1.seqno, d, e.seqno, n.bid, 1, ttl)])
  }

  /** The cast of a remaining lifetime to an unsigned integer. */
  function Lifetime(x: real, castOfNegative: nat): nat {
    if x >= 0.0 then x.Floor else castOfNegative
  }

  function SendReply(n: Node, ipDst: Addr, hops: nat, dst: Addr, seqno: nat, lifetime: nat): Msg {
    Rrep(n.id, Lookup(n, ipDst).nextHop, ipDst, dst, seqno, Byte(hops), lifetime, NETWORK_DIAMETER)
  }

  /** The reverse-route half of recvRequest. */
  function ReverseRoute(n: Node, m: Msg, now: real): (Node, seq<Msg>)
    requires m.Rreq?
  {
    var n0 := RtAdd(n, m.src);
    var e := n0.table[m.src].(expire := MaxReal(Lookup(n0, m.src).expire, now + REV_ROUTE_LIFE));
    if Fresher(e, m.srcSeqno, m.hops) then
      var e1 := RtUpdate(e, m.srcSeqno, m.hops, m.from, MaxReal(e.expire, now + REV_ROUTE_LIFE));
      var e2 := if e1.reqTimeout > 0.0
                then e1.(reqCnt := 0, reqTimeout := 0.0, reqLastTtl := m.hops, expire := now + ACTIVE_ROUTE_TIMEOUT)
                else e1;
      Deliver(SetEntry(n0, m.src, e2), m.src, now)
    else (SetEntry(n0, m.src, e), [])
  }

  /** The next own number after a request that carries `asked`: above both, and even. */
  function NextSeqno(own: nat, asked: nat): nat {
    var s := Max(own, asked) + 1;
    if s % 2 == 1 then s + 1 else s
  }

  /** The reply-or-relay half of recvRequest, run once the reverse route is in the table. */
  function AnswerRequest(n: Node, m: Msg, env: Env): (Node, seq<Msg>)
    requires m.Rreq?
  {
    var rt := Lookup(n, m.dst);
    if m.dst == n.id then
      var n1 := n.(seqno := NextSeqno(n.seqno, m.dstSeqno));
      (n1, [SendReply(n1, m.src, 1, n.id, n1.seqno, MY_ROUTE_TIMEOUT)])
    else if m.dst in n.table && rt.hops != INFINITY2 && rt.seqno >= m.dstSeqno then
      var reply := SendReply(n, m.src, rt.hops + 1, m.dst, rt.seqno, Lifetime(rt.expire - env.now, env.castOfNegative));
      var n1 := SetEntry(n, m.dst, rt.(precursors := rt.precursors + {Lookup(n, m.src).nextHop}));
      var rt0 := Lookup(n1, m.src);
      (SetEntry(n1, m.src, rt0.(precursors := rt0.precursors + {rt.nextHop})), [reply])
    else
      var asked := if m.dst in n.table then Max(rt.seqno, m.dstSeqno) else m.dstSeqno;
      (n, if m.ttl - 1 == 0 then []
          else [Rreq(n.id, m.src, m.srcSeqno, m.dst, asked, m.bcastId, Byte(m.hops + 1), m.ttl - 1)])
  }

  function RecvRequest(n: Node, m: Msg, env: Env): (Node, seq<Msg>)
    requires m.Rreq?
  {
    if m.src == n.id || (m.src, m.bcastId) in n.seen then (n, [])
    else
      var n1 := n.(seen := n.seen[(m.src, m.bcastId) := env.now + BCAST_ID_SAVE]);
      var (n2, data) := ReverseRoute(n1, m, env.now);
      var (n3, out) := AnswerRequest(n2, m, env);
      (n3, data + out)
  }

  /** The forwarding half of recvReply. */
  function RelayReply(n: Node, m: Msg, now: real): (Node, seq<Msg>)
    requires m.Rrep?
  {
    var rt0 := Lookup(n, m.ipDst);
    if m.ipDst != n.id && m.ipDst in n.table && rt0.hops != INFINITY2 then
      var sent := m.ttl - 1 != 0;
      var n1 := if sent then SetEntry(n, m.ipDst, rt0.(expire := now + ACTIVE_ROUTE_TIMEOUT)) else n;
      var rt := Lookup(n1, m.dst);
      (SetEntry(n1, m.dst, rt.(precursors := rt.precursors + {rt0.nextHop})),
       if sent then [Rrep(n.id, rt0.nextHop, m.ipDst, m.dst, m.dstSeqno, Byte(m.hops + 1), m.lifetime, m.ttl - 1)]
       else [])
    else (n, [])
  }

  /** The half of recvReply that installs the offered route and releases the packets waiting for it. */
  function ForwardRoute(n: Node, m: Msg, now: real): (Node, seq<Msg>)
    requires m.Rrep?
  {
    var e := RtUpdate(Lookup(n, m.dst), m.dstSeqno, m.hops, m.from, now + m.lifetime as real)
               .(reqCnt := 0, reqTimeout := 0.0, reqLastTtl := m.hops);
    Deliver(SetEntry(n, m.dst, e), m.dst, now)
  }

  function RecvReply(n: Node, m: Msg, now: real): (Node, seq<Msg>)
    requires m.Rrep?
  {
    var n0 := RtAdd(n, m.dst);
    if Fresher(Lookup(n0, m.dst), m.dstSeqno, m.hops) then
      var (n1, data) := ForwardRoute(n0, m, now);
      var (n2, out) := RelayReply(n1, m, now);
      (n2, data + out)
    else (n0, [])
  }

  // ----- route errors -----

  function SendError(n: Node, dead: seq<Unreachable>): seq<Msg> {
    if dead == [] then [] else [Rerr(n.id, dead)]
  }

  /** Whether a report from `from` that `d` is unreachable takes the entry down. */
  predicate Invalidates(e: Entry, from: Addr, seqno: nat) {
    e.hops != INFINITY2 && e.nextHop == from && e.seqno <= seqno
  }

  /** The loop of recvError: takes routes down one by one and collects those with precursors. */
  function DownRoutes(n: Node, from: Addr, dead: seq<Unreachable>): (Node, seq<Unreachable>)
    decreases |dead|
  {
    if dead == [] then (n, [])
    else
      var d, s := dead[0].dst, dead[0].seqno;
      if d in n.table && Invalidates(n.table[d], from, s) then
        var e := RtDown(n.table[d].(seqno := s));
        var (n1, more) := DownRoutes(SetEntry(n, d, e.(precursors := {})), from, dead[1..]);
        (n1, (if e.precursors == {} then [] else [Unreachable(d, s)]) + more)
      else DownRoutes(n, from, dead[1..])
  }

  function RecvError(n: Node, m: Msg): (Node, seq<Msg>)
    requires m.Rerr?
  {
    var (n1, dead) := DownRoutes(n, m.from, m.unreachable);
    (n1, SendError(n, dead))
  }

  /** Whether a route goes over a neighbor. */
  predicate RoutedOver(e: Entry, nbr: Addr) {
    e.hops != INFINITY2 && e.nextHop == nbr
  }

  /** An entry after the link to nbr has failed: a route over it goes down with the next number. */
  function FailedEntry(e: Entry, nbr: Addr): Entry {
    var e1 := if RoutedOver(e, nbr) then RtDown(e.(seqno := e.seqno + 1)) else e;
    e1.(precursors := e1.precursors - {nbr})
  }

  /** The loop of handle_link_failure over the entries `todo` of the route list. */
  function FailRoutes(n: Node, nbr: Addr, todo: seq<Addr>): (Node, seq<Unreachable>)
    decreases |todo|
  {
    if todo == [] then (n, [])
    else
      var d := todo[0];
      var e, f := Lookup(n, d), FailedEntry(Lookup(n, d), nbr);
      var (n1, more) := FailRoutes(SetEntry(n, d, f), nbr, todo[1..]);
      (n1, (if RoutedOver(e, nbr) then [Unreachable(d, f.seqno)] else []) + more)
  }

  function HandleLinkFailure(n: Node, nbr: Addr): (Node, seq<Msg>) {
    var (n1, dead) := FailRoutes(n, nbr, n.list);
    (n1, SendError(n, dead))
  }

  /** A neighbor is lost: the own number rises, then the routes over it fail. */
  function NbDelete(n: Node, nbr: Addr): (Node, seq<Msg>) {
    HandleLinkFailure(n.(seqno := n.seqno + 2), nbr)
  }

  /** A neighbor appears. */
  function NbInsert(n: Node): Node {
    n.(seqno := n.seqno + 2)
  }

  // ----- timers and data -----

  function PurgeEntry(n: Node, d: Addr, env: Env): (Node, seq<Msg>) {
    var e := Lookup(n, d);
    if e.flag.Up? && e.expire < env.now then
      (SetEntry(Flush(n, d, env.now), d, RtDown(e.(seqno := e.seqno + 1))), [])
    else if e.flag.Up? then Deliver(n, d, env.now)
    else if For(n.queue, d) != [] then SendRequest(n, d, env)
    else (n, [])
  }

  /** The loop of rt_purge over the entries `todo` of the route list. */
  function PurgeRoutes(n: Node, todo: seq<Addr>, env: Env): (Node, seq<Msg>)
    decreases |todo|
  {
    if todo == [] then (n, [])
    else
      var (n1, out) := PurgeEntry(n, todo[0], env);
      var (n2, more) := PurgeRoutes(n1, todo[1..], env);
      (n2, out + more)
  }

  function RtPurge(n: Node, env: Env): (Node, seq<Msg>) {
    PurgeRoutes(n, n.list, env)
  }

  /** The broadcast ids that have not expired. */
  function Unexpired(seen: map<(Addr, nat), real>, now: real): map<(Addr, nat), real> {
    map k | k in seen && seen[k] > now :: seen[k]
  }

  function IdPurge(n: Node, now: real): Node {
    n.(seen := Unexpired(n.seen, now))
  }

  function RtResolve(n: Node, p: Packet, env: Env): (Node, seq<Msg>) {
    var n0 := RtAdd(n, p.dst);
    var e := Lookup(n0, p.dst);
    if e.flag.Up? then
      if p.ttl == 0 || p.dst == n.id then (n0, [])
      else (SetEntry(n0, p.dst, e.(expire := env.now + ACTIVE_ROUTE_TIMEOUT)), [Data(p, e.nextHop)])
    else if p.src == n.id then SendRequest(n0.(queue := Enqueued(n0.queue, p, env.now)), p.dst, env)
    else if e.flag.InRepair? then (n0.(queue := Enqueued(n0.queue, p, env.now)), [])
    else (n0, SendError(n0, [Unreachable(p.dst, e.seqno)]))
  }

  /** A data packet this node originates. */
  function Originate(n: Node, uid: nat, dst: Addr, env: Env): (Node, seq<Msg>) {
    RtResolve(n, Packet(uid, n.id, dst, NETWORK_DIAMETER), env)
  }

  /** A data packet received from a neighbor: one's own is dropped, so is one whose TTL runs out. */
  function RecvData(n: Node, p: Packet, env: Env): (Node, seq<Msg>) {
    if p.src == n.id || p.ttl - 1 == 0 then (n, [])
    else RtResolve(n, p.(ttl := p.ttl - 1), env)
  }
}
