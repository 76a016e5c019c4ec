/** Packets, route entries and node state of the AODV agent, with the send buffer
    seen as a sequence of packets. */
module AodvTypes {
  type Addr = int

  const INFINITY2: nat := 0xff
  const NETWORK_DIAMETER: nat := 30
  const TTL_START: nat := 5
  const TTL_THRESHOLD: nat := 7
  const TTL_INCREMENT: nat := 2
  const RREQ_RETRIES: nat := 3
  const MAX_RREQ_TIMEOUT: real := 10.0
  const NODE_TRAVERSAL_TIME: real := 0.03
  const ACTIVE_ROUTE_TIMEOUT: real := 10.0
  const MY_ROUTE_TIMEOUT: nat := 10
  const REV_ROUTE_LIFE: real := 6.0
  const BCAST_ID_SAVE: real := 6.0
  const RTQ_MAX_LEN: nat := 64
  const RTQ_TIMEOUT: real := 30.0

  /** A data packet waiting for, or using, a route. */
  datatype Packet = Packet(uid: nat, src: Addr, dst: Addr, ttl: int)

  /** A packet in the send buffer, with the time at which it counts as aged. */
  datatype Buffered = Buffered(packet: Packet, deadline: real)

  datatype Flag = Down | Up | InRepair

  datatype Entry = Entry(
    seqno: nat, hops: nat, lastHops: nat, nextHop: Addr, precursors: set<Addr>, expire: real, flag: Flag,
    reqTimeout: real, reqCnt: nat, reqLastTtl: nat)

  /** The entry the constructor of a route entry builds. */
  const FRESH := Entry(0, INFINITY2, INFINITY2, 0, {}, 0.0, Down, 0.0, 0, 0)

  datatype Unreachable = Unreachable(dst: Addr, seqno: nat)

  datatype Msg =
    | Rreq(from: Addr, src: Addr, srcSeqno: nat, dst: Addr, dstSeqno: nat, bcastId: nat, hops: nat, ttl: int)
    | Rrep(from: Addr, nextHop: Addr, ipDst: Addr, dst: Addr, dstSeqno: nat, hops: nat, lifetime: nat, ttl: int)
    | Rerr(from: Addr, unreachable: seq<Unreachable>)
    | Data(packet: Packet, nextHop: Addr)

  /** `list` holds the destinations of the route list from its head; `table` holds the entries. */
  datatype Node = Node(
    id: Addr, seqno: nat, bid: nat, list: seq<Addr>, table: map<Addr, Entry>,
    seen: map<(Addr, nat), real>, queue: seq<Buffered>)

  /** What a handler reads besides the node and the packet: the clock, the round-trip time per hop
      that the discovery history gives for a destination, and the value the cast of a negative
      lifetime happens to have. */
  datatype Env = Env(now: real, perHop: map<Addr, real>, castOfNegative: nat)

  /** Hop counts travel in an unsigned byte. */
  function Byte(h: nat): nat {
    h % 0x100
  }

  // ----- the send buffer as a sequence -----

  /** The packets that have not aged. */
  function Live(q: seq<Buffered>, now: real): seq<Buffered> {
    if q == [] then []
    else (if q[0].deadline < now then [] else [q[0]]) + Live(q[1..], now)
  }

  /** The packets for a destination, oldest first. */
  function For(q: seq<Buffered>, d: Addr): seq<Buffered> {
    if q == [] then []
    else (if q[0].packet.dst == d then [q[0]] else []) + For(q[1..], d)
  }

  /** The packets for other destinations, oldest first. */
  function NotFor(q: seq<Buffered>, d: Addr): seq<Buffered> {
    if q == [] then []
    else (if q[0].packet.dst == d then [] else [q[0]]) + NotFor(q[1..], d)
  }

  /** Purge, make room by dropping the oldest packet, append. */
  function Enqueued(q: seq<Buffered>, p: Packet, now: real): seq<Buffered> {
    var live := Live(q, now);
    (if |live| == RTQ_MAX_LEN then live[1..] else live) + [Buffered(p, now + RTQ_TIMEOUT)]
  }

  /** What purging and taking out by destination leave. */
  lemma {:induction false} Members(q: seq<Buffered>, d: Addr, now: real)
    ensures forall b :: b in Live(q, now) <==> b in q && b.deadline >= now
    ensures forall b :: b in NotFor(q, d) <==> b in q && b.packet.dst != d
    ensures forall b :: b in For(q, d) <==> b in q && b.packet.dst == d
  {
    if q != [] {
      Members(q[1..], d, now);
      assert forall b :: b in q <==> b == q[0] || b in q[1..];
    }
  }
}
