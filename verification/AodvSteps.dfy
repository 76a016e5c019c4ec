/** What every handler does to a node, in the terms the protocol proof needs: each route is kept,
    taken down with a larger number, or replaced by a fresher claim from the packet; every packet
    sent is backed by the node's own state. */
module AodvSteps {
  import opened AodvTypes
  import opened AodvHandlers

  // ----- one node's invariant -----

  /** What holds of an entry whether or not its route is under repair: a number that is even while the hop count is
      finite, and odd or 0 while it is not. */
  ghost predicate SoundEntry(e: Entry) {
    && (e.flag.Up? ==> e.hops != INFINITY2) && (e.flag.Down? ==> e.hops == INFINITY2)
    && (if e.hops != INFINITY2 then e.seqno % 2 == 0 && e.seqno >= 2 else OddOrZero(e.seqno))
    && 1 <= e.hops <= INFINITY2 && e.lastHops >= 1 && e.reqCnt <= RREQ_RETRIES + 1
  }

  ghost predicate GoodEntry(e: Entry) {
    SoundEntry(e) && !e.flag.InRepair?
  }

  ghost predicate OddOrZero(s: nat) {
    s % 2 == 1 || s == 0
  }

  ghost predicate SoundTable(n: Node) {
    forall d :: d in n.table ==> SoundEntry(n.table[d])
  }

  ghost predicate GoodTable(n: Node) {
    forall d :: d in n.table ==> GoodEntry(n.table[d])
  }

  /** The route list names each entry once. */
  ghost predicate GoodList(n: Node) {
    && (forall k :: 0 <= k < |n.list| ==> n.list[k] in n.table)
    && (forall d :: d in n.table ==> d in n.list)
    && (forall j, k :: 0 <= j < k < |n.list| ==> n.list[j] != n.list[k])
  }

  ghost predicate Sound(n: Node) {
    n.seqno % 2 == 0 && n.seqno >= 2 && SoundTable(n) && GoodList(n)
  }

  /** A node as the protocol without local repair has it. */
  ghost predicate Local(n: Node) {
    Sound(n) && GoodTable(n)
  }

  // ----- claims -----

  /** A route offered by a packet: `via` claims to reach `dst` with this number and hop count. */
  datatype Claim = Claim(dst: Addr, seqno: nat, hops: nat, via: Addr)

  ghost predicate Offers(m: Msg, c: Claim) {
    (m.Rreq? && c == Claim(m.src, m.srcSeqno, m.hops, m.from)) ||
    (m.Rrep? && c == Claim(m.dst, m.dstSeqno, m.hops, m.from))
  }

  ghost predicate GoodClaim(c: Claim) {
    c.seqno % 2 == 0 && c.seqno >= 2 && 1 <= c.hops < INFINITY2
  }

  /** What a node may assume of a packet it receives. */
  ghost predicate Wholesome(m: Msg) {
    && (forall c :: Offers(m, c) ==> GoodClaim(c))
    && (m.Rreq? ==> m.ttl >= 1)
    && (m.Rerr? ==> forall u :: u in m.unreachable ==> OddOrZero(u.seqno))
  }

  datatype Inbox = Nothing | Got(msg: Msg)

  ghost predicate InboxOffers(inbox: Inbox, c: Claim) {
    inbox.Got? && Offers(inbox.msg, c)
  }

  ghost predicate InboxReports(inbox: Inbox, d: Addr, s: nat) {
    inbox.Got? && inbox.msg.Rerr? && Unreachable(d, s) in inbox.msg.unreachable
  }

  // ----- ranks -----

  /** Sequence number first, then hops: strictly better. */
  predicate Better(s1: nat, h1: nat, s2: nat, h2: nat) {
    s1 > s2 || (s1 == s2 && h1 < h2)
  }

  predicate AtLeast(s1: nat, h1: nat, s2: nat, h2: nat) {
    s1 > s2 || (s1 == s2 && h1 <= h2)
  }

  // ----- what a step does to a route -----

  ghost predicate SameRoute(e: Entry, e': Entry) {
    e'.seqno == e.seqno && e'.hops == e.hops && e'.nextHop == e.nextHop
  }

  ghost predicate Kept(e: Entry, e': Entry) {
    SameRoute(e, e') && e'.flag == e.flag
  }

  ghost predicate TakenDown(e: Entry, e': Entry, d: Addr, inbox: Inbox) {
    && e.hops != INFINITY2 && e'.flag.Down? && e'.hops == INFINITY2 && e'.seqno > e.seqno
    && (e'.seqno == e.seqno + 1 || InboxReports(inbox, d, e'.seqno))
  }

  ghost predicate Accepted(e: Entry, e': Entry, c: Claim) {
    && Better(c.seqno, c.hops, e.seqno, e.hops)
    && e'.flag.Up? && e'.seqno == c.seqno && e'.hops == c.hops && e'.nextHop == c.via
  }

  ghost predicate RouteStep(n: Node, n': Node, d: Addr, inbox: Inbox) {
    var e, e' := Lookup(n, d), Lookup(n', d);
    Kept(e, e') || TakenDown(e, e', d, inbox) ||
    exists c :: InboxOffers(inbox, c) && c.dst == d && Accepted(e, e', c)
  }

  // ----- what a node may send -----

  ghost predicate SentRequest(n: Node, n': Node, m: Msg, inbox: Inbox)
    requires m.Rreq?
  {
    && m.from == n.id
    && (if m.src == n.id then
          n.seqno < m.srcSeqno <= n'.seqno && m.srcSeqno % 2 == 0 && m.hops == 1 && 1 <= m.ttl <= NETWORK_DIAMETER
        else
          && inbox.Got? && inbox.msg.Rreq?
          && m.src == inbox.msg.src && m.srcSeqno == inbox.msg.srcSeqno && m.hops == Byte(inbox.msg.hops + 1)
          && m.ttl == inbox.msg.ttl - 1 && m.ttl >= 1
          && AtLeast(Lookup(n', m.src).seqno, Lookup(n', m.src).hops, m.srcSeqno, inbox.msg.hops))
    && (m.dstSeqno == Lookup(n', m.dst).seqno ||
        (inbox.Got? && inbox.msg.Rreq? && inbox.msg.dst == m.dst && inbox.msg.dstSeqno == m.dstSeqno))
  }

  ghost predicate SentReply(n: Node, n': Node, m: Msg)
    requires m.Rrep?
  {
    && m.from == n.id
    && ((m.dst == n.id && n.seqno < m.dstSeqno == n'.seqno && m.hops == 1) ||
        (var e := Lookup(n', m.dst); e.hops != INFINITY2 && e.seqno == m.dstSeqno && m.hops == Byte(e.hops + 1)))
  }

  ghost predicate SentError(n': Node, m: Msg)
    requires m.Rerr?
  {
    forall u :: u in m.unreachable ==> Lookup(n', u.dst).flag.Down? && Lookup(n', u.dst).seqno == u.seqno
  }

  ghost predicate MaySend(n: Node, n': Node, m: Msg, inbox: Inbox) {
    match m
    case Rreq(_, _, _, _, _, _, _, _) => SentRequest(n, n', m, inbox)
    case Rrep(_, _, _, _, _, _, _, _) => SentReply(n, n', m)
    case Rerr(_, _) => SentError(n', m)
    case Data(p, nextHop) => Lookup(n', p.dst).flag.Up? && nextHop == Lookup(n', p.dst).nextHop
  }

  /** The own number is even, never falls, and moves past the old one only to answer or to ask. */
  ghost predicate NodeStep(n: Node, n': Node, inbox: Inbox, out: seq<Msg>) {
    && n'.id == n.id && n'.seqno >= n.seqno
    && Sound(n')
    && (forall d :: RouteStep(n, n', d, inbox))
    && (forall m :: m in out ==> MaySend(n, n', m, inbox))
  }

  /** A step that leaves every route as it is. */
  ghost predicate RoutesKept(n: Node, n': Node) {
    && n'.id == n.id && n'.seqno == n.seqno
    && (forall d :: Kept(Lookup(n, d), Lookup(n', d)))
  }

  // ----- building blocks -----

  lemma SetEntrySound(n: Node, d: Addr, e: Entry)
    requires Sound(n) && d in n.table && SoundEntry(e)
    ensures Sound(SetEntry(n, d, e))
  {
  }

  lemma RtAddSound(n: Node, d: Addr)
    requires Sound(n)
    ensures Sound(RtAdd(n, d)) && RoutesKept(n, RtAdd(n, d)) && d in RtAdd(n, d).table
  {
    var n0 := RtAdd(n, d);
    if d !in n.table {
      forall x | x in n0.table
        ensures x in n0.list
      {
        if x != d {
          assert x in n.list;
        }
      }
    }
  }

  lemma ForwardedAlong(q: seq<Buffered>, d: Addr, nextHop: Addr)
    ensures forall m :: m in Forwarded(For(q, d), nextHop) ==> m.Data? && m.packet.dst == d && m.nextHop == nextHop
  {
    if q != [] {
      ForwardedAlong(q[1..], d, nextHop);
      var rest := For(q[1..], d);
      if q[0].packet.dst == d {
        assert For(q, d) == [q[0]] + rest;
        assert For(q, d)[1..] == rest;
      } else {
        assert For(q, d) == rest;
      }
    }
  }

  /** Delivering buffered packets needs the route up and changes no route. */
  lemma DeliverStep(n: Node, d: Addr, now: real)
    requires Sound(n) && d in n.table && n.table[d].flag.Up?
    ensures var (n1, out) := Deliver(n, d, now);
            Sound(n1) && RoutesKept(n, n1) && d in n1.table &&
            forall m :: m in out ==> MaySend(n, n1, m, Nothing) && m.Data?
  {
    ForwardedAlong(Live(n.queue, now), d, n.table[d].nextHop);
  }
}
