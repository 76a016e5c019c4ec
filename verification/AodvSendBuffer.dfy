/** The send buffer of the AODV agent: a singly linked list edited in place. */
module AodvSendBuffer {
  import opened AodvTypes

  // ----- laws of the buffer as a sequence -----

  /** The packets that have aged. */
  function Aged(q: seq<Buffered>, now: real): seq<Buffered> {
    if q == [] then []
    else (if q[0].deadline < now then [q[0]] else []) + Aged(q[1..], now)
  }

  /** The buffer without its oldest packet for `d`. */
  function RemoveFirst(q: seq<Buffered>, d: Addr): seq<Buffered> {
    if q == [] then []
    else if q[0].packet.dst == d then q[1..]
    else [q[0]] + RemoveFirst(q[1..], d)
  }

  /** Purging and taking out by destination lose no packet and invent none. */
  lemma {:induction false} NothingIsLost(q: seq<Buffered>, d: Addr, now: real)
    ensures multiset(Live(q, now)) + multiset(Aged(q, now)) == multiset(q)
    ensures multiset(For(q, d)) + multiset(NotFor(q, d)) == multiset(q)
  {
    if q != [] {
      assert q == [q[0]] + q[1..];
      NothingIsLost(q[1..], d, now);
    }
  }

  /** Taking packets for `d` one at a time gives them oldest first and leaves the others in order. */
  lemma {:induction false} TakesOldestFirst(q: seq<Buffered>, d: Addr)
    ensures NotFor(RemoveFirst(q, d), d) == NotFor(q, d)
    ensures For(q, d) != [] ==> For(RemoveFirst(q, d), d) == For(q, d)[1..]
    ensures For(q, d) == [] ==> RemoveFirst(q, d) == q && NotFor(q, d) == q
    ensures |RemoveFirst(q, d)| == if For(q, d) == [] then |q| else |q| - 1
  {
    if q != [] && q[0].packet.dst != d {
      TakesOldestFirst(q[1..], d);
      assert ([q[0]] + RemoveFirst(q[1..], d))[1..] == RemoveFirst(q[1..], d);
    }
  }

  /** Between purges at the same instant nothing ages. */
  lemma StillLive(q: seq<Buffered>, d: Addr, now: real)
    ensures var r := RemoveFirst(Live(q, now), d); Live(r, now) == r
  {
    var live := Live(q, now);
    Members(q, d, now);
    RemoveFirstMembers(live, d);
    var r := RemoveFirst(live, d);
    assert forall k :: 0 <= k < |r| ==> r[k] in live;
    AllLive(r, now);
  }

  lemma {:induction false} RemoveFirstMembers(q: seq<Buffered>, d: Addr)
    ensures forall b :: b in RemoveFirst(q, d) ==> b in q
  {
    if q != [] {
      RemoveFirstMembers(q[1..], d);
      assert forall b :: b in q <==> b == q[0] || b in q[1..];
    }
  }

  /** Taking one packet for `d` out of the live ones. */
  ghost predicate Takes(q: seq<Buffered>, d: Addr, now: real, taken: seq<Buffered>, r: seq<Buffered>) {
    var live := Live(q, now);
    && Live(r, now) == r && NotFor(r, d) == NotFor(live, d) && For(live, d) == taken + For(r, d) && |taken| <= 1
    && (taken == [] ==> r == live == NotFor(live, d) && For(r, d) == [])
    && (taken != [] ==> |r| < |live| && taken[0].packet.dst == d)
  }

  /** `taken` is the oldest packet for d, if there is one, and r the rest. */
  ghost predicate FirstTaken(q: seq<Buffered>, d: Addr, taken: seq<Buffered>, r: seq<Buffered>) {
    && r == RemoveFirst(q, d)
    && taken == if For(q, d) == [] then [] else [For(q, d)[0]]
  }

  lemma DequeTakes(q: seq<Buffered>, d: Addr, now: real)
    ensures var mine := For(Live(q, now), d);
            Takes(q, d, now, if mine == [] then [] else [mine[0]], RemoveFirst(Live(q, now), d))
  {
    TakesOldestFirst(Live(q, now), d);
    StillLive(q, d, now);
    Members(Live(q, now), d, now);
    var mine := For(Live(q, now), d);
    if mine != [] {
      assert mine[0] in mine;
      assert mine == [mine[0]] + mine[1..];
    }
  }

  /** What the head-only purge, which the source keeps in a comment, would leave. */
  function HeadPurged(q: seq<Buffered>, now: real): seq<Buffered> {
    if q != [] && q[0].deadline < now then HeadPurged(q[1..], now) else q
  }

  ghost predicate Ordered(q: seq<Buffered>) {
    forall j, k :: 0 <= j < k < |q| ==> q[j].deadline <= q[k].deadline
  }

  /** Ordered, with no deadline later than a packet enqueued now would get. */
  ghost predicate Stamped(q: seq<Buffered>, now: real) {
    Ordered(q) && forall k :: 0 <= k < |q| ==> q[k].deadline <= now + RTQ_TIMEOUT
  }

  lemma OrderedTail(q: seq<Buffered>)
    requires Ordered(q) && q != []
    ensures Ordered(q[1..]) && forall k :: 0 <= k < |q| - 1 ==> q[1..][k].deadline >= q[0].deadline
  {
    assert forall k :: 0 <= k < |q| - 1 ==> q[1..][k] == q[k + 1];
  }

  /** On an ordered buffer the general purge removes exactly what the head-only purge would. */
  lemma {:induction false} PurgesAgree(q: seq<Buffered>, now: real)
    requires Ordered(q)
    ensures Live(q, now) == HeadPurged(q, now)
    ensures Ordered(Live(q, now))
  {
    if q != [] {
      OrderedTail(q);
      if q[0].deadline >= now {
        AllLive(q[1..], now);
        assert [q[0]] + q[1..] == q;
      } else {
        PurgesAgree(q[1..], now);
      }
    }
  }

  lemma {:induction false} AllLive(q: seq<Buffered>, now: real)
    requires forall k :: 0 <= k < |q| ==> q[k].deadline >= now
    ensures Live(q, now) == q
  {
    if q != [] {
      AllLive(q[1..], now);
    }
  }

  lemma {:induction false} RemoveFirstOrdered(q: seq<Buffered>, d: Addr)
    requires Ordered(q)
    ensures Ordered(RemoveFirst(q, d))
  {
    if q != [] {
      assert forall j :: 0 <= j < |q[1..]| ==> q[1..][j] == q[j + 1];
      RemoveFirstOrdered(q[1..], d);
      if q[0].packet.dst != d {
        var rest := RemoveFirst(q[1..], d);
        RemoveFirstMembers(q[1..], d);
        assert forall k :: 0 <= k < |rest| ==> rest[k] in q[1..];
        assert forall b :: b in q[1..] ==> q[0].deadline <= b.deadline;
      }
    }
  }

  lemma BoundCarriesOver(q: seq<Buffered>, r: seq<Buffered>, bound: real)
    requires (forall b :: b in r ==> b in q) && forall k :: 0 <= k < |q| ==> q[k].deadline <= bound
    ensures forall k :: 0 <= k < |r| ==> r[k].deadline <= bound
  {
    assert forall k :: 0 <= k < |r| ==> r[k] in q;
  }

  lemma StampedLive(q: seq<Buffered>, d: Addr, before: real, now: real)
    requires Stamped(q, before) && before <= now
    ensures Stamped(Live(q, now), now)
  {
    PurgesAgree(q, now);
    Members(q, d, now);
    BoundCarriesOver(q, Live(q, now), now + RTQ_TIMEOUT);
  }

  lemma StampedRemove(q: seq<Buffered>, d: Addr, now: real)
    requires Stamped(q, now)
    ensures Stamped(RemoveFirst(q, d), now)
  {
    RemoveFirstOrdered(q, d);
    RemoveFirstMembers(q, d);
    BoundCarriesOver(q, RemoveFirst(q, d), now + RTQ_TIMEOUT);
  }

  /** As time only moves forward, every operation keeps the deadlines in order. */
  lemma OrderIsKept(q: seq<Buffered>, p: Packet, d: Addr, before: real, now: real)
    requires Stamped(q, before) && before <= now
    ensures Stamped(Live(q, now), now) && Stamped(RemoveFirst(Live(q, now), d), now)
    ensures Stamped(Enqueued(q, p, now), now)
  {
    StampedLive(q, d, before, now);
    StampedRemove(Live(q, now), d, now);
  }

  // ----- runs of the buffer -----

  datatype Op = Enque(p: Packet, now: real) | Deque(d: Addr, now: real) | DequeHead(now: real) | Purge(now: real)

  /** The buffer, what was ever put in, and what has left, by the way it left. */
  datatype Ledger = Ledger(
    buffer: seq<Buffered>, enqueued: multiset<Buffered>, dequeued: multiset<Buffered>, aged: multiset<Buffered>,
    pushedOut: multiset<Buffered>)

  /** The first of a sequence, as a sequence. */
  function First(q: seq<Buffered>): (r: seq<Buffered>)
    ensures r + Rest(q) == q && |r| <= 1
  {
    if q == [] then [] else [q[0]]
  }

  function Rest(q: seq<Buffered>): seq<Buffered> {
    if q == [] then [] else q[1..]
  }

  /** What a full buffer drops to take another packet. */
  function Overflow(live: seq<Buffered>): seq<Buffered> {
    if |live| == RTQ_MAX_LEN then First(live) else []
  }

  /** A packet as it is put in. */
  function Entering(p: Packet, now: real): Buffered {
    Buffered(p, now + RTQ_TIMEOUT)
  }

  /** The purge with which every operation begins. */
  function Aging(s: Ledger, now: real): Ledger {
    s.(buffer := Live(s.buffer, now), aged := s.aged + multiset(Aged(s.buffer, now)))
  }

  function Apply(s: Ledger, op: Op): Ledger {
    var s1 := Aging(s, op.now);
    match op
    case Enque(p, now) =>
      s1.(buffer := Enqueued(s.buffer, p, now),
          enqueued := s1.enqueued + multiset{Entering(p, now)},
          pushedOut := s1.pushedOut + multiset(Overflow(s1.buffer)))
    case Deque(d, _) =>
      s1.(buffer := RemoveFirst(s1.buffer, d), dequeued := s1.dequeued + multiset(First(For(s1.buffer, d))))
    case DequeHead(_) =>
      s1.(buffer := Rest(s1.buffer), dequeued := s1.dequeued + multiset(First(s1.buffer)))
    case Purge(_) => s1
  }

  function Play(ops: seq<Op>): Ledger {
    if ops == [] then Ledger([], multiset{}, multiset{}, multiset{}, multiset{})
    else Apply(Play(ops[..|ops| - 1]), ops[|ops| - 1])
  }

  /** All that has left. */
  function Gone(s: Ledger): multiset<Buffered> {
    s.dequeued + s.aged + s.pushedOut
  }

  /** Every packet that was put in is still there, or was taken out, or aged, or was pushed out, and nothing else. */
  predicate Accounted(s: Ledger) {
    s.enqueued == multiset(s.buffer) + Gone(s)
  }

  lemma {:induction false} RemoveFirstLoses(q: seq<Buffered>, d: Addr)
    ensures multiset(RemoveFirst(q, d)) + multiset(First(For(q, d))) == multiset(q)
  {
    if q != [] {
      assert q == [q[0]] + q[1..];
      if q[0].packet.dst == d {
        assert First(For(q, d)) == [q[0]];
      } else {
        RemoveFirstLoses(q[1..], d);
      }
    }
  }

  lemma FirstLoses(q: seq<Buffered>)
    ensures multiset(Rest(q)) + multiset(First(q)) == multiset(q)
  {
    assert First(q) + Rest(q) == q;
  }

  lemma {:induction false} LiveLength(q: seq<Buffered>, now: real)
    ensures |Live(q, now)| <= |q|
  {
    if q != [] {
      LiveLength(q[1..], now);
    }
  }

  lemma EnquedFits(q: seq<Buffered>, p: Packet, now: real)
    requires |q| <= RTQ_MAX_LEN
    ensures |Enqueued(q, p, now)| <= RTQ_MAX_LEN
  {
    LiveLength(q, now);
  }

  /** What leaves the buffer is added to where it went. */
  lemma Moved(e: multiset<Buffered>, b: multiset<Buffered>, gone: multiset<Buffered>, b': multiset<Buffered>,
              x: multiset<Buffered>, out: multiset<Buffered>)
    requires e == b + gone && b' + out == b + x
    ensures e + x == b' + (gone + out)
  {
    forall y
      ensures (e + x)[y] == (b' + (gone + out))[y]
    {
      assert (b' + out)[y] == (b + x)[y];
    }
  }

  lemma TakenOut(s: Ledger, rest: seq<Buffered>, out: multiset<Buffered>)
    requires Accounted(s) && multiset(rest) + out == multiset(s.buffer)
    ensures Accounted(s.(buffer := rest, dequeued := s.dequeued + out))
  {
    Moved(s.enqueued, multiset(s.buffer), Gone(s), multiset(rest), multiset{}, out);
    assert Gone(s.(buffer := rest, dequeued := s.dequeued + out)) == Gone(s) + out;
  }

  lemma AgedOut(s: Ledger, rest: seq<Buffered>, out: multiset<Buffered>)
    requires Accounted(s) && multiset(rest) + out == multiset(s.buffer)
    ensures Accounted(s.(buffer := rest, aged := s.aged + out))
  {
    Moved(s.enqueued, multiset(s.buffer), Gone(s), multiset(rest), multiset{}, out);
    assert Gone(s.(buffer := rest, aged := s.aged + out)) == Gone(s) + out;
  }

  lemma AgingAccounts(s: Ledger, now: real)
    requires Accounted(s)
    ensures Accounted(Aging(s, now)) && |Aging(s, now).buffer| <= |s.buffer|
  {
    NothingIsLost(s.buffer, 0, now);
    AgedOut(s, Live(s.buffer, now), multiset(Aged(s.buffer, now)));
    LiveLength(s.buffer, now);
  }

  /** One packet comes in at the end, and `out` goes. */
  lemma PutIn(s: Ledger, kept: seq<Buffered>, x: Buffered, out: seq<Buffered>, s': Ledger)
    requires Accounted(s) && multiset(kept) + multiset(out) == multiset(s.buffer)
    requires s'.buffer == kept + [x] && s'.enqueued == s.enqueued + multiset{x}
    requires s'.pushedOut == s.pushedOut + multiset(out) && s'.dequeued == s.dequeued && s'.aged == s.aged
    ensures Accounted(s')
  {
    assert multiset(kept + [x]) == multiset(kept) + multiset{x};
    Moved(s.enqueued, multiset(s.buffer), Gone(s), multiset(kept) + multiset{x}, multiset{x}, multiset(out));
    assert Gone(s') == Gone(s) + multiset(out);
  }

  lemma OverflowLoses(live: seq<Buffered>, out: seq<Buffered>, kept: seq<Buffered>)
    requires out == Overflow(live) && kept == live[|out|..]
    ensures multiset(kept) + multiset(out) == multiset(live)
  {
    assert live == out + kept;
  }

  lemma EnquedIs(q: seq<Buffered>, p: Packet, now: real, live: seq<Buffered>, out: seq<Buffered>, kept: seq<Buffered>)
    requires live == Live(q, now) && out == Overflow(live) && kept == live[|out|..]
    ensures Enqueued(q, p, now) == kept + [Entering(p, now)]
  {
  }

  lemma EnqueAccounts(s: Ledger, p: Packet, now: real, s1: Ledger, out: seq<Buffered>, s': Ledger)
    requires Accounted(s1) && s1 == Aging(s, now) && out == Overflow(s1.buffer)
    requires s' == Apply(s, Enque(p, now))
    ensures Accounted(s')
  {
    var kept := s1.buffer[|out|..];
    OverflowLoses(s1.buffer, out, kept);
    EnquedIs(s.buffer, p, now, s1.buffer, out, kept);
    PutIn(s1, kept, Entering(p, now), out, s');
  }

  lemma DequeAccounts(s: Ledger, d: Addr, now: real)
    requires Accounted(s) && |s.buffer| <= RTQ_MAX_LEN
    ensures Accounted(Apply(s, Deque(d, now))) && |Apply(s, Deque(d, now)).buffer| <= RTQ_MAX_LEN
  {
    AgingAccounts(s, now);
    var s1 := Aging(s, now);
    RemoveFirstLoses(s1.buffer, d);
    TakesOldestFirst(s1.buffer, d);
    TakenOut(s1, RemoveFirst(s1.buffer, d), multiset(First(For(s1.buffer, d))));
  }

  lemma DequeHeadAccounts(s: Ledger, now: real)
    requires Accounted(s) && |s.buffer| <= RTQ_MAX_LEN
    ensures Accounted(Apply(s, DequeHead(now))) && |Apply(s, DequeHead(now)).buffer| <= RTQ_MAX_LEN
  {
    AgingAccounts(s, now);
    var s1 := Aging(s, now);
    FirstLoses(s1.buffer);
    TakenOut(s1, Rest(s1.buffer), multiset(First(s1.buffer)));
  }

  lemma ApplyAccounts(s: Ledger, op: Op)
    requires Accounted(s) && |s.buffer| <= RTQ_MAX_LEN
    ensures Accounted(Apply(s, op)) && |Apply(s, op).buffer| <= RTQ_MAX_LEN
  {
    match op
    case Enque(p, now) => 
      var s1 := Aging(s, now);
      AgingAccounts(s, now);
      EnqueAccounts(s, p, now, s1, Overflow(s1.buffer), Apply(s, op));
      EnquedFits(s.buffer, p, now);
    case Deque(d, now) => DequeAccounts(s, d, now);
    case DequeHead(now) => DequeHeadAccounts(s, now);
    case Purge(now) => AgingAccounts(s, now);
  }

  /** Over any operations at any times, no packet is lost or invented, and there are never more than the limit. */
  lemma {:induction false} EveryPacketIsAccountedFor(ops: seq<Op>)
    ensures Accounted(Play(ops)) && |Play(ops).buffer| <= RTQ_MAX_LEN
  {
    if ops != [] {
      EveryPacketIsAccountedFor(ops[..|ops| - 1]);
      ApplyAccounts(Play(ops[..|ops| - 1]), ops[|ops| - 1]);
    }
  }

  ghost predicate TimeMovesForward(ops: seq<Op>) {
    forall j, k :: 0 <= j < k < |ops| ==> ops[j].now <= ops[k].now
  }

  lemma StampedTail(q: seq<Buffered>, now: real)
    requires Stamped(q, now) && q != []
    ensures Stamped(q[1..], now)
  {
    assert forall k :: 0 <= k < |q| - 1 ==> q[1..][k] == q[k + 1];
  }

  lemma ApplyStamps(s: Ledger, op: Op, before: real)
    requires Stamped(s.buffer, before) && before <= op.now
    ensures Stamped(Apply(s, op).buffer, op.now)
  {
    var live := Live(s.buffer, op.now);
    StampedLive(s.buffer, 0, before, op.now);
    match op
    case Enque(p, now) => OrderIsKept(s.buffer, p, 0, before, now);
    case Deque(d, _) => StampedRemove(live, d, op.now);
    case DequeHead(_) =>
      if live != [] {
        StampedTail(live, op.now);
      }
    case Purge(_) =>
  }

  /** In every buffer that can be reached as time moves forward, deadlines are in order and none is later than that
      of a packet put in now; so the general purge always does what the head-only purge would. */
  lemma {:induction false} ReachableBuffersAreOrdered(ops: seq<Op>)
    requires TimeMovesForward(ops)
    ensures ops != [] ==> Stamped(Play(ops).buffer, ops[|ops| - 1].now)
    ensures forall now :: Live(Play(ops).buffer, now) == HeadPurged(Play(ops).buffer, now)
  {
    if ops != [] {
      var n := |ops| - 1;
      ReachableBuffersAreOrdered(ops[..n]);
      var before := if n == 0 then ops[n].now else ops[n - 1].now;
      ApplyStamps(Play(ops[..n]), ops[n], before);
    }
    forall now
      ensures Live(Play(ops).buffer, now) == HeadPurged(Play(ops).buffer, now)
    {
      PurgesAgree(Play(ops).buffer, now);
    }
  }

  // ----- the linked list -----

  class Cell {
    const packet: Packet
    var deadline: real
    var next: Cell?

    constructor (packet: Packet)
      ensures this.packet == packet && next == null
    {
      this.packet := packet;
      deadline := 0.0;
      next := null;
    }
  }

  class SendBuffer {
    var head: Cell?
    var tail: Cell?
    var len: nat
    ghost var cells: seq<Cell>
    ghost var footprint: set<Cell>  // every cell that was ever enqueued

    ghost predicate Valid()
      reads this, footprint
    {
      && len == |cells| <= RTQ_MAX_LEN
      && (forall k :: 0 <= k < |cells| ==> cells[k] in footprint)
      && (cells == [] ==> head == null && tail == null)
      && (cells != [] ==> head == cells[0] && tail == cells[|cells| - 1] && cells[|cells| - 1].next == null)
      && (forall j, k :: 0 <= j < k < |cells| && j + 1 == k ==> cells[j].next == cells[k])
      && (forall j, k :: 0 <= j < k < |cells| ==> cells[j] != cells[k])
    }

    ghost function Contents(): (q: seq<Buffered>)
      requires Valid()
      reads this, footprint
      ensures |q| == |cells|
    {
      ContentsOf(cells)
    }

    constructor ()
      ensures Valid() && Contents() == [] && footprint == {}
    {
      head, tail, len := null, null, 0;
      cells, footprint := [], {};
    }

    /** Takes the head off; on an empty buffer it returns null. */
    method RemoveHead() returns (p: Cell?)
      requires Valid()
      modifies this
      ensures Valid() && footprint == old(footprint)
      ensures old(cells) == [] ==> p == null && cells == []
      ensures old(cells) != [] ==> p == old(cells)[0] && cells == old(cells)[1..] && Contents() == old(Contents())[1..]
    {
      p := head;
      if head == tail {
        head, tail := null, null;
      } else {
        head := head.next;
      }
      if p != null {
        len := len - 1;
        cells := cells[1..];
      }
    }

    /** Takes out the cell `p` that follows `prev`, cell k of the list. */
    method Unlink(p: Cell, prev: Cell?, ghost k: nat)
      requires Valid() && k < |cells| && p == cells[k]
      requires if k == 0 then prev == null else prev == cells[k - 1]
      modifies this, footprint`next
      ensures Valid() && cells == old(cells)[..k] + old(cells)[k + 1..]
      ensures footprint == old(footprint) && Contents() == old(Contents())[..k] + old(Contents())[k + 1..]
      ensures p.deadline == old(p.deadline)
    {
      if p == head {
        assert k == 0 && old(Contents())[..0] + old(Contents())[1..] == old(Contents())[1..];
        var _ := RemoveHead();
      } else {
        UnlinkAfter(p, prev, k);
        ContentsWithout(old(cells), k);
      }
    }

    /** The same, not at the head. */
    method UnlinkAfter(p: Cell, prev: Cell, ghost k: nat)
      requires Valid() && 0 < k < |cells| && p == cells[k] && prev == cells[k - 1]
      modifies this, prev`next
      ensures Valid() && cells == old(cells)[..k] + old(cells)[k + 1..] && footprint == old(footprint)
    {
      if p == tail {
        prev.next := null;
        tail := prev;
      } else {
        assert p.next == cells[k + 1];
        prev.next := p.next;
      }
      len := len - 1;
      cells := cells[..k] + cells[k + 1..];
    }

    /** The consistency check that runs after every change: its two asserts never fail. */
    method VerifyQueue()
      requires Valid()
    {
      var p, prev: Cell?, cnt := head, null, 0;
      while p != null
        invariant 0 <= cnt <= |cells|
        invariant p == (if cnt < |cells| then cells[cnt] else null)
        invariant prev == (if cnt > 0 then cells[cnt - 1] else null)
        decreases |cells| - cnt
      {
        cnt := cnt + 1;
        prev := p;
        p := p.next;
      }
      assert cnt == len;
      assert prev == tail;
    }

    /** The first aged packet and the one before it. */
    method FindAgedPacket(now: real) returns (found: bool, p: Cell?, prev: Cell?, ghost k: nat)
      requires Valid()
      ensures found <==> p != null
      ensures found ==> k < |cells| && p == cells[k] && p.deadline < now
      ensures found ==> if k == 0 then prev == null else prev == cells[k - 1]
      ensures !found ==> k == |cells|
      ensures forall j :: 0 <= j < k ==> cells[j].deadline >= now
    {
      p, prev, k := head, null, 0;
      while p != null
        invariant 0 <= k <= |cells|
        invariant p == (if k < |cells| then cells[k] else null)
        invariant prev == (if k > 0 then cells[k - 1] else null)
        invariant forall j :: 0 <= j < k ==> cells[j].deadline >= now
        decreases |cells| - k
      {
        if p.deadline < now {
          return true, p, prev, k;
        }
        prev := p;
        p := p.next;
        k := k + 1;
      }
      found := false;
    }

    /** The oldest packet for `dst` and the one before it. */
    method FindPacketWithDst(dst: Addr) returns (p: Cell?, prev: Cell?, ghost k: nat)
      requires Valid()
      ensures p != null ==> k < |cells| && p == cells[k] && p.packet.dst == dst
      ensures p != null ==> if k == 0 then prev == null else prev == cells[k - 1]
      ensures p == null ==> k == |cells|
      ensures forall j :: 0 <= j < k ==> cells[j].packet.dst != dst
      ensures p != null ==> p in cells && p.packet.dst == dst
      ensures p == null ==> forall c :: c in cells ==> c.packet.dst != dst
    {
      p, prev, k := head, null, 0;
      while p != null
        invariant 0 <= k <= |cells|
        invariant p == (if k < |cells| then cells[k] else null)
        invariant prev == (if k > 0 then cells[k - 1] else null)
        invariant forall j :: 0 <= j < k ==> cells[j].packet.dst != dst
        decreases |cells| - k
      {
        if p.packet.dst == dst {
          return;
        }
        prev := p;
        p := p.next;
        k := k + 1;
      }
    }

    /** One round of the purge: takes out the first aged packet, if there is one. */
    method PurgeOne(now: real) returns (found: bool)
      requires Valid()
      modifies this, footprint
      ensures Valid() && footprint == old(footprint)
      ensures found ==> Live(Contents(), now) == Live(old(Contents()), now) && |cells| < |old(cells)|
      ensures !found ==> Contents() == old(Contents()) == Live(old(Contents()), now)
      ensures forall c :: c in cells ==> c in old(cells)
    {
      var p, prev;
      ghost var k;
      found, p, prev, k := FindAgedPacket(now);
      if !found {
        AllLive(Contents(), now);
        return;
      }
      LiveWithout(Contents(), k, now);
      UnlinkFound(p, prev, k);
    }

    /** Removes every aged packet, wherever it stands. */
    method Purge(now: real)
      requires Valid()
      modifies this, footprint
      ensures Valid() && footprint == old(footprint)
      ensures Contents() == Live(old(Contents()), now)
      ensures forall c :: c in cells ==> c in old(cells)
    {
      var found := PurgeOne(now);
      while found
        invariant Valid() && footprint == old(footprint)
        invariant forall c :: c in cells ==> c in old(cells)
        invariant Live(Contents(), now) == Live(old(Contents()), now)
        invariant !found ==> Contents() == Live(Contents(), now)
        decreases found, |cells|
      {
        found := PurgeOne(now);
      }
    }

    /** Whether a packet for `dst` waits. */
    method Find(dst: Addr) returns (found: bool)
      requires Valid()
      ensures found <==> For(Contents(), dst) != []
    {
      var p, _, k := FindPacketWithDst(dst);
      found := p != null;
      FirstFor(Contents(), dst, k);
    }

    /** Appends a cell. */
    method Append(p: Cell)
      requires Valid() && p !in cells && p.next == null && len < RTQ_MAX_LEN
      modifies this, footprint, p
      ensures Valid() && footprint == old(footprint) + {p} && cells == old(cells) + [p]
      ensures Contents() == old(Contents()) + [Buffered(p.packet, old(p.deadline))]
    {
      if head == null {
        head, tail := p, p;
      } else {
        tail.next := p;
        tail := p;
      }
      len := len + 1;
      cells, footprint := cells + [p], footprint + {p};
    }

    method Enque(p: Cell, now: real)
      requires Valid() && p !in cells
      modifies this, footprint, p
      ensures Valid() && footprint == old(footprint) + {p}
      ensures Contents() == Enqueued(old(Contents()), p.packet, now)
    {
      Purge(now);
      Stamp(p, now);
      if len == RTQ_MAX_LEN {
        var dropped := RemoveHead();
      }
      Append(p);
      VerifyQueue();
    }

    /** Sets the deadline of a packet that is not in the list. */
    method Stamp(p: Cell, now: real)
      requires Valid() && p !in cells
      modifies p
      ensures Valid() && Contents() == old(Contents()) && p.next == null && p.deadline == now + RTQ_TIMEOUT
    {
      p.next := null;
      p.deadline := now + RTQ_TIMEOUT;
    }

    /** Takes out the oldest packet for `dst`, or returns null. */
    method TakeFirst(dst: Addr) returns (p: Cell?)
      requires Valid()
      modifies this, footprint
      ensures Valid() && footprint == old(footprint)
      ensures FirstTaken(old(Contents()), dst, Taken(p), Contents())
    {
      var prev;
      ghost var k;
      ghost var q := Contents();
      p, prev, k := FindPacketWithDst(dst);
      if p != null {
        UnlinkFound(p, prev, k);
      }
      FirstTakenAt(q, dst, k, Taken(p), Contents());
    }

    /** Takes out a cell that was found, and checks the list. */
    method UnlinkFound(p: Cell, prev: Cell?, ghost k: nat)
      requires Valid() && k < |cells| && p == cells[k]
      requires if k == 0 then prev == null else prev == cells[k - 1]
      modifies this, footprint
      ensures Valid() && footprint == old(footprint) && |cells| == |old(cells)| - 1
      ensures forall c :: c in cells ==> c in old(cells)
      ensures Contents() == old(Contents())[..k] + old(Contents())[k + 1..]
      ensures Buffered(p.packet, p.deadline) == old(Contents())[k]
    {
      Unlink(p, prev, k);
      VerifyQueue();
    }

    /** The oldest packet that has not aged, or null. */
    method DequeHead(now: real) returns (p: Cell?)
      requires Valid()
      modifies this, footprint
      ensures Valid() && footprint == old(footprint)
      ensures var live := Live(old(Contents()), now);
        Taken(p) == First(live) && Contents() == Rest(live)
    {
      Purge(now);
      p := RemoveHead();
      VerifyQueue();
    }

    /** The oldest packet for `dst` that has not aged, or null. */
    method Deque(dst: Addr, now: real) returns (p: Cell?)
      requires Valid()
      modifies this, footprint
      ensures Valid() && footprint == old(footprint)
      ensures Contents() == RemoveFirst(Live(old(Contents()), now), dst)
      ensures p != null ==> p.deadline >= now
      ensures Takes(old(Contents()), dst, now, Taken(p), Contents())
    {
      DequeTakes(Contents(), dst, now);
      Members(Contents(), dst, now);
      Purge(now);
      Members(Contents(), dst, now);
      assert For(Contents(), dst) != [] ==> For(Contents(), dst)[0] in For(Contents(), dst);
      p := TakeFirst(dst);
    }
  }

  /** A packet that was returned, as a sequence. */
  ghost function Taken(p: Cell?): (t: seq<Buffered>)
    reads p
    ensures |t| <= 1
  {
    if p == null then [] else [Buffered(p.packet, p.deadline)]
  }

  ghost function ContentsOf(cells: seq<Cell>): (q: seq<Buffered>)
    reads cells
    ensures |q| == |cells|
    ensures forall k :: 0 <= k < |cells| ==> q[k] == Buffered(cells[k].packet, cells[k].deadline)
  {
    seq(|cells|, k requires 0 <= k < |cells| reads cells => Buffered(cells[k].packet, cells[k].deadline))
  }

  lemma ContentsWithout(cells: seq<Cell>, k: nat)
    requires k < |cells|
    ensures ContentsOf(cells[..k] + cells[k + 1..]) == ContentsOf(cells)[..k] + ContentsOf(cells)[k + 1..]
  {
    var r := cells[..k] + cells[k + 1..];
    assert forall j :: 0 <= j < |r| ==> r[j] == cells[if j < k then j else j + 1];
  }

  lemma {:induction false} LiveWithout(q: seq<Buffered>, k: nat, now: real)
    requires k < |q| && q[k].deadline < now
    ensures Live(q[..k] + q[k + 1..], now) == Live(q, now)
  {
    var r := q[..k] + q[k + 1..];
    if k == 0 {
      assert r == q[1..];
    } else {
      assert r[1..] == q[1..][..k - 1] + q[1..][k..];
      LiveWithout(q[1..], k - 1, now);
    }
  }

  /** Where the oldest packet for `d` stands is where it is taken out. */
  lemma FirstTakenAt(q: seq<Buffered>, d: Addr, k: nat, taken: seq<Buffered>, r: seq<Buffered>)
    requires k <= |q| && forall j :: 0 <= j < k ==> q[j].packet.dst != d
    requires k < |q| ==> q[k].packet.dst == d && taken == [q[k]] && r == q[..k] + q[k + 1..]
    requires k == |q| ==> taken == [] && r == q
    ensures FirstTaken(q, d, taken, r)
  {
    FirstFor(q, d, k);
    RemoveFirstAt(q, d, k);
  }

  /** Where the first packet for d stands. */
  lemma {:induction false} FirstFor(q: seq<Buffered>, d: Addr, k: nat)
    requires k <= |q| && forall j :: 0 <= j < k ==> q[j].packet.dst != d
    requires k < |q| ==> q[k].packet.dst == d
    ensures For(q, d) == [] <==> k == |q|
    ensures k < |q| ==> For(q, d)[0] == q[k]
  {
    if q != [] && k > 0 {
      FirstFor(q[1..], d, k - 1);
    }
  }

  lemma {:induction false} RemoveFirstAt(q: seq<Buffered>, d: Addr, k: nat)
    requires k <= |q| && forall j :: 0 <= j < k ==> q[j].packet.dst != d
    requires k < |q| ==> q[k].packet.dst == d
    ensures RemoveFirst(q, d) == if k < |q| then q[..k] + q[k + 1..] else q
  {
    if q != [] && k > 0 {
      var rest := q[1..];
      RemoveFirstAt(rest, d, k - 1);
      if k < |q| {
        assert q[..k] == [q[0]] + rest[..k - 1] && rest[k..] == q[k + 1..];
      }
    }
  }
}
