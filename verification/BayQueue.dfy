/** The reassembly queue as the doubly linked list it is, and the data path of the agent that owns it.
    Both write the same in-order point. */
module BayQueue {
  import opened BaySegments

  /** The integer that the agent owns and the queue holds by reference. */
  class Counter {
    var next: int

    constructor (next: int)
      ensures this.next == next
    {
      this.next := next;
    }
  }

  class SegInfo {
    const startseq: int
    const endseq: int
    const flags: bv8
    var prev: SegInfo?
    var next: SegInfo?

    constructor (start: int, end: int, flags: bv8)
      ensures Value() == Seg(start, end, flags) && prev == null && next == null
    {
      startseq, endseq, this.flags := start, end, flags;
      prev, next := null, null;
    }

    function Value(): Seg {
      Seg(startseq, endseq, flags)
    }
  }

  ghost function Values(cells: seq<SegInfo>): (q: seq<Seg>)
    ensures |q| == |cells| && forall k :: 0 <= k < |q| ==> q[k] == cells[k].Value()
  {
    seq(|cells|, k requires 0 <= k < |cells| => cells[k].Value())
  }

  lemma ValuesSplice(a: seq<SegInfo>, b: seq<SegInfo>, k: nat)
    requires k <= |b|
    ensures Values(a + b) == Values(a) + Values(b)
    ensures Values(b[..k]) == Values(b)[..k] && Values(b[k..]) == Values(b)[k..]
  {
  }

  lemma ValuesInsert(c: seq<SegInfo>, n: SegInfo, i: nat)
    requires i <= |c|
    ensures Values(c[..i] + [n] + c[i..]) == Values(c)[..i] + [n.Value()] + Values(c)[i..]
  {
    ValuesSplice(c[..i] + [n], c[i..], 0);
    ValuesSplice(c[..i], [n], 0);
    ValuesSplice([], c, i);
  }

  lemma ValuesTail(c: seq<SegInfo>)
    requires c != []
    ensures Values(c[1..]) == Values(c)[1..] && Values(c)[0] == c[0].Value()
  {
  }

  /** Cell k of the list, null past either end. */
  function Cell(cells: seq<SegInfo>, k: int): SegInfo? {
    if 0 <= k < |cells| then cells[k] else null
  }

  predicate Distinct(cells: seq<SegInfo>) {
    forall j, k :: 0 <= j < k < |cells| ==> cells[j] != cells[k]
  }

  /** Links `n` in between `p` and what follows it. */
  method Join(p: SegInfo, n: SegInfo)
    requires p != n && p.next != p && p.next != n
    modifies p`next, n`next, n`prev, (if p.next == null then {} else {p.next})`prev
    ensures n.next == old(p.next) && p.next == n && n.prev == p
    ensures n.next != null ==> n.next.prev == n
  {
    n.next := p.next;
    if p.next != null {
      p.next.prev := n;
    }
    p.next := n;
    n.prev := p;
  }

  lemma DistinctInsert(c: seq<SegInfo>, n: SegInfo, i: nat)
    requires Distinct(c) && n !in c && i <= |c|
    ensures Distinct(c[..i] + [n] + c[i..])
  {
    var r := c[..i] + [n] + c[i..];
    forall j, k | 0 <= j < k < |r|
      ensures r[j] != r[k]
    {
      assert r[j] == if j < i then c[j] else if j == i then n else c[j - 1];
      assert r[k] == if k < i then c[k] else if k == i then n else c[k - 1];
    }
  }

  lemma InsertAt(q: seq<Seg>, s: Seg, i: nat)
    requires i == Place(q, s)
    ensures Insert(q, s) == q[..i] + [s] + q[i..] && (i == 0 ==> Insert(q, s) == [s] + q)
  {
  }

  /** From q with flags f, one segment is delivered, `rest` stays, and d would be the result if a gap came now. */
  ghost predicate Delivered(q: seq<Seg>, f: bv8, rest: seq<Seg>, d: Drained) {
    && q != [] && rest == q[1..]
    && Drain(q, f) == if rest == [] || q[0].end < rest[0].start then d else Drain(rest, d.flags)
  }

  lemma DeliveredFirst(q: seq<Seg>, f: bv8)
    requires q != []
    ensures Delivered(q, f, q[1..], Drained(q[0].end, q[1..], f | q[0].flags))
  {
  }

  class BayReassemblyQueue {
    const rcv: Counter
    var head: SegInfo?
    var tail: SegInfo?
    ghost var cells: seq<SegInfo>
    ghost var footprint: set<SegInfo>  // every cell that was ever queued

    ghost predicate Valid()
      reads this, footprint
    {
      && (forall k :: 0 <= k < |cells| ==> cells[k] in footprint)
      && (cells == [] ==> head == null && tail == null)
      && (cells != [] ==> head == cells[0] && tail == cells[|cells| - 1])
      && (cells != [] ==> cells[0].prev == null && cells[|cells| - 1].next == null)
      && (forall j, k :: 0 <= j < k < |cells| && j + 1 == k ==> cells[j].next == cells[k] && cells[k].prev == cells[j])
      && Distinct(cells)
    }

    ghost function Contents(): (q: seq<Seg>)
      reads this
    {
      Values(cells)
    }

    ghost function Abstract(): Receiver
      reads this, rcv
    {
      Receiver(rcv.next, Contents())
    }

    constructor (rcv: Counter)
      ensures Valid() && Contents() == [] && footprint == {} && this.rcv == rcv
    {
      this.rcv := rcv;
      head, tail := null, null;
      cells, footprint := [], {};
    }

    predicate Empty()
      requires Valid()
      reads this, footprint
      ensures Empty() <==> Contents() == []
    {
      head == null
    }

    method Clear()
      requires Valid()
      modifies this
      ensures Valid() && Contents() == [] && footprint == old(footprint)
    {
      head, tail := null, null;
      cells := [];
    }

    /** The first queued segment that starts at or after `end`. */
    method FindAfter(end: int) returns (q: SegInfo?)
      requires Valid()
      ensures var i := FirstAfter(Contents(), end); q == Cell(cells, i)
    {
      q := head;
      ghost var i := 0;
      while q != null && end > q.startseq
        invariant 0 <= i <= |cells|
        invariant q == Cell(cells, i)
        invariant FirstAfter(Contents(), end) == i + FirstAfter(Contents()[i..], end)
        decreases |cells| - i
      {
        assert Contents()[i..][1..] == Contents()[i + 1..];
        q := q.next;
        i := i + 1;
      }
    }

    /** Links `n` in after the cell `p`, cell i - 1 of the list. */
    method LinkAfter(p: SegInfo, n: SegInfo, ghost i: nat)
      requires Valid() && 0 < i <= |cells| && p == cells[i - 1] && n !in footprint
      modifies this, footprint, n
      ensures Valid() && footprint == old(footprint) + {n}
      ensures cells == old(cells)[..i] + [n] + old(cells)[i..]
    {
      if i < |cells| {
        assert p.next == cells[i] && cells[i] != p && p != tail;
      }
      Join(p, n);
      if p == tail {
        tail := n;
      }
      DistinctInsert(cells, n, i);
      cells, footprint := cells[..i] + [n] + cells[i..], footprint + {n};
    }

    method InsertAfter(p: SegInfo, n: SegInfo, ghost i: nat)
      requires Valid() && 0 < i <= |cells| && p == cells[i - 1] && n !in footprint
      modifies this, footprint, n
      ensures Valid() && footprint == old(footprint) + {n}
      ensures Contents() == old(Contents())[..i] + [n.Value()] + old(Contents())[i..]
    {
      ValuesInsert(cells, n, i);
      LinkAfter(p, n, i);
    }

    method LinkFirst(n: SegInfo)
      requires Valid() && n !in cells
      modifies this, footprint, n
      ensures Valid() && footprint == old(footprint) + {n} && cells == [n] + old(cells)
      ensures Contents() == [n.Value()] + old(Contents())
    {
      if head == null {
        tail, head := n, n;
        n.prev, n.next := null, null;
      } else {
        n.next := head;
        n.prev := null;
        head.prev := n;
        head := n;
      }
      cells, footprint := [n] + cells, footprint + {n};
    }

    /** The cell that a segment goes after, null to put it first. */
    method FindPlace(start: int, end: int, flags: bv8) returns (p: SegInfo?)
      requires Valid()
      ensures var i := Place(Contents(), Seg(start, end, flags)); p == Cell(cells, i - 1)
    {
      if head == null {
        return null;
      }
      if tail.endseq <= start {
        return tail;
      }
      var q := FindAfter(end);
      p := if q == null then tail else q.prev;
    }

    /** Puts a segment in its place. */
    method InsertSegment(start: int, end: int, flags: bv8)
      requires Valid()
      modifies this, footprint
      ensures Valid() && fresh(footprint - old(footprint)) && old(footprint) <= footprint
      ensures Contents() == Insert(old(Contents()), Seg(start, end, flags))
    {
      var n := new SegInfo(start, end, flags);
      var p := FindPlace(start, end, flags);
      ghost var i := Place(Contents(), n.Value());
      InsertAt(Contents(), n.Value(), i);
      if p == null {
        LinkFirst(n);
      } else {
        InsertAfter(p, n, i);
      }
    }

    /** Takes the cell `q` out, cell i of the list. */
    method Unlink(q: SegInfo, ghost i: nat)
      requires Valid() && i < |cells| && q == cells[i]
      modifies this, footprint - {q}
      ensures Valid() && footprint == old(footprint) && cells == old(cells)[..i] + old(cells)[i + 1..]
    {
      if i < |cells| - 1 {
        assert q.next == cells[i + 1];
      }
      if i > 0 {
        assert q.prev == cells[i - 1];
      }
      if q.prev != null {
        q.prev.next := q.next;
      } else {
        head := q.next;
      }
      if q.next != null {
        q.next.prev := q.prev;
      } else {
        tail := q.prev;
      }
      cells := cells[..i] + cells[i + 1..];
    }

    /** Takes the head out. */
    method UnlinkHead(q: SegInfo)
      requires Valid() && q == head
      modifies this, footprint - {q}
      ensures Valid() && footprint == old(footprint)
      ensures cells == old(cells)[1..] && q.next == Cell(old(cells), 1)
    {
      assert q.next == Cell(cells, 1) && cells[..0] + cells[1..] == cells[1..];
      Unlink(q, 0);
    }

    /** Delivers the head, with flags f collected before it. */
    method DeliverHead(p: SegInfo, f: bv8) returns (flags: bv8)
      requires Valid() && p == head
      modifies this, footprint - {p}, rcv
      ensures Valid() && footprint == old(footprint) && |cells| < |old(cells)| && p.next == head
      ensures head != null ==> Contents() != [] && head.Value() == Contents()[0]
      ensures Delivered(old(Contents()), f, Contents(), Drained(rcv.next, Contents(), flags))
    {
      ValuesTail(cells);
      DeliveredFirst(Contents(), f);
      rcv.next := p.endseq;
      flags := f | p.flags;
      UnlinkHead(p);
    }

    /** Delivers from the head up to the first gap. */
    method DrainHead() returns (flags: bv8)
      requires Valid() && head != null
      modifies this, footprint, rcv
      ensures Valid() && footprint == old(footprint)
      ensures Drained(rcv.next, Contents(), flags) == Drain(old(Contents()), 0)
    {
      flags := 0;
      var p := head;
      while p != null
        invariant Valid() && footprint == old(footprint) && p == head
        invariant p != null ==> Drain(Contents(), flags) == Drain(old(Contents()), 0)
        invariant p == null ==> Drained(rcv.next, Contents(), flags) == Drain(old(Contents()), 0)
        decreases |cells|
      {
        flags := DeliverHead(p, flags);
        if p.next != null && p.endseq < p.next.startseq {
          break;
        }
        p := p.next;
      }
    }

    method Add(start: int, end: int, flags: bv8) returns (tiflags: bv8)
      requires Valid()
      modifies this, footprint, rcv
      ensures Valid() && fresh(footprint - old(footprint)) && old(footprint) <= footprint
      ensures Drained(rcv.next, Contents(), tiflags) == Added(old(Abstract()), Seg(start, end, flags))
    {
      InsertSegment(start, end, flags);
      if head.startseq > rcv.next {
        return 0;
      }
      tiflags := DrainHead();
    }
  }

  /** An arrival, once trimmed, that is nothing new or is taken directly. */
  lemma ArrivedDirect(r: Receiver, seqno: int, len: nat, flags: bv8, start: int, datalen: nat)
    requires var cut := Overlap(r, seqno, len); start == seqno + cut && datalen == len - cut
    ensures datalen == 0 ==> Arrived(r, seqno, len, flags) == r && !Upcalled(r, seqno, len, flags)
    ensures datalen > 0 && start == r.next && r.queue == [] ==>
      && Arrived(r, seqno, len, flags) == Receiver(r.next + datalen, [])
      && (Upcalled(r, seqno, len, flags) <==> flags & PUSH != 0)
  {
  }

  /** An arrival, once trimmed, that goes through the queue. */
  lemma ArrivedQueued(r: Receiver, seqno: int, len: nat, flags: bv8, start: int, d: Drained)
    requires start == seqno + Overlap(r, seqno, len) && Overlap(r, seqno, len) < len
    requires start != r.next || r.queue != []
    requires d == Added(r, Seg(start, start + len, flags))
    ensures Arrived(r, seqno, len, flags) == Receiver(d.next, d.rest)
    ensures Upcalled(r, seqno, len, flags) <==> d.flags & PUSH != 0
  {
  }

  /** The receiving side of the agent. */
  class BayFullTcpAgent {
    const rcv: Counter
    const rq: BayReassemblyQueue

    ghost predicate Valid()
      reads this, rq, rq.footprint
    {
      rq.rcv == rcv && rq.Valid()
    }

    constructor (base: int)
      ensures Valid() && fresh(rcv) && fresh(rq) && rq.Abstract() == Run(base, [])
    {
      var c := new Counter(base);
      rcv := c;
      rq := new BayReassemblyQueue(c);
    }

    /** The data of one arrival: `len` bytes at `seqno`. Tells whether the application is called. */
    method Recv(seqno: int, len: nat, flags: bv8) returns (push: bool)
      requires Valid()
      modifies rcv, rq, rq.footprint
      ensures Valid() && fresh(rq.footprint - old(rq.footprint)) && old(rq.footprint) <= rq.footprint
      ensures rq.Abstract() == Arrived(old(rq.Abstract()), seqno, len, flags)
      ensures push == Upcalled(old(rq.Abstract()), seqno, len, flags)
    {
      ghost var r := rq.Abstract();
      var start, datalen := Trim(seqno, len);
      ArrivedDirect(r, seqno, len, flags, start, datalen);
      push := false;
      if datalen > 0 {
        if start == rcv.next && rq.Empty() {
          rcv.next := rcv.next + datalen;
          push := flags & PUSH != 0;
        } else {
          var tiflags := rq.Add(start, start + len, flags);
          ArrivedQueued(r, seqno, len, flags, start, Drained(rcv.next, rq.Contents(), tiflags));
          push := tiflags & PUSH != 0;
        }
      }
    }

    /** Cuts off what was received before. */
    method Trim(seqno: int, len: nat) returns (start: int, datalen: nat)
      ensures var cut := Overlap(Receiver(rcv.next, []), seqno, len); start == seqno + cut && datalen == len - cut
    {
      start, datalen := seqno, len;
      var todrop := rcv.next - seqno;
      if todrop > 0 {
        if todrop >= datalen {
          todrop := datalen;
        }
        start := start + todrop;
        datalen := datalen - todrop;
      }
    }
  }
}
