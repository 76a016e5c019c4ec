/** The receiving side of BayFullTcp as a function of the segments that arrive: the in-order point
    `next` (rcv_nxt_) and the reassembly queue. */
module BaySegments {

  const PUSH: bv8 := 0x08

  datatype Seg = Seg(start: int, end: int, flags: bv8)

  datatype Receiver = Receiver(next: int, queue: seq<Seg>)

  // ----- the reassembly queue -----

  /** The first queued segment that starts at or after `end`. */
  function FirstAfter(q: seq<Seg>, end: int): (i: nat)
    ensures i <= |q|
    ensures forall j :: 0 <= j < i ==> q[j].start < end
    ensures i < |q| ==> end <= q[i].start
  {
    if q == [] || end <= q[0].start then 0 else 1 + FirstAfter(q[1..], end)
  }

  /** Where a segment goes: after the tail when the tail ends before it, otherwise before the first
      segment that starts after its end. */
  function Place(q: seq<Seg>, s: Seg): (i: nat)
    ensures i <= |q|
  {
    if q != [] && q[|q| - 1].end <= s.start then |q| else FirstAfter(q, s.end)
  }

  function Insert(q: seq<Seg>, s: Seg): (r: seq<Seg>)
    ensures |r| == |q| + 1
    ensures forall t :: t in r <==> t == s || t in q
  {
    var i := Place(q, s);
    assert q == q[..i] + q[i..];
    q[..i] + [s] + q[i..]
  }

  datatype Drained = Drained(next: int, rest: seq<Seg>, flags: bv8)

  /** Takes segments off the head up to the first gap. */
  function Drain(q: seq<Seg>, flags: bv8): Drained
    requires q != []
  {
    if |q| == 1 || q[0].end < q[1].start then Drained(q[0].end, q[1..], flags | q[0].flags)
    else Drain(q[1..], flags | q[0].flags)
  }

  /** The queue after a segment is added, the in-order point, and the flags of what became in order. */
  function Added(r: Receiver, s: Seg): Drained {
    var q := Insert(r.queue, s);
    if q[0].start > r.next then Drained(r.next, q, 0) else Drain(q, 0)
  }

  /** The duplicate data at the head of an arrival of `len` bytes. */
  function Overlap(r: Receiver, start: int, len: nat): (cut: nat)
    ensures cut <= len
  {
    if r.next <= start then 0 else if r.next - start >= len then len else r.next - start
  }

  /** An arrival: what was seen before is trimmed; an empty remainder is dropped; the in-order
      segment is taken directly when nothing is queued; anything else goes through the queue, with
      its end computed from the untrimmed length. */
  function Arrived(r: Receiver, start: int, len: nat, flags: bv8): Receiver {
    var cut := Overlap(r, start, len);
    if cut == len then r
    else if start + cut == r.next && r.queue == [] then Receiver(r.next + (len - cut), [])
    else
      var d := Added(r, Seg(start + cut, start + cut + len, flags));
      Receiver(d.next, d.rest)
  }

  function Arrive(r: Receiver, s: Seg): Receiver
    requires s.start <= s.end
  {
    Arrived(r, s.start, s.end - s.start, s.flags)
  }

  /** Whether an arrival makes the agent call the application: PUSH on what it makes in order. */
  predicate Upcalled(r: Receiver, start: int, len: nat, flags: bv8) {
    var cut := Overlap(r, start, len);
    if cut == len then false
    else if start + cut == r.next && r.queue == [] then flags & PUSH != 0
    else Added(r, Seg(start + cut, start + cut + len, flags)).flags & PUSH != 0
  }

  /** The receiver after the arrivals h, in that order. */
  function Run(base: int, h: seq<Seg>): Receiver
    requires forall s :: s in h ==> s.start <= s.end
  {
    if h == [] then Receiver(base, []) else Arrive(Run(base, h[..|h| - 1]), h[|h| - 1])
  }

  // ----- the reference: the set of bytes received -----

  ghost predicate Covered(h: seq<Seg>, x: int) {
    exists s :: s in h && s.start <= x < s.end
  }

  /** n is the end of the longest contiguous stretch of bytes of h that starts at base. */
  ghost predicate UpTo(h: seq<Seg>, base: int, n: int) {
    && base <= n
    && (forall x :: base <= x < n ==> Covered(h, x))
    && !Covered(h, n)
  }

  predicate Compatible(a: Seg, b: Seg) {
    (a.start == b.start && a.end == b.end) || a.end <= b.start || b.end <= a.start
  }

  /** The arrivals are cut along one segmentation: any two are the same stretch or apart. */
  ghost predicate Segmented(h: seq<Seg>, base: int) {
    && (forall s :: s in h ==> base <= s.start < s.end)
    && (forall s, t :: s in h && t in h ==> Compatible(s, t))
  }

  predicate Before(a: Seg, b: Seg) {
    (a.start == b.start && a.end == b.end) || a.end <= b.start
  }

  ghost predicate Sorted(q: seq<Seg>) {
    && (forall s :: s in q ==> s.start < s.end)
    && (forall i, j :: 0 <= i < j < |q| ==> Before(q[i], q[j]))
  }

  /** The receiver stands for the set of segments received: the in-order point is the end of the
      contiguous prefix, and the queue is sorted and holds exactly the segments beyond that point. */
  ghost predicate Represents(r: Receiver, h: seq<Seg>, base: int) {
    && UpTo(h, base, r.next)
    && Sorted(r.queue)
    && (forall s :: s in r.queue <==> s in h && s.start > r.next)
    && (forall s :: s in h ==> s.end <= r.next || s.start > r.next)
  }

  // ----- the queue operations -----

  /** What ends up before the place found lies before the segment, the rest after it. */
  lemma PlaceSplits(q: seq<Seg>, s: Seg)
    requires Sorted(q) && s.start < s.end && forall t :: t in q ==> Compatible(s, t)
    ensures forall j :: 0 <= j < |q| ==> if j < Place(q, s) then Before(q[j], s) else Before(s, q[j])
  {
    var i := Place(q, s);
    forall j | 0 <= j < |q|
      ensures if j < i then Before(q[j], s) else Before(s, q[j])
    {
      assert q[j] in q && Compatible(s, q[j]);
      if i < |q| {
        assert j > i ==> Before(q[i], q[j]);
        assert q[i] in q;
      } else if q != [] {
        assert j < |q| - 1 ==> Before(q[j], q[|q| - 1]);
        assert q[|q| - 1] in q;
      }
    }
  }

  lemma SpliceSorted(q: seq<Seg>, s: Seg, i: nat, r: seq<Seg>)
    requires Sorted(q) && s.start < s.end && i <= |q|
    requires forall j :: 0 <= j < |q| ==> if j < i then Before(q[j], s) else Before(s, q[j])
    requires r == q[..i] + [s] + q[i..]
    ensures Sorted(r)
  {
    forall j, k | 0 <= j < k < |r|
      ensures Before(r[j], r[k])
    {
      assert r[j] == if j < i then q[j] else if j == i then s else q[j - 1];
      assert r[k] == if k < i then q[k] else if k == i then s else q[k - 1];
    }
  }

  lemma InsertSorted(q: seq<Seg>, s: Seg)
    requires Sorted(q) && s.start < s.end && forall t :: t in q ==> Compatible(s, t)
    ensures Sorted(Insert(q, s))
  {
    PlaceSplits(q, s);
    SpliceSorted(q, s, Place(q, s), Insert(q, s));
  }

  lemma SortedTail(q: seq<Seg>)
    requires Sorted(q) && q != []
    ensures Sorted(q[1..]) && forall s :: s in q[1..] ==> Before(q[0], s)
  {
    assert forall s :: s in q[1..] ==> s in q;
  }

  lemma HeadIsFirst(q: seq<Seg>)
    requires Sorted(q) && q != []
    ensures forall t :: t in q ==> q[0].start <= t.start
  {
    assert q[0] in q;
    forall t | t in q
      ensures q[0].start <= t.start
    {
      assert t == q[0] || Before(q[0], t);
    }
  }

  /** Where a drain of q that comes to d has stopped. */
  ghost predicate Stopped(q: seq<Seg>, d: Drained)
    requires q != []
  {
    && q[0].end <= d.next && Sorted(d.rest)
    && (forall x :: q[0].start <= x < d.next ==> Covered(q, x))
    && (forall s :: s in d.rest <==> s in q && s.start > d.next)
    && (forall s :: s in q ==> s.end <= d.next || s.start > d.next)
  }

  lemma StoppedAtGap(q: seq<Seg>, d: Drained)
    requires q != [] && Sorted(q) && (|q| > 1 ==> q[0].end < q[1].start)
    requires d.next == q[0].end && d.rest == q[1..]
    ensures Stopped(q, d)
  {
    SortedTail(q);
    assert q == [q[0]] + q[1..] && q[0] in q;
    if |q| > 1 {
      SortedTail(q[1..]);
      assert q[1..][0] == q[1];
      assert forall s :: s in q[1..] ==> s == q[1] || Before(q[1], s);
    }
  }

  lemma StoppedLater(q: seq<Seg>, d: Drained)
    requires |q| > 1 && Sorted(q) && q[0].end >= q[1].start && Stopped(q[1..], d)
    ensures Stopped(q, d)
  {
    var rest := q[1..];
    assert q == [q[0]] + rest && q[0] in q && rest[0] == q[1] && q[1] in q;
    forall x | q[0].start <= x < d.next
      ensures Covered(q, x)
    {
      if x >= q[0].end {
        assert Covered(rest, x);
        var s :| s in rest && s.start <= x < s.end;
        assert s in q;
      }
    }
  }

  /** Draining stops at the first byte that no queued segment covers, and keeps what lies beyond. */
  lemma {:induction false} DrainStops(q: seq<Seg>, flags: bv8)
    requires q != [] && Sorted(q)
    ensures Stopped(q, Drain(q, flags))
  {
    if |q| == 1 || q[0].end < q[1].start {
      StoppedAtGap(q, Drain(q, flags));
    } else {
      SortedTail(q);
      DrainStops(q[1..], flags | q[0].flags);
      StoppedLater(q, Drain(q, flags));
    }
  }

  /** The flags of a drain carry PUSH exactly when one of the segments it delivers does. */
  lemma {:induction false} DrainPush(q: seq<Seg>, flags: bv8)
    requires q != [] && Sorted(q)
    ensures var d := Drain(q, flags);
      d.flags & PUSH != 0 <==> flags & PUSH != 0 || exists s :: s in q && s.end <= d.next && s.flags & PUSH != 0
  {
    SortedTail(q);
    DrainStops(q, flags);
    var d := Drain(q, flags);
    assert q[0] in q && q == [q[0]] + q[1..];
    if |q| > 1 {
      assert q[1..][0] == q[1];
      if q[0].end >= q[1].start {
        DrainPush(q[1..], flags | q[0].flags);
      } else {
        assert forall s :: s in q[1..] ==> s in d.rest && s.end > s.start > d.next;
      }
    }
  }

  /** Some PUSH segment of q lies between two in-order points. */
  ghost predicate Pushes(q: seq<Seg>, from: int, to: int) {
    exists t :: t in q && from < t.end <= to && t.flags & PUSH != 0
  }

  lemma AddedPush(r: Receiver, s: Seg)
    requires Sorted(r.queue) && r.next <= s.start < s.end
    requires forall t :: t in r.queue ==> Compatible(s, t) && t.start > r.next
    ensures Added(r, s).flags & PUSH != 0 <==> Pushes(r.queue + [s], r.next, Added(r, s).next)
  {
    var q := Insert(r.queue, s);
    InsertSorted(r.queue, s);
    assert s in q && q[0] in q;
    assert forall t :: t in q <==> t in r.queue + [s];
    HeadIsFirst(q);
    if q[0].start <= r.next {
      DrainPush(q, 0);
    }
  }

  lemma UpcalledQueued(r: Receiver, s: Seg)
    requires r.next <= s.start < s.end && (s.start > r.next || r.queue != [])
    ensures Upcalled(r, s.start, s.end - s.start, s.flags) <==> Added(r, s).flags & PUSH != 0
  {
  }

  lemma UpcalledDirect(r: Receiver, s: Seg)
    requires r.next == s.start < s.end && r.queue == []
    ensures Upcalled(r, s.start, s.end - s.start, s.flags) <==> Pushes(r.queue + [s], r.next, Arrive(r, s).next)
  {
    assert s in r.queue + [s];
  }

  /** The application is called exactly when an arrival brings a PUSH segment in order. */
  lemma UpcallIff(r: Receiver, h: seq<Seg>, base: int, s: Seg)
    requires Segmented(h + [s], base) && Represents(r, h, base)
    ensures s.start < s.end
    ensures Upcalled(r, s.start, s.end - s.start, s.flags) <==> Pushes(r.queue + [s], r.next, Arrive(r, s).next)
  {
    assert s in h + [s];
    NoStraddle(r, h, base, s);
    if s.end <= r.next {
    } else if s.start == r.next && r.queue == [] {
      UpcalledDirect(r, s);
    } else {
      assert forall t :: t in r.queue ==> t in h + [s];
      ArriveQueued(r, s);
      UpcalledQueued(r, s);
      AddedPush(r, s);
    }
  }

  // ----- one arrival -----

  lemma CoveredMore(h: seq<Seg>, s: Seg, x: int)
    ensures Covered(h + [s], x) <==> Covered(h, x) || s.start <= x < s.end
  {
    if Covered(h, x) {
      var t :| t in h && t.start <= x < t.end;
      assert t in h + [s];
    }
    if s.start <= x < s.end {
      assert s in h + [s];
    }
  }

  lemma CompatibleWithNew(h: seq<Seg>, base: int, s: Seg, t: Seg)
    requires Segmented(h + [s], base) && t in h
    ensures Compatible(s, t)
  {
    assert t in h + [s] && s in h + [s];
  }

  /** The two ways into the queue. */
  lemma ArriveQueued(r: Receiver, s: Seg)
    requires r.next <= s.start < s.end && (s.start > r.next || r.queue != [])
    ensures Arrive(r, s) == Receiver(Added(r, s).next, Added(r, s).rest)
  {
  }

  lemma ArriveTrimmed(r: Receiver, s: Seg)
    requires s.start < r.next < s.end && r.queue != []
    ensures Arrive(r, s).next == Added(r, Seg(r.next, r.next + (s.end - s.start), s.flags)).next
  {
  }

  /** An arrival never straddles the in-order point. */
  lemma NoStraddle(r: Receiver, h: seq<Seg>, base: int, s: Seg)
    requires Segmented(h + [s], base) && Represents(r, h, base)
    ensures s.end <= r.next || s.start >= r.next
  {
    if s.start < r.next < s.end {
      assert Covered(h, r.next - 1);
      var t :| t in h && t.start <= r.next - 1 < t.end;
      CompatibleWithNew(h, base, s, t);
    }
  }

  lemma DuplicateKeeps(r: Receiver, h: seq<Seg>, base: int, s: Seg)
    requires Represents(r, h, base) && s.start < s.end <= r.next
    ensures Arrive(r, s) == r && Represents(r, h + [s], base)
  {
    forall x | base <= x <= r.next
      ensures Covered(h + [s], x) <==> x < r.next
    {
      CoveredMore(h, s, x);
      assert x < r.next ==> Covered(h, x);
    }
  }

  lemma DirectKeeps(r: Receiver, h: seq<Seg>, base: int, s: Seg)
    requires Segmented(h + [s], base) && Represents(r, h, base)
    requires s.start == r.next && r.queue == []
    ensures Arrive(r, s) == Receiver(s.end, []) && Represents(Receiver(s.end, []), h + [s], base)
  {
    assert s in h + [s];
    forall x | base <= x <= s.end
      ensures Covered(h + [s], x) <==> x < s.end
    {
      CoveredMore(h, s, x);
      assert x < r.next ==> Covered(h, x);
      assert forall t :: t in h ==> t !in r.queue;
    }
  }

  lemma QueuedKeeps(r: Receiver, h: seq<Seg>, base: int, s: Seg)
    requires Segmented(h + [s], base) && Represents(r, h, base) && s.start >= r.next
    ensures var d := Added(r, s); Represents(Receiver(d.next, d.rest), h + [s], base) && d.next >= r.next
  {
    var q, d := Insert(r.queue, s), Added(r, s);
    assert s in h + [s];
    assert forall t :: t in r.queue ==> t in h + [s];
    InsertSorted(r.queue, s);
    assert q[0] in q;
    HeadIsFirst(q);
    if q[0].start <= r.next {
      DrainStops(q, 0);
      assert q[0].start == r.next;
    } else {
      assert s in q && s.start > r.next;
    }
    forall x | base <= x <= d.next
      ensures Covered(h + [s], x) <==> x < d.next
    {
      CoveredMore(h, s, x);
      if x < r.next {
        assert Covered(h, x);
      } else if x < d.next {
        assert Covered(q, x);
        var t :| t in q && t.start <= x < t.end;
        assert t in h + [s];
      }
    }
  }

  /** An arrival of the same segmentation keeps the representation, and never moves the in-order point
      back. */
  lemma ArriveKeeps(r: Receiver, h: seq<Seg>, base: int, s: Seg)
    requires Segmented(h + [s], base) && Represents(r, h, base)
    ensures s.start < s.end && Represents(Arrive(r, s), h + [s], base) && Arrive(r, s).next >= r.next
  {
    assert s in h + [s];
    NoStraddle(r, h, base, s);
    if s.end <= r.next {
      DuplicateKeeps(r, h, base, s);
    } else if s.start == r.next && r.queue == [] {
      DirectKeeps(r, h, base, s);
    } else {
      ArriveQueued(r, s);
      QueuedKeeps(r, h, base, s);
    }
  }

  // ----- whole runs -----

  /** Whatever the order and the duplicates, the receiver represents the set of segments received. */
  lemma {:induction false} RunRepresents(base: int, h: seq<Seg>)
    requires Segmented(h, base)
    ensures Represents(Run(base, h), h, base)
  {
    if h != [] {
      var pre, s := h[..|h| - 1], h[|h| - 1];
      assert h == pre + [s];
      assert forall t :: t in pre ==> t in h;
      RunRepresents(base, pre);
      ArriveKeeps(Run(base, pre), pre, base, s);
    }
  }

  /** The in-order point never decreases along a run. */
  lemma {:induction false} NeverBack(base: int, h: seq<Seg>, more: seq<Seg>)
    requires Segmented(h + more, base)
    ensures (forall s :: s in h ==> s in h + more) && Run(base, h).next <= Run(base, h + more).next
    decreases |more|
  {
    assert forall s :: s in h ==> s in h + more;
    if more == [] {
      assert h + more == h;
    } else {
      var pre, s := h + more[..|more| - 1], more[|more| - 1];
      assert h + more == pre + [s];
      assert forall t :: t in pre ==> t in h + more;
      NeverBack(base, h, more[..|more| - 1]);
      RunRepresents(base, pre);
      ArriveKeeps(Run(base, pre), pre, base, s);
      assert (h + more)[..|h + more| - 1] == pre;
    }
  }

  /** Two runs that received the same segments, in whatever order and number, agree. */
  lemma OrderDoesNotMatter(base: int, h: seq<Seg>, h': seq<Seg>)
    requires Segmented(h, base) && Segmented(h', base)
    requires forall s :: s in h <==> s in h'
    ensures Run(base, h).next == Run(base, h').next
    ensures forall s :: s in Run(base, h).queue <==> s in Run(base, h').queue
  {
    RunRepresents(base, h);
    RunRepresents(base, h');
    var n, n' := Run(base, h).next, Run(base, h').next;
    assert forall x :: Covered(h, x) <==> Covered(h', x);
    assert n' < n ==> Covered(h, n');
    assert n < n' ==> Covered(h', n);
  }

  // ----- outside the segmentation -----

  /** A segment that partly repeats what was delivered. Its sequence number is trimmed but its end is
      computed from the untrimmed length, so the in-order point comes out right exactly when
      nothing is queued. */
  lemma PartialOverlapIff(r: Receiver, h: seq<Seg>, base: int, s: Seg)
    requires Segmented(h, base) && Represents(r, h, base)
    requires base <= s.start < r.next < s.end
    ensures UpTo(h + [s], base, Arrive(r, s).next) <==> r.queue == []
  {
    if r.queue == [] {
      OverlapDirect(r, h, base, s);
    } else {
      OverlapQueued(r, h, base, s);
    }
  }

  /** The failing case is reached: bytes 0 to 9 and 20 to 29 have arrived when 5 to 14 do, and the in-order point
      comes out wrong. */
  lemma PartialOverlapFails()
    ensures Segmented([Seg(0, 10, 0), Seg(20, 30, 0)], 0)
    ensures var h, s := [Seg(0, 10, 0), Seg(20, 30, 0)], Seg(5, 15, 0);
      && s.start < Run(0, h).next == 10 < s.end
      && !UpTo(h + [s], 0, Arrive(Run(0, h), s).next)
  {
    var a, b := Seg(0, 10, 0), Seg(20, 30, 0);
    var h := [a, b];
    assert h[0] == a && h[1] == b;
    RunRepresents(0, h);
    GapAtTen(Run(0, h), h, a, b);
    PartialOverlapIff(Run(0, h), h, 0, Seg(5, 15, 0));
  }

  lemma GapAtTen(r: Receiver, h: seq<Seg>, a: Seg, b: Seg)
    requires h == [a, b] && a == Seg(0, 10, 0) && b == Seg(20, 30, 0) && Represents(r, h, 0)
    ensures r.next == 10 && r.queue != []
  {
    assert a in h && b in h && !Covered(h, 10);
    assert r.next < 10 ==> Covered(h, r.next);
    assert b in r.queue;
  }

  lemma OverlapDirect(r: Receiver, h: seq<Seg>, base: int, s: Seg)
    requires Represents(r, h, base) && s.start < r.next < s.end && r.queue == []
    ensures Arrive(r, s).next == s.end && UpTo(h + [s], base, s.end)
  {
    forall x | base <= x <= s.end
      ensures Covered(h + [s], x) <==> x < s.end
    {
      CoveredMore(h, s, x);
      assert x < r.next ==> Covered(h, x);
      assert forall t :: t in h ==> t !in r.queue;
    }
  }

  lemma OverlapQueued(r: Receiver, h: seq<Seg>, base: int, s: Seg)
    requires Represents(r, h, base) && s.start < r.next < s.end && r.queue != []
    ensures !UpTo(h + [s], base, Arrive(r, s).next)
  {
    var t := Seg(r.next, r.next + (s.end - s.start), s.flags);
    ArriveTrimmed(r, s);
    assert r.queue[0] in r.queue;
    if r.queue[0].start >= t.end {
      OvershootsEmptyGap(r, h, s, t);
      CoveredMore(h, s, s.end);
    } else {
      PassesHead(r, t);
      CoveredMore(h, s, r.next);
    }
  }

  lemma PassesHead(r: Receiver, t: Seg)
    requires Sorted(r.queue) && r.queue != [] && t.start == r.next < r.queue[0].start < t.end
    ensures Added(r, t).next == r.next
  {
    var q := r.queue;
    assert q[|q| - 1] in q;
    assert |q| > 1 ==> Before(q[0], q[|q| - 1]);
    assert Insert(q, t)[0] == q[0];
  }

  lemma OvershootsEmptyGap(r: Receiver, h: seq<Seg>, s: Seg, t: Seg)
    requires Sorted(r.queue) && r.queue != [] && s.start < r.next < s.end && r.queue[0].start > r.next
    requires forall u :: u in h ==> u.end <= r.next || u in r.queue
    requires t == Seg(r.next, r.next + (s.end - s.start), s.flags) && r.queue[0].start >= t.end
    ensures !Covered(h, s.end) && Added(r, t).next > s.end
  {
    var q := r.queue;
    assert q[0] in q && q[|q| - 1] in q;
    HeadIsFirst(q);
    InsertSorted(q, t);
    assert Insert(q, t) == [t] + q;
    DrainStops(Insert(q, t), 0);
  }
}
