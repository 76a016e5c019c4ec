/** Every handler is a NodeStep. */
module AodvStepProofs {
  import opened Numbers
  import opened AodvTypes
  import opened AodvHandlers
  import opened AodvSteps

  lemma KeptIsStep(n: Node, n': Node, inbox: Inbox, out: seq<Msg>)
    requires RoutesKept(n, n') && Sound(n')
    requires forall m :: m in out ==> MaySend(n, n', m, inbox)
    ensures NodeStep(n, n', inbox, out)
  {
    forall d
      ensures RouteStep(n, n', d, inbox)
    {
      assert Kept(Lookup(n, d), Lookup(n', d));
    }
  }

  /** Changes outside the routes before a step do not matter. */
  lemma KeptThenStep(n: Node, n1: Node, n2: Node, inbox: Inbox, out: seq<Msg>)
    requires RoutesKept(n, n1) && NodeStep(n1, n2, inbox, out)
    ensures NodeStep(n, n2, inbox, out)
  {
    forall d
      ensures RouteStep(n, n2, d, inbox)
    {
      assert Kept(Lookup(n, d), Lookup(n1, d));
      assert RouteStep(n1, n2, d, inbox);
      var e, e1, e2 := Lookup(n, d), Lookup(n1, d), Lookup(n2, d);
      if c :| InboxOffers(inbox, c) && c.dst == d && Accepted(e1, e2, c) {
        assert Accepted(e, e2, c);
      }
    }
    forall o | o in out
      ensures MaySend(n, n2, o, inbox)
    {
      assert MaySend(n1, n2, o, inbox);
    }
  }

  /** A step that forwards only data, followed by one that keeps every route. */
  lemma StepThenKept(n: Node, n1: Node, n2: Node, inbox: Inbox, data: seq<Msg>, out: seq<Msg>)
    requires NodeStep(n, n1, inbox, data) && forall o :: o in data ==> o.Data?
    requires n2.id == n1.id && n2.seqno >= n1.seqno && Sound(n2)
    requires forall d :: Kept(Lookup(n1, d), Lookup(n2, d))
    requires forall o :: o in out ==> MaySend(n1, n2, o, inbox)
    ensures NodeStep(n, n2, inbox, data + out)
  {
    forall d
      ensures RouteStep(n, n2, d, inbox)
    {
      assert RouteStep(n, n1, d, inbox);
      assert Kept(Lookup(n1, d), Lookup(n2, d));
      var e, e1, e2 := Lookup(n, d), Lookup(n1, d), Lookup(n2, d);
      if c :| InboxOffers(inbox, c) && c.dst == d && Accepted(e, e1, c) {
        assert Accepted(e, e2, c);
      }
    }
    forall o | o in data + out
      ensures MaySend(n, n2, o, inbox)
    {
      if o in data {
        assert Kept(Lookup(n1, o.packet.dst), Lookup(n2, o.packet.dst));
      }
    }
  }

  lemma SendRequestStep(n: Node, d: Addr, env: Env)
    requires Sound(n) && d in n.table
    ensures var (n1, out) := SendRequest(n, d, env);
            && NodeStep(n, n1, Nothing, out) && n1.list == n.list && n1.table.Keys == n.table.Keys
            && (forall x :: x != d ==> Lookup(n1, x) == Lookup(n, x)) && Kept(Lookup(n, d), Lookup(n1, d))
            && (forall m :: m in out ==> m.Rreq? && m.src == n.id && m.dst == d)
  {
    var (n1, out) := SendRequest(n, d, env);
    forall x
      ensures RouteStep(n, n1, x, Nothing)
    {
      assert Kept(Lookup(n, x), Lookup(n1, x));
    }
  }

  // ----- requests -----

  /** A node that accepts an offer and delivers what waited for the route. */
  lemma AcceptThenDeliver(n: Node, d: Addr, e: Entry, m: Msg, c: Claim, now: real)
    requires Sound(n) && d in n.table && SoundEntry(e)
    requires InboxOffers(Got(m), c) && c.dst == d && Accepted(n.table[d], e, c)
    ensures var (n1, data) := Deliver(SetEntry(n, d, e), d, now);
            && NodeStep(n, n1, Got(m), data) && (forall o :: o in data ==> o.Data?)
            && n1.seqno == n.seqno && d in n1.table && Kept(e, n1.table[d])
  {
    var n0 := SetEntry(n, d, e);
    SetEntrySound(n, d, e);
    DeliverStep(n0, d, now);
    var (n1, data) := Deliver(n0, d, now);
    forall x
      ensures RouteStep(n, n1, x, Got(m))
    {
      assert Kept(Lookup(n0, x), Lookup(n1, x));
      if x == d {
        assert Accepted(Lookup(n, d), Lookup(n1, d), c);
      }
    }
    forall o | o in data
      ensures MaySend(n, n1, o, Got(m))
    {
      assert MaySend(n0, n1, o, Nothing);
    }
  }

  lemma ReverseRouteStep(n: Node, m: Msg, now: real)
    requires Sound(n) && m.Rreq? && Wholesome(m) && m.src != n.id
    ensures var (n1, out) := ReverseRoute(n, m, now);
            && NodeStep(n, n1, Got(m), out) && n1.seqno == n.seqno && m.src in n1.table
            && AtLeast(n1.table[m.src].seqno, n1.table[m.src].hops, m.srcSeqno, m.hops)
            && (forall o :: o in out ==> o.Data?)
  {
    var n0 := RtAdd(n, m.src);
    RtAddSound(n, m.src);
    var c := Claim(m.src, m.srcSeqno, m.hops, m.from);
    assert Offers(m, c) && InboxOffers(Got(m), c);
    var e := n0.table[m.src].(expire := MaxReal(Lookup(n0, m.src).expire, now + REV_ROUTE_LIFE));
    if Fresher(e, m.srcSeqno, m.hops) {
      var e1 := RtUpdate(e, m.srcSeqno, m.hops, m.from, MaxReal(e.expire, now + REV_ROUTE_LIFE));
      var e2 := if e1.reqTimeout > 0.0
                then e1.(reqCnt := 0, reqTimeout := 0.0, reqLastTtl := m.hops, expire := now + ACTIVE_ROUTE_TIMEOUT)
                else e1;
      AcceptThenDeliver(n0, m.src, e2, m, c, now);
      var (n1, out) := Deliver(SetEntry(n0, m.src, e2), m.src, now);
      KeptThenStep(n, n0, n1, Got(m), out);
    } else {
      var n1 := SetEntry(n0, m.src, e);
      forall d
        ensures Kept(Lookup(n, d), Lookup(n1, d))
      {
        assert Kept(Lookup(n, d), Lookup(n0, d));
      }
      KeptIsStep(n, n1, Got(m), []);
    }
  }

  /** Answering or relaying changes no route. */
  lemma AnswerRequestStep(n: Node, m: Msg, env: Env)
    requires Sound(n) && m.Rreq? && Wholesome(m) && m.src != n.id && m.src in n.table
    requires AtLeast(n.table[m.src].seqno, n.table[m.src].hops, m.srcSeqno, m.hops)
    ensures var (n1, out) := AnswerRequest(n, m, env);
            && n1.id == n.id && n1.seqno >= n.seqno && Sound(n1)
            && (forall d :: Kept(Lookup(n, d), Lookup(n1, d)))
            && (forall o :: o in out ==> MaySend(n, n1, o, Got(m)))
  {
  }

  /** The two halves, one after the other. */
  lemma HalvesStep(n: Node, m: Msg, env: Env, n1: Node, data: seq<Msg>, n2: Node, out: seq<Msg>)
    requires Sound(n) && m.Rreq? && Wholesome(m) && m.src != n.id
    requires (n1, data) == ReverseRoute(n, m, env.now) && (n2, out) == AnswerRequest(n1, m, env)
    ensures NodeStep(n, n2, Got(m), data + out)
  {
    ReverseRouteStep(n, m, env.now);
    AnswerRequestStep(n1, m, env);
    StepThenKept(n, n1, n2, Got(m), data, out);
  }

  lemma NewRequestStep(n: Node, m: Msg, env: Env, seen: map<(Addr, nat), real>)
    requires Sound(n) && m.Rreq? && Wholesome(m) && m.src != n.id
    ensures var (n2, data) := ReverseRoute(n.(seen := seen), m, env.now); var (n3, out) := AnswerRequest(n2, m, env);
            NodeStep(n, n3, Got(m), data + out)
  {
    var n1 := n.(seen := seen);
    var (n2, data) := ReverseRoute(n1, m, env.now);
    var (n3, out) := AnswerRequest(n2, m, env);
    HalvesStep(n1, m, env, n2, data, n3, out);
    KeptThenStep(n, n1, n3, Got(m), data + out);
  }

  lemma RecvRequestStep(n: Node, m: Msg, env: Env)
    requires Sound(n) && m.Rreq? && Wholesome(m)
    ensures NodeStep(n, RecvRequest(n, m, env).0, Got(m), RecvRequest(n, m, env).1)
  {
    if m.src == n.id || (m.src, m.bcastId) in n.seen {
      KeptIsStep(n, n, Got(m), []);
    } else {
      NewRequestStep(n, m, env, n.seen[(m.src, m.bcastId) := env.now + BCAST_ID_SAVE]);
    }
  }

  // ----- replies -----

  lemma RelayReplyStep(n: Node, m: Msg, now: real)
    requires Sound(n) && m.Rrep? && Wholesome(m) && m.dst in n.table
    requires var e := n.table[m.dst]; e.flag.Up? && e.seqno == m.dstSeqno && e.hops == m.hops
    ensures var (n1, out) := RelayReply(n, m, now);
            && RoutesKept(n, n1) && Sound(n1) && (forall o :: o in out ==> MaySend(n, n1, o, Got(m)))
  {
  }

  lemma ForwardRouteStep(n: Node, m: Msg, now: real)
    requires Sound(n) && m.Rrep? && Wholesome(m) && m.dst in n.table
    requires Fresher(n.table[m.dst], m.dstSeqno, m.hops)
    ensures var (n1, data) := ForwardRoute(n, m, now);
            && NodeStep(n, n1, Got(m), data) && (forall o :: o in data ==> o.Data?)
            && m.dst in n1.table
            && n1.table[m.dst].flag.Up? && n1.table[m.dst].seqno == m.dstSeqno && n1.table[m.dst].hops == m.hops
  {
    var c := Claim(m.dst, m.dstSeqno, m.hops, m.from);
    assert Offers(m, c) && InboxOffers(Got(m), c);
    var e := RtUpdate(Lookup(n, m.dst), m.dstSeqno, m.hops, m.from, now + m.lifetime as real)
               .(reqCnt := 0, reqTimeout := 0.0, reqLastTtl := m.hops);
    AcceptThenDeliver(n, m.dst, e, m, c, now);
  }

  lemma RecvReplyStep(n: Node, m: Msg, now: real)
    requires Sound(n) && m.Rrep? && Wholesome(m)
    ensures NodeStep(n, RecvReply(n, m, now).0, Got(m), RecvReply(n, m, now).1)
  {
    var n0 := RtAdd(n, m.dst);
    RtAddSound(n, m.dst);
    if Fresher(Lookup(n0, m.dst), m.dstSeqno, m.hops) {
      ForwardRouteStep(n0, m, now);
      var (n1, data) := ForwardRoute(n0, m, now);
      KeptThenStep(n, n0, n1, Got(m), data);
      RelayReplyStep(n1, m, now);
      var (n2, out) := RelayReply(n1, m, now);
      StepThenKept(n, n1, n2, Got(m), data, out);
    } else {
      KeptIsStep(n, n0, Got(m), []);
    }
  }

  // ----- errors -----

  ghost predicate TakenDownAmong(e: Entry, e': Entry, d: Addr, dead: seq<Unreachable>) {
    && e.hops != INFINITY2 && e'.flag.Down? && e'.hops == INFINITY2 && e'.seqno > e.seqno
    && Unreachable(d, e'.seqno) in dead
  }

  /** A route is kept, or it had a finite hop count and is down with a larger odd number among `dead`. */
  ghost predicate Dropped(n: Node, n': Node, d: Addr, dead: seq<Unreachable>) {
    var e, e' := Lookup(n, d), Lookup(n', d);
    Kept(e, e') || TakenDownAmong(e, e', d, dead)
  }

  lemma DownRoutesStep(n: Node, from: Addr, dead: seq<Unreachable>)
    requires Sound(n) && forall u :: u in dead ==> OddOrZero(u.seqno)
    ensures var (n1, more) := DownRoutes(n, from, dead);
            && n1.id == n.id && n1.seqno == n.seqno && Sound(n1) && (forall d :: Dropped(n, n1, d, dead))
            && (forall u :: u in more ==> Lookup(n1, u.dst).flag.Down? && Lookup(n1, u.dst).seqno == u.seqno)
    decreases |dead|
  {
    if dead != [] {
      var d, s := dead[0].dst, dead[0].seqno;
      if d in n.table && Invalidates(n.table[d], from, s) {
        var e := RtDown(n.table[d].(seqno := s));
        var n0 := SetEntry(n, d, e.(precursors := {}));
        assert s > n.table[d].seqno;
        SetEntrySound(n, d, e.(precursors := {}));
        DownRoutesStep(n0, from, dead[1..]);
        var (n1, more) := DownRoutes(n0, from, dead[1..]);
        assert dead[0] in dead && Unreachable(d, s) == dead[0];
        forall x
          ensures Dropped(n, n1, x, dead)
        {
          assert Dropped(n0, n1, x, dead[1..]);
        }
        assert Dropped(n0, n1, d, dead[1..]);
      } else {
        DownRoutesStep(n, from, dead[1..]);
        var (n1, more) := DownRoutes(n, from, dead[1..]);
        forall x
          ensures Dropped(n, n1, x, dead)
        {
          assert Dropped(n, n1, x, dead[1..]);
        }
      }
    }
  }

  lemma RecvErrorStep(n: Node, m: Msg)
    requires Sound(n) && m.Rerr? && Wholesome(m)
    ensures NodeStep(n, RecvError(n, m).0, Got(m), RecvError(n, m).1)
  {
    DownRoutesStep(n, m.from, m.unreachable);
    var (n1, dead) := DownRoutes(n, m.from, m.unreachable);
    forall d
      ensures RouteStep(n, n1, d, Got(m))
    {
      assert Dropped(n, n1, d, m.unreachable);
    }
  }

  ghost predicate KeptOrDown(n: Node, n': Node, d: Addr) {
    Kept(Lookup(n, d), Lookup(n', d)) || TakenDown(Lookup(n, d), Lookup(n', d), d, Nothing)
  }

  lemma KeptOrDownThen(n: Node, n1: Node, n2: Node, d: Addr)
    requires KeptOrDown(n, n1, d) && KeptOrDown(n1, n2, d)
    ensures KeptOrDown(n, n2, d)
  {
  }

  lemma FailOneStep(n: Node, nbr: Addr, d: Addr)
    requires Sound(n) && d in n.table
    ensures var e := Lookup(n, d); var n0 := SetEntry(n, d, FailedEntry(e, nbr));
            && Sound(n0) && (forall x :: KeptOrDown(n, n0, x))
            && (RoutedOver(e, nbr) ==> Lookup(n0, d).flag.Down? && Lookup(n0, d).hops == INFINITY2)
  {
    SetEntrySound(n, d, FailedEntry(Lookup(n, d), nbr));
  }

  /** A route that is down is not taken down again. */
  lemma StaysDown(n: Node, n': Node, d: Addr, s: nat)
    requires KeptOrDown(n, n', d) && Lookup(n, d).flag.Down? && Lookup(n, d).hops == INFINITY2
    requires Lookup(n, d).seqno == s
    ensures Lookup(n', d).flag.Down? && Lookup(n', d).seqno == s
  {
  }

  /** Every destination listed is down, with the number listed. */
  ghost predicate ListedDown(n: Node, dead: seq<Unreachable>) {
    forall u :: u in dead ==> Lookup(n, u.dst).flag.Down? && Lookup(n, u.dst).seqno == u.seqno
  }

  /** The entry of d first, which is listed if it went down, and then the rest. */
  lemma FailedInTurn(n: Node, n0: Node, n1: Node, d: Addr, head: seq<Unreachable>, more: seq<Unreachable>)
    requires (forall x :: KeptOrDown(n, n0, x)) && (forall x :: KeptOrDown(n0, n1, x)) && ListedDown(n1, more)
    requires head != [] ==>
      && head == [Unreachable(d, Lookup(n0, d).seqno)]
      && Lookup(n0, d).flag.Down? && Lookup(n0, d).hops == INFINITY2
    ensures (forall x :: KeptOrDown(n, n1, x)) && ListedDown(n1, head + more)
  {
    forall x
      ensures KeptOrDown(n, n1, x)
    {
      KeptOrDownThen(n, n0, n1, x);
    }
    if head != [] {
      StaysDown(n0, n1, d, Lookup(n0, d).seqno);
    }
  }

  lemma FailRoutesStep(n: Node, nbr: Addr, todo: seq<Addr>)
    requires Sound(n) && forall k :: 0 <= k < |todo| ==> todo[k] in n.table
    ensures var (n1, dead) := FailRoutes(n, nbr, todo);
            && n1.id == n.id && n1.seqno == n.seqno && Sound(n1)
            && (forall d :: KeptOrDown(n, n1, d))
            && ListedDown(n1, dead)
    decreases |todo|
  {
    if todo != [] {
      var d := todo[0];
      var e, f := Lookup(n, d), FailedEntry(Lookup(n, d), nbr);
      var n0 := SetEntry(n, d, f);
      FailOneStep(n, nbr, d);
      FailRoutesStep(n0, nbr, todo[1..]);
      var (n1, more) := FailRoutes(n0, nbr, todo[1..]);
      FailedInTurn(n, n0, n1, d, if RoutedOver(e, nbr) then [Unreachable(d, f.seqno)] else [], more);
    }
  }

  lemma NbDeleteStep(n: Node, nbr: Addr)
    requires Sound(n)
    ensures NodeStep(n, NbDelete(n, nbr).0, Nothing, NbDelete(n, nbr).1)
  {
    var n0 := n.(seqno := n.seqno + 2);
    FailRoutesStep(n0, nbr, n.list);
    var n1 := FailRoutes(n0, nbr, n.list).0;
    forall d
      ensures RouteStep(n, n1, d, Nothing)
    {
      assert KeptOrDown(n0, n1, d);
    }
  }

  // ----- timers and data -----

  lemma PurgeEntryStep(n: Node, d: Addr, env: Env)
    requires Sound(n) && d in n.table
    ensures var (n1, out) := PurgeEntry(n, d, env);
            && NodeStep(n, n1, Nothing, out) && n1.list == n.list && n1.table.Keys == n.table.Keys
            && (forall x :: x != d ==> Lookup(n1, x) == Lookup(n, x))
            && (forall o :: o in out ==> (o.Data? && o.packet.dst == d) || (o.Rreq? && o.src == n.id && o.dst == d))
  {
    var e := Lookup(n, d);
    var (n1, out) := PurgeEntry(n, d, env);
    if e.flag.Up? && e.expire < env.now {
      assert TakenDown(e, Lookup(n1, d), d, Nothing);
      forall x
        ensures RouteStep(n, n1, x, Nothing)
      {
        assert x != d ==> Kept(Lookup(n, x), Lookup(n1, x));
      }
    } else if e.flag.Up? {
      DeliverStep(n, d, env.now);
      ForwardedAlong(Live(n.queue, env.now), d, e.nextHop);
      KeptIsStep(n, n1, Nothing, out);
    } else if For(n.queue, d) != [] {
      SendRequestStep(n, d, env);
    } else {
      KeptIsStep(n, n, Nothing, []);
    }
  }

  lemma PurgeRoutesStep(n: Node, todo: seq<Addr>, env: Env)
    requires Sound(n) && (forall k :: 0 <= k < |todo| ==> todo[k] in n.table)
    requires forall j, k :: 0 <= j < k < |todo| ==> todo[j] != todo[k]
    ensures var (n1, out) := PurgeRoutes(n, todo, env);
            && NodeStep(n, n1, Nothing, out) && n1.table.Keys == n.table.Keys
            && (forall x :: x !in todo ==> Lookup(n1, x) == Lookup(n, x))
            && (forall o :: o in out ==>
                  (o.Data? && o.packet.dst in todo) || (o.Rreq? && o.src == n.id && o.dst in todo))
    decreases |todo|
  {
    if todo == [] {
      KeptIsStep(n, n, Nothing, []);
    } else {
      var d, rest := todo[0], todo[1..];
      PurgeEntryStep(n, d, env);
      var (n1, out) := PurgeEntry(n, d, env);
      PurgeRoutesStep(n1, rest, env);
      var (n2, more) := PurgeRoutes(n1, rest, env);
      assert d !in rest;
      forall x
        ensures RouteStep(n, n2, x, Nothing)
      {
        assert RouteStep(n, n1, x, Nothing) && RouteStep(n1, n2, x, Nothing);
        if x in rest {
          assert Lookup(n1, x) == Lookup(n, x);
        } else {
          assert Lookup(n2, x) == Lookup(n1, x);
        }
      }
      forall o | o in out + more
        ensures MaySend(n, n2, o, Nothing)
      {
        if o in out {
          assert MaySend(n, n1, o, Nothing);
          assert Lookup(n2, d) == Lookup(n1, d);
        } else {
          assert MaySend(n1, n2, o, Nothing);
        }
      }
    }
  }

  lemma RtPurgeStep(n: Node, env: Env)
    requires Sound(n)
    ensures NodeStep(n, RtPurge(n, env).0, Nothing, RtPurge(n, env).1)
  {
    PurgeRoutesStep(n, n.list, env);
  }

  lemma RtResolveStep(n: Node, p: Packet, env: Env)
    requires Sound(n)
    ensures NodeStep(n, RtResolve(n, p, env).0, Nothing, RtResolve(n, p, env).1)
  {
    RtAddSound(n, p.dst);
    var n0 := RtAdd(n, p.dst);
    var e := Lookup(n0, p.dst);
    var (n1, out) := RtResolve(n, p, env);
    if !e.flag.Up? && p.src == n.id {
      var n2 := n0.(queue := Enqueued(n0.queue, p, env.now));
      SendRequestStep(n2, p.dst, env);
      forall d
        ensures RouteStep(n, n1, d, Nothing)
      {
        assert Kept(Lookup(n, d), Lookup(n0, d));
        assert Kept(Lookup(n2, d), Lookup(n1, d));
      }
      forall o | o in out
        ensures MaySend(n, n1, o, Nothing)
      {
        assert MaySend(n2, n1, o, Nothing);
      }
    } else {
      forall d
        ensures Kept(Lookup(n, d), Lookup(n1, d))
      {
        assert Kept(Lookup(n, d), Lookup(n0, d));
      }
      KeptIsStep(n, n1, Nothing, out);
    }
  }

  // ----- without local repair -----

  /** No step marks a route as under repair. */
  lemma StaysLocal(n: Node, n': Node, inbox: Inbox, out: seq<Msg>)
    requires Local(n) && NodeStep(n, n', inbox, out)
    ensures Local(n')
  {
    forall d | d in n'.table
      ensures GoodEntry(n'.table[d])
    {
      assert RouteStep(n, n', d, inbox);
    }
  }

  lemma RtAddLocal(n: Node, d: Addr)
    requires Local(n)
    ensures Local(RtAdd(n, d)) && RoutesKept(n, RtAdd(n, d)) && d in RtAdd(n, d).table
  {
    RtAddSound(n, d);
  }
}
