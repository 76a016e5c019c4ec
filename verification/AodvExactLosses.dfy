/** Which routes the handlers take down, exactly: on a route error, a lost link and an expiry; and what becomes of the
    packets that wait. */
module AodvExactLosses {
  import opened Numbers
  import opened AodvTypes
  import opened AodvHandlers
  import opened AodvSteps
  import opened AodvStepProofs
  import opened AodvSendBuffer
  import opened AodvExactRequests

  /** The route goes down with number s; its length is remembered for the next search. */
  predicate Lost(e: Entry, e': Entry, s: nat) {
    && e'.flag.Down? && e'.hops == INFINITY2 && e'.seqno == s && e'.nextHop == 0 && e'.expire == 0.0
    && e'.lastHops == e.hops && SearchKept(e, e')
  }

  /** A route that is down has no finite hop count. */
  ghost predicate DownIsFar(n: Node) {
    forall d :: d in n.table && n.table[d].flag.Down? ==> n.table[d].hops == INFINITY2
  }

  /** Nothing but routes has changed. */
  predicate OnlyRoutes(n: Node, n': Node) {
    n' == n.(table := n'.table) && n'.table.Keys == n.table.Keys
  }

  /** A route error among what was sent says that d is lost, with number s. */
  ghost predicate Reports(out: seq<Msg>, d: Addr, s: nat) {
    exists m :: m in out && m.Rerr? && Unreachable(d, s) in m.unreachable
  }

  // ----- route errors -----

  /** The first report for d with a number of at least s, |dead| if there is none. */
  function Reporting(dead: seq<Unreachable>, d: Addr, s: nat): (k: nat)
    ensures k <= |dead| && (k < |dead| ==> dead[k].dst == d && dead[k].seqno >= s)
    ensures forall j :: 0 <= j < k ==> dead[j].dst != d || dead[j].seqno < s
  {
    if dead == [] || (dead[0].dst == d && dead[0].seqno >= s) then 0 else 1 + Reporting(dead[1..], d, s)
  }

  /** What a report from `from` does to the entry of d, with `more` what is passed on. */
  ghost predicate ErrorDone(e: Entry, e': Entry, from: Addr, dead: seq<Unreachable>, d: Addr, more: seq<Unreachable>) {
    var k := Reporting(dead, d, e.seqno);
    if RoutedOver(e, from) && k < |dead| then
      && Lost(e, e', dead[k].seqno) && e'.precursors == {}
      && forall s :: Unreachable(d, s) in more <==> s == dead[k].seqno && e.precursors != {}
    else e' == e && forall s :: Unreachable(d, s) !in more
  }

  /** A route that is down cannot be reported lost again. */
  lemma {:induction false} DownStays(n: Node, from: Addr, dead: seq<Unreachable>, d: Addr)
    requires Lookup(n, d).hops == INFINITY2
    ensures var (n', more) := DownRoutes(n, from, dead);
      Lookup(n', d) == Lookup(n, d) && forall s :: Unreachable(d, s) !in more
    decreases |dead|
  {
    if dead != [] {
      var x, s := dead[0].dst, dead[0].seqno;
      if x in n.table && Invalidates(n.table[x], from, s) {
        DownStays(SetEntry(n, x, RtDown(n.table[x].(seqno := s)).(precursors := {})), from, dead[1..], d);
      } else {
        DownStays(n, from, dead[1..], d);
      }
    }
  }

  lemma {:induction false} DownRoutesIsExact(n: Node, from: Addr, dead: seq<Unreachable>, d: Addr)
    requires DownIsFar(n)
    ensures var (n', more) := DownRoutes(n, from, dead);
      OnlyRoutes(n, n') && ErrorDone(Lookup(n, d), Lookup(n', d), from, dead, d, more)
    decreases |dead|
  {
    if dead != [] {
      var x, s, rest := dead[0].dst, dead[0].seqno, dead[1..];
      if x in n.table && Invalidates(n.table[x], from, s) {
        var f := RtDown(n.table[x].(seqno := s)).(precursors := {});
        var n0 := SetEntry(n, x, f);
        if x == d {
          DownStays(n0, from, rest, d);
          StaysSame(n0, from, rest);
        } else {
          DownRoutesIsExact(n0, from, rest, d);
        }
      } else {
        DownRoutesIsExact(n, from, rest, d);
      }
    }
  }

  lemma {:induction false} StaysSame(n: Node, from: Addr, dead: seq<Unreachable>)
    ensures OnlyRoutes(n, DownRoutes(n, from, dead).0)
    decreases |dead|
  {
    if dead != [] {
      var x, s := dead[0].dst, dead[0].seqno;
      if x in n.table && Invalidates(n.table[x], from, s) {
        StaysSame(SetEntry(n, x, RtDown(n.table[x].(seqno := s)).(precursors := {})), from, dead[1..]);
      } else {
        StaysSame(n, from, dead[1..]);
      }
    }
  }

  /** On a route error from its next hop a route goes down exactly if a reported number for it is at least its own, and
      then with the first such number; it is passed on exactly if somebody upstream uses it. Every other
      route stays. */
  lemma ErrorIsExact(n: Node, m: Msg, d: Addr)
    requires Sound(n) && m.Rerr?
    ensures var (n', out) := RecvError(n, m);
      var e, e', k := Lookup(n, d), Lookup(n', d), Reporting(m.unreachable, d, Lookup(n, d).seqno);
      && OnlyRoutes(n, n') && |out| <= 1 && (forall o :: o in out ==> o.Rerr? && o.from == n.id && o.unreachable != [])
      && (if RoutedOver(e, m.from) && k < |m.unreachable| then
            && Lost(e, e', m.unreachable[k].seqno) && e'.precursors == {}
            && forall s :: Reports(out, d, s) <==> s == m.unreachable[k].seqno && e.precursors != {}
          else e' == e && forall s :: !Reports(out, d, s))
  {
    DownRoutesIsExact(n, m.from, m.unreachable, d);
    ErrorReports(n, DownRoutes(n, m.from, m.unreachable).1, d);
  }

  lemma ErrorReports(n: Node, dead: seq<Unreachable>, d: Addr)
    ensures forall s :: Reports(SendError(n, dead), d, s) <==> Unreachable(d, s) in dead
  {
    var out := SendError(n, dead);
    if dead != [] {
      assert out[0] in out;
    }
  }

  // ----- lost links -----

  /** What losing the link to nbr does to the entry of d, with `dead` what is reported. */
  ghost predicate FailureDone(e: Entry, e': Entry, nbr: Addr, d: Addr, listed: bool, dead: seq<Unreachable>) {
    && (if listed then e'.precursors == e.precursors - {nbr} else e' == e)
    && (if listed && RoutedOver(e, nbr) then
          && Lost(e, e', e.seqno + 1)
          && forall s :: Unreachable(d, s) in dead <==> s == e.seqno + 1
        else Kept(e, e') && e'.expire == e.expire && forall s :: Unreachable(d, s) !in dead)
  }

  lemma {:induction false} FailRoutesIsExact(n: Node, nbr: Addr, todo: seq<Addr>, d: Addr)
    requires DownIsFar(n) && forall k :: 0 <= k < |todo| ==> todo[k] in n.table
    requires forall j, k :: 0 <= j < k < |todo| ==> todo[j] != todo[k]
    ensures var (n', dead) := FailRoutes(n, nbr, todo);
      OnlyRoutes(n, n') && FailureDone(Lookup(n, d), Lookup(n', d), nbr, d, d in todo, dead)
    decreases |todo|
  {
    if todo != [] {
      var x, rest := todo[0], todo[1..];
      var f := FailedEntry(Lookup(n, x), nbr);
      assert x !in rest;
      FailRoutesIsExact(SetEntry(n, x, f), nbr, rest, d);
    }
  }

  /** A lost link takes down exactly the routes over it, each with the next number, and reports exactly those; the
      neighbour is dropped from every precursor list, and the own number rises by 2. */
  lemma LinkLossIsExact(n: Node, nbr: Addr, d: Addr)
    requires Sound(n)
    ensures var (n', out) := NbDelete(n, nbr); var e, e' := Lookup(n, d), Lookup(n', d);
      && OnlyRoutes(n.(seqno := n.seqno + 2), n') && |out| <= 1
      && (forall o :: o in out ==> o.Rerr? && o.from == n.id && o.unreachable != [])
      && (d in n.table ==> e'.precursors == e.precursors - {nbr})
      && (if RoutedOver(e, nbr) then Lost(e, e', e.seqno + 1) && forall s :: Reports(out, d, s) <==> s == e.seqno + 1
          else Kept(e, e') && e'.expire == e.expire && forall s :: !Reports(out, d, s))
  {
    var n0 := n.(seqno := n.seqno + 2);
    FailRoutesIsExact(n0, nbr, n.list, d);
    ErrorReports(n0, FailRoutes(n0, nbr, n.list).1, d);
  }

  // ----- expiry -----

  /** The data packets for d among those sent, in order. */
  function DataTo(out: seq<Msg>, d: Addr): seq<Msg> {
    if out == [] then []
    else (if out[0].Data? && out[0].packet.dst == d then [out[0]] else []) + DataTo(out[1..], d)
  }

  /** The requests for d among those sent, in order. */
  function RequestsFor(out: seq<Msg>, d: Addr): seq<Msg> {
    if out == [] then [] else (if out[0].Rreq? && out[0].dst == d then [out[0]] else []) + RequestsFor(out[1..], d)
  }

  lemma {:induction false} ToConcat(a: seq<Msg>, b: seq<Msg>, d: Addr)
    ensures DataTo(a + b, d) == DataTo(a, d) + DataTo(b, d)
  {
    if a == [] {
      assert a + b == b;
    } else {
      assert (a + b)[1..] == a[1..] + b;
      ToConcat(a[1..], b, d);
    }
  }

  lemma {:induction false} ForConcat(a: seq<Msg>, b: seq<Msg>, d: Addr)
    ensures RequestsFor(a + b, d) == RequestsFor(a, d) + RequestsFor(b, d)
  {
    if a == [] {
      assert a + b == b;
    } else {
      assert (a + b)[1..] == a[1..] + b;
      ForConcat(a[1..], b, d);
    }
  }

  lemma {:induction false} NothingTo(out: seq<Msg>, d: Addr)
    requires forall m :: m in out ==> !(m.Data? && m.packet.dst == d) && !(m.Rreq? && m.dst == d)
    ensures DataTo(out, d) == [] && RequestsFor(out, d) == []
  {
    if out != [] {
      NothingTo(out[1..], d);
    }
  }

  /** What waits for d and has not aged. */
  function Waits(q: seq<Buffered>, d: Addr, now: real): seq<Buffered> {
    For(Live(q, now), d)
  }

  /** Taking out what waits for x leaves what waits for others, and nothing for x. */
  lemma {:induction false} WaitsAfter(q: seq<Buffered>, x: Addr, d: Addr, now: real)
    ensures Waits(NotFor(Live(q, now), x), d, now) == if d == x then [] else Waits(q, d, now)
    ensures For(q, d) == [] || d == x ==> For(NotFor(Live(q, now), x), d) == []
  {
    if q != [] {
      var rest := Live(q[1..], now);
      var kept := NotFor(rest, x);
      WaitsAfter(q[1..], x, d, now);
      if q[0].deadline < now {
        assert Live(q, now) == [] + rest == rest;
        assert For(q, d) == [] ==> For(q[1..], d) == [];
      } else {
        assert Live(q, now) == [q[0]] + rest && ([q[0]] + rest)[1..] == rest;
        WaitsHead(q[0], rest, x, d, now);
        assert For(q, d) == [] ==> For(q[1..], d) == [];
      }
    }
  }

  lemma WaitsHead(b: Buffered, rest: seq<Buffered>, x: Addr, d: Addr, now: real)
    requires b.deadline >= now
    ensures For([b] + rest, d) == (if b.packet.dst == d then [b] else []) + For(rest, d)
    ensures var kept := NotFor(rest, x);
      && NotFor([b] + rest, x) == (if b.packet.dst == x then [] else [b]) + kept
      && Waits(NotFor([b] + rest, x), d, now)
         == (if b.packet.dst == d != x then [b] else []) + Waits(kept, d, now)
      && For(NotFor([b] + rest, x), d) == (if b.packet.dst == d != x then [b] else []) + For(kept, d)
  {
    var kept := NotFor(rest, x);
    assert ([b] + rest)[1..] == rest;
    if b.packet.dst == x {
      assert NotFor([b] + rest, x) == [] + kept == kept;
    } else {
      assert NotFor([b] + rest, x) == [b] + kept && ([b] + kept)[1..] == kept;
      assert Live([b] + kept, now) == [b] + Live(kept, now) && ([b] + Live(kept, now))[1..] == Live(kept, now);
    }
  }

  /** A step that has nothing to do with d. */
  ghost predicate LeavesAlone(n: Node, n': Node, d: Addr, now: real, out: seq<Msg>) {
    && n'.id == n.id && n'.seqno >= n.seqno && n'.bid >= n.bid && n'.list == n.list
    && Lookup(n', d) == Lookup(n, d) && Waits(n'.queue, d, now) == Waits(n.queue, d, now)
    && (For(n.queue, d) == [] ==> For(n'.queue, d) == [])
    && DataTo(out, d) == [] && RequestsFor(out, d) == []
  }

  lemma PurgeOther(n: Node, x: Addr, d: Addr, env: Env)
    requires Sound(n) && x in n.table && x != d
    ensures LeavesAlone(n, PurgeEntry(n, x, env).0, d, env.now, PurgeEntry(n, x, env).1)
  {
    PurgeEntryStep(n, x, env);
    WaitsAfter(n.queue, x, d, env.now);
    NothingTo(PurgeEntry(n, x, env).1, d);
  }

  lemma {:induction false} PurgeOthers(n: Node, todo: seq<Addr>, d: Addr, env: Env)
    requires Sound(n) && (forall k :: 0 <= k < |todo| ==> todo[k] in n.table) && d !in todo
    ensures LeavesAlone(n, PurgeRoutes(n, todo, env).0, d, env.now, PurgeRoutes(n, todo, env).1)
    decreases |todo|
  {
    if todo != [] {
      var (n1, out) := PurgeEntry(n, todo[0], env);
      PurgeEntryStep(n, todo[0], env);
      PurgeOther(n, todo[0], d, env);
      PurgeOthers(n1, todo[1..], d, env);
      ToConcat(out, PurgeRoutes(n1, todo[1..], env).1, d);
      ForConcat(out, PurgeRoutes(n1, todo[1..], env).1, d);
    }
  }

  /** A purge asks for d once, with numbers of its own. */
  ghost predicate AskedInPurge(n: Node, n': Node, d: Addr, requests: seq<Msg>) {
    var e, e' := Lookup(n, d), Lookup(n', d);
    && |requests| == 1
    && (match requests[0]
        case Rreq(from, src, srcSeqno, dst, dstSeqno, bcastId, hops, ttl) =>
          && from == src == n.id && dst == d && dstSeqno == e.seqno && hops == 1 && ttl == e'.reqLastTtl
          && n.seqno < srcSeqno <= n'.seqno && n.bid <= bcastId < n'.bid
        case _ => false)
    && Kept(e, e') && e'.precursors == e.precursors && e'.lastHops == e.lastHops
  }

  /** What a purge does to the route to d and to what waits for it. */
  ghost predicate PurgeDone(n: Node, n': Node, d: Addr, env: Env, out: seq<Msg>) {
    var e, e', waits, waits' := Lookup(n, d), Lookup(n', d), Waits(n.queue, d, env.now), Waits(n'.queue, d, env.now);
    var data, requests := DataTo(out, d), RequestsFor(out, d);
    if e.flag.Up? && e.expire < env.now then
      Lost(e, e', e.seqno + 1) && e'.precursors == e.precursors && waits' == [] && data == [] && requests == []
    else if e.flag.Up? then
      && data == (if d == n.id then [] else Forwarded(waits, e.nextHop)) && waits' == [] && requests == []
      && e' == if data == [] then e else e.(expire := env.now + ACTIVE_ROUTE_TIMEOUT)
    else
      && data == []
      && (!Due(e, env.now) || For(n.queue, d) == [] ==> e' == e && requests == [] && waits' == waits)
      && (Due(e, env.now) && waits != [] && Exhausted(e) ==>
            && e' == e.(reqTimeout := env.now + MAX_RREQ_TIMEOUT, reqCnt := 0) && requests == [] && waits' == [])
      && (Due(e, env.now) && waits != [] && !Exhausted(e) ==> AskedInPurge(n, n', d, requests) && waits' == waits)
  }

  lemma {:induction false} ForwardedTo(q: seq<Buffered>, d: Addr, nextHop: Addr)
    requires forall b :: b in q ==> b.packet.dst == d
    ensures DataTo(Forwarded(q, nextHop), d) == Forwarded(q, nextHop) && RequestsFor(Forwarded(q, nextHop), d) == []
  {
    if q != [] {
      ForwardedTo(q[1..], d, nextHop);
      var rest := Forwarded(q[1..], nextHop);
      assert q[0] in q && forall b :: b in q[1..] ==> b in q;
      if q[0].packet.ttl == 0 {
        assert Forwarded(q, nextHop) == [] + rest == rest;
      } else {
        assert Forwarded(q, nextHop) == [Data(q[0].packet, nextHop)] + rest;
        assert Forwarded(q, nextHop)[1..] == rest;
      }
    }
  }

  lemma WaitsForwarded(q: seq<Buffered>, d: Addr, now: real, nextHop: Addr)
    ensures var data := Forwarded(Waits(q, d, now), nextHop); DataTo(data, d) == data && RequestsFor(data, d) == []
  {
    Members(Live(q, now), d, now);
    ForwardedTo(Waits(q, d, now), d, nextHop);
  }

  lemma LiveDelivered(n: Node, d: Addr, env: Env)
    requires Lookup(n, d).flag.Up? && Lookup(n, d).expire >= env.now && d in n.table
    ensures PurgeDone(n, PurgeEntry(n, d, env).0, d, env, PurgeEntry(n, d, env).1)
  {
    WaitsAfter(n.queue, d, d, env.now);
    WaitsForwarded(n.queue, d, env.now, Lookup(n, d).nextHop);
  }

  lemma ExpiredDropped(n: Node, d: Addr, env: Env)
    requires Lookup(n, d).flag.Up? && Lookup(n, d).expire < env.now && d in n.table
    ensures PurgeDone(n, PurgeEntry(n, d, env).0, d, env, PurgeEntry(n, d, env).1)
  {
    WaitsAfter(n.queue, d, d, env.now);
  }

  lemma DownAsks(n: Node, d: Addr, env: Env)
    requires !Lookup(n, d).flag.Up? && d in n.table
    ensures PurgeDone(n, PurgeEntry(n, d, env).0, d, env, PurgeEntry(n, d, env).1)
  {
    if For(n.queue, d) != [] {
      WaitsAfter(n.queue, d, d, env.now);
      RequestIsSentIff(n, d, env);
      var (n', out) := SendRequest(n, d, env);
      if Due(Lookup(n, d), env.now) && !Exhausted(Lookup(n, d)) {
        assert out[1..] == [] && RequestsFor(out[1..], d) == [] && DataTo(out[1..], d) == [];
        assert RequestsFor(out, d) == [out[0]] + [];
      }
    } else {
      NoneWaits(n.queue, d, env.now);
    }
  }

  lemma {:induction false} NoneWaits(q: seq<Buffered>, d: Addr, now: real)
    requires For(q, d) == []
    ensures Waits(q, d, now) == []
  {
    if q != [] {
      NoneWaits(q[1..], d, now);
      var rest := Live(q[1..], now);
      assert [] + rest == rest && ([q[0]] + rest)[1..] == rest;
    }
  }

  lemma PurgeEntryIsExact(n: Node, d: Addr, env: Env)
    requires d in n.table
    ensures PurgeDone(n, PurgeEntry(n, d, env).0, d, env, PurgeEntry(n, d, env).1)
  {
    if !Lookup(n, d).flag.Up? {
      DownAsks(n, d, env);
    } else if Lookup(n, d).expire < env.now {
      ExpiredDropped(n, d, env);
    } else {
      LiveDelivered(n, d, env);
    }
  }

  lemma DoneThenAlone(n: Node, n1: Node, n2: Node, d: Addr, env: Env, out: seq<Msg>, more: seq<Msg>)
    requires PurgeDone(n, n1, d, env, out) && LeavesAlone(n1, n2, d, env.now, more)
    ensures PurgeDone(n, n2, d, env, out + more)
  {
    ToConcat(out, more, d);
    ForConcat(out, more, d);
    assert DataTo(out, d) + [] == DataTo(out, d) && RequestsFor(out, d) + [] == RequestsFor(out, d);
  }

  lemma AloneThenDone(n: Node, n1: Node, n2: Node, d: Addr, env: Env, out: seq<Msg>, more: seq<Msg>)
    requires LeavesAlone(n, n1, d, env.now, out) && PurgeDone(n1, n2, d, env, more)
    ensures PurgeDone(n, n2, d, env, out + more)
  {
    ToConcat(out, more, d);
    ForConcat(out, more, d);
  }

  lemma {:induction false} PurgeRoutesIsExact(n: Node, todo: seq<Addr>, d: Addr, env: Env)
    requires Sound(n) && (forall k :: 0 <= k < |todo| ==> todo[k] in n.table) && d in todo
    requires forall j, k :: 0 <= j < k < |todo| ==> todo[j] != todo[k]
    ensures PurgeDone(n, PurgeRoutes(n, todo, env).0, d, env, PurgeRoutes(n, todo, env).1)
    decreases |todo|
  {
    var x, rest := todo[0], todo[1..];
    var (n1, out) := PurgeEntry(n, x, env);
    var (n2, more) := PurgeRoutes(n1, rest, env);
    PurgeEntryStep(n, x, env);
    if x == d {
      PurgeEntryIsExact(n, d, env);
      PurgeOthers(n1, rest, d, env);
      DoneThenAlone(n, n1, n2, d, env, out, more);
    } else {
      PurgeOther(n, x, d, env);
      PurgeRoutesIsExact(n1, rest, d, env);
      AloneThenDone(n, n1, n2, d, env, out, more);
    }
  }

  /** The purge timer, for every destination in the table: a route goes down, with the next number, exactly if it is up
      and has expired, and what waits for it is dropped; an up route that has not expired stays, and what
      waits for it, unless aged or out of TTL, leaves along it; any other route stays, and while a packet
      waits for it a request goes out as soon as one is due, until the search is given up. */
  lemma PurgeIsExact(n: Node, env: Env, d: Addr)
    requires Sound(n) && d in n.table
    ensures PurgeDone(n, RtPurge(n, env).0, d, env, RtPurge(n, env).1)
  {
    PurgeRoutesIsExact(n, n.list, d, env);
  }

  /** Packets for a destination that is not in the table are not touched. */
  lemma PurgeLeavesOthers(n: Node, env: Env, d: Addr)
    requires Sound(n) && d !in n.table
    ensures LeavesAlone(n, RtPurge(n, env).0, d, env.now, RtPurge(n, env).1)
  {
    PurgeOthers(n, n.list, d, env);
  }

  /** In particular a purge takes a route down if and only if it was up and had expired. */
  lemma ExpiryIff(n: Node, env: Env, d: Addr)
    requires Sound(n)
    ensures var e, e' := Lookup(n, d), Lookup(RtPurge(n, env).0, d);
      && (e.flag.Up? && !e'.flag.Up? <==> e.flag.Up? && e.expire < env.now)
      && (!e.flag.Up? ==> !e'.flag.Up?) && (e.flag.Up? && e.expire >= env.now ==> Kept(e, e'))
      && (e.flag.Up? && e.expire < env.now ==> e'.seqno == e.seqno + 1)
  {
    if d in n.table {
      PurgeIsExact(n, env, d);
      if !Lookup(n, d).flag.Up? {
        NotUpStays(n, env, d);
      }
    } else {
      PurgeLeavesOthers(n, env, d);
    }
  }

  lemma NotUpStays(n: Node, env: Env, d: Addr)
    requires Sound(n) && !Lookup(n, d).flag.Up?
    ensures !Lookup(RtPurge(n, env).0, d).flag.Up?
  {
    RtPurgeStep(n, env);
    assert RouteStep(n, RtPurge(n, env).0, d, Nothing);
  }

  // ----- the other timers -----

  /** The id timer forgets exactly the broadcast ids whose time has come, and touches nothing else. */
  lemma IdForgottenIff(n: Node, now: real, src: Addr, id: nat)
    ensures var n', k := IdPurge(n, now), (src, id);
      && (k in n'.seen <==> k in n.seen && n.seen[k] > now) && (k in n'.seen ==> n'.seen[k] == n.seen[k])
      && n' == n.(seen := n'.seen)
  {
  }

  /** A neighbour found, like one lost, makes the own number the next even one, so that the routes others have are
      older than it. */
  lemma NeighborRaisesNumber(n: Node)
    requires n.seqno % 2 == 0
    ensures var n' := NbInsert(n);
      n'.seqno % 2 == 0 && n.seqno < n'.seqno <= n.seqno + 2 && n' == n.(seqno := n'.seqno)
  {
  }
}
