/** Route discovery is bounded: how many requests an agent sends for a destination before it gives
    up and drops the packets that wait for it. */
module AodvDiscovery {
  import opened Numbers
  import opened AodvTypes
  import opened AodvHandlers
  import opened AodvSteps
  import opened AodvStepProofs
  import opened AodvNetwork

  /** The TTL the next request grows from. */
  function LastTtl(e: Entry): nat {
    Max(e.reqLastTtl, e.lastHops)
  }

  /** How many requests with a limited TTL are still to come. */
  function LimitedLeft(e: Entry): nat {
    var last := LastTtl(e);
    if last == 0 then 2
    else if last < TTL_THRESHOLD then (TTL_THRESHOLD + 1 - last) / 2
    else 0
  }

  function WideLeft(e: Entry): nat {
    if e.reqCnt <= RREQ_RETRIES then RREQ_RETRIES + 1 - e.reqCnt else 0
  }

  /** The TTLs of the requests of node `id` for `d` among the packets sent. */
  function Asks(out: seq<Msg>, id: Addr, d: Addr): seq<int> {
    if out == [] then []
    else (if out[0].Rreq? && out[0].src == id && out[0].dst == d then [out[0].ttl] else []) + Asks(out[1..], id, d)
  }

  function Limited(ttls: seq<int>): nat {
    if ttls == [] then 0 else (if ttls[0] < NETWORK_DIAMETER then 1 else 0) + Limited(ttls[1..])
  }

  function Wide(ttls: seq<int>): nat {
    if ttls == [] then 0 else (if ttls[0] < NETWORK_DIAMETER then 0 else 1) + Wide(ttls[1..])
  }

  predicate Searching(n: Node, d: Addr) {
    d in n.table && n.table[d].flag.Down?
  }

  predicate SameDiscovery(e: Entry, e': Entry) {
    e'.reqCnt == e.reqCnt && e'.reqLastTtl == e.reqLastTtl && e'.lastHops == e.lastHops
  }

  /** One request: it uses up a limited one if any is left, else a network-wide one. */
  ghost predicate AskedOnce(e: Entry, e': Entry, ttls: seq<int>) {
    && |ttls| == 1 && 1 <= ttls[0] <= NETWORK_DIAMETER
    && (if LimitedLeft(e) > 0
        then ttls[0] < NETWORK_DIAMETER && LimitedLeft(e') == LimitedLeft(e) - 1 && e'.reqCnt == e.reqCnt
        else ttls[0] == NETWORK_DIAMETER && LimitedLeft(e') == 0 && e'.reqCnt == e.reqCnt + 1)
    && e.reqCnt <= RREQ_RETRIES
  }

  ghost predicate GaveUpOn(n: Node, n': Node, d: Addr)
    requires d in n.table && d in n'.table
  {
    n.table[d].reqCnt > RREQ_RETRIES && n'.table[d].reqCnt == 0 && For(n'.queue, d) == []
  }

  /** What a step does to a search that it leaves unfinished. */
  ghost predicate SearchStep(n: Node, n': Node, d: Addr, out: seq<Msg>)
    requires d in n.table && d in n'.table
  {
    var ttls := Asks(out, n.id, d);
    (SameDiscovery(n.table[d], n'.table[d]) && ttls == []) || (GaveUpOn(n, n', d) && ttls == [])
    || AskedOnce(n.table[d], n'.table[d], ttls)
  }

  /** If the route to d is down before and after, the step is a SearchStep. */
  ghost predicate Searches(n: Node, n': Node, d: Addr, out: seq<Msg>) {
    n'.id == n.id && (Searching(n, d) ==> d in n'.table && (Searching(n', d) ==> SearchStep(n, n', d, out)))
  }

  // ----- sequences -----

  lemma {:induction false} AsksConcat(a: seq<Msg>, b: seq<Msg>, id: Addr, d: Addr)
    ensures Asks(a + b, id, d) == Asks(a, id, d) + Asks(b, id, d)
  {
    if a == [] {
      assert a + b == b;
    } else {
      assert (a + b)[1..] == a[1..] + b;
      AsksConcat(a[1..], b, id, d);
    }
  }

  lemma {:induction false} NoAsks(out: seq<Msg>, id: Addr, d: Addr)
    requires forall m :: m in out ==> !(m.Rreq? && m.src == id && m.dst == d)
    ensures Asks(out, id, d) == []
  {
    if out != [] {
      NoAsks(out[1..], id, d);
    }
  }

  lemma HeadIsMember(q: seq<Buffered>)
    ensures q == [] || q[0] in q
  {
  }

  lemma NoneLeft(q: seq<Buffered>, x: Addr, d: Addr, now: real)
    ensures For(NotFor(Live(q, now), d), d) == []
    ensures For(q, d) == [] ==> For(NotFor(Live(q, now), x), d) == []
  {
    var live := Live(q, now);
    Members(q, d, now);
    Members(live, d, now);
    Members(live, x, now);
    Members(NotFor(live, d), d, now);
    Members(NotFor(live, x), d, now);
    var here, there := For(NotFor(live, d), d), For(NotFor(live, x), d);
    HeadIsMember(here);
    HeadIsMember(there);
  }

  lemma {:induction false} TalliesConcat(a: seq<int>, b: seq<int>)
    ensures Limited(a + b) == Limited(a) + Limited(b) && Wide(a + b) == Wide(a) + Wide(b)
  {
    if a == [] {
      assert a + b == b;
    } else {
      assert (a + b)[1..] == a[1..] + b;
      TalliesConcat(a[1..], b);
    }
  }

  // ----- the request itself -----

  lemma SendRequestSearches(n: Node, d: Addr, x: Addr, env: Env)
    requires Sound(n) && x in n.table
    ensures var (n', out) := SendRequest(n, x, env);
            Searches(n, n', d, out) && (d != x && For(n.queue, d) == [] ==> For(n'.queue, d) == [])
  {
    SendRequestStep(n, x, env);
    NoneLeft(n.queue, x, d, env.now);
    var (n', out) := SendRequest(n, x, env);
    if x != d {
      NoAsks(out, n.id, d);
    } else if d in n.table && n.table[d].flag.Down? {
      match TryRequest(n.table[d], env.now, PerHopTime(env, d))
      case Refused =>
      case GaveUp(_) =>
      case Query(e1, ttl) =>
        assert Asks(out[1..], n.id, d) == [];
        assert Asks(out, n.id, d) == [ttl];
        assert AskedOnce(n.table[d], e1, [ttl]);
    }
  }

  // ----- every handler -----

  /** The entry keeps its discovery state unless its route comes up. */
  ghost predicate Untouched(n: Node, n': Node, d: Addr) {
    n'.id == n.id &&
    (d in n.table ==> d in n'.table && (n'.table[d].flag.Up? || SameDiscovery(n.table[d], n'.table[d])))
  }

  lemma Unconcerned(n: Node, n': Node, d: Addr, out: seq<Msg>)
    requires Untouched(n, n', d) && forall m :: m in out ==> !(m.Rreq? && m.src == n.id && m.dst == d)
    ensures Searches(n, n', d, out)
  {
    NoAsks(out, n.id, d);
  }

  lemma ReverseRouteUntouched(n: Node, m: Msg, d: Addr, now: real)
    requires m.Rreq?
    ensures Untouched(n, ReverseRoute(n, m, now).0, d) && m.src in ReverseRoute(n, m, now).0.table
    ensures forall o :: o in ReverseRoute(n, m, now).1 ==> o.Data?
  {
    ForwardedAlong(Live(n.queue, now), m.src, m.from);
  }

  lemma AnswerUntouched(n: Node, m: Msg, d: Addr, env: Env)
    requires m.Rreq? && m.src in n.table
    ensures Untouched(n, AnswerRequest(n, m, env).0, d)
    ensures d in n.table ==> AnswerRequest(n, m, env).0.table[d].flag == n.table[d].flag
    ensures forall o :: o in AnswerRequest(n, m, env).1 ==> o.Rreq? ==> o.src == m.src
  {
  }

  lemma UntouchedThen(n: Node, n1: Node, n2: Node, d: Addr)
    requires Untouched(n, n1, d) && Untouched(n1, n2, d)
    requires d in n1.table ==> n2.table[d].flag == n1.table[d].flag
    ensures Untouched(n, n2, d)
  {
  }

  lemma FreshRequestSearches(n: Node, m: Msg, d: Addr, env: Env)
    requires m.Rreq? && m.src != n.id
    ensures var (n2, data) := ReverseRoute(n, m, env.now);
            var (n3, out) := AnswerRequest(n2, m, env);
            Searches(n, n3, d, data + out)
  {
    ReverseRouteUntouched(n, m, d, env.now);
    var (n2, data) := ReverseRoute(n, m, env.now);
    AnswerUntouched(n2, m, d, env);
    var (n3, out) := AnswerRequest(n2, m, env);
    assert Untouched(n, n3, d) by {
      UntouchedThen(n, n2, n3, d);
    }
    Unconcerned(n, n3, d, data + out);
  }

  lemma RecvRequestSearches(n: Node, m: Msg, d: Addr, env: Env)
    requires m.Rreq?
    ensures Searches(n, RecvRequest(n, m, env).0, d, RecvRequest(n, m, env).1)
  {
    if m.src == n.id || (m.src, m.bcastId) in n.seen {
      Unconcerned(n, n, d, []);
    } else {
      FreshRequestSearches(n.(seen := n.seen[(m.src, m.bcastId) := env.now + BCAST_ID_SAVE]), m, d, env);
    }
  }

  lemma ForwardRouteUntouched(n: Node, m: Msg, d: Addr, now: real)
    requires m.Rrep? && m.dst in n.table
    ensures Untouched(n, ForwardRoute(n, m, now).0, d) && m.dst in ForwardRoute(n, m, now).0.table
    ensures forall o :: o in ForwardRoute(n, m, now).1 ==> o.Data?
  {
    ForwardedAlong(Live(n.queue, now), m.dst, m.from);
  }

  lemma RelayUntouched(n: Node, m: Msg, d: Addr, now: real)
    requires m.Rrep? && m.dst in n.table
    ensures Untouched(n, RelayReply(n, m, now).0, d)
    ensures d in n.table ==> RelayReply(n, m, now).0.table[d].flag == n.table[d].flag
  {
  }

  lemma RecvReplySearches(n: Node, m: Msg, d: Addr, now: real)
    requires Sound(n) && m.Rrep? && Wholesome(m)
    ensures Searches(n, RecvReply(n, m, now).0, d, RecvReply(n, m, now).1)
  {
    var (n', out) := RecvReply(n, m, now);
    var n0 := RtAdd(n, m.dst);
    if Fresher(Lookup(n0, m.dst), m.dstSeqno, m.hops) {
      ForwardRouteUntouched(n0, m, d, now);
      RelayUntouched(ForwardRoute(n0, m, now).0, m, d, now);
    }
    Unconcerned(n, n', d, out);
  }

  /** An entry whose route is down is passed over by the loop of recvError. */
  lemma {:induction false} DownRoutesUntouched(n: Node, from: Addr, dead: seq<Unreachable>, d: Addr)
    requires Searching(n, d) ==> n.table[d].hops == INFINITY2
    ensures DownRoutes(n, from, dead).0.id == n.id
    ensures d in n.table ==> d in DownRoutes(n, from, dead).0.table
    ensures Searching(n, d) ==> DownRoutes(n, from, dead).0.table[d] == n.table[d]
    decreases |dead|
  {
    if dead != [] {
      var x, s := dead[0].dst, dead[0].seqno;
      if x in n.table && Invalidates(n.table[x], from, s) {
        var e := RtDown(n.table[x].(seqno := s)).(precursors := {});
        assert n.table[x].flag.Down? ==> x != d;
        DownRoutesUntouched(SetEntry(n, x, e), from, dead[1..], d);
      } else {
        DownRoutesUntouched(n, from, dead[1..], d);
      }
    }
  }

  lemma RecvErrorSearches(n: Node, m: Msg, d: Addr)
    requires Sound(n) && m.Rerr?
    ensures Searches(n, RecvError(n, m).0, d, RecvError(n, m).1)
  {
    DownRoutesUntouched(n, m.from, m.unreachable, d);
    NoAsks(RecvError(n, m).1, n.id, d);
  }

  lemma {:induction false} FailRoutesUntouched(n: Node, nbr: Addr, todo: seq<Addr>, d: Addr)
    requires Searching(n, d) ==> n.table[d].hops == INFINITY2
    ensures FailRoutes(n, nbr, todo).0.id == n.id
    ensures d in n.table ==> d in FailRoutes(n, nbr, todo).0.table
    ensures Searching(n, d) ==> SameDiscovery(n.table[d], FailRoutes(n, nbr, todo).0.table[d])
    decreases |todo|
  {
    if todo != [] {
      var x := todo[0];
      FailRoutesUntouched(SetEntry(n, x, FailedEntry(Lookup(n, x), nbr)), nbr, todo[1..], d);
    }
  }

  lemma NbDeleteSearches(n: Node, nbr: Addr, d: Addr)
    requires Sound(n)
    ensures Searches(n, NbDelete(n, nbr).0, d, NbDelete(n, nbr).1)
  {
    FailRoutesUntouched(n.(seqno := n.seqno + 2), nbr, n.list, d);
    NoAsks(NbDelete(n, nbr).1, n.id, d);
  }

  /** A step that has nothing to do with d. */
  ghost predicate PassesOver(n: Node, n': Node, d: Addr, out: seq<Msg>) {
    && n'.id == n.id && (d in n.table <==> d in n'.table)
    && Asks(out, n.id, d) == [] && Lookup(n', d) == Lookup(n, d)
    && (For(n.queue, d) == [] ==> For(n'.queue, d) == [])
  }

  lemma SearchesThenPasses(n: Node, n1: Node, n2: Node, d: Addr, out: seq<Msg>, more: seq<Msg>)
    requires Searches(n, n1, d, out) && PassesOver(n1, n2, d, more)
    ensures Searches(n, n2, d, out + more)
  {
    AsksConcat(out, more, n.id, d);
  }

  lemma PassesThenSearches(n: Node, n1: Node, n2: Node, d: Addr, out: seq<Msg>, more: seq<Msg>)
    requires PassesOver(n, n1, d, out) && Searches(n1, n2, d, more)
    ensures Searches(n, n2, d, out + more)
  {
    AsksConcat(out, more, n.id, d);
  }

  lemma PurgeEntrySearches(n: Node, d: Addr, env: Env)
    requires Sound(n) && d in n.table
    ensures Searches(n, PurgeEntry(n, d, env).0, d, PurgeEntry(n, d, env).1)
  {
    if !n.table[d].flag.Up? && For(n.queue, d) != [] {
      SendRequestSearches(n, d, d, env);
    }
  }

  lemma PurgeEntryPasses(n: Node, x: Addr, d: Addr, env: Env)
    requires Sound(n) && x in n.table && d != x
    ensures PassesOver(n, PurgeEntry(n, x, env).0, d, PurgeEntry(n, x, env).1)
  {
    PurgeEntryStep(n, x, env);
    NoneLeft(n.queue, x, d, env.now);
    NoAsks(PurgeEntry(n, x, env).1, n.id, d);
  }

  lemma {:induction false} PurgeRoutesPass(n: Node, todo: seq<Addr>, d: Addr, env: Env)
    requires Sound(n) && (forall k :: 0 <= k < |todo| ==> todo[k] in n.table) && d !in todo
    ensures PassesOver(n, PurgeRoutes(n, todo, env).0, d, PurgeRoutes(n, todo, env).1)
    decreases |todo|
  {
    if todo != [] {
      var (n1, out) := PurgeEntry(n, todo[0], env);
      PurgeEntryStep(n, todo[0], env);
      PurgeEntryPasses(n, todo[0], d, env);
      PurgeRoutesPass(n1, todo[1..], d, env);
      AsksConcat(out, PurgeRoutes(n1, todo[1..], env).1, n.id, d);
    }
  }

  lemma {:induction false} PurgeRoutesSearches(n: Node, todo: seq<Addr>, d: Addr, env: Env)
    requires Sound(n) && (forall k :: 0 <= k < |todo| ==> todo[k] in n.table)
    requires forall j, k :: 0 <= j < k < |todo| ==> todo[j] != todo[k]
    ensures Searches(n, PurgeRoutes(n, todo, env).0, d, PurgeRoutes(n, todo, env).1)
    decreases |todo|
  {
    if todo != [] {
      var x, rest := todo[0], todo[1..];
      var (n1, out) := PurgeEntry(n, x, env);
      var (n2, more) := PurgeRoutes(n1, rest, env);
      PurgeEntryStep(n, x, env);
      if x == d {
        PurgeEntrySearches(n, d, env);
        PurgeRoutesPass(n1, rest, d, env);
        SearchesThenPasses(n, n1, n2, d, out, more);
      } else {
        PurgeEntryPasses(n, x, d, env);
        PurgeRoutesSearches(n1, rest, d, env);
        PassesThenSearches(n, n1, n2, d, out, more);
      }
    }
  }

  lemma RtResolveSearches(n: Node, p: Packet, d: Addr, env: Env)
    requires Sound(n)
    ensures Searches(n, RtResolve(n, p, env).0, d, RtResolve(n, p, env).1)
  {
    var n0 := RtAdd(n, p.dst);
    RtAddSound(n, p.dst);
    var e := Lookup(n0, p.dst);
    var (n', out) := RtResolve(n, p, env);
    if !e.flag.Up? && p.src == n.id {
      SendRequestSearches(n0.(queue := Enqueued(n0.queue, p, env.now)), d, p.dst, env);
    } else {
      NoAsks(out, n.id, d);
    }
  }

  // ----- a whole search -----

  /** An event at one node, with what the node reads from its surroundings. */
  datatype Call = Call(ev: Event, env: Env)

  ghost predicate Acceptable(c: Call) {
    c.ev.Receive? ==> Wholesome(c.ev.msg)
  }

  lemma HandleSearches(n: Node, c: Call, d: Addr)
    requires Sound(n) && Acceptable(c)
    ensures Searches(n, Handle(n, c.ev, c.env).0, d, Handle(n, c.ev, c.env).1)
  {
    match c.ev
    case Receive(m) =>
      if m.Rreq? {
        RecvRequestSearches(n, m, d, c.env);
      } else if m.Rrep? {
        RecvReplySearches(n, m, d, c.env.now);
      } else if m.Rerr? {
        RecvErrorSearches(n, m, d);
      } else if m.packet.src != n.id && m.packet.ttl - 1 != 0 {
        RtResolveSearches(n, m.packet.(ttl := m.packet.ttl - 1), d, c.env);
      }
    case Send(uid, dst) => RtResolveSearches(n, Packet(uid, n.id, dst, NETWORK_DIAMETER), d, c.env);
    case PurgeTimer => PurgeRoutesSearches(n, n.list, d, c.env);
    case IdTimer =>
    case LinkLost(nbr) => NbDeleteSearches(n, nbr, d);
    case NeighborFound =>
  }

  lemma HandleSound(n: Node, c: Call)
    requires Sound(n) && Acceptable(c)
    ensures Sound(Handle(n, c.ev, c.env).0)
  {
    match c.ev
    case Receive(m) =>
      if m.Rreq? {
        RecvRequestStep(n, m, c.env);
      } else if m.Rrep? {
        RecvReplyStep(n, m, c.env.now);
      } else if m.Rerr? {
        RecvErrorStep(n, m);
      } else {
        RtResolveStep(n, m.packet.(ttl := m.packet.ttl - 1), c.env);
      }
    case Send(uid, dst) => RtResolveStep(n, Packet(uid, n.id, dst, NETWORK_DIAMETER), c.env);
    case PurgeTimer => RtPurgeStep(n, c.env);
    case IdTimer =>
    case LinkLost(nbr) => NbDeleteStep(n, nbr);
    case NeighborFound =>
  }

  function After(n: Node, calls: seq<Call>): Node
    decreases |calls|
  {
    if calls == [] then n else After(Handle(n, calls[0].ev, calls[0].env).0, calls[1..])
  }

  /** The TTLs of all requests for d that the node originates over these calls. */
  function AllAsks(n: Node, calls: seq<Call>, d: Addr): seq<int>
    decreases |calls|
  {
    if calls == [] then []
    else
      var (n', out) := Handle(n, calls[0].ev, calls[0].env);
      Asks(out, n.id, d) + AllAsks(n', calls[1..], d)
  }

  /** Throughout these calls no route to d comes up and the agent does not give up on d. */
  ghost predicate KeepsSearching(n: Node, calls: seq<Call>, d: Addr)
    decreases |calls|
  {
    && Searching(n, d)
    && (calls != [] ==>
          && Acceptable(calls[0])
          && var n' := Handle(n, calls[0].ev, calls[0].env).0;
             KeepsSearching(n', calls[1..], d) && !GaveUpOn(n, n', d))
  }

  /** One call: the requests it sends are what the entry's discovery state loses. */
  lemma OneCallCounted(n: Node, n': Node, d: Addr, out: seq<Msg>)
    requires Searching(n, d) && Searching(n', d) && Searches(n, n', d, out) && !GaveUpOn(n, n', d)
    ensures var e, e', ttls := n.table[d], n'.table[d], Asks(out, n.id, d);
            && Limited(ttls) + LimitedLeft(e') == LimitedLeft(e)
            && Wide(ttls) + e.reqCnt == e'.reqCnt
            && forall t :: t in ttls ==> 1 <= t <= NETWORK_DIAMETER
  {
    var ttls := Asks(out, n.id, d);
    if ttls != [] {
      assert ttls == [ttls[0]];
      assert ttls[1..] == [];
    }
  }

  /** Over any calls at all, the limited and the network-wide requests are what the entry had left. */
  lemma {:induction false} AsksAreCounted(n: Node, calls: seq<Call>, d: Addr)
    requires Sound(n) && KeepsSearching(n, calls, d)
    ensures Sound(After(n, calls)) && Searching(After(n, calls), d)
    ensures var e, e' := n.table[d], After(n, calls).table[d]; var ttls := AllAsks(n, calls, d);
            && Limited(ttls) + LimitedLeft(e') == LimitedLeft(e)
            && Wide(ttls) + e.reqCnt == e'.reqCnt
            && forall t :: t in ttls ==> 1 <= t <= NETWORK_DIAMETER
    decreases |calls|
  {
    if calls != [] {
      var c := calls[0];
      var (n', out) := Handle(n, c.ev, c.env);
      HandleSearches(n, c, d);
      HandleSound(n, c);
      AsksAreCounted(n', calls[1..], d);
      OneCallCounted(n, n', d, out);
      TalliesConcat(Asks(out, n.id, d), AllAsks(n', calls[1..], d));
    }
  }

  /** Bounded discovery: until a route comes up or the agent gives up, it sends at most 3 requests
      with a limited TTL and at most 4 network-wide ones, none with a TTL above 30. */
  lemma DiscoveryIsBounded(n: Node, calls: seq<Call>, d: Addr)
    requires Sound(n) && KeepsSearching(n, calls, d)
    ensures Limited(AllAsks(n, calls, d)) <= 3 && Wide(AllAsks(n, calls, d)) <= 4
    ensures forall t :: t in AllAsks(n, calls, d) ==> 1 <= t <= NETWORK_DIAMETER
  {
    AsksAreCounted(n, calls, d);
  }

  /** An attempt is refused only before its time, waits at most 10 seconds for the next, and gives
      up exactly when all network-wide requests are used. */
  lemma AttemptProgress(e: Entry, now: real, perHop: real)
    requires SoundEntry(e) && e.flag.Down?
    ensures TryRequest(e, now, perHop).Refused? <==> now < e.reqTimeout
    ensures !TryRequest(e, now, perHop).Refused? ==>
              TryRequest(e, now, perHop).entry.reqTimeout <= now + MAX_RREQ_TIMEOUT
    ensures TryRequest(e, now, perHop).GaveUp? <==> now >= e.reqTimeout && WideLeft(e) == 0
    ensures TryRequest(e, now, perHop).Query? ==>
              var e' := TryRequest(e, now, perHop).entry;
              LimitedLeft(e') + WideLeft(e') == LimitedLeft(e) + WideLeft(e) - 1
  {
  }

  /** The expanding ring starts only from a route that was known before: a destination never reached
      is first asked for network-wide, and the branch for a last TTL of 0 is never taken. */
  lemma FirstRequestIsNetworkWide(e: Entry, now: real, perHop: real)
    requires SoundEntry(e)
    ensures LastTtl(e) > 0
    ensures TryRequest(FRESH, now, perHop).Query? && now >= 0.0 ==>
              TryRequest(FRESH, now, perHop).ttl == NETWORK_DIAMETER
  {
  }
}
