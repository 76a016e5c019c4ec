/** Broadcast ids name requests: in every run, whatever is lost, repeated or late, two requests with one source and one
    id are copies of one request. */
module AodvRequestIds {
  import opened AodvTypes
  import opened AodvHandlers
  import opened AodvSteps
  import opened AodvNetwork
  import opened AodvExactRequests
  import opened AodvExactLosses

  /** Two copies of one request. */
  predicate Copies(a: Msg, b: Msg) {
    a.Rreq? && b.Rreq? && a.src == b.src && a.bcastId == b.bcastId && a.dst == b.dst && a.srcSeqno == b.srcSeqno
  }

  /** Requests with one source and one id. */
  predicate OneId(a: Msg, b: Msg) {
    a.Rreq? && b.Rreq? && a.src == b.src && a.bcastId == b.bcastId
  }

  /** Copies, and not two different ones from the source itself. */
  predicate SentOnce(a: Msg, b: Msg) {
    Copies(a, b) && (a.from == a.src && b.from == b.src ==> a == b)
  }

  /** A request of the node's own, numbered from bid on, or a copy of the one received. */
  ghost predicate Numbered(n: Node, bid: nat, o: Msg, inbox: Inbox)
    requires o.Rreq?
  {
    && o.from == n.id
    && if o.src == n.id then n.bid <= o.bcastId < bid else inbox.Got? && Copies(inbox.msg, o)
  }

  /** What a step does to ids: those of its own requests are new, and no two are the same. */
  ghost predicate IdStep(n: Node, n': Node, inbox: Inbox, out: seq<Msg>) {
    && n'.id == n.id && n'.bid >= n.bid
    && (forall o :: o in out && o.Rreq? ==> Numbered(n, n'.bid, o, inbox))
    && (forall a, b :: a in out && b in out && a.Rreq? && b.Rreq? && a.src == b.src == n.id ==>
          a.bcastId == b.bcastId ==> a == b)
  }

  lemma NoRequests(n: Node, n': Node, inbox: Inbox, out: seq<Msg>)
    requires n'.id == n.id && n'.bid >= n.bid && forall o :: o in Control(out) ==> !o.Rreq?
    ensures IdStep(n, n', inbox, out)
  {
    ControlMembers(out);
  }

  /** At most one request, of the node's own. */
  lemma OneRequest(n: Node, n': Node, inbox: Inbox, out: seq<Msg>)
    requires n'.id == n.id && |out| <= 1
    requires if |out| == 1 && out[0].Rreq? then Numbered(n, n'.bid, out[0], inbox) && n'.bid >= n.bid
             else n'.bid >= n.bid
    ensures IdStep(n, n', inbox, out)
  {
  }

  lemma StepsConcat(n: Node, n1: Node, n2: Node, inbox: Inbox, out: seq<Msg>, more: seq<Msg>)
    requires IdStep(n, n1, Nothing, out) && IdStep(n1, n2, Nothing, more)
    ensures IdStep(n, n2, inbox, out + more)
  {
    forall o | o in out + more && o.Rreq?
      ensures Numbered(n, n2.bid, o, inbox)
    {
      assert o in out ==> Numbered(n, n1.bid, o, Nothing);
      assert o in more ==> Numbered(n1, n2.bid, o, Nothing);
    }
    forall a, b | a in out + more && b in out + more && a.Rreq? && b.Rreq? && a.src == b.src == n.id
                  && a.bcastId == b.bcastId
      ensures a == b
    {
      assert forall o :: o in out && o.Rreq? ==> Numbered(n, n1.bid, o, Nothing);
      assert forall o :: o in more && o.Rreq? ==> Numbered(n1, n2.bid, o, Nothing);
    }
  }

  lemma SendRequestIds(n: Node, d: Addr, env: Env, inbox: Inbox)
    ensures IdStep(n, SendRequest(n, d, env).0, inbox, SendRequest(n, d, env).1)
  {
    RequestIsSentIff(n, d, env);
    OneRequest(n, SendRequest(n, d, env).0, inbox, SendRequest(n, d, env).1);
  }

  lemma RecvRequestIds(n: Node, m: Msg, env: Env)
    requires m.Rreq?
    ensures IdStep(n, RecvRequest(n, m, env).0, Got(m), RecvRequest(n, m, env).1)
  {
    var (n', out) := RecvRequest(n, m, env);
    if !NewRequest(n, m) {
      OldRequestIsIgnored(n, m, env);
    } else {
      RequestInstallsReverseRoute(n, m, env, m.src);
      ControlMembers(out);
      if m.dst == n.id {
        DestinationAnswersOnce(n, m, env);
        NoRequests(n, n', Got(m), out);
      } else {
        RequestAnsweredIff(n, m, env);
      }
    }
  }

  lemma RecvReplyIds(n: Node, m: Msg, now: real)
    requires m.Rrep?
    ensures IdStep(n, RecvReply(n, m, now).0, Got(m), RecvReply(n, m, now).1)
  {
    var (n', out) := RecvReply(n, m, now);
    if Fresher(Lookup(n, m.dst), m.dstSeqno, m.hops) {
      FreshReplyIsAccepted(n, m, now, m.dst);
      NoRequests(n, n', Got(m), out);
    } else {
      StaleReplyIsIgnored(n, m, now, m.dst);
    }
  }

  lemma {:induction false} DownRoutesKeepId(n: Node, from: Addr, dead: seq<Unreachable>)
    ensures var n' := DownRoutes(n, from, dead).0; n'.id == n.id && n'.bid == n.bid
  {
    StaysSame(n, from, dead);
  }

  lemma {:induction false} FailRoutesKeepId(n: Node, nbr: Addr, todo: seq<Addr>)
    ensures var n' := FailRoutes(n, nbr, todo).0; n'.id == n.id && n'.bid == n.bid
    decreases |todo|
  {
    if todo != [] {
      FailRoutesKeepId(SetEntry(n, todo[0], FailedEntry(Lookup(n, todo[0]), nbr)), nbr, todo[1..]);
    }
  }

  lemma RtResolveIds(n: Node, p: Packet, env: Env, inbox: Inbox)
    ensures IdStep(n, RtResolve(n, p, env).0, inbox, RtResolve(n, p, env).1)
  {
    var n1 := RtAdd(n, p.dst).(queue := Enqueued(n.queue, p, env.now));
    if !Lookup(n, p.dst).flag.Up? && p.src == n.id {
      SendRequestIds(n1, p.dst, env, inbox);
      assert RtResolve(n, p, env) == SendRequest(n1, p.dst, env);
      var (n', out) := SendRequest(n1, p.dst, env);
      assert forall o :: o in out && o.Rreq? ==> Numbered(n1, n'.bid, o, inbox);
    } else {
      OneRequest(n, RtResolve(n, p, env).0, inbox, RtResolve(n, p, env).1);
    }
  }

  lemma PurgeEntryIds(n: Node, d: Addr, env: Env)
    ensures IdStep(n, PurgeEntry(n, d, env).0, Nothing, PurgeEntry(n, d, env).1)
  {
    var e := Lookup(n, d);
    if !e.flag.Up? {
      SendRequestIds(n, d, env, Nothing);
    } else {
      ForwardedIsData(For(Live(n.queue, env.now), d), e.nextHop);
      NoRequests(n, PurgeEntry(n, d, env).0, Nothing, PurgeEntry(n, d, env).1);
    }
  }

  lemma {:induction false} PurgeRoutesIds(n: Node, todo: seq<Addr>, env: Env)
    ensures IdStep(n, PurgeRoutes(n, todo, env).0, Nothing, PurgeRoutes(n, todo, env).1)
    decreases |todo|
  {
    if todo != [] {
      var (n1, out) := PurgeEntry(n, todo[0], env);
      PurgeEntryIds(n, todo[0], env);
      PurgeRoutesIds(n1, todo[1..], env);
      StepsConcat(n, n1, PurgeRoutes(n1, todo[1..], env).0, Nothing, out, PurgeRoutes(n1, todo[1..], env).1);
    }
  }

  lemma HandleIds(n: Node, ev: Event, env: Env)
    ensures IdStep(n, Handle(n, ev, env).0, InboxOf(ev), Handle(n, ev, env).1)
  {
    match ev
    case Receive(m) =>
      if m.Rreq? {
        RecvRequestIds(n, m, env);
      } else if m.Rrep? {
        RecvReplyIds(n, m, env.now);
      } else if m.Rerr? {
        DownRoutesKeepId(n, m.from, m.unreachable);
        OneRequest(n, RecvError(n, m).0, Got(m), RecvError(n, m).1);
      } else {
        RtResolveIds(n, m.packet.(ttl := m.packet.ttl - 1), env, Got(m));
      }
    case Send(uid, dst) => RtResolveIds(n, Packet(uid, n.id, dst, NETWORK_DIAMETER), env, Nothing);
    case PurgeTimer => PurgeRoutesIds(n, n.list, env);
    case IdTimer =>
    case LinkLost(nbr) =>
      FailRoutesKeepId(n.(seqno := n.seqno + 2), nbr, n.list);
      OneRequest(n, NbDelete(n, nbr).0, Nothing, NbDelete(n, nbr).1);
    case NeighborFound =>
  }

  // ----- the network -----

  /** Every request in flight carries an id that its source has used, and those with one id are copies of one request,
      sent once by its source. */
  ghost predicate IdsOk(s: Net) {
    && (forall i :: IsNode(s, i) ==> s.nodes[i].id == i)
    && (forall m :: m in s.msgs && m.Rreq? ==> IsNode(s, m.src) && m.bcastId < s.nodes[m.src].bid)
    && (forall a, b :: a in s.msgs && b in s.msgs && OneId(a, b) ==> SentOnce(a, b))
  }

  /** A request sent in a step is new, or a copy of one in flight. */
  lemma SentIsNewOrCopy(s: Net, i: nat, ev: Event, env: Env, o: Msg)
    requires IdsOk(s) && Enabled(s, i, ev) && o in Handle(s.nodes[i], ev, env).1 && o.Rreq?
    ensures o.from == i && s.nodes[i].bid <= Handle(s.nodes[i], ev, env).0.bid
    ensures if o.src == i then s.nodes[i].bid <= o.bcastId < Handle(s.nodes[i], ev, env).0.bid
            else ev.Receive? && ev.msg in s.msgs && Copies(ev.msg, o)
  {
    HandleIds(s.nodes[i], ev, env);
    assert Numbered(s.nodes[i], Handle(s.nodes[i], ev, env).0.bid, o, InboxOf(ev));
  }

  lemma StepKeepsIds(s: Net, i: nat, ev: Event, env: Env)
    requires IdsOk(s) && Enabled(s, i, ev)
    ensures IdsOk(Step(s, i, ev, env))
  {
    var s', out := Step(s, i, ev, env), Handle(s.nodes[i], ev, env).1;
    HandleIds(s.nodes[i], ev, env);
    forall m | m in s'.msgs && m.Rreq?
      ensures IsNode(s', m.src) && m.bcastId < s'.nodes[m.src].bid
    {
      if m !in s.msgs {
        SentIsNewOrCopy(s, i, ev, env, m);
      }
    }
    forall a, b | a in s'.msgs && b in s'.msgs && OneId(a, b)
      ensures SentOnce(a, b)
    {
      PairKept(s, i, ev, env, a, b);
    }
  }

  lemma InFlightOnce(s: Net, a: Msg, b: Msg)
    requires IdsOk(s) && a in s.msgs && b in s.msgs && OneId(a, b)
    ensures SentOnce(a, b)
  {
  }

  /** A request sent now and one in flight with the same id: it is a relayed copy. */
  lemma NewAndOld(s: Net, i: nat, ev: Event, env: Env, a: Msg, b: Msg)
    requires IdsOk(s) && Enabled(s, i, ev) && a in Handle(s.nodes[i], ev, env).1 && b in s.msgs && OneId(a, b)
    ensures SentOnce(a, b) && SentOnce(b, a)
  {
    SentIsNewOrCopy(s, i, ev, env, a);
    if a.src != i {
      InFlightOnce(s, ev.msg, b);
    }
  }

  lemma NewAndNew(s: Net, i: nat, ev: Event, env: Env, a: Msg, b: Msg)
    requires IdsOk(s) && Enabled(s, i, ev) && OneId(a, b)
    requires a in Handle(s.nodes[i], ev, env).1 && b in Handle(s.nodes[i], ev, env).1
    ensures SentOnce(a, b)
  {
    HandleIds(s.nodes[i], ev, env);
    SentIsNewOrCopy(s, i, ev, env, a);
    SentIsNewOrCopy(s, i, ev, env, b);
  }

  lemma PairKept(s: Net, i: nat, ev: Event, env: Env, a: Msg, b: Msg)
    requires IdsOk(s) && Enabled(s, i, ev) && a in Step(s, i, ev, env).msgs && b in Step(s, i, ev, env).msgs
    requires OneId(a, b)
    ensures SentOnce(a, b)
  {
    if a in s.msgs && b in s.msgs {
      InFlightOnce(s, a, b);
    } else if a in s.msgs {
      NewAndOld(s, i, ev, env, b, a);
    } else if b in s.msgs {
      NewAndOld(s, i, ev, env, a, b);
    } else {
      NewAndNew(s, i, ev, env, a, b);
    }
  }

  lemma {:induction false} RunKeepsIds(r: seq<Net>, t: nat)
    requires Run(r) && t < |r|
    ensures IdsOk(r[t])
  {
    if t > 0 {
      RunKeepsIds(r, t - 1);
      assert Follow(r, t - 1);
      NextKeepsIds(r[t - 1], r[t]);
    }
  }

  lemma NextKeepsIds(s: Net, s': Net)
    requires IdsOk(s) && Next(s, s')
    ensures IdsOk(s')
  {
    var i: nat, ev, env :| Enabled(s, i, ev) && s' == Step(s, i, ev, env);
    StepKeepsIds(s, i, ev, env);
  }

  /** In every state of every run two requests with one source and one broadcast id are copies of one request; the
      source itself sent it once, so that no two requests of one node share an id. */
  lemma IdsNameRequests(r: seq<Net>, t: nat, a: Msg, b: Msg)
    requires Run(r) && t < |r| && a in r[t].msgs && b in r[t].msgs && a.Rreq? && b.Rreq?
    requires a.src == b.src && a.bcastId == b.bcastId
    ensures a.dst == b.dst && a.srcSeqno == b.srcSeqno
    ensures a.from == a.src && b.from == b.src ==> a == b
  {
    RunKeepsIds(r, t);
    InFlightOnce(r[t], a, b);
  }
}
