/** Reservation over links with parameter-based admission control: what one link does with the signalling
    messages, and what that amounts to for flows that cross many links. */
module Reservation {

  datatype Option<T> = None | Some(value: T)

  const NFLOWS := 500
  const FREE := -1

  // ----- one link -----

  /** `pending` is the slot table: a flow id, or FREE. */
  datatype Link = Link(resv: real, numfl: int, pending: seq<int>)

  /** The first slot that holds x, |slots| when there is none. */
  function Slot(slots: seq<int>, x: int): (j: nat)
    ensures j <= |slots| && x !in slots[..j]
    ensures j < |slots| ==> slots[j] == x
  {
    if slots == [] || slots[0] == x then 0
    else
      var j := Slot(slots[1..], x);
      assert slots[..j + 1] == [slots[0]] + slots[1..][..j];
      1 + j
  }

  datatype Answer = Answer(link: Link, admitted: bool)

  /** A request: admitted while the reserved rates stay within `cap`. With no free slot for an admitted flow
      the simulation ends. */
  function OnRequest(l: Link, cap: real, flow: nat, rate: real): Option<Answer> {
    if l.resv + rate <= cap then
      var j := Slot(l.pending, FREE);
      if j == |l.pending| then None
      else Some(Answer(Link(l.resv + rate, l.numfl + 1, l.pending[j := flow]), true))
    else Some(Answer(l, false))
  }

  /** A confirmation: a pending flow that was refused elsewhere is rolled back. */
  function OnConfirm(l: Link, flow: nat, rate: real, decision: bool): Link {
    var j := Slot(l.pending, flow);
    if j == |l.pending| then l
    else if decision then l.(pending := l.pending[j := FREE])
    else Link(l.resv - rate, l.numfl - 1, l.pending[j := FREE])
  }

  function OnTeardown(l: Link, rate: real): Link {
    l.(resv := l.resv - rate, numfl := l.numfl - 1)
  }

  // ----- flows -----

  /** The request has passed `at` links; `granted` is what each answered. Then the source has the answer and
      its confirmation has passed `at` links, and its teardown, if the flow was accepted, `torn` of those. */
  datatype Stage =
    | Silent
    | Requesting(at: nat, decision: bool, granted: seq<bool>)
    | Confirming(at: nat, decision: bool, granted: seq<bool>, torn: nat)

  datatype Flow = Flow(path: seq<nat>, rate: real, stage: Stage)

  datatype Net = Net(links: seq<Link>, caps: seq<real>, flows: seq<Flow>)

  /** Messages of one flow keep their order; those of different flows interleave freely. */
  datatype Event = Begin(f: nat) | Request(f: nat) | Turn(f: nat) | Confirm(f: nat) | Teardown(f: nat)

  /** The request of flow f reaches its next link. */
  function Requested(n: Net, f: nat): Option<Net>
    requires Shaped(n) && f < |n.flows| && n.flows[f].stage.Requesting? && n.flows[f].stage.at < |n.flows[f].path|
  {
    var flow := n.flows[f];
    var s := flow.stage;
    var l := flow.path[s.at];
    var a := OnRequest(n.links[l], n.caps[l], f, flow.rate);
    if a.None? then None
    else
      var s' := Requesting(s.at + 1, s.decision && a.value.admitted, s.granted + [a.value.admitted]);
      Some(Updated(n, f, s', l, a.value.link))
  }

  /** Its confirmation reaches its next link. */
  function Confirmed(n: Net, f: nat): Net
    requires Shaped(n) && f < |n.flows| && n.flows[f].stage.Confirming? && n.flows[f].stage.at < |n.flows[f].path|
  {
    var flow := n.flows[f];
    var s := flow.stage;
    var l := flow.path[s.at];
    var s' := Confirming(s.at + 1, s.decision, s.granted, s.torn);
    Updated(n, f, s', l, OnConfirm(n.links[l], f, flow.rate, s.decision))
  }

  /** Its teardown reaches its next link. */
  function TornDown(n: Net, f: nat): Net
    requires Shaped(n) && f < |n.flows| && n.flows[f].stage.Confirming? && n.flows[f].stage.torn < n.flows[f].stage.at
  {
    var flow := n.flows[f];
    var s := flow.stage;
    var l := flow.path[s.torn];
    Updated(n, f, Confirming(s.at, s.decision, s.granted, s.torn + 1), l, OnTeardown(n.links[l], flow.rate))
  }

  /** One event; None when it cannot happen now, or ends the simulation. */
  function Step(n: Net, e: Event): Option<Net>
    requires Shaped(n)
  {
    if e.f >= |n.flows| then None
    else
      var length, s := |n.flows[e.f].path|, n.flows[e.f].stage;
      match e
      case Begin(f) => if s.Silent? then Some(Staged(n, f, Requesting(0, true, []))) else None
      case Request(f) => if s.Requesting? && s.at < length then Requested(n, f) else None
      case Turn(f) =>
        if s.Requesting? && s.at == length then Some(Staged(n, f, Confirming(0, s.decision, s.granted, 0))) else None
      case Confirm(f) => if s.Confirming? && s.at < length then Some(Confirmed(n, f)) else None
      case Teardown(f) => if s.Confirming? && s.decision && s.torn < s.at then Some(TornDown(n, f)) else None
  }

  function Staged(n: Net, f: nat, s: Stage): Net
    requires f < |n.flows|
  {
    n.(flows := n.flows[f := n.flows[f].(stage := s)])
  }

  /** Flow f moves to stage s as link l changes. */
  function Updated(n: Net, f: nat, s: Stage, l: nat, link: Link): Net
    requires f < |n.flows| && l < |n.links|
  {
    Staged(n, f, s).(links := n.links[l := link])
  }

  predicate Distinct(path: seq<nat>) {
    forall i, j :: 0 <= i < j < |path| ==> path[i] != path[j]
  }

  /** A route crosses links of the network, each once; rates are not negative; counts are in range. */
  predicate Routed(flow: Flow, links: nat) {
    && flow.rate >= 0.0
    && (forall i :: 0 <= i < |flow.path| ==> flow.path[i] < links)
    && Distinct(flow.path)
    && (flow.stage.Requesting? ==> flow.stage.at <= |flow.path| && |flow.stage.granted| == flow.stage.at)
    && (flow.stage.Confirming? ==> flow.stage.torn <= flow.stage.at <= |flow.path| == |flow.stage.granted|)
  }

  predicate Shaped(n: Net) {
    && |n.caps| == |n.links|
    && (forall f :: 0 <= f < |n.flows| ==> Routed(n.flows[f], |n.links|))
  }

  // ----- what a flow holds -----

  /** Flow holds its rate at link i of its path: admitted there, and neither rolled back nor torn down. */
  predicate Holds(flow: Flow, i: nat) {
    match flow.stage
    case Silent => false
    case Requesting(at, _, granted) => i < |granted| && granted[i]
    case Confirming(at, decision, granted, torn) => i < |granted| && granted[i] && (i < at ==> decision && i >= torn)
  }

  /** Admitted at link i of its path and not yet confirmed there. */
  predicate Waits(flow: Flow, i: nat) {
    match flow.stage
    case Silent => false
    case Requesting(at, _, granted) => i < |granted| && granted[i]
    case Confirming(at, _, granted, _) => i < |granted| && granted[i] && i >= at
  }

  /** Where link l is on a path, |path| when it is not. */
  function Position(path: seq<nat>, l: nat): (i: nat)
    ensures i <= |path| && (i < |path| ==> path[i] == l) && (i == |path| ==> l !in path)
  {
    if path == [] || path[0] == l then 0 else 1 + Position(path[1..], l)
  }

  lemma PositionIs(path: seq<nat>, i: nat)
    requires Distinct(path) && i < |path|
    ensures Position(path, path[i]) == i
  {
    var j := Position(path, path[i]);
    assert path[i] in path;
    assert path[j] == path[i];
  }

  predicate HoldsAt(flow: Flow, l: nat) {
    var i := Position(flow.path, l); i < |flow.path| && Holds(flow, i)
  }

  predicate WaitsAt(flow: Flow, l: nat) {
    var i := Position(flow.path, l); i < |flow.path| && Waits(flow, i)
  }

  function Share(flow: Flow, l: nat): real {
    if HoldsAt(flow, l) then flow.rate else 0.0
  }

  /** The rates held at link l. */
  function Reserved(flows: seq<Flow>, l: nat): real {
    if flows == [] then 0.0 else Reserved(flows[..|flows| - 1], l) + Share(flows[|flows| - 1], l)
  }

  function One(flow: Flow, l: nat): int {
    if HoldsAt(flow, l) then 1 else 0
  }

  /** The number of flows that hold at link l. */
  function Holding(flows: seq<Flow>, l: nat): int {
    if flows == [] then 0 else Holding(flows[..|flows| - 1], l) + One(flows[|flows| - 1], l)
  }

  lemma {:induction false} SumsUpdate(flows: seq<Flow>, f: nat, g: Flow, l: nat)
    requires f < |flows|
    ensures Reserved(flows[f := g], l) == Reserved(flows, l) - Share(flows[f], l) + Share(g, l)
    ensures Holding(flows[f := g], l) == Holding(flows, l) - One(flows[f], l) + One(g, l)
  {
    var n := |flows| - 1;
    if f < n {
      assert flows[f := g][..n] == flows[..n][f := g];
      SumsUpdate(flows[..n], f, g, l);
    } else {
      assert flows[f := g][..n] == flows[..n];
    }
  }

  // ----- what every step keeps -----

  /** The slot table holds the flows that wait at link l, each once. */
  ghost predicate SlotsOf(pending: seq<int>, flows: seq<Flow>, l: nat) {
    && |pending| == NFLOWS
    && (forall j :: 0 <= j < |pending| ==>
          pending[j] == FREE || (0 <= pending[j] < |flows| && WaitsAt(flows[pending[j]], l)))
    && (forall f :: 0 <= f < |flows| && WaitsAt(flows[f], l) ==> f in pending)
    && (forall j, k :: 0 <= j < k < |pending| && pending[j] != FREE ==> pending[j] != pending[k])
  }

  /** What link l says of these flows, with `base` the flow count it started from. */
  ghost predicate Agrees(link: Link, cap: real, flows: seq<Flow>, l: nat, base: int) {
    && link.resv == Reserved(flows, l) <= cap
    && link.numfl == base + Holding(flows, l)
    && SlotsOf(link.pending, flows, l)
  }

  ghost predicate Accounted(n: Net, l: nat, base: int)
    requires l < |n.links| == |n.caps|
  {
    Agrees(n.links[l], n.caps[l], n.flows, l, base)
  }

  predicate All(answers: seq<bool>) {
    forall i :: 0 <= i < |answers| ==> answers[i]
  }

  lemma AllAppend(answers: seq<bool>, b: bool)
    ensures All(answers + [b]) <==> All(answers) && b
  {
    if All(answers + [b]) {
      assert (answers + [b])[|answers|] == b;
      forall i | 0 <= i < |answers|
        ensures answers[i]
      {
        assert (answers + [b])[i] == answers[i];
      }
    }
  }

  /** The decision so far is the conjunction of the answers so far. */
  predicate Decided(flow: Flow) {
    flow.stage.Silent? || (flow.stage.decision <==> All(flow.stage.granted))
  }

  predicate TornIfAccepted(flow: Flow) {
    flow.stage.Confirming? && flow.stage.torn > 0 ==> flow.stage.decision
  }

  ghost predicate Inv(n: Net, base: int) {
    && Shaped(n)
    && (forall l :: 0 <= l < |n.links| ==> Accounted(n, l, base))
    && (forall f :: 0 <= f < |n.flows| ==> Decided(n.flows[f]) && TornIfAccepted(n.flows[f]))
  }

  lemma SlotsAdd(pending: seq<int>, flows: seq<Flow>, f: nat, g: Flow, l: nat, j: nat)
    requires SlotsOf(pending, flows, l) && f < |flows| && !WaitsAt(flows[f], l) && WaitsAt(g, l)
    requires j < |pending| && pending[j] == FREE
    ensures SlotsOf(pending[j := f], flows[f := g], l)
  {
    assert pending[j := f][j] == f;
    forall h | 0 <= h < |flows| && h != f && WaitsAt(flows[h], l)
      ensures h in pending[j := f]
    {
      var k :| 0 <= k < |pending| && pending[k] == h;
      assert pending[j := f][k] == h;
    }
  }

  lemma SlotsRemove(pending: seq<int>, flows: seq<Flow>, f: nat, g: Flow, l: nat, j: nat)
    requires SlotsOf(pending, flows, l) && f < |flows| && !WaitsAt(g, l)
    requires j < |pending| && pending[j] == f
    ensures SlotsOf(pending[j := FREE], flows[f := g], l)
  {
    forall h | 0 <= h < |flows| && h != f && WaitsAt(flows[h], l)
      ensures h in pending[j := FREE]
    {
      var k :| 0 <= k < |pending| && pending[k] == h;
      assert pending[j := FREE][k] == h;
    }
  }

  lemma SlotsSame(pending: seq<int>, flows: seq<Flow>, f: nat, g: Flow, l: nat)
    requires SlotsOf(pending, flows, l) && f < |flows| && (WaitsAt(g, l) <==> WaitsAt(flows[f], l))
    ensures SlotsOf(pending, flows[f := g], l)
  {
  }

  /** g holds and waits as `flow` does, except perhaps at link i of the path. */
  ghost predicate SameBut(flow: Flow, g: Flow, i: nat) {
    && g.path == flow.path && g.rate == flow.rate
    && (forall j :: 0 <= j < |flow.path| && j != i ==>
          (Holds(g, j) <==> Holds(flow, j)) && (Waits(g, j) <==> Waits(flow, j)))
  }

  lemma SumsSame(flows: seq<Flow>, f: nat, g: Flow, l: nat)
    requires f < |flows| && g.rate == flows[f].rate && (HoldsAt(g, l) <==> HoldsAt(flows[f], l))
    ensures Reserved(flows[f := g], l) == Reserved(flows, l) && Holding(flows[f := g], l) == Holding(flows, l)
  {
    SumsUpdate(flows, f, g, l);
  }

  /** All the links off the step stay accounted for, and the step's link when its new state is. */
  lemma UpdateKeeps(n: Net, f: nat, s: Stage, i: nat, link: Link, base: int)
    requires Inv(n, base) && f < |n.flows| && i < |n.flows[f].path|
    requires var g := n.flows[f].(stage := s); SameBut(n.flows[f], g, i) && Routed(g, |n.links|) && Decided(g)
    requires s.Confirming? && s.torn > 0 ==> s.decision
    requires var l := n.flows[f].path[i]; Agrees(link, n.caps[l], n.flows[f := n.flows[f].(stage := s)], l, base)
    ensures Inv(Updated(n, f, s, n.flows[f].path[i], link), base)
  {
    var flow, g, at := n.flows[f], n.flows[f].(stage := s), n.flows[f].path[i];
    var n' := Updated(n, f, s, at, link);
    forall l | 0 <= l < |n.links|
      ensures Accounted(n', l, base)
    {
      if l != at {
        assert HoldsAt(g, l) == HoldsAt(flow, l) && WaitsAt(g, l) == WaitsAt(flow, l);
        assert Accounted(n, l, base);
        SumsSame(n.flows, f, g, l);
        SlotsSame(n.links[l].pending, n.flows, f, g, l);
      }
    }
  }

  /** A flow that changes stage with nothing at any link. */
  lemma StageKeeps(n: Net, f: nat, s: Stage, base: int)
    requires Inv(n, base) && f < |n.flows|
    requires var g := n.flows[f].(stage := s);
      && Routed(g, |n.links|) && Decided(g)
      && forall j :: 0 <= j < |g.path| ==>
           (Holds(g, j) <==> Holds(n.flows[f], j)) && (Waits(g, j) <==> Waits(n.flows[f], j))
    requires s.Confirming? ==> s.torn == 0
    ensures Inv(Staged(n, f, s), base)
  {
    var flow, g := n.flows[f], n.flows[f].(stage := s);
    forall l | 0 <= l < |n.links|
      ensures Accounted(Staged(n, f, s), l, base)
    {
      assert HoldsAt(g, l) == HoldsAt(flow, l) && WaitsAt(g, l) == WaitsAt(flow, l);
      assert Accounted(n, l, base);
      SumsSame(n.flows, f, g, l);
      SlotsSame(n.links[l].pending, n.flows, f, g, l);
    }
  }

  lemma RequestEffect(flow: Flow, d: bool, b: bool)
    requires Distinct(flow.path) && flow.stage.Requesting? && |flow.stage.granted| == flow.stage.at < |flow.path|
    ensures var i := flow.stage.at;
      var g := flow.(stage := Requesting(i + 1, d, flow.stage.granted + [b]));
      var l := flow.path[i];
      && !HoldsAt(flow, l) && !WaitsAt(flow, l) && (HoldsAt(g, l) <==> b) && (WaitsAt(g, l) <==> b)
      && SameBut(flow, g, i)
  {
    PositionIs(flow.path, flow.stage.at);
  }

  lemma ConfirmEffect(flow: Flow)
    requires Distinct(flow.path) && flow.stage.Confirming?
    requires flow.stage.torn <= flow.stage.at < |flow.path| == |flow.stage.granted|
    ensures var s := flow.stage;
      var i := s.at;
      var g := flow.(stage := Confirming(i + 1, s.decision, s.granted, s.torn));
      var l := flow.path[i];
      && (WaitsAt(flow, l) <==> s.granted[i]) && (HoldsAt(flow, l) <==> s.granted[i])
      && !WaitsAt(g, l) && (HoldsAt(g, l) <==> s.granted[i] && s.decision)
      && SameBut(flow, g, i)
  {
    PositionIs(flow.path, flow.stage.at);
  }

  lemma RequestAgrees(link: Link, cap: real, flows: seq<Flow>, l: nat, base: int, f: nat, g: Flow)
    requires Agrees(link, cap, flows, l, base) && f < |flows| && g.rate == flows[f].rate
    requires OnRequest(link, cap, f, g.rate).Some? && !HoldsAt(flows[f], l) && !WaitsAt(flows[f], l)
    requires var b := OnRequest(link, cap, f, g.rate).value.admitted; (HoldsAt(g, l) <==> b) && (WaitsAt(g, l) <==> b)
    ensures Agrees(OnRequest(link, cap, f, g.rate).value.link, cap, flows[f := g], l, base)
  {
    SumsUpdate(flows, f, g, l);
    if link.resv + g.rate <= cap {
      SlotsAdd(link.pending, flows, f, g, l, Slot(link.pending, FREE));
    } else {
      SlotsSame(link.pending, flows, f, g, l);
    }
  }

  lemma RequestKeeps(n: Net, f: nat, base: int)
    requires Inv(n, base) && f < |n.flows| && n.flows[f].stage.Requesting? && n.flows[f].stage.at < |n.flows[f].path|
    requires Requested(n, f).Some?
    ensures Inv(Requested(n, f).value, base)
  {
    var flow := n.flows[f];
    var s, i := flow.stage, flow.stage.at;
    var l := flow.path[i];
    var a := OnRequest(n.links[l], n.caps[l], f, flow.rate).value;
    var s' := Requesting(i + 1, s.decision && a.admitted, s.granted + [a.admitted]);
    AllAppend(s.granted, a.admitted);
    RequestEffect(flow, s.decision && a.admitted, a.admitted);
    assert Accounted(n, l, base);
    RequestAgrees(n.links[l], n.caps[l], n.flows, l, base, f, flow.(stage := s'));
    UpdateKeeps(n, f, s', i, a.link, base);
  }

  lemma InSlotIff(pending: seq<int>, flows: seq<Flow>, f: nat, l: nat)
    requires SlotsOf(pending, flows, l) && f < |flows|
    ensures Slot(pending, f) < |pending| <==> WaitsAt(flows[f], l)
  {
  }

  lemma ConfirmAgrees(link: Link, cap: real, flows: seq<Flow>, l: nat, base: int, f: nat, g: Flow, decision: bool)
    requires Agrees(link, cap, flows, l, base) && f < |flows| && g.rate == flows[f].rate >= 0.0
    requires (WaitsAt(flows[f], l) <==> HoldsAt(flows[f], l)) && !WaitsAt(g, l)
    requires HoldsAt(g, l) <==> HoldsAt(flows[f], l) && decision
    ensures Agrees(OnConfirm(link, f, g.rate, decision), cap, flows[f := g], l, base)
  {
    InSlotIff(link.pending, flows, f, l);
    SumsUpdate(flows, f, g, l);
    if WaitsAt(flows[f], l) {
      SlotsRemove(link.pending, flows, f, g, l, Slot(link.pending, f));
    } else {
      SlotsSame(link.pending, flows, f, g, l);
    }
  }

  lemma ConfirmFits(flow: Flow, links: nat)
    requires Routed(flow, links) && Decided(flow) && flow.stage.Confirming? && flow.stage.at < |flow.path|
    ensures var s := flow.stage;
      var g := flow.(stage := Confirming(s.at + 1, s.decision, s.granted, s.torn));
      Routed(g, links) && Decided(g)
  {
  }

  lemma ConfirmAgreesAt(n: Net, f: nat, base: int)
    requires Inv(n, base) && f < |n.flows| && n.flows[f].stage.Confirming? && n.flows[f].stage.at < |n.flows[f].path|
    ensures var flow := n.flows[f];
      var s := flow.stage;
      var l, g := flow.path[s.at], flow.(stage := Confirming(s.at + 1, s.decision, s.granted, s.torn));
      Agrees(OnConfirm(n.links[l], f, flow.rate, s.decision), n.caps[l], n.flows[f := g], l, base)
  {
    var flow := n.flows[f];
    var s := flow.stage;
    var l, g := flow.path[s.at], flow.(stage := Confirming(s.at + 1, s.decision, s.granted, s.torn));
    assert Accounted(n, l, base);
    ConfirmEffect(flow);
    ConfirmAgrees(n.links[l], n.caps[l], n.flows, l, base, f, g, s.decision);
  }

  lemma ConfirmKeeps(n: Net, f: nat, base: int)
    requires Inv(n, base) && f < |n.flows| && n.flows[f].stage.Confirming? && n.flows[f].stage.at < |n.flows[f].path|
    ensures Inv(Confirmed(n, f), base)
  {
    var flow := n.flows[f];
    var s := flow.stage;
    var link := OnConfirm(n.links[flow.path[s.at]], f, flow.rate, s.decision);
    ConfirmAgreesAt(n, f, base);
    ConfirmEffect(flow);
    ConfirmFits(flow, |n.links|);
    UpdateKeeps(n, f, Confirming(s.at + 1, s.decision, s.granted, s.torn), s.at, link, base);
  }

  lemma TeardownEffect(flow: Flow)
    requires Distinct(flow.path) && flow.stage.Confirming? && flow.stage.decision && All(flow.stage.granted)
    requires flow.stage.torn < flow.stage.at <= |flow.path| == |flow.stage.granted|
    ensures var s := flow.stage;
      var i := s.torn;
      var g := flow.(stage := Confirming(s.at, s.decision, s.granted, i + 1));
      var l := flow.path[i];
      && HoldsAt(flow, l) && !HoldsAt(g, l) && !WaitsAt(flow, l) && !WaitsAt(g, l)
      && SameBut(flow, g, i)
  {
    PositionIs(flow.path, flow.stage.torn);
  }

  lemma TeardownAgrees(link: Link, cap: real, flows: seq<Flow>, l: nat, base: int, f: nat, g: Flow)
    requires Agrees(link, cap, flows, l, base) && f < |flows| && g.rate == flows[f].rate >= 0.0
    requires HoldsAt(flows[f], l) && !HoldsAt(g, l) && !WaitsAt(flows[f], l) && !WaitsAt(g, l)
    ensures Agrees(OnTeardown(link, g.rate), cap, flows[f := g], l, base)
  {
    SumsUpdate(flows, f, g, l);
    SlotsSame(link.pending, flows, f, g, l);
  }

  lemma TeardownKeeps(n: Net, f: nat, base: int)
    requires Inv(n, base) && f < |n.flows|
    requires var s := n.flows[f].stage; s.Confirming? && s.decision && s.torn < s.at
    ensures Inv(TornDown(n, f), base)
  {
    var flow := n.flows[f];
    var s, i := flow.stage, flow.stage.torn;
    var l, s' := flow.path[i], Confirming(s.at, s.decision, s.granted, i + 1);
    TeardownEffect(flow);
    assert Accounted(n, l, base);
    TeardownAgrees(n.links[l], n.caps[l], n.flows, l, base, f, flow.(stage := s'));
    UpdateKeeps(n, f, s', i, OnTeardown(n.links[l], flow.rate), base);
  }

  lemma StepKeeps(n: Net, e: Event, base: int)
    requires Inv(n, base) && Step(n, e).Some?
    ensures Inv(Step(n, e).value, base)
  {
    match e
    case Begin(f) => StageKeeps(n, f, Requesting(0, true, []), base);
    case Request(f) => RequestKeeps(n, f, base);
    case Turn(f) => StageKeeps(n, f, Confirming(0, n.flows[f].stage.decision, n.flows[f].stage.granted, 0), base);
    case Confirm(f) => ConfirmKeeps(n, f, base);
    case Teardown(f) => TeardownKeeps(n, f, base);
  }

  /** A link grants a request exactly when the rates held there leave room for its rate, whatever the other links
      said; the simulation ends exactly when it would be granted and every slot is waiting. */
  lemma GrantedIffFits(n: Net, f: nat, base: int)
    requires Inv(n, base) && f < |n.flows| && n.flows[f].stage.Requesting? && n.flows[f].stage.at < |n.flows[f].path|
    ensures var flow := n.flows[f];
      var l := flow.path[flow.stage.at];
      var fits, step := Reserved(n.flows, l) + flow.rate <= n.caps[l], Step(n, Request(f));
      && (step.None? <==> fits && FREE !in n.links[l].pending)
      && (step.Some? ==> step.value.flows[f].stage.granted == flow.stage.granted + [fits])
      && (step.Some? ==> (HoldsAt(step.value.flows[f], l) <==> fits))
  {
    var flow := n.flows[f];
    var l := flow.path[flow.stage.at];
    assert Accounted(n, l, base);
    var slots := n.links[l].pending;
    var j := Slot(slots, FREE);
    assert j == |slots| ==> slots[..j] == slots;
    RequestEffect(flow, false, true);
    RequestEffect(flow, false, false);
    RequestEffect(flow, true, true);
  }

  /** The flows without f. */
  function Released(flows: seq<Flow>, f: nat): seq<Flow>
    requires f < |flows|
  {
    flows[f := flows[f].(stage := Silent)]
  }

  /** A source sends its teardown without a look at the decision it was given. At any link of the route, once the
      confirmation has passed, the teardown leaves the link in agreement with the other flows exactly when
      the decision was 1. After a 0 it takes one flow and one rate too many off. */
  lemma TeardownAgreesIffAccepted(n: Net, f: nat, i: nat, base: int)
    requires Inv(n, base) && f < |n.flows| && i < |n.flows[f].path|
    requires var s := n.flows[f].stage; s.Confirming? && s.at == |n.flows[f].path| && s.torn == 0
    ensures var flow := n.flows[f];
      var l := flow.path[i];
      var link, rest := OnTeardown(n.links[l], flow.rate), Released(n.flows, f);
      && (Agrees(link, n.caps[l], rest, l, base) <==> flow.stage.decision)
      && (!flow.stage.decision ==>
            link.numfl == base + Holding(rest, l) - 1 && link.resv == Reserved(rest, l) - flow.rate)
  {
    var flow := n.flows[f];
    var l, g := flow.path[i], flow.(stage := Silent);
    PositionIs(flow.path, i);
    assert Accounted(n, l, base);
    if flow.stage.decision {
      assert All(flow.stage.granted);
      TeardownAgrees(n.links[l], n.caps[l], n.flows, l, base, f, g);
    } else {
      SumsUpdate(n.flows, f, g, l);
    }
  }

  // ----- whole runs -----

  /** Links with nothing reserved and sources that have sent nothing. */
  ghost predicate Start(n: Net, base: int) {
    && Shaped(n)
    && (forall l :: 0 <= l < |n.links| ==>
          n.caps[l] >= 0.0 && n.links[l] == Link(0.0, base, seq(NFLOWS, k => FREE)))
    && (forall f :: 0 <= f < |n.flows| ==> n.flows[f].stage == Silent)
  }

  lemma {:induction false} NothingHeld(flows: seq<Flow>, l: nat)
    requires forall f :: 0 <= f < |flows| ==> flows[f].stage == Silent
    ensures Reserved(flows, l) == 0.0 && Holding(flows, l) == 0
  {
    if flows != [] {
      NothingHeld(flows[..|flows| - 1], l);
    }
  }

  lemma StartInv(n: Net, base: int)
    requires Start(n, base)
    ensures Inv(n, base)
  {
    forall l | 0 <= l < |n.links|
      ensures Accounted(n, l, base)
    {
      NothingHeld(n.flows, l);
    }
  }

  /** The network after these events; those that cannot happen when their turn comes are passed over. */
  ghost function Run(n: Net, events: seq<Event>, base: int): (n': Net)
    requires Start(n, base)
    ensures Inv(n', base) && n'.caps == n.caps
  {
    if events == [] then
      StartInv(n, base);
      n
    else
      var m := Run(n, events[..|events| - 1], base);
      var e := events[|events| - 1];
      if Step(m, e).None? then m
      else
        StepKeeps(m, e, base);
        Step(m, e).value
  }

  /** Over all interleavings: at every link the reserved rate is the sum of the rates of the flows that hold
      there and stays within the capacity, the flow count moves with them, and the slot table
      holds exactly the flows still to be confirmed there. */
  lemma RatesAreConserved(n: Net, events: seq<Event>, base: int, l: nat)
    requires Start(n, base) && l < |n.links|
    ensures var m := Run(n, events, base);
      && |m.links| == |n.links|
      && m.links[l].resv == Reserved(m.flows, l)
      && 0.0 <= m.links[l].resv <= n.caps[l]
      && m.links[l].numfl == base + Holding(m.flows, l)
      && SlotsOf(m.links[l].pending, m.flows, l)
  {
    var m := Run(n, events, base);
    assert Accounted(m, l, base);
    NotNegative(m.flows, l);
  }

  lemma {:induction false} NotNegative(flows: seq<Flow>, l: nat)
    requires forall f :: 0 <= f < |flows| ==> flows[f].rate >= 0.0
    ensures Reserved(flows, l) >= 0.0
  {
    if flows != [] {
      NotNegative(flows[..|flows| - 1], l);
    }
  }

  /** What link l holds for the flow f itself, beside the other flows: it waits in no slot, and it has its rate
      and its place in the count exactly if it is `held`. */
  ghost predicate HeldApart(m: Net, f: nat, l: nat, base: int, held: bool)
    requires f < |m.flows| && l < |m.links|
  {
    var link, rate, rest := m.links[l], m.flows[f].rate, Released(m.flows, f);
    && f !in link.pending
    && link.resv == Reserved(rest, l) + (if held then rate else 0.0)
    && link.numfl == base + Holding(rest, l) + (if held then 1 else 0)
  }

  lemma ConfirmedApart(m: Net, f: nat, i: nat, base: int)
    requires Inv(m, base) && f < |m.flows| && i < |m.flows[f].path|
    requires var s := m.flows[f].stage; s.Confirming? && s.at == |m.flows[f].path|
    ensures var flow := m.flows[f];
      HeldApart(m, f, flow.path[i], base, flow.stage.decision && i >= flow.stage.torn)
  {
    var flow := m.flows[f];
    var l := flow.path[i];
    PositionIs(flow.path, i);
    assert Accounted(m, l, base);
    SumsUpdate(m.flows, f, flow.(stage := Silent), l);
  }

  /** All or nothing: once its confirmation has passed every link, a flow waits in no slot table of its path, and
      every link has it in its reserved rate and its flow count if the decision is 1, until the
      teardown passes, and no link has if it is 0; the decision is 1 exactly when every link granted
      the request. */
  lemma AllOrNothing(n: Net, events: seq<Event>, base: int, f: nat)
    requires Start(n, base) && f < |Run(n, events, base).flows|
    requires var flow := Run(n, events, base).flows[f]; flow.stage.Confirming? && flow.stage.at == |flow.path|
    ensures var m := Run(n, events, base); var flow := m.flows[f];
      && (forall i :: 0 <= i < |flow.path| ==>
            HeldApart(m, f, flow.path[i], base, flow.stage.decision && i >= flow.stage.torn))
      && (forall i :: 0 <= i < |flow.path| ==> !WaitsAt(flow, flow.path[i]))
      && (forall i :: 0 <= i < |flow.path| ==>
            (HoldsAt(flow, flow.path[i]) <==> flow.stage.decision && i >= flow.stage.torn))
      && (flow.stage.decision <==> forall i :: 0 <= i < |flow.path| ==> flow.stage.granted[i])
  {
    var m := Run(n, events, base);
    var flow := m.flows[f];
    forall i | 0 <= i < |flow.path|
      ensures HeldApart(m, f, flow.path[i], base, flow.stage.decision && i >= flow.stage.torn)
      ensures !WaitsAt(flow, flow.path[i])
      ensures HoldsAt(flow, flow.path[i]) <==> flow.stage.decision && i >= flow.stage.torn
    {
      ConfirmedApart(m, f, i, base);
      PositionIs(flow.path, i);
    }
  }

  // ----- a refused flow that is torn down -----

  /** One link without capacity, and one flow that asks for a rate of 1. */
  function Tiny(s: Stage): Net {
    Net([Link(0.0, -1, seq(NFLOWS, k => FREE))], [0.0], [Flow([0], 1.0, s)])
  }

  lemma TinyAfter(events: seq<Event>, e: Event, s: Stage, s': Stage)
    requires Start(Tiny(Silent), -1) && Run(Tiny(Silent), events, -1) == Tiny(s)
    requires Shaped(Tiny(s)) && Step(Tiny(s), e) == Some(Tiny(s'))
    ensures Run(Tiny(Silent), events + [e], -1) == Tiny(s')
  {
    assert (events + [e])[..|events + [e]| - 1] == events;
  }

  lemma TinyUpdated(s: Stage, s': Stage, link: Link)
    requires link == Tiny(s).links[0]
    ensures Updated(Tiny(s), 0, s', 0, link) == Tiny(s') && Staged(Tiny(s), 0, s') == Tiny(s')
  {
  }

  const ASKING := Requesting(0, true, [])
  const REFUSED := Requesting(1, false, [false])
  const TURNED := Confirming(0, false, [false], 0)
  const DONE := Confirming(1, false, [false], 0)

  lemma TinyRefuses()
    ensures Shaped(Tiny(ASKING)) && Step(Tiny(ASKING), Request(0)) == Some(Tiny(REFUSED))
  {
    var link := Tiny(ASKING).links[0];
    assert OnRequest(link, 0.0, 0, 1.0) == Some(Answer(link, false));
    assert [] + [false] == [false];
    TinyUpdated(ASKING, REFUSED, link);
  }

  lemma TinyConfirms()
    ensures Shaped(Tiny(TURNED)) && Step(Tiny(TURNED), Confirm(0)) == Some(Tiny(DONE))
  {
    var link := Tiny(TURNED).links[0];
    assert forall k :: 0 <= k < NFLOWS ==> link.pending[k] == FREE;
    assert OnConfirm(link, 0, 1.0, false) == link;
    TinyUpdated(TURNED, DONE, link);
  }

  lemma TinyAsks() returns (events: seq<Event>)
    ensures Start(Tiny(Silent), -1) && Run(Tiny(Silent), events, -1) == Tiny(REFUSED)
  {
    TinyUpdated(Silent, ASKING, Tiny(Silent).links[0]);
    TinyAfter([], Begin(0), Silent, ASKING);
    TinyRefuses();
    events := [] + [Begin(0)];
    TinyAfter(events, Request(0), ASKING, REFUSED);
    events := events + [Request(0)];
  }

  /** The case itself: a run in which the flow is refused, and its source stops; then the link counts one flow too
      few and a reserved rate below zero. */
  lemma RefusedThenTornDown() returns (events: seq<Event>)
    ensures Start(Tiny(Silent), -1)
    ensures var m := Run(Tiny(Silent), events, -1);
      && m == Tiny(DONE)
      && OnTeardown(m.links[0], 1.0).numfl == -2 && OnTeardown(m.links[0], 1.0).resv == -1.0
  {
    events := TinyAsks();
    TinyUpdated(REFUSED, TURNED, Tiny(REFUSED).links[0]);
    TinyAfter(events, Turn(0), REFUSED, TURNED);
    events := events + [Turn(0)];
    TinyConfirms();
    TinyAfter(events, Confirm(0), TURNED, DONE);
    events := events + [Confirm(0)];
  }
}
