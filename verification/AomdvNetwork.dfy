/** A network of AOMDV nodes, as far as sequence numbers and path lists go: which numbers can reach an entry. */
module AomdvNetwork {
  import opened Numbers
  import opened AomdvPaths

  type Table = map<Addr, Entry>

  /** A node's own number and its routes. */
  datatype Node = Node(own: nat, table: Table)

  /** What the messages say of numbers; a HELLO is a Reply. */
  datatype Msg =
    | Request(src: Addr, srcSeqno: nat, dst: Addr, dstSeqno: nat)
    | Reply(dst: Addr, seqno: nat)
    | Error(lost: map<Addr, nat>)

  /** Messages stay in flight for ever: each may be lost, or delivered at any time, to anyone, any number of times. */
  datatype Net = Net(nodes: seq<Node>, flight: set<Msg>)

  /** `path` and the two tests of an offer, and whether a handler goes on to answer or relay, depend on hop
      counts and broadcast ids: any outcome is allowed. */
  datatype Event =
    | SendRequest(n: nat, d: Addr)
    | SendHello(n: nat)
    | RecvRequest(n: nat, m: Msg, path: Path, shorter: bool, alike: bool, goesOn: bool)
    | RecvReply(n: nat, m: Msg, path: Path, shorter: bool, alike: bool)
    | RecvError(n: nat, m: Msg, from: Addr)
    | LinkFailure(n: nat, id: Addr)
    | Purge(n: nat, now: real, due: set<Addr>)
    | NoRoute(n: nat, d: Addr)
    | Uses(n: nat, d: Addr)

  function At(t: Table, d: Addr): Entry {
    if d in t then t[d] else NEW
  }

  /** The routes that go down with their upstream nodes to be told. */
  function LostRoutes(before: Table, after: Table): map<Addr, nat> {
    map d | d in before && d in after && before[d].up && !after[d].up && before[d].error :: after[d].seqno
  }

  function Told(t: Table, lost: map<Addr, nat>): Table {
    map d | d in t :: if d in lost then t[d].(error := false) else t[d]
  }

  /** The routes after a change, and the error message about those it brings down, if there are any. */
  function Announced(n: Node, after: Table): (Node, set<Msg>) {
    var lost := LostRoutes(n.table, after);
    (n.(table := Told(after, lost)), if lost == map[] then {} else {Error(lost)})
  }

  function FailAll(t: Table, id: Addr): Table {
    map d | d in t :: Failed(t[d], id)
  }

  function PurgeAll(t: Table, now: real, due: set<Addr>): Table {
    map d | d in t :: Purged(t[d], now, d in due)
  }

  function ReportAll(t: Table, from: Addr, lost: map<Addr, nat>): Table {
    map d | d in t :: if d in lost then Reported(t[d], from, lost[d]) else t[d]
  }

  /** The own number with which a destination answers a request that asks for at least s. */
  function OwnAnswer(own: nat, s: nat): nat {
    var o := if own < s then s + 1 else own;
    if o % 2 == 1 then o + 1 else o
  }

  function RecvRequestAt(n: Node, self: Addr, m: Msg, o: Offer, goesOn: bool, maxPaths: int): (Node, set<Msg>)
    requires m.Request?
  {
    if m.src == self then (n, {})
    else
      var n1 := n.(table := n.table[m.src := Learned(At(n.table, m.src), o, maxPaths)]);
      var e := At(n1.table, m.dst);
      if !goesOn then (n1, {})
      else if m.dst == self then
        var own := OwnAnswer(n1.own, m.dstSeqno);
        (n1.(own := own), {Reply(self, own)})
      else if e.up && e.seqno >= m.dstSeqno then (n1, {Reply(m.dst, e.seqno)})
      else (n1, {Request(m.src, m.srcSeqno, m.dst, Max(e.seqno, m.dstSeqno))})
  }

  /** What node n does, with self its address. */
  function Handle(n: Node, self: Addr, e: Event, maxPaths: int): (Node, set<Msg>) {
    match e
    case SendRequest(_, d) =>
      var t := n.table[d := At(n.table, d)];
      (Node(n.own + 2, t), {Request(self, n.own + 2, d, t[d].seqno)})
    case SendHello(_) => (n, {Reply(self, n.own)})
    case RecvRequest(_, m, path, shorter, alike, goesOn) =>
      if m.Request? then RecvRequestAt(n, self, m, Offer(m.srcSeqno, path, shorter, alike), goesOn, maxPaths)
      else (n, {})
    case RecvReply(_, m, path, shorter, alike) =>
      if m.Reply? && m.dst != self then
        (n.(table := n.table[m.dst := Learned(At(n.table, m.dst), Offer(m.seqno, path, shorter, alike), maxPaths)]), {})
      else (n, {})
    case RecvError(_, m, from) =>
      if m.Error? then Announced(n, ReportAll(n.table, from, m.lost)) else (n, {})
    case LinkFailure(_, id) => Announced(n.(own := n.own + 2), FailAll(n.table, id))
    case Purge(_, now, due) => (n.(table := PurgeAll(n.table, now, due)), {})
    case NoRoute(_, d) =>
      var t := n.table[d := At(n.table, d)];
      if t[d].up then (n, {}) else (n.(table := t), {Error(map[d := t[d].seqno])})
    case Uses(_, d) =>
      if d in n.table then (n.(table := n.table[d := n.table[d].(error := true)]), {}) else (n, {})
  }

  function MsgOf(e: Event): set<Msg> {
    match e
    case RecvRequest(_, m, _, _, _, _) => {m}
    case RecvReply(_, m, _, _, _) => {m}
    case RecvError(_, m, _) => {m}
    case _ => {}
  }

  /** One event; one at no node, or with a message that is not in flight, does nothing. */
  function Step(net: Net, e: Event, maxPaths: int): Net {
    if e.n < |net.nodes| && MsgOf(e) <= net.flight then
      var (n, out) := Handle(net.nodes[e.n], e.n, e, maxPaths);
      Net(net.nodes[e.n := n], net.flight + out)
    else net
  }

  function Start(size: nat): Net {
    Net(seq(size, i => Node(2, map[])), {})
  }

  function Run(size: nat, events: seq<Event>, maxPaths: int): Net {
    if events == [] then Start(size)
    else Step(Run(size, events[..|events| - 1], maxPaths), events[|events| - 1], maxPaths)
  }

  // ----- what every step keeps -----

  predicate GoodMsg(m: Msg) {
    match m
    case Request(_, srcSeqno, _, _) => GivenNumber(srcSeqno)
    case Reply(_, seqno) => GivenNumber(seqno)
    case Error(lost) => forall d :: d in lost ==> LostNumber(lost[d])
  }

  predicate GoodTable(t: Table, maxPaths: int) {
    forall d :: d in t ==> Good(t[d], maxPaths)
  }

  predicate GoodNode(n: Node, maxPaths: int) {
    GivenNumber(n.own) && GoodTable(n.table, maxPaths)
  }

  ghost predicate Inv(net: Net, maxPaths: int) {
    && (forall i :: 0 <= i < |net.nodes| ==> GoodNode(net.nodes[i], maxPaths))
    && (forall m :: m in net.flight ==> GoodMsg(m))
  }

  lemma FailAllKeeps(t: Table, id: Addr, maxPaths: int)
    requires GoodTable(t, maxPaths)
    ensures GoodTable(FailAll(t, id), maxPaths)
  {
    forall d | d in t
      ensures Good(Failed(t[d], id), maxPaths)
    {
      FailedKeeps(t[d], id, maxPaths);
    }
  }

  lemma PurgeAllKeeps(t: Table, now: real, due: set<Addr>, maxPaths: int)
    requires GoodTable(t, maxPaths)
    ensures GoodTable(PurgeAll(t, now, due), maxPaths)
  {
    forall d | d in t
      ensures Good(Purged(t[d], now, d in due), maxPaths)
    {
      PurgedKeeps(t[d], now, d in due, maxPaths);
    }
  }

  lemma ReportAllKeeps(t: Table, from: Addr, lost: map<Addr, nat>, maxPaths: int)
    requires GoodTable(t, maxPaths) && GoodMsg(Error(lost))
    ensures GoodTable(ReportAll(t, from, lost), maxPaths)
  {
    forall d | d in t && d in lost
      ensures Good(Reported(t[d], from, lost[d]), maxPaths)
    {
      ReportedKeeps(t[d], from, lost[d], maxPaths);
    }
  }

  /** The numbers announced as lost are numbers of entries that are down. */
  lemma AnnouncedKeeps(n: Node, after: Table, maxPaths: int)
    requires GoodNode(n, maxPaths) && GoodTable(after, maxPaths)
    ensures GoodNode(Announced(n, after).0, maxPaths)
    ensures forall m :: m in Announced(n, after).1 ==> GoodMsg(m)
  {
  }

  lemma RecvRequestKeeps(n: Node, self: Addr, m: Msg, o: Offer, goesOn: bool, maxPaths: int)
    requires maxPaths >= 1 && GoodNode(n, maxPaths) && m.Request? && GoodMsg(m) && o.seqno == m.srcSeqno
    ensures var (n', out) := RecvRequestAt(n, self, m, o, goesOn, maxPaths);
      GoodNode(n', maxPaths) && forall m' :: m' in out ==> GoodMsg(m')
  {
    LearnedKeeps(At(n.table, m.src), o, maxPaths);
  }

  lemma HandleKeeps(n: Node, self: Addr, e: Event, maxPaths: int)
    requires maxPaths >= 1 && GoodNode(n, maxPaths) && forall m :: m in MsgOf(e) ==> GoodMsg(m)
    ensures GoodNode(Handle(n, self, e, maxPaths).0, maxPaths)
    ensures forall m :: m in Handle(n, self, e, maxPaths).1 ==> GoodMsg(m)
  {
    match e
    case SendRequest(_, d) =>
    case SendHello(_) =>
    case RecvRequest(_, m, path, shorter, alike, goesOn) =>
      assert m in MsgOf(e);
      if m.Request? {
        RecvRequestKeeps(n, self, m, Offer(m.srcSeqno, path, shorter, alike), goesOn, maxPaths);
      }
    case RecvReply(_, m, path, shorter, alike) =>
      assert m in MsgOf(e);
      if m.Reply? {
        LearnedKeeps(At(n.table, m.dst), Offer(m.seqno, path, shorter, alike), maxPaths);
      }
    case RecvError(_, m, from) =>
      assert m in MsgOf(e);
      if m.Error? {
        ReportAllKeeps(n.table, from, m.lost, maxPaths);
        AnnouncedKeeps(n, ReportAll(n.table, from, m.lost), maxPaths);
      }
    case LinkFailure(_, id) =>
      FailAllKeeps(n.table, id, maxPaths);
      AnnouncedKeeps(n.(own := n.own + 2), FailAll(n.table, id), maxPaths);
    case Purge(_, now, due) =>
      PurgeAllKeeps(n.table, now, due, maxPaths);
    case NoRoute(_, d) =>
    case Uses(_, d) =>
  }

  ghost predicate Announces(out: set<Msg>, d: Addr) {
    exists m :: m in out && m.Error? && d in m.lost
  }

  /** Exactly the routes that went down with upstream nodes to tell are announced, once, with their new number. */
  lemma AnnouncedIsExact(n: Node, after: Table, d: Addr)
    requires after.Keys == n.table.Keys && d in after
    ensures var (n', out) := Announced(n, after); var told := n.table[d].up && !after[d].up && n.table[d].error;
      && n'.own == n.own && n'.table.Keys == after.Keys && |out| <= 1
      && n'.table[d] == (if told then after[d].(error := false) else after[d])
      && (Announces(out, d) <==> told)
      && (forall m :: m in out ==> m.Error? && (told ==> d in m.lost && m.lost[d] == after[d].seqno))
  {
    var lost, out := LostRoutes(n.table, after), Announced(n, after).1;
    if d in lost {
      assert Error(lost) in out;
    }
  }

  /** What becomes of the entry e of d, and of the announcement, when `rest` are the paths left and the entry is lost
      with this number, or not lost. */
  ghost predicate LeftWith(e: Entry, n': Node, out: set<Msg>, d: Addr, rest: seq<Path>, lost: bool, seqno: nat) {
    && |out| <= 1 && d in n'.table && n'.table[d].paths == rest
    && (n'.table[d].up <==> e.up && !lost) && n'.table[d].seqno == (if lost then seqno else e.seqno)
    && (Announces(out, d) <==> lost && e.error)
    && (forall m :: m in out ==> m.Error? && (lost && e.error ==> d in m.lost && m.lost[d] == seqno))
  }

  lemma AnnouncedLeaves(n: Node, after: Table, d: Addr, r: (Node, set<Msg>), lost: bool)
    requires after.Keys == n.table.Keys && d in after && r == Announced(n, after)
    requires (after[d].up <==> n.table[d].up && !lost) && (lost ==> n.table[d].up)
    requires !lost ==> after[d].seqno == n.table[d].seqno
    ensures LeftWith(n.table[d], r.0, r.1, d, after[d].paths, lost, after[d].seqno) && r.0.own == n.own
  {
    AnnouncedIsExact(n, after, d);
  }

  /** A lost link, for every destination in the table: exactly the paths over it go; exactly the routes left without one
      go down, and of these exactly the ones with upstream nodes to tell are announced, with their new
      number. The own number rises by 2. */
  lemma LinkFailureIsExact(n: Node, self: Addr, k: nat, id: Addr, d: Addr, maxPaths: int)
    requires GoodNode(n, maxPaths) && d in n.table
    ensures var (n', out) := Handle(n, self, LinkFailure(k, id), maxPaths);
      var e, rest := n.table[d], NotThrough(n.table[d].paths, id);
      n'.own == n.own + 2 && LeftWith(e, n', out, d, rest, e.up && rest == [], Max(e.seqno + 1, e.highest))
  {
    var n0, after, e := n.(own := n.own + 2), FailAll(n.table, id), n.table[d];
    FailedIsExact(e, id, maxPaths);
    assert after.Keys == n.table.Keys && after[d] == Failed(e, id);
    AnnouncedLeaves(n0, after, d, Handle(n, self, LinkFailure(k, id), maxPaths), e.up && after[d].paths == []);
  }

  /** An error does the same to the paths through its sender for the destinations it names, when its number is recent
      enough, and leaves the others. */
  lemma ErrorIsExact(n: Node, self: Addr, k: nat, m: Msg, from: Addr, d: Addr, maxPaths: int)
    requires GoodNode(n, maxPaths) && m.Error? && d in n.table
    ensures var (n', out) := Handle(n, self, RecvError(k, m, from), maxPaths);
      var e := n.table[d];
      var told := d in m.lost && e.up && e.seqno <= m.lost[d];
      var rest := if told then NotThrough(e.paths, from) else e.paths;
      n'.own == n.own && LeftWith(e, n', out, d, rest, told && rest == [],
                                  if told then Max(e.highest, m.lost[d]) else e.seqno)
  {
    var after, e := ReportAll(n.table, from, m.lost), n.table[d];
    if d in m.lost {
      ReportedIsExact(e, from, m.lost[d], maxPaths);
    }
    assert after.Keys == n.table.Keys;
    AnnouncedLeaves(n, after, d, Handle(n, self, RecvError(k, m, from), maxPaths), e.up && after[d].paths == []);
  }

  /** A request that goes on is answered by its destination, with its own number, made larger than the one asked for if
      it is less, and even; by another node exactly if it has an up route with at least the number asked
      for; and relayed otherwise with the larger of the two numbers. */
  lemma RequestAnsweredIff(n: Node, self: Addr, m: Msg, o: Offer, maxPaths: int)
    requires m.Request? && m.src != self
    ensures var (n', out) := RecvRequestAt(n, self, m, o, true, maxPaths); var e := At(n'.table, m.dst);
      if m.dst == self then
        && out == {Reply(self, n'.own)} && n'.own % 2 == 0
        && (if n.own < m.dstSeqno then m.dstSeqno < n'.own <= m.dstSeqno + 2 else n.own <= n'.own <= n.own + 1)
      else
        && n'.own == n.own
        && out == if e.up && e.seqno >= m.dstSeqno then {Reply(m.dst, e.seqno)}
                  else {Request(m.src, m.srcSeqno, m.dst, Max(e.seqno, m.dstSeqno))}
  {
  }

  /** Whether a request goes on or ends here, its offer is brought to the entry of its source, and to no other. */
  lemma RequestIsLearned(n: Node, self: Addr, m: Msg, o: Offer, goesOn: bool, maxPaths: int, d: Addr)
    requires m.Request? && m.src != self
    ensures var (n', out) := RecvRequestAt(n, self, m, o, goesOn, maxPaths);
      && At(n'.table, d) == (if d == m.src then Learned(At(n.table, d), o, maxPaths) else At(n.table, d))
      && (!goesOn ==> out == {} && n'.own == n.own)
  {
  }

  /** Of one's own requests and errors, what the messages say: a request carries the next own number and the last number
      known; an error about a destination without an up route its number; a route in use is marked, so
      that its loss is announced. */
  lemma OwnMessagesAreExact(n: Node, self: Addr, k: nat, d: Addr, maxPaths: int)
    ensures var (n', out) := Handle(n, self, SendRequest(k, d), maxPaths);
      && out == {Request(self, n'.own, d, At(n.table, d).seqno)} && n'.own == n.own + 2
      && At(n'.table, d) == At(n.table, d)
    ensures var (n', out) := Handle(n, self, NoRoute(k, d), maxPaths);
      && (Announces(out, d) <==> !At(n.table, d).up) && out <= {Error(map[d := At(n.table, d).seqno])}
      && At(n'.table, d) == At(n.table, d) && n'.own == n.own
    ensures var (n', out) := Handle(n, self, Uses(k, d), maxPaths);
      out == {} && (d in n.table ==> d in n'.table && n'.table[d] == n.table[d].(error := true))
  {
    var out := Handle(n, self, NoRoute(k, d), maxPaths).1;
    if !At(n.table, d).up {
      assert Error(map[d := At(n.table, d).seqno]) in out;
    }
  }

  lemma {:induction false} RunKeepsInv(size: nat, events: seq<Event>, maxPaths: int)
    requires maxPaths >= 1
    ensures Inv(Run(size, events, maxPaths), maxPaths) && |Run(size, events, maxPaths).nodes| == size
  {
    if events != [] {
      var e := events[|events| - 1];
      RunKeepsInv(size, events[..|events| - 1], maxPaths);
      var net := Run(size, events[..|events| - 1], maxPaths);
      if e.n < |net.nodes| && MsgOf(e) <= net.flight {
        HandleKeeps(net.nodes[e.n], e.n, e, maxPaths);
      }
    }
  }

  /** In every reachable state: a route's paths have pairwise distinct next hops and pairwise distinct last hops,
      the counter is the length of the list and at most the maximum, and the route is up exactly when
      there is a path, so that forward always finds one. */
  lemma PathsAreDisjoint(size: nat, events: seq<Event>, maxPaths: int, i: nat, d: Addr)
    requires maxPaths >= 1 && i < size
    ensures |Run(size, events, maxPaths).nodes| == size
    ensures var e := At(Run(size, events, maxPaths).nodes[i].table, d);
      && Disjoint(e.paths)
      && e.num == |e.paths| <= maxPaths
      && (e.up <==> e.paths != [])
      && (e.up <==> GivenNumber(e.seqno))
  {
    RunKeepsInv(size, events, maxPaths);
    assert GoodNode(Run(size, events, maxPaths).nodes[i], maxPaths);
  }

  /** No route has more paths than the maximum. */
  ghost predicate WithinMaximum(net: Net, maxPaths: int) {
    forall i, d :: 0 <= i < |net.nodes| && d in net.nodes[i].table ==> |net.nodes[i].table[d].paths| <= maxPaths
  }

  /** Node 0 says HELLO and node 1 hears it. */
  function FirstPath(p: Path): seq<Event> {
    [SendHello(0), RecvReply(1, Reply(0, 2), p, true, true)]
  }

  /** The first path of a route is inserted without a look at the maximum. */
  lemma FirstPathIsInserted(size: nat, p: Path, maxPaths: int)
    requires size >= 2
    ensures var net := Run(size, FirstPath(p), maxPaths);
      |net.nodes| == size && 0 in net.nodes[1].table && net.nodes[1].table[0].paths == [p]
  {
    var events := FirstPath(p);
    assert events[..1] == [events[0]] && [events[0]][..0] == [];
    var net0 := Start(size);
    assert Run(size, [], maxPaths) == net0;
    var net1 := Step(net0, events[0], maxPaths);
    assert Run(size, [events[0]], maxPaths) == net1;
    assert net1.nodes[1] == Node(2, map[]) && Reply(0, 2) in net1.flight;
    assert Run(size, events, maxPaths) == Step(net1, events[1], maxPaths);
  }

  /** With a neighbour to hear of, every reachable state keeps within the maximum if and only if the maximum is at
      least 1: two events break it otherwise. */
  lemma BoundHoldsIff(size: nat, maxPaths: int)
    requires size >= 2
    ensures (forall events :: WithinMaximum(Run(size, events, maxPaths), maxPaths)) <==> maxPaths >= 1
  {
    if maxPaths >= 1 {
      forall events
        ensures WithinMaximum(Run(size, events, maxPaths), maxPaths)
      {
        RunKeepsInv(size, events, maxPaths);
      }
    } else {
      var p := Path(0, 1, 1, 10.0);
      FirstPathIsInserted(size, p, maxPaths);
      assert !WithinMaximum(Run(size, FirstPath(p), maxPaths), maxPaths);
    }
  }

  /** A message at hand never trips the assert of an insertion site: with the number of the entry, the entry is up. */
  lemma InsertionAssertHolds(size: nat, events: seq<Event>, maxPaths: int, i: nat, m: Msg)
    requires maxPaths >= 1 && i < size && m in Run(size, events, maxPaths).flight && !m.Error?
    ensures |Run(size, events, maxPaths).nodes| == size
    ensures var t := Run(size, events, maxPaths).nodes[i].table;
      if m.Request? then At(t, m.src).seqno == m.srcSeqno ==> At(t, m.src).up
      else At(t, m.dst).seqno == m.seqno ==> At(t, m.dst).up
  {
    RunKeepsInv(size, events, maxPaths);
    assert GoodNode(Run(size, events, maxPaths).nodes[i], maxPaths);
    assert GoodMsg(m);
  }
}
