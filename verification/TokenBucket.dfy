/** The token bucket filter as a timed state machine, and its conformance to (bucket, rate). */
module TokenBucket {

  /** rate in bits a second; bucket in bits; qlen in packets. */
  datatype Params = Params(rate: real, bucket: int, qlen: int)

  predicate Sensible(p: Params) {
    p.rate > 0.0 && p.bucket >= 0
  }

  datatype Sent = Sent(at: real, bytes: nat)

  datatype Timer = Idle | Pending(expiry: real)

  /** `unused` until the first packet; `clock` is the time of the last event; `sent` and `taken` record
      what was forwarded and what was accepted so far. */
  datatype Filter = Filter(unused: bool, tokens: real, last: real, queue: seq<nat>, timer: Timer,
                           clock: real, sent: seq<Sent>, taken: seq<nat>)

  datatype Event = Arrival(at: real, bytes: nat) | Expiry

  function Size(bytes: nat): real {
    (8 * bytes) as real
  }

  const START := Filter(true, 0.0, 0.0, [], Idle, 0.0, [], [])

  // ----- the steps -----

  function Refreshed(p: Params, tokens: real, last: real, now: real): real {
    var t := tokens + (now - last) * p.rate;
    if t > p.bucket as real then p.bucket as real else t
  }

  function Filled(p: Params, f: Filter, now: real): Filter {
    if f.unused then f.(unused := false, tokens := p.bucket as real, last := now) else f
  }

  /** A packet and nothing queued: it leaves at once, or waits for its tokens, or is dropped. */
  function Served(p: Params, g: Filter, t: real, bytes: nat): Filter
    requires Sensible(p)
  {
    var now := g.clock;
    if t >= Size(bytes) then
      g.(tokens := t - Size(bytes), last := now, sent := g.sent + [Sent(now, bytes)], taken := g.taken + [bytes])
    else if p.qlen != 0 then
      g.(tokens := t, last := now, queue := [bytes], taken := g.taken + [bytes],
         timer := Pending(now + (Size(bytes) - t) / p.rate))
    else
      g.(tokens := t, last := now)
  }

  /** A packet arrives: behind others it queues, or is dropped when the queue is full. */
  function Received(p: Params, f: Filter, now: real, bytes: nat): Filter
    requires Sensible(p)
  {
    var g := Filled(p, f, now).(clock := now);
    if g.queue == [] then Served(p, g, Refreshed(p, g.tokens, g.last, now), bytes)
    else if |g.queue| < p.qlen then g.(queue := g.queue + [bytes], taken := g.taken + [bytes])
    else g
  }

  /** The head leaves with t tokens there, unchecked, and the timer is set for the next. */
  function Departed(p: Params, f: Filter, t: real): Filter
    requires Sensible(p) && f.timer.Pending? && f.queue != []
  {
    var now, rest, left := f.timer.expiry, f.queue[1..], t - Size(f.queue[0]);
    f.(tokens := left, last := now, clock := now, queue := rest, sent := f.sent + [Sent(now, f.queue[0])],
       timer := if rest != [] then Pending(now + (Size(rest[0]) - left) / p.rate) else Idle)
  }

  /** The timer expires. */
  function TimedOut(p: Params, f: Filter): Filter
    requires Sensible(p) && f.timer.Pending? && f.queue != []
  {
    Departed(p, f, Refreshed(p, f.tokens, f.last, f.timer.expiry))
  }

  /** Time does not run backwards, nor past a pending timer. */
  predicate Allowed(f: Filter, e: Event) {
    match e
    case Arrival(at, _) => f.clock <= at && (f.timer.Pending? ==> at <= f.timer.expiry)
    case Expiry => f.timer.Pending?
  }

  /** One event; one that cannot happen now is passed over. */
  function Step(p: Params, f: Filter, e: Event): Filter
    requires Sensible(p) && (f.timer.Pending? ==> f.queue != [])
  {
    if !Allowed(f, e) then f
    else
      match e
      case Arrival(at, bytes) => Received(p, f, at, bytes)
      case Expiry => TimedOut(p, f)
  }

  // ----- the ledger: sizes and the credit c = rate * time of the departures -----

  function Sum(s: seq<real>): real {
    if s == [] then 0.0 else Sum(s[..|s| - 1]) + s[|s| - 1]
  }

  lemma SumAppend(s: seq<real>, x: real, i: nat)
    requires i <= |s|
    ensures (s + [x])[i..] == s[i..] + [x] && Sum((s + [x])[i..]) == Sum(s[i..]) + x
  {
    var tail := s[i..] + [x];
    assert (s + [x])[i..] == tail && tail[..|tail| - 1] == s[i..];
  }

  /** What left since any departure, and the tokens left now, came from one full bucket and the credit
      earned since. */
  ghost predicate Ledger(s: seq<real>, c: seq<real>, tokens: real, credit: real, bucket: real) {
    && |s| == |c|
    && (forall i :: 0 <= i < |s| ==> Sum(s[i..]) + tokens + c[i] <= bucket + credit)
  }

  /** The same between any two departures. */
  ghost predicate Bounded(s: seq<real>, c: seq<real>, bucket: real) {
    && |s| == |c|
    && (forall i, j :: 0 <= i <= j < |s| ==> Sum(s[i..j + 1]) + c[i] <= bucket + c[j])
  }

  lemma LedgerSend(s: seq<real>, c: seq<real>, tokens: real, credit: real, bucket: real, x: real)
    requires Ledger(s, c, tokens, credit, bucket) && tokens <= bucket
    ensures Ledger(s + [x], c + [credit], tokens - x, credit, bucket)
  {
    forall i | 0 <= i <= |s|
      ensures Sum((s + [x])[i..]) + (tokens - x) + (c + [credit])[i] <= bucket + credit
    {
      SumAppend(s, x, i);
      assert i == |s| ==> s[i..] == [];
    }
  }

  lemma BoundedSend(s: seq<real>, c: seq<real>, tokens: real, credit: real, bucket: real, x: real)
    requires Ledger(s, c, tokens, credit, bucket) && x <= tokens <= bucket && Bounded(s, c, bucket)
    ensures Bounded(s + [x], c + [credit], bucket)
  {
    LedgerSend(s, c, tokens, credit, bucket, x);
    var s', c' := s + [x], c + [credit];
    forall i, j | 0 <= i <= j < |s'|
      ensures Sum(s'[i..j + 1]) + c'[i] <= bucket + c'[j]
    {
      if j < |s| {
        assert s'[i..j + 1] == s[i..j + 1];
      } else {
        assert s'[i..j + 1] == s'[i..];
      }
    }
  }

  // ----- what every step keeps -----

  function Sizes(sent: seq<Sent>): (s: seq<real>)
    ensures |s| == |sent| && forall k :: 0 <= k < |s| ==> s[k] == Size(sent[k].bytes)
  {
    seq(|sent|, k requires 0 <= k < |sent| => Size(sent[k].bytes))
  }

  function Credit(p: Params, at: real): real {
    at * p.rate
  }

  function Credits(p: Params, sent: seq<Sent>): (c: seq<real>)
    ensures |c| == |sent| && forall k :: 0 <= k < |c| ==> c[k] == Credit(p, sent[k].at)
  {
    seq(|sent|, k requires 0 <= k < |sent| => Credit(p, sent[k].at))
  }

  function Packets(sent: seq<Sent>): (s: seq<nat>)
    ensures |s| == |sent| && forall k :: 0 <= k < |s| ==> s[k] == sent[k].bytes
  {
    seq(|sent|, k requires 0 <= k < |sent| => sent[k].bytes)
  }

  /** No forwarded packet was larger than the bucket. */
  predicate Fits(p: Params, sent: seq<Sent>) {
    forall s :: s in sent ==> Size(s.bytes) <= p.bucket as real
  }

  predicate InOrder(sent: seq<Sent>, now: real) {
    && (forall i :: 0 <= i < |sent| ==> sent[i].at <= now)
    && (forall i, j :: 0 <= i < j < |sent| ==> sent[i].at <= sent[j].at)
  }

  /** What is said of the departures, the tokens and the time they were last brought up to date. */
  ghost predicate Account(p: Params, sent: seq<Sent>, tokens: real, last: real) {
    && tokens <= p.bucket as real
    && InOrder(sent, last)
    && Ledger(Sizes(sent), Credits(p, sent), tokens, Credit(p, last), p.bucket as real)
    && (Fits(p, sent) ==> tokens >= 0.0 && Bounded(Sizes(sent), Credits(p, sent), p.bucket as real))
  }

  /** The timer is set for the moment when the tokens reach the size of the head packet. */
  predicate TimerSet(p: Params, f: Filter) {
    && (f.timer.Pending? <==> f.queue != [])
    && (f.timer.Pending? ==>
          && f.last <= f.clock <= f.timer.expiry && f.tokens <= Size(f.queue[0])
          && Credit(p, f.timer.expiry) == Credit(p, f.last) + Size(f.queue[0]) - f.tokens)
  }

  ghost predicate Inv(p: Params, f: Filter) {
    && (f.unused ==> f.queue == [] && f.sent == [] && f.tokens == 0.0)
    && TimerSet(p, f)
    && (!f.unused ==> f.last <= f.clock && Account(p, f.sent, f.tokens, f.last))
    && f.taken == Packets(f.sent) + f.queue
    && |f.queue| <= (if p.qlen > 1 then p.qlen else 1)
  }

  lemma Earned(p: Params, last: real, now: real)
    requires Sensible(p)
    ensures (now - last) * p.rate == Credit(p, now) - Credit(p, last)
    ensures last <= now ==> Credit(p, last) <= Credit(p, now)
  {
    assert last <= now ==> (now - last) * p.rate >= 0.0;
  }

  lemma CreditGrows(p: Params, x: real, y: real)
    requires Sensible(p) && x <= y
    ensures Credit(p, x) <= Credit(p, y)
  {
    Earned(p, x, y);
  }

  lemma Wait(p: Params, now: real, x: real)
    requires Sensible(p) && x >= 0.0
    ensures now + x / p.rate >= now && Credit(p, now + x / p.rate) == Credit(p, now) + x
  {
    var w := x / p.rate;
    assert w * p.rate == x;
    assert w >= 0.0;
  }

  lemma RefreshKeeps(p: Params, sent: seq<Sent>, tokens: real, last: real, now: real)
    requires Sensible(p) && Account(p, sent, tokens, last) && last <= now
    ensures Account(p, sent, Refreshed(p, tokens, last, now), now)
  {
    Earned(p, last, now);
    var t := Refreshed(p, tokens, last, now);
    assert t <= tokens + (Credit(p, now) - Credit(p, last)) && (tokens >= 0.0 ==> t >= 0.0);
  }

  lemma SentMore(p: Params, sent: seq<Sent>, s: Sent)
    ensures Fits(p, sent + [s]) <==> Fits(p, sent) && Size(s.bytes) <= p.bucket as real
    ensures Packets(sent + [s]) == Packets(sent) + [s.bytes]
    ensures Sizes(sent + [s]) == Sizes(sent) + [Size(s.bytes)]
    ensures Credits(p, sent + [s]) == Credits(p, sent) + [Credit(p, s.at)]
  {
    assert s in sent + [s];
    assert forall t :: t in sent ==> t in sent + [s];
  }

  lemma InOrderSend(sent: seq<Sent>, s: Sent)
    requires InOrder(sent, s.at)
    ensures InOrder(sent + [s], s.at)
  {
  }

  /** The ledger and the bound after a departure of size x, given as the sequences they are about. */
  lemma LedgersSend(s: seq<real>, c: seq<real>, tokens: real, credit: real, bucket: real, x: real, fits: bool)
    requires Ledger(s, c, tokens, credit, bucket) && tokens <= bucket
    requires fits ==> x <= tokens && Bounded(s, c, bucket)
    ensures Ledger(s + [x], c + [credit], tokens - x, credit, bucket)
    ensures fits ==> Bounded(s + [x], c + [credit], bucket)
  {
    LedgerSend(s, c, tokens, credit, bucket, x);
    if fits {
      BoundedSend(s, c, tokens, credit, bucket, x);
    }
  }

  /** A departure at `now`, with tokens brought up to date: enough of them, unless the packet exceeds the bucket. */
  lemma SendKeeps(p: Params, sent: seq<Sent>, tokens: real, now: real, bytes: nat)
    requires Sensible(p) && Account(p, sent, tokens, now)
    requires Size(bytes) <= p.bucket as real ==> tokens >= Size(bytes)
    ensures Account(p, sent + [Sent(now, bytes)], tokens - Size(bytes), now)
  {
    var fits := Fits(p, sent) && Size(bytes) <= p.bucket as real;
    LedgersSend(Sizes(sent), Credits(p, sent), tokens, Credit(p, now), p.bucket as real, Size(bytes), fits);
    SentMore(p, sent, Sent(now, bytes));
    InOrderSend(sent, Sent(now, bytes));
  }

  lemma FillKeeps(p: Params, f: Filter, now: real)
    requires Sensible(p) && Inv(p, f) && f.clock <= now && (f.timer.Pending? ==> now <= f.timer.expiry)
    ensures Inv(p, Filled(p, f, now).(clock := now))
  {
  }

  lemma ServeKeeps(p: Params, g: Filter, t: real, bytes: nat)
    requires Sensible(p) && Inv(p, g) && !g.unused && g.queue == [] && Account(p, g.sent, t, g.clock)
    ensures Inv(p, Served(p, g, t, bytes))
  {
    var now := g.clock;
    if t >= Size(bytes) {
      SendKeeps(p, g.sent, t, now, bytes);
      SentMore(p, g.sent, Sent(now, bytes));
    } else {
      Wait(p, now, Size(bytes) - t);
    }
  }

  lemma ReceiveKeeps(p: Params, f: Filter, now: real, bytes: nat)
    requires Sensible(p) && Inv(p, f) && Allowed(f, Arrival(now, bytes))
    ensures Inv(p, Received(p, f, now, bytes))
  {
    FillKeeps(p, f, now);
    var g := Filled(p, f, now).(clock := now);
    if g.queue == [] {
      RefreshKeeps(p, g.sent, g.tokens, g.last, now);
      ServeKeeps(p, g, Refreshed(p, g.tokens, g.last, now), bytes);
    }
  }

  /** When the timer expires the tokens are exactly the size of the head packet, or the whole bucket when
      that is less: a packet that fits the bucket leaves with just its tokens there, and none remain. */
  lemma TokensAtExpiry(p: Params, f: Filter)
    requires Sensible(p) && Inv(p, f) && f.timer.Pending?
    ensures var size := Size(f.queue[0]);
      && f.last <= f.timer.expiry
      && Refreshed(p, f.tokens, f.last, f.timer.expiry) == (if size <= p.bucket as real then size else p.bucket as real)
  {
    Earned(p, f.last, f.timer.expiry);
  }

  /** A waiting head leaves at the first moment its tokens are there: at any earlier time they fall short. */
  lemma DepartsAtTheEarliest(p: Params, f: Filter, t: real)
    requires Sensible(p) && Inv(p, f) && f.timer.Pending? && f.last <= t < f.timer.expiry
    ensures Refreshed(p, f.tokens, f.last, t) < Size(f.queue[0])
  {
    StillShort(p, f.tokens, f.last, t, f.timer.expiry, Size(f.queue[0]), Credit(p, f.last), Credit(p, f.timer.expiry));
  }

  lemma StillShort(p: Params, tokens: real, last: real, t: real, now: real, size: real, before: real, after: real)
    requires Sensible(p) && last <= t < now && before == Credit(p, last) && after == Credit(p, now)
    requires after == before + size - tokens
    ensures Refreshed(p, tokens, last, t) < size
  {
    EarnedMore(p, last, t, now, before, after);
    RefreshedIs(p, tokens, last, t, (t - last) * p.rate);
  }

  lemma RefreshedIs(p: Params, tokens: real, last: real, t: real, earned: real)
    requires earned == (t - last) * p.rate
    ensures Refreshed(p, tokens, last, t) <= tokens + earned
  {
  }

  lemma EarnedMore(p: Params, last: real, t: real, now: real, before: real, after: real)
    requires Sensible(p) && last <= t < now && before == Credit(p, last) && after == Credit(p, now)
    ensures (t - last) * p.rate < after - before
  {
    Positive(now - t, p.rate);
    assert (now - last) * p.rate == (t - last) * p.rate + (now - t) * p.rate;
    Earned(p, last, now);
  }

  lemma Positive(x: real, y: real)
    requires x > 0.0 && y > 0.0
    ensures x * y > 0.0
  {
  }

  /** The tokens a packet finds: a full bucket for the first one. */
  function Available(p: Params, f: Filter, now: real): real {
    if f.unused then p.bucket as real else Refreshed(p, f.tokens, f.last, now)
  }

  /** What becomes of an arrival: it leaves at once exactly when nothing waits and its tokens are there; it waits
      exactly when it may not leave and there is room; otherwise it is dropped. */
  lemma ArrivalFate(p: Params, f: Filter, now: real, bytes: nat)
    requires Sensible(p) && Inv(p, f) && Allowed(f, Arrival(now, bytes))
    ensures var g, there := Received(p, f, now, bytes), Available(p, f, now) >= Size(bytes);
      && (g.sent == f.sent + [Sent(now, bytes)] <==> f.queue == [] && there)
      && (g.queue == f.queue + [bytes] <==> if f.queue == [] then !there && p.qlen != 0 else |f.queue| < p.qlen)
      && (g.taken == f.taken <==> if f.queue == [] then !there && p.qlen == 0 else |f.queue| >= p.qlen)
  {
    FillKeeps(p, f, now);
    assert (now - now) * p.rate == 0.0;
  }

  lemma DepartTimer(p: Params, f: Filter, t: real)
    requires Sensible(p) && f.timer.Pending? && f.queue != [] && t <= Size(f.queue[0])
    ensures TimerSet(p, Departed(p, f, t))
  {
    var now, rest, left := f.timer.expiry, f.queue[1..], t - Size(f.queue[0]);
    if rest != [] {
      Wait(p, now, Size(rest[0]) - left);
    }
  }

  lemma DepartAccount(p: Params, f: Filter, t: real)
    requires Sensible(p) && f.timer.Pending? && f.queue != [] && Account(p, f.sent, t, f.timer.expiry)
    requires Size(f.queue[0]) <= p.bucket as real ==> t >= Size(f.queue[0])
    ensures var g := Departed(p, f, t); Account(p, g.sent, g.tokens, g.last)
  {
    SendKeeps(p, f.sent, t, f.timer.expiry, f.queue[0]);
  }

  lemma DepartTaken(p: Params, sent: seq<Sent>, queue: seq<nat>, at: real)
    requires queue != []
    ensures Packets(sent) + queue == Packets(sent + [Sent(at, queue[0])]) + queue[1..]
  {
    SentMore(p, sent, Sent(at, queue[0]));
    assert queue == [queue[0]] + queue[1..];
  }

  lemma TimeoutKeeps(p: Params, f: Filter)
    requires Sensible(p) && Inv(p, f) && f.timer.Pending?
    ensures Inv(p, TimedOut(p, f))
  {
    TokensAtExpiry(p, f);
    RefreshKeeps(p, f.sent, f.tokens, f.last, f.timer.expiry);
    var t := Refreshed(p, f.tokens, f.last, f.timer.expiry);
    DepartTimer(p, f, t);
    DepartAccount(p, f, t);
    DepartTaken(p, f.sent, f.queue, f.timer.expiry);
  }

  // ----- whole runs -----

  /** The filter after these events. */
  ghost function Run(p: Params, events: seq<Event>): (f: Filter)
    requires Sensible(p)
    ensures Inv(p, f)
  {
    if events == [] then START
    else
      var f, e := Run(p, events[..|events| - 1]), events[|events| - 1];
      StepKeeps(p, f, e);
      Step(p, f, e)
  }

  lemma StepKeeps(p: Params, f: Filter, e: Event)
    requires Sensible(p) && Inv(p, f)
    ensures Inv(p, Step(p, f, e))
  {
    if Allowed(f, e) {
      match e
      case Arrival(at, bytes) => ReceiveKeeps(p, f, at, bytes);
      case Expiry => TimeoutKeeps(p, f);
    }
  }

  /** The bits forwarded in the interval from a to b. */
  function BitsIn(sent: seq<Sent>, a: real, b: real): real {
    if sent == [] then 0.0
    else
      var s := sent[|sent| - 1];
      BitsIn(sent[..|sent| - 1], a, b) + if a <= s.at <= b then Size(s.bytes) else 0.0
  }

  /** In every interval at most a bucket, and the rate over its length. */
  ghost predicate Conforms(p: Params, sent: seq<Sent>) {
    forall a, b :: a <= b ==> BitsIn(sent, a, b) <= p.bucket as real + (b - a) * p.rate
  }

  /** The departures of an interval that reaches to the end are the last ones. */
  lemma {:induction false} TailIn(sent: seq<Sent>, a: real, b: real) returns (i: nat)
    requires InOrder(sent, b)
    ensures i <= |sent| && BitsIn(sent, a, b) == Sum(Sizes(sent)[i..]) && (i < |sent| ==> a <= sent[i].at)
  {
    if sent == [] {
      i := 0;
    } else {
      var pre, s := sent[..|sent| - 1], sent[|sent| - 1];
      if s.at < a {
        NoneIn(pre, a, b);
        i := |sent|;
      } else {
        i := TailIn(pre, a, b);
        assert Sizes(sent) == Sizes(pre) + [Size(s.bytes)];
        SumAppend(Sizes(pre), Size(s.bytes), i);
      }
    }
  }

  lemma {:induction false} NoneIn(sent: seq<Sent>, a: real, b: real)
    requires forall i :: 0 <= i < |sent| ==> sent[i].at < a
    ensures BitsIn(sent, a, b) == 0.0
  {
    if sent != [] {
      NoneIn(sent[..|sent| - 1], a, b);
    }
  }

  lemma BoundedInit(s: seq<real>, c: seq<real>, bucket: real)
    requires Bounded(s, c, bucket) && s != []
    ensures Bounded(s[..|s| - 1], c[..|c| - 1], bucket)
  {
    var n := |s| - 1;
    forall i, j | 0 <= i <= j < n
      ensures Sum(s[..n][i..j + 1]) + c[..n][i] <= bucket + c[..n][j]
    {
      assert s[..n][i..j + 1] == s[i..j + 1];
    }
  }

  /** In order, and bounded between any two departures. */
  ghost predicate Paced(p: Params, sent: seq<Sent>) {
    && Bounded(Sizes(sent), Credits(p, sent), p.bucket as real)
    && (forall i, j :: 0 <= i < j < |sent| ==> sent[i].at <= sent[j].at)
  }

  lemma PacedInit(p: Params, sent: seq<Sent>)
    requires Paced(p, sent) && sent != []
    ensures Paced(p, sent[..|sent| - 1])
  {
    var n, s, c := |sent| - 1, Sizes(sent), Credits(p, sent);
    assert Sizes(sent[..n]) == s[..n] && Credits(p, sent[..n]) == c[..n];
    BoundedInit(s, c, p.bucket as real);
  }

  lemma {:induction false} BoundedConforms(p: Params, sent: seq<Sent>, a: real, b: real)
    requires Sensible(p) && Paced(p, sent) && a <= b
    ensures BitsIn(sent, a, b) <= p.bucket as real + (Credit(p, b) - Credit(p, a))
  {
    Earned(p, a, b);
    if sent == [] {
    } else if sent[|sent| - 1].at > b {
      PacedInit(p, sent);
      BoundedConforms(p, sent[..|sent| - 1], a, b);
    } else {
      BoundedTail(p, sent, a, b);
    }
  }

  lemma BoundedTail(p: Params, sent: seq<Sent>, a: real, b: real)
    requires Sensible(p) && Paced(p, sent) && a <= b && sent != [] && sent[|sent| - 1].at <= b
    ensures BitsIn(sent, a, b) <= p.bucket as real + (Credit(p, b) - Credit(p, a))
  {
    var n := |sent| - 1;
    assert InOrder(sent, b);
    var i := TailIn(sent, a, b);
    CreditGrows(p, a, b);
    if i <= n {
      LastSums(Sizes(sent), Credits(p, sent), p.bucket as real, i);
      CreditGrows(p, a, sent[i].at);
      CreditGrows(p, sent[n].at, b);
    }
  }

  lemma LastSums(s: seq<real>, c: seq<real>, bucket: real, i: nat)
    requires Bounded(s, c, bucket) && i < |s|
    ensures Sum(s[i..]) + c[i] <= bucket + c[|c| - 1]
  {
    assert s[i..] == s[i..|s| - 1 + 1];
  }

  lemma {:induction false} OneIn(sent: seq<Sent>, s: Sent)
    requires s in sent
    ensures BitsIn(sent, s.at, s.at) >= Size(s.bytes)
  {
    var pre := sent[..|sent| - 1];
    assert sent == pre + [sent[|sent| - 1]];
    if s in pre {
      OneIn(pre, s);
    } else {
      NotNegative(pre, s.at, s.at);
    }
  }

  lemma {:induction false} NotNegative(sent: seq<Sent>, a: real, b: real)
    ensures BitsIn(sent, a, b) >= 0.0
  {
    if sent != [] {
      NotNegative(sent[..|sent| - 1], a, b);
    }
  }

  lemma FitsConforms(p: Params, f: Filter)
    requires Sensible(p) && Inv(p, f) && Fits(p, f.sent)
    ensures Conforms(p, f.sent)
  {
    forall a, b | a <= b
      ensures BitsIn(f.sent, a, b) <= p.bucket as real + (b - a) * p.rate
    {
      if f.sent != [] {
        BoundedConforms(p, f.sent, a, b);
      }
      Earned(p, a, b);
    }
  }

  lemma OversizeViolates(p: Params, sent: seq<Sent>, s: Sent)
    requires s in sent && Size(s.bytes) > p.bucket as real
    ensures !Conforms(p, sent)
  {
    OneIn(sent, s);
    var a := s.at;
    assert BitsIn(sent, a, a) > p.bucket as real + (a - a) * p.rate;
  }

  /** Every run conforms to (bucket, rate) exactly when no packet it forwarded was larger than the bucket. */
  lemma ConformsIff(p: Params, events: seq<Event>)
    requires Sensible(p)
    ensures Conforms(p, Run(p, events).sent) <==> Fits(p, Run(p, events).sent)
  {
    var f := Run(p, events);
    if Fits(p, f.sent) {
      FitsConforms(p, f);
    } else {
      var s :| s in f.sent && Size(s.bytes) > p.bucket as real;
      OversizeViolates(p, f.sent, s);
    }
  }

  predicate AllFit(p: Params, packets: seq<nat>) {
    forall k :: 0 <= k < |packets| ==> Size(packets[k]) <= p.bucket as real
  }

  /** In every run with packets no larger than the bucket: it conforms, the tokens stay within the
      bucket, and the accepted packets leave in their order, none lost. */
  lemma RunOfFittingPackets(p: Params, events: seq<Event>)
    requires Sensible(p)
    requires forall e :: e in events && e.Arrival? ==> Size(e.bytes) <= p.bucket as real
    ensures var f := Run(p, events);
      && Conforms(p, f.sent)
      && 0.0 <= f.tokens <= p.bucket as real
      && f.taken == Packets(f.sent) + f.queue
  {
    var f := Run(p, events);
    TakenFits(p, events);
    forall s | s in f.sent
      ensures Size(s.bytes) <= p.bucket as real
    {
      var k :| 0 <= k < |f.sent| && f.sent[k] == s;
      assert f.taken[k] == s.bytes;
    }
    FitsConforms(p, f);
  }

  lemma {:induction false} TakenFits(p: Params, events: seq<Event>)
    requires Sensible(p)
    requires forall e :: e in events && e.Arrival? ==> Size(e.bytes) <= p.bucket as real
    ensures AllFit(p, Run(p, events).taken)
  {
    if events != [] {
      var pre, e := events[..|events| - 1], events[|events| - 1];
      assert e in events && forall d :: d in pre ==> d in events;
      TakenFits(p, pre);
      TakenGrows(p, Run(p, pre), e);
    }
  }

  lemma TakenGrows(p: Params, f: Filter, e: Event)
    requires Sensible(p) && (f.timer.Pending? ==> f.queue != [])
    ensures Step(p, f, e).taken == f.taken || (e.Arrival? && Step(p, f, e).taken == f.taken + [e.bytes])
  {
  }

  // ----- no token is lost -----

  /** Since departure i, |s| for none, every token that was earned is there or was spent on a departure. */
  ghost predicate TightSince(s: seq<real>, c: seq<real>, tokens: real, credit: real, bucket: real, i: nat) {
    i <= |s| == |c| && if i == |s| then tokens == bucket else Sum(s[i..]) + tokens + c[i] == bucket + credit
  }

  lemma TightSend(s: seq<real>, c: seq<real>, tokens: real, credit: real, bucket: real, x: real, i: nat)
    requires TightSince(s, c, tokens, credit, bucket, i)
    ensures TightSince(s + [x], c + [credit], tokens - x, credit, bucket, i)
  {
    SumAppend(s, x, i);
    if i == |s| {
      assert s[i..] == [] && Sum(s[i..]) == 0.0;
    }
  }

  /** The bucket was full when the tokens were last counted, or since departure i none was lost. */
  ghost predicate TightFilter(p: Params, sent: seq<Sent>, tokens: real, last: real, i: nat) {
    TightSince(Sizes(sent), Credits(p, sent), tokens, Credit(p, last), p.bucket as real, i)
  }

  lemma TightRefreshed(p: Params, sent: seq<Sent>, tokens: real, last: real, now: real, i: nat) returns (j: nat)
    requires Sensible(p) && TightFilter(p, sent, tokens, last, i) && tokens <= p.bucket as real && last <= now
    ensures TightFilter(p, sent, Refreshed(p, tokens, last, now), now, j)
  {
    Earned(p, last, now);
    var t := Refreshed(p, tokens, last, now);
    j := if t == p.bucket as real then |sent| else i;
  }

  lemma TightSent(p: Params, sent: seq<Sent>, tokens: real, now: real, bytes: nat, i: nat)
    requires TightFilter(p, sent, tokens, now, i)
    ensures TightFilter(p, sent + [Sent(now, bytes)], tokens - Size(bytes), now, i)
  {
    SentMore(p, sent, Sent(now, bytes));
    TightSend(Sizes(sent), Credits(p, sent), tokens, Credit(p, now), p.bucket as real, Size(bytes), i);
  }

  lemma TightServed(p: Params, g: Filter, t: real, bytes: nat, i: nat)
    requires Sensible(p) && TightFilter(p, g.sent, t, g.clock, i)
    ensures var f := Served(p, g, t, bytes); TightFilter(p, f.sent, f.tokens, f.last, i)
  {
    if t >= Size(bytes) {
      TightSent(p, g.sent, t, g.clock, bytes, i);
    }
  }

  lemma TightReceived(p: Params, f: Filter, now: real, bytes: nat, i: nat) returns (j: nat)
    requires Sensible(p) && Inv(p, f) && Allowed(f, Arrival(now, bytes))
    requires f.unused || TightFilter(p, f.sent, f.tokens, f.last, i)
    ensures var g := Received(p, f, now, bytes); TightFilter(p, g.sent, g.tokens, g.last, j)
  {
    FillKeeps(p, f, now);
    var g := Filled(p, f, now).(clock := now);
    j := if f.unused then 0 else i;
    if g.queue == [] {
      j := TightRefreshed(p, g.sent, g.tokens, g.last, now, j);
      TightServed(p, g, Refreshed(p, g.tokens, g.last, now), bytes, j);
    }
  }

  lemma TightTimedOut(p: Params, f: Filter, i: nat) returns (j: nat)
    requires Sensible(p) && Inv(p, f) && f.timer.Pending? && TightFilter(p, f.sent, f.tokens, f.last, i)
    ensures var g := TimedOut(p, f); TightFilter(p, g.sent, g.tokens, g.last, j)
  {
    j := TightRefreshed(p, f.sent, f.tokens, f.last, f.timer.expiry, i);
    TightSent(p, f.sent, Refreshed(p, f.tokens, f.last, f.timer.expiry), f.timer.expiry, f.queue[0], j);
  }

  lemma {:induction false} RunIsTight(p: Params, events: seq<Event>) returns (i: nat)
    requires Sensible(p)
    ensures var f := Run(p, events); f.unused || TightFilter(p, f.sent, f.tokens, f.last, i)
  {
    i := 0;
    if events != [] {
      var f, e := Run(p, events[..|events| - 1]), events[|events| - 1];
      i := RunIsTight(p, events[..|events| - 1]);
      if Allowed(f, e) {
        match e
        case Arrival(at, bytes) => i := TightReceived(p, f, at, bytes, i);
        case Expiry => i := TightTimedOut(p, f, i);
      }
    }
  }

  /** Whether x more bits at time `now` would keep every interval that ends now within (bucket, rate). */
  ghost predicate Affords(p: Params, sent: seq<Sent>, now: real, x: real) {
    forall a :: a <= now ==> AffordsSince(p, sent, now, x, a)
  }

  predicate AffordsSince(p: Params, sent: seq<Sent>, now: real, x: real, a: real) {
    BitsIn(sent, a, now) + x <= p.bucket as real + (now - a) * p.rate
  }

  /** The departures from departure i on are in an interval that holds their times. */
  lemma {:induction false} SinceIn(sent: seq<Sent>, a: real, now: real, i: nat)
    requires i <= |sent| && forall k :: i <= k < |sent| ==> a <= sent[k].at <= now
    ensures BitsIn(sent, a, now) >= Sum(Sizes(sent)[i..])
  {
    if i == |sent| {
      assert Sizes(sent)[i..] == [];
      NotNegative(sent, a, now);
    } else {
      var pre, s := sent[..|sent| - 1], sent[|sent| - 1];
      SinceIn(pre, a, now, i);
      assert Sizes(sent) == Sizes(pre) + [Size(s.bytes)];
      SumAppend(Sizes(pre), Size(s.bytes), i);
    }
  }

  lemma AffordsIs(p: Params, sent: seq<Sent>, now: real, x: real, a: real)
    requires Sensible(p)
    ensures AffordsSince(p, sent, now, x, a) <==>
              BitsIn(sent, a, now) + x <= p.bucket as real + (Credit(p, now) - Credit(p, a))
  {
    Earned(p, a, now);
  }

  /** What is covered keeps to (bucket, rate) since any time. */
  lemma CoveredSince(p: Params, sent: seq<Sent>, t: real, now: real, x: real, a: real)
    requires Sensible(p) && Account(p, sent, t, now) && t >= x && a <= now
    ensures AffordsSince(p, sent, now, x, a)
  {
    var j := TailIn(sent, a, now);
    AffordsIs(p, sent, now, x, a);
    CreditGrows(p, a, now);
    if j < |sent| {
      CreditGrows(p, a, sent[j].at);
    } else {
      assert Sizes(sent)[j..] == [];
    }
  }

  /** What is not covered breaks it since some time. */
  lemma BreaksSince(p: Params, sent: seq<Sent>, t: real, now: real, x: real, i: nat) returns (a: real)
    requires Sensible(p) && InOrder(sent, now) && TightFilter(p, sent, t, now, i) && t < x
    ensures a <= now && !AffordsSince(p, sent, now, x, a)
  {
    a := if i == |sent| then now else sent[i].at;
    SinceIn(sent, a, now, i);
    AffordsIs(p, sent, now, x, a);
    if i == |sent| {
      assert Sizes(sent)[i..] == [];
    }
  }

  /** With t tokens there, a packet of x bits is covered exactly if it keeps to (bucket, rate). */
  lemma CoveredIffAffords(p: Params, sent: seq<Sent>, t: real, now: real, x: real, i: nat)
    requires Sensible(p) && Account(p, sent, t, now) && TightFilter(p, sent, t, now, i)
    ensures t >= x <==> Affords(p, sent, now, x)
  {
    if t >= x {
      forall a | a <= now
        ensures AffordsSince(p, sent, now, x, a)
      {
        CoveredSince(p, sent, t, now, x, a);
      }
    } else {
      var a := BreaksSince(p, sent, t, now, x, i);
    }
  }

  lemma ServedSends(p: Params, g: Filter, t: real, bytes: nat)
    requires Sensible(p)
    ensures Served(p, g, t, bytes).sent == g.sent + [Sent(g.clock, bytes)] <==> t >= Size(bytes)
  {
  }

  lemma ServedIffAffords(p: Params, g: Filter, bytes: nat, i: nat)
    requires Sensible(p) && Inv(p, g) && !g.unused && g.last <= g.clock
    requires TightFilter(p, g.sent, g.tokens, g.last, i)
    ensures var t := Refreshed(p, g.tokens, g.last, g.clock);
      Served(p, g, t, bytes).sent == g.sent + [Sent(g.clock, bytes)] <==> Affords(p, g.sent, g.clock, Size(bytes))
  {
    var t := Refreshed(p, g.tokens, g.last, g.clock);
    var j := TightRefreshed(p, g.sent, g.tokens, g.last, g.clock, i);
    RefreshKeeps(p, g.sent, g.tokens, g.last, g.clock);
    CoveredIffAffords(p, g.sent, t, g.clock, Size(bytes), j);
    ServedSends(p, g, t, bytes);
  }

  lemma FilledTight(p: Params, f: Filter, now: real, i: nat) returns (j: nat)
    requires Sensible(p) && Inv(p, f) && (f.unused || TightFilter(p, f.sent, f.tokens, f.last, i))
    ensures var g := Filled(p, f, now); g.sent == f.sent && !g.unused && TightFilter(p, g.sent, g.tokens, g.last, j)
  {
    j := if f.unused then 0 else i;
  }

  /** In every run, with packets of any size: a packet that finds nothing waiting leaves at once if and only if all that
      has left and the packet itself keep to (bucket, rate). So the filter holds back or drops only what
      would break it. */
  lemma LeavesAtOnceIff(p: Params, events: seq<Event>, now: real, bytes: nat)
    requires Sensible(p)
    requires var f := Run(p, events); Allowed(f, Arrival(now, bytes)) && f.queue == []
    ensures var f := Run(p, events); var g := Step(p, f, Arrival(now, bytes));
      g.sent == f.sent + [Sent(now, bytes)] <==> Affords(p, f.sent, now, Size(bytes))
  {
    var f := Run(p, events);
    var i := RunIsTight(p, events);
    ReceivedIffAffords(p, f, now, bytes, i);
  }

  lemma ReceivedIffAffords(p: Params, f: Filter, now: real, bytes: nat, i: nat)
    requires Sensible(p) && Inv(p, f) && Allowed(f, Arrival(now, bytes)) && f.queue == []
    requires f.unused || TightFilter(p, f.sent, f.tokens, f.last, i)
    ensures Received(p, f, now, bytes).sent == f.sent + [Sent(now, bytes)] <==> Affords(p, f.sent, now, Size(bytes))
  {
    FillKeeps(p, f, now);
    var j := FilledTight(p, f, now, i);
    var g := Filled(p, f, now).(clock := now);
    assert g.last <= now;
    ServedIffAffords(p, g, bytes, j);
  }

  /** And the head that waits leaves no later than it must: at any time since the last departure or arrival at an empty
      queue, until its timer expires, it would break (bucket, rate). */
  lemma WaitingHeadWouldBreak(p: Params, events: seq<Event>, t: real)
    requires Sensible(p)
    requires var f := Run(p, events); f.timer.Pending? && f.last <= t < f.timer.expiry
    ensures var f := Run(p, events); !Affords(p, f.sent, t, Size(f.queue[0]))
  {
    var f := Run(p, events);
    var i := RunIsTight(p, events);
    i := TightRefreshed(p, f.sent, f.tokens, f.last, t, i);
    RefreshKeeps(p, f.sent, f.tokens, f.last, t);
    DepartsAtTheEarliest(p, f, t);
    CoveredIffAffords(p, f.sent, Refreshed(p, f.tokens, f.last, t), t, Size(f.queue[0]), i);
  }

  // ----- which packets a filter may be given -----

  /** No packet that arrives is larger than m bytes. */
  predicate AtMost(events: seq<Event>, m: nat) {
    forall e :: e in events && e.Arrival? ==> e.bytes <= m
  }

  /** Without a queue nothing ever waits, and only what its tokens cover is forwarded. */
  lemma {:induction false} NoQueueFits(p: Params, events: seq<Event>)
    requires Sensible(p) && p.qlen == 0
    ensures Run(p, events).queue == [] && Fits(p, Run(p, events).sent)
  {
    if events != [] {
      var f, e := Run(p, events[..|events| - 1]), events[|events| - 1];
      NoQueueFits(p, events[..|events| - 1]);
      if e.Arrival? && Allowed(f, e) {
        SentMore(p, f.sent, Sent(e.at, e.bytes));
      }
    }
  }

  /** The first packet to arrive, at once, and the timer it sets. */
  function FirstPacket(m: nat): seq<Event> {
    [Arrival(0.0, m), Expiry]
  }

  /** With a queue, a packet larger than the bucket waits and is forwarded when the timer expires. */
  lemma OversizeIsSent(p: Params, m: nat)
    requires Sensible(p) && p.qlen != 0 && Size(m) > p.bucket as real
    ensures var sent := Run(p, FirstPacket(m)).sent;
      |sent| == 1 && sent[0].bytes == m && !Conforms(p, sent)
  {
    var events := FirstPacket(m);
    assert events[..1] == [events[0]] && [events[0]][..0] == [];
    var g := Step(p, START, events[0]);
    assert Run(p, [events[0]]) == g by {
      assert Run(p, []) == START;
    }
    assert (0.0 - 0.0) * p.rate == 0.0;
    assert g.queue == [m] && g.timer.Pending? && g.sent == [];
    assert Run(p, events) == TimedOut(p, g);
    var s := Run(p, events).sent;
    OversizeViolates(p, s, s[0]);
  }

  lemma NoQueueConforms(p: Params, events: seq<Event>)
    requires Sensible(p) && p.qlen == 0
    ensures Conforms(p, Run(p, events).sent)
  {
    NoQueueFits(p, events);
    FitsConforms(p, Run(p, events));
  }

  lemma FittingConforms(p: Params, events: seq<Event>, m: nat)
    requires Sensible(p) && Size(m) <= p.bucket as real && AtMost(events, m)
    ensures Conforms(p, Run(p, events).sent)
  {
    RunOfFittingPackets(p, events);
  }

  /** Whatever arrives, as long as no packet is larger than m, what is forwarded conforms. */
  ghost predicate ConformsToAll(p: Params, m: nat)
    requires Sensible(p)
  {
    forall events :: AtMost(events, m) ==> Conforms(p, Run(p, events).sent)
  }

  /** The failing run, as some run. */
  lemma OversizeBreaks(p: Params, m: nat) returns (events: seq<Event>)
    requires Sensible(p) && p.qlen != 0 && Size(m) > p.bucket as real
    ensures AtMost(events, m) && !Conforms(p, Run(p, events).sent)
  {
    events := FirstPacket(m);
    OversizeIsSent(p, m);
  }

  /** A filter conforms to (bucket, rate) whatever arrives, as long as no packet is larger than m, if and only if it
      has no queue, or a packet of that size fits the bucket. */
  lemma ConformsToAllIff(p: Params, m: nat)
    requires Sensible(p)
    ensures ConformsToAll(p, m) <==> p.qlen == 0 || Size(m) <= p.bucket as real
  {
    if p.qlen == 0 {
      forall events
        ensures Conforms(p, Run(p, events).sent)
      {
        NoQueueConforms(p, events);
      }
    } else if Size(m) <= p.bucket as real {
      forall events | AtMost(events, m)
        ensures Conforms(p, Run(p, events).sent)
      {
        FittingConforms(p, events, m);
      }
    } else {
      var events := OversizeBreaks(p, m);
      assert !(AtMost(events, m) ==> Conforms(p, Run(p, events).sent));
    }
  }

  // ----- the object -----

  class TBF {
    const p: Params
    var tokens: real
    var lastupdatetime: real
    var init: bool
    var q: seq<nat>
    var timer: Timer
    ghost var clock: real
    ghost var sent: seq<Sent>
    ghost var taken: seq<nat>

    ghost function Abstract(): Filter
      reads this
    {
      Filter(init, tokens, lastupdatetime, q, timer, clock, sent, taken)
    }

    constructor (p: Params)
      ensures this.p == p && Abstract() == START
    {
      this.p := p;
      tokens, lastupdatetime, init, q, timer := 0.0, 0.0, true, [], Idle;
      clock, sent, taken := 0.0, [], [];
    }

    method GetUpdatedTokens(now: real) returns (t: real)
      modifies this`tokens, this`lastupdatetime
      ensures t == tokens == Refreshed(p, old(tokens), old(lastupdatetime), now) && lastupdatetime == now
    {
      tokens := tokens + (now - lastupdatetime) * p.rate;
      if tokens > p.bucket as real {
        tokens := p.bucket as real;
      }
      lastupdatetime := now;
      t := tokens;
    }

    method Recv(bytes: nat, now: real) returns (forwarded: bool, dropped: bool)
      requires Sensible(p)
      modifies this
      ensures Abstract() == Received(p, old(Abstract()), now, bytes)
      ensures forwarded <==> sent == old(sent) + [Sent(now, bytes)]
      ensures dropped <==> taken == old(taken)
    {
      clock := now;
      forwarded, dropped := false, false;
      if init {
        tokens := p.bucket as real;
        lastupdatetime := now;
        init := false;
      }
      if |q| != 0 {
        if |q| < p.qlen {
          q := q + [bytes];
          taken := taken + [bytes];
        } else {
          dropped := true;
        }
        return;
      }
      var _ := GetUpdatedTokens(now);
      var pktsize := (8 * bytes) as real;
      if tokens >= pktsize {
        forwarded := true;
        sent, taken := sent + [Sent(now, bytes)], taken + [bytes];
        tokens := tokens - pktsize;
      } else if p.qlen != 0 {
        q := q + [bytes];
        taken := taken + [bytes];
        timer := Pending(now + (pktsize - tokens) / p.rate);
      } else {
        dropped := true;
      }
    }

    /** `now` is the time the timer was set for; the queue is then never empty, by Inv, and the source's
        abort on an empty queue is the assert. */
    method Timeout(now: real)
      requires Sensible(p) && timer == Pending(now) && (timer.Pending? <==> q != [])
      modifies this
      ensures Abstract() == TimedOut(p, old(Abstract()))
    {
      assert |q| != 0;
      clock := now;
      var bytes := q[0];
      q := q[1..];
      var _ := GetUpdatedTokens(now);
      var pktsize := (8 * bytes) as real;
      sent := sent + [Sent(now, bytes)];
      tokens := tokens - pktsize;
      timer := Idle;
      if |q| != 0 {
        pktsize := (8 * q[0]) as real;
        timer := Pending(now + (pktsize - tokens) / p.rate);
      }
    }
  }
}
