/** The slot table of a classifier and the round robin of the multipath forwarder over it. */
module RoundRobin {
  import opened Numbers

  const NULL := 0

  // ----- the slots in use, as a cycle -----

  /** The slots from lo up to hi that hold a target, in order. */
  function Installed(s: seq<int>, lo: nat, hi: nat): seq<nat>
    requires lo <= hi <= |s|
    decreases hi - lo
  {
    if lo == hi then []
    else if s[lo] == NULL then Installed(s, lo + 1, hi)
    else [lo] + Installed(s, lo + 1, hi)
  }

  /** The first slot from lo up to hi that holds a target, hi if none does. */
  function First(s: seq<int>, lo: nat, hi: nat): (i: nat)
    requires lo <= hi <= |s|
    ensures lo <= i <= hi && (i < hi ==> s[i] != NULL)
    ensures forall j :: lo <= j < i ==> s[j] == NULL
    decreases hi - lo
  {
    if lo == hi || s[lo] != NULL then lo else First(s, lo + 1, hi)
  }

  /** A table of n slots, the last of them in use. */
  predicate Table(s: seq<int>, n: nat) {
    0 < n <= |s| && s[n - 1] != NULL
  }

  /** The slot the round robin takes when it stands at p. */
  function Next(s: seq<int>, n: nat, p: nat): (t: nat)
    requires Table(s, n) && p < n
    ensures p <= t < n && s[t] != NULL
  {
    First(s, p, n)
  }

  function After(n: nat, t: nat): nat {
    if t + 1 < n then t + 1 else 0
  }

  /** The slots that hold a target, once around from p. */
  function Cycle(s: seq<int>, n: nat, p: nat): seq<nat>
    requires p <= n <= |s|
  {
    Installed(s, p, n) + Installed(s, 0, p)
  }

  /** The results of j calls from p. */
  function Calls(s: seq<int>, n: nat, p: nat, j: nat): seq<nat>
    requires Table(s, n) && p < n
    decreases j
  {
    if j == 0 then [] else [Next(s, n, p)] + Calls(s, n, After(n, Next(s, n, p)), j - 1)
  }

  lemma {:induction false} InstalledSplit(s: seq<int>, lo: nat, mid: nat, hi: nat)
    requires lo <= mid <= hi <= |s|
    ensures Installed(s, lo, hi) == Installed(s, lo, mid) + Installed(s, mid, hi)
    decreases mid - lo
  {
    if lo < mid {
      InstalledSplit(s, lo + 1, mid, hi);
    }
  }

  /** Installed lists exactly the slots in use, in increasing order. */
  lemma {:induction false} InstalledMembers(s: seq<int>, lo: nat, hi: nat)
    requires lo <= hi <= |s|
    ensures forall x :: x in Installed(s, lo, hi) <==> lo <= x < hi && s[x] != NULL
    ensures forall i, j :: 0 <= i < j < |Installed(s, lo, hi)| ==> Installed(s, lo, hi)[i] < Installed(s, lo, hi)[j]
    decreases hi - lo
  {
    if lo < hi {
      InstalledMembers(s, lo + 1, hi);
      var rest := Installed(s, lo + 1, hi);
      assert forall i :: 0 <= i < |rest| ==> rest[i] in rest;
    }
  }

  lemma {:induction false} FirstIsHead(s: seq<int>, lo: nat, hi: nat)
    requires lo <= hi <= |s|
    ensures var f := First(s, lo, hi); Installed(s, lo, hi) == if f == hi then [] else [f] + Installed(s, f + 1, hi)
    decreases hi - lo
  {
    if lo == hi {
    } else if s[lo] != NULL {
      assert First(s, lo, hi) == lo;
    } else {
      FirstIsHead(s, lo + 1, hi);
      assert First(s, lo, hi) == First(s, lo + 1, hi);
    }
  }

  lemma {:induction false} OneInstalled(s: seq<int>, lo: nat, f: nat)
    requires lo <= f < |s| && s[f] != NULL && forall j :: lo <= j < f ==> s[j] == NULL
    ensures Installed(s, lo, f + 1) == [f]
    decreases f - lo
  {
    if lo < f {
      OneInstalled(s, lo + 1, f);
    } else {
      assert Installed(s, f + 1, f + 1) == [];
    }
  }

  /** A call takes the head of the cycle, and the cycle from there is the old one turned by one. */
  lemma CallTurns(s: seq<int>, n: nat, p: nat)
    requires Table(s, n) && p < n
    ensures var t := Next(s, n, p);
      && |Cycle(s, n, p)| > 0 && Cycle(s, n, p)[0] == t
      && Cycle(s, n, After(n, t)) == Cycle(s, n, p)[1..] + [t]
  {
    var t := Next(s, n, p);
    FirstIsHead(s, p, n);
    OneInstalled(s, p, t);
    InstalledSplit(s, 0, p, t + 1);
    Turned(t, Installed(s, t + 1, n), Installed(s, 0, p));
    if t + 1 == n {
      assert Installed(s, n, n) == [] == Installed(s, 0, 0);
    }
  }

  lemma Turned(t: nat, a: seq<nat>, b: seq<nat>)
    ensures (([t] + a) + b)[1..] + [t] == a + (b + [t])
  {
  }

  /** j calls, no more than there are slots in use, return the first j of the cycle. */
  lemma {:induction false} CallsFollowCycle(s: seq<int>, n: nat, p: nat, j: nat)
    requires Table(s, n) && p < n && j <= |Cycle(s, n, p)|
    ensures Calls(s, n, p, j) == Cycle(s, n, p)[..j]
    decreases j
  {
    if j > 0 {
      CallTurns(s, n, p);
      var t := Next(s, n, p);
      CallsFollowCycle(s, n, After(n, t), j - 1);
      assert Cycle(s, n, After(n, t))[..j - 1] == Cycle(s, n, p)[1..j];
    }
  }

  lemma CycleMembers(s: seq<int>, n: nat, p: nat)
    requires p <= n <= |s|
    ensures forall x :: x in Cycle(s, n, p) <==> 0 <= x < n && s[x] != NULL
    ensures forall i, j :: 0 <= i < j < |Cycle(s, n, p)| ==> Cycle(s, n, p)[i] != Cycle(s, n, p)[j]
    ensures |Cycle(s, n, p)| == |Installed(s, 0, n)|
  {
    InstalledMembers(s, 0, p);
    InstalledMembers(s, p, n);
    InstalledSplit(s, 0, p, n);
    var a, b := Installed(s, p, n), Installed(s, 0, p);
    assert forall i :: 0 <= i < |a| ==> a[i] in a;
    assert forall i :: 0 <= i < |b| ==> b[i] in b;
  }

  /** From wherever the round robin stands, k calls, k the number of slots in use, return every one of them
      exactly once, and nothing else. */
  lemma EachOnce(s: seq<int>, n: nat, p: nat)
    requires Table(s, n) && p < n
    ensures var r := Calls(s, n, p, |Installed(s, 0, n)|);
      && |r| == |Installed(s, 0, n)|
      && (forall x :: x in r <==> 0 <= x < n && s[x] != NULL)
      && (forall i, j :: 0 <= i < j < |r| ==> r[i] != r[j])
  {
    var k := |Installed(s, 0, n)|;
    CycleMembers(s, n, p);
    CallsFollowCycle(s, n, p, k);
    assert Cycle(s, n, p)[..k] == Cycle(s, n, p);
  }

  // ----- the object -----

  function Padded(s: seq<int>, n: nat): (r: seq<int>)
    ensures |r| == Max(|s|, n)
    ensures forall i :: 0 <= i < |r| ==> r[i] == if i < |s| then s[i] else NULL
  {
    s + seq(Max(|s|, n) - |s|, i => NULL)
  }

  class MultiPathForwarder {
    var slot: array<int>
    var maxslot: int
    const nsize: nat
    var ns: nat

    /** maxslot is the last slot in use, -1 when there is none. */
    ghost predicate Valid()
      reads this, slot
    {
      && -1 <= maxslot < slot.Length
      && (maxslot >= 0 ==> slot[maxslot] != NULL)
      && (forall i :: maxslot < i < slot.Length ==> slot[i] == NULL)
      && (ns == 0 || ns < slot.Length)
    }

    constructor (nsize: nat)
      ensures Valid() && slot.Length == 0 && ns == 0 && this.nsize == nsize && fresh(slot)
    {
      slot := new int[0];
      maxslot, this.nsize, ns := -1, nsize, 0;
    }

    /** Makes room for `slotno`: doubles the table as often as it takes and keeps what is in it. */
    method Alloc(slotno: nat)
      requires Valid()
      modifies this`slot
      ensures Valid() && fresh(slot) && slotno < slot.Length
      ensures slot[..] == Padded(old(slot[..]), slot.Length)
    {
      var before, n := slot, slot.Length;
      var nslot := n;
      if n == 0 {
        nslot := if nsize != 0 then nsize else 32;
      }
      while nslot <= slotno
        invariant nslot >= n && nslot > 0
        decreases slotno - nslot
      {
        nslot := nslot * 2;
      }
      var grown := new int[nslot](i => NULL);
      for i := 0 to n
        invariant forall j :: 0 <= j < nslot ==> grown[j] == if j < i then before[j] else NULL
      {
        grown[i] := before[i];
      }
      slot := grown;
    }

    method Install(slotno: nat, p: int)
      requires Valid() && p != NULL
      modifies this`slot, this`maxslot, slot
      ensures Valid() && slotno < slot.Length && (slot == old(slot) || fresh(slot))
      ensures slot[..] == Padded(old(slot[..]), slot.Length)[slotno := p]
      ensures maxslot == if slotno >= old(maxslot) then slotno else old(maxslot)
    {
      if slotno >= slot.Length {
        Alloc(slotno);
      }
      slot[slotno] := p;
      if slotno >= maxslot {
        maxslot := slotno;
      }
    }

    method Clear(slotno: nat)
      requires Valid() && slotno < slot.Length
      modifies this`maxslot, slot
      ensures Valid() && slot[..] == old(slot[..])[slotno := NULL]
    {
      slot[slotno] := NULL;
      if slotno == maxslot {
        maxslot := maxslot - 1;
        while maxslot >= 0 && slot[maxslot] == NULL
          invariant -1 <= maxslot < slot.Length
          invariant forall i :: maxslot < i < slot.Length ==> slot[i] == NULL
          invariant slot[..] == old(slot[..])[slotno := NULL]
        {
          maxslot := maxslot - 1;
        }
      }
    }

    /** The first slot that is free or holds `nullagent`; a new one when there is none. */
    method GetNxt(nullagent: int) returns (i: nat)
      requires Valid()
      modifies this`slot
      ensures Valid() && i < slot.Length && (slot[i] == NULL || slot[i] == nullagent)
      ensures forall j :: 0 <= j < i ==> slot[j] != NULL && slot[j] != nullagent
      ensures slot[..] == Padded(old(slot[..]), slot.Length)
    {
      i := 0;
      while i < slot.Length
        invariant i <= slot.Length
        invariant forall j :: 0 <= j < i ==> slot[j] != NULL && slot[j] != nullagent
      {
        if slot[i] == NULL || slot[i] == nullagent {
          return;
        }
        i := i + 1;
      }
      Alloc(slot.Length);
    }

    /** Where a call starts to look: a position left beyond the table by Clear is folded back into it. */
    function Position(): (p: nat)
      requires maxslot >= 0
      reads this
      ensures p <= maxslot
    {
      if ns <= maxslot then ns else (ns + 1) % (maxslot + 1)
    }

    /** With at least one slot in use a call ends, at the next of them. */
    method Classify() returns (cl: nat)
      requires Valid() && maxslot >= 0
      modifies this`ns
      ensures Valid() && cl == Next(slot[..], maxslot + 1, old(Position())) && slot[cl] != NULL
      ensures ns == Position() == After(maxslot + 1, cl)
    {
      ghost var p := Position();
      var fail := ns;
      cl := ns;
      ns := Bump(ns);
      while slot[cl] == NULL && ns != fail
        invariant cl < slot.Length && (cl > maxslot ==> cl == fail && ns == p)
        invariant cl <= maxslot ==> p <= cl && ns == After(maxslot + 1, cl)
        invariant forall j :: p <= j < cl && j <= maxslot && cl <= maxslot ==> slot[j] == NULL
        invariant fail <= maxslot ==> cl <= maxslot && p == fail
        decreases cl > maxslot, maxslot - cl
      {
        cl := ns;
        ns := Bump(ns);
      }
    }

    method Bump(x: nat) returns (y: nat)
      requires maxslot >= 0
      ensures y == (x + 1) % (maxslot + 1) && (x <= maxslot ==> y == After(maxslot + 1, x))
    {
      y := (x + 1) % (maxslot + 1);
    }
  }
}
