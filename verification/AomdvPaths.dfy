/** The path list of one AOMDV route entry: the operations on it, and what each place in the protocol that
    inserts or deletes paths does to the entry. */
module AomdvPaths {
  import opened Numbers

  type Addr = nat

  datatype Path = Path(nexthop: Addr, lasthop: Addr, hopcount: nat, expire: real)

  /** `highest` is the highest number heard in an error; `num` the path counter; `error` whether upstream nodes
      are to be told when the route is lost. */
  datatype Entry = Entry(up: bool, seqno: nat, highest: nat, paths: seq<Path>, num: int, error: bool)

  const NEW := Entry(false, 0, 0, [], 0, false)

  /** A path as some neighbour offers it. `shorter` stands for the test against the advertised hop count and
      `alike` for the test on the difference in length. */
  datatype Offer = Offer(seqno: nat, path: Path, shorter: bool, alike: bool)

  // ----- path lists -----

  /** The first path through this next hop, |paths| if there is none. */
  function Through(paths: seq<Path>, id: Addr): (k: nat)
    ensures k <= |paths|
    ensures forall j :: 0 <= j < k ==> paths[j].nexthop != id
    ensures k < |paths| ==> paths[k].nexthop == id
  {
    if paths == [] || paths[0].nexthop == id then 0 else 1 + Through(paths[1..], id)
  }

  /** The first path with this next hop and this last hop, |paths| if there is none. */
  function Same(paths: seq<Path>, nexthop: Addr, lasthop: Addr): (k: nat)
    ensures k <= |paths|
    ensures forall j :: 0 <= j < k ==> !(paths[j].nexthop == nexthop && paths[j].lasthop == lasthop)
    ensures k < |paths| ==> paths[k].nexthop == nexthop && paths[k].lasthop == lasthop
  {
    if paths == [] || (paths[0].nexthop == nexthop && paths[0].lasthop == lasthop) then 0
    else 1 + Same(paths[1..], nexthop, lasthop)
  }

  predicate Apart(paths: seq<Path>, nexthop: Addr, lasthop: Addr) {
    forall j :: 0 <= j < |paths| ==> paths[j].nexthop != nexthop && paths[j].lasthop != lasthop
  }

  function Without(paths: seq<Path>, k: nat): seq<Path>
    requires k < |paths|
  {
    paths[..k] + paths[k + 1..]
  }

  /** The paths that have not expired. */
  function Alive(paths: seq<Path>, now: real): (r: seq<Path>)
    ensures forall p :: p in r ==> p in paths && p.expire >= now
  {
    if paths == [] then []
    else
      var rest := Alive(paths[..|paths| - 1], now);
      if paths[|paths| - 1].expire < now then rest else rest + [paths[|paths| - 1]]
  }

  // ----- what the protocol does to an entry -----

  function Down(e: Entry): Entry {
    if !e.up then e else e.(up := false, paths := [], num := 0)
  }

  /** The insertion sites: a newer number replaces all paths by the offered one; the same number refreshes a path
      that is there, or adds a disjoint one while there is room. */
  function Learned(e: Entry, o: Offer, maxPaths: int): Entry {
    if e.seqno < o.seqno then e.(up := true, seqno := o.seqno, paths := [o.path], num := 1)
    else if e.seqno == o.seqno && o.shorter then
      var k := Same(e.paths, o.path.nexthop, o.path.lasthop);
      if k < |e.paths| then
        e.(paths := e.paths[k := e.paths[k].(expire := MaxReal(e.paths[k].expire, o.path.expire))])
      else if Apart(e.paths, o.path.nexthop, o.path.lasthop) && e.num < maxPaths && o.alike then
        e.(paths := e.paths + [o.path], num := e.num + 1)
      else e
    else e
  }

  /** A link to neighbour id fails. */
  function Failed(e: Entry, id: Addr): Entry {
    var k := Through(e.paths, id);
    if e.up && k < |e.paths| then
      var f := e.(paths := Without(e.paths, k), num := e.num - 1);
      if f.paths == [] then Down(f.(seqno := Max(f.seqno + 1, f.highest))) else f
    else e
  }

  /** Expired paths are purged; `due` stands for the test on the entry's own lifetime. */
  function Purged(e: Entry, now: real, due: bool): Entry {
    if e.up && due then
      var alive := Alive(e.paths, now);
      var f := e.(paths := alive, num := e.num - (|e.paths| - |alive|));
      if alive == [] then
        var s := Max(f.seqno + 1, f.highest);
        Down(f.(seqno := if s % 2 == 0 then s + 1 else s))
      else f
    else e
  }

  /** Neighbour `from` reports the destination unreachable with number u. */
  function Reported(e: Entry, from: Addr, u: nat): Entry {
    var k := Through(e.paths, from);
    if e.up && k < |e.paths| && e.seqno <= u then
      var f := e.(paths := Without(e.paths, k), num := e.num - 1, highest := Max(e.highest, u));
      if f.paths == [] then Down(f.(seqno := f.highest)) else f
    else e
  }

  // ----- what they keep -----

  /** A number of a lost route: odd, or the initial 0. */
  predicate LostNumber(s: nat) {
    s == 0 || s % 2 == 1
  }

  /** A number that a destination gave out. */
  predicate GivenNumber(s: nat) {
    s > 0 && s % 2 == 0
  }

  predicate Disjoint(paths: seq<Path>) {
    forall j, k :: 0 <= j < k < |paths| ==> paths[j].nexthop != paths[k].nexthop && paths[j].lasthop != paths[k].lasthop
  }

  /** An entry is up exactly when it has paths; they share no next hop and no last hop; the counter is right. */
  predicate Good(e: Entry, maxPaths: int) {
    && (e.up <==> e.paths != [])
    && Disjoint(e.paths)
    && e.num == |e.paths| <= maxPaths
    && (if e.up then GivenNumber(e.seqno) else LostNumber(e.seqno))
    && LostNumber(e.highest)
  }

  lemma LearnedKeeps(e: Entry, o: Offer, maxPaths: int)
    requires maxPaths >= 1 && Good(e, maxPaths) && GivenNumber(o.seqno)
    ensures Good(Learned(e, o, maxPaths), maxPaths)
    // the assert at the insertion sites
    ensures e.seqno == o.seqno ==> e.up
  {
  }

  /** The offered path is disjoint from all and there is room for it. */
  predicate Fits(paths: seq<Path>, o: Offer, maxPaths: int) {
    Apart(paths, o.path.nexthop, o.path.lasthop) && |paths| < maxPaths && o.alike
  }

  /** The same path with no shorter a lifetime. */
  predicate Lengthened(p: Path, q: Path) {
    q.nexthop == p.nexthop && q.lasthop == p.lasthop && q.hopcount == p.hopcount && q.expire >= p.expire
  }

  /** What an offer brings: a newer number leaves the offered path alone; an older or worse one nothing; the same
      number keeps every path, shortens no lifetime, and brings the offered one in when it is there
      already or is disjoint from all and there is room. */
  lemma LearnedPaths(e: Entry, o: Offer, maxPaths: int)
    requires Good(e, maxPaths)
    ensures var f, p := Learned(e, o, maxPaths), o.path;
      && (o.seqno > e.seqno ==> f.up && f.seqno == o.seqno && f.paths == [p])
      && (o.seqno < e.seqno || (o.seqno == e.seqno && !o.shorter) ==> f == e)
      && (o.seqno == e.seqno ==>
            && |e.paths| <= |f.paths| <= |e.paths| + 1
            && forall j :: 0 <= j < |e.paths| ==> Lengthened(e.paths[j], f.paths[j]))
      && (o.seqno == e.seqno && o.shorter ==>
            ((exists q :: q in f.paths && q.nexthop == p.nexthop && q.lasthop == p.lasthop && q.expire >= p.expire) <==>
             Same(e.paths, p.nexthop, p.lasthop) < |e.paths| || Fits(e.paths, o, maxPaths)))
  {
    var f, p := Learned(e, o, maxPaths), o.path;
    if o.seqno == e.seqno && o.shorter {
      var k := Same(e.paths, p.nexthop, p.lasthop);
      if k < |e.paths| {
        assert f.paths[k] in f.paths;
      } else if |f.paths| > |e.paths| {
        assert f.paths[|e.paths|] in f.paths;
      }
    }
  }

  lemma WithoutDisjoint(paths: seq<Path>, k: nat)
    requires Disjoint(paths) && k < |paths|
    ensures Disjoint(Without(paths, k)) && |Without(paths, k)| == |paths| - 1
    ensures forall j :: 0 <= j < |paths| - 1 ==> Without(paths, k)[j].nexthop != paths[k].nexthop
  {
  }

  lemma FailedKeeps(e: Entry, id: Addr, maxPaths: int)
    requires Good(e, maxPaths)
    ensures Good(Failed(e, id), maxPaths)
    // no path through the lost neighbour remains
    ensures forall p :: p in Failed(e, id).paths ==> p.nexthop != id
    ensures Failed(e, id).seqno >= e.seqno && (e.up && !Failed(e, id).up ==> Failed(e, id).seqno > e.seqno)
  {
    var k := Through(e.paths, id);
    if k < |e.paths| {
      WithoutDisjoint(e.paths, k);
    }
  }

  lemma {:induction false} AliveDisjoint(paths: seq<Path>, now: real)
    requires Disjoint(paths)
    ensures Disjoint(Alive(paths, now)) && |Alive(paths, now)| <= |paths|
  {
    if paths != [] {
      var n := |paths| - 1;
      AliveDisjoint(paths[..n], now);
      var rest := Alive(paths[..n], now);
      forall j | 0 <= j < |rest|
        ensures rest[j].nexthop != paths[n].nexthop && rest[j].lasthop != paths[n].lasthop
      {
        assert rest[j] in paths[..n];
      }
    }
  }

  lemma PurgedKeeps(e: Entry, now: real, due: bool, maxPaths: int)
    requires Good(e, maxPaths)
    ensures Good(Purged(e, now, due), maxPaths)
    ensures e.up && due ==> forall p :: p in Purged(e, now, due).paths ==> p.expire >= now
    ensures Purged(e, now, due).seqno >= e.seqno
  {
    AliveDisjoint(e.paths, now);
  }

  lemma ReportedKeeps(e: Entry, from: Addr, u: nat, maxPaths: int)
    requires Good(e, maxPaths) && LostNumber(u)
    ensures Good(Reported(e, from, u), maxPaths)
    ensures Reported(e, from, u).seqno >= e.seqno
    ensures e.seqno <= u ==> forall p :: p in Reported(e, from, u).paths ==> p.nexthop != from
  {
    var k := Through(e.paths, from);
    if k < |e.paths| {
      WithoutDisjoint(e.paths, k);
    }
  }

  // ----- what they leave, exactly -----

  /** The paths that do not go through this next hop, in order. */
  function NotThrough(paths: seq<Path>, id: Addr): seq<Path> {
    if paths == [] then [] else (if paths[0].nexthop == id then [] else [paths[0]]) + NotThrough(paths[1..], id)
  }

  lemma {:induction false} AllStay(paths: seq<Path>, id: Addr)
    requires forall j :: 0 <= j < |paths| ==> paths[j].nexthop != id
    ensures NotThrough(paths, id) == paths
  {
    if paths != [] {
      AllStay(paths[1..], id);
    }
  }

  lemma DisjointTail(paths: seq<Path>)
    requires Disjoint(paths) && paths != []
    ensures Disjoint(paths[1..]) && forall j :: 0 <= j < |paths| - 1 ==> paths[1..][j].nexthop != paths[0].nexthop
  {
    assert forall j :: 0 <= j < |paths| - 1 ==> paths[1..][j] == paths[j + 1];
  }

  lemma WithoutLater(p: Path, rest: seq<Path>, k: nat)
    requires k < |rest|
    ensures Without([p] + rest, k + 1) == [p] + Without(rest, k)
  {
  }

  /** What is left when one path at most goes through a next hop. */
  function LeftBy(paths: seq<Path>, k: nat): seq<Path> {
    if k < |paths| then Without(paths, k) else paths
  }

  lemma HeadStays(p: Path, rest: seq<Path>, id: Addr, k: nat)
    requires p.nexthop != id && k == Through(rest, id) && NotThrough(rest, id) == LeftBy(rest, k)
    ensures Through([p] + rest, id) == k + 1 && NotThrough([p] + rest, id) == LeftBy([p] + rest, k + 1)
  {
    assert ([p] + rest)[1..] == rest;
    if k < |rest| {
      WithoutLater(p, rest, k);
    }
  }

  /** Of disjoint paths at most one goes through a next hop. */
  lemma {:induction false} OneGoes(paths: seq<Path>, id: Addr)
    requires Disjoint(paths)
    ensures NotThrough(paths, id) == LeftBy(paths, Through(paths, id))
  {
    if paths != [] {
      var rest := paths[1..];
      DisjointTail(paths);
      if paths[0].nexthop == id {
        AllStay(rest, id);
        assert Without(paths, 0) == rest == [] + rest;
      } else {
        OneGoes(rest, id);
        HeadStays(paths[0], rest, id, Through(rest, id));
        assert [paths[0]] + rest == paths;
      }
    }
  }

  /** A lost link leaves exactly the other paths of an up route, in order; the route goes down exactly when there are
      none, with a number above its own and not below the highest heard; otherwise its number stays. */
  lemma FailedIsExact(e: Entry, id: Addr, maxPaths: int)
    requires Good(e, maxPaths)
    ensures !e.up ==> Failed(e, id) == e
    ensures var f, rest := Failed(e, id), NotThrough(e.paths, id);
      e.up ==>
        && f.paths == rest && f.num == |rest| && f.highest == e.highest && f.error == e.error
        && (f.up <==> rest != [])
        && f.seqno == if rest != [] then e.seqno else Max(e.seqno + 1, e.highest)
  {
    OneGoes(e.paths, id);
  }

  /** So does a report from a neighbour with a number that is recent enough, which is remembered if it cost a path; the
      number of a route that goes down is then the highest heard. An older report changes nothing. */
  lemma ReportedIsExact(e: Entry, from: Addr, u: nat, maxPaths: int)
    requires Good(e, maxPaths)
    ensures !(e.up && e.seqno <= u) ==> Reported(e, from, u) == e
    ensures var f, rest := Reported(e, from, u), NotThrough(e.paths, from);
      e.up && e.seqno <= u ==>
        && f.paths == rest && f.num == |rest| && f.error == e.error
        && (f.up <==> rest != [])
        && f.highest == (if rest == e.paths then e.highest else Max(e.highest, u))
        && f.seqno == if rest != [] then e.seqno else Max(e.highest, u)
  {
    OneGoes(e.paths, from);
    if Through(e.paths, from) < |e.paths| {
      assert |NotThrough(e.paths, from)| < |e.paths|;
    }
  }

  lemma {:induction false} AliveIff(paths: seq<Path>, now: real)
    ensures forall p :: p in Alive(paths, now) <==> p in paths && p.expire >= now
  {
    if paths != [] {
      var pre, last := paths[..|paths| - 1], paths[|paths| - 1];
      AliveIff(pre, now);
      assert paths == pre + [last];
    }
  }

  /** Where each path that is alive stood. */
  lemma {:induction false} AliveInOrder(paths: seq<Path>, now: real) returns (at: seq<nat>)
    ensures |at| == |Alive(paths, now)|
    ensures forall i :: 0 <= i < |at| ==> at[i] < |paths| && Alive(paths, now)[i] == paths[at[i]]
    ensures forall i, j :: 0 <= i < j < |at| ==> at[i] < at[j]
  {
    at := [];
    if paths != [] {
      var n := |paths| - 1;
      var rest := Alive(paths[..n], now);
      var before := AliveInOrder(paths[..n], now);
      assert forall i :: 0 <= i < |before| ==> rest[i] == paths[before[i]];
      if paths[n].expire >= now {
        assert Alive(paths, now) == rest + [paths[n]];
        at := before + [n];
      } else {
        at := before;
      }
    }
  }

  /** A purge that is due leaves exactly the paths of an up route that have not expired; the route goes down exactly
      when there are none, with the next odd number that is not below the highest heard. */
  lemma PurgedIsExact(e: Entry, now: real, due: bool, maxPaths: int)
    requires Good(e, maxPaths)
    ensures !(e.up && due) ==> Purged(e, now, due) == e
    ensures var f := Purged(e, now, due);
      e.up && due ==>
        && (forall p :: p in f.paths <==> p in e.paths && p.expire >= now)
        && f.num == |f.paths| && f.highest == e.highest && f.error == e.error
        && (f.up <==> exists p :: p in e.paths && p.expire >= now)
        && (f.up ==> f.seqno == e.seqno && f.paths == Alive(e.paths, now))
        && (!f.up ==> f.seqno % 2 == 1 && Max(e.seqno + 1, e.highest) <= f.seqno <= Max(e.seqno + 1, e.highest) + 1)
  {
    AliveIff(e.paths, now);
    var alive := Alive(e.paths, now);
    if alive != [] {
      assert alive[0] in alive;
    }
  }

  // ----- the object -----

  class RtEntry {
    var rtSeqno: nat
    var rtFlagsUp: bool
    var rtHighestSeqnoHeard: nat
    var rtPathList: seq<Path>
    var rtNumPaths: int
    var rtError: bool

    ghost function Abstract(): Entry
      reads this
    {
      Entry(rtFlagsUp, rtSeqno, rtHighestSeqnoHeard, rtPathList, rtNumPaths, rtError)
    }

    constructor ()
      ensures Abstract() == NEW
    {
      rtSeqno, rtFlagsUp, rtHighestSeqnoHeard, rtPathList, rtNumPaths, rtError := 0, false, 0, [], 0, false;
    }

    /** Puts a path at the end of the list. */
    method PathInsert(path: Path)
      modifies this`rtPathList, this`rtNumPaths
      ensures rtPathList == old(rtPathList) + [path] && rtNumPaths == old(rtNumPaths) + 1
    {
      rtPathList := rtPathList + [path];
      rtNumPaths := rtNumPaths + 1;
    }

    method PathLookup(id: Addr) returns (k: nat)
      ensures k == Through(rtPathList, id)
    {
      k := 0;
      while k < |rtPathList| && rtPathList[k].nexthop != id
        invariant k <= |rtPathList| && Through(rtPathList, id) == k + Through(rtPathList[k..], id)
      {
        assert rtPathList[k..][1..] == rtPathList[k + 1..];
        k := k + 1;
      }
    }

    method DisjointPathLookup(nexthop: Addr, lasthop: Addr) returns (k: nat)
      ensures k == Same(rtPathList, nexthop, lasthop)
    {
      k := 0;
      while k < |rtPathList| && !(rtPathList[k].nexthop == nexthop && rtPathList[k].lasthop == lasthop)
        invariant k <= |rtPathList| && Same(rtPathList, nexthop, lasthop) == k + Same(rtPathList[k..], nexthop, lasthop)
      {
        assert rtPathList[k..][1..] == rtPathList[k + 1..];
        k := k + 1;
      }
    }

    method NewDisjointPath(nexthop: Addr, lasthop: Addr) returns (apart: bool)
      ensures apart <==> Apart(rtPathList, nexthop, lasthop)
    {
      for k := 0 to |rtPathList|
        invariant Apart(rtPathList[..k], nexthop, lasthop)
      {
        if rtPathList[k].nexthop == nexthop || rtPathList[k].lasthop == lasthop {
          return false;
        }
      }
      return true;
    }

    /** Deletes the first path through `id`. */
    method PathDelete(id: Addr)
      modifies this`rtPathList, this`rtNumPaths
      ensures var k := Through(old(rtPathList), id);
        if k < |old(rtPathList)| then rtPathList == Without(old(rtPathList), k) && rtNumPaths == old(rtNumPaths) - 1
        else rtPathList == old(rtPathList) && rtNumPaths == old(rtNumPaths)
    {
      var k := PathLookup(id);
      if k < |rtPathList| {
        rtPathList := rtPathList[..k] + rtPathList[k + 1..];
        rtNumPaths := rtNumPaths - 1;
      }
    }

    method PathDeleteAll()
      modifies this`rtPathList, this`rtNumPaths
      ensures rtPathList == [] && rtNumPaths == 0
    {
      while rtPathList != []
        decreases |rtPathList|
      {
        rtPathList := rtPathList[1..];
      }
      rtNumPaths := 0;
    }

    /** The two asserts hold because the counter is right. */
    method PathEmpty() returns (empty: bool)
      requires rtNumPaths == |rtPathList|
      ensures empty <==> rtPathList == []
    {
      if rtPathList != [] {
        assert rtNumPaths > 0;
        return false;
      } else {
        assert rtNumPaths == 0;
        return true;
      }
    }

    /** Takes out the first expired path, if there is one. */
    method PurgeOne(now: real) returns (cond: bool)
      modifies this`rtPathList, this`rtNumPaths
      ensures Alive(rtPathList, now) == Alive(old(rtPathList), now)
      ensures rtNumPaths - |rtPathList| == old(rtNumPaths) - |old(rtPathList)|
      ensures cond ==> |rtPathList| < |old(rtPathList)|
      ensures !cond ==> rtPathList == Alive(rtPathList, now)
    {
      var k := 0;
      while k < |rtPathList|
        invariant k <= |rtPathList| && Alive(rtPathList[..k], now) == rtPathList[..k]
      {
        assert rtPathList[..k + 1][..k] == rtPathList[..k];
        if rtPathList[k].expire < now {
          AliveWithout(rtPathList, k, now);
          rtPathList := rtPathList[..k] + rtPathList[k + 1..];
          rtNumPaths := rtNumPaths - 1;
          return true;
        }
        k := k + 1;
      }
      assert rtPathList[..k] == rtPathList;
      return false;
    }

    method PathPurge(now: real)
      modifies this`rtPathList, this`rtNumPaths
      ensures rtPathList == Alive(old(rtPathList), now)
      ensures rtNumPaths == old(rtNumPaths) - (|old(rtPathList)| - |rtPathList|)
    {
      var cond := true;
      while cond
        invariant Alive(rtPathList, now) == Alive(old(rtPathList), now)
        invariant rtNumPaths - |rtPathList| == old(rtNumPaths) - |old(rtPathList)|
        invariant !cond ==> rtPathList == Alive(rtPathList, now)
        decreases cond, |rtPathList|
      {
        cond := PurgeOne(now);
      }
    }

    /** The path in use: an entry that is up always has one. */
    method PathFind() returns (path: Path)
      requires rtFlagsUp && (rtFlagsUp <==> rtPathList != [])
      ensures path == rtPathList[0]
    {
      path := rtPathList[0];
    }

    method RtDown()
      modifies this
      ensures Abstract() == Down(old(Abstract()))
    {
      if !rtFlagsUp {
        return;
      }
      rtFlagsUp := false;
      PathDeleteAll();
    }

    /** The insertion site of recvRequest and of recvReply. */
    method Learn(o: Offer, maxPaths: int)
      requires maxPaths >= 1 && Good(Abstract(), maxPaths) && GivenNumber(o.seqno)
      modifies this
      ensures Abstract() == Learned(old(Abstract()), o, maxPaths) && Good(Abstract(), maxPaths)
    {
      LearnedKeeps(Abstract(), o, maxPaths);
      if rtSeqno < o.seqno {
        rtSeqno := o.seqno;
        PathDeleteAll();
        rtFlagsUp := true;
        PathInsert(o.path);
      } else if rtSeqno == o.seqno && o.shorter {
        assert rtFlagsUp;
        var k := DisjointPathLookup(o.path.nexthop, o.path.lasthop);
        if k < |rtPathList| {
          var p := rtPathList[k];
          rtPathList := rtPathList[k := p.(expire := MaxReal(p.expire, o.path.expire))];
        } else {
          var apart := NewDisjointPath(o.path.nexthop, o.path.lasthop);
          if apart && rtNumPaths < maxPaths && o.alike {
            PathInsert(o.path);
          }
        }
      }
    }

    /** The body of the loop of handle_link_failure. */
    method LoseNeighbour(id: Addr, ghost maxPaths: int)
      requires Good(Abstract(), maxPaths)
      modifies this
      ensures Abstract() == Failed(old(Abstract()), id) && Good(Abstract(), maxPaths)
    {
      FailedKeeps(Abstract(), id, maxPaths);
      var k := PathLookup(id);
      if rtFlagsUp && k < |rtPathList| {
        assert rtSeqno % 2 == 0;
        PathDelete(id);
        var empty := PathEmpty();
        if empty {
          rtSeqno := rtSeqno + 1;
          rtSeqno := Max(rtSeqno, rtHighestSeqnoHeard);
          RtDown();
        }
      }
    }

    /** The part of rt_purge that touches an entry. */
    method PurgePaths(now: real, due: bool, ghost maxPaths: int)
      requires Good(Abstract(), maxPaths)
      modifies this
      ensures Abstract() == Purged(old(Abstract()), now, due) && Good(Abstract(), maxPaths)
    {
      PurgedKeeps(Abstract(), now, due, maxPaths);
      if rtFlagsUp && due {
        PathPurge(now);
        var empty := PathEmpty();
        if empty {
          rtSeqno := rtSeqno + 1;
          rtSeqno := Max(rtSeqno, rtHighestSeqnoHeard);
          if rtSeqno % 2 == 0 {
            rtSeqno := rtSeqno + 1;
          }
          RtDown();
        }
      }
    }

    /** The body of the loop of recvError. */
    method HearError(from: Addr, u: nat, ghost maxPaths: int)
      requires Good(Abstract(), maxPaths) && LostNumber(u)
      modifies this
      ensures Abstract() == Reported(old(Abstract()), from, u) && Good(Abstract(), maxPaths)
    {
      ReportedKeeps(Abstract(), from, u, maxPaths);
      var k := PathLookup(from);
      if rtFlagsUp && k < |rtPathList| && rtSeqno <= u {
        assert rtSeqno % 2 == 0;
        PathDelete(from);
        rtHighestSeqnoHeard := Max(rtHighestSeqnoHeard, u);
        var empty := PathEmpty();
        if empty {
          rtSeqno := rtHighestSeqnoHeard;
          RtDown();
        }
      }
    }
  }

  /** Taking out an expired path does not change which paths are alive. */
  lemma {:induction false} AliveWithout(paths: seq<Path>, k: nat, now: real)
    requires k < |paths| && paths[k].expire < now
    ensures Alive(Without(paths, k), now) == Alive(paths, now)
  {
    var n := |paths| - 1;
    if k < n {
      AliveWithout(paths[..n], k, now);
      assert Without(paths, k) == Without(paths[..n], k) + [paths[n]];
      assert Without(paths, k)[..n - 1] == Without(paths[..n], k);
    } else {
      assert Without(paths, k) == paths[..n];
    }
  }
}
