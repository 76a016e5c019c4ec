/** The list of broadcast ids that the AODV agent has seen, and the map it stands for. */
module AodvBroadcastIds {
  import opened AodvTypes
  import opened AodvHandlers

  datatype BroadcastId = BroadcastId(src: Addr, id: nat, expire: real)

  function Key(b: BroadcastId): (Addr, nat) {
    (b.src, b.id)
  }

  ghost predicate DistinctKeys(ids: seq<BroadcastId>) {
    forall j, k :: 0 <= j < k < |ids| ==> Key(ids[j]) != Key(ids[k])
  }

  ghost predicate HasKey(ids: seq<BroadcastId>, key: (Addr, nat)) {
    exists k :: 0 <= k < |ids| && Key(ids[k]) == key
  }

  /** The list holds each key once, with the time at which it expires. */
  ghost predicate Lists(ids: seq<BroadcastId>, seen: map<(Addr, nat), real>) {
    && (forall k :: 0 <= k < |ids| ==> Key(ids[k]) in seen && seen[Key(ids[k])] == ids[k].expire)
    && (forall key :: key in seen ==> HasKey(ids, key))
  }

  lemma ListsMore(ids: seq<BroadcastId>, seen: map<(Addr, nat), real>, b: BroadcastId)
    requires DistinctKeys(ids) && Lists(ids, seen) && Key(b) !in seen
    ensures DistinctKeys([b] + ids) && Lists([b] + ids, seen[Key(b) := b.expire])
  {
    var r := [b] + ids;
    assert r[0] == b && forall k :: 0 < k < |r| ==> r[k] == ids[k - 1];
    forall key | key in seen
      ensures HasKey(r, key)
    {
      var k :| 0 <= k < |ids| && Key(ids[k]) == key;
      assert r[k + 1] == ids[k];
    }
  }

  lemma DistinctWithout(ids: seq<BroadcastId>, i: nat)
    requires DistinctKeys(ids) && i < |ids|
    ensures var r := ids[..i] + ids[i + 1..];
      && DistinctKeys(r)
      && forall k :: 0 <= k < |r| ==> r[k] == ids[if k < i then k else k + 1] && Key(r[k]) != Key(ids[i])
  {
  }

  lemma HasKeyWithout(ids: seq<BroadcastId>, i: nat, key: (Addr, nat))
    requires i < |ids| && HasKey(ids, key) && key != Key(ids[i])
    ensures HasKey(ids[..i] + ids[i + 1..], key)
  {
    var k :| 0 <= k < |ids| && Key(ids[k]) == key;
    assert (ids[..i] + ids[i + 1..])[if k < i then k else k - 1] == ids[k];
  }

  /** Taking out an id forgets its key and no other. */
  lemma ListsWithout(ids: seq<BroadcastId>, seen: map<(Addr, nat), real>, i: nat)
    requires DistinctKeys(ids) && Lists(ids, seen) && i < |ids|
    ensures var r := ids[..i] + ids[i + 1..]; DistinctKeys(r) && Lists(r, seen - {Key(ids[i])})
  {
    var r := ids[..i] + ids[i + 1..];
    DistinctWithout(ids, i);
    forall key | key in seen && key != Key(ids[i])
      ensures HasKey(r, key)
    {
      HasKeyWithout(ids, i, key);
    }
  }

  /** In the middle of a purge: of what was seen, exactly expired keys are gone, and none of the first i is expired. */
  ghost predicate Purged(ids: seq<BroadcastId>, seen: map<(Addr, nat), real>, now: real, i: nat) {
    && i <= |ids| && DistinctKeys(ids)
    && (forall k :: 0 <= k < i ==> ids[k].expire > now)
    && exists kept :: Lists(ids, kept) && KeptBy(kept, seen, now)
  }

  /** kept is part of seen and holds all of it that has not expired. */
  ghost predicate KeptBy(kept: map<(Addr, nat), real>, seen: map<(Addr, nat), real>, now: real) {
    && (forall key :: key in kept ==> key in seen && kept[key] == seen[key])
    && (forall key :: key in seen && seen[key] > now ==> key in kept)
  }

  lemma KeptByWithout(kept: map<(Addr, nat), real>, seen: map<(Addr, nat), real>, now: real, key: (Addr, nat))
    requires KeptBy(kept, seen, now) && key in kept && kept[key] <= now
    ensures KeptBy(kept - {key}, seen, now)
  {
  }

  lemma PurgedOne(ids: seq<BroadcastId>, seen: map<(Addr, nat), real>, now: real, i: nat)
    requires Purged(ids, seen, now, i) && i < |ids| && ids[i].expire <= now
    ensures Purged(ids[..i] + ids[i + 1..], seen, now, i)
  {
    var kept :| Lists(ids, kept) && KeptBy(kept, seen, now);
    ListsWithout(ids, kept, i);
    KeptByWithout(kept, seen, now, Key(ids[i]));
  }

  lemma PurgedDone(ids: seq<BroadcastId>, seen: map<(Addr, nat), real>, now: real)
    requires Purged(ids, seen, now, |ids|)
    ensures Lists(ids, Unexpired(seen, now))
  {
    var kept :| Lists(ids, kept) && KeptBy(kept, seen, now);
    forall key | key in kept
      ensures kept[key] > now
    {
      var k :| 0 <= k < |ids| && Key(ids[k]) == key;
    }
    assert kept == Unexpired(seen, now);
  }
}
