// The order in which `findNode` meets the peers of the table, and how many of them it collects.
module Scans {
  import opened Numbers
  import opened Peers
  import opened Tables
  import opened Lookups

  // ----- which buckets the scan can visit -----

  lemma {:induction false} AboveMembers(t: Table, lo: nat, hi: nat)
    ensures DistinctKeys(Above(t, lo, hi))
    ensures forall k :: k in Above(t, lo, hi) <==> lo <= k < hi && k in t.buckets
    decreases hi - lo
  {
    if lo < hi {
      AboveMembers(t, lo + 1, hi);
    }
  }

  lemma {:induction false} BelowMembers(t: Table, hi: nat)
    ensures DistinctKeys(Below(t, hi))
    ensures forall k :: k in Below(t, hi) <==> k < hi && k in t.buckets
  {
    if hi > 0 {
      BelowMembers(t, hi - 1);
    }
  }

  // The order in which the scan reaches the buckets when nothing stops it: its own first.
  function Reach(t: Table, b: nat): seq<nat> {
    [b] + (Above(t, b + 1, t.cfg.hashSize) + Below(t, b))
  }

  lemma DistinctKeysConcat(a: seq<nat>, b: seq<nat>)
    requires DistinctKeys(a) && DistinctKeys(b) && forall k | k in a :: k !in b
    ensures DistinctKeys(a + b)
  {
    forall i, j | 0 <= i < j < |a + b|
      ensures (a + b)[i] != (a + b)[j]
    {
      if i < |a| <= j {
        assert a[i] in a && b[j - |a|] in b;
      }
    }
  }

  lemma ReachMembers(t: Table, b: nat)
    requires t.Ok() && b < t.cfg.bits
    ensures DistinctKeys(Reach(t, b)) && DistinctKeys(Reach(t, b)[1..])
    ensures forall k :: k in t.keys <==> k in Reach(t, b) && k in t.buckets
    ensures forall k | k in Reach(t, b)[1..] :: k in t.buckets && k != b
  {
    var up, down := Above(t, b + 1, t.cfg.hashSize), Below(t, b);
    AboveMembers(t, b + 1, t.cfg.hashSize);
    BelowMembers(t, b);
    DistinctKeysConcat(up, down);
    DistinctKeysConcat([b], up + down);
    assert Reach(t, b)[1..] == up + down;
    forall k | k in t.keys
      ensures k in Reach(t, b)
    {
      assert t.BucketOk(k);
    }
  }

  // The scan would meet every stored peer.
  lemma ReachGathers(t: Table, b: nat)
    requires t.Ok() && b < t.cfg.bits
    ensures multiset(Gather(Reach(t, b), t.buckets)) == multiset(t.AllPeers())
  {
    var reach := Reach(t, b);
    ReachMembers(t, b);
    if b in t.buckets {
      DistinctMultiset(reach, t.keys);
      GatherReordered(reach, t.keys, t.buckets);
    } else {
      assert forall k :: k in t.keys <==> k in reach[1..];
      DistinctMultiset(reach[1..], t.keys);
      GatherReordered(reach[1..], t.keys, t.buckets);
    }
  }

  // Lists of distinct keys with the same members gather the same peers.
  lemma {:induction false} GatherReordered(ks: seq<nat>, ls: seq<nat>, buckets: map<nat, seq<Peer>>)
    requires multiset(ks) == multiset(ls)
    ensures multiset(Gather(ks, buckets)) == multiset(Gather(ls, buckets))
    decreases |ks|
  {
    if ks == [] {
      assert |multiset(ls)| == 0;
    } else {
      assert ks == [ks[0]] + ks[1..];
      var i := Find(ls, ks[0], ks[1..]);
      GatherReordered(ks[1..], ls[..i] + ls[i + 1..], buckets);
      GatherSplit(ls, i, buckets);
    }
  }

  lemma Find(ls: seq<nat>, k: nat, rest: seq<nat>) returns (i: nat)
    requires multiset([k] + rest) == multiset(ls)
    ensures i < |ls| && ls[i] == k && multiset(rest) == multiset(ls[..i] + ls[i + 1..])
  {
    assert k in multiset([k] + rest);
    i :| 0 <= i < |ls| && ls[i] == k;
    MultisetSplit(ls, i);
    assert multiset(rest) == multiset([k] + rest) - multiset{k};
    assert multiset(ls[..i] + ls[i + 1..]) == multiset(ls) - multiset{k};
  }

  lemma DistinctMultiset(ks: seq<nat>, ls: seq<nat>)
    requires DistinctKeys(ks) && DistinctKeys(ls) && forall k :: k in ks <==> k in ls
    ensures multiset(ks) == multiset(ls)
  {
    forall k
      ensures multiset(ks)[k] == multiset(ls)[k]
    {
      CountDistinct(ks, k);
      CountDistinct(ls, k);
    }
  }

  lemma {:induction false} CountDistinct(ks: seq<nat>, k: nat)
    requires DistinctKeys(ks)
    ensures multiset(ks)[k] == if k in ks then 1 else 0
  {
    if ks != [] {
      assert ks == [ks[0]] + ks[1..];
      CountDistinct(ks[1..], k);
    }
  }

  // ----- the candidates, round by round -----

  lemma CandidatesConcat(t: Table, key: nat, bs: seq<nat>, cs: seq<nat>)
    ensures Candidates(t, key, bs + cs) == Candidates(t, key, bs) + Candidates(t, key, cs)
  {
    GatherConcat(bs, cs, t.buckets);
    WithoutConcat(Gather(bs, t.buckets), Gather(cs, t.buckets), key);
  }

  // `addNodes`: the bucket's peers other than the key, while fewer than BIT_SIZE are collected.
  function Added(t: Table, key: nat, b: nat, acc: seq<Peer>): seq<Peer>
    requires |acc| <= t.cfg.bits
  {
    acc + Prefix(Without(t.Bucket(b), key), t.cfg.bits - |acc|)
  }

  function AddedFirst(t: Table, key: nat, bs: seq<nat>, acc: seq<Peer>): seq<Peer>
    requires |acc| <= t.cfg.bits
  {
    if bs == [] then acc else Added(t, key, bs[0], acc)
  }

  function Rest(bs: seq<nat>): seq<nat> {
    if bs == [] then [] else bs[1..]
  }

  lemma AddedIsPrefix(t: Table, key: nat, seen: seq<nat>, bs: seq<nat>)
    ensures AddedFirst(t, key, bs, Prefix(Candidates(t, key, seen), t.cfg.bits)) ==
            Prefix(Candidates(t, key, seen + Prefix(bs, 1)), t.cfg.bits)
  {
    if bs == [] {
      assert seen + Prefix(bs, 1) == seen;
    } else {
      assert Prefix(bs, 1) == [bs[0]];
      CandidatesConcat(t, key, seen, [bs[0]]);
      assert Gather([bs[0]], t.buckets) == t.Bucket(bs[0]);
      PrefixConcat(Candidates(t, key, seen), Without(t.Bucket(bs[0]), key), t.cfg.bits);
    }
  }

  lemma PrefixConcat<T>(a: seq<T>, b: seq<T>, n: nat)
    ensures Prefix(a, n) + Prefix(b, n - |Prefix(a, n)|) == Prefix(a + b, n)
  {
  }

  lemma WithoutReordered(a: seq<Peer>, b: seq<Peer>, id: nat)
    requires multiset(a) == multiset(b) && DistinctIds(a) && DistinctIds(b)
    ensures multiset(Without(a, id)) == multiset(Without(b, id))
  {
    IdsFromMultiset(a, b);
    WithoutDistinct(a, id);
    WithoutDistinct(b, id);
    if id in Ids(a) {
      var p, q := a[IndexOf(a, id)], b[IndexOf(b, id)];
      assert p in multiset(b);
      var i :| 0 <= i < |b| && b[i] == p;
      assert p == q;
      assert multiset(Without(a, id)) == multiset(a) - multiset{p};
      assert multiset(Without(b, id)) == multiset(b) - multiset{p};
    }
  }

  // All candidates of the table in the order in which the scan would meet them.
  function ScanOrder(t: Table, key: nat): seq<Peer> {
    Candidates(t, key, Reached(t, key, LastRound(t, key)))
  }

  lemma {:induction false} ReachedExtends(t: Table, key: nat, i: nat, j: nat)
    requires i <= j
    ensures Reached(t, key, i) <= Reached(t, key, j)
    ensures LastRound(t, key) <= i ==> Reached(t, key, i) == Reached(t, key, j)
  {
    if i < j {
      ReachedExtends(t, key, i, j - 1);
    }
  }

  // What is met by the end of a round is a prefix of what is met by the end of a later one.
  lemma CandidatesExtend(t: Table, key: nat, i: nat, j: nat)
    requires i <= j
    ensures Candidates(t, key, Reached(t, key, i)) <= Candidates(t, key, Reached(t, key, j))
    ensures LastRound(t, key) <= i ==> Reached(t, key, i) == Reached(t, key, j)
  {
    ReachedExtends(t, key, i, j);
    var r, s := Reached(t, key, i), Reached(t, key, j);
    assert s == r + s[|r|..];
    CandidatesConcat(t, key, r, s[|r|..]);
  }

  lemma CandidatesInOrder(t: Table, key: nat, j: nat)
    ensures Candidates(t, key, Reached(t, key, j)) <= ScanOrder(t, key)
    ensures LastRound(t, key) <= j ==> Candidates(t, key, Reached(t, key, j)) == ScanOrder(t, key)
  {
    if j <= LastRound(t, key) {
      CandidatesExtend(t, key, j, LastRound(t, key));
    } else {
      CandidatesExtend(t, key, LastRound(t, key), j);
    }
  }

  // ----- every candidate is met once -----

  function Upto(s: seq<nat>, j: nat): seq<nat> {
    if |s| <= j then s else s[..j]
  }

  lemma UptoNext(s: seq<nat>, j: nat)
    ensures forall k :: k in Upto(s, j + 1) <==> k in Upto(s, j) || k in Nth(s, j)
    ensures DistinctKeys(s) ==> forall k | k in Nth(s, j) :: k !in Upto(s, j)
    ensures DistinctKeys(Nth(s, j)) && forall k | k in Nth(s, j) || k in Upto(s, j) :: k in s
  {
    assert Upto(s, j + 1) == Upto(s, j) + Nth(s, j);
  }

  lemma UpsAndDowns(t: Table, key: nat)
    ensures DistinctKeys(Ups(t, key)) && DistinctKeys(Downs(t, key))
    ensures forall k | k in Ups(t, key) :: k > t.Slot(key)
    ensures forall k | k in Downs(t, key) :: k < t.Slot(key)
  {
    AboveMembers(t, t.Slot(key) + 1, t.cfg.hashSize);
    BelowMembers(t, t.Slot(key));
  }

  lemma {:induction false} ReachedMember(t: Table, key: nat, j: nat, k: nat)
    ensures k in Reached(t, key, j) <==> k == t.Slot(key) || k in Upto(Ups(t, key), j) || k in Upto(Downs(t, key), j)
  {
    if j > 0 {
      ReachedMember(t, key, j - 1, k);
      UptoNext(Ups(t, key), j - 1);
      UptoNext(Downs(t, key), j - 1);
    }
  }

  lemma ReachedMembers(t: Table, key: nat, j: nat)
    ensures forall k :: k in Reached(t, key, j) <==> k == t.Slot(key) || k in Upto(Ups(t, key), j) || k in Upto(Downs(t, key), j)
  {
    forall k
      ensures k in Reached(t, key, j) <==> k == t.Slot(key) || k in Upto(Ups(t, key), j) || k in Upto(Downs(t, key), j)
    {
      ReachedMember(t, key, j, k);
    }
  }

  lemma {:induction false} ReachedDistinct(t: Table, key: nat, j: nat)
    ensures DistinctKeys(Reached(t, key, j))
  {
    if j > 0 {
      var before, up, down := Reached(t, key, j - 1), Nth(Ups(t, key), j - 1), Nth(Downs(t, key), j - 1);
      ReachedDistinct(t, key, j - 1);
      NewInRound(t, key, j - 1);
      DistinctKeysConcat(before, up);
      DistinctKeysConcat(before + up, down);
    }
  }

  // The buckets of the next round are new, and different.
  lemma NewInRound(t: Table, key: nat, j: nat)
    ensures var before, up, down := Reached(t, key, j), Nth(Ups(t, key), j), Nth(Downs(t, key), j);
            && DistinctKeys(up) && DistinctKeys(down)
            && (forall k | k in before :: k !in up && k !in down) && forall k | k in up :: k !in down
  {
    UpsAndDowns(t, key);
    UptoNext(Ups(t, key), j);
    UptoNext(Downs(t, key), j);
    forall k | k in Reached(t, key, j)
      ensures k !in Nth(Ups(t, key), j) && k !in Nth(Downs(t, key), j)
    {
      ReachedMember(t, key, j, k);
    }
  }

  lemma LastReached(t: Table, key: nat)
    requires t.Ok()
    ensures multiset(Reached(t, key, LastRound(t, key))) == multiset(Reach(t, t.Slot(key)))
  {
    ReachedMembers(t, key, LastRound(t, key));
    ReachedDistinct(t, key, LastRound(t, key));
    ReachMembers(t, t.Slot(key));
    DistinctMultiset(Reached(t, key, LastRound(t, key)), Reach(t, t.Slot(key)));
  }

  lemma AllReached(t: Table, key: nat)
    requires t.Ok()
    ensures forall c | c in t.buckets :: c in Reached(t, key, LastRound(t, key))
  {
    LastReached(t, key);
    ReachMembers(t, t.Slot(key));
    forall c | c in t.buckets
      ensures c in Reached(t, key, LastRound(t, key))
    {
      assert c in t.keys && c in multiset(Reach(t, t.Slot(key)));
      assert c in multiset(Reached(t, key, LastRound(t, key)));
    }
  }

  lemma ScanOrderIsAll(t: Table, key: nat)
    requires t.Ok()
    ensures multiset(ScanOrder(t, key)) == multiset(Without(t.AllPeers(), key))
    ensures DistinctIds(ScanOrder(t, key)) && |ScanOrder(t, key)| == |Without(t.AllPeers(), key)|
  {
    var reached := Reached(t, key, LastRound(t, key));
    LastReached(t, key);
    ReachGathers(t, t.Slot(key));
    GatherReordered(reached, Reach(t, t.Slot(key)), t.buckets);
    GatherDistinct(t, t.keys);
    IdsFromMultiset(t.AllPeers(), Gather(reached, t.buckets));
    WithoutReordered(Gather(reached, t.buckets), t.AllPeers(), key);
    WithoutDistinct(Gather(reached, t.buckets), key);
    IdsFromMultiset(ScanOrder(t, key), Without(t.AllPeers(), key));
  }

  // ----- where the scan stops -----

  function From(s: seq<nat>, j: nat): seq<nat> {
    if j <= |s| then s[j..] else []
  }

  lemma FromNext(s: seq<nat>, j: nat)
    ensures Rest(From(s, j)) == From(s, j + 1) && Prefix(From(s, j), 1) == Nth(s, j)
  {
  }

  // One round of the scan adds the next two buckets.
  lemma RoundAdds(t: Table, key: nat, j: nat)
    ensures AddedFirst(t, key, From(Downs(t, key), j), AddedFirst(t, key, From(Ups(t, key), j), Met(t, key, j))) ==
            Met(t, key, j + 1)
  {
    var ups, downs, seen := Ups(t, key), Downs(t, key), Reached(t, key, j);
    FromNext(ups, j);
    FromNext(downs, j);
    AddedIsPrefix(t, key, seen, From(ups, j));
    AddedIsPrefix(t, key, seen + Nth(ups, j), From(downs, j));
  }

  // No round before number j ends with exactly `count` peers.
  predicate NoStopBefore(t: Table, key: nat, count: nat, j: nat) {
    forall i: nat | i < j :: Size(t, key, i) != count
  }

  lemma NoStopYet(t: Table, key: nat, count: nat, j: nat)
    requires NoStopBefore(t, key, count, j) && |Met(t, key, j)| != count
    ensures NoStopBefore(t, key, count, j + 1)
  {
  }

  // The round in which the scan stops: the first that ends with exactly `count` peers, or the last.
  predicate StopsAfter(t: Table, key: nat, count: nat, s: nat) {
    && NoStopBefore(t, key, count, s)
    && (Size(t, key, s) == count || s >= LastRound(t, key))
  }

  lemma {:induction false} StopFromStops(t: Table, key: nat, count: nat, j: nat)
    requires j <= LastRound(t, key) && forall i: nat | i < j :: Size(t, key, i) != count
    ensures StopsAfter(t, key, count, StopFrom(t, key, count, j)) && StopFrom(t, key, count, j) <= LastRound(t, key)
    decreases LastRound(t, key) - j
  {
    if Size(t, key, j) != count && j < LastRound(t, key) {
      StopFromStops(t, key, count, j + 1);
    }
  }

  lemma FirstBucket(t: Table, key: nat)
    ensures Added(t, key, t.Slot(key), []) == Met(t, key, 0)
  {
    var b := t.Slot(key);
    assert Gather([b], t.buckets) == t.Bucket(b);
  }

  lemma CollectedStops(t: Table, key: nat, count: nat) returns (s: nat)
    ensures StopsAfter(t, key, count, s) && Collected(t, key, count) == Met(t, key, s)
  {
    s := StopFrom(t, key, count, 0);
    StopFromStops(t, key, count, 0);
  }

  // Wherever a scan finds that it may stop, it has collected the same.
  lemma StopsAlike(t: Table, key: nat, count: nat, s: nat)
    requires StopsAfter(t, key, count, s)
    ensures Collected(t, key, count) == Met(t, key, s)
  {
    var z := StopFrom(t, key, count, 0);
    StopFromStops(t, key, count, 0);
    if z < s {
      CandidatesExtend(t, key, z, s);
    }
  }

  // The scan may stop with `count` peers, or with nothing left in either direction.
  lemma MayStop(t: Table, key: nat, count: nat, j: nat)
    requires NoStopBefore(t, key, count, j)
    requires |Met(t, key, j)| == count || (From(Ups(t, key), j) == [] && From(Downs(t, key), j) == [])
    ensures Collected(t, key, count) == Met(t, key, j)
  {
    StopsAlike(t, key, count, j);
  }

  // What is collected is a prefix of one fixed order of all candidates, whose length depends on the sizes
  // after each round alone: `count` if some round ends with just that many, else all up to BIT_SIZE.
  lemma CollectedExactly(t: Table, key: nat, count: nat)
    requires t.Ok()
    ensures var c, order := Collected(t, key, count), ScanOrder(t, key);
            && c <= order
            && |c| == if exists j: nat :: Size(t, key, j) == count then count else Min(t.cfg.bits, |order|)
  {
    var s := CollectedStops(t, key, count);
    CandidatesInOrder(t, key, s);
    if Size(t, key, s) != count {
      forall j: nat
        ensures Size(t, key, j) != count
      {
        if j >= s {
          CandidatesInOrder(t, key, j);
        }
      }
    }
  }
}
