// What `findNode` answers: its contract, which peers it names, and where it agrees with `findClosestNode`.
module Answers {
  import opened Numbers
  import opened Metric
  import opened Peers
  import opened Tables
  import opened Lookups
  import opened Scans
  import opened TableOrders

  // The peers that can be answered.
  function Others(t: Table, key: nat): seq<Peer> {
    Without(t.AllPeers(), key)
  }

  // The answer lists what the scan collects, none twice, farthest first.
  lemma AnswerSorted(t: Table, key: nat, count: nat)
    requires t.Ok()
    ensures var c, r := Collected(t, key, count), FindNode(t, key, count);
            && (forall p :: p in r <==> p in c) && |r| == |c|
            && DistinctIds(r) && StrictlyFarFirst(r, key)
  {
    var c, r := Collected(t, key, count), FindNode(t, key, count);
    CollectedExactly(t, key, count);
    ScanOrderIsAll(t, key);
    FarFirstStrict(c, key);
    MembersFromMultiset(c, r);
    MembersFromMultiset(r, c);
  }

  // For every count: the answer is as long as `count` if some round of the scan ends with just that many
  // peers, and otherwise lists all there are, up to BIT_SIZE.
  lemma AnswerLength(t: Table, key: nat, count: nat)
    requires t.Ok()
    ensures |FindNode(t, key, count)| ==
            if exists j: nat :: Size(t, key, j) == count then count else Min(t.cfg.bits, |Others(t, key)|)
  {
    AnswerSorted(t, key, count);
    CollectedExactly(t, key, count);
    ScanOrderIsAll(t, key);
  }

  lemma SizeBounded(t: Table, key: nat, j: nat)
    requires t.Ok()
    ensures Size(t, key, j) <= Min(t.cfg.bits, |Others(t, key)|)
  {
    CandidatesInOrder(t, key, j);
    ScanOrderIsAll(t, key);
  }

  lemma OthersMembers(t: Table, key: nat)
    requires t.Ok()
    ensures forall p :: p in Others(t, key) <==> t.Stores(p) && p.nodeId != key
    ensures forall p :: p in ScanOrder(t, key) <==> p in Others(t, key)
  {
    AllPeersStored(t);
    WithoutMembers(t.AllPeers(), key);
    ScanOrderIsAll(t, key);
    MembersFromMultiset(ScanOrder(t, key), Others(t, key));
    MembersFromMultiset(Others(t, key), ScanOrder(t, key));
  }

  // Stored peers other than the key, none twice, farthest first; as many as asked for when there are so
  // many, and never more than BIT_SIZE.
  lemma FindNodeContract(t: Table, key: nat, count: nat)
    requires t.Ok()
    ensures var r, all := FindNode(t, key, count), Others(t, key);
            && (forall p | p in r :: t.Stores(p) && p.nodeId != key)
            && DistinctIds(r)
            && StrictlyFarFirst(r, key)
            && Min(Min(count, t.cfg.bits), |all|) <= |r| <= Min(t.cfg.bits, |all|)
  {
    AnswerSorted(t, key, count);
    AnswerLength(t, key, count);
    CollectedExactly(t, key, count);
    OthersMembers(t, key);
    if j: nat :| Size(t, key, j) == count {
      SizeBounded(t, key, j);
    }
  }

  // ----- who is answered -----

  // The round of the scan that reaches bucket c: one more than the occupied buckets between it and the key's.
  function RoundOf(t: Table, b: nat, c: nat): nat {
    if c == b then 0 else if c > b then 1 + |Above(t, b + 1, c)| else 1 + |Above(t, c + 1, b)|
  }

  lemma {:induction false} AboveSplits(t: Table, lo: nat, c: nat, hi: nat)
    requires lo <= c < hi && c in t.buckets
    ensures Above(t, lo, hi) == Above(t, lo, c) + [c] + Above(t, c + 1, hi)
    decreases c - lo
  {
    if lo < c {
      AboveSplits(t, lo + 1, c, hi);
    }
  }

  lemma {:induction false} AboveSnoc(t: Table, lo: nat, hi: nat)
    requires lo <= hi
    ensures Above(t, lo, hi + 1) == Above(t, lo, hi) + if hi in t.buckets then [hi] else []
    decreases hi - lo
  {
    if lo < hi {
      AboveSnoc(t, lo + 1, hi);
    }
  }

  lemma {:induction false} BelowIndex(t: Table, c: nat, hi: nat)
    requires c < hi && c in t.buckets
    ensures var i := |Above(t, c + 1, hi)|; i < |Below(t, hi)| && Below(t, hi)[i] == c
  {
    if c < hi - 1 {
      BelowIndex(t, c, hi - 1);
      AboveSnoc(t, c + 1, hi - 1);
    }
  }

  lemma UptoIndex(s: seq<nat>, i: nat, j: nat)
    requires DistinctKeys(s) && i < |s|
    ensures s[i] in Upto(s, j) <==> i < j
  {
    if i < j {
      assert Upto(s, j)[i] == s[i];
    }
  }

  lemma ReachedIff(t: Table, key: nat, c: nat, j: nat)
    requires t.Ok() && c in t.buckets
    ensures c in Reached(t, key, j) <==> RoundOf(t, t.Slot(key), c) <= j
  {
    var b, ups, downs := t.Slot(key), Ups(t, key), Downs(t, key);
    ReachedMember(t, key, j, c);
    UpsAndDowns(t, key);
    UptoNext(ups, j);
    UptoNext(downs, j);
    assert t.BucketOk(c);
    if c > b {
      AboveSplits(t, b + 1, c, t.cfg.hashSize);
      UptoIndex(ups, |Above(t, b + 1, c)|, j);
    } else if c < b {
      BelowIndex(t, c, b);
      UptoIndex(downs, |Above(t, c + 1, b)|, j);
    }
  }

  lemma MetIff(t: Table, key: nat, p: Peer, j: nat)
    requires t.Ok() && t.Stores(p) && p.nodeId != key
    ensures p in Candidates(t, key, Reached(t, key, j)) <==> RoundOf(t, t.Slot(key), t.Slot(p.nodeId)) <= j
  {
    GatherMembers(t, Reached(t, key, j));
    WithoutMembers(Gather(Reached(t, key, j), t.buckets), key);
    ReachedIff(t, key, t.Slot(p.nodeId), j);
  }

  // The place of a peer in the order of the scan.
  function Place(t: Table, key: nat, p: Peer): nat
    requires p.nodeId in Ids(ScanOrder(t, key))
  {
    IndexOf(ScanOrder(t, key), p.nodeId)
  }

  // The scan meets p before q: in an earlier round, or in the same one upwards instead of downwards, or in the
  // same bucket at an earlier place.
  ghost predicate MetBefore(t: Table, key: nat, p: Peer, q: Peer) {
    var i, j := t.Slot(p.nodeId), t.Slot(q.nodeId);
    var r, s := RoundOf(t, t.Slot(key), i), RoundOf(t, t.Slot(key), j);
    r < s || (r == s && i > j) || (i == j && Before(t.Bucket(i), p, q))
  }

  lemma IndexIn(s: seq<nat>, k: nat) returns (i: nat)
    requires k in s
    ensures i < |s| && s[i] == k
  {
    i :| 0 <= i < |s| && s[i] == k;
  }

  lemma InsideThenBehind(front: seq<nat>, s: seq<nat>, i: nat, j: nat) returns (x: nat, y: nat)
    requires front <= s && i in front && j !in front && j in s
    ensures x < y < |s| && s[x] == i && s[y] == j
  {
    var rest := s[|front|..];
    assert s == front + rest;
    x := IndexIn(front, i);
    var n := IndexIn(rest, j);
    y := |front| + n;
  }

  // Where two buckets lie among those that the scan reaches.
  lemma ReachedInOrder(t: Table, key: nat, i: nat, j: nat) returns (x: nat, y: nat)
    requires t.Ok() && i in t.buckets && j in t.buckets
    requires var r, s := RoundOf(t, t.Slot(key), i), RoundOf(t, t.Slot(key), j); r < s || (r == s && i > j)
    ensures var reached := Reached(t, key, LastRound(t, key)); x < y < |reached| && reached[x] == i && reached[y] == j
  {
    var reached := Reached(t, key, LastRound(t, key));
    var r, s := RoundOf(t, t.Slot(key), i), RoundOf(t, t.Slot(key), j);
    AllReached(t, key);
    ReachedIff(t, key, i, LastRound(t, key));
    ReachedIff(t, key, j, LastRound(t, key));
    if r < s {
      ReachedIff(t, key, i, s - 1);
      ReachedIff(t, key, j, s - 1);
      ReachedExtends(t, key, s - 1, LastRound(t, key));
      x, y := InsideThenBehind(Reached(t, key, s - 1), reached, i, j);
    } else {
      x, y := SameRound(t, key, i, j, r);
      ReachedExtends(t, key, r, LastRound(t, key));
    }
  }

  // Of two buckets of the same round, the upper one comes first.
  lemma SameRound(t: Table, key: nat, i: nat, j: nat, r: nat) returns (x: nat, y: nat)
    requires t.Ok() && i in t.buckets && j in t.buckets && i > j
    requires RoundOf(t, t.Slot(key), i) == r == RoundOf(t, t.Slot(key), j)
    ensures x < y < |Reached(t, key, r)| && Reached(t, key, r)[x] == i && Reached(t, key, r)[y] == j
  {
    var up, down := Nth(Ups(t, key), r - 1), Nth(Downs(t, key), r - 1);
    var before := Reached(t, key, r - 1);
    ReachedIff(t, key, i, r);
    ReachedIff(t, key, j, r);
    ReachedIff(t, key, i, r - 1);
    ReachedIff(t, key, j, r - 1);
    UpsAndDowns(t, key);
    UptoNext(Ups(t, key), r - 1);
    UptoNext(Downs(t, key), r - 1);
    assert Reached(t, key, r) == before + up + down;
    assert i in up && j in down;
    x, y := |before|, |before| + 1;
  }

  // This settles the order of the scan for any two candidates of any table.
  lemma PlacesInOrder(t: Table, key: nat, p: Peer, q: Peer)
    requires t.Ok() && t.Stores(p) && t.Stores(q) && p.nodeId != key && q.nodeId != key && MetBefore(t, key, p, q)
    ensures p in ScanOrder(t, key) && q in ScanOrder(t, key) && Place(t, key, p) < Place(t, key, q)
  {
    var reached := Reached(t, key, LastRound(t, key));
    var i, j := t.Slot(p.nodeId), t.Slot(q.nodeId);
    var x, y;
    if i == j {
      AllReached(t, key);
      x := IndexIn(reached, i);
      y := x;
    } else {
      x, y := ReachedInOrder(t, key, i, j);
    }
    GatherInOrder(reached, t.buckets, x, y, p, q);
    WithoutKeepsOrder(Gather(reached, t.buckets), key, p, q);
    ScanOrderIsAll(t, key);
    BeforeIndex(ScanOrder(t, key), p, q);
  }

  // No round before the one that reaches the peer's bucket ends with exactly `count` peers, and the peer is
  // among the first BIT_SIZE.
  ghost predicate IsMet(t: Table, key: nat, count: nat, p: Peer)
    requires p.nodeId in Ids(ScanOrder(t, key))
  {
    && (forall i: nat | i < RoundOf(t, t.Slot(key), t.Slot(p.nodeId)) :: Size(t, key, i) != count)
    && Place(t, key, p) < t.cfg.bits
  }

  lemma InPrefix(s: seq<Peer>, p: Peer, n: nat)
    requires DistinctIds(s) && p in s && n <= |s|
    ensures p in s[..n] <==> IndexOf(s, p.nodeId) < n
  {
    var i := IndexOf(s, p.nodeId);
    var j :| 0 <= j < |s| && s[j] == p;
    assert i == j;
  }

  lemma PrefixOfPrefix(order: seq<Peer>, seen: seq<Peer>, n: nat, p: Peer)
    requires DistinctIds(order) && seen <= order && p in order
    ensures p in Prefix(seen, n) <==> IndexOf(order, p.nodeId) < n && p in seen
  {
    InPrefix(order, p, |seen|);
    InPrefix(order, p, |Prefix(seen, n)|);
    assert order[..|seen|] == seen && order[..|Prefix(seen, n)|] == Prefix(seen, n);
  }

  lemma StopRound(t: Table, key: nat, count: nat, s: nat, round: nat)
    requires StopsAfter(t, key, count, s) && round <= LastRound(t, key)
    ensures round <= s <==> forall i: nat | i < round :: Size(t, key, i) != count
  {
  }

  // By the end of round s the scan has collected p.
  lemma MetBy(t: Table, key: nat, p: Peer, s: nat)
    requires t.Ok() && t.Stores(p) && p.nodeId != key
    ensures p in ScanOrder(t, key) && RoundOf(t, t.Slot(key), t.Slot(p.nodeId)) <= LastRound(t, key)
    ensures p in Met(t, key, s) <==> Place(t, key, p) < t.cfg.bits && RoundOf(t, t.Slot(key), t.Slot(p.nodeId)) <= s
  {
    OthersMembers(t, key);
    ScanOrderIsAll(t, key);
    CandidatesInOrder(t, key, s);
    MetIff(t, key, p, s);
    MetIff(t, key, p, LastRound(t, key));
    PrefixOfPrefix(ScanOrder(t, key), Candidates(t, key, Reached(t, key, s)), t.cfg.bits, p);
  }

  // Exactly who is answered, for every table, key and count.
  lemma AnsweredIff(t: Table, key: nat, count: nat, p: Peer)
    requires t.Ok() && t.Stores(p) && p.nodeId != key
    ensures p in ScanOrder(t, key)
    ensures p in FindNode(t, key, count) <==> IsMet(t, key, count, p)
  {
    AnswerSorted(t, key, count);
    var s := CollectedStops(t, key, count);
    MetBy(t, key, p, s);
    StopRound(t, key, count, s, RoundOf(t, t.Slot(key), t.Slot(p.nodeId)));
  }

  // ----- the nearest peer -----

  lemma LastIsNearest(r: seq<Peer>, key: nat)
    requires r != [] && StrictlyFarFirst(r, key)
    ensures forall q | q in r :: q == r[|r| - 1] || Distance(r[|r| - 1], key) < Distance(q, key)
  {
  }

  lemma NearestIsLast(r: seq<Peer>, key: nat, p: Peer)
    requires StrictlyFarFirst(r, key) && p in r && forall q | q in r :: q == p || Distance(p, key) < Distance(q, key)
    ensures r[|r| - 1] == p
  {
    LastIsNearest(r, key);
  }

  lemma NearestComesLast(t: Table, key: nat, count: nat, p: Peer)
    requires t.Ok() && IsClosest(Others(t, key), key, p)
    ensures var r := FindNode(t, key, count); p in r <==> r != [] && r[|r| - 1] == p
  {
    var r := FindNode(t, key, count);
    FindNodeContract(t, key, count);
    OthersMembers(t, key);
    if p in r {
      assert forall q | q in r :: q in Others(t, key);
      NearestIsLast(r, key, p);
    }
  }

  // The nearest peer other than the key is the last one answered if and only if the scan meets it.
  lemma NearestAnsweredIff(t: Table, key: nat, count: nat, p: Peer)
    requires t.Ok() && IsClosest(Others(t, key), key, p)
    ensures p in ScanOrder(t, key)
    ensures var r := FindNode(t, key, count);
            && (p in r <==> IsMet(t, key, count, p))
            && (r != [] && r[|r| - 1] == p <==> IsMet(t, key, count, p))
  {
    NearestComesLast(t, key, count, p);
    OthersMembers(t, key);
    AnsweredIff(t, key, count, p);
  }

  // ----- the key's own class -----

  // The stored peers of the key's own class: those in its bucket, the key and the owner aside.
  function Mates(t: Table, key: nat): seq<Peer> {
    if key == t.self then [] else Without(Without(t.Bucket(t.Slot(key)), key), t.self)
  }

  lemma MatesMembers(t: Table, key: nat)
    requires t.Ok() && InKeySpace(t) && key < Pow2(t.cfg.bits)
    ensures forall p :: p in Mates(t, key) <==> t.Stores(p) && p.nodeId != key && ClassIn(t, p.nodeId) == ClassIn(t, key)
    ensures DistinctIds(Mates(t, key)) && forall p | p in Mates(t, key) :: p in Without(t.Bucket(t.Slot(key)), key)
  {
    var ps := t.Bucket(t.Slot(key));
    BucketDistinct(t, t.Slot(key));
    WithoutMembers(ps, key);
    WithoutMembers(Without(ps, key), t.self);
    WithoutDistinct(ps, key);
    WithoutDistinct(Without(ps, key), t.self);
    OwnClass(t.self, key, t.cfg.bits);
    forall p | t.Stores(p)
      ensures ClassIn(t, p.nodeId) == -1 <==> p.nodeId == t.self
    {
      OwnClass(t.self, p.nodeId, t.cfg.bits);
    }
  }

  // Every mate is nearer than everybody else in the table.
  lemma MatesAreNearest(t: Table, key: nat, p: Peer, q: Peer)
    requires t.Ok() && InKeySpace(t) && key < Pow2(t.cfg.bits)
    requires p in Mates(t, key) && t.Stores(q) && q.nodeId != key && q !in Mates(t, key)
    ensures Distance(p, key) < Distance(q, key)
  {
    MatesMembers(t, key);
    OwnClassNearest(t.self, key, t.cfg.bits, ClassIn(t, q.nodeId));
    StoredRanked(t, key, p, q);
  }

  lemma MatesAnswered(t: Table, key: nat, count: nat)
    requires t.Ok() && InKeySpace(t) && key < Pow2(t.cfg.bits)
    ensures forall p | p in Mates(t, key) :: p in FindNode(t, key, count)
  {
    var own := Without(t.Bucket(t.Slot(key)), key);
    MatesMembers(t, key);
    BucketDistinct(t, t.Slot(key));
    WithoutShorter(t.Bucket(t.Slot(key)), key);
    FirstBucket(t, key);
    assert Met(t, key, 0) == own;
    var s := CollectedStops(t, key, count);
    CandidatesExtend(t, key, 0, s);
    assert own <= Met(t, key, s);
    AnswerSorted(t, key, count);
  }

  ghost predicate EndsWith(r: seq<Peer>, tail: seq<Peer>) {
    |tail| <= |r| && forall p :: p in r[|r| - |tail|..] <==> p in tail
  }

  // In a list that falls in distance, peers nearer than the rest come last.
  lemma {:induction false} NearestLast(r: seq<Peer>, near: seq<Peer>, key: nat)
    requires DistinctIds(r) && DistinctIds(near) && StrictlyFarFirst(r, key) && forall p | p in near :: p in r
    requires forall p, q | p in near && q in r && q !in near :: Distance(p, key) < Distance(q, key)
    ensures EndsWith(r, near)
  {
    if r != [] && r[0] !in near {
      assert forall p | p in r :: p == r[0] || p in r[1..];
      NearestLast(r[1..], near, key);
      assert r[|r| - |near|..] == r[1..][|r| - 1 - |near|..];
    } else {
      assert forall p :: p in r <==> p in near;
      IdsCount(r);
      IdsCount(near);
      assert Ids(r) == Ids(near);
    }
  }

  // The peers of the key's own class, the nearest of the whole table, close the answer for every `count`.
  lemma FindNodeEndsWithMates(t: Table, key: nat, count: nat)
    requires t.Ok() && InKeySpace(t) && key < Pow2(t.cfg.bits)
    ensures EndsWith(FindNode(t, key, count), Mates(t, key))
    ensures forall p, q | p in Mates(t, key) && t.Stores(q) && q.nodeId != key && q !in Mates(t, key) ::
              Distance(p, key) < Distance(q, key)
  {
    forall p, q | p in Mates(t, key) && t.Stores(q) && q.nodeId != key && q !in Mates(t, key)
      ensures Distance(p, key) < Distance(q, key)
    {
      MatesAreNearest(t, key, p, q);
    }
    FindNodeContract(t, key, count);
    MatesMembers(t, key);
    MatesAnswered(t, key, count);
    NearestLast(FindNode(t, key, count), Mates(t, key), key);
  }

  // With a peer of the key's own class stored, the last answer is the nearest peer of all.
  lemma FindNodeLastIsClosest(t: Table, key: nat, count: nat)
    requires t.Ok() && InKeySpace(t) && key < Pow2(t.cfg.bits) && Mates(t, key) != []
    ensures var r := FindNode(t, key, count);
            && r != [] && IsClosest(Others(t, key), key, r[|r| - 1])
            && (!t.Holds(key) ==> IsClosest(t.AllPeers(), key, r[|r| - 1]))
  {
    var r, mates := FindNode(t, key, count), Mates(t, key);
    FindNodeContract(t, key, count);
    FindNodeEndsWithMates(t, key, count);
    LastIsNearest(r, key);
    OthersMembers(t, key);
    MatesAnswered(t, key, count);
    var last := r[|r| - 1];
    assert last in r[|r| - |mates|..];
    forall q | q in Others(t, key)
      ensures q == last || Distance(last, key) < Distance(q, key)
    {
      if q !in mates {
        MatesAreNearest(t, key, last, q);
      }
    }
    if !t.Holds(key) {
      AllPeersStored(t);
    }
  }

  // ----- looking up the owner itself -----

  // A list of peers whose buckets never rise.
  predicate BucketsFall(t: Table, ps: seq<Peer>) {
    forall i, j | 0 <= i < j < |ps| :: t.Slot(ps[j].nodeId) <= t.Slot(ps[i].nodeId)
  }

  lemma BelowGathered(t: Table, hi: nat)
    requires t.Ok()
    ensures forall p | p in Gather(Below(t, hi), t.buckets) :: t.Slot(p.nodeId) < hi
  {
    BelowMembers(t, hi);
    GatherMembers(t, Below(t, hi));
  }

  lemma GatherDown(t: Table, hi: nat)
    requires hi > 0
    ensures Gather(Below(t, hi), t.buckets) == t.Bucket(hi - 1) + Gather(Below(t, hi - 1), t.buckets)
  {
    if hi - 1 in t.buckets {
      assert Below(t, hi)[1..] == Below(t, hi - 1);
    } else {
      assert Below(t, hi) == Below(t, hi - 1);
    }
  }

  lemma {:induction false} GatherFalls(t: Table, hi: nat)
    requires t.Ok()
    ensures BucketsFall(t, Gather(Below(t, hi), t.buckets))
  {
    if hi > 0 {
      GatherFalls(t, hi - 1);
      GatherDown(t, hi);
      BelowGathered(t, hi - 1);
      BucketDistinct(t, hi - 1);
      FallsConcat(t, t.Bucket(hi - 1), Gather(Below(t, hi - 1), t.buckets), hi - 1);
    }
  }

  lemma FallsConcat(t: Table, a: seq<Peer>, b: seq<Peer>, c: nat)
    requires BucketsFall(t, b) && (forall p | p in a :: t.Slot(p.nodeId) == c) && forall p | p in b :: t.Slot(p.nodeId) <= c
    ensures BucketsFall(t, a + b)
  {
    var ps := a + b;
    forall i, j | 0 <= i < j < |ps|
      ensures t.Slot(ps[j].nodeId) <= t.Slot(ps[i].nodeId)
    {
      assert if i < |a| then ps[i] in a else ps[i] == b[i - |a|];
      assert if j < |a| then ps[j] in a else ps[j] == b[j - |a|] && ps[j] in b;
    }
  }

  lemma WithoutFalls(t: Table, ps: seq<Peer>, id: nat)
    requires BucketsFall(t, ps)
    ensures BucketsFall(t, Without(ps, id))
  {
    if ps != [] {
      WithoutFalls(t, ps[1..], id);
      WithoutMembers(ps[1..], id);
      forall p | p in ps[1..]
        ensures t.Slot(p.nodeId) <= t.Slot(ps[0].nodeId)
      {
        var i :| 0 <= i < |ps[1..]| && ps[1..][i] == p;
        assert ps[i + 1] == p;
      }
    }
  }

  lemma {:induction false} NothingAbove(t: Table, lo: nat, hi: nat)
    requires forall k | lo <= k < hi :: k !in t.buckets
    ensures Above(t, lo, hi) == []
    decreases hi - lo
  {
    if lo < hi {
      NothingAbove(t, lo + 1, hi);
    }
  }

  lemma TopBucketFirst(t: Table)
    requires t.Ok()
    ensures Ups(t, t.self) == [] && t.Slot(t.self) == t.cfg.bits - 1
  {
    OwnBucketIndex(t.self, t.cfg.bits);
    forall k | k in t.buckets
      ensures k < t.cfg.bits
    {
      assert t.BucketOk(k);
    }
    NothingAbove(t, t.cfg.bits, t.cfg.hashSize);
  }

  // The scan for the owner's own id starts in the top bucket and goes down.
  lemma {:induction false} ReachedDown(t: Table, j: nat)
    requires t.Ok()
    ensures Reached(t, t.self, j) == [t.cfg.bits - 1] + Upto(Downs(t, t.self), j)
  {
    TopBucketFirst(t);
    if j > 0 {
      ReachedDown(t, j - 1);
    }
  }

  lemma OwnOrderFalls(t: Table)
    requires t.Ok()
    ensures BucketsFall(t, ScanOrder(t, t.self))
  {
    var top, downs := t.cfg.bits - 1, Downs(t, t.self);
    var j := LastRound(t, t.self);
    ReachedDown(t, j);
    TopBucketFirst(t);
    assert Reached(t, t.self, j) == [top] + downs;
    var all := Gather([top] + downs, t.buckets);
    assert all == t.Bucket(top) + Gather(downs, t.buckets);
    BucketDistinct(t, top);
    GatherFalls(t, top);
    BelowGathered(t, top);
    FallsConcat(t, t.Bucket(top), Gather(downs, t.buckets), top);
    WithoutFalls(t, all, t.self);
  }

  lemma BehindPrefix(order: seq<Peer>, c: seq<Peer>, p: Peer, q: Peer) returns (i: nat, j: nat)
    requires c <= order && p in c && q in order && q !in c
    ensures i < j < |order| && order[i] == p && order[j] == q
  {
    i :| 0 <= i < |c| && c[i] == p;
    var rest := order[|c|..];
    assert order == c + rest;
    var n :| 0 <= n < |rest| && rest[n] == q;
    j := |c| + n;
  }

  // The answer to the owner's own id leaves out no bucket above one that it takes from.
  lemma OwnPlaces(t: Table, count: nat, p: Peer, q: Peer)
    requires t.Ok() && p in FindNode(t, t.self, count)
    requires t.Stores(q) && q.nodeId != t.self && q !in FindNode(t, t.self, count)
    ensures t.Slot(q.nodeId) <= t.Slot(p.nodeId)
  {
    AnswerSorted(t, t.self, count);
    CollectedExactly(t, t.self, count);
    OthersMembers(t, t.self);
    OwnOrderFalls(t);
    var i, j := BehindPrefix(ScanOrder(t, t.self), Collected(t, t.self, count), p, q);
  }

  lemma OwnRanked(t: Table, p: Peer, q: Peer)
    requires InKeySpace(t) && t.Stores(p) && t.Stores(q) && p.nodeId != t.self && q.nodeId != t.self
    requires t.Slot(q.nodeId) < t.Slot(p.nodeId)
    ensures Distance(q, t.self) < Distance(p, t.self)
  {
    BucketIsDistanceClass(t.self, p.nodeId, t.cfg.bits, t.Slot(p.nodeId));
    BucketIsDistanceClass(t.self, q.nodeId, t.cfg.bits, t.Slot(q.nodeId));
    Pow2Monotone(t.Slot(q.nodeId) + 1, t.Slot(p.nodeId));
    XorCommutes(p.nodeId, t.self);
    XorCommutes(q.nodeId, t.self);
  }

  // Distinct peers of one bucket are no more than it holds.
  lemma BucketHolds(t: Table, ps: seq<Peer>, c: nat)
    requires t.Ok() && DistinctIds(ps) && forall p | p in ps :: p in t.Bucket(c)
    ensures |ps| <= t.cfg.k
  {
    BucketDistinct(t, c);
    IdsCount(ps);
    IdsCount(t.Bucket(c));
    assert Ids(t.Bucket(c)) == Ids(ps) + (Ids(t.Bucket(c)) - Ids(ps));
  }

  // Peers met at falling bucket numbers, from bucket c to bucket c, fit in that bucket.
  lemma OneBucketFirst(t: Table, order: seq<Peer>, j: nat, c: nat)
    requires t.Ok() && BucketsFall(t, order) && DistinctIds(order) && j < |order|
    requires forall p | p in order :: t.Stores(p)
    requires t.Slot(order[0].nodeId) == c == t.Slot(order[j].nodeId)
    ensures j < t.cfg.bits
  {
    var ps := order[..j + 1];
    forall p | p in ps
      ensures p in t.Bucket(c)
    {
      var n :| 0 <= n <= j && order[n] == p;
      assert p in order;
    }
    BucketHolds(t, ps, c);
  }

  lemma OwnFirst(t: Table, count: nat) returns (first: Peer)
    requires t.Ok() && FindNode(t, t.self, count) != []
    ensures first in FindNode(t, t.self, count) && ScanOrder(t, t.self) != [] && ScanOrder(t, t.self)[0] == first
  {
    AnswerSorted(t, t.self, count);
    CollectedExactly(t, t.self, count);
    first := Collected(t, t.self, count)[0];
  }

  // The first bucket with a peer is answered whole.
  lemma FirstBucketWhole(t: Table, count: nat, q: Peer)
    requires t.Ok() && t.Stores(q) && q.nodeId != t.self && FindNode(t, t.self, count) != []
    requires forall p | p in FindNode(t, t.self, count) :: t.Slot(p.nodeId) == t.Slot(q.nodeId)
    ensures q in FindNode(t, t.self, count)
  {
    var order := ScanOrder(t, t.self);
    var first := OwnFirst(t, count);
    OwnOrderFalls(t);
    OthersMembers(t, t.self);
    ScanOrderIsAll(t, t.self);
    assert first in order && q in order;
    OneBucketFirst(t, order, Place(t, t.self, q), t.Slot(q.nodeId));
    AnsweredIff(t, t.self, count, first);
    AnsweredIff(t, t.self, count, q);
  }

  // A search is for the node's own id: its table names the farthest peers it has, whole buckets before
  // nearer ones, and the candidate of the search is the farthest peer of all.
  lemma OwnLookup(t: Table, count: nat, q: Peer)
    requires t.Ok() && InKeySpace(t) && count > 0 && t.Stores(q) && q.nodeId != t.self
    ensures var r := FindNode(t, t.self, count);
            && (q !in r ==> forall p | p in r :: t.Slot(q.nodeId) <= t.Slot(p.nodeId))
            && r != [] && Distance(q, t.self) <= Distance(r[0], t.self)
  {
    var r := FindNode(t, t.self, count);
    FindNodeContract(t, t.self, count);
    OthersMembers(t, t.self);
    assert q in Others(t, t.self);
    if q !in r {
      forall p | p in r
        ensures t.Slot(q.nodeId) <= t.Slot(p.nodeId)
      {
        OwnPlaces(t, count, p, q);
      }
      if forall p | p in r :: t.Slot(p.nodeId) == t.Slot(q.nodeId) {
        FirstBucketWhole(t, count, q);
      } else {
        var p :| p in r && t.Slot(p.nodeId) != t.Slot(q.nodeId);
        OwnRanked(t, p, q);
      }
    }
  }
}
