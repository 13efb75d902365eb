// What `findNode` does not promise, each with the exact condition under which it does.
module LookupLimits {
  import opened Numbers
  import opened Metric
  import opened Peers
  import opened Tables
  import opened Lookups
  import opened Scans
  import opened Answers

  // `count` is no upper bound: the answer is longer if and only if there are more peers to list and no round
  // of the scan ends with exactly `count`.
  lemma CountIsNoLimit(t: Table, key: nat, count: nat)
    requires t.Ok()
    ensures |FindNode(t, key, count)| > count <==>
            Min(t.cfg.bits, |Others(t, key)|) > count && forall j: nat :: Size(t, key, j) != count
  {
    AnswerLength(t, key, count);
  }

  // The answer starts with the farthest peer, and that is the search's candidate.
  lemma FirstIsFarthest(t: Table, key: nat, count: nat, p: Peer)
    requires t.Ok() && p in FindNode(t, key, count)
    ensures Distance(p, key) <= Distance(FindNode(t, key, count)[0], key)
  {
    FindNodeContract(t, key, count);
  }

  // ----- examples: tables of node 0 with the shipped constants -----

  lemma InTwo()
    ensures BucketIndex(0, 4, 5) == Class(0, 4, 5) == 2
  {
    assert Pow2(2) == 4;
    InClass(4, 2);
  }

  lemma InThree(id: nat)
    requires 8 <= id < 16
    ensures BucketIndex(0, id, 5) == Class(0, id, 5) == 3
  {
    assert Pow2(3) == 8;
    InClass(id, 3);
  }

  lemma InFour(id: nat)
    requires 16 <= id < 32
    ensures BucketIndex(0, id, 5) == Class(0, id, 5) == 4
  {
    assert Pow2(4) == 16;
    InClass(id, 4);
  }

  lemma InClass(id: nat, c: nat)
    requires c < 5 && Pow2(c) <= id < Pow2(c + 1)
    ensures BucketIndex(0, id, 5) == Class(0, id, 5) == c
  {
    Pow2Monotone(c + 1, 5);
    XorZero(id);
    BucketIsDistanceClass(0, id, 5, c);
    OwnClass(0, id, 5);
  }

  // A new contact is appended to its bucket while there is room.
  lemma Joins(t: Table, p: Peer, b: nat)
    requires t.Ok() && t.Slot(p.nodeId) == b && |t.Bucket(b)| < t.cfg.k && forall q | q in t.Bucket(b) :: q.nodeId != p.nodeId
    ensures var u := t.Contacted(p);
            && u.Ok() && u.cfg == t.cfg && u.self == t.self
            && forall c: nat :: u.Bucket(c) == if c == b then t.Bucket(c) + [p] else t.Bucket(c)
  {
    ContactedOk(t, p);
  }

  // The table of node 0 once it has heard of four contacts.
  function Heard(a: Peer, b: Peer, c: Peer, d: Peer): Table {
    EmptyTable(SHIPPED, 0).Contacted(a).Contacted(b).Contacted(c).Contacted(d)
  }

  function At(id: nat): Peer {
    Peer(id, id + 3000)
  }

  // The first round of a scan that starts in bucket 4, the top one, adds bucket 3.
  lemma FirstRound(t: Table, key: nat)
    requires t.Ok() && t.cfg == SHIPPED && t.Slot(key) == 4 && 3 in t.buckets
    ensures Size(t, key, 0) == Min(5, |Without(t.Bucket(4), key)|)
    ensures Size(t, key, 1) == Min(5, |Without(t.Bucket(4) + t.Bucket(3), key)|)
    ensures RoundOf(t, 4, 2) == 2
  {
    forall k | k in t.buckets
      ensures k < 5
    {
      assert t.BucketOk(k);
    }
    NothingAbove(t, 5, 32);
    assert Downs(t, key)[0] == 3;
    assert Reached(t, key, 0) == [4] && Reached(t, key, 1) == [4] + [] + [3];
    assert Gather([4], t.buckets) == t.Bucket(4) && Gather([3], t.buckets) == t.Bucket(3);
    GatherConcat([4], [3], t.buckets);
    assert Above(t, 3, 4) == [3] + Above(t, 4, 4);
  }

  lemma FirstTwo(i: nat, a: Peer, b: Peer)
    requires a.nodeId != b.nodeId && 3 <= i <= 4 && BucketIndex(0, a.nodeId, 5) == i && BucketIndex(0, b.nodeId, 5) == 3
    ensures var t := EmptyTable(SHIPPED, 0).Contacted(a).Contacted(b);
            && t.Ok() && t.cfg == SHIPPED && t.self == 0
            && (forall n: nat | n != 3 && n != 4 :: t.Bucket(n) == [])
            && t.Bucket(3) == (if i == 3 then [a, b] else [b]) && t.Bucket(4) == (if i == 4 then [a] else [])
  {
    var e := EmptyTable(SHIPPED, 0);
    Joins(e, a, i);
    Joins(e.Contacted(a), b, 3);
  }

  lemma TwoMore(t: Table, c: Peer, d: Peer)
    requires t.Ok() && t.cfg == SHIPPED && t.self == 0 && t.Bucket(2) == []
    requires |t.Bucket(3)| < 3 && forall q | q in t.Bucket(3) :: q.nodeId != c.nodeId
    requires BucketIndex(0, c.nodeId, 5) == 3 && BucketIndex(0, d.nodeId, 5) == 2
    ensures var u := t.Contacted(c).Contacted(d);
            && u.Ok() && u.cfg == SHIPPED && u.self == 0
            && (forall n: nat | n != 2 && n != 3 :: u.Bucket(n) == t.Bucket(n))
            && u.Bucket(2) == [d] && u.Bucket(3) == t.Bucket(3) + [c]
  {
    Joins(t, c, 3);
    Joins(t.Contacted(c), d, 2);
  }

  // Node 0 has heard of a contact in bucket i, two in bucket 3 and one in bucket 2.
  lemma HeardInBuckets(i: nat, a: Peer, b: Peer, c: Peer, d: Peer)
    requires a != b && a.nodeId != b.nodeId && a.nodeId != c.nodeId && b.nodeId != c.nodeId
    requires 3 <= i <= 4 && BucketIndex(0, a.nodeId, 5) == i
    requires BucketIndex(0, b.nodeId, 5) == 3 && BucketIndex(0, c.nodeId, 5) == 3 && BucketIndex(0, d.nodeId, 5) == 2
    ensures var t := Heard(a, b, c, d);
            && t.Ok() && t.cfg == SHIPPED && t.self == 0
            && (forall n: nat | n != 2 && n != 3 && n != 4 :: t.Bucket(n) == [])
            && t.Bucket(2) == [d] && t.Bucket(3) == (if i == 3 then [a, b, c] else [b, c]) && t.Bucket(4) == (if i == 4 then [a] else [])
  {
    FirstTwo(i, a, b);
    TwoMore(EmptyTable(SHIPPED, 0).Contacted(a).Contacted(b), c, d);
  }

  // The first round ends with three peers, so that a lookup for ALPHA stops short of bucket 2.
  lemma StopsShort(t: Table, key: nat, near: Peer)
    requires t.Ok() && t.cfg == SHIPPED && t.self == 0 && t.Slot(key) == 4
    requires t.Bucket(2) == [near] && |t.Bucket(4) + t.Bucket(3)| == 3 && t.Bucket(3) != []
    requires forall p | p in t.Bucket(2) || p in t.Bucket(3) || p in t.Bucket(4) :: p.nodeId != key
    ensures near !in FindNode(t, key, SHIPPED.alpha)
  {
    FirstRound(t, key);
    var first := t.Bucket(4) + t.Bucket(3);
    WithoutKeepsAll(first, key);
    BucketDistinct(t, 2);
    assert near in t.Bucket(2);
    AnsweredIff(t, key, 3, near);
  }

  lemma {:induction false} WithoutKeepsAll(ps: seq<Peer>, id: nat)
    requires forall p | p in ps :: p.nodeId != id
    ensures Without(ps, id) == ps
  {
    if ps != [] {
      WithoutKeepsAll(ps[1..], id);
    }
  }

  // Class 2 comes first for a key of class 4 whose digit 3 is not set, in a table without mates of the key.
  lemma NearestInTwo(t: Table, key: nat, near: Peer)
    requires t.Ok() && t.cfg == SHIPPED && t.self == 0 && t.Bucket(2) == [near] && near.nodeId == 4 && 16 <= key < 32
    requires forall q | t.Stores(q) && q != near :: (8 <= q.nodeId < 16 && !Bit(key, 3)) || (q.nodeId == 0 && Bit(key, 2))
    ensures IsClosest(Others(t, key), key, near)
  {
    InTwo();
    OthersMembers(t, key);
    XorZero(key);
    XorZero(0);
    assert Pow2(5) == 32 && near in t.Bucket(2) && Class(0, 0, 5) == -1;
    forall q | q in Others(t, key) && q != near
      ensures Distance(near, key) < Distance(q, key)
    {
      if q.nodeId != 0 {
        InThree(q.nodeId);
      }
      ClassesRanked(0, key, 4, q.nodeId, 5);
    }
  }

  lemma NearestIsMissed(t: Table, key: nat, near: Peer)
    requires t.Ok() && t.cfg == SHIPPED && t.self == 0 && near.nodeId == 4 && 16 <= key < 32
    requires (forall n: nat | n != 2 && n != 3 && n != 4 :: t.Bucket(n) == [])
    requires t.Bucket(2) == [near] && t.Bucket(3) != [] && |t.Bucket(4) + t.Bucket(3)| == 3
    requires forall q | q in t.Bucket(3) || q in t.Bucket(4) :: (8 <= q.nodeId < 16 && !Bit(key, 3)) || (q.nodeId == 0 && Bit(key, 2))
    ensures IsClosest(Others(t, key), key, near) && near !in FindNode(t, key, SHIPPED.alpha)
  {
    InFour(key);
    StopsShort(t, key, near);
    StoredInThree(t);
    NearestInTwo(t, key, near);
  }

  lemma StoredInThree(t: Table)
    requires forall n: nat | n != 2 && n != 3 && n != 4 :: t.Bucket(n) == []
    ensures forall q | t.Stores(q) :: q in t.Bucket(2) || q in t.Bucket(3) || q in t.Bucket(4)
  {
    forall q | t.Stores(q)
      ensures q in t.Bucket(2) || q in t.Bucket(3) || q in t.Bucket(4)
    {
      assert t.Bucket(t.Slot(q.nodeId)) != [];
    }
  }

  lemma ThreeThenOne(a: Peer, b: Peer, c: Peer, near: Peer, key: nat)
    requires a.nodeId == 8 && b.nodeId == 9 && c.nodeId == 10 && near.nodeId == 4 && key == 16
    ensures var t := Heard(a, b, c, near);
            && t.Bucket(t.Slot(key)) == []
            && IsClosest(Others(t, key), key, near) && near !in FindNode(t, key, SHIPPED.alpha)
  {
    InTwo();
    InThree(8);
    InThree(9);
    InThree(10);
    InFour(key);
    HeardInBuckets(3, a, b, c, near);
    Digits();
    NearestIsMissed(Heard(a, b, c, near), key, near);
  }

  lemma Digits()
    ensures !Bit(16, 3) && !Bit(20, 3) && Bit(20, 2)
  {
  }

  // In a bucket with nobody but the owner no key has a mate.
  lemma OnlyOwner(t: Table, own: Peer, key: nat)
    requires t.Bucket(t.Slot(key)) == [own] && own.nodeId == t.self
    ensures Mates(t, key) == []
  {
    assert [own][1..] == [];
    assert forall id :: Without([own], id) == if own.nodeId == id then [] else [own];
  }

  lemma OwnThenTwo(own: Peer, b: Peer, c: Peer, near: Peer, key: nat)
    requires own.nodeId == 0 && b.nodeId == 8 && c.nodeId == 9 && near.nodeId == 4 && key == 20
    ensures var t := Heard(own, b, c, near);
            && t.Bucket(t.Slot(key)) == [own] && Mates(t, key) == []
            && IsClosest(Others(t, key), key, near) && near !in FindNode(t, key, SHIPPED.alpha)
  {
    InTwo();
    InThree(8);
    InThree(9);
    InFour(key);
    OwnBucketIndex(0, 5);
    HeardInBuckets(4, own, b, c, near);
    assert Heard(own, b, c, near).Slot(key) == 4;
    OnlyOwner(Heard(own, b, c, near), own, key);
    Digits();
    NearestIsMissed(Heard(own, b, c, near), key, near);
  }

  // With nobody in the key's own bucket, three peers in the next and one below, a lookup for ALPHA misses the
  // nearest peer: node 0 has heard of 8, 9, 10 and 4, and does not name 4 for the key 16.
  lemma NearestCanBeMissed() returns (t: Table)
    ensures t == Heard(At(8), At(9), At(10), At(4)) && t.Bucket(t.Slot(16)) == []
    ensures IsClosest(Others(t, 16), 16, At(4)) && At(4) !in FindNode(t, 16, SHIPPED.alpha)
  {
    t := Heard(At(8), At(9), At(10), At(4));
    ThreeThenOne(At(8), At(9), At(10), At(4), 16);
  }

  // The bootstrap stores itself in its top bucket, where it is nobody's mate: with 0, 8, 9 and 4 heard of,
  // it does not name 4 for the key 20, although that key's own bucket has an entry.
  lemma BootstrapMissesToo() returns (t: Table)
    ensures t == Heard(At(0), At(8), At(9), At(4)) && t.Bucket(t.Slot(20)) == [At(0)] && Mates(t, 20) == []
    ensures IsClosest(Others(t, 20), 20, At(4)) && At(4) !in FindNode(t, 20, SHIPPED.alpha)
  {
    t := Heard(At(0), At(8), At(9), At(4));
    OwnThenTwo(At(0), At(8), At(9), At(4), 20);
  }

  // A first round that steps over `count` makes the answer longer than asked.
  lemma StepsOver(t: Table, key: nat, count: nat)
    requires t.Ok() && Size(t, key, 0) < count < Size(t, key, 1)
    ensures |FindNode(t, key, count)| > count
  {
    SizeBounded(t, key, 1);
    forall j: nat
      ensures Size(t, key, j) != count
    {
      if j > 0 {
        CandidatesExtend(t, key, 1, j);
      }
    }
    CountIsNoLimit(t, key, count);
  }

  lemma TwoMoreInThree(t: Table, c: Peer, d: Peer)
    requires t.Ok() && t.cfg == SHIPPED && t.self == 0 && |t.Bucket(3)| == 1
    requires c.nodeId != d.nodeId && forall q | q in t.Bucket(3) :: q.nodeId != c.nodeId && q.nodeId != d.nodeId
    requires BucketIndex(0, c.nodeId, 5) == 3 && BucketIndex(0, d.nodeId, 5) == 3
    ensures var u := t.Contacted(c).Contacted(d);
            && u.Ok() && u.cfg == SHIPPED && u.self == 0
            && u.Bucket(4) == t.Bucket(4) && u.Bucket(3) == t.Bucket(3) + [c] + [d]
  {
    Joins(t, c, 3);
    Joins(t.Contacted(c), d, 3);
  }

  lemma OneThenThree(t: Table, key: nat)
    requires t.Ok() && t.cfg == SHIPPED && t.self == 0 && t.Slot(key) == 4
    requires |t.Bucket(4)| == 1 && |t.Bucket(3)| == 3 && forall p | p in t.Bucket(3) || p in t.Bucket(4) :: p.nodeId != key
    ensures |FindNode(t, key, SHIPPED.alpha)| > SHIPPED.alpha
  {
    FirstRound(t, key);
    WithoutKeepsAll(t.Bucket(4), key);
    WithoutKeepsAll(t.Bucket(4) + t.Bucket(3), key);
    StepsOver(t, key, 3);
  }

  lemma FourInOneRound(a: Peer, b: Peer, c: Peer, d: Peer, key: nat)
    requires a.nodeId == 16 && b.nodeId == 8 && c.nodeId == 9 && d.nodeId == 10 && key == 17
    ensures |FindNode(Heard(a, b, c, d), key, SHIPPED.alpha)| > SHIPPED.alpha
  {
    InThree(8);
    InThree(9);
    InThree(10);
    InFour(16);
    InFour(key);
    OneAndThree(a, b, c, d);
    OneThenThree(Heard(a, b, c, d), key);
  }

  lemma OneAndThree(a: Peer, b: Peer, c: Peer, d: Peer)
    requires a.nodeId != b.nodeId && b.nodeId != c.nodeId && b.nodeId != d.nodeId && c.nodeId != d.nodeId
    requires BucketIndex(0, a.nodeId, 5) == 4 && BucketIndex(0, b.nodeId, 5) == 3
    requires BucketIndex(0, c.nodeId, 5) == 3 && BucketIndex(0, d.nodeId, 5) == 3
    ensures var t := Heard(a, b, c, d);
            t.Ok() && t.cfg == SHIPPED && t.self == 0 && t.Bucket(4) == [a] && t.Bucket(3) == [b, c, d]
  {
    FirstTwo(4, a, b);
    TwoMoreInThree(EmptyTable(SHIPPED, 0).Contacted(a).Contacted(b), c, d);
  }

  // Node 0 has heard of 16, 8, 9 and 10, and answers all four to whoever asks for ALPHA peers near 17.
  lemma AnswerIsLonger() returns (t: Table)
    ensures t == Heard(At(16), At(8), At(9), At(10))
    ensures |FindNode(t, 17, SHIPPED.alpha)| > SHIPPED.alpha
  {
    t := Heard(At(16), At(8), At(9), At(10));
    FourInOneRound(At(16), At(8), At(9), At(10), 17);
  }
}
