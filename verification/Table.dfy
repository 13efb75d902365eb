// The contents of a routing table as a value, and what every run of updates keeps.
module Tables {
  import opened Metric
  import opened Peers
  import opened KBuckets

  // BIT_SIZE, K_BUCKET_SIZE, ALPHA and HASH_SIZE.
  datatype Params = Params(bits: nat, k: nat, alpha: nat, hashSize: nat)
  type Config = p: Params | 0 < p.k <= p.bits <= p.hashSize && 0 < p.alpha witness Params(5, 3, 3, 32)

  const SHIPPED: Config := Params(5, 3, 3, 32)

  // `keys` is the insertion order of the bucket map, which fixes the order of `getAllPeers`.
  datatype Table = Table(cfg: Config, self: nat, keys: seq<nat>, buckets: map<nat, seq<Peer>>) {

    function Slot(id: nat): (b: nat)
      ensures b < cfg.bits
    {
      BucketIndex(self, id, cfg.bits)
    }

    function Bucket(b: nat): seq<Peer> {
      if b in buckets then buckets[b] else []
    }

    // `findBucket` creates the bucket it does not find.
    function Opened(b: nat): Table {
      if b in buckets then this else this.(keys := keys + [b], buckets := buckets[b := []])
    }

    function Contacted(p: Peer): Table {
      var b := Slot(p.nodeId);
      Opened(b).(buckets := Opened(b).buckets[b := Touched(Bucket(b), p, cfg.k, self)])
    }

    function ContactedAll(ps: seq<Peer>): (t: Table)
      ensures t.cfg == cfg && t.self == self
    {
      if ps == [] then this else ContactedAll(ps[..|ps| - 1]).Contacted(ps[|ps| - 1])
    }

    // The pings that `ContactedAll` sends on the way, in order.
    function PingsOf(ps: seq<Peer>): seq<Peer> {
      if ps == [] then []
      else
        var p := ps[|ps| - 1];
        var before := ContactedAll(ps[..|ps| - 1]);
        var ping := PingTarget(before.Bucket(Slot(p.nodeId)), p, cfg.k, self);
        PingsOf(ps[..|ps| - 1]) + (if ping.Some? then [ping.value] else [])
    }

    // The table after the connection to `id` closes; the node's own id is left alone.
    function Disconnected(id: nat): Table {
      if id == self then this
      else
        var b := Slot(id);
        Opened(b).(buckets := Opened(b).buckets[b := Without(Bucket(b), id)])
    }

    function AllPeers(): seq<Peer> {
      Gather(keys, buckets)
    }

    predicate Stores(p: Peer) {
      p in Bucket(Slot(p.nodeId))
    }

    predicate Holds(id: nat) {
      id in Ids(Bucket(Slot(id)))
    }

    // The node `id` is in the table, or its bucket has no room for it.
    predicate Knows(id: nat) {
      Holds(id) || |Bucket(Slot(id))| >= cfg.k
    }

    predicate BucketOk(b: nat) {
      && b < cfg.bits
      && DistinctIds(Bucket(b))
      && |Bucket(b)| <= cfg.k
      && forall p | p in Bucket(b) :: Slot(p.nodeId) == b
    }

    ghost predicate Ok() {
      && DistinctKeys(keys)
      && (forall b :: b in keys <==> b in buckets)
      && forall b {:trigger BucketOk(b)} | b in buckets :: BucketOk(b)
    }
  }

  // All ids fit in the key space.
  ghost predicate InKeySpace(t: Table) {
    t.self < Pow2(t.cfg.bits) && forall p | t.Stores(p) :: p.nodeId < Pow2(t.cfg.bits)
  }

  predicate DistinctKeys(ks: seq<nat>) {
    forall i, j | 0 <= i < j < |ks| :: ks[i] != ks[j]
  }

  // Buckets laid end to end in the order of `ks`.
  function Gather(ks: seq<nat>, buckets: map<nat, seq<Peer>>): seq<Peer> {
    if ks == [] then []
    else (if ks[0] in buckets then buckets[ks[0]] else []) + Gather(ks[1..], buckets)
  }

  function EmptyTable(cfg: Config, self: nat): Table {
    Table(cfg, self, [], map[])
  }

  // ----- one step keeps the invariant -----

  lemma OpenedOk(t: Table, b: nat)
    requires t.Ok() && b < t.cfg.bits
    ensures t.Opened(b).Ok() && b in t.Opened(b).buckets
    ensures forall c: nat :: t.Opened(b).Bucket(c) == t.Bucket(c)
  {
    var o := t.Opened(b);
    forall c | c in o.buckets
      ensures o.BucketOk(c)
    {
      assert o.Bucket(c) == t.Bucket(c);
      if c in t.buckets {
        assert t.BucketOk(c);
      }
    }
  }

  // Replacing one bucket by a well-formed one.
  lemma ReplacedOk(t: Table, b: nat, ps: seq<Peer>)
    requires t.Ok() && b in t.buckets
    requires DistinctIds(ps) && |ps| <= t.cfg.k && forall p | p in ps :: t.Slot(p.nodeId) == b
    ensures var r := t.(buckets := t.buckets[b := ps]);
            r.Ok() && (forall c: nat :: r.Bucket(c) == if c == b then ps else t.Bucket(c))
  {
    var r := t.(buckets := t.buckets[b := ps]);
    forall c | c in r.buckets
      ensures r.BucketOk(c)
    {
      assert t.BucketOk(c);
      assert r.Bucket(c) == if c == b then ps else t.Bucket(c);
    }
  }

  lemma ContactedOk(t: Table, p: Peer)
    requires t.Ok()
    ensures t.Contacted(p).Ok()
    ensures forall c: nat :: t.Contacted(p).Bucket(c) ==
                             if c == t.Slot(p.nodeId) then Touched(t.Bucket(c), p, t.cfg.k, t.self) else t.Bucket(c)
  {
    var b := t.Slot(p.nodeId);
    OpenedOk(t, b);
    assert t.Opened(b).BucketOk(b);
    assert t.Opened(b).Bucket(b) == t.Bucket(b);
    TouchedKeepsRecords(t.Bucket(b), p, t.cfg.k, t.self);
    TouchedIds(t.Bucket(b), p, t.cfg.k, t.self);
    forall q | q in Touched(t.Bucket(b), p, t.cfg.k, t.self)
      ensures t.Slot(q.nodeId) == b
    {
      assert q in t.Bucket(b) || q == p;
    }
    ReplacedOk(t.Opened(b), b, Touched(t.Bucket(b), p, t.cfg.k, t.self));
  }

  lemma BucketDistinct(t: Table, b: nat)
    requires t.Ok()
    ensures DistinctIds(t.Bucket(b)) && |t.Bucket(b)| <= t.cfg.k
    ensures forall p | p in t.Bucket(b) :: t.Slot(p.nodeId) == b && t.Stores(p)
  {
    if b in t.buckets {
      assert t.BucketOk(b);
    }
  }

  // An update loses no record, gains at most the newcomer, and leaves the newcomer known.
  lemma ContactedKeeps(t: Table, p: Peer)
    requires t.Ok()
    ensures forall q :: t.Stores(q) ==> t.Contacted(p).Stores(q)
    ensures forall q :: t.Contacted(p).Stores(q) ==> t.Stores(q) || q == p
    ensures forall id :: t.Knows(id) ==> t.Contacted(p).Knows(id)
    ensures t.Contacted(p).Knows(p.nodeId)
  {
    var b, u := t.Slot(p.nodeId), t.Contacted(p);
    ContactedOk(t, p);
    BucketDistinct(t, b);
    TouchedIds(t.Bucket(b), p, t.cfg.k, t.self);
    assert forall id :: u.Slot(id) == t.Slot(id);
  }

  lemma DisconnectedOk(t: Table, id: nat)
    requires t.Ok()
    ensures t.Disconnected(id).Ok()
    ensures forall q :: t.Disconnected(id).Stores(q) <==> t.Stores(q) && (q.nodeId != id || id == t.self)
  {
    if id != t.self {
      var b, u := t.Slot(id), t.Disconnected(id);
      OpenedOk(t, b);
      BucketDistinct(t, b);
      WithoutDistinct(t.Bucket(b), id);
      WithoutMembers(t.Bucket(b), id);
      WithoutShorter(t.Bucket(b), id);
      ReplacedOk(t.Opened(b), b, Without(t.Bucket(b), id));
      assert forall q: Peer :: u.Slot(q.nodeId) == t.Slot(q.nodeId);
    }
  }

  lemma {:induction false} ContactedAllStores(t: Table, ps: seq<Peer>)
    requires t.Ok()
    ensures t.ContactedAll(ps).Ok()
    ensures forall q :: t.Stores(q) ==> t.ContactedAll(ps).Stores(q)
    ensures forall q :: t.ContactedAll(ps).Stores(q) ==> t.Stores(q) || q in ps
  {
    if ps != [] {
      var last := |ps| - 1;
      ContactedAllStores(t, ps[..last]);
      ContactedOk(t.ContactedAll(ps[..last]), ps[last]);
      ContactedKeeps(t.ContactedAll(ps[..last]), ps[last]);
      assert ps == ps[..last] + [ps[last]];
    }
  }

  lemma {:induction false} ContactedAllKnows(t: Table, ps: seq<Peer>, id: nat)
    requires t.Ok() && (t.Knows(id) || id in Ids(ps))
    ensures t.ContactedAll(ps).Knows(id)
  {
    if ps != [] {
      var last := |ps| - 1;
      assert ps == ps[..last] + [ps[last]];
      ContactedAllStores(t, ps[..last]);
      ContactedKeeps(t.ContactedAll(ps[..last]), ps[last]);
      if t.Knows(id) || id in Ids(ps[..last]) {
        ContactedAllKnows(t, ps[..last], id);
      }
    }
  }

  // A ping always goes to a contact the table already had, or had just been told.
  lemma {:induction false} PingsAreStored(t: Table, ps: seq<Peer>)
    requires t.Ok()
    ensures forall q | q in t.PingsOf(ps) :: t.Stores(q) || q in ps
  {
    if ps != [] {
      var last := |ps| - 1;
      PingsAreStored(t, ps[..last]);
      ContactedAllStores(t, ps[..last]);
      var before := t.ContactedAll(ps[..last]);
      BucketDistinct(before, t.Slot(ps[last].nodeId));
      assert ps == ps[..last] + [ps[last]];
    }
  }

  // ----- runs -----

  datatype Op = Update(contacts: seq<Peer>) | Disconnect(id: nat) | Lookup(id: nat)

  function Apply(t: Table, op: Op): Table {
    match op
    case Update(ps) => t.ContactedAll(ps)
    case Disconnect(id) => t.Disconnected(id)
    case Lookup(id) => t.Opened(t.Slot(id))
  }

  function Run(t: Table, ops: seq<Op>): Table {
    if ops == [] then t else Apply(Run(t, ops[..|ops| - 1]), ops[|ops| - 1])
  }

  // What every reachable table satisfies.
  lemma {:induction false} RunKeepsInvariant(cfg: Config, self: nat, ops: seq<Op>)
    ensures var t := Run(EmptyTable(cfg, self), ops); t.Ok() && t.self == self && t.cfg == cfg && DistinctIds(t.AllPeers())
  {
    var t := Run(EmptyTable(cfg, self), ops);
    if ops != [] {
      var last := |ops| - 1;
      var before := Run(EmptyTable(cfg, self), ops[..last]);
      RunKeepsInvariant(cfg, self, ops[..last]);
      match ops[last] {
        case Update(ps) => ContactedAllStores(before, ps);
        case Disconnect(id) => DisconnectedOk(before, id);
        case Lookup(id) => OpenedOk(before, before.Slot(id));
      }
    }
    assert t.Ok();
    GatherDistinct(t, t.keys);
  }

  // ----- the whole table as one list -----

  lemma {:induction false} GatherMembers(t: Table, ks: seq<nat>)
    requires t.Ok()
    ensures forall p :: p in Gather(ks, t.buckets) <==> t.Stores(p) && t.Slot(p.nodeId) in ks
  {
    if ks != [] {
      GatherMembers(t, ks[1..]);
      BucketDistinct(t, ks[0]);
      assert t.Bucket(ks[0]) == if ks[0] in t.buckets then t.buckets[ks[0]] else [];
      assert forall k :: k in ks <==> k == ks[0] || k in ks[1..];
    }
  }

  lemma AllPeersStored(t: Table)
    requires t.Ok()
    ensures forall p :: p in t.AllPeers() <==> t.Stores(p)
  {
    GatherMembers(t, t.keys);
  }

  lemma DistinctConcat(a: seq<Peer>, b: seq<Peer>)
    requires DistinctIds(a) && DistinctIds(b) && Ids(a) !! Ids(b)
    ensures DistinctIds(a + b)
  {
    forall i, j | 0 <= i < j < |a + b|
      ensures (a + b)[i].nodeId != (a + b)[j].nodeId
    {
      if i < |a| <= j {
        assert a[i].nodeId in Ids(a) && b[j - |a|].nodeId in Ids(b);
      }
    }
  }

  // No id occurs twice anywhere in the table.
  lemma {:induction false} GatherDistinct(t: Table, ks: seq<nat>)
    requires t.Ok() && DistinctKeys(ks)
    ensures DistinctIds(Gather(ks, t.buckets))
  {
    if ks != [] {
      GatherDistinct(t, ks[1..]);
      GatherMembers(t, ks[1..]);
      BucketDistinct(t, ks[0]);
      DistinctConcat(t.Bucket(ks[0]), Gather(ks[1..], t.buckets));
    }
  }

  lemma {:induction false} GatherConcat(ks: seq<nat>, ls: seq<nat>, buckets: map<nat, seq<Peer>>)
    ensures Gather(ks + ls, buckets) == Gather(ks, buckets) + Gather(ls, buckets)
  {
    if ks == [] {
      assert ks + ls == ls;
    } else {
      assert (ks + ls)[1..] == ks[1..] + ls;
      GatherConcat(ks[1..], ls, buckets);
    }
  }

  lemma MultisetSplit<T>(s: seq<T>, i: nat)
    requires i < |s|
    ensures multiset(s) == multiset(s[..i] + s[i + 1..]) + multiset{s[i]}
  {
    assert s == s[..i] + ([s[i]] + s[i + 1..]);
  }

  // Any one bucket can be taken out of the middle.
  lemma GatherSplit(ks: seq<nat>, i: nat, buckets: map<nat, seq<Peer>>)
    requires i < |ks|
    ensures multiset(Gather(ks, buckets)) ==
            multiset(Gather(ks[..i] + ks[i + 1..], buckets)) + multiset(if ks[i] in buckets then buckets[ks[i]] else [])
  {
    var tail := [ks[i]] + ks[i + 1..];
    assert ks == ks[..i] + tail && tail[1..] == ks[i + 1..];
    GatherConcat(ks[..i], tail, buckets);
    GatherConcat(ks[..i], ks[i + 1..], buckets);
  }
}
