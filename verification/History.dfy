// What a table remembers of the contacts it was given, and how many it can ever hold.
module History {
  import opened Numbers
  import opened Metric
  import opened Peers
  import opened KBuckets
  import opened Tables

  // ----- first come, first kept -----

  // The different ids of bucket `b` met in the contacts `h`.
  function Met(cfg: Config, self: nat, h: seq<Peer>, b: nat): set<nat> {
    set p | p in h && BucketIndex(self, p.nodeId, cfg.bits) == b :: p.nodeId
  }

  // Contact number `n` is the first of its id, and fewer than k other ids of its bucket came before.
  predicate Admitted(cfg: Config, self: nat, h: seq<Peer>, n: nat)
    requires n < |h|
  {
    var met := Met(cfg, self, h[..n], BucketIndex(self, h[n].nodeId, cfg.bits));
    h[n].nodeId !in met && |met| < cfg.k
  }

  // Some admitted contact of `h` is the record q.
  predicate AdmittedAs(cfg: Config, self: nat, h: seq<Peer>, q: Peer) {
    exists n | 0 <= n < |h| :: h[n] == q && Admitted(cfg, self, h, n)
  }

  // A bucket after hearing of the ids `met`: all of them until it is full, k of them afterwards.
  predicate Filled(ps: seq<Peer>, met: set<nat>, k: nat) {
    && Ids(ps) <= met
    && |ps| == Min(k, |met|)
    && (|ps| < k ==> Ids(ps) == met)
  }

  lemma FilledStep(ps: seq<Peer>, p: Peer, met: set<nat>, k: nat, self: nat)
    requires k > 0 && DistinctIds(ps) && Filled(ps, met, k)
    ensures Filled(Touched(ps, p, k, self), met + {p.nodeId}, k)
    ensures Admits(ps, p, k) <==> p.nodeId !in met && |met| < k
  {
    TouchedIds(ps, p, k, self);
    FilledAdmits(ps, p, met, k);
    if p.nodeId in met {
      assert met + {p.nodeId} == met;
    } else {
      assert |met + {p.nodeId}| == |met| + 1;
    }
  }

  lemma FilledAdmits(ps: seq<Peer>, p: Peer, met: set<nat>, k: nat)
    requires Filled(ps, met, k)
    ensures Admits(ps, p, k) <==> p.nodeId !in met && |met| < k
  {
    assert |met| < k ==> Ids(ps) == met;
  }

  lemma EmptyOk(cfg: Config, self: nat)
    ensures EmptyTable(cfg, self).Ok()
  {
  }

  lemma MetLater(cfg: Config, self: nat, h: seq<Peer>, p: Peer, b: nat)
    ensures Met(cfg, self, h + [p], b) ==
            Met(cfg, self, h, b) + (if BucketIndex(self, p.nodeId, cfg.bits) == b then {p.nodeId} else {})
  {
  }

  lemma {:induction false} BucketFilled(cfg: Config, self: nat, h: seq<Peer>, b: nat)
    ensures EmptyTable(cfg, self).ContactedAll(h).Ok()
    ensures Filled(EmptyTable(cfg, self).ContactedAll(h).Bucket(b), Met(cfg, self, h, b), cfg.k)
  {
    EmptyOk(cfg, self);
    if h != [] {
      var g, p := h[..|h| - 1], h[|h| - 1];
      var t := EmptyTable(cfg, self).ContactedAll(g);
      BucketFilled(cfg, self, g, b);
      assert h == g + [p];
      MetLater(cfg, self, g, p, b);
      FilledAfter(t, p, b, Met(cfg, self, g, b));
    }
  }

  lemma FilledAfter(t: Table, p: Peer, b: nat, met: set<nat>)
    requires t.Ok() && Filled(t.Bucket(b), met, t.cfg.k)
    ensures t.Contacted(p).Ok()
    ensures Filled(t.Contacted(p).Bucket(b), met + (if t.Slot(p.nodeId) == b then {p.nodeId} else {}), t.cfg.k)
  {
    ContactedOk(t, p);
    BucketDistinct(t, b);
    if t.Slot(p.nodeId) == b {
      FilledStep(t.Bucket(b), p, met, t.cfg.k, t.self);
    } else {
      assert met + {} == met;
    }
  }

  lemma AdmittedLater(cfg: Config, self: nat, g: seq<Peer>, p: Peer, q: Peer)
    ensures AdmittedAs(cfg, self, g + [p], q) <==>
            AdmittedAs(cfg, self, g, q) || (q == p && Admitted(cfg, self, g + [p], |g|))
  {
    var h := g + [p];
    forall n | 0 <= n < |g|
      ensures h[n] == g[n] && (Admitted(cfg, self, h, n) <==> Admitted(cfg, self, g, n))
    {
      assert h[..n] == g[..n];
    }
    if AdmittedAs(cfg, self, g, q) {
      var n :| 0 <= n < |g| && g[n] == q && Admitted(cfg, self, g, n);
      assert h[n] == q && Admitted(cfg, self, h, n);
    }
    assert h[|g|] == p;
  }

  // The table is a function of who came first: a record is stored exactly when it is that of an admitted
  // contact, whatever moves to the front and reversals happened in between.
  lemma {:induction false} StoredIsAdmitted(cfg: Config, self: nat, h: seq<Peer>, q: Peer)
    ensures EmptyTable(cfg, self).ContactedAll(h).Stores(q) <==> AdmittedAs(cfg, self, h, q)
  {
    if h != [] {
      var g, p := h[..|h| - 1], h[|h| - 1];
      var t := EmptyTable(cfg, self).ContactedAll(g);
      var b := t.Slot(p.nodeId);
      StoredIsAdmitted(cfg, self, g, q);
      BucketFilled(cfg, self, g, b);
      assert Admits(t.Bucket(b), p, cfg.k) <==> p.nodeId !in Met(cfg, self, g, b) && |Met(cfg, self, g, b)| < cfg.k by {
        BucketDistinct(t, b);
        FilledStep(t.Bucket(b), p, Met(cfg, self, g, b), cfg.k, self);
      }
      StoresAfter(t, p, q);
      assert h == g + [p] && h[..|g|] == g;
      AdmittedLater(cfg, self, g, p, q);
    }
  }

  // An update stores exactly what was stored, and the newcomer if its bucket admits it.
  lemma StoresAfter(t: Table, p: Peer, q: Peer)
    requires t.Ok()
    ensures t.Contacted(p).Stores(q) <==> t.Stores(q) || (q == p && Admits(t.Bucket(t.Slot(p.nodeId)), p, t.cfg.k))
  {
    var b := t.Slot(p.nodeId);
    ContactedOk(t, p);
    BucketDistinct(t, b);
    var ps := t.Bucket(b);
    TouchedKeepsRecords(ps, p, t.cfg.k, t.self);
    var r := Touched(ps, p, t.cfg.k, t.self);
    assert q in r <==> q in multiset(r);
    assert q in ps <==> q in multiset(ps);
  }

  // ----- capacity -----

  function Capacity(cfg: Config, b: nat): nat {
    if b + 1 < cfg.bits then Min(cfg.k, Pow2(b)) else cfg.k
  }

  function TotalCapacity(cfg: Config, n: nat): nat {
    if n == 0 then 0 else TotalCapacity(cfg, n - 1) + Capacity(cfg, n - 1)
  }

  function Distances(self: nat, ps: seq<Peer>): set<nat> {
    set p | p in ps :: Xor(self, p.nodeId)
  }

  lemma {:induction false} DistancesDistinct(self: nat, ps: seq<Peer>)
    requires DistinctIds(ps)
    ensures |Distances(self, ps)| == |ps|
  {
    if ps != [] {
      var rest := ps[1..];
      assert ps == [ps[0]] + rest;
      ConsIds(ps[0], rest);
      DistancesDistinct(self, rest);
      forall p | p in rest
        ensures Xor(self, p.nodeId) != Xor(self, ps[0].nodeId)
      {
        XorCommutes(self, p.nodeId);
        XorCommutes(self, ps[0].nodeId);
        XorInjective(self, p.nodeId, ps[0].nodeId);
        assert p.nodeId in Ids(rest);
      }
      assert Distances(self, ps) == Distances(self, rest) + {Xor(self, ps[0].nodeId)};
    }
  }

  lemma {:induction false} NumbersInRange(s: set<nat>, lo: nat, hi: nat)
    requires lo <= hi && forall x | x in s :: lo <= x < hi
    ensures |s| <= hi - lo
    decreases hi
  {
    if lo == hi {
      assert s == {};
    } else {
      NumbersInRange(s - {hi - 1}, lo, hi - 1);
    }
  }

  // Low buckets run out of ids before they run out of room.
  lemma BucketCapacity(t: Table, b: nat)
    requires t.Ok() && InKeySpace(t) && b < t.cfg.bits
    ensures |t.Bucket(b)| <= Capacity(t.cfg, b)
  {
    BucketDistinct(t, b);
    if b + 1 < t.cfg.bits {
      var ps := t.Bucket(b);
      OwnBucketIndex(t.self, t.cfg.bits);
      forall p | p in ps
        ensures Pow2(b) <= Xor(t.self, p.nodeId) < Pow2(b) + Pow2(b)
      {
        BucketIsDistanceClass(t.self, p.nodeId, t.cfg.bits, b);
      }
      DistancesDistinct(t.self, ps);
      NumbersInRange(Distances(t.self, ps), Pow2(b), Pow2(b) + Pow2(b));
    }
  }

  lemma KeysWithoutOne(ks: seq<nat>, i: nat)
    requires i < |ks| && DistinctKeys(ks)
    ensures var rest := ks[..i] + ks[i + 1..];
            DistinctKeys(rest) && forall k :: k in rest <==> k in ks && k != ks[i]
  {
    var rest := ks[..i] + ks[i + 1..];
    forall j | 0 <= j < |rest|
      ensures rest[j] in ks && rest[j] != ks[i]
    {
      assert rest[j] == ks[if j < i then j else j + 1];
    }
    forall k | k in ks && k != ks[i]
      ensures k in rest
    {
      var j :| 0 <= j < |ks| && ks[j] == k;
      assert rest[if j < i then j else j - 1] == k;
    }
  }

  lemma GatherSizes(ks: seq<nat>, i: nat, buckets: map<nat, seq<Peer>>)
    requires i < |ks|
    ensures |Gather(ks, buckets)| == |Gather(ks[..i] + ks[i + 1..], buckets)| + |if ks[i] in buckets then buckets[ks[i]] else []|
  {
    var all, rest := Gather(ks, buckets), Gather(ks[..i] + ks[i + 1..], buckets);
    var one := if ks[i] in buckets then buckets[ks[i]] else [];
    GatherSplit(ks, i, buckets);
    assert |multiset(all)| == |all| && |multiset(rest)| == |rest| && |multiset(one)| == |one|;
  }

  lemma {:induction false} GatherCapacity(t: Table, ks: seq<nat>, n: nat)
    requires t.Ok() && InKeySpace(t) && n <= t.cfg.bits
    requires DistinctKeys(ks) && forall k | k in ks :: k < n
    ensures |Gather(ks, t.buckets)| <= TotalCapacity(t.cfg, n)
    decreases n
  {
    if ks != [] && n - 1 in ks {
      var i :| 0 <= i < |ks| && ks[i] == n - 1;
      GatherSizes(ks, i, t.buckets);
      KeysWithoutOne(ks, i);
      BucketCapacity(t, n - 1);
      GatherCapacity(t, ks[..i] + ks[i + 1..], n - 1);
    } else if ks != [] {
      assert ks[0] in ks;
      GatherCapacity(t, ks, n - 1);
    }
  }

  // The most a table can hold when all ids fit in the key space.
  lemma TableCapacity(t: Table)
    requires t.Ok() && InKeySpace(t)
    ensures |t.AllPeers()| <= TotalCapacity(t.cfg, t.cfg.bits)
  {
    forall k | k in t.keys
      ensures k < t.cfg.bits
    {
      assert t.BucketOk(k);
    }
    GatherCapacity(t, t.keys, t.cfg.bits);
  }

  lemma AllPeersCapacity(cfg: Config, self: nat, ops: seq<Op>)
    requires self < Pow2(cfg.bits)
    requires forall op | op in ops && op.Update? :: forall p | p in op.contacts :: p.nodeId < Pow2(cfg.bits)
    ensures |Run(EmptyTable(cfg, self), ops).AllPeers()| <= TotalCapacity(cfg, cfg.bits)
  {
    var t := Run(EmptyTable(cfg, self), ops);
    RunKeepsInvariant(cfg, self, ops);
    forall q | t.Stores(q)
      ensures q.nodeId < Pow2(cfg.bits)
    {
      StoredWereContacts(cfg, self, ops, q);
      var i :| 0 <= i < |ops| && ops[i].Update? && q in ops[i].contacts;
      assert ops[i] in ops;
    }
    TableCapacity(t);
  }

  predicate Mentioned(ops: seq<Op>, q: Peer) {
    exists i | 0 <= i < |ops| :: ops[i].Update? && q in ops[i].contacts
  }

  // Nothing is stored that was not a contact of some update.
  lemma {:induction false} StoredWereContacts(cfg: Config, self: nat, ops: seq<Op>, q: Peer)
    requires Run(EmptyTable(cfg, self), ops).Stores(q)
    ensures Mentioned(ops, q)
  {
    if ops != [] {
      var last := |ops| - 1;
      var before := Run(EmptyTable(cfg, self), ops[..last]);
      RunKeepsInvariant(cfg, self, ops[..last]);
      match ops[last] {
        case Update(ps) => ContactedAllStores(before, ps);
        case Disconnect(id) => DisconnectedOk(before, id);
        case Lookup(id) => OpenedOk(before, before.Slot(id));
      }
      if before.Stores(q) {
        StoredWereContacts(cfg, self, ops[..last], q);
        var i :| 0 <= i < last && ops[..last][i].Update? && q in ops[..last][i].contacts;
        assert ops[i].Update? && q in ops[i].contacts;
      }
    }
  }

  // With the shipped constants the node's own API never lists more than twelve peers.
  lemma ShippedCapacity(self: nat, ops: seq<Op>)
    requires self < 32
    requires forall op | op in ops && op.Update? :: forall p | p in op.contacts :: p.nodeId < 32
    ensures |Run(EmptyTable(SHIPPED, self), ops).AllPeers()| <= 12
  {
    assert Pow2(5) == 32;
    AllPeersCapacity(SHIPPED, self, ops);
    ShippedTotal();
  }

  lemma ShippedTotal()
    ensures TotalCapacity(SHIPPED, 5) == 12
  {
    assert Pow2(0) == 1 && Pow2(1) == 2 && Pow2(2) == 4 && Pow2(3) == 8;
    assert TotalCapacity(SHIPPED, 1) == 1;
    assert TotalCapacity(SHIPPED, 2) == 3;
    assert TotalCapacity(SHIPPED, 3) == 6;
    assert TotalCapacity(SHIPPED, 4) == 9;
  }
}
