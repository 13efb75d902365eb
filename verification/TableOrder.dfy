// The order of the bucket map, and with it that of `getAllPeers`; and which pings a list of contacts causes.
module TableOrders {
  import opened Peers
  import opened KBuckets
  import opened Tables

  // ----- the bucket map remembers the order in which buckets were opened -----

  // A bucket not met before comes last, and all others stay where they are.
  ghost predicate KeysAfter(before: Table, after: Table, b: nat) {
    after.keys == if b in before.buckets then before.keys else before.keys + [b]
  }

  lemma UpdateKeepsOrder(t: Table, p: Peer, id: nat)
    ensures KeysAfter(t, t.Contacted(p), t.Slot(p.nodeId))
    ensures KeysAfter(t, t.Opened(t.Slot(id)), t.Slot(id))
    ensures id != t.self ==> KeysAfter(t, t.Disconnected(id), t.Slot(id))
    ensures t.Disconnected(t.self) == t
  {
  }

  // The number at position n has not occurred before.
  predicate IsFirst(bs: seq<nat>, n: nat) {
    n < |bs| && bs[n] !in bs[..n]
  }

  // `keys` are the different numbers of `bs`, in the order of their first occurrences, which are at `at`.
  ghost predicate InOrderMet(keys: seq<nat>, bs: seq<nat>, at: seq<nat>) {
    && |keys| == |at| && (forall i, j | 0 <= i < j < |at| :: at[i] < at[j])
    && (forall i | 0 <= i < |at| :: IsFirst(bs, at[i]) && keys[i] == bs[at[i]])
    && forall n | IsFirst(bs, n) :: n in at
  }

  function Slots(t: Table, h: seq<Peer>): seq<nat> {
    seq(|h|, i requires 0 <= i < |h| => t.Slot(h[i].nodeId))
  }

  lemma IsFirstNext(bs: seq<nat>, b: nat, n: nat)
    ensures n < |bs| ==> (IsFirst(bs + [b], n) <==> IsFirst(bs, n))
    ensures n == |bs| ==> (IsFirst(bs + [b], n) <==> b !in bs)
  {
    if n < |bs| {
      assert (bs + [b])[..n] == bs[..n];
    } else if n == |bs| {
      assert (bs + [b])[..n] == bs;
    }
  }

  lemma InOrderSame(keys: seq<nat>, bs: seq<nat>, at: seq<nat>, b: nat)
    requires InOrderMet(keys, bs, at) && b in bs
    ensures InOrderMet(keys, bs + [b], at)
  {
    forall i | 0 <= i < |at|
      ensures IsFirst(bs + [b], at[i]) && keys[i] == (bs + [b])[at[i]]
    {
      IsFirstNext(bs, b, at[i]);
    }
    forall n | IsFirst(bs + [b], n)
      ensures n in at
    {
      IsFirstNext(bs, b, n);
    }
  }

  lemma InOrderNew(keys: seq<nat>, bs: seq<nat>, at: seq<nat>, b: nat)
    requires InOrderMet(keys, bs, at) && b !in bs
    ensures InOrderMet(keys + [b], bs + [b], at + [|bs|])
  {
    var next := at + [|bs|];
    forall i | 0 <= i < |next|
      ensures IsFirst(bs + [b], next[i]) && (keys + [b])[i] == (bs + [b])[next[i]]
    {
      IsFirstNext(bs, b, next[i]);
    }
    forall n | IsFirst(bs + [b], n)
      ensures n in next
    {
      IsFirstNext(bs, b, n);
      if n == |bs| {
        assert next[|at|] == n;
      } else {
        assert n in at;
        var i :| 0 <= i < |at| && at[i] == n;
        assert next[i] == n;
      }
    }
  }

  lemma SameNumbers(keys: seq<nat>, bs: seq<nat>, at: seq<nat>)
    requires InOrderMet(keys, bs, at)
    ensures forall b: nat :: b in keys <==> b in bs
  {
    forall b: nat | b in bs
      ensures b in keys
    {
      var n := First(bs, b);
      assert IsFirst(bs, n) && n in at;
      var i :| 0 <= i < |at| && at[i] == n;
      assert keys[i] == b;
    }
  }

  // The buckets of a table are those of its contacts, in the order in which each was first met.
  lemma {:induction false} KeysInOrderMet(cfg: Config, self: nat, h: seq<Peer>) returns (at: seq<nat>)
    ensures var t := EmptyTable(cfg, self).ContactedAll(h); InOrderMet(t.keys, Slots(t, h), at)
  {
    if h == [] {
      at := [];
    } else {
      var before := KeysInOrderMet(cfg, self, h[..|h| - 1]);
      ContactedAllStores(EmptyTable(cfg, self), h[..|h| - 1]);
      at := KeysNext(EmptyTable(cfg, self).ContactedAll(h[..|h| - 1]), h, before);
    }
  }

  lemma KeysNext(t: Table, h: seq<Peer>, at: seq<nat>) returns (next: seq<nat>)
    requires t.Ok() && h != [] && InOrderMet(t.keys, Slots(t, h[..|h| - 1]), at)
    ensures var u := t.Contacted(h[|h| - 1]); InOrderMet(u.keys, Slots(u, h), next)
  {
    var g, p := h[..|h| - 1], h[|h| - 1];
    var b, bs := t.Slot(p.nodeId), Slots(t, g);
    SameNumbers(t.keys, bs, at);
    KeysStep(t, h);
    if b in bs {
      InOrderSame(t.keys, bs, at, b);
      next := at;
    } else {
      InOrderNew(t.keys, bs, at, b);
      next := at + [|g|];
    }
  }

  lemma KeysStep(t: Table, h: seq<Peer>)
    requires t.Ok() && h != []
    ensures var b, u := t.Slot(h[|h| - 1].nodeId), t.Contacted(h[|h| - 1]);
            && u.keys == (if b in t.keys then t.keys else t.keys + [b])
            && Slots(u, h) == Slots(t, h[..|h| - 1]) + [b]
  {
    UpdateKeepsOrder(t, h[|h| - 1], h[|h| - 1].nodeId);
  }

  lemma First(bs: seq<nat>, b: nat) returns (n: nat)
    requires b in bs
    ensures n < |bs| && bs[n] == b && b !in bs[..n]
  {
    n := 0;
    while bs[n] != b
      invariant n < |bs| && b !in bs[..n] && b in bs[n..]
      decreases |bs| - n
    {
      n := n + 1;
    }
  }

  // ----- getAllPeers -----

  // p comes before q in the list.
  ghost predicate Before(ps: seq<Peer>, p: Peer, q: Peer) {
    exists i, j :: 0 <= i < j < |ps| && ps[i] == p && ps[j] == q
  }

  lemma GatherAt(ks: seq<nat>, i: nat, buckets: map<nat, seq<Peer>>)
    requires i < |ks|
    ensures Gather(ks, buckets) ==
            Gather(ks[..i], buckets) + (if ks[i] in buckets then buckets[ks[i]] else []) + Gather(ks[i + 1..], buckets)
  {
    var tail := [ks[i]] + ks[i + 1..];
    assert ks == ks[..i] + tail && tail[1..] == ks[i + 1..];
    GatherConcat(ks[..i], tail, buckets);
  }

  lemma BeforeInParts(a: seq<Peer>, b: seq<Peer>, c: seq<Peer>, p: Peer, q: Peer)
    requires (p in b && q in c) || Before(b, p, q)
    ensures Before(a + b + c, p, q)
  {
    var all := a + b + c;
    if Before(b, p, q) {
      var i, j :| 0 <= i < j < |b| && b[i] == p && b[j] == q;
      assert all[|a| + i] == p && all[|a| + j] == q;
    } else {
      var i :| 0 <= i < |b| && b[i] == p;
      var j :| 0 <= j < |c| && c[j] == q;
      assert all[|a| + i] == p && all[|a| + |b| + j] == q;
    }
  }

  // Buckets laid end to end keep their own order, and the earlier bucket comes first.
  lemma GatherInOrder(ks: seq<nat>, buckets: map<nat, seq<Peer>>, i: nat, j: nat, p: Peer, q: Peer)
    requires i <= j < |ks| && ks[i] in buckets && ks[j] in buckets
    requires if i < j then p in buckets[ks[i]] && q in buckets[ks[j]] else Before(buckets[ks[i]], p, q)
    ensures Before(Gather(ks, buckets), p, q)
  {
    var later := ks[i + 1..];
    GatherAt(ks, i, buckets);
    if i < j {
      assert later[j - i - 1] == ks[j];
      GatherAt(later, j - i - 1, buckets);
    }
    BeforeInParts(Gather(ks[..i], buckets), buckets[ks[i]], Gather(later, buckets), p, q);
  }

  // Peers of one bucket come in the bucket's own order, and those of a bucket opened earlier come before
  // those of a bucket opened later.
  lemma AllPeersInOrder(t: Table, i: nat, j: nat, p: Peer, q: Peer)
    requires t.Ok() && i <= j < |t.keys|
    requires if i < j then p in t.Bucket(t.keys[i]) && q in t.Bucket(t.keys[j]) else Before(t.Bucket(t.keys[i]), p, q)
    ensures Before(t.AllPeers(), p, q)
  {
    assert t.keys[i] in t.keys && t.keys[j] in t.keys;
    GatherInOrder(t.keys, t.buckets, i, j, p, q);
  }

  lemma {:induction false} WithoutKeepsOrder(ps: seq<Peer>, id: nat, p: Peer, q: Peer)
    requires Before(ps, p, q) && p.nodeId != id && q.nodeId != id
    ensures Before(Without(ps, id), p, q)
  {
    var i, j :| 0 <= i < j < |ps| && ps[i] == p && ps[j] == q;
    assert ps == ps[..i] + [p] + ps[i + 1..] && ps[i + 1..][j - i - 1] == q;
    WithoutConcat(ps[..i] + [p], ps[i + 1..], id);
    WithoutConcat(ps[..i], [p], id);
    WithoutMembers(ps[i + 1..], id);
    assert [p][1..] == [];
    assert Without([p], id) == [p];
    BeforeInParts(Without(ps[..i], id), [p], Without(ps[i + 1..], id), p, q);
  }

  // In a list of distinct ids the one before is the one with the lower index.
  lemma BeforeIndex(ps: seq<Peer>, p: Peer, q: Peer)
    requires DistinctIds(ps) && Before(ps, p, q)
    ensures p in ps && q in ps && IndexOf(ps, p.nodeId) < IndexOf(ps, q.nodeId)
  {
  }

  // ----- the pings of a list of contacts -----

  // Who is pinged when contact number n of the list is dealt with: the head of its bucket if that is full of
  // others, with somebody else than the owner last, and nobody otherwise.
  function HeadMet(t: Table, h: seq<Peer>, n: nat): Option<Peer>
    requires n < |h|
  {
    var ps := t.ContactedAll(h[..n]).Bucket(t.Slot(h[n].nodeId));
    if TurnsAway(ps, h[n], t.cfg.k, t.self) then Some(ps[0]) else None
  }

  function HeadsMet(t: Table, h: seq<Peer>): seq<Option<Peer>> {
    seq(|h|, n requires 0 <= n < |h| => HeadMet(t, h, n))
  }

  // `ps` are the peers of the list `os`, which are at the positions `at`.
  ghost predicate Listed(os: seq<Option<Peer>>, at: seq<nat>, ps: seq<Peer>) {
    && |ps| == |at| && (forall i, j | 0 <= i < j < |at| :: at[i] < at[j])
    && (forall i | 0 <= i < |at| :: at[i] < |os| && os[at[i]] == Some(ps[i]))
    && forall n | 0 <= n < |os| && os[n].Some? :: n in at
  }

  lemma ListedNext(os: seq<Option<Peer>>, at: seq<nat>, ps: seq<Peer>, o: Option<Peer>)
    requires Listed(os, at, ps)
    ensures o.None? ==> Listed(os + [o], at, ps)
    ensures o.Some? ==> Listed(os + [o], at + [|os|], ps + [o.value])
  {
    if o.Some? {
      var next := at + [|os|];
      assert next[|at|] == |os|;
      assert forall n :: n in next <==> n in at || n == |os|;
    }
  }

  lemma HeadsMetNext(t: Table, g: seq<Peer>, p: Peer)
    ensures HeadsMet(t, g + [p]) == HeadsMet(t, g) + [PingTarget(t.ContactedAll(g).Bucket(t.Slot(p.nodeId)), p, t.cfg.k, t.self)]
  {
    var h := g + [p];
    forall n | 0 <= n < |g|
      ensures HeadMet(t, h, n) == HeadMet(t, g, n)
    {
      assert h[..n] == g[..n];
    }
    assert h[..|g|] == g;
    PingsTheHead(t.ContactedAll(g).Bucket(t.Slot(p.nodeId)), p, t.cfg.k, t.self);
  }

  // The pings of a list of contacts are those, in order: one for each contact that meets such a bucket, and
  // none for the others.
  lemma {:induction false} PingsAreHeads(t: Table, h: seq<Peer>) returns (at: seq<nat>)
    ensures Listed(HeadsMet(t, h), at, t.PingsOf(h))
  {
    if h == [] {
      at := [];
    } else {
      var g, p := h[..|h| - 1], h[|h| - 1];
      at := PingsAreHeads(t, g);
      var o := PingTarget(t.ContactedAll(g).Bucket(t.Slot(p.nodeId)), p, t.cfg.k, t.self);
      ListedNext(HeadsMet(t, g), at, t.PingsOf(g), o);
      HeadsMetNext(t, g, p);
      assert h == g + [p];
      if o.Some? {
        at := at + [|g|];
      }
    }
  }
}
