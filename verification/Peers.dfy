// Contacts, and the list operations the buckets, lookups and searches share.
module Peers {

  datatype Option<+T> = None | Some(value: T)

  // A contact. Every node listens on 127.0.0.1, so only the id and the port vary.
  datatype Peer = Peer(nodeId: nat, port: nat)

  function Ids(ps: seq<Peer>): set<nat> {
    set p | p in ps :: p.nodeId
  }

  predicate DistinctIds(ps: seq<Peer>) {
    forall i, j | 0 <= i < j < |ps| :: ps[i].nodeId != ps[j].nodeId
  }

  // Position of the first contact with the given id.
  function IndexOf(ps: seq<Peer>, id: nat): (i: nat)
    requires id in Ids(ps)
    ensures i < |ps| && ps[i].nodeId == id
    ensures forall j | 0 <= j < i :: ps[j].nodeId != id
  {
    if ps[0].nodeId == id then 0
    else
      assert forall p | p in ps :: p == ps[0] || p in ps[1..];
      1 + IndexOf(ps[1..], id)
  }

  // The contacts with another id, in order.
  function Without(ps: seq<Peer>, id: nat): seq<Peer> {
    if ps == [] then []
    else if ps[0].nodeId == id then Without(ps[1..], id)
    else [ps[0]] + Without(ps[1..], id)
  }

  lemma {:induction false} WithoutMembers(ps: seq<Peer>, id: nat)
    ensures forall p :: p in Without(ps, id) <==> p in ps && p.nodeId != id
  {
    if ps != [] {
      WithoutMembers(ps[1..], id);
      assert forall p :: p in ps <==> p == ps[0] || p in ps[1..];
    }
  }

  function Reverse<T>(s: seq<T>): (r: seq<T>)
    ensures |r| == |s|
    ensures forall i | 0 <= i < |s| :: r[i] == s[|s| - 1 - i]
  {
    if s == [] then [] else Reverse(s[1..]) + [s[0]]
  }

  lemma ReverseTwice<T>(s: seq<T>)
    ensures Reverse(Reverse(s)) == s
  {
  }

  lemma {:induction false} ReverseMultiset<T>(s: seq<T>)
    ensures multiset(Reverse(s)) == multiset(s)
  {
    if s != [] {
      ReverseMultiset(s[1..]);
      assert s == [s[0]] + s[1..];
    }
  }

  // Distinctness and ids, one contact at a time.
  lemma ConsIds(p: Peer, ps: seq<Peer>)
    ensures Ids([p] + ps) == {p.nodeId} + Ids(ps)
    ensures DistinctIds([p] + ps) <==> p.nodeId !in Ids(ps) && DistinctIds(ps)
  {
    var all := [p] + ps;
    assert all[0] == p && all[1..] == ps;
    assert forall q :: q in all <==> q == p || q in ps;
    if DistinctIds(all) {
      forall i, j | 0 <= i < j < |ps|
        ensures ps[i].nodeId != ps[j].nodeId
      {
        assert all[i + 1] == ps[i] && all[j + 1] == ps[j];
      }
      forall q | q in ps
        ensures q.nodeId != p.nodeId
      {
        var j :| 0 <= j < |ps| && ps[j] == q;
        assert all[j + 1] == q;
      }
    } else {
      var i, j :| 0 <= i < j < |all| && all[i].nodeId == all[j].nodeId;
      assert all[j] == ps[j - 1] && all[j] in ps;
      if i > 0 {
        assert all[i] == ps[i - 1];
      }
    }
  }

  lemma {:induction false} WithoutDistinct(ps: seq<Peer>, id: nat)
    requires DistinctIds(ps)
    ensures DistinctIds(Without(ps, id)) && Ids(Without(ps, id)) == Ids(ps) - {id}
    ensures id !in Ids(ps) ==> Without(ps, id) == ps
    ensures id in Ids(ps) ==> multiset(ps) == multiset(Without(ps, id)) + multiset{ps[IndexOf(ps, id)]}
  {
    if ps != [] {
      var p, rest := ps[0], ps[1..];
      assert ps == [p] + rest;
      ConsIds(p, rest);
      WithoutDistinct(rest, id);
      ConsIds(p, Without(rest, id));
    }
  }

  lemma {:induction false} WithoutConcat(a: seq<Peer>, b: seq<Peer>, id: nat)
    ensures Without(a + b, id) == Without(a, id) + Without(b, id)
  {
    if a == [] {
      assert a + b == b;
    } else {
      assert (a + b)[1..] == a[1..] + b;
      WithoutConcat(a[1..], b, id);
    }
  }

  lemma {:induction false} WithoutShorter(ps: seq<Peer>, id: nat)
    ensures |Without(ps, id)| <= |ps|
  {
    if ps != [] {
      WithoutShorter(ps[1..], id);
    }
  }

  lemma MembersFromMultiset(a: seq<Peer>, b: seq<Peer>)
    requires multiset(a) <= multiset(b)
    ensures forall p | p in a :: p in b
    ensures |a| <= |b|
  {
    forall p | p in a
      ensures p in b
    {
      assert p in multiset(a);
    }
    assert |multiset(a)| == |a| && |multiset(b)| == |b| == |multiset(a) + (multiset(b) - multiset(a))|;
  }

  // In a list of distinct ids nothing of the front comes again.
  lemma FrontNotRepeated(a: seq<Peer>, b: seq<Peer>)
    requires DistinctIds(a + b)
    ensures forall q | q in b :: q !in a
    ensures DistinctIds(a) && DistinctIds(b)
  {
    var c := a + b;
    assert forall i | 0 <= i < |a| :: c[i] == a[i];
    assert forall i | 0 <= i < |b| :: c[|a| + i] == b[i];
    forall q | q in b
      ensures q !in a
    {
      var i :| 0 <= i < |b| && b[i] == q;
      assert c[|a| + i] == q;
    }
  }

  // Lists with the same members counted alike have the same ids, and distinct ids alike.
  lemma IdsFromMultiset(a: seq<Peer>, b: seq<Peer>)
    requires multiset(a) == multiset(b)
    ensures Ids(a) == Ids(b) && |a| == |b|
    ensures DistinctIds(a) ==> DistinctIds(b)
  {
    assert forall p :: p in a <==> p in multiset(a);
    assert forall p :: p in b <==> p in multiset(b);
    assert |multiset(a)| == |a| && |multiset(b)| == |b|;
    assert Ids(a) == Ids(b);
    if DistinctIds(a) {
      IdsCount(a);
      CountIds(b);
    }
  }

  // Ids are distinct exactly when there are as many as contacts.
  lemma {:induction false} IdsCount(ps: seq<Peer>)
    requires DistinctIds(ps)
    ensures |Ids(ps)| == |ps|
  {
    if ps != [] {
      IdsCount(ps[1..]);
      assert ps == [ps[0]] + ps[1..];
      ConsIds(ps[0], ps[1..]);
    }
  }

  lemma {:induction false} IdsAtMost(ps: seq<Peer>)
    ensures |Ids(ps)| <= |ps|
  {
    if ps != [] {
      IdsAtMost(ps[1..]);
      assert ps == [ps[0]] + ps[1..];
      ConsIds(ps[0], ps[1..]);
    }
  }

  lemma {:induction false} CountIds(ps: seq<Peer>)
    requires |Ids(ps)| == |ps|
    ensures DistinctIds(ps)
  {
    if ps != [] {
      IdsAtMost(ps[1..]);
      assert ps == [ps[0]] + ps[1..];
      ConsIds(ps[0], ps[1..]);
      CountIds(ps[1..]);
    }
  }

  lemma SubsetSize(a: set<nat>, b: set<nat>)
    requires a <= b
    ensures |a| <= |b|
  {
    assert |b| == |a| + |b - a| by {
      assert b == a + (b - a);
    }
  }
}
