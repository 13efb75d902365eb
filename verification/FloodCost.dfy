// Why a flood ends, although the time to live is never reduced, and what it costs.
module FloodCost {
  import opened WsTransport
  import opened Flood

  // Copies of broadcast `id` in a list.
  function Count(cs: seq<Copy>, id: nat): nat {
    if cs == [] then 0 else Count(cs[..|cs| - 1], id) + (if cs[|cs| - 1].packet.id == id then 1 else 0)
  }

  // Links of the first n nodes that have seen the broadcast.
  function SeenLinks(s: Net, id: nat, n: nat): nat
    requires n <= |s.nodes| == |s.graph|
  {
    if n == 0 then 0 else SeenLinks(s, id, n - 1) + (if HasSeen(s, n - 1, id) then |s.graph[n - 1]| else 0)
  }

  function Unseen(s: Net, id: nat, n: nat): nat
    requires n <= |s.nodes|
  {
    if n == 0 then 0 else Unseen(s, id, n - 1) + (if HasSeen(s, n - 1, id) then 0 else 1)
  }

  function AllLinks(graph: seq<seq<nat>>): nat {
    if graph == [] then 0 else AllLinks(graph[..|graph| - 1]) + |graph[|graph| - 1]|
  }

  lemma {:induction false} CountConcat(a: seq<Copy>, b: seq<Copy>, id: nat)
    ensures Count(a + b, id) == Count(a, id) + Count(b, id)
  {
    if b == [] {
      assert a + b == a;
    } else {
      assert (a + b)[..|a + b| - 1] == a + b[..|b| - 1];
      CountConcat(a, b[..|b| - 1], id);
    }
  }

  lemma CountWithout(cs: seq<Copy>, i: nat, id: nat)
    requires i < |cs|
    ensures Count(cs, id) == Count(cs[..i] + cs[i + 1..], id) + (if cs[i].packet.id == id then 1 else 0)
  {
    assert cs == cs[..i] + [cs[i]] + cs[i + 1..];
    CountConcat(cs[..i] + [cs[i]], cs[i + 1..], id);
    CountConcat(cs[..i], [cs[i]], id);
    CountConcat(cs[..i], cs[i + 1..], id);
    assert [cs[i]][..0] == [];
  }

  lemma {:induction false} CountCopies(cs: seq<Copy>, p: Packet, id: nat)
    requires forall c | c in cs :: c.packet == p
    ensures Count(cs, id) == if p.id == id then |cs| else 0
  {
    if cs != [] {
      CountCopies(cs[..|cs| - 1], p, id);
    }
  }

  // One more node has seen the broadcast.
  lemma {:induction false} SumsAfter(s: Net, t: Net, id: nat, u: nat, n: nat)
    requires n <= |s.nodes| == |t.nodes| == |s.graph| && t.graph == s.graph && u < |s.nodes| && !HasSeen(s, u, id)
    requires forall v | 0 <= v < |s.nodes| :: HasSeen(t, v, id) <==> HasSeen(s, v, id) || v == u
    ensures SeenLinks(t, id, n) == SeenLinks(s, id, n) + (if u < n then |s.graph[u]| else 0)
    ensures Unseen(s, id, n) == Unseen(t, id, n) + (if u < n then 1 else 0)
    decreases n
  {
    if n > 0 {
      SumsAfter(s, t, id, u, n - 1);
    }
  }

  lemma {:induction false} SumsSame(s: Net, t: Net, id: nat, n: nat)
    requires n <= |s.nodes| == |t.nodes| == |s.graph| && t.graph == s.graph
    requires forall v | 0 <= v < |s.nodes| :: HasSeen(t, v, id) <==> HasSeen(s, v, id)
    ensures SeenLinks(t, id, n) == SeenLinks(s, id, n) && Unseen(t, id, n) == Unseen(s, id, n)
    decreases n
  {
    if n > 0 {
      SumsSame(s, t, id, n - 1);
    }
  }

  // The node that acts in a step, and the copies it sends.
  function Actor(s: Net, step: Step): nat
    requires Enabled(s, step)
  {
    match step case Originate(u, _) => u case Deliver(i) => s.flight[i].to
  }

  function SentIn(s: Net, step: Step): seq<Copy>
    requires Enabled(s, step)
  {
    match step
    case Originate(u, p) => Copies(s.nodes[u].Links(), p)
    case Deliver(i) => Forwards(s.nodes[s.flight[i].to], s.flight[i].packet)
  }

  // A step sends copies of one broadcast, to all links of the acting node if it sees it now, else to none.
  lemma StepSends(s: Net, step: Step, id: nat)
    requires Inv(s) && Enabled(s, step)
    ensures var u, t := Actor(s, step), Next(s, step);
            && t.log == s.log + SentIn(s, step) && |t.nodes| == |s.nodes| && t.graph == s.graph && Shape(t)
            && Count(SentIn(s, step), id) == (if NewlySeen(s, step, u, id) && !HasSeen(s, u, id) then |s.graph[u]| else 0)
            && SeenLinks(t, id, |t.nodes|) == SeenLinks(s, id, |s.nodes|) + Count(SentIn(s, step), id)
            && Unseen(t, id, |t.nodes|) + (if NewlySeen(s, step, u, id) && !HasSeen(s, u, id) then 1 else 0) == Unseen(s, id, |s.nodes|)
  {
    var u, t := Actor(s, step), Next(s, step);
    ShapeKept(s, step);
    SeenAfter(s, step);
    var p := if step.Originate? then step.packet else s.flight[step.i].packet;
    if step.Deliver? {
      assert s.flight[step.i] in s.flight && InTransit(s, s.flight[step.i]);
    }
    CopyIn(s.nodes[u].Links(), p);
    CountCopies(SentIn(s, step), p, id);
    if NewlySeen(s, step, u, id) && !HasSeen(s, u, id) {
      SumsAfter(s, t, id, u, |s.nodes|);
    } else {
      SumsSame(s, t, id, |s.nodes|);
    }
  }

  // Every copy sent went along a link of a node that has seen the broadcast, once per such link; and every
  // copy sent is either still in flight or has been processed once.
  ghost predicate Accounted(s: Net) {
    && Shape(s)
    && (forall id :: Count(s.log, id) == SeenLinks(s, id, |s.nodes|))
    && (forall id :: Count(s.log, id) == Count(s.flight, id) + Count(s.delivered, id))
  }

  lemma StepAccounts(s: Net, step: Step)
    requires Inv(s) && Accounted(s) && Enabled(s, step)
    ensures Accounted(Next(s, step))
  {
    var t := Next(s, step);
    ShapeKept(s, step);
    forall id
      ensures Count(t.log, id) == SeenLinks(t, id, |t.nodes|) == Count(t.flight, id) + Count(t.delivered, id)
    {
      StepSends(s, step, id);
      CountConcat(s.log, SentIn(s, step), id);
      FlightCount(s, step, id);
    }
  }

  lemma FlightCount(s: Net, step: Step, id: nat)
    requires Enabled(s, step)
    ensures var t := Next(s, step);
            && Count(t.flight, id) + Count(t.delivered, id) == Count(s.flight, id) + Count(s.delivered, id) + Count(SentIn(s, step), id)
            && (step.Deliver? ==> Count(t.flight, id) + (if s.flight[step.i].packet.id == id then 1 else 0) ==
                                  Count(s.flight, id) + Count(SentIn(s, step), id))
  {
    match step {
      case Originate(u, p) => CountConcat(s.flight, SentIn(s, step), id);
      case Deliver(i) =>
        var c := s.flight[i];
        CountWithout(s.flight, i, id);
        CountConcat(s.flight[..i] + s.flight[i + 1..], SentIn(s, step), id);
        CountConcat(s.delivered, [c], id);
        assert [c][..0] == [];
    }
  }

  // Processing a copy either shows the broadcast to one more node, or leaves one copy less; other
  // broadcasts are not affected.
  lemma DeliveryProgress(s: Net, i: nat, id: nat)
    requires Inv(s) && Enabled(s, Deliver(i))
    ensures var t, n := Next(s, Deliver(i)), |s.nodes|;
            && |t.nodes| == n
            && (id == s.flight[i].packet.id ==>
                  || Unseen(t, id, n) < Unseen(s, id, n)
                  || (Unseen(t, id, n) == Unseen(s, id, n) && Count(t.flight, id) < Count(s.flight, id)))
            && (id != s.flight[i].packet.id ==>
                  Unseen(t, id, n) == Unseen(s, id, n) && Count(t.flight, id) == Count(s.flight, id))
  {
    StepSends(s, Deliver(i), id);
    FlightCount(s, Deliver(i), id);
  }

  lemma {:induction false} SeenLinksAtMost(s: Net, id: nat, n: nat)
    requires n <= |s.nodes| == |s.graph|
    ensures SeenLinks(s, id, n) <= AllLinks(s.graph[..n])
    decreases n
  {
    if n > 0 {
      SeenLinksAtMost(s, id, n - 1);
      assert s.graph[..n][..n - 1] == s.graph[..n - 1];
    }
  }

  lemma NextAccounted(run: seq<Net>, steps: seq<Step>, i: nat)
    requires IsRun(run, steps) && i < |steps| && Accounted(run[i])
    ensures Accounted(run[i + 1])
  {
    ReachableInv(run, steps, i);
    StepAccounts(run[i], steps[i]);
  }

  lemma {:induction false} ReachableAccounted(run: seq<Net>, steps: seq<Step>, i: nat)
    requires IsRun(run, steps) && i < |run|
    ensures Accounted(run[i])
  {
    if i > 0 {
      ReachableAccounted(run, steps, i - 1);
      NextAccounted(run, steps, i - 1);
    } else {
      ReachableInv(run, steps, 0);
      InitAccounted(run[0]);
    }
  }

  lemma InitAccounted(s: Net)
    requires Init(s) && Shape(s)
    ensures Accounted(s)
  {
    forall id
      ensures SeenLinks(s, id, |s.nodes|) == 0
    {
      NothingSeen(s, id, |s.nodes|);
    }
  }

  lemma {:induction false} NothingSeen(s: Net, id: nat, n: nat)
    requires Init(s) && n <= |s.nodes|
    ensures SeenLinks(s, id, n) == 0
    decreases n
  {
    if n > 0 {
      NothingSeen(s, id, n - 1);
    }
  }

  // In every state of every run, a broadcast has cost exactly the links of the nodes that have seen it, so
  // never more than the network has, and no more copies of it have been processed than were sent.
  lemma BroadcastCost(run: seq<Net>, steps: seq<Step>, i: nat, id: nat)
    requires IsRun(run, steps) && i < |run|
    ensures var s := run[i];
            && |s.nodes| == |s.graph|
            && Count(s.log, id) == SeenLinks(s, id, |s.nodes|) <= AllLinks(s.graph)
            && Count(s.delivered, id) == Count(s.log, id) - Count(s.flight, id)
  {
    ReachableAccounted(run, steps, i);
    SeenLinksAtMost(run[i], id, |run[i].nodes|);
    assert run[i].graph[..|run[i].nodes|] == run[i].graph;
  }

  // ----- the length of a run -----

  function Drop(cs: seq<Copy>, id: nat): seq<Copy> {
    if cs == [] then []
    else Drop(cs[..|cs| - 1], id) + (if cs[|cs| - 1].packet.id == id then [] else [cs[|cs| - 1]])
  }

  lemma {:induction false} DropCounts(cs: seq<Copy>, id: nat, j: nat)
    ensures |cs| == |Drop(cs, id)| + Count(cs, id)
    ensures Count(Drop(cs, id), j) == if j == id then 0 else Count(cs, j)
  {
    if cs != [] {
      var last := cs[|cs| - 1];
      DropCounts(cs[..|cs| - 1], id, j);
      CountConcat(Drop(cs[..|cs| - 1], id), if last.packet.id == id then [] else [last], j);
      assert [last][..0] == [];
    }
  }

  lemma LastCounts(cs: seq<Copy>)
    requires cs != []
    ensures Count(cs, cs[|cs| - 1].packet.id) > 0
  {
  }

  function Times(n: nat, bound: nat): nat {
    if n == 0 then 0 else Times(n - 1, bound) + bound
  }

  lemma {:induction false} TimesIsProduct(n: nat, bound: nat)
    ensures Times(n, bound) == n * bound
  {
    if n > 0 {
      TimesIsProduct(n - 1, bound);
      assert n * bound == (n - 1) * bound + bound;
    }
  }

  // A list with at most `bound` copies of each of the broadcasts `ids`, and of no other.
  lemma {:induction false} CountPerBroadcast(cs: seq<Copy>, ids: set<nat>, bound: nat)
    requires forall id :: Count(cs, id) <= if id in ids then bound else 0
    ensures |cs| <= Times(|ids|, bound)
    decreases |ids|
  {
    if ids == {} {
      if cs != [] {
        LastCounts(cs);
      }
    } else {
      var id :| id in ids;
      forall j
        ensures Count(Drop(cs, id), j) <= if j in ids - {id} then bound else 0
      {
        DropCounts(cs, id, j);
      }
      DropCounts(cs, id, id);
      CountPerBroadcast(Drop(cs, id), ids - {id}, bound);
      assert |ids| == |ids - {id}| + 1;
    }
  }

  lemma {:induction false} StepsCounted(run: seq<Net>, steps: seq<Step>, i: nat)
    requires IsRun(run, steps) && i < |run|
    ensures |run[i].broadcasts| + |run[i].delivered| == i
  {
    if i > 0 {
      StepsCounted(run, steps, i - 1);
      if steps[i - 1].Originate? {
        var b, p := run[i - 1].broadcasts, steps[i - 1].packet;
        assert run[i].broadcasts.Keys == b.Keys + {p.id};
      }
    }
  }

  lemma DeliveredBound(run: seq<Net>, steps: seq<Step>, i: nat)
    requires IsRun(run, steps) && i < |run|
    ensures |run[i].delivered| <= |run[i].broadcasts| * AllLinks(run[0].graph)
  {
    var s := run[i];
    ReachableInv(run, steps, i);
    forall id
      ensures Count(s.delivered, id) <= if id in s.broadcasts.Keys then AllLinks(s.graph) else 0
    {
      BroadcastCost(run, steps, i, id);
      if id !in s.broadcasts {
        UnknownUnseen(s, id, |s.nodes|);
      }
    }
    CountPerBroadcast(s.delivered, s.broadcasts.Keys, AllLinks(s.graph));
    TimesIsProduct(|s.broadcasts|, AllLinks(s.graph));
  }

  // A run with B broadcasts has at most B * (1 + L) steps on a network with L links: every run ends.
  lemma RunsAreFinite(run: seq<Net>, steps: seq<Step>)
    requires IsRun(run, steps)
    ensures |steps| <= |run[|steps|].broadcasts| * (1 + AllLinks(run[0].graph))
  {
    StepsCounted(run, steps, |steps|);
    DeliveredBound(run, steps, |steps|);
    Distribute(|run[|steps|].broadcasts|, AllLinks(run[0].graph));
  }

  lemma Distribute(b: nat, l: nat)
    ensures b * (1 + l) == b + b * l
  {
  }

  lemma {:induction false} UnknownUnseen(s: Net, id: nat, n: nat)
    requires Shape(s) && id !in s.broadcasts && n <= |s.nodes|
    ensures SeenLinks(s, id, n) == 0
    decreases n
  {
    if n > 0 {
      UnknownUnseen(s, id, n - 1);
    }
  }
}
