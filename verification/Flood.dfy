// The broadcast flood on a fixed link graph: copies in flight arrive one at a time, in any order.
module Flood {
  import opened WsTransport

  // Who originated a broadcast, and the packet sent.
  datatype Source = Source(origin: nat, packet: Packet)

  // `graph[u]` lists the links of node u. `flight` holds the copies not yet processed; `log` and `delivered`
  // record every copy ever sent and every copy processed.
  datatype Net = Net(graph: seq<seq<nat>>, nodes: seq<Ws>, flight: seq<Copy>, delivered: seq<Copy>, log: seq<Copy>,
                     broadcasts: map<nat, Source>)

  // A node broadcasts a packet with a new id, or the i-th copy in flight is processed.
  datatype Step = Originate(u: nat, packet: Packet) | Deliver(i: nat)

  predicate Enabled(s: Net, step: Step) {
    match step
    case Originate(u, p) => u < |s.nodes| && p.kind.Broadcast? && p.id !in s.broadcasts
    case Deliver(i) => i < |s.flight| && s.flight[i].to < |s.nodes|
  }

  function Next(s: Net, step: Step): Net
    requires Enabled(s, step)
  {
    match step
    case Originate(u, p) =>
      var copies := Copies(s.nodes[u].Links(), p);
      s.(nodes := s.nodes[u := Spread(s.nodes[u], p)], flight := s.flight + copies, log := s.log + copies,
         broadcasts := s.broadcasts[p.id := Source(u, p)])
    case Deliver(i) =>
      var c := s.flight[i];
      var copies := Forwards(s.nodes[c.to], c.packet);
      s.(nodes := s.nodes[c.to := Received(s.nodes[c.to], c.packet)], flight := s.flight[..i] + s.flight[i + 1..] + copies,
         delivered := s.delivered + [c], log := s.log + copies)
  }

  ghost predicate Init(s: Net) {
    && |s.graph| == |s.nodes| && s.flight == s.delivered == s.log == [] && s.broadcasts == map[]
    && (forall u | 0 <= u < |s.nodes| :: s.graph[u] == s.nodes[u].Links() && s.nodes[u].seen == map[] && s.nodes[u].emitted == [])
    && (forall u, v | 0 <= u < |s.nodes| && v in s.graph[u] :: v < |s.nodes|)
  }

  ghost predicate IsRun(run: seq<Net>, steps: seq<Step>) {
    && |run| == |steps| + 1
    && Init(run[0])
    && forall i | 0 <= i < |steps| :: Enabled(run[i], steps[i]) && run[i + 1] == Next(run[i], steps[i])
  }

  predicate HasSeen(s: Net, u: nat, id: nat)
    requires u < |s.nodes|
  {
    id in s.nodes[u].seen
  }

  // ----- the invariants -----

  ghost predicate Shape(s: Net) {
    && |s.graph| == |s.nodes|
    && (forall u | 0 <= u < |s.nodes| :: s.graph[u] == s.nodes[u].Links())
    && (forall u, v | 0 <= u < |s.nodes| && v in s.graph[u] :: v < |s.nodes|)
    && (forall id | id in s.broadcasts :: s.broadcasts[id].origin < |s.nodes| && s.broadcasts[id].packet.id == id &&
                                          s.broadcasts[id].packet.kind.Broadcast?)
    && (forall u, id | 0 <= u < |s.nodes| && HasSeen(s, u, id) :: id in s.broadcasts)
    && (forall c | c in s.flight :: InTransit(s, c))
  }

  // A copy in flight carries its origin's packet unchanged.
  predicate InTransit(s: Net, c: Copy) {
    c.to < |s.nodes| && c.packet.id in s.broadcasts && c.packet == s.broadcasts[c.packet.id].packet
  }

  // Whoever has seen a broadcast has a copy on the way to every neighbour that has not.
  ghost predicate Covered(s: Net)
    requires Shape(s)
  {
    && (forall id | id in s.broadcasts && s.graph[s.broadcasts[id].origin] != [] :: HasSeen(s, s.broadcasts[id].origin, id))
    && (forall u, v, id | 0 <= u < |s.nodes| && HasSeen(s, u, id) && s.broadcasts[id].packet.ttl >= 1 && v in s.graph[u] ::
          HasSeen(s, v, id) || Copy(v, s.broadcasts[id].packet) in s.flight)
  }

  function Emissions(es: seq<Emission>, id: nat): nat {
    if es == [] then 0
    else Emissions(es[..|es| - 1], id) + (if es[|es| - 1].id == id then 1 else 0)
  }

  // Everyone but the origin hands a broadcast up once, when it first sees it, with the origin's content.
  ghost predicate EmittedOnce(s: Net)
    requires Shape(s)
  {
    && (forall u, id | 0 <= u < |s.nodes| ::
          Emissions(s.nodes[u].emitted, id) == if HasSeen(s, u, id) && s.broadcasts[id].origin != u then 1 else 0)
    && (forall u, e | 0 <= u < |s.nodes| && e in s.nodes[u].emitted ::
          e.id in s.broadcasts && e == EmissionOf(s.broadcasts[e.id].packet))
  }

  function EmissionOf(p: Packet): Emission {
    Emission(p.id, p.kind, p.message, p.origin)
  }

  // A path of links from a to b, of one link or more.
  predicate IsPath(graph: seq<seq<nat>>, path: seq<nat>, a: nat, b: nat) {
    && |path| >= 2 && path[0] == a && path[|path| - 1] == b
    && forall i | 0 <= i < |path| - 1 :: path[i] < |graph| && path[i + 1] in graph[path[i]]
  }

  ghost predicate Reachable(graph: seq<seq<nat>>, a: nat, b: nat) {
    exists path :: IsPath(graph, path, a, b)
  }

  // Nothing strays from the links, and a packet without time to live stays where it was made.
  ghost predicate Traceable(s: Net)
    requires Shape(s)
  {
    && (forall c | c in s.flight :: Reachable(s.graph, s.broadcasts[c.packet.id].origin, c.to))
    && (forall u, id | 0 <= u < |s.nodes| && HasSeen(s, u, id) && u != s.broadcasts[id].origin ::
          s.broadcasts[id].packet.ttl >= 1 && Reachable(s.graph, s.broadcasts[id].origin, u))
  }

  // ----- they hold throughout -----

  lemma SpreadFacts(w: Ws, p: Packet)
    ensures Spread(w, p).Links() == w.Links() && Spread(w, p).emitted == w.emitted
    ensures forall id :: id in Spread(w, p).seen <==> id in w.seen || (id == p.id && w.Links() != [])
  {
  }

  lemma ReceivedFacts(w: Ws, p: Packet)
    requires p.kind.Broadcast?
    ensures Received(w, p).Links() == w.Links()
    ensures forall id :: id in Received(w, p).seen <==> id in w.seen || (id == p.id && p.ttl >= 1)
    ensures Received(w, p).emitted == w.emitted + if Ignores(w, p) then [] else [EmissionOf(p)]
  {
  }

  lemma CopyIn(tos: seq<nat>, p: Packet)
    ensures forall v | v in tos :: Copy(v, p) in Copies(tos, p)
    ensures forall c | c in Copies(tos, p) :: c.to in tos && c.packet == p
  {
    forall v | v in tos
      ensures Copy(v, p) in Copies(tos, p)
    {
      var i :| 0 <= i < |tos| && tos[i] == v;
      assert Copies(tos, p)[i] == Copy(v, p);
    }
  }

  // Which copies are in flight after processing the i-th.
  lemma FlightAfter(s: Net, i: nat)
    requires Shape(s) && i < |s.flight|
    ensures Enabled(s, Deliver(i))
    ensures var c, t := s.flight[i], Next(s, Deliver(i));
            && (forall d | d in s.flight && d != c :: d in t.flight)
            && (forall d | d in t.flight :: d in s.flight || (d in Forwards(s.nodes[c.to], c.packet)))
            && (forall d | d in Forwards(s.nodes[c.to], c.packet) :: d in t.flight)
  {
    assert s.flight[i] in s.flight;
    var rest := s.flight[..i] + s.flight[i + 1..];
    forall d | d in s.flight && d != s.flight[i]
      ensures d in rest
    {
      var j :| 0 <= j < |s.flight| && s.flight[j] == d;
      assert rest[if j < i then j else j - 1] == d;
    }
  }

  // Who has seen what after a step.
  predicate NewlySeen(s: Net, step: Step, u: nat, id: nat)
    requires Enabled(s, step)
  {
    match step
    case Originate(v, p) => u == v && id == p.id && s.nodes[v].Links() != []
    case Deliver(i) => u == s.flight[i].to && id == s.flight[i].packet.id && s.flight[i].packet.ttl >= 1
  }

  lemma SeenAfter(s: Net, step: Step)
    requires Shape(s) && Enabled(s, step)
    ensures |Next(s, step).nodes| == |s.nodes|
    ensures forall u, id | 0 <= u < |s.nodes| :: HasSeen(Next(s, step), u, id) <==> HasSeen(s, u, id) || NewlySeen(s, step, u, id)
    ensures forall u | 0 <= u < |s.nodes| :: Next(s, step).nodes[u].Links() == s.nodes[u].Links()
  {
    match step {
      case Originate(u, p) => SpreadFacts(s.nodes[u], p);
      case Deliver(i) =>
        var c := s.flight[i];
        assert c in s.flight && InTransit(s, c);
        ReceivedFacts(s.nodes[c.to], c.packet);
    }
  }

  lemma ShapeKept(s: Net, step: Step)
    requires Shape(s) && Enabled(s, step)
    ensures Shape(Next(s, step)) && Next(s, step).graph == s.graph
  {
    SeenAfter(s, step);
    match step {
      case Originate(u, p) =>
        CopyIn(s.nodes[u].Links(), p);
      case Deliver(i) =>
        var c := s.flight[i];
        FlightAfter(s, i);
        assert InTransit(s, c);
        CopyIn(s.nodes[c.to].Links(), c.packet);
    }
  }

  lemma CoveredKept(s: Net, step: Step)
    requires Shape(s) && Covered(s) && Enabled(s, step)
    ensures Shape(Next(s, step)) && Covered(Next(s, step))
  {
    ShapeKept(s, step);
    SeenAfter(s, step);
    var t := Next(s, step);
    forall u, v, id | 0 <= u < |t.nodes| && HasSeen(t, u, id) && t.broadcasts[id].packet.ttl >= 1 && v in t.graph[u]
      ensures HasSeen(t, v, id) || Copy(v, t.broadcasts[id].packet) in t.flight
    {
      LinkCovered(s, step, u, v, id);
    }
  }

  // One link: the copy on its way stays there until its target has seen the broadcast, and a node that sees it
  // now sends one.
  lemma LinkCovered(s: Net, step: Step, u: nat, v: nat, id: nat)
    requires Shape(s) && Covered(s) && Enabled(s, step) && u < |s.nodes| && v in s.graph[u]
    requires Shape(Next(s, step)) && HasSeen(Next(s, step), u, id) && Next(s, step).broadcasts[id].packet.ttl >= 1
    ensures HasSeen(Next(s, step), v, id) || Copy(v, Next(s, step).broadcasts[id].packet) in Next(s, step).flight
  {
    SeenAfter(s, step);
    match step {
      case Originate(w, p) =>
        CopyIn(s.nodes[w].Links(), p);
      case Deliver(i) =>
        var c := s.flight[i];
        FlightAfter(s, i);
        assert InTransit(s, c);
        CopyIn(s.nodes[c.to].Links(), c.packet);
    }
  }

  lemma EmissionsNext(es: seq<Emission>, e: Emission, id: nat)
    ensures Emissions(es + [e], id) == Emissions(es, id) + if e.id == id then 1 else 0
  {
    assert (es + [e])[..|es|] == es;
  }

  // What each node has handed up after a step.
  lemma EmissionsAfter(s: Net, step: Step, u: nat, id: nat)
    requires Shape(s) && Enabled(s, step) && u < |s.nodes|
    ensures Emissions(Next(s, step).nodes[u].emitted, id) ==
            Emissions(s.nodes[u].emitted, id) + (if step.Deliver? && NewlySeen(s, step, u, id) && !HasSeen(s, u, id) then 1 else 0)
  {
    match step {
      case Originate(v, p) => SpreadFacts(s.nodes[v], p);
      case Deliver(i) =>
        var c := s.flight[i];
        assert c in s.flight && InTransit(s, c);
        ReceivedFacts(s.nodes[c.to], c.packet);
        EmissionsNext(s.nodes[c.to].emitted, EmissionOf(c.packet), id);
    }
  }

  lemma EmittedAfter(s: Net, step: Step, u: nat, e: Emission)
    requires Shape(s) && Enabled(s, step) && u < |s.nodes| && e in Next(s, step).nodes[u].emitted
    ensures e in s.nodes[u].emitted || (step.Deliver? && e == EmissionOf(s.flight[step.i].packet))
  {
    match step {
      case Originate(v, p) => SpreadFacts(s.nodes[v], p);
      case Deliver(i) =>
        var c := s.flight[i];
        assert c in s.flight && InTransit(s, c);
        ReceivedFacts(s.nodes[c.to], c.packet);
    }
  }

  // Who sees a broadcast by a delivered copy is not its origin, which has seen it before.
  lemma NotTheOrigin(s: Net, step: Step, u: nat, id: nat)
    requires Shape(s) && Covered(s) && Traceable(s) && Enabled(s, step) && u < |s.nodes|
    requires step.Deliver? && NewlySeen(s, step, u, id) && !HasSeen(s, u, id)
    ensures id in s.broadcasts && s.broadcasts[id].origin != u
  {
    assert s.flight[step.i] in s.flight && InTransit(s, s.flight[step.i]);
    OriginHasSeen(s, s.flight[step.i]);
  }

  lemma CountKept(s: Net, step: Step, u: nat, id: nat)
    requires Shape(s) && Covered(s) && Traceable(s) && EmittedOnce(s) && Enabled(s, step) && u < |s.nodes|
    requires Shape(Next(s, step))
    ensures var t := Next(s, step);
            Emissions(t.nodes[u].emitted, id) == if HasSeen(t, u, id) && t.broadcasts[id].origin != u then 1 else 0
  {
    SeenAfter(s, step);
    EmissionsAfter(s, step, u, id);
    assert Emissions(s.nodes[u].emitted, id) == if HasSeen(s, u, id) && s.broadcasts[id].origin != u then 1 else 0;
    if step.Deliver? && NewlySeen(s, step, u, id) && !HasSeen(s, u, id) {
      NotTheOrigin(s, step, u, id);
    }
  }

  lemma EmittedKept(s: Net, step: Step)
    requires Shape(s) && Covered(s) && Traceable(s) && EmittedOnce(s) && Enabled(s, step)
    ensures Shape(Next(s, step)) && EmittedOnce(Next(s, step))
  {
    ShapeKept(s, step);
    var t := Next(s, step);
    forall u, id | 0 <= u < |t.nodes|
      ensures Emissions(t.nodes[u].emitted, id) == if HasSeen(t, u, id) && t.broadcasts[id].origin != u then 1 else 0
    {
      CountKept(s, step, u, id);
    }
    forall u, e | 0 <= u < |t.nodes| && e in t.nodes[u].emitted
      ensures e.id in t.broadcasts && e == EmissionOf(t.broadcasts[e.id].packet)
    {
      EmittedAfter(s, step, u, e);
      if step.Deliver? {
        assert s.flight[step.i] in s.flight && InTransit(s, s.flight[step.i]);
      }
    }
  }

  // A broadcast with a copy in flight has been seen at its origin.
  lemma OriginHasSeen(s: Net, c: Copy)
    requires Shape(s) && Covered(s) && Traceable(s) && c in s.flight
    ensures HasSeen(s, s.broadcasts[c.packet.id].origin, c.packet.id)
  {
    assert InTransit(s, c);
    var path :| IsPath(s.graph, path, s.broadcasts[c.packet.id].origin, c.to);
    assert path[0 + 1] in s.graph[path[0]];
  }

  lemma ReachableNext(graph: seq<seq<nat>>, a: nat, b: nat, c: nat)
    requires b < |graph| && c in graph[b] && (a == b || Reachable(graph, a, b))
    ensures Reachable(graph, a, c)
  {
    if a == b {
      assert IsPath(graph, [a, c], a, c);
    } else {
      var path :| IsPath(graph, path, a, b);
      assert IsPath(graph, path + [c], a, c);
    }
  }

  lemma FlightTraceable(s: Net, step: Step, d: Copy)
    requires Shape(s) && Traceable(s) && Enabled(s, step) && Shape(Next(s, step)) && d in Next(s, step).flight
    ensures Reachable(s.graph, Next(s, step).broadcasts[d.packet.id].origin, d.to)
  {
    match step {
      case Originate(u, p) =>
        CopyIn(s.nodes[u].Links(), p);
        if d !in s.flight {
          ReachableNext(s.graph, u, u, d.to);
        } else {
          assert InTransit(s, d);
        }
      case Deliver(i) =>
        var c := s.flight[i];
        FlightAfter(s, i);
        assert c in s.flight && InTransit(s, c);
        CopyIn(s.nodes[c.to].Links(), c.packet);
        if d !in s.flight {
          ReachableNext(s.graph, s.broadcasts[c.packet.id].origin, c.to, d.to);
        }
    }
  }

  lemma SeenTraceable(s: Net, step: Step, u: nat, id: nat)
    requires Shape(s) && Traceable(s) && Enabled(s, step) && Shape(Next(s, step)) && u < |s.nodes|
    requires HasSeen(Next(s, step), u, id) && u != Next(s, step).broadcasts[id].origin
    ensures Next(s, step).broadcasts[id].packet.ttl >= 1 && Reachable(s.graph, Next(s, step).broadcasts[id].origin, u)
  {
    SeenAfter(s, step);
    if step.Deliver? {
      assert s.flight[step.i] in s.flight && InTransit(s, s.flight[step.i]);
    }
  }

  lemma TraceableKept(s: Net, step: Step)
    requires Shape(s) && Traceable(s) && Enabled(s, step)
    ensures Shape(Next(s, step)) && Traceable(Next(s, step))
  {
    ShapeKept(s, step);
    SeenAfter(s, step);
    var t := Next(s, step);
    forall c | c in t.flight
      ensures Reachable(t.graph, t.broadcasts[c.packet.id].origin, c.to)
    {
      FlightTraceable(s, step, c);
    }
    forall u, id | 0 <= u < |t.nodes| && HasSeen(t, u, id) && u != t.broadcasts[id].origin
      ensures t.broadcasts[id].packet.ttl >= 1 && Reachable(t.graph, t.broadcasts[id].origin, u)
    {
      SeenTraceable(s, step, u, id);
    }
  }

  ghost predicate Inv(s: Net) {
    Shape(s) && Covered(s) && EmittedOnce(s) && Traceable(s)
  }

  lemma {:induction false} ReachableInv(run: seq<Net>, steps: seq<Step>, i: nat)
    requires IsRun(run, steps) && i < |run|
    ensures Inv(run[i]) && run[i].graph == run[0].graph
  {
    if i > 0 {
      ReachableInv(run, steps, i - 1);
      ShapeKept(run[i - 1], steps[i - 1]);
      CoveredKept(run[i - 1], steps[i - 1]);
      EmittedKept(run[i - 1], steps[i - 1]);
      TraceableKept(run[i - 1], steps[i - 1]);
    }
  }

  // In every reachable state each copy in flight can be processed next, and any node may broadcast a new packet.
  lemma CanHappen(run: seq<Net>, steps: seq<Step>, i: nat)
    requires IsRun(run, steps) && i < |run|
    ensures forall j | 0 <= j < |run[i].flight| :: Enabled(run[i], Deliver(j))
    ensures forall u, p: Packet | 0 <= u < |run[i].nodes| && p.kind.Broadcast? && p.id !in run[i].broadcasts ::
              Enabled(run[i], Originate(u, p))
  {
    ReachableInv(run, steps, i);
    forall j | 0 <= j < |run[i].flight|
      ensures Enabled(run[i], Deliver(j))
    {
      FlightAfter(run[i], j);
    }
  }

  // ----- coverage -----

  // No copy of the broadcast is left to process.
  predicate Quiescent(s: Net, id: nat) {
    forall c | c in s.flight :: c.packet.id != id
  }

  lemma {:induction false} PathSeen(s: Net, id: nat, path: seq<nat>, v: nat)
    requires Inv(s) && id in s.broadcasts && s.broadcasts[id].packet.ttl >= 1 && Quiescent(s, id)
    requires IsPath(s.graph, path, s.broadcasts[id].origin, v)
    ensures v < |s.nodes| && HasSeen(s, v, id)
    decreases |path|
  {
    var origin := s.broadcasts[id].origin;
    var u := path[|path| - 2];
    if |path| > 2 {
      assert IsPath(s.graph, path[..|path| - 1], origin, u);
      PathSeen(s, id, path[..|path| - 1], u);
    }
    assert path[|path| - 2 + 1] == v && v in s.graph[u];
    assert HasSeen(s, u, id);
  }

  // Once nothing of a live broadcast is in flight, each node other than its origin has handed it up exactly
  // once, with the origin's content, if links lead to it from the origin, and never otherwise.
  lemma FloodCoverage(run: seq<Net>, steps: seq<Step>, i: nat, id: nat, v: nat)
    requires IsRun(run, steps) && i < |run| && id in run[i].broadcasts && Quiescent(run[i], id)
    requires run[i].broadcasts[id].packet.ttl >= 1 && v < |run[i].nodes| && v != run[i].broadcasts[id].origin
    ensures var s := run[i];
            && (Reachable(s.graph, s.broadcasts[id].origin, v) <==> HasSeen(s, v, id))
            && Emissions(s.nodes[v].emitted, id) == (if HasSeen(s, v, id) then 1 else 0)
            && (forall e | e in s.nodes[v].emitted && e.id == id :: e == EmissionOf(s.broadcasts[id].packet))
  {
    ReachableInv(run, steps, i);
    var s := run[i];
    if Reachable(s.graph, s.broadcasts[id].origin, v) {
      var path :| IsPath(s.graph, path, s.broadcasts[id].origin, v);
      PathSeen(s, id, path, v);
    }
  }

  lemma QuietNode(s: Net, id: nat, v: nat)
    requires Shape(s) && EmittedOnce(s) && id in s.broadcasts && v < |s.nodes|
    requires v == s.broadcasts[id].origin || !HasSeen(s, v, id)
    ensures Emissions(s.nodes[v].emitted, id) == 0
  {
  }

  // The origin never hands up its own broadcast, in any state.
  lemma OriginNeverHearsItself(run: seq<Net>, steps: seq<Step>, i: nat, id: nat, v: nat)
    requires IsRun(run, steps) && i < |run| && id in run[i].broadcasts && v == run[i].broadcasts[id].origin
    ensures v < |run[i].nodes| && Emissions(run[i].nodes[v].emitted, id) == 0
  {
    ReachableInv(run, steps, i);
    QuietNode(run[i], id, v);
  }

  // Without time to live a broadcast is handed up by nobody, in any state.
  lemma DeadOnArrival(run: seq<Net>, steps: seq<Step>, i: nat, id: nat, v: nat)
    requires IsRun(run, steps) && i < |run| && id in run[i].broadcasts && v < |run[i].nodes|
    requires run[i].broadcasts[id].packet.ttl < 1
    ensures Emissions(run[i].nodes[v].emitted, id) == 0
  {
    ReachableInv(run, steps, i);
    QuietNode(run[i], id, v);
  }
}
