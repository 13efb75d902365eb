// The discovery protocol over UDP: all nodes, and a network that may lose, repeat and reorder messages.
module Protocol {
  import opened Peers
  import opened Tables
  import Lookups
  import opened Searches
  import opened Chunks

  datatype Msg =
    | FindNode(from: Peer, to: Peer, resId: nat)
    | Reply(from: Peer, to: Peer, resId: nat, nodes: seq<Peer>)
    | Ping(from: Peer, to: Peer, resId: nat)
    | Pong(from: Peer, to: Peer, resId: nat)
    | Store(from: Peer, to: Peer, resId: nat)

  // A search under way: `updated` says whether some query of its current round found a closer peer.
  datatype SearchRun = SearchRun(st: State, candidate: Peer, round: nat, updated: bool)

  // A query waiting for its answer, and the search it belongs to.
  datatype Pending = Pending(search: nat, query: Query)

  // `stores` holds the chunks that each `store` call still has to try.
  datatype Node = Node(table: Table, searches: map<nat, SearchRun>, waiting: map<nat, Pending>, stores: map<nat, seq<seq<Peer>>>)

  // `net` is every message ever sent: any of them can arrive at any time, again or never. `nextId` is above
  // every response id in use. `resolved` records the pairs (x, y) for which a FIND_NODE from x to y was
  // answered by a REPLY.
  datatype Net = Net(cfg: Config, nodes: map<nat, Node>, net: set<Msg>, nextId: nat, resolved: set<(nat, nat)>)

  // What one turn of one node does.
  datatype Reaction = Reaction(node: Node, sent: seq<Msg>, used: nat, answeredBy: set<nat>)

  datatype Step =
    | Start(x: nat)
    | BeginSearch(x: nat, sid: nat)
    | Timeout(x: nat, resId: nat)
    | Proceed(x: nat, sid: nat)
    | BeginStore(x: nat, job: nat)
    | StoreChunk(x: nat, job: nat)
    | Disconnect(x: nat, id: nat)
    | Deliver(x: nat, m: Msg)

  // The contact of node x: every node listens on its id plus 3000.
  function Own(x: nat): Peer {
    Peer(x, x + 3000)
  }

  function Pings(x: nat, targets: seq<Peer>, nextId: nat): seq<Msg> {
    seq(|targets|, i requires 0 <= i < |targets| => Ping(Own(x), targets[i], nextId + i))
  }

  function Asks(x: nat, qs: seq<Query>, nextId: nat): seq<Msg> {
    seq(|qs|, i requires 0 <= i < |qs| => FindNode(Own(x), qs[i].node, nextId + i))
  }

  function Stores(x: nat, targets: seq<Peer>, nextId: nat): seq<Msg> {
    seq(|targets|, i requires 0 <= i < |targets| => Store(Own(x), targets[i], nextId + i))
  }

  // `updateTables`, with the pings it sends.
  function Learn(x: nat, n: Node, ps: seq<Peer>, nextId: nat): Reaction {
    var pings := n.table.PingsOf(ps);
    Reaction(n.(table := n.table.ContactedAll(ps)), Pings(x, pings, nextId), |pings|, {})
  }

  // The queries of the run's current round.
  function NextQueries(cfg: Config, run: SearchRun): seq<Query> {
    WindowMembers(cfg, run.st, run.round);
    Queries(run.st, run.round, Window(cfg, run.st, run.round))
  }

  // Every peer of the round's slice that has not been contacted is queried, and nobody else.
  lemma RoundAsksAll(cfg: Config, run: SearchRun)
    ensures forall i: nat ::
              (i < |run.st.shortlist| && Query(run.round, i, run.st.shortlist[i]) in NextQueries(cfg, run)) <==>
              WindowStart(cfg, run.round) <= i < WindowStart(cfg, run.round) + cfg.alpha && i < |run.st.shortlist| &&
              run.st.shortlist[i].nodeId !in Ids(run.st.contacts)
  {
    var window, qs := Window(cfg, run.st, run.round), NextQueries(cfg, run);
    WindowMembers(cfg, run.st, run.round);
    WindowExactly(cfg, run.st, run.round);
    assert forall n | 0 <= n < |qs| :: qs[n] == Query(run.round, window[n], run.st.shortlist[window[n]]);
    forall i: nat | i in window
      ensures Query(run.round, i, run.st.shortlist[i]) in qs
    {
      var n :| 0 <= n < |window| && window[n] == i;
      assert qs[n] == Query(run.round, i, run.st.shortlist[i]);
    }
  }

  // The entries for queries with consecutive response ids.
  function Awaited(sid: nat, qs: seq<Query>, first: nat): (m: map<nat, Pending>)
    ensures forall r :: r in m <==> first <= r < first + |qs|
    ensures forall r | r in m :: m[r] == Pending(sid, qs[r - first])
  {
    if qs == [] then map[]
    else Awaited(sid, qs[..|qs| - 1], first)[first + |qs| - 1 := Pending(sid, qs[|qs| - 1])]
  }

  function WithSent(run: SearchRun, qs: seq<Query>): SearchRun {
    run.(st := run.st.(sent := run.st.sent + qs))
  }

  // Sends the queries of the run's current round.
  function Ask(x: nat, n: Node, sid: nat, run: SearchRun, nextId: nat): Reaction {
    var qs := NextQueries(n.table.cfg, run);
    var after := n.(searches := n.searches[sid := WithSent(run, qs)], waiting := n.waiting + Awaited(sid, qs, nextId));
    Reaction(after, Asks(x, qs, nextId), |qs|, {})
  }

  function OnBeginSearch(x: nat, n: Node, sid: nat, nextId: nat): Reaction {
    var shortlist := Lookups.FindNode(n.table, x, n.table.cfg.alpha);
    if shortlist == [] then Reaction(n, [], 0, {})
    else Ask(x, n, sid, SearchRun(State([], shortlist, []), shortlist[0], 0, false), nextId)
  }

  function FollowingRound(run: SearchRun): SearchRun {
    run.(round := run.round + 1, updated := false)
  }

  predicate GoesOn(cfg: Config, run: SearchRun) {
    run.updated && |run.st.contacts| < cfg.bits && NextQueries(cfg, FollowingRound(run)) != []
  }

  // The contacts of a finished search go into the table.
  function Conclude(x: nat, n: Node, sid: nat, contacts: seq<Peer>, nextId: nat): Reaction {
    Learn(x, n.(searches := n.searches - {sid}), contacts, nextId)
  }

  // All queries of the round have ended.
  function OnProceed(x: nat, n: Node, sid: nat, nextId: nat): Reaction
    requires sid in n.searches
  {
    var run := n.searches[sid];
    if GoesOn(n.table.cfg, run) then Ask(x, n, sid, FollowingRound(run), nextId)
    else Conclude(x, n, sid, run.st.contacts, nextId)
  }

  // A reply whose response id is still awaited completes that query; any other is ignored.
  function OnReply(x: nat, n: Node, m: Msg): Reaction
    requires m.Reply?
  {
    if m.resId !in n.waiting || n.waiting[m.resId].search !in n.searches then Reaction(n, [], 0, {})
    else
      var p := n.waiting[m.resId];
      var run := n.searches[p.search];
      var updated := run.updated || Updates(n.table.cfg, x, run.candidate, Answer(m.nodes));
      var after := run.(st := Completed(run.st, p.query.node, Answer(m.nodes)), updated := updated);
      Reaction(n.(searches := n.searches[p.search := after], waiting := n.waiting - {m.resId}), [], 0, {p.query.node.nodeId})
  }

  // What `handleMessage` answers after it has updated the table.
  function Respond(x: nat, n: Node, m: Msg): Reaction {
    match m
    case FindNode(from, _, resId) =>
      Reaction(n, [Reply(Own(x), from, resId, Lookups.FindNode(n.table, from.nodeId, n.table.cfg.alpha))], 0, {})
    case Ping(from, _, resId) => Reaction(n, [Pong(Own(x), from, resId)], 0, {})
    case Store(from, _, resId) => Reaction(n, [Pong(Own(x), from, resId)], 0, {})
    case Pong(_, _, _) => Reaction(n, [], 0, {})
    case Reply(_, _, _, _) => OnReply(x, n, m)
  }

  function HandleMessage(x: nat, n: Node, m: Msg, nextId: nat): Reaction {
    var learned := Learn(x, n, [m.from], nextId);
    var response := Respond(x, learned.node, m);
    Reaction(response.node, learned.sent + response.sent, learned.used, response.answeredBy)
  }

  predicate Enabled(s: Net, step: Step) {
    && step.x in s.nodes
    && var n := s.nodes[step.x];
      match step
      case Start(_) => true
      case BeginSearch(_, sid) => sid !in n.searches && forall r | r in n.waiting :: n.waiting[r].search != sid
      case Timeout(_, resId) => resId in n.waiting
      case Proceed(_, sid) => sid in n.searches && forall r | r in n.waiting :: n.waiting[r].search != sid
      case BeginStore(_, job) => job !in n.stores
      case StoreChunk(_, job) => job in n.stores && n.stores[job] != []
      case Disconnect(_, _) => true
      case Deliver(x, m) => m in s.net && m.to.port == x + 3000
  }

  function React(s: Net, step: Step): Reaction
    requires Enabled(s, step)
  {
    var n := s.nodes[step.x];
    match step
    case Start(x) => Learn(x, n, [Own(0)], s.nextId)
    case BeginSearch(x, sid) => OnBeginSearch(x, n, sid, s.nextId)
    case Timeout(_, resId) => Reaction(n.(waiting := n.waiting - {resId}), [], 0, {})
    case Proceed(x, sid) => OnProceed(x, n, sid, s.nextId)
    case BeginStore(_, job) => Reaction(n.(stores := n.stores[job := Chunk(n.table.AllPeers(), n.table.cfg.alpha)]), [], 0, {})
    case StoreChunk(x, job) =>
      Reaction(n.(stores := n.stores[job := n.stores[job][1..]]), Stores(x, n.stores[job][0], s.nextId), |n.stores[job][0]|, {})
    case Disconnect(_, id) => Reaction(n.(table := n.table.Disconnected(id)), [], 0, {})
    case Deliver(x, m) => HandleMessage(x, n, m, s.nextId)
  }

  function Next(s: Net, step: Step): Net
    requires Enabled(s, step)
  {
    var r := React(s, step);
    Net(s.cfg, s.nodes[step.x := r.node], s.net + (set m | m in r.sent), s.nextId + r.used,
        s.resolved + (set y | y in r.answeredBy :: (step.x, y)))
  }

  ghost predicate Init(s: Net) {
    && s.net == {} && s.nextId == 0 && s.resolved == {}
    && forall x | x in s.nodes :: s.nodes[x] == Node(EmptyTable(s.cfg, x), map[], map[], map[])
  }

  // The states along a run of the protocol.
  ghost predicate IsRun(run: seq<Net>, steps: seq<Step>) {
    && |run| == |steps| + 1
    && Init(run[0])
    && forall i | 0 <= i < |steps| :: Enabled(run[i], steps[i]) && run[i + 1] == Next(run[i], steps[i])
  }
}
