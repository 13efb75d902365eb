// No node but the bootstrap ever learns of itself, looks for itself or writes to itself.
module NoSelf {
  import opened Metric
  import opened Peers
  import opened KBuckets
  import opened Tables
  import Lookups
  import Answers
  import opened Searches
  import opened Chunks
  import opened Protocol

  // A contact as genuine nodes give it: a member of the network, or the bootstrap everybody starts from.
  predicate Real(ids: set<nat>, p: Peer) {
    p.port == p.nodeId + 3000 && (p.nodeId in ids || p.nodeId == 0)
  }

  // Contacts that node x may store: genuine, and not x itself unless x is the bootstrap.
  predicate Storable(ids: set<nat>, x: nat, ps: seq<Peer>) {
    forall p | p in ps :: Real(ids, p) && (p.nodeId == x ==> x == 0)
  }

  // Contacts that node x may search among: genuine and never x itself.
  predicate Foreign(ids: set<nat>, x: nat, ps: seq<Peer>) {
    forall p | p in ps :: Real(ids, p) && p.nodeId != x
  }

  predicate Askable(ids: set<nat>, x: nat, q: Query) {
    Real(ids, q.node) && q.node.nodeId != x
  }

  predicate RunOk(ids: set<nat>, x: nat, run: SearchRun) {
    Foreign(ids, x, run.st.shortlist) && Foreign(ids, x, run.st.contacts)
  }

  ghost predicate TableOk(ids: set<nat>, cfg: Config, x: nat, t: Table) {
    && t.Ok() && t.self == x && t.cfg == cfg
    && forall p | t.Stores(p) :: Real(ids, p) && (p.nodeId == x ==> x == 0)
  }

  ghost predicate NodeOk(ids: set<nat>, cfg: Config, x: nat, n: Node) {
    && TableOk(ids, cfg, x, n.table)
    && (forall sid | sid in n.searches :: RunOk(ids, x, n.searches[sid]))
    && (forall r | r in n.waiting :: Askable(ids, x, n.waiting[r].query))
    && (forall job | job in n.stores :: Storable(ids, x, Flatten(n.stores[job])))
  }

  // Who a message is from and to is genuine; only the bootstrap's pings, stores and pongs come back to
  // their sender, and no reply tells a node about itself.
  predicate MsgOk(ids: set<nat>, m: Msg) {
    && Real(ids, m.from) && Real(ids, m.to)
    && (m.from.nodeId == m.to.nodeId ==> m.from.nodeId == 0 && !m.FindNode? && !m.Reply?)
    && (m.Reply? ==> Foreign(ids, m.to.nodeId, m.nodes))
  }

  predicate AllMsgOk(ids: set<nat>, ms: seq<Msg>) {
    forall m | m in ms :: MsgOk(ids, m)
  }

  ghost predicate Inv(s: Net) {
    && (forall m | m in s.net :: MsgOk(s.nodes.Keys, m))
    && (forall x | x in s.nodes :: NodeOk(s.nodes.Keys, s.cfg, x, s.nodes[x]))
  }

  ghost predicate ReactionOk(ids: set<nat>, cfg: Config, x: nat, r: Reaction) {
    NodeOk(ids, cfg, x, r.node) && AllMsgOk(ids, r.sent)
  }

  // ----- each kind of turn -----

  lemma PingsOk(ids: set<nat>, x: nat, targets: seq<Peer>, nextId: nat)
    requires x in ids && Storable(ids, x, targets)
    ensures AllMsgOk(ids, Pings(x, targets, nextId))
  {
    var ms := Pings(x, targets, nextId);
    forall i | 0 <= i < |ms|
      ensures MsgOk(ids, ms[i])
    {
      assert ms[i] == Ping(Own(x), targets[i], nextId + i) && targets[i] in targets;
    }
  }

  lemma StoresOk(ids: set<nat>, x: nat, targets: seq<Peer>, nextId: nat)
    requires x in ids && Storable(ids, x, targets)
    ensures AllMsgOk(ids, Stores(x, targets, nextId))
  {
    var ms := Stores(x, targets, nextId);
    forall i | 0 <= i < |ms|
      ensures MsgOk(ids, ms[i])
    {
      assert ms[i] == Store(Own(x), targets[i], nextId + i) && targets[i] in targets;
    }
  }

  lemma AsksOk(ids: set<nat>, x: nat, qs: seq<Query>, nextId: nat)
    requires x in ids && forall i | 0 <= i < |qs| :: Askable(ids, x, qs[i])
    ensures AllMsgOk(ids, Asks(x, qs, nextId))
  {
    var ms := Asks(x, qs, nextId);
    forall i | 0 <= i < |ms|
      ensures MsgOk(ids, ms[i])
    {
      assert ms[i] == FindNode(Own(x), qs[i].node, nextId + i);
    }
  }

  lemma LearnOk(ids: set<nat>, cfg: Config, x: nat, n: Node, ps: seq<Peer>, nextId: nat)
    requires x in ids && NodeOk(ids, cfg, x, n) && Storable(ids, x, ps)
    ensures ReactionOk(ids, cfg, x, Learn(x, n, ps, nextId))
  {
    ContactedAllStores(n.table, ps);
    PingsAreStored(n.table, ps);
    PingsOk(ids, x, n.table.PingsOf(ps), nextId);
  }

  lemma NextQueriesOk(ids: set<nat>, cfg: Config, x: nat, run: SearchRun)
    requires RunOk(ids, x, run)
    ensures forall i | 0 <= i < |NextQueries(cfg, run)| :: Askable(ids, x, NextQueries(cfg, run)[i])
  {
    var qs := NextQueries(cfg, run);
    WindowMembers(cfg, run.st, run.round);
    var window := Window(cfg, run.st, run.round);
    forall i | 0 <= i < |qs|
      ensures Askable(ids, x, qs[i])
    {
      assert qs[i].node == run.st.shortlist[window[i]];
    }
  }

  lemma AskOk(ids: set<nat>, cfg: Config, x: nat, n: Node, sid: nat, run: SearchRun, nextId: nat)
    requires x in ids && NodeOk(ids, cfg, x, n) && RunOk(ids, x, run)
    ensures ReactionOk(ids, cfg, x, Ask(x, n, sid, run, nextId))
  {
    NextQueriesOk(ids, cfg, x, run);
    AsksOk(ids, x, NextQueries(cfg, run), nextId);
  }

  // What `findNode` answers about key is genuine and not the key itself.
  lemma FindNodeForeign(ids: set<nat>, cfg: Config, x: nat, t: Table, key: nat, count: nat)
    requires TableOk(ids, cfg, x, t)
    ensures Foreign(ids, key, Lookups.FindNode(t, key, count))
  {
    Answers.FindNodeContract(t, key, count);
  }

  lemma BeginSearchOk(ids: set<nat>, cfg: Config, x: nat, n: Node, sid: nat, nextId: nat)
    requires x in ids && NodeOk(ids, cfg, x, n)
    ensures ReactionOk(ids, cfg, x, OnBeginSearch(x, n, sid, nextId))
  {
    var shortlist := Lookups.FindNode(n.table, x, cfg.alpha);
    FindNodeForeign(ids, cfg, x, n.table, x, cfg.alpha);
    if shortlist != [] {
      AskOk(ids, cfg, x, n, sid, SearchRun(State([], shortlist, []), shortlist[0], 0, false), nextId);
    }
  }

  lemma ConcludeOk(ids: set<nat>, cfg: Config, x: nat, n: Node, sid: nat, contacts: seq<Peer>, nextId: nat)
    requires x in ids && NodeOk(ids, cfg, x, n) && Foreign(ids, x, contacts)
    ensures ReactionOk(ids, cfg, x, Conclude(x, n, sid, contacts, nextId))
  {
    var rest := n.(searches := n.searches - {sid});
    assert NodeOk(ids, cfg, x, rest);
    LearnOk(ids, cfg, x, rest, contacts, nextId);
  }

  lemma ProceedOk(ids: set<nat>, cfg: Config, x: nat, n: Node, sid: nat, nextId: nat)
    requires x in ids && NodeOk(ids, cfg, x, n) && sid in n.searches
    ensures ReactionOk(ids, cfg, x, OnProceed(x, n, sid, nextId))
  {
    var run := n.searches[sid];
    assert RunOk(ids, x, run);
    if GoesOn(n.table.cfg, run) {
      AskOk(ids, cfg, x, n, sid, FollowingRound(run), nextId);
    } else {
      ConcludeOk(ids, cfg, x, n, sid, run.st.contacts, nextId);
    }
  }

  lemma ReplyOk(ids: set<nat>, cfg: Config, x: nat, n: Node, m: Msg)
    requires NodeOk(ids, cfg, x, n) && m.Reply? && MsgOk(ids, m) && m.to.nodeId == x
    ensures ReactionOk(ids, cfg, x, OnReply(x, n, m))
  {
    if m.resId in n.waiting && n.waiting[m.resId].search in n.searches {
      var p := n.waiting[m.resId];
      var run := n.searches[p.search];
      assert RunOk(ids, x, run);
      SetContactMembers(run.st.contacts, p.query.node);
      assert RunOk(ids, x, OnReply(x, n, m).node.searches[p.search]);
    }
  }

  lemma SetContactMembers(contacts: seq<Peer>, p: Peer)
    ensures forall q | q in SetContact(contacts, p) :: q in contacts || q == p
  {
  }

  lemma RespondOk(ids: set<nat>, cfg: Config, x: nat, n: Node, m: Msg)
    requires x in ids && NodeOk(ids, cfg, x, n) && MsgOk(ids, m) && m.to.nodeId == x
    ensures ReactionOk(ids, cfg, x, Respond(x, n, m))
  {
    match m {
      case FindNode(from, _, _) => FindNodeForeign(ids, cfg, x, n.table, from.nodeId, cfg.alpha);
      case Reply(_, _, _, _) => ReplyOk(ids, cfg, x, n, m);
      case Ping(_, _, _) =>
      case Pong(_, _, _) =>
      case Store(_, _, _) =>
    }
  }

  lemma HandleMessageOk(ids: set<nat>, cfg: Config, x: nat, n: Node, m: Msg, nextId: nat)
    requires x in ids && NodeOk(ids, cfg, x, n) && MsgOk(ids, m) && m.to.nodeId == x
    ensures ReactionOk(ids, cfg, x, HandleMessage(x, n, m, nextId))
  {
    LearnOk(ids, cfg, x, n, [m.from], nextId);
    RespondOk(ids, cfg, x, Learn(x, n, [m.from], nextId).node, m);
  }

  lemma StoreChunkOk(ids: set<nat>, cfg: Config, x: nat, n: Node, job: nat, nextId: nat)
    requires x in ids && NodeOk(ids, cfg, x, n) && job in n.stores && n.stores[job] != []
    ensures AllMsgOk(ids, Stores(x, n.stores[job][0], nextId))
    ensures NodeOk(ids, cfg, x, n.(stores := n.stores[job := n.stores[job][1..]]))
  {
    var chunks := n.stores[job];
    assert Storable(ids, x, Flatten(chunks));
    assert Flatten(chunks) == chunks[0] + Flatten(chunks[1..]);
    assert forall p | p in chunks[0] :: p in Flatten(chunks);
    assert forall p | p in Flatten(chunks[1..]) :: p in Flatten(chunks);
    StoresOk(ids, x, chunks[0], nextId);
  }

  lemma BeginStoreOk(ids: set<nat>, cfg: Config, x: nat, n: Node, job: nat)
    requires NodeOk(ids, cfg, x, n)
    ensures NodeOk(ids, cfg, x, n.(stores := n.stores[job := Chunk(n.table.AllPeers(), cfg.alpha)]))
  {
    ChunkFlattens(n.table.AllPeers(), cfg.alpha);
    AllPeersStored(n.table);
  }

  // ----- every run -----

  lemma ReactOk(s: Net, step: Step)
    requires Inv(s) && Enabled(s, step)
    ensures ReactionOk(s.nodes.Keys, s.cfg, step.x, React(s, step))
  {
    var ids, n := s.nodes.Keys, s.nodes[step.x];
    assert NodeOk(ids, s.cfg, step.x, n);
    match step {
      case Start(x) => LearnOk(ids, s.cfg, x, n, [Own(0)], s.nextId);
      case BeginSearch(x, sid) => BeginSearchOk(ids, s.cfg, x, n, sid, s.nextId);
      case Timeout(_, _) =>
      case Proceed(x, sid) => ProceedOk(ids, s.cfg, x, n, sid, s.nextId);
      case BeginStore(x, job) => BeginStoreOk(ids, s.cfg, x, n, job);
      case StoreChunk(x, job) => StoreChunkOk(ids, s.cfg, x, n, job, s.nextId);
      case Disconnect(_, id) => DisconnectedOk(n.table, id);
      case Deliver(x, m) => HandleMessageOk(ids, s.cfg, x, n, m, s.nextId);
    }
  }

  lemma NextKeepsInv(s: Net, step: Step)
    requires Inv(s) && Enabled(s, step)
    ensures Inv(Next(s, step)) && Next(s, step).nodes.Keys == s.nodes.Keys
  {
    ReactOk(s, step);
    assert Next(s, step).nodes.Keys == s.nodes.Keys;
  }

  lemma {:induction false} ReachableInv(run: seq<Net>, steps: seq<Step>, i: nat)
    requires IsRun(run, steps) && i < |run|
    ensures Inv(run[i])
  {
    if i > 0 {
      ReachableInv(run, steps, i - 1);
      NextKeepsInv(run[i - 1], steps[i - 1]);
    } else {
      assert forall x | x in run[0].nodes :: NodeOk(run[0].nodes.Keys, run[0].cfg, x, run[0].nodes[x]);
    }
  }

  // In every state of every run, with any loss, repetition and reordering of messages.
  lemma NobodyMeetsItself(run: seq<Net>, steps: seq<Step>, i: nat)
    requires IsRun(run, steps) && i < |run|
    ensures var s := run[i];
            && (forall x | x in s.nodes && x != 0 :: !s.nodes[x].table.Holds(x))
            && (forall x, sid, p | x in s.nodes && sid in s.nodes[x].searches &&
                  (p in s.nodes[x].searches[sid].st.shortlist || p in s.nodes[x].searches[sid].st.contacts) :: p.nodeId != x)
            && (forall m | m in s.net && m.from.nodeId == m.to.nodeId :: m.from.nodeId == 0 && !m.FindNode? && !m.Reply?)
            && (forall m | m in s.net && m.Reply? :: m.to.nodeId !in Ids(m.nodes))
            && (forall m, x | m in s.net && x in s.nodes :: m.to.port == x + 3000 <==> m.to.nodeId == x)
  {
    ReachableInv(run, steps, i);
    var s := run[i];
    forall x | x in s.nodes && x != 0
      ensures !s.nodes[x].table.Holds(x)
    {
      assert NodeOk(s.nodes.Keys, s.cfg, x, s.nodes[x]);
      BucketDistinct(s.nodes[x].table, s.nodes[x].table.Slot(x));
    }
    forall x, sid | x in s.nodes && sid in s.nodes[x].searches
      ensures RunOk(s.nodes.Keys, x, s.nodes[x].searches[sid])
    {
      assert NodeOk(s.nodes.Keys, s.cfg, x, s.nodes[x]);
    }
  }

  lemma BootstrapTable(cfg: Config)
    ensures var t := EmptyTable(cfg, 0).ContactedAll([Own(0)]); t.Holds(0) && t.AllPeers() == [Own(0)]
  {
    var e, b := EmptyTable(cfg, 0), cfg.bits - 1;
    var t := e.ContactedAll([Own(0)]);
    OwnBucketIndex(0, cfg.bits);
    assert [Own(0)][..0] == [] && e.ContactedAll([]) == e;
    assert t == e.Contacted(Own(0));
    assert Touched([], Own(0), cfg.k, 0) == [Own(0)];
    assert t.keys == [b] && t.buckets == map[b := [Own(0)]];
    assert [b][1..] == [] && Gather([], t.buckets) == [];
    assert Own(0) in t.Bucket(b);
  }

  // A node with just itself in the table writes to itself in a `store`.
  lemma StoringAlone(s: Net) returns (t: Net, u: Net)
    requires 0 in s.nodes && s.nodes[0].stores == map[] && s.nodes[0].table.AllPeers() == [Own(0)]
    ensures Enabled(s, BeginStore(0, 0)) && t == Next(s, BeginStore(0, 0))
    ensures Enabled(t, StoreChunk(0, 0)) && u == Next(t, StoreChunk(0, 0))
    ensures 0 in u.nodes && u.nodes[0].table == s.nodes[0].table && Store(Own(0), Own(0), t.nextId) in u.net
  {
    t := Next(s, BeginStore(0, 0));
    assert t.nodes[0].stores[0] == [[Own(0)]];
    u := Next(t, StoreChunk(0, 0));
    assert React(t, StoreChunk(0, 0)).sent[0] == Store(Own(0), Own(0), t.nextId);
  }

  // The bootstrap is a real exception: it stores itself when it starts, and a `store` then writes to itself.
  lemma BootstrapMeetsItself(cfg: Config) returns (run: seq<Net>, steps: seq<Step>)
    ensures IsRun(run, steps) && 0 in run[|steps|].nodes
    ensures run[|steps|].nodes[0].table.Holds(0)
    ensures exists m :: m in run[|steps|].net && m.from.nodeId == m.to.nodeId == 0
  {
    var s0 := Net(cfg, map[0 := Node(EmptyTable(cfg, 0), map[], map[], map[])], {}, 0, {});
    BootstrapTable(cfg);
    steps := [Start(0), BeginStore(0, 0), StoreChunk(0, 0)];
    var s1 := Next(s0, steps[0]);
    var s2, s3 := StoringAlone(s1);
    run := [s0, s1, s2, s3];
  }
}
