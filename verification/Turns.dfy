// What a single turn of a single node can send, wait for and learn.
module Turns {
  import opened Peers
  import opened Tables
  import Lookups
  import opened Searches
  import opened Protocol

  predicate IsRequest(m: Msg) {
    m.FindNode? || m.Ping? || m.Store?
  }

  // Requests take consecutive new ids; responses reuse the id of the message they answer.
  predicate SentIds(x: nat, r: Reaction, nextId: nat) {
    forall i | 0 <= i < |r.sent| ::
      && r.sent[i].from == Own(x)
      && r.sent[i].resId < nextId + r.used
      && (IsRequest(r.sent[i]) ==> r.sent[i].resId == nextId + i)
  }

  // New entries of `waiting` belong to queries just sent.
  predicate WaitingFrom(x: nat, before: Node, r: Reaction) {
    forall w | w in r.node.waiting ::
      (w in before.waiting && r.node.waiting[w] == before.waiting[w]) || FindNode(Own(x), r.node.waiting[w].query.node, w) in r.sent
  }

  ghost predicate Grows(before: Table, after: Table) {
    forall id :: before.Knows(id) ==> after.Knows(id)
  }

  lemma LearnFacts(x: nat, n: Node, ps: seq<Peer>, nextId: nat)
    requires n.table.Ok()
    ensures var r := Learn(x, n, ps, nextId);
            && SentIds(x, r, nextId) && r.node.waiting == n.waiting && Grows(n.table, r.node.table)
            && (forall m | m in r.sent :: m.Ping?) && (forall p | p in ps :: r.node.table.Knows(p.nodeId))
  {
    var r := Learn(x, n, ps, nextId);
    var targets := n.table.PingsOf(ps);
    assert forall i | 0 <= i < |r.sent| :: r.sent[i] == Ping(Own(x), targets[i], nextId + i);
    forall id | n.table.Knows(id)
      ensures r.node.table.Knows(id)
    {
      ContactedAllKnows(n.table, ps, id);
    }
    forall p | p in ps
      ensures r.node.table.Knows(p.nodeId)
    {
      ContactedAllKnows(n.table, ps, p.nodeId);
    }
  }

  lemma AskFacts(x: nat, n: Node, sid: nat, run: SearchRun, nextId: nat)
    ensures var r := Ask(x, n, sid, run, nextId);
            && SentIds(x, r, nextId) && WaitingFrom(x, n, r) && r.node.table == n.table
            && (forall m | m in r.sent :: m.FindNode?)
  {
    var r := Ask(x, n, sid, run, nextId);
    var qs := NextQueries(n.table.cfg, run);
    assert forall i | 0 <= i < |r.sent| :: r.sent[i] == FindNode(Own(x), qs[i].node, nextId + i);
    forall w | w in Awaited(sid, qs, nextId)
      ensures FindNode(Own(x), qs[w - nextId].node, w) in r.sent
    {
      assert r.sent[w - nextId] == FindNode(Own(x), qs[w - nextId].node, w);
    }
  }

  lemma StoreFacts(x: nat, targets: seq<Peer>, nextId: nat)
    ensures forall i | 0 <= i < |Stores(x, targets, nextId)| :: Stores(x, targets, nextId)[i] == Store(Own(x), targets[i], nextId + i)
  {
  }

  // What every turn sends and waits for.
  predicate Sends(x: nat, n: Node, r: Reaction, nextId: nat) {
    SentIds(x, r, nextId) && WaitingFrom(x, n, r)
  }

  // What every turn does short of a disconnect.
  ghost predicate Turn(x: nat, n: Node, r: Reaction, nextId: nat) {
    Sends(x, n, r, nextId) && Grows(n.table, r.node.table)
  }

  // Only a delivered message makes a node answer, and only a delivered reply resolves a query.
  predicate Quiet(r: Reaction) {
    r.answeredBy == {} && forall m | m in r.sent :: !m.Reply? && !m.Pong?
  }

  lemma AskTurn(x: nat, n: Node, sid: nat, run: SearchRun, nextId: nat)
    ensures Turn(x, n, Ask(x, n, sid, run, nextId), nextId) && Quiet(Ask(x, n, sid, run, nextId))
  {
    AskFacts(x, n, sid, run, nextId);
  }

  lemma ConcludeTurn(x: nat, n: Node, sid: nat, contacts: seq<Peer>, nextId: nat)
    requires n.table.Ok()
    ensures Turn(x, n, Conclude(x, n, sid, contacts, nextId), nextId) && Quiet(Conclude(x, n, sid, contacts, nextId))
  {
    LearnFacts(x, n.(searches := n.searches - {sid}), contacts, nextId);
  }

  lemma BeginTurn(x: nat, n: Node, sid: nat, nextId: nat)
    ensures Turn(x, n, OnBeginSearch(x, n, sid, nextId), nextId) && Quiet(OnBeginSearch(x, n, sid, nextId))
  {
    var shortlist := Lookups.FindNode(n.table, x, n.table.cfg.alpha);
    if shortlist != [] {
      AskTurn(x, n, sid, SearchRun(State([], shortlist, []), shortlist[0], 0, false), nextId);
    }
  }

  lemma ProceedTurn(x: nat, n: Node, sid: nat, nextId: nat)
    requires n.table.Ok() && sid in n.searches
    ensures Turn(x, n, OnProceed(x, n, sid, nextId), nextId) && Quiet(OnProceed(x, n, sid, nextId))
  {
    var run := n.searches[sid];
    if GoesOn(n.table.cfg, run) {
      AskTurn(x, n, sid, FollowingRound(run), nextId);
    } else {
      ConcludeTurn(x, n, sid, run.st.contacts, nextId);
    }
  }

  lemma LocalTurn(s: Net, step: Step)
    requires Enabled(s, step) && s.nodes[step.x].table.Ok() && s.nodes[step.x].table.cfg == s.cfg
    requires step.Start? || step.Timeout? || step.BeginStore? || step.StoreChunk?
    ensures Turn(step.x, s.nodes[step.x], React(s, step), s.nextId) && Quiet(React(s, step))
  {
    var n := s.nodes[step.x];
    match step {
      case Start(x) => LearnFacts(x, n, [Own(0)], s.nextId);
      case StoreChunk(x, job) => StoreFacts(x, n.stores[job][0], s.nextId);
      case _ =>
    }
  }

  // The sender of a message is known afterwards; a query is answered by a reply, a ping or store by a pong,
  // each with its own response id; and only an awaited reply resolves a query.
  ghost predicate Handled(x: nat, n: Node, m: Msg, r: Reaction) {
    && r.node.table.Knows(m.from.nodeId)
    && (forall q | q in r.sent && (q.Reply? || q.Pong?) ::
          (if q.Reply? then m.FindNode? else m.Ping? || m.Store?) && q.to == m.from && q.resId == m.resId && q.from == Own(x))
    && (forall y | y in r.answeredBy :: m.Reply? && m.resId in n.waiting && y == n.waiting[m.resId].query.node.nodeId)
  }

  // What answering a message does once the table has learnt of its sender.
  lemma Responds(x: nat, n: Node, m: Msg)
    ensures var r := Respond(x, n, m);
            && r.node.table == n.table && |r.sent| <= 1
            && (forall w | w in r.node.waiting :: w in n.waiting && r.node.waiting[w] == n.waiting[w])
            && (forall q | q in r.sent :: !IsRequest(q) && q.from == Own(x) && q.resId == m.resId && q.to == m.from)
            && (forall q | q in r.sent && (q.Reply? || q.Pong?) :: if q.Reply? then m.FindNode? else m.Ping? || m.Store?)
            && (forall y | y in r.answeredBy :: m.Reply? && m.resId in n.waiting && y == n.waiting[m.resId].query.node.nodeId)
  {
  }

  lemma MessageHandled(x: nat, n: Node, m: Msg, nextId: nat)
    requires n.table.Ok()
    ensures Handled(x, n, m, HandleMessage(x, n, m, nextId))
  {
    LearnFacts(x, n, [m.from], nextId);
    Responds(x, Learn(x, n, [m.from], nextId).node, m);
  }

  lemma MessageTurn(x: nat, n: Node, m: Msg, nextId: nat)
    requires n.table.Ok() && m.resId < nextId
    ensures Turn(x, n, HandleMessage(x, n, m, nextId), nextId)
  {
    LearnFacts(x, n, [m.from], nextId);
    Responds(x, Learn(x, n, [m.from], nextId).node, m);
  }
}
