// Nobody answers what nobody asked.
module Causality {
  import opened Protocol
  import NoSelf
  import opened Turns

  // Every reply has its query, and every pong its ping or store, between the same two contacts and with the
  // same response id.
  ghost predicate Asked(net: set<Msg>) {
    && (forall m | m in net && m.Reply? :: FindNode(m.to, m.from, m.resId) in net)
    && (forall m | m in net && m.Pong? :: Ping(m.to, m.from, m.resId) in net || Store(m.to, m.from, m.resId) in net)
  }

  // Response ids in use are below `nextId`, and no two requests share one.
  ghost predicate IdsUnique(s: Net) {
    && (forall m | m in s.net :: m.resId < s.nextId && m.from.nodeId in s.nodes)
    && (forall f, g | f in s.net && g in s.net && IsRequest(f) && IsRequest(g) && f.resId == g.resId :: f == g)
  }

  // Every awaited answer is to a query that was sent.
  ghost predicate WaitingAsked(s: Net) {
    forall x, r | x in s.nodes && r in s.nodes[x].waiting :: FindNode(Own(x), s.nodes[x].waiting[r].query.node, r) in s.net
  }

  lemma SpontaneousTurn(s: Net, step: Step)
    requires NoSelf.Inv(s) && Enabled(s, step) && !step.Deliver?
    ensures Quiet(React(s, step))
  {
    var x, n := step.x, s.nodes[step.x];
    assert NoSelf.NodeOk(s.nodes.Keys, s.cfg, x, n);
    match step {
      case BeginSearch(_, sid) => BeginTurn(x, n, sid, s.nextId);
      case Proceed(_, sid) => ProceedTurn(x, n, sid, s.nextId);
      case Disconnect(_, _) =>
      case _ => LocalTurn(s, step);
    }
  }

  lemma NodeTableOk(s: Net, x: nat)
    requires NoSelf.Inv(s) && x in s.nodes
    ensures s.nodes[x].table.Ok()
  {
    assert NoSelf.NodeOk(s.nodes.Keys, s.cfg, x, s.nodes[x]);
  }

  // A message only ever arrives at the node it names.
  lemma DeliveredTurn(s: Net, step: Step)
    requires NoSelf.Inv(s) && Enabled(s, step) && step.Deliver?
    ensures step.m.to == Own(step.x) && Handled(step.x, s.nodes[step.x], step.m, React(s, step))
  {
    NodeTableOk(s, step.x);
    assert NoSelf.MsgOk(s.nodes.Keys, step.m);
    MessageHandled(step.x, s.nodes[step.x], step.m, s.nextId);
  }

  lemma NextKeepsAsked(s: Net, step: Step)
    requires NoSelf.Inv(s) && Asked(s.net) && Enabled(s, step)
    ensures Asked(Next(s, step).net)
  {
    var r := React(s, step);
    if step.Deliver? {
      DeliveredTurn(s, step);
      AnswersAsked(s.net, step.x, s.nodes[step.x], step.m, r);
    } else {
      SpontaneousTurn(s, step);
      QuietKeepsAsked(s.net, r);
    }
  }

  lemma AnswersAsked(net: set<Msg>, x: nat, n: Node, m: Msg, r: Reaction)
    requires Asked(net) && m in net && m.to == Own(x) && Handled(x, n, m, r)
    ensures Asked(net + (set q | q in r.sent))
  {
  }

  lemma QuietKeepsAsked(net: set<Msg>, r: Reaction)
    requires Asked(net) && Quiet(r)
    ensures Asked(net + (set q | q in r.sent))
  {
  }

  ghost predicate Inv(s: Net) {
    NoSelf.Inv(s) && Asked(s.net) && IdsUnique(s) && WaitingAsked(s)
  }

  lemma StepSends(s: Net, step: Step)
    requires Inv(s) && Enabled(s, step)
    ensures Sends(step.x, s.nodes[step.x], React(s, step), s.nextId)
  {
    var x, n := step.x, s.nodes[step.x];
    assert NoSelf.NodeOk(s.nodes.Keys, s.cfg, x, n);
    match step {
      case BeginSearch(_, sid) => BeginTurn(x, n, sid, s.nextId);
      case Proceed(_, sid) => ProceedTurn(x, n, sid, s.nextId);
      case Deliver(_, m) => MessageTurn(x, n, m, s.nextId);
      case Disconnect(_, _) =>
      case _ => LocalTurn(s, step);
    }
  }

  lemma IdsStayUnique(s: Net, step: Step)
    requires Inv(s) && Enabled(s, step)
    ensures IdsUnique(Next(s, step))
  {
    StepSends(s, step);
    NewIds(s.net, step.x, React(s, step), s.nextId);
  }

  lemma NewIds(net: set<Msg>, x: nat, r: Reaction, nextId: nat)
    requires SentIds(x, r, nextId) && forall m | m in net :: m.resId < nextId
    requires forall f, g | f in net && g in net && IsRequest(f) && IsRequest(g) && f.resId == g.resId :: f == g
    ensures var after := net + (set m | m in r.sent);
            && (forall m | m in after :: m.resId < nextId + r.used && (m in net || m.from == Own(x)))
            && (forall f, g | f in after && g in after && IsRequest(f) && IsRequest(g) && f.resId == g.resId :: f == g)
  {
    forall f | f in r.sent
      ensures f.resId < nextId + r.used && f.from == Own(x)
      ensures IsRequest(f) ==> nextId <= f.resId < nextId + |r.sent| && f == r.sent[f.resId - nextId]
    {
      var i :| 0 <= i < |r.sent| && r.sent[i] == f;
    }
  }

  lemma WaitingStaysAsked(s: Net, step: Step)
    requires Inv(s) && Enabled(s, step)
    ensures WaitingAsked(Next(s, step))
  {
    StepSends(s, step);
  }

  // In every state of every run no two queries, pings or stores share a response id.
  lemma RequestsDiffer(run: seq<Net>, steps: seq<Step>, i: nat, f: Msg, g: Msg)
    requires IsRun(run, steps) && i < |run| && f in run[i].net && g in run[i].net && IsRequest(f) && IsRequest(g) && f != g
    ensures f.resId != g.resId
  {
    ReachableInv(run, steps, i);
  }

  // The reply that resolves a query comes from the node the query was sent to.
  lemma ReplyIsFromTarget(s: Net, x: nat, m: Msg)
    requires Inv(s) && x in s.nodes && m in s.net && m.Reply? && m.to.port == x + 3000 && m.resId in s.nodes[x].waiting
    ensures m.from == s.nodes[x].waiting[m.resId].query.node && m.to == Own(x) && m.from.nodeId in s.nodes
  {
    var target := s.nodes[x].waiting[m.resId].query.node;
    assert NoSelf.MsgOk(s.nodes.Keys, m);
    assert FindNode(Own(x), target, m.resId) in s.net;
    assert FindNode(m.to, m.from, m.resId) in s.net;
  }

  lemma NextKeepsInv(s: Net, step: Step)
    requires Inv(s) && Enabled(s, step)
    ensures Inv(Next(s, step))
  {
    NoSelf.NextKeepsInv(s, step);
    NextKeepsAsked(s, step);
    IdsStayUnique(s, step);
    WaitingStaysAsked(s, step);
  }

  lemma {:induction false} ReachableInv(run: seq<Net>, steps: seq<Step>, i: nat)
    requires IsRun(run, steps) && i < |run|
    ensures Inv(run[i])
  {
    if i > 0 {
      ReachableInv(run, steps, i - 1);
      NextKeepsInv(run[i - 1], steps[i - 1]);
    } else {
      NoSelf.ReachableInv(run, steps, 0);
    }
  }

  // In every state of every run.
  lemma EveryAnswerWasAsked(run: seq<Net>, steps: seq<Step>, i: nat, m: Msg)
    requires IsRun(run, steps) && i < |run| && m in run[i].net
    ensures m.Reply? ==> FindNode(m.to, m.from, m.resId) in run[i].net
    ensures m.Pong? ==> Ping(m.to, m.from, m.resId) in run[i].net || Store(m.to, m.from, m.resId) in run[i].net
  {
    ReachableInv(run, steps, i);
  }
}
