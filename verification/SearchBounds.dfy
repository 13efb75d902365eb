// Searches stay within their bounds on the real network too, where replies are lost, repeated and late.
module SearchBounds {
  import opened Peers
  import opened Tables
  import History
  import Lookups
  import opened Searches
  import opened Protocol
  import NoSelf

  // Response ids that a search still waits for.
  function WaitingOf(n: Node, sid: nat): set<nat> {
    set r | r in n.waiting && n.waiting[r].search == sid
  }

  // Each finished round has added a contact, and so has the current one if a closer peer turned up in it.
  ghost predicate RunBounded(cfg: Config, run: SearchRun, n: Node, sid: nat) {
    && run.round < cfg.bits
    && DistinctIds(run.st.contacts)
    && run.round + (if run.updated then 1 else 0) <= |run.st.contacts|
    && |run.st.contacts| + |WaitingOf(n, sid)| < cfg.bits + cfg.alpha
    && forall r | r in WaitingOf(n, sid) ::
         n.waiting[r].query.node.nodeId !in Ids(run.st.contacts) || run.round < |run.st.contacts|
  }

  ghost predicate NodeBounded(cfg: Config, n: Node) {
    n.table.cfg == cfg && forall sid | sid in n.searches :: RunBounded(cfg, n.searches[sid], n, sid)
  }

  lemma FewerWaiting(cfg: Config, run: SearchRun, n: Node, after: Node, sid: nat)
    requires RunBounded(cfg, run, n, sid)
    requires forall r | r in WaitingOf(after, sid) :: r in n.waiting && after.waiting[r] == n.waiting[r]
    ensures RunBounded(cfg, run, after, sid)
  {
    SubsetSize(WaitingOf(after, sid), WaitingOf(n, sid));
  }

  // Nobody contacted yet is asked, and at most ALPHA are.
  lemma NextQueriesNew(cfg: Config, run: SearchRun)
    ensures |NextQueries(cfg, run)| <= cfg.alpha
    ensures forall i | 0 <= i < |NextQueries(cfg, run)| :: NextQueries(cfg, run)[i].node.nodeId !in Ids(run.st.contacts)
  {
    var qs := NextQueries(cfg, run);
    var window := Window(cfg, run.st, run.round);
    WindowMembers(cfg, run.st, run.round);
    assert forall i | 0 <= i < |qs| :: qs[i].node == run.st.shortlist[window[i]];
  }

  // The search waits for these queries, under consecutive response ids, and for nothing else.
  ghost predicate WaitsFor(n: Node, sid: nat, qs: seq<Query>, first: nat) {
    && (forall r | r in WaitingOf(n, sid) :: first <= r < first + |qs|)
    && forall i | 0 <= i < |qs| :: WaitsUnder(n, sid, qs[i], first + i)
  }

  predicate WaitsUnder(n: Node, sid: nat, q: Query, r: nat) {
    r in WaitingOf(n, sid) && n.waiting[r].query == q
  }

  lemma WaitsAt(n: Node, sid: nat, qs: seq<Query>, first: nat, r: nat)
    requires WaitsFor(n, sid, qs, first) && first <= r < first + |qs|
    ensures r in WaitingOf(n, sid) && n.waiting[r].query == qs[r - first]
  {
    var i := r - first;
    assert WaitsUnder(n, sid, qs[i], first + i);
  }

  lemma NewRunBounded(cfg: Config, run: SearchRun, n: Node, sid: nat, qs: seq<Query>, first: nat)
    requires run.round < cfg.bits && !run.updated && DistinctIds(run.st.contacts) && run.round <= |run.st.contacts| < cfg.bits
    requires |qs| <= cfg.alpha && forall i | 0 <= i < |qs| :: qs[i].node.nodeId !in Ids(run.st.contacts)
    requires WaitsFor(n, sid, qs, first)
    ensures RunBounded(cfg, run, n, sid)
  {
    History.NumbersInRange(WaitingOf(n, sid), first, first + |qs|);
    forall r | r in WaitingOf(n, sid)
      ensures n.waiting[r].query.node.nodeId !in Ids(run.st.contacts)
    {
      WaitsAt(n, sid, qs, first, r);
    }
  }

  lemma WaitingForRound(n: Node, after: Node, sid: nat, qs: seq<Query>, nextId: nat)
    requires WaitingOf(n, sid) == {} && after.waiting == n.waiting + Awaited(sid, qs, nextId)
    ensures WaitsFor(after, sid, qs, nextId)
  {
    forall r | r in WaitingOf(after, sid)
      ensures nextId <= r < nextId + |qs|
    {
      assert r !in WaitingOf(n, sid);
    }
  }

  lemma AskedRunBounded(cfg: Config, n: Node, after: Node, sid: nat, run: SearchRun, nextId: nat)
    requires WaitingOf(n, sid) == {} && after.waiting == n.waiting + Awaited(sid, NextQueries(cfg, run), nextId)
    requires run.round < cfg.bits && !run.updated && DistinctIds(run.st.contacts) && run.round <= |run.st.contacts| < cfg.bits
    ensures RunBounded(cfg, WithSent(run, NextQueries(cfg, run)), after, sid)
  {
    var qs := NextQueries(cfg, run);
    NextQueriesNew(cfg, run);
    WaitingForRound(n, after, sid, qs, nextId);
    NewRunBounded(cfg, WithSent(run, qs), after, sid, qs, nextId);
  }

  lemma OtherRunBounded(cfg: Config, run: SearchRun, n: Node, after: Node, sid: nat, asking: nat, qs: seq<Query>, nextId: nat)
    requires RunBounded(cfg, run, n, sid) && sid != asking && after.waiting == n.waiting + Awaited(asking, qs, nextId)
    ensures RunBounded(cfg, run, after, sid)
  {
    assert forall r | r in WaitingOf(after, sid) :: r !in Awaited(asking, qs, nextId);
    FewerWaiting(cfg, run, n, after, sid);
  }

  lemma AskBounded(cfg: Config, x: nat, n: Node, sid: nat, run: SearchRun, nextId: nat)
    requires NodeBounded(cfg, n) && WaitingOf(n, sid) == {}
    requires run.round < cfg.bits && !run.updated && DistinctIds(run.st.contacts) && run.round <= |run.st.contacts| < cfg.bits
    ensures NodeBounded(cfg, Ask(x, n, sid, run, nextId).node)
  {
    var after := Ask(x, n, sid, run, nextId).node;
    forall other | other in after.searches
      ensures RunBounded(cfg, after.searches[other], after, other)
    {
      if other == sid {
        AskedRunBounded(cfg, n, after, sid, run, nextId);
      } else {
        OtherRunBounded(cfg, n.searches[other], n, after, other, sid, NextQueries(cfg, run), nextId);
      }
    }
  }

  lemma ReplyBounded(cfg: Config, x: nat, n: Node, m: Msg)
    requires NodeBounded(cfg, n) && m.Reply?
    ensures NodeBounded(cfg, OnReply(x, n, m).node)
  {
    var after := OnReply(x, n, m).node;
    if m.resId in n.waiting && n.waiting[m.resId].search in n.searches {
      var sid, target := n.waiting[m.resId].search, n.waiting[m.resId].query.node;
      forall other | other in after.searches
        ensures RunBounded(cfg, after.searches[other], after, other)
      {
        if other == sid {
          AnswerBounded(cfg, n, after, sid, m.resId, after.searches[sid], m.nodes);
        } else {
          FewerWaiting(cfg, n.searches[other], n, after, other);
        }
      }
    }
  }

  // The answered query leaves the waiting ones, and its target is a contact now.
  lemma AnswerBounded(cfg: Config, n: Node, after: Node, sid: nat, resId: nat, run: SearchRun, nodes: seq<Peer>)
    requires sid in n.searches && RunBounded(cfg, n.searches[sid], n, sid) && resId in WaitingOf(n, sid)
    requires after.waiting == n.waiting - {resId}
    requires run.round == n.searches[sid].round
    requires run.st == Completed(n.searches[sid].st, n.waiting[resId].query.node, Answer(nodes))
    ensures RunBounded(cfg, run, after, sid)
  {
    var before, target := n.searches[sid].st.contacts, n.waiting[resId].query.node;
    SetContactIds(before, target);
    IdsCount(before);
    IdsCount(run.st.contacts);
    assert WaitingOf(after, sid) == WaitingOf(n, sid) - {resId};
    if target.nodeId in Ids(before) {
      assert Ids(before) + {target.nodeId} == Ids(before);
    }
  }

  lemma BeginBounded(cfg: Config, x: nat, n: Node, sid: nat, nextId: nat)
    requires NodeBounded(cfg, n) && WaitingOf(n, sid) == {}
    ensures NodeBounded(cfg, OnBeginSearch(x, n, sid, nextId).node)
  {
    var shortlist := Lookups.FindNode(n.table, x, cfg.alpha);
    if shortlist != [] {
      AskBounded(cfg, x, n, sid, SearchRun(State([], shortlist, []), shortlist[0], 0, false), nextId);
    }
  }

  lemma ProceedBounded(cfg: Config, x: nat, n: Node, sid: nat, nextId: nat)
    requires NodeBounded(cfg, n) && WaitingOf(n, sid) == {} && sid in n.searches
    ensures NodeBounded(cfg, OnProceed(x, n, sid, nextId).node)
  {
    var run := n.searches[sid];
    assert RunBounded(cfg, run, n, sid);
    if GoesOn(cfg, run) {
      AskBounded(cfg, x, n, sid, FollowingRound(run), nextId);
    } else {
      DropBounded(cfg, n, sid, n.table.ContactedAll(run.st.contacts));
    }
  }

  lemma DropBounded(cfg: Config, n: Node, sid: nat, t: Table)
    requires NodeBounded(cfg, n) && t.cfg == cfg
    ensures NodeBounded(cfg, n.(searches := n.searches - {sid}, table := t))
  {
    var after := n.(searches := n.searches - {sid}, table := t);
    forall other | other in after.searches
      ensures RunBounded(cfg, after.searches[other], after, other)
    {
      FewerWaiting(cfg, n.searches[other], n, after, other);
    }
  }

  // Turns that leave searches alone, except that queries may be given up.
  lemma OtherTurnBounded(cfg: Config, n: Node, after: Node)
    requires NodeBounded(cfg, n) && after.table.cfg == cfg && after.searches == n.searches
    requires forall r | r in after.waiting :: r in n.waiting && after.waiting[r] == n.waiting[r]
    ensures NodeBounded(cfg, after)
  {
    forall sid | sid in after.searches
      ensures RunBounded(cfg, after.searches[sid], after, sid)
    {
      FewerWaiting(cfg, n.searches[sid], n, after, sid);
    }
  }

  ghost predicate Inv(s: Net) {
    forall x | x in s.nodes :: NodeBounded(s.cfg, s.nodes[x])
  }

  lemma ReactBounded(s: Net, step: Step)
    requires Inv(s) && Enabled(s, step)
    ensures NodeBounded(s.cfg, React(s, step).node)
  {
    var n := s.nodes[step.x];
    assert NodeBounded(s.cfg, n);
    match step {
      case BeginSearch(x, sid) => BeginBounded(s.cfg, x, n, sid, s.nextId);
      case Proceed(x, sid) => ProceedBounded(s.cfg, x, n, sid, s.nextId);
      case Deliver(x, m) =>
        var learned := Learn(x, n, [m.from], s.nextId).node;
        OtherTurnBounded(s.cfg, n, learned);
        if m.Reply? {
          ReplyBounded(s.cfg, x, learned, m);
        }
      case _ => OtherTurnBounded(s.cfg, n, React(s, step).node);
    }
  }

  lemma {:induction false} ReachableInv(run: seq<Net>, steps: seq<Step>, i: nat)
    requires IsRun(run, steps) && i < |run|
    ensures Inv(run[i])
  {
    if i > 0 {
      ReachableInv(run, steps, i - 1);
      ReactBounded(run[i - 1], steps[i - 1]);
    } else {
      NoSelf.ReachableInv(run, steps, 0);
      forall x | x in run[0].nodes
        ensures NodeBounded(run[0].cfg, run[0].nodes[x])
      {
        assert NoSelf.NodeOk(run[0].nodes.Keys, run[0].cfg, x, run[0].nodes[x]);
      }
    }
  }

  // In every state of every run: a search is in one of its first BIT_SIZE rounds, and its contacts and
  // pending queries together stay below BIT_SIZE + ALPHA.
  lemma NetworkSearchBounds(run: seq<Net>, steps: seq<Step>, i: nat, x: nat, sid: nat)
    requires IsRun(run, steps) && i < |run| && x in run[i].nodes && sid in run[i].nodes[x].searches
    ensures var s, search := run[i], run[i].nodes[x].searches[sid];
            && search.round < s.cfg.bits
            && DistinctIds(search.st.contacts)
            && |search.st.contacts| + |WaitingOf(s.nodes[x], sid)| < s.cfg.bits + s.cfg.alpha
  {
    ReachableInv(run, steps, i);
    assert NodeBounded(run[i].cfg, run[i].nodes[x]);
  }
}
