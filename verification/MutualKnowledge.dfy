// A FIND_NODE that is answered leaves both ends knowing each other, for good.
module MutualKnowledge {
  import opened Protocol
  import NoSelf
  import opened Turns
  import Causality

  // Whoever answered a query knows the asker.
  ghost predicate RepliesInformed(s: Net) {
    forall m | m in s.net && m.Reply? :: m.from.nodeId in s.nodes && s.nodes[m.from.nodeId].table.Knows(m.to.nodeId)
  }

  ghost predicate ResolvedKnow(s: Net) {
    forall x, y | (x, y) in s.resolved ::
      x in s.nodes && y in s.nodes && s.nodes[x].table.Knows(y) && s.nodes[y].table.Knows(x)
  }

  ghost predicate Inv(s: Net) {
    Causality.Inv(s) && RepliesInformed(s) && ResolvedKnow(s)
  }

  lemma ReactTurn(s: Net, step: Step)
    requires Causality.Inv(s) && Enabled(s, step) && !step.Disconnect?
    ensures Turn(step.x, s.nodes[step.x], React(s, step), s.nextId)
    ensures !step.Deliver? ==> Quiet(React(s, step))
  {
    var x, n := step.x, s.nodes[step.x];
    assert NoSelf.NodeOk(s.nodes.Keys, s.cfg, x, n);
    match step {
      case BeginSearch(_, sid) => BeginTurn(x, n, sid, s.nextId);
      case Proceed(_, sid) => ProceedTurn(x, n, sid, s.nextId);
      case Deliver(_, m) => MessageTurn(x, n, m, s.nextId);
      case _ => LocalTurn(s, step);
    }
  }

  // ----- each invariant, step by step -----

  lemma TablesGrow(s: Net, step: Step, x: nat, id: nat)
    requires Inv(s) && Enabled(s, step) && !step.Disconnect? && x in s.nodes && s.nodes[x].table.Knows(id)
    ensures Next(s, step).nodes[x].table.Knows(id)
  {
    ReactTurn(s, step);
  }

  lemma RepliesStayInformed(s: Net, step: Step)
    requires Inv(s) && Enabled(s, step) && !step.Disconnect?
    ensures RepliesInformed(Next(s, step))
  {
    ReactTurn(s, step);
    var r, t := React(s, step), Next(s, step);
    if step.Deliver? {
      Causality.DeliveredTurn(s, step);
    }
    forall m | m in t.net && m.Reply?
      ensures m.from.nodeId in t.nodes && t.nodes[m.from.nodeId].table.Knows(m.to.nodeId)
    {
      if m in s.net {
        TablesGrow(s, step, m.from.nodeId, m.to.nodeId);
      }
    }
  }

  lemma ResolvedStayKnown(s: Net, step: Step)
    requires Inv(s) && Enabled(s, step) && !step.Disconnect?
    ensures ResolvedKnow(Next(s, step))
  {
    ReactTurn(s, step);
    var r, t := React(s, step), Next(s, step);
    if step.Deliver? {
      Causality.DeliveredTurn(s, step);
    }
    forall x, y | (x, y) in t.resolved
      ensures x in t.nodes && y in t.nodes && t.nodes[x].table.Knows(y) && t.nodes[y].table.Knows(x)
    {
      if (x, y) in s.resolved {
        TablesGrow(s, step, x, y);
        TablesGrow(s, step, y, x);
      } else {
        assert x == step.x && y in r.answeredBy;
        Causality.ReplyIsFromTarget(s, x, step.m);
        TablesGrow(s, step, y, x);
      }
    }
  }

  // ----- every run without disconnects -----

  ghost predicate NoDisconnect(steps: seq<Step>) {
    forall i | 0 <= i < |steps| :: !steps[i].Disconnect?
  }

  lemma NextKeepsInv(s: Net, step: Step)
    requires Inv(s) && Enabled(s, step) && !step.Disconnect?
    ensures Inv(Next(s, step))
  {
    Causality.NextKeepsInv(s, step);
    RepliesStayInformed(s, step);
    ResolvedStayKnown(s, step);
  }

  lemma InitInv(s: Net)
    requires Init(s) && Causality.Inv(s)
    ensures Inv(s)
  {
  }

  lemma {:induction false} ReachableInv(run: seq<Net>, steps: seq<Step>, i: nat)
    requires IsRun(run, steps) && NoDisconnect(steps) && i < |run|
    ensures Inv(run[i])
  {
    if i > 0 {
      ReachableInv(run, steps, i - 1);
      NextKeepsInv(run[i - 1], steps[i - 1]);
    } else {
      Causality.ReachableInv(run, steps, 0);
      InitInv(run[0]);
    }
  }

  lemma {:induction false} ResolvedForGood(run: seq<Net>, steps: seq<Step>, i: nat, j: nat)
    requires IsRun(run, steps) && i <= j < |run|
    ensures run[i].resolved <= run[j].resolved
  {
    if i < j {
      ResolvedForGood(run, steps, i, j - 1);
    }
  }

  // From the state in which x's query to y is answered, and in every later one, x has y in its table or no
  // room left in y's bucket, and y likewise has x: under loss, repetition and reordering of messages.
  lemma AnsweredNodesKnowEachOther(run: seq<Net>, steps: seq<Step>, i: nat, j: nat, x: nat, y: nat)
    requires IsRun(run, steps) && NoDisconnect(steps) && i <= j < |run| && (x, y) in run[i].resolved
    ensures x in run[j].nodes && y in run[j].nodes
    ensures run[j].nodes[x].table.Knows(y) && run[j].nodes[y].table.Knows(x)
  {
    ResolvedForGood(run, steps, i, j);
    ReachableInv(run, steps, j);
  }
}
