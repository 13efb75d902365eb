// What the theorems on one table say of the tables in a network.
module NetworkTables {
  import opened Metric
  import opened Peers
  import opened Tables
  import History
  import Lookups
  import Answers
  import opened Protocol
  import NoSelf

  predicate AllInKeySpace(ids: set<nat>, bits: nat) {
    forall x | x in ids :: x < Pow2(bits)
  }

  // In every state of every run each node, the bootstrap included, has a table of the key space, and each but
  // the bootstrap one without its owner.
  lemma TablesInKeySpace(run: seq<Net>, steps: seq<Step>, i: nat, x: nat)
    requires IsRun(run, steps) && i < |run| && x in run[i].nodes && AllInKeySpace(run[i].nodes.Keys, run[i].cfg.bits)
    ensures var t := run[i].nodes[x].table;
            t.Ok() && t.self == x && t.cfg == run[i].cfg && InKeySpace(t) && (x != 0 ==> !t.Holds(x))
  {
    NoSelf.ReachableInv(run, steps, i);
    var ids, t := run[i].nodes.Keys, run[i].nodes[x].table;
    assert NoSelf.NodeOk(ids, run[i].cfg, x, run[i].nodes[x]);
    forall p | t.Stores(p)
      ensures p.nodeId < Pow2(t.cfg.bits)
    {
      assert NoSelf.Real(ids, p);
    }
    NoSelf.NobodyMeetsItself(run, steps, i);
  }

  // No node ever stores more than the capacity of its buckets, twelve peers with the shipped constants.
  lemma NetworkCapacity(run: seq<Net>, steps: seq<Step>, i: nat, x: nat)
    requires IsRun(run, steps) && i < |run| && x in run[i].nodes && AllInKeySpace(run[i].nodes.Keys, run[i].cfg.bits)
    ensures |run[i].nodes[x].table.AllPeers()| <= History.TotalCapacity(run[i].cfg, run[i].cfg.bits)
    ensures run[i].cfg == SHIPPED ==> |run[i].nodes[x].table.AllPeers()| <= 12
  {
    TablesInKeySpace(run, steps, i, x);
    History.TableCapacity(run[i].nodes[x].table);
    History.ShippedTotal();
  }

  // A delivered query is answered at once, from the table that has just learnt of the asker.
  lemma FindNodeAnswered(run: seq<Net>, steps: seq<Step>, i: nat, x: nat, m: Msg)
    requires IsRun(run, steps) && i < |steps| && steps[i] == Deliver(x, m) && m.FindNode?
    requires AllInKeySpace(run[i].nodes.Keys, run[i].cfg.bits)
    ensures var t := run[i + 1].nodes[x].table;
            && t.Ok() && InKeySpace(t) && t.cfg == run[i].cfg && m.from.nodeId < Pow2(t.cfg.bits)
            && Reply(Own(x), m.from, m.resId, Lookups.FindNode(t, m.from.nodeId, run[i].cfg.alpha)) in run[i + 1].net
  {
    AskerInKeySpace(run, steps, i, x, m);
    assert run[i + 1].nodes.Keys == run[i].nodes.Keys;
    TablesInKeySpace(run, steps, i, x);
    TablesInKeySpace(run, steps, i + 1, x);
    ReplySent(x, run[i].nodes[x], m, run[i].nextId);
  }

  lemma AskerInKeySpace(run: seq<Net>, steps: seq<Step>, i: nat, x: nat, m: Msg)
    requires IsRun(run, steps) && i < |steps| && steps[i] == Deliver(x, m)
    requires AllInKeySpace(run[i].nodes.Keys, run[i].cfg.bits)
    ensures m.from.nodeId < Pow2(run[i].cfg.bits)
  {
    NoSelf.ReachableInv(run, steps, i);
    assert NoSelf.MsgOk(run[i].nodes.Keys, m);
  }

  lemma ReplySent(x: nat, n: Node, m: Msg, nextId: nat)
    requires m.FindNode?
    ensures var r := HandleMessage(x, n, m, nextId);
            Reply(Own(x), m.from, m.resId, Lookups.FindNode(r.node.table, m.from.nodeId, n.table.cfg.alpha)) in r.sent
  {
    var r := HandleMessage(x, n, m, nextId);
    assert r.sent[|r.sent| - 1].Reply?;
  }

  // The answer ends with the stored peers of the key's own class, and if there are any, with the nearest peer
  // of the table other than the key.
  ghost predicate NamesMates(t: Table, key: nat, answer: seq<Peer>) {
    var mates := Answers.Mates(t, key);
    && Answers.EndsWith(answer, mates)
    && (mates != [] ==> answer != [] && Lookups.IsClosest(Answers.Others(t, key), key, answer[|answer| - 1]))
  }

  // Whoever asks for itself is told last of the peers of its own class that the asked node knows.
  lemma ReplyEndsWithMates(run: seq<Net>, steps: seq<Step>, i: nat, x: nat, m: Msg)
    requires IsRun(run, steps) && i < |steps| && steps[i] == Deliver(x, m) && m.FindNode?
    requires AllInKeySpace(run[i].nodes.Keys, run[i].cfg.bits)
    ensures var t, key := run[i + 1].nodes[x].table, m.from.nodeId;
            var answer := Lookups.FindNode(t, key, run[i].cfg.alpha);
            && Reply(Own(x), m.from, m.resId, answer) in run[i + 1].net
            && NamesMates(t, key, answer)
  {
    var t, key := run[i + 1].nodes[x].table, m.from.nodeId;
    FindNodeAnswered(run, steps, i, x, m);
    MatesNearest(t, key, run[i].cfg.alpha);
  }

  lemma MatesNearest(t: Table, key: nat, count: nat)
    requires t.Ok() && InKeySpace(t) && key < Pow2(t.cfg.bits)
    ensures NamesMates(t, key, Lookups.FindNode(t, key, count))
  {
    Answers.FindNodeEndsWithMates(t, key, count);
    if Answers.Mates(t, key) != [] {
      Answers.FindNodeLastIsClosest(t, key, count);
    }
  }

  // A search starts from the farthest peer that its node knows.
  lemma SearchStartsFarthest(run: seq<Net>, steps: seq<Step>, i: nat, x: nat, sid: nat, q: Peer)
    requires IsRun(run, steps) && i < |steps| && steps[i] == BeginSearch(x, sid)
    requires AllInKeySpace(run[i].nodes.Keys, run[i].cfg.bits)
    requires run[i].nodes[x].table.Stores(q) && q.nodeId != x
    ensures sid in run[i + 1].nodes[x].searches
    ensures Lookups.Distance(q, x) <= Lookups.Distance(run[i + 1].nodes[x].searches[sid].candidate, x)
  {
    var t := run[i].nodes[x].table;
    TablesInKeySpace(run, steps, i, x);
    Answers.OwnLookup(t, run[i].cfg.alpha, q);
  }
}
