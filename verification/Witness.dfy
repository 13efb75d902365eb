// Two nodes that meet: a run in which a query is answered, so that the theorems on answered queries say something.
module Witnesses {
  import opened Metric
  import opened Peers
  import opened Tables
  import Lookups
  import Answers
  import opened Searches
  import opened Protocol
  import NoSelf
  import Effects

  // One more step of a run.
  lemma Extended(run: seq<Net>, steps: seq<Step>, step: Step)
    requires IsRun(run, steps) && Enabled(run[|steps|], step)
    ensures IsRun(run + [Next(run[|steps|], step)], steps + [step])
  {
    var longer, more := run + [Next(run[|steps|], step)], steps + [step];
    forall i | 0 <= i < |more|
      ensures Enabled(longer[i], more[i]) && longer[i + 1] == Next(longer[i], more[i])
    {
      if i < |steps| {
        assert longer[i] == run[i] && longer[i + 1] == run[i + 1] && more[i] == steps[i];
      } else {
        assert longer[i] == run[|steps|];
      }
    }
  }

  lemma StartedTable(cfg: Config) returns (t: Table)
    ensures t == EmptyTable(cfg, 1).ContactedAll([Own(0)]) && t.Ok() && t.self == 1 && t.cfg == cfg
    ensures Lookups.FindNode(t, 1, cfg.alpha) == [Own(0)]
  {
    var e := EmptyTable(cfg, 1);
    t := e.ContactedAll([Own(0)]);
    Effects.PingsOfOne(e, Own(0));
    ContactedOk(e, Own(0));
    ContactedKeeps(e, Own(0));
    assert t.Bucket(t.Slot(0)) == [Own(0)];
    var r := Lookups.FindNode(t, 1, cfg.alpha);
    Answers.FindNodeContract(t, 1, cfg.alpha);
    Answers.OthersMembers(t, 1);
    assert Own(0) in Answers.Others(t, 1);
    OnlyPeer(r);
  }

  lemma OnlyPeer(r: seq<Peer>)
    requires r != [] && DistinctIds(r) && forall p | p in r :: p == Own(0)
    ensures r == [Own(0)]
  {
    IdsCount(r);
    assert Ids(r) == {0};
    assert r[0] in r;
  }

  function Idle(cfg: Config, x: nat): Node {
    Node(EmptyTable(cfg, x), map[], map[], map[])
  }

  function TwoNodes(cfg: Config): Net {
    Net(cfg, map[0 := Idle(cfg, 0), 1 := Idle(cfg, 1)], {}, 0, {})
  }

  lemma Started(cfg: Config) returns (run: seq<Net>, steps: seq<Step>)
    ensures IsRun(run, steps) && |steps| == 1 && run[1].cfg == cfg && run[1].nodes.Keys == {0, 1}
    ensures run[1].nodes[1].searches == map[] && run[1].nodes[1].waiting == map[]
    ensures Lookups.FindNode(run[1].nodes[1].table, 1, cfg.alpha) == [Own(0)]
  {
    var s := TwoNodes(cfg);
    var t := StartedTable(cfg);
    assert Init(s);
    run, steps := [s, Next(s, Start(1))], [Start(1)];
    assert run[1].nodes[1].table == t;
  }

  lemma Begun(cfg: Config) returns (run: seq<Net>, steps: seq<Step>, r: nat)
    ensures IsRun(run, steps) && |steps| == 2 && run[2].nodes.Keys == {0, 1}
    ensures r in run[2].nodes[1].waiting && FindNode(Own(1), Own(0), r) in run[2].net
  {
    run, steps := Started(cfg);
    Extended(run, steps, BeginSearch(1, 0));
    var before := run[1].nodes[1];
    run, steps := run + [Next(run[1], BeginSearch(1, 0))], steps + [BeginSearch(1, 0)];
    Effects.SearchBegins(run, steps, 1, 1, 0);
    r := FirstQuery(cfg, before, run[2].nodes[1], run[2].net);
  }

  lemma FirstQuery(cfg: Config, n: Node, after: Node, net: set<Msg>) returns (r: nat)
    requires Effects.RoundSent(cfg, 1, 0, SearchRun(State([], [Own(0)], []), Own(0), 0, false), n, after, net)
    ensures r in after.waiting && FindNode(Own(1), Own(0), r) in net
  {
    var search := SearchRun(State([], [Own(0)], []), Own(0), 0, false);
    assert Effects.ToAsk(cfg, search.st, search.round, 0);
    assert search.st.shortlist[0] == Own(0);
    r :| r !in n.waiting && Effects.IsAsked(1, 0, search, after, net, r, 0);
  }

  // Node 1 starts and looks for itself, the bootstrap hears of it and answers, and the answer arrives.
  lemma QueriesAreAnswered(cfg: Config) returns (run: seq<Net>, steps: seq<Step>)
    ensures IsRun(run, steps) && |steps| == 4 && (1, 0) in run[4].resolved
  {
    var r;
    run, steps, r := Begun(cfg);
    var query := FindNode(Own(1), Own(0), r);
    Extended(run, steps, Deliver(0, query));
    run, steps := run + [Next(run[2], Deliver(0, query))], steps + [Deliver(0, query)];
    Effects.DeliverySends(run, steps, 2, 0, query);
    var reply := Reply(Own(0), Own(1), r, Lookups.FindNode(run[3].nodes[0].table, 1, run[3].nodes[0].table.cfg.alpha));
    assert Effects.IsAnswer(0, run[3].nodes[0].table, query, reply);
    Extended(run, steps, Deliver(1, reply));
    run, steps := run + [Next(run[3], Deliver(1, reply))], steps + [Deliver(1, reply)];
    Effects.ReplyCompletes(run, steps, 3, 1, reply);
  }
}
