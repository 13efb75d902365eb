// What each kind of turn does to the network: every message it sends, and everything it changes.
module Effects {
  import opened Metric
  import opened Peers
  import opened KBuckets
  import opened Tables
  import Lookups
  import Answers
  import opened Searches
  import opened Chunks
  import opened Protocol
  import NoSelf
  import Causality
  import TableOrders

  // Nothing but one node changes, and nothing is forgotten.
  predicate OnlyNode(s: Net, t: Net, x: nat)
    requires x in s.nodes
  {
    && t.cfg == s.cfg && t.nodes.Keys == s.nodes.Keys && (forall y | y in s.nodes && y != x :: t.nodes[y] == s.nodes[y])
    && s.net <= t.net && s.resolved <= t.resolved
  }

  // ----- what a node knows at any time -----

  // Every awaited query belongs to a search under way, and has an old response id.
  ghost predicate Owned(s: Net) {
    forall x, r | x in s.nodes && r in s.nodes[x].waiting ::
      s.nodes[x].waiting[r].search in s.nodes[x].searches && r < s.nextId
  }

  lemma OwnedKept(s: Net, step: Step)
    requires Owned(s) && Enabled(s, step)
    ensures Owned(Next(s, step))
  {
    var n, r := s.nodes[step.x], React(s, step);
    forall w | w in r.node.waiting
      ensures r.node.waiting[w].search in r.node.searches && w < s.nextId + r.used
    {
      OwnedTurn(s, step, w);
    }
  }

  lemma OwnedTurn(s: Net, step: Step, w: nat)
    requires Owned(s) && Enabled(s, step) && w in React(s, step).node.waiting
    ensures var r := React(s, step); r.node.waiting[w].search in r.node.searches && w < s.nextId + r.used
  {
    var n := s.nodes[step.x];
    match step {
      case BeginSearch(x, sid) =>
      case Proceed(x, sid) =>
      case Deliver(x, m) =>
      case _ =>
    }
  }

  lemma {:induction false} ReachableOwned(run: seq<Net>, steps: seq<Step>, i: nat)
    requires IsRun(run, steps) && i < |run|
    ensures Owned(run[i])
  {
    if i > 0 {
      ReachableOwned(run, steps, i - 1);
      OwnedKept(run[i - 1], steps[i - 1]);
    }
  }

  // What can happen next: any node may start, lose a connection, or begin a search or store under a new number;
  // any message may arrive where it is addressed; any awaited query may time out; a search goes on as soon as
  // none of its queries is awaited; and a store as long as it has chunks left.
  lemma CanHappen(s: Net, x: nat)
    requires x in s.nodes
    ensures Enabled(s, Start(x)) && forall id :: Enabled(s, Step.Disconnect(x, id))
    ensures forall m | m in s.net && m.to.port == x + 3000 :: Enabled(s, Deliver(x, m))
    ensures forall r | r in s.nodes[x].waiting :: Enabled(s, Timeout(x, r))
    ensures forall sid | sid in s.nodes[x].searches && (forall r | r in s.nodes[x].waiting :: s.nodes[x].waiting[r].search != sid) ::
              Enabled(s, Proceed(x, sid))
    ensures forall sid | sid !in s.nodes[x].searches && (forall r | r in s.nodes[x].waiting :: s.nodes[x].waiting[r].search != sid) ::
              Enabled(s, BeginSearch(x, sid))
    ensures forall job | job !in s.nodes[x].stores :: Enabled(s, BeginStore(x, job))
    ensures forall job | job in s.nodes[x].stores && s.nodes[x].stores[job] != [] :: Enabled(s, StoreChunk(x, job))
  {
  }

  // ----- a message arrives -----

  // The ping that a contact causes: to the head of its bucket if that is full of others and does not end
  // with the owner.
  ghost predicate IsPing(x: nat, t: Table, p: Peer, resId: nat, q: Msg) {
    var ps := t.Bucket(t.Slot(p.nodeId));
    TurnsAway(ps, p, t.cfg.k, x) && q == Ping(Own(x), ps[0], resId)
  }

  // The answer to a message: a reply with the peers nearest to the asker, or a pong.
  ghost predicate IsAnswer(x: nat, t: Table, m: Msg, q: Msg) {
    match m
    case FindNode(from, _, resId) => q == Reply(Own(x), from, resId, Lookups.FindNode(t, from.nodeId, t.cfg.alpha))
    case Ping(from, _, resId) => q == Pong(Own(x), from, resId)
    case Store(from, _, resId) => q == Pong(Own(x), from, resId)
    case Pong(_, _, _) => false
    case Reply(_, _, _, _) => false
  }

  lemma PingsOfOne(t: Table, p: Peer)
    ensures t.ContactedAll([p]) == t.Contacted(p)
    ensures var ps := t.Bucket(t.Slot(p.nodeId));
            t.PingsOf([p]) == if TurnsAway(ps, p, t.cfg.k, t.self) then [ps[0]] else []
  {
    assert [p][..0] == [];
    assert t.ContactedAll([]) == t;
    PingsTheHead(t.Bucket(t.Slot(p.nodeId)), p, t.cfg.k, t.self);
  }

  lemma RespondSends(x: nat, n: Node, m: Msg)
    ensures Respond(x, n, m).node.table == n.table
    ensures forall q :: q in Respond(x, n, m).sent <==> IsAnswer(x, n.table, m, q)
  {
  }

  lemma LearnPings(x: nat, n: Node, p: Peer, nextId: nat)
    requires n.table.self == x
    ensures var r := Learn(x, n, [p], nextId);
            && r.node == n.(table := n.table.Contacted(p))
            && forall q :: q in r.sent <==> IsPing(x, n.table, p, nextId, q)
  {
    PingsOfOne(n.table, p);
    var ps := n.table.Bucket(n.table.Slot(p.nodeId));
    assert Learn(x, n, [p], nextId).sent == if TurnsAway(ps, p, n.table.cfg.k, x) then [Ping(Own(x), ps[0], nextId)] else [];
  }

  lemma HandleSends(x: nat, n: Node, m: Msg, nextId: nat)
    requires n.table.self == x
    ensures var r := HandleMessage(x, n, m, nextId);
            && r.node.table == n.table.Contacted(m.from)
            && forall q :: q in r.sent <==> IsPing(x, n.table, m.from, nextId, q) || IsAnswer(x, r.node.table, m, q)
  {
    LearnPings(x, n, m.from, nextId);
    RespondSends(x, Learn(x, n, [m.from], nextId).node, m);
  }

  // Exactly what is sent when a message arrives: the ping that its sender causes, and its answer.
  lemma DeliverySends(run: seq<Net>, steps: seq<Step>, i: nat, x: nat, m: Msg)
    requires IsRun(run, steps) && i < |steps| && steps[i] == Deliver(x, m)
    ensures OnlyNode(run[i], run[i + 1], x)
    ensures var before, after := run[i].nodes[x].table, run[i + 1].nodes[x].table;
            && after == before.Contacted(m.from)
            && forall q :: q in run[i + 1].net <==>
                 q in run[i].net || IsPing(x, before, m.from, run[i].nextId, q) || IsAnswer(x, after, m, q)
  {
    Ready(run, steps, i, x);
    OneNode(run[i], steps[i]);
    HandleSends(x, run[i].nodes[x], m, run[i].nextId);
  }

  // What is used of every reachable state.
  lemma Ready(run: seq<Net>, steps: seq<Step>, i: nat, x: nat)
    requires IsRun(run, steps) && i < |run| && x in run[i].nodes
    ensures var t := run[i].nodes[x].table; t.Ok() && t.self == x && t.cfg == run[i].cfg
    ensures forall r | r in run[i].nodes[x].waiting ::
              run[i].nodes[x].waiting[r].search in run[i].nodes[x].searches && r < run[i].nextId
  {
    ReachableOwned(run, steps, i);
    NoSelf.ReachableInv(run, steps, i);
    assert NoSelf.NodeOk(run[i].nodes.Keys, run[i].cfg, x, run[i].nodes[x]);
  }

  lemma OneNode(s: Net, step: Step)
    requires Enabled(s, step)
    ensures OnlyNode(s, Next(s, step), step.x)
  {
  }

  // A ping or a store gets its pong.
  lemma PongIsSent(run: seq<Net>, steps: seq<Step>, i: nat, x: nat, m: Msg)
    requires IsRun(run, steps) && i < |steps| && steps[i] == Deliver(x, m) && (m.Ping? || m.Store?)
    ensures Pong(Own(x), m.from, m.resId) in run[i + 1].net
  {
    DeliverySends(run, steps, i, x, m);
    assert IsAnswer(x, run[i + 1].nodes[x].table, m, Pong(Own(x), m.from, m.resId));
  }

  // A pong or a reply is answered by nobody.
  lemma AnswersEndTalk(run: seq<Net>, steps: seq<Step>, i: nat, x: nat, m: Msg)
    requires IsRun(run, steps) && i < |steps| && steps[i] == Deliver(x, m) && (m.Pong? || m.Reply?)
    ensures forall q | q in run[i + 1].net && q !in run[i].net :: q.Ping?
  {
    DeliverySends(run, steps, i, x, m);
  }

  // ----- a reply completes its query -----

  // The contact list with p in it: at its old place if its id was there, else at the end.
  ghost predicate ContactSet(before: seq<Peer>, after: seq<Peer>, p: Peer) {
    if p.nodeId in Ids(before) then
      |after| == |before| && exists i | 0 <= i < |before| ::
        before[i].nodeId == p.nodeId && after[i] == p && forall j | 0 <= j < |before| && j != i :: after[j] == before[j]
    else after == before + [p]
  }

  // The query with response id r, to p, ends with a reply that lists `nodes`.
  ghost predicate Completes(cfg: Config, x: nat, n: Node, after: Node, r: nat, p: Peer, nodes: seq<Peer>)
    requires r in n.waiting && n.waiting[r].search in n.searches
  {
    var sid := n.waiting[r].search;
    && after.waiting == n.waiting - {r} && after.stores == n.stores
    && after.searches.Keys == n.searches.Keys && (forall other | other in n.searches && other != sid :: after.searches[other] == n.searches[other])
    && var was, now := n.searches[sid], after.searches[sid];
      && ContactSet(was.st.contacts, now.st.contacts, p)
      && now.st.shortlist == was.st.shortlist + nodes && now.st.sent == was.st.sent
      && now.round == was.round && now.candidate == was.candidate
      && (now.updated <==> was.updated || exists q | q in nodes ::
            BucketIndex(x, q.nodeId, cfg.bits) < BucketIndex(x, was.candidate.nodeId, cfg.bits))
  }

  lemma SetContactIs(contacts: seq<Peer>, p: Peer)
    ensures ContactSet(contacts, SetContact(contacts, p), p) && p.nodeId in Ids(SetContact(contacts, p))
  {
    var after := SetContact(contacts, p);
    if p.nodeId in Ids(contacts) {
      var i := IndexOf(contacts, p.nodeId);
      assert after[i] == p;
    } else {
      assert after[|contacts|] == p;
    }
  }

  lemma HandleCompletes(x: nat, n: Node, m: Msg, nextId: nat)
    requires m.Reply? && m.resId in n.waiting && n.waiting[m.resId].search in n.searches
    ensures var r := HandleMessage(x, n, m, nextId);
            && Completes(n.table.cfg, x, n, r.node, m.resId, n.waiting[m.resId].query.node, m.nodes)
            && r.answeredBy == {n.waiting[m.resId].query.node.nodeId}
  {
    SetContactIs(n.searches[n.waiting[m.resId].search].st.contacts, n.waiting[m.resId].query.node);
  }

  // An awaited reply completes the query it answers: the asked node becomes a contact, its peers join the
  // shortlist in their order, and the search learns whether one of them is in a lower bucket. No other query
  // or search is affected.
  lemma ReplyCompletes(run: seq<Net>, steps: seq<Step>, i: nat, x: nat, m: Msg)
    requires IsRun(run, steps) && i < |steps| && steps[i] == Deliver(x, m) && m.Reply? && m.resId in run[i].nodes[x].waiting
    ensures OnlyNode(run[i], run[i + 1], x)
    ensures var n, after := run[i].nodes[x], run[i + 1].nodes[x];
            && n.waiting[m.resId].search in n.searches
            && Completes(run[i].cfg, x, n, after, m.resId, m.from, m.nodes)
            && m.from.nodeId in Ids(after.searches[n.waiting[m.resId].search].st.contacts)
            && run[i + 1].resolved == run[i].resolved + {(x, m.from.nodeId)}
  {
    Ready(run, steps, i, x);
    OneNode(run[i], steps[i]);
    SenderIsTarget(run, steps, i, x, m);
    var n := run[i].nodes[x];
    HandleCompletes(x, n, m, run[i].nextId);
    ContactSetHas(n.searches[n.waiting[m.resId].search].st.contacts,
                  run[i + 1].nodes[x].searches[n.waiting[m.resId].search].st.contacts, m.from);
  }

  lemma SenderIsTarget(run: seq<Net>, steps: seq<Step>, i: nat, x: nat, m: Msg)
    requires IsRun(run, steps) && i < |steps| && steps[i] == Deliver(x, m) && m.Reply? && m.resId in run[i].nodes[x].waiting
    ensures m.from == run[i].nodes[x].waiting[m.resId].query.node
  {
    Causality.ReachableInv(run, steps, i);
    DeliveredFromTarget(run[i], x, m);
  }

  lemma DeliveredFromTarget(s: Net, x: nat, m: Msg)
    requires Causality.Inv(s) && Enabled(s, Deliver(x, m)) && m.Reply? && m.resId in s.nodes[x].waiting
    ensures m.from == s.nodes[x].waiting[m.resId].query.node
  {
    Causality.ReplyIsFromTarget(s, x, m);
  }

  lemma ContactSetHas(before: seq<Peer>, after: seq<Peer>, p: Peer)
    requires ContactSet(before, after, p)
    ensures p.nodeId in Ids(after)
  {
    if p.nodeId in Ids(before) {
      var i :| 0 <= i < |before| && after[i] == p;
      assert after[i] in after;
    } else {
      assert after[|before|] == p;
    }
  }

  // Any other message, and a reply that nobody awaits, leaves searches and queries alone.
  lemma OthersCompleteNothing(run: seq<Net>, steps: seq<Step>, i: nat, x: nat, m: Msg)
    requires IsRun(run, steps) && i < |steps| && steps[i] == Deliver(x, m)
    requires !m.Reply? || m.resId !in run[i].nodes[x].waiting
    ensures var n, after := run[i].nodes[x], run[i + 1].nodes[x];
            && after.searches == n.searches && after.waiting == n.waiting && after.stores == n.stores
            && run[i + 1].resolved == run[i].resolved
  {
  }

  // ----- the rounds of a search -----

  // The position is in the slice of the round, and its peer has not been contacted.
  predicate ToAsk(cfg: Config, st: State, round: nat, pos: nat) {
    && WindowStart(cfg, round) <= pos < WindowStart(cfg, round) + cfg.alpha && pos < |st.shortlist|
    && st.shortlist[pos].nodeId !in Ids(st.contacts)
  }

  // The query for a position was sent and is awaited under the response id r.
  predicate IsAsked(x: nat, sid: nat, run: SearchRun, after: Node, net: set<Msg>, r: nat, pos: nat) {
    && pos < |run.st.shortlist| && r in after.waiting
    && after.waiting[r] == Pending(sid, Query(run.round, pos, run.st.shortlist[pos]))
    && FindNode(Own(x), run.st.shortlist[pos], r) in net
  }

  // Each peer to ask is asked, once, and nobody else.
  ghost predicate RoundSent(cfg: Config, x: nat, sid: nat, run: SearchRun, n: Node, after: Node, net: set<Msg>) {
    && (forall r | r in n.waiting :: r in after.waiting && after.waiting[r] == n.waiting[r])
    && (forall pos: nat | ToAsk(cfg, run.st, run.round, pos) :: exists r :: r !in n.waiting && IsAsked(x, sid, run, after, net, r, pos))
    && (forall r | r in after.waiting && r !in n.waiting :: exists pos: nat :: ToAsk(cfg, run.st, run.round, pos) && IsAsked(x, sid, run, after, net, r, pos))
    && (forall r, q | r in after.waiting && q in after.waiting && r !in n.waiting && q !in n.waiting && r != q ::
          after.waiting[r].query.position != after.waiting[q].query.position)
  }

  lemma QueryAt(cfg: Config, run: SearchRun, j: nat)
    requires j < |NextQueries(cfg, run)|
    ensures var q := NextQueries(cfg, run)[j];
            q.position < |run.st.shortlist| && q == Query(run.round, q.position, run.st.shortlist[q.position]) &&
            ToAsk(cfg, run.st, run.round, q.position)
  {
    var window := Window(cfg, run.st, run.round);
    WindowMembers(cfg, run.st, run.round);
    WindowExactly(cfg, run.st, run.round);
    assert window[j] in window;
  }

  // Query number j of the round.
  lemma AskedAt(cfg: Config, x: nat, sid: nat, run: SearchRun, n: Node, nextId: nat, net: set<Msg>, j: nat)
    requires n.table.cfg == cfg && j < |NextQueries(cfg, run)|
    requires forall q | q in Ask(x, n, sid, run, nextId).sent :: q in net
    ensures var after, pos := Ask(x, n, sid, run, nextId).node, NextQueries(cfg, run)[j].position;
            ToAsk(cfg, run.st, run.round, pos) && IsAsked(x, sid, run, after, net, nextId + j, pos)
  {
    var sent, qs := Ask(x, n, sid, run, nextId).sent, NextQueries(cfg, run);
    QueryAt(cfg, run, j);
    assert sent[j] == FindNode(Own(x), qs[j].node, nextId + j) && sent[j] in net;
  }

  lemma PositionAsked(cfg: Config, run: SearchRun, pos: nat) returns (j: nat)
    requires ToAsk(cfg, run.st, run.round, pos)
    ensures j < |NextQueries(cfg, run)| && NextQueries(cfg, run)[j].position == pos
  {
    var window := Window(cfg, run.st, run.round);
    WindowMembers(cfg, run.st, run.round);
    WindowExactly(cfg, run.st, run.round);
    assert pos in window;
    j :| 0 <= j < |window| && window[j] == pos;
  }

  lemma PositionsDiffer(cfg: Config, run: SearchRun)
    ensures forall i, j | 0 <= i < j < |NextQueries(cfg, run)| :: NextQueries(cfg, run)[i].position < NextQueries(cfg, run)[j].position
  {
    WindowMembers(cfg, run.st, run.round);
  }

  lemma NewWaiting(cfg: Config, x: nat, sid: nat, run: SearchRun, n: Node, nextId: nat, r: nat)
    requires n.table.cfg == cfg && r in Ask(x, n, sid, run, nextId).node.waiting && r !in n.waiting
    ensures nextId <= r < nextId + |NextQueries(cfg, run)|
    ensures Ask(x, n, sid, run, nextId).node.waiting[r].query == NextQueries(cfg, run)[r - nextId]
  {
  }

  lemma AskSends(cfg: Config, x: nat, sid: nat, run: SearchRun, n: Node, nextId: nat, net: set<Msg>)
    requires n.table.cfg == cfg && (forall r | r in n.waiting :: r < nextId)
    requires forall q | q in Ask(x, n, sid, run, nextId).sent :: q in net
    ensures RoundSent(cfg, x, sid, run, n, Ask(x, n, sid, run, nextId).node, net)
  {
    var after, qs := Ask(x, n, sid, run, nextId).node, NextQueries(cfg, run);
    forall pos: nat | ToAsk(cfg, run.st, run.round, pos)
      ensures exists r :: r !in n.waiting && IsAsked(x, sid, run, after, net, r, pos)
    {
      var j := PositionAsked(cfg, run, pos);
      AskedAt(cfg, x, sid, run, n, nextId, net, j);
      assert nextId + j !in n.waiting;
    }
    forall r | r in after.waiting && r !in n.waiting
      ensures exists pos: nat :: ToAsk(cfg, run.st, run.round, pos) && IsAsked(x, sid, run, after, net, r, pos)
    {
      NewWaiting(cfg, x, sid, run, n, nextId, r);
      AskedAt(cfg, x, sid, run, n, nextId, net, r - nextId);
      assert IsAsked(x, sid, run, after, net, r, qs[r - nextId].position);
    }
    forall r, q | r in after.waiting && q in after.waiting && r !in n.waiting && q !in n.waiting && r != q
      ensures after.waiting[r].query.position != after.waiting[q].query.position
    {
      NewWaiting(cfg, x, sid, run, n, nextId, r);
      NewWaiting(cfg, x, sid, run, n, nextId, q);
      PositionsDiffer(cfg, run);
    }
  }

  // A search begins, unless the table knows nobody else, by asking the first ALPHA peers of its answer.
  lemma SearchBegins(run: seq<Net>, steps: seq<Step>, i: nat, x: nat, sid: nat)
    requires IsRun(run, steps) && i < |steps| && steps[i] == BeginSearch(x, sid)
    ensures OnlyNode(run[i], run[i + 1], x)
    ensures var n, after, start := run[i].nodes[x], run[i + 1].nodes[x], Lookups.FindNode(run[i].nodes[x].table, x, run[i].cfg.alpha);
            && (start == [] ==> after == n && run[i + 1].net == run[i].net)
            && (start != [] ==>
                  && sid in after.searches
                  && RoundSent(run[i].cfg, x, sid, SearchRun(State([], start, []), start[0], 0, false), n, after, run[i + 1].net)
                  && after.searches[sid].st.shortlist == start && after.searches[sid].st.contacts == []
                  && after.searches[sid].candidate == start[0] && after.searches[sid].round == 0 && !after.searches[sid].updated)
  {
    Ready(run, steps, i, x);
    OneNode(run[i], steps[i]);
    var n := run[i].nodes[x];
    var start := Lookups.FindNode(n.table, x, run[i].cfg.alpha);
    if start != [] {
      AskSends(run[i].cfg, x, sid, SearchRun(State([], start, []), start[0], 0, false), n, run[i].nextId, run[i + 1].net);
    }
  }

  ghost predicate SomeoneToAsk(cfg: Config, st: State, round: nat) {
    exists pos: nat :: ToAsk(cfg, st, round, pos)
  }

  // Another round follows exactly when this one found a closer peer, fewer than BIT_SIZE have answered, and
  // the next slice has somebody to ask.
  ghost predicate AnotherRound(cfg: Config, was: SearchRun) {
    was.updated && |was.st.contacts| < cfg.bits && SomeoneToAsk(cfg, was.st, was.round + 1)
  }

  lemma GoesOnIff(cfg: Config, was: SearchRun)
    ensures GoesOn(cfg, was) <==> AnotherRound(cfg, was)
  {
    var window := Window(cfg, was.st, was.round + 1);
    WindowExactly(cfg, was.st, was.round + 1);
    WindowMembers(cfg, was.st, was.round + 1);
    assert |NextQueries(cfg, FollowingRound(was))| == |window|;
    if window != [] {
      assert window[0] in window;
      assert ToAsk(cfg, was.st, was.round + 1, window[0]);
    }
  }

  // It asks everybody in its slice who has not answered yet; the candidate stays what it was.
  lemma SearchGoesOn(run: seq<Net>, steps: seq<Step>, i: nat, x: nat, sid: nat)
    requires IsRun(run, steps) && i < |steps| && steps[i] == Proceed(x, sid) && AnotherRound(run[i].cfg, run[i].nodes[x].searches[sid])
    ensures OnlyNode(run[i], run[i + 1], x)
    ensures var n, after := run[i].nodes[x], run[i + 1].nodes[x];
            var was := n.searches[sid];
            && sid in after.searches && after.table == n.table
            && RoundSent(run[i].cfg, x, sid, was.(round := was.round + 1, updated := false), n, after, run[i + 1].net)
            && after.searches[sid].st.shortlist == was.st.shortlist && after.searches[sid].st.contacts == was.st.contacts
            && after.searches[sid].candidate == was.candidate && after.searches[sid].round == was.round + 1
            && !after.searches[sid].updated
  {
    Ready(run, steps, i, x);
    OneNode(run[i], steps[i]);
    GoesOnIff(run[i].cfg, run[i].nodes[x].searches[sid]);
    AskSends(run[i].cfg, x, sid, FollowingRound(run[i].nodes[x].searches[sid]), run[i].nodes[x], run[i].nextId, run[i + 1].net);
  }

  // `ps` are pinged, with consecutive new response ids, and nothing else is sent.
  ghost predicate OnlyPings(s: Net, t: Net, x: nat, ps: seq<Peer>) {
    forall q :: q in t.net <==> q in s.net || exists j | 0 <= j < |ps| :: q == Ping(Own(x), ps[j], s.nextId + j)
  }

  // The table has learnt of the contacts in order; the pings go to the heads of the full buckets they met.
  ghost predicate Learnt(s: Net, t: Net, x: nat, contacts: seq<Peer>)
    requires x in s.nodes && x in t.nodes
  {
    var before, after := s.nodes[x].table, t.nodes[x].table;
    && after == before.ContactedAll(contacts) && (forall p | p in contacts :: after.Knows(p.nodeId))
    && exists at, ps :: TableOrders.Listed(TableOrders.HeadsMet(before, contacts), at, ps) && OnlyPings(s, t, x, ps)
  }

  lemma PingsSent(s: Net, t: Net, x: nat, ps: seq<Peer>)
    requires t.net == s.net + set m | m in Pings(x, ps, s.nextId)
    ensures OnlyPings(s, t, x, ps)
  {
    var sent := Pings(x, ps, s.nextId);
    assert forall j | 0 <= j < |sent| :: sent[j] == Ping(Own(x), ps[j], s.nextId + j);
  }

  lemma LearnSends(s: Net, t: Net, x: nat, n: Node, contacts: seq<Peer>)
    requires x in s.nodes && x in t.nodes && s.nodes[x].table == n.table && n.table.Ok()
    requires t.nodes[x].table == n.table.ContactedAll(contacts)
    requires t.net == s.net + set m | m in Pings(x, n.table.PingsOf(contacts), s.nextId)
    ensures Learnt(s, t, x, contacts)
  {
    var at := TableOrders.PingsAreHeads(n.table, contacts);
    forall p | p in contacts
      ensures t.nodes[x].table.Knows(p.nodeId)
    {
      ContactedAllKnows(n.table, contacts, p.nodeId);
    }
    PingsSent(s, t, x, n.table.PingsOf(contacts));
  }

  // Otherwise the search ends, and the table learns of everybody who answered, in order.
  lemma SearchEnds(run: seq<Net>, steps: seq<Step>, i: nat, x: nat, sid: nat)
    requires IsRun(run, steps) && i < |steps| && steps[i] == Proceed(x, sid) && !AnotherRound(run[i].cfg, run[i].nodes[x].searches[sid])
    ensures OnlyNode(run[i], run[i + 1], x)
    ensures var n, after := run[i].nodes[x], run[i + 1].nodes[x];
            && after.searches == n.searches - {sid} && after.waiting == n.waiting && after.stores == n.stores
            && Learnt(run[i], run[i + 1], x, n.searches[sid].st.contacts)
  {
    Ready(run, steps, i, x);
    OneNode(run[i], steps[i]);
    GoesOnIff(run[i].cfg, run[i].nodes[x].searches[sid]);
    var n := run[i].nodes[x];
    LearnSends(run[i], run[i + 1], x, n.(searches := n.searches - {sid}), n.searches[sid].st.contacts);
  }

  // ----- the other turns -----

  // A node that starts tells its table of the bootstrap.
  lemma StartLearns(run: seq<Net>, steps: seq<Step>, i: nat, x: nat)
    requires IsRun(run, steps) && i < |steps| && steps[i] == Start(x)
    ensures OnlyNode(run[i], run[i + 1], x) && Learnt(run[i], run[i + 1], x, [Peer(0, 3000)])
    ensures var n, after := run[i].nodes[x], run[i + 1].nodes[x];
            after.searches == n.searches && after.waiting == n.waiting && after.stores == n.stores
  {
    Ready(run, steps, i, x);
    OneNode(run[i], steps[i]);
    LearnSends(run[i], run[i + 1], x, run[i].nodes[x], [Own(0)]);
  }

  // A timeout gives up one query and does nothing else.
  lemma TimeoutGivesUp(run: seq<Net>, steps: seq<Step>, i: nat, x: nat, resId: nat)
    requires IsRun(run, steps) && i < |steps| && steps[i] == Timeout(x, resId)
    ensures OnlyNode(run[i], run[i + 1], x) && run[i + 1].net == run[i].net
    ensures var n, after := run[i].nodes[x], run[i + 1].nodes[x];
            after == n.(waiting := after.waiting) && after.waiting.Keys == n.waiting.Keys - {resId} &&
            forall r | r in after.waiting :: after.waiting[r] == n.waiting[r]
  {
  }

  // A `store` will write to all peers of the table as it is now, in their order, ALPHA at a time.
  lemma StoreBegins(run: seq<Net>, steps: seq<Step>, i: nat, x: nat, job: nat)
    requires IsRun(run, steps) && i < |steps| && steps[i] == BeginStore(x, job)
    ensures OnlyNode(run[i], run[i + 1], x) && run[i + 1].net == run[i].net
    ensures var n, after := run[i].nodes[x], run[i + 1].nodes[x];
            && job in after.stores && after == n.(stores := n.stores[job := after.stores[job]])
            && Flatten(after.stores[job]) == n.table.AllPeers()
            && (forall c | 0 <= c < |after.stores[job]| :: 0 < |after.stores[job][c]| <= run[i].cfg.alpha)
            && (forall c | 0 <= c < |after.stores[job]| - 1 :: |after.stores[job][c]| == run[i].cfg.alpha)
  {
    Ready(run, steps, i, x);
    OneNode(run[i], steps[i]);
    ChunkFlattens(run[i].nodes[x].table.AllPeers(), run[i].cfg.alpha);
  }

  // The next chunk of a `store`: one message to each of its peers and nothing else.
  lemma StoreWrites(run: seq<Net>, steps: seq<Step>, i: nat, x: nat, job: nat)
    requires IsRun(run, steps) && i < |steps| && steps[i] == StoreChunk(x, job)
    ensures OnlyNode(run[i], run[i + 1], x)
    ensures var n, after := run[i].nodes[x], run[i + 1].nodes[x];
            var chunk := n.stores[job][0];
            && after == n.(stores := n.stores[job := n.stores[job][1..]])
            && forall q :: q in run[i + 1].net <==>
                 q in run[i].net || exists j | 0 <= j < |chunk| :: q == Store(Own(x), chunk[j], run[i].nextId + j)
  {
    var chunk := run[i].nodes[x].stores[job][0];
    var sent := Stores(x, chunk, run[i].nextId);
    assert forall j | 0 <= j < |sent| :: sent[j] == Store(Own(x), chunk[j], run[i].nextId + j);
    assert React(run[i], steps[i]).sent == sent;
  }

  // A disconnect takes one peer out of the table.
  lemma DisconnectForgets(run: seq<Net>, steps: seq<Step>, i: nat, x: nat, id: nat)
    requires IsRun(run, steps) && i < |steps| && steps[i] == Step.Disconnect(x, id)
    ensures OnlyNode(run[i], run[i + 1], x) && run[i + 1].net == run[i].net
    ensures var n, after := run[i].nodes[x], run[i + 1].nodes[x];
            && after == n.(table := after.table)
            && forall p :: after.table.Stores(p) <==> n.table.Stores(p) && (p.nodeId != id || id == x)
  {
    Ready(run, steps, i, x);
    OneNode(run[i], steps[i]);
    DisconnectedOk(run[i].nodes[x].table, id);
  }
}
