// A search on the network, where replies are lost, repeated and late, and where it runs among all other
// turns of its node, is a search as specified, for some order and outcome of its queries.
module NetworkSearches {
  import opened Peers
  import opened Tables
  import Lookups
  import opened Searches
  import opened Protocol
  import opened SearchBounds
  import Causality
  import Effects
  import SearchRounds

  predicate Distinct(s: seq<nat>) {
    forall i, j | 0 <= i < j < |s| :: s[i] != s[j]
  }

  // Two environments agree on all that a search has met by the time it has these queries of a round pending.
  ghost predicate SamePast(env: Env, other: Env, round: nat, pending: seq<nat>) {
    && (forall r: nat, p: nat | r < round || (r == round && p !in pending) :: env.outcome(r, p) == other.outcome(r, p))
    && (forall r: nat, s: seq<nat> | r < round || (r == round && |s| > |pending|) :: env.next(r, s) == other.next(r, s))
  }

  // How a search ends that still has the pending queries of its current round before it.
  function Rest(env: Env, cfg: Config, self: nat, run: SearchRun, pending: seq<nat>): State
    requires DistinctIds(run.st.contacts) && Within(pending, |run.st.shortlist|)
  {
    FinishContacts(env, cfg, self, run.candidate, run.round, pending, run.st);
    var r := Finish(env, cfg, self, run.candidate, run.round, pending, run.st);
    if (run.updated || r.1) && |r.0.contacts| < cfg.bits then Search(env, cfg, self, run.candidate, run.round + 1, r.0) else r.0
  }

  // Whatever is still to come, the specified search from `start` is now where `run` is.
  ghost predicate Follows(env: Env, cfg: Config, self: nat, start: seq<Peer>, run: SearchRun, pending: seq<nat>) {
    && DistinctIds(run.st.contacts) && Within(pending, |run.st.shortlist|)
    && forall other: Env | SamePast(env, other, run.round, pending) ::
         FindNodes(other, cfg, self, start) == Rest(other, cfg, self, run, pending)
  }

  // The response ids a search waits for are those of its pending positions.
  ghost predicate Tracks(n: Node, sid: nat, run: SearchRun, ids: seq<nat>, pending: seq<nat>) {
    && |ids| == |pending| && Distinct(ids) && Distinct(pending)
    && (forall r :: r in ids <==> r in WaitingOf(n, sid))
    && forall i | 0 <= i < |ids| :: ids[i] in n.waiting && IsQueryAt(run, n.waiting[ids[i]].query, pending[i])
  }

  predicate IsQueryAt(run: SearchRun, q: Query, position: nat) {
    position < |run.st.shortlist| && q == Query(run.round, position, run.st.shortlist[position])
  }

  // A reply with these nodes has been sent by the queried node.
  predicate AnsweredOn(net: set<Msg>, x: nat, q: Query, nodes: seq<Peer>) {
    exists m :: m in net && m.Reply? && m.from == q.node && m.to == Own(x) && m.nodes == nodes
  }

  predicate Truthful(env: Env, net: set<Msg>, x: nat, q: Query) {
    match env.outcome(q.round, q.position)
    case Failure => true
    case Answer(nodes) => AnsweredOn(net, x, q, nodes)
  }

  // The environment makes up no replies: for every query that is over, they are on the network.
  predicate Honest(env: Env, net: set<Msg>, x: nat, run: SearchRun, pending: seq<nat>) {
    forall q | q in run.st.sent ::
      && q.round <= run.round && q.position < |run.st.shortlist| && q.node == run.st.shortlist[q.position]
      && (Truthful(env, net, x, q) || (q.round == run.round && q.position in pending))
  }

  ghost predicate SimulatedBy(env: Env, ids: seq<nat>, pending: seq<nat>, cfg: Config, net: set<Msg>, x: nat, start: seq<Peer>, n: Node, sid: nat)
    requires sid in n.searches
  {
    && Tracks(n, sid, n.searches[sid], ids, pending)
    && Follows(env, cfg, x, start, n.searches[sid], pending)
    && Honest(env, net, x, n.searches[sid], pending)
  }

  ghost predicate Simulates(cfg: Config, net: set<Msg>, x: nat, start: seq<Peer>, n: Node, sid: nat) {
    sid in n.searches && exists env, ids, pending :: SimulatedBy(env, ids, pending, cfg, net, x, start, n, sid)
  }

  lemma MoreMessages(cfg: Config, net: set<Msg>, more: set<Msg>, x: nat, start: seq<Peer>, n: Node, sid: nat)
    requires Simulates(cfg, net, x, start, n, sid) && net <= more
    ensures Simulates(cfg, more, x, start, n, sid)
  {
    var env, ids, pending :| SimulatedBy(env, ids, pending, cfg, net, x, start, n, sid);
    assert SimulatedBy(env, ids, pending, cfg, more, x, start, n, sid);
  }

  // ----- one query ends -----

  function Without(s: seq<nat>, i: nat): seq<nat>
    requires i < |s|
  {
    s[..i] + s[i + 1..]
  }

  lemma WithoutMembers(s: seq<nat>, i: nat)
    requires i < |s| && Distinct(s)
    ensures Distinct(Without(s, i)) && forall p :: p in Without(s, i) <==> p in s && p != s[i]
  {
    var r := Without(s, i);
    assert forall j | 0 <= j < |r| :: r[j] == s[if j < i then j else j + 1];
    assert forall j | 0 <= j < |s| && j != i :: s[j] == r[if j < i then j else j - 1];
  }

  function Advanced(cfg: Config, x: nat, run: SearchRun, node: Peer, o: Outcome): SearchRun {
    run.(st := Completed(run.st, node, o), updated := run.updated || Updates(cfg, x, run.candidate, o))
  }

  // The environment in which that query ends next, and in that way.
  function Extended(env: Env, round: nat, pending: seq<nat>, i: nat, o: Outcome): Env
    requires i < |pending|
  {
    Env((r: nat, p: nat) => if r == round && p == pending[i] then o else env.outcome(r, p),
        (r: nat, s: seq<nat>) => (if r == round && s == pending then i else env.next(r, s)) as nat)
  }

  lemma ExtendedPast(env: Env, other: Env, round: nat, pending: seq<nat>, i: nat, o: Outcome)
    requires i < |pending| && Distinct(pending)
    requires SamePast(Extended(env, round, pending, i, o), other, round, Without(pending, i))
    ensures SamePast(env, other, round, pending)
    ensures other.outcome(round, pending[i]) == o && other.Pick(round, pending) == i
  {
    WithoutMembers(pending, i);
    var env2 := Extended(env, round, pending, i, o);
    assert env2.outcome(round, pending[i]) == o && env2.next(round, pending) == i;
    assert other.next(round, pending) == i;
    assert forall r: nat, p: nat | r < round || (r == round && p !in pending) :: env.outcome(r, p) == env2.outcome(r, p);
    assert forall r: nat, s: seq<nat> | r < round || (r == round && |s| > |pending|) :: env.next(r, s) == env2.next(r, s);
  }

  lemma AdvanceFollows(env: Env, cfg: Config, x: nat, start: seq<Peer>, run: SearchRun, pending: seq<nat>, i: nat, o: Outcome)
    requires Follows(env, cfg, x, start, run, pending) && i < |pending| && Distinct(pending)
    ensures Follows(Extended(env, run.round, pending, i, o), cfg, x, start,
                    Advanced(cfg, x, run, run.st.shortlist[pending[i]], o), Without(pending, i))
  {
    var after := Advanced(cfg, x, run, run.st.shortlist[pending[i]], o);
    var env2, rest := Extended(env, run.round, pending, i, o), Without(pending, i);
    CompletedEffect(run.st, run.st.shortlist[pending[i]], o);
    WithinWithout(pending, i, |run.st.shortlist|);
    forall other: Env | SamePast(env2, other, run.round, rest)
      ensures FindNodes(other, cfg, x, start) == Rest(other, cfg, x, after, rest)
    {
      ExtendedPast(env, other, run.round, pending, i, o);
      assert FindNodes(other, cfg, x, start) == Rest(other, cfg, x, run, pending);
    }
  }

  lemma AdvanceHonest(env: Env, cfg: Config, net: set<Msg>, x: nat, run: SearchRun, pending: seq<nat>, i: nat, o: Outcome)
    requires Honest(env, net, x, run, pending) && Within(pending, |run.st.shortlist|) && i < |pending| && Distinct(pending)
    requires o.Answer? ==> AnsweredOn(net, x, Query(run.round, pending[i], run.st.shortlist[pending[i]]), o.nodes)
    ensures Honest(Extended(env, run.round, pending, i, o), net, x,
                   Advanced(cfg, x, run, run.st.shortlist[pending[i]], o), Without(pending, i))
  {
    var after := Advanced(cfg, x, run, run.st.shortlist[pending[i]], o);
    var env2 := Extended(env, run.round, pending, i, o);
    WithoutMembers(pending, i);
    CompletedEffect(run.st, run.st.shortlist[pending[i]], o);
    forall q | q in after.st.sent && !(q.round == run.round && q.position in Without(pending, i))
      ensures Truthful(env2, net, x, q)
    {
      assert q in run.st.sent;
      if q.round == run.round && q.position == pending[i] {
        assert env2.outcome(q.round, q.position) == o;
        assert q == Query(run.round, pending[i], run.st.shortlist[pending[i]]);
      } else {
        assert env2.outcome(q.round, q.position) == env.outcome(q.round, q.position);
      }
    }
  }

  lemma AdvanceTracks(n: Node, after: Node, sid: nat, run: SearchRun, ran: SearchRun, ids: seq<nat>, pending: seq<nat>, i: nat)
    requires Tracks(n, sid, run, ids, pending) && i < |ids|
    requires after.waiting == n.waiting - {ids[i]} && ran.round == run.round && run.st.shortlist <= ran.st.shortlist
    ensures Tracks(after, sid, ran, Without(ids, i), Without(pending, i))
  {
    WithoutMembers(ids, i);
    WithoutMembers(pending, i);
    assert WaitingOf(after, sid) == WaitingOf(n, sid) - {ids[i]};
    var fewer, rest := Without(ids, i), Without(pending, i);
    forall j | 0 <= j < |fewer|
      ensures fewer[j] in after.waiting && IsQueryAt(ran, after.waiting[fewer[j]].query, rest[j])
    {
      var was := if j < i then j else j + 1;
      assert fewer[j] == ids[was] && rest[j] == pending[was] && fewer[j] in fewer;
    }
  }

  // The query with the response id ends, well or not.
  lemma EndedSimulates(cfg: Config, net: set<Msg>, x: nat, start: seq<Peer>, n: Node, after: Node, sid: nat, resId: nat, o: Outcome)
    requires Simulates(cfg, net, x, start, n, sid) && resId in WaitingOf(n, sid)
    requires after.waiting == n.waiting - {resId}
    requires sid in after.searches && after.searches[sid] == Advanced(cfg, x, n.searches[sid], n.waiting[resId].query.node, o)
    requires o.Answer? ==> AnsweredOn(net, x, n.waiting[resId].query, o.nodes)
    ensures Simulates(cfg, net, x, start, after, sid)
  {
    var run := n.searches[sid];
    var env, ids, pending :| SimulatedBy(env, ids, pending, cfg, net, x, start, n, sid);
    assert resId in ids;
    var i :| 0 <= i < |ids| && ids[i] == resId;
    assert IsQueryAt(run, n.waiting[resId].query, pending[i]);
    CompletedEffect(run.st, n.waiting[resId].query.node, o);
    AdvanceFollows(env, cfg, x, start, run, pending, i, o);
    AdvanceTracks(n, after, sid, run, after.searches[sid], ids, pending, i);
    AdvanceHonest(env, cfg, net, x, run, pending, i, o);
    assert SimulatedBy(Extended(env, run.round, pending, i, o), Without(ids, i), Without(pending, i), cfg, net, x, start, after, sid);
  }

  // ----- rounds -----

  function Positions(first: nat, count: nat): seq<nat> {
    seq(count, i requires 0 <= i < count => first + i)
  }

  lemma PositionsMembers(first: nat, count: nat)
    ensures Distinct(Positions(first, count)) && forall r: nat :: r in Positions(first, count) <==> first <= r < first + count
  {
    var ids := Positions(first, count);
    forall r | first <= r < first + count
      ensures r in ids
    {
      assert ids[r - first] == r;
    }
  }

  // A round is sent: its response ids are new, so its window is pending.
  lemma AwaitedTracks(after: Node, sid: nat, run: SearchRun, qs: seq<Query>, window: seq<nat>, first: nat)
    requires WaitsFor(after, sid, qs, first)
    requires Distinct(window) && |qs| == |window| && forall i | 0 <= i < |qs| :: IsQueryAt(run, qs[i], window[i])
    ensures Tracks(after, sid, run, Positions(first, |window|), window)
  {
    var ids := Positions(first, |window|);
    PositionsMembers(first, |window|);
    forall r
      ensures r in ids <==> r in WaitingOf(after, sid)
    {
      if first <= r < first + |qs| {
        WaitsAt(after, sid, qs, first, r);
      }
    }
    forall i | 0 <= i < |ids|
      ensures ids[i] in after.waiting && IsQueryAt(run, after.waiting[ids[i]].query, window[i])
    {
      WaitsAt(after, sid, qs, first, first + i);
    }
  }

  lemma NextQueriesAt(cfg: Config, run: SearchRun)
    ensures var window, qs := Window(cfg, run.st, run.round), NextQueries(cfg, run);
            && Distinct(window) && |qs| == |window|
            && forall i | 0 <= i < |qs| :: IsQueryAt(WithSent(run, qs), qs[i], window[i])
  {
    WindowMembers(cfg, run.st, run.round);
  }

  lemma AskTracks(n: Node, after: Node, sid: nat, sent: SearchRun, qs: seq<Query>, window: seq<nat>, nextId: nat)
    requires WaitingOf(n, sid) == {} && after.waiting == n.waiting + Awaited(sid, qs, nextId)
    requires Distinct(window) && |qs| == |window| && forall i | 0 <= i < |qs| :: IsQueryAt(sent, qs[i], window[i])
    ensures Tracks(after, sid, sent, Positions(nextId, |window|), window)
  {
    WaitingForRound(n, after, sid, qs, nextId);
    AwaitedTracks(after, sid, sent, qs, window, nextId);
  }

  // The node has just sent the round of a search, from which the specified one cannot be told apart.
  lemma AskSimulates(env: Env, cfg: Config, net: set<Msg>, x: nat, start: seq<Peer>, n: Node, sid: nat, run: SearchRun, nextId: nat)
    requires n.table.cfg == cfg && WaitingOf(n, sid) == {}
    requires DistinctIds(run.st.contacts) && !run.updated
    requires forall other: Env | SamePast(env, other, run.round, Window(cfg, run.st, run.round)) ::
               FindNodes(other, cfg, x, start) == Search(other, cfg, x, run.candidate, run.round, run.st)
    requires forall q | q in run.st.sent :: q.round < run.round
    requires Honest(env, net, x, run, [])
    ensures Simulates(cfg, net, x, start, Ask(x, n, sid, run, nextId).node, sid)
  {
    var qs := NextQueries(cfg, run);
    NextQueriesAt(cfg, run);
    AskTracks(n, Ask(x, n, sid, run, nextId).node, sid, WithSent(run, qs), qs, Window(cfg, run.st, run.round), nextId);
    RoundFollows(env, cfg, x, start, run);
    AskHonest(env, cfg, net, x, run);
    var window := Window(cfg, run.st, run.round);
    assert SimulatedBy(env, Positions(nextId, |window|), window, cfg, net, x, start, Ask(x, n, sid, run, nextId).node, sid);
  }

  lemma AskHonest(env: Env, cfg: Config, net: set<Msg>, x: nat, run: SearchRun)
    requires Honest(env, net, x, run, [])
    ensures Honest(env, net, x, WithSent(run, NextQueries(cfg, run)), Window(cfg, run.st, run.round))
  {
    var window, qs := Window(cfg, run.st, run.round), NextQueries(cfg, run);
    NextQueriesAt(cfg, run);
    forall q | q in qs
      ensures q.round == run.round && q.position in window && q.position < |run.st.shortlist| && q.node == run.st.shortlist[q.position]
    {
      var i :| 0 <= i < |qs| && qs[i] == q;
      assert IsQueryAt(WithSent(run, qs), qs[i], window[i]);
    }
  }

  // The specified search does nothing else but send that round.
  lemma SearchIsRest(env: Env, cfg: Config, x: nat, run: SearchRun)
    requires DistinctIds(run.st.contacts) && !run.updated
    ensures var window := Window(cfg, run.st, run.round);
            && Within(window, |run.st.shortlist|)
            && Search(env, cfg, x, run.candidate, run.round, run.st) == Rest(env, cfg, x, WithSent(run, NextQueries(cfg, run)), window)
  {
    WindowMembers(cfg, run.st, run.round);
    var window, sent := Window(cfg, run.st, run.round), WithSent(run, NextQueries(cfg, run));
    if window == [] {
      assert sent.st == run.st;
    }
  }

  lemma RoundFollows(env: Env, cfg: Config, x: nat, start: seq<Peer>, run: SearchRun)
    requires DistinctIds(run.st.contacts) && !run.updated
    requires forall other: Env | SamePast(env, other, run.round, Window(cfg, run.st, run.round)) ::
               FindNodes(other, cfg, x, start) == Search(other, cfg, x, run.candidate, run.round, run.st)
    ensures Follows(env, cfg, x, start, WithSent(run, NextQueries(cfg, run)), Window(cfg, run.st, run.round))
  {
    var window, sent := Window(cfg, run.st, run.round), WithSent(run, NextQueries(cfg, run));
    SearchIsRest(env, cfg, x, run);
    forall other: Env | SamePast(env, other, run.round, window)
      ensures FindNodes(other, cfg, x, start) == Rest(other, cfg, x, sent, window)
    {
      assert FindNodes(other, cfg, x, start) == Search(other, cfg, x, run.candidate, run.round, run.st);
      SearchIsRest(other, cfg, x, run);
    }
  }

  lemma BeginSimulates(cfg: Config, net: set<Msg>, x: nat, n: Node, sid: nat, nextId: nat)
    requires n.table.cfg == cfg && sid !in n.searches && WaitingOf(n, sid) == {}
    ensures var after := OnBeginSearch(x, n, sid, nextId).node;
            sid in after.searches ==> Simulates(cfg, net, x, Lookups.FindNode(n.table, x, cfg.alpha), after, sid)
  {
    var start := Lookups.FindNode(n.table, x, cfg.alpha);
    if start != [] {
      AskSimulates(Env((_, _) => Failure, (_, _) => 0), cfg, net, x, start, n, sid, SearchRun(State([], start, []), start[0], 0, false), nextId);
    }
  }

  lemma ProceedSimulates(cfg: Config, net: set<Msg>, x: nat, start: seq<Peer>, n: Node, sid: nat, nextId: nat)
    requires n.table.cfg == cfg && Simulates(cfg, net, x, start, n, sid) && WaitingOf(n, sid) == {} && GoesOn(cfg, n.searches[sid])
    ensures Simulates(cfg, net, x, start, OnProceed(x, n, sid, nextId).node, sid)
  {
    var run := n.searches[sid];
    var env, ids, pending :| SimulatedBy(env, ids, pending, cfg, net, x, start, n, sid);
    PendingMeansWaiting(n, sid, run, ids, pending);
    var following := FollowingRound(run);
    forall other: Env | SamePast(env, other, following.round, Window(cfg, run.st, following.round))
      ensures FindNodes(other, cfg, x, start) == Search(other, cfg, x, run.candidate, following.round, run.st)
    {
      assert SamePast(env, other, run.round, []);
    }
    assert Honest(env, net, x, following, []);
    AskSimulates(env, cfg, net, x, start, n, sid, following, nextId);
  }

  lemma PendingMeansWaiting(n: Node, sid: nat, run: SearchRun, ids: seq<nat>, pending: seq<nat>)
    requires Tracks(n, sid, run, ids, pending)
    ensures pending != [] ==> WaitingOf(n, sid) != {}
  {
    if pending != [] {
      assert ids[0] in ids;
    }
  }

  // ----- turns that are about something else -----

  predicate Untouched(n: Node, after: Node, sid: nat) {
    && sid in n.searches && sid in after.searches && after.searches[sid] == n.searches[sid]
    && WaitingOf(after, sid) == WaitingOf(n, sid)
    && forall r | r in WaitingOf(n, sid) :: after.waiting[r] == n.waiting[r]
  }

  lemma UntouchedSimulates(cfg: Config, net: set<Msg>, x: nat, start: seq<Peer>, n: Node, after: Node, sid: nat)
    requires Simulates(cfg, net, x, start, n, sid) && Untouched(n, after, sid)
    ensures Simulates(cfg, net, x, start, after, sid)
  {
    var run := n.searches[sid];
    var env, ids, pending :| SimulatedBy(env, ids, pending, cfg, net, x, start, n, sid);
    assert forall i | 0 <= i < |ids| :: ids[i] in ids;
    assert SimulatedBy(env, ids, pending, cfg, net, x, start, after, sid);
  }

  // Response ids in use are below `nextId`.
  ghost predicate Fresh(s: Net) {
    forall x, r | x in s.nodes && r in s.nodes[x].waiting :: r < s.nextId
  }

  lemma FreshKept(s: Net, step: Step)
    requires Fresh(s) && Enabled(s, step)
    ensures Fresh(Next(s, step))
  {
    var r := React(s, step);
    assert forall w | w in r.node.waiting :: w in s.nodes[step.x].waiting || w < s.nextId + r.used;
  }

  lemma AskUntouched(x: nat, n: Node, sid: nat, asking: nat, run: SearchRun, nextId: nat)
    requires sid in n.searches && asking != sid && forall r | r in n.waiting :: r < nextId
    ensures Untouched(n, Ask(x, n, asking, run, nextId).node, sid)
  {
    var after := Ask(x, n, asking, run, nextId).node;
    forall r: nat
      ensures r in WaitingOf(after, sid) <==> r in WaitingOf(n, sid)
      ensures r in WaitingOf(n, sid) ==> after.waiting[r] == n.waiting[r]
    {
    }
  }

  lemma ReplySimulates(cfg: Config, net: set<Msg>, x: nat, start: seq<Peer>, n: Node, m: Msg, sid: nat)
    requires n.table.cfg == cfg && Simulates(cfg, net, x, start, n, sid) && m.Reply? && m in net
    requires m.resId in n.waiting ==> m.from == n.waiting[m.resId].query.node && m.to == Own(x)
    ensures Simulates(cfg, net, x, start, OnReply(x, n, m).node, sid)
  {
    var after := OnReply(x, n, m).node;
    if m.resId in WaitingOf(n, sid) {
      EndedSimulates(cfg, net, x, start, n, after, sid, m.resId, Answer(m.nodes));
    } else {
      UntouchedSimulates(cfg, net, x, start, n, after, sid);
    }
  }

  lemma TimeoutSimulates(cfg: Config, net: set<Msg>, x: nat, start: seq<Peer>, n: Node, resId: nat, sid: nat)
    requires Simulates(cfg, net, x, start, n, sid)
    ensures Simulates(cfg, net, x, start, n.(waiting := n.waiting - {resId}), sid)
  {
    var after := n.(waiting := n.waiting - {resId});
    if resId in WaitingOf(n, sid) {
      EndedSimulates(cfg, net, x, start, n, after, sid, resId, Failure);
    } else {
      UntouchedSimulates(cfg, net, x, start, n, after, sid);
    }
  }

  lemma ProceedTurnSimulates(cfg: Config, net: set<Msg>, x: nat, start: seq<Peer>, n: Node, asking: nat, sid: nat, nextId: nat)
    requires n.table.cfg == cfg && Simulates(cfg, net, x, start, n, sid) && forall r | r in n.waiting :: r < nextId
    requires asking in n.searches && WaitingOf(n, asking) == {} && sid in OnProceed(x, n, asking, nextId).node.searches
    ensures Simulates(cfg, net, x, start, OnProceed(x, n, asking, nextId).node, sid)
  {
    var after := OnProceed(x, n, asking, nextId).node;
    if asking == sid {
      ProceedSimulates(cfg, net, x, start, n, sid, nextId);
    } else {
      if GoesOn(cfg, n.searches[asking]) {
        AskUntouched(x, n, sid, asking, FollowingRound(n.searches[asking]), nextId);
      }
      UntouchedSimulates(cfg, net, x, start, n, after, sid);
    }
  }

  lemma BeginOtherSimulates(cfg: Config, net: set<Msg>, x: nat, start: seq<Peer>, n: Node, asking: nat, sid: nat, nextId: nat)
    requires n.table.cfg == cfg && Simulates(cfg, net, x, start, n, sid) && asking != sid && forall r | r in n.waiting :: r < nextId
    ensures Simulates(cfg, net, x, start, OnBeginSearch(x, n, asking, nextId).node, sid)
  {
    var shortlist := Lookups.FindNode(n.table, x, cfg.alpha);
    if shortlist != [] {
      AskUntouched(x, n, sid, asking, SearchRun(State([], shortlist, []), shortlist[0], 0, false), nextId);
      UntouchedSimulates(cfg, net, x, start, n, OnBeginSearch(x, n, asking, nextId).node, sid);
    }
  }

  lemma DeliverSimulates(cfg: Config, net: set<Msg>, x: nat, start: seq<Peer>, n: Node, m: Msg, sid: nat, nextId: nat)
    requires n.table.cfg == cfg && Simulates(cfg, net, x, start, n, sid) && m in net
    requires m.Reply? && m.resId in n.waiting ==> m.from == n.waiting[m.resId].query.node && m.to == Own(x)
    ensures Simulates(cfg, net, x, start, HandleMessage(x, n, m, nextId).node, sid)
  {
    var learned := Learn(x, n, [m.from], nextId).node;
    UntouchedSimulates(cfg, net, x, start, n, learned, sid);
    if m.Reply? {
      ReplySimulates(cfg, net, x, start, learned, m, sid);
    }
  }

  // A reply that resolves a query comes from the queried node.
  predicate FromTarget(s: Net, step: Step)
    requires Enabled(s, step)
  {
    step.Deliver? && step.m.Reply? && step.m.resId in s.nodes[step.x].waiting ==>
      step.m.from == s.nodes[step.x].waiting[step.m.resId].query.node && step.m.to == Own(step.x)
  }

  // A search that goes on through a turn of its node goes on as specified.
  lemma TurnSimulates(s: Net, step: Step, start: seq<Peer>, sid: nat)
    requires Enabled(s, step) && Fresh(s) && FromTarget(s, step) && s.nodes[step.x].table.cfg == s.cfg
    requires Simulates(s.cfg, s.net, step.x, start, s.nodes[step.x], sid) && sid in React(s, step).node.searches
    ensures Simulates(s.cfg, s.net, step.x, start, React(s, step).node, sid)
  {
    var n, after := s.nodes[step.x], React(s, step).node;
    match step {
      case BeginSearch(x, asking) =>
        BeginOtherSimulates(s.cfg, s.net, x, start, n, asking, sid, s.nextId);
      case Timeout(x, resId) => TimeoutSimulates(s.cfg, s.net, x, start, n, resId, sid);
      case Proceed(x, asking) => ProceedTurnSimulates(s.cfg, s.net, x, start, n, asking, sid, s.nextId);
      case Deliver(x, m) =>
        DeliverSimulates(s.cfg, s.net, x, start, n, m, sid, s.nextId);
      case _ => UntouchedSimulates(s.cfg, s.net, step.x, start, n, after, sid);
    }
  }

  // ----- every run -----

  lemma {:induction false} ReachableFresh(run: seq<Net>, steps: seq<Step>, i: nat)
    requires IsRun(run, steps) && i < |run|
    ensures Fresh(run[i]) && run[i].cfg == run[0].cfg
  {
    if i > 0 {
      ReachableFresh(run, steps, i - 1);
      FreshKept(run[i - 1], steps[i - 1]);
    }
  }

  // The start of a search of node x in state s: what its own table answers.
  function StartOf(s: Net, x: nat): seq<Peer>
    requires x in s.nodes
  {
    Lookups.FindNode(s.nodes[x].table, x, s.cfg.alpha)
  }

  // The step k begins the search that is under way in state i.
  ghost predicate BegunAt(run: seq<Net>, steps: seq<Step>, k: nat, i: nat, x: nat, sid: nat)
    requires IsRun(run, steps)
  {
    && k < i < |run| && steps[k] == BeginSearch(x, sid)
    && forall j | k < j <= i :: x in run[j].nodes && sid in run[j].nodes[x].searches
  }

  // One step: a search goes on as specified, or has just begun so.
  lemma StepSimulates(s: Net, step: Step, x: nat, sid: nat, start: seq<Peer>)
    requires Enabled(s, step) && Fresh(s) && FromTarget(s, step) && x in s.nodes && s.nodes[x].table.cfg == s.cfg
    requires sid in Next(s, step).nodes[x].searches
    requires if sid in s.nodes[x].searches then Simulates(s.cfg, s.net, x, start, s.nodes[x], sid) else start == StartOf(s, x)
    ensures sid !in s.nodes[x].searches ==> step == BeginSearch(x, sid)
    ensures Simulates(s.cfg, Next(s, step).net, x, start, Next(s, step).nodes[x], sid)
  {
    if sid !in s.nodes[x].searches {
      BeginSimulates(s.cfg, s.net, x, s.nodes[x], sid, s.nextId);
    } else if step.x == x {
      TurnSimulates(s, step, start, sid);
    }
    MoreMessages(s.cfg, s.net, Next(s, step).net, x, start, Next(s, step).nodes[x], sid);
  }

  lemma RunFacts(run: seq<Net>, steps: seq<Step>, i: nat)
    requires IsRun(run, steps) && i < |steps|
    ensures Fresh(run[i]) && FromTarget(run[i], steps[i]) && run[i].cfg == run[0].cfg
    ensures forall x | x in run[i].nodes :: run[i].nodes[x].table.cfg == run[i].cfg
  {
    ReachableFresh(run, steps, i);
    SearchBounds.ReachableInv(run, steps, i);
    assert forall x | x in run[i].nodes :: NodeBounded(run[i].cfg, run[i].nodes[x]);
    Causality.ReachableInv(run, steps, i);
    RepliesFromTarget(run[i], steps[i]);
  }

  lemma RepliesFromTarget(s: Net, step: Step)
    requires Causality.Inv(s) && Enabled(s, step)
    ensures FromTarget(s, step)
  {
    if step.Deliver? && step.m.Reply? && step.m.resId in s.nodes[step.x].waiting {
      Causality.ReplyIsFromTarget(s, step.x, step.m);
    }
  }

  lemma BegunLater(run: seq<Net>, steps: seq<Step>, k: nat, i: nat, x: nat, sid: nat)
    requires IsRun(run, steps) && BegunAt(run, steps, k, i, x, sid) && i + 1 < |run|
    requires x in run[i + 1].nodes && sid in run[i + 1].nodes[x].searches
    ensures BegunAt(run, steps, k, i + 1, x, sid)
  {
  }

  // In state i the search begun by step k is where the specified search from the table of that time can be.
  ghost predicate SimulatedAt(run: seq<Net>, steps: seq<Step>, k: nat, i: nat, x: nat, sid: nat)
    requires IsRun(run, steps)
  {
    && BegunAt(run, steps, k, i, x, sid) && x in run[k].nodes
    && Simulates(run[i].cfg, run[i].net, x, StartOf(run[k], x), run[i].nodes[x], sid)
  }

  lemma NodesStay(run: seq<Net>, steps: seq<Step>, i: nat)
    requires IsRun(run, steps) && i < |steps|
    ensures run[i + 1].nodes.Keys == run[i].nodes.Keys
  {
    assert run[i + 1] == Next(run[i], steps[i]);
  }

  lemma NextSimulated(run: seq<Net>, steps: seq<Step>, k: nat, i: nat, x: nat, sid: nat)
    requires IsRun(run, steps) && i < |steps| && x in run[i].nodes && x in run[i + 1].nodes && sid in run[i + 1].nodes[x].searches
    requires if sid in run[i].nodes[x].searches then SimulatedAt(run, steps, k, i, x, sid) else k == i
    ensures SimulatedAt(run, steps, k, i + 1, x, sid)
  {
    assert run[i + 1] == Next(run[i], steps[i]);
    RunFacts(run, steps, i);
    StepSimulates(run[i], steps[i], x, sid, StartOf(run[k], x));
    if k < i {
      BegunLater(run, steps, k, i, x, sid);
    }
  }

  lemma {:induction false} SearchIsSimulated(run: seq<Net>, steps: seq<Step>, i: nat, x: nat, sid: nat) returns (k: nat)
    requires IsRun(run, steps) && i < |run| && x in run[i].nodes && sid in run[i].nodes[x].searches
    ensures SimulatedAt(run, steps, k, i, x, sid)
  {
    if i > 0 {
      NodesStay(run, steps, i - 1);
      k := i - 1;
      if sid in run[i - 1].nodes[x].searches {
        k := SearchIsSimulated(run, steps, i - 1, x, sid);
      }
      NextSimulated(run, steps, k, i - 1, x, sid);
    }
  }

  // A search that ends on the network ends in the state that the specified search reaches from the answer of
  // the node's table at its beginning, in an environment whose replies were all sent by the queried nodes.
  lemma NetworkSearchAsSpecified(run: seq<Net>, steps: seq<Step>, i: nat, x: nat, sid: nat) returns (k: nat, env: Env)
    requires IsRun(run, steps) && i < |steps| && steps[i] == Proceed(x, sid) && !GoesOn(run[i].cfg, run[i].nodes[x].searches[sid])
    ensures BegunAt(run, steps, k, i, x, sid)
    ensures var st := run[i].nodes[x].searches[sid].st;
            && st == FindNodes(env, run[i].cfg, x, StartOf(run[k], x))
            && forall q | q in st.sent :: Truthful(env, run[i].net, x, q)
  {
    var s := run[i];
    var n, cfg := s.nodes[x], s.cfg;
    k := SearchIsSimulated(run, steps, i, x, sid);
    var begun, search := StartOf(run[k], x), n.searches[sid];
    var env0, ids, pending :| SimulatedBy(env0, ids, pending, cfg, s.net, x, begun, n, sid);
    PendingMeansWaiting(n, sid, search, ids, pending);
    env := env0;
    assert SamePast(env, env, search.round, pending);
  }

  // So it keeps the bounds and the windows of the specified search: no position is queried twice, its contacts
  // are exactly those that answered, and nobody who answered in an earlier round is queried again.
  lemma NetworkSearchWindows(run: seq<Net>, steps: seq<Step>, i: nat, x: nat, sid: nat) returns (env: Env)
    requires IsRun(run, steps) && i < |steps| && steps[i] == Proceed(x, sid) && !GoesOn(run[i].cfg, run[i].nodes[x].searches[sid])
    ensures var cfg, st := run[i].cfg, run[i].nodes[x].searches[sid].st;
            && |st.sent| <= cfg.alpha * cfg.bits && |st.contacts| <= cfg.bits - 1 + cfg.alpha
            && (forall q | q in st.sent :: q.round < cfg.bits && InWindow(cfg, st.shortlist, q))
            && (forall a, b | 0 <= a < b < |st.sent| :: st.sent[a].position < st.sent[b].position)
            && (forall q | q in st.sent :: Truthful(env, run[i].net, x, q))
            && Ids(st.contacts) == AnsweredBy(env, st.sent)
            && NoneAskedAgain(env, st.sent)
  {
    var k;
    k, env := NetworkSearchAsSpecified(run, steps, i, x, sid);
    FindNodesBounds(env, run[i].cfg, x, StartOf(run[k], x));
    FindNodesWindows(env, run[i].cfg, x, StartOf(run[k], x));
  }

  lemma BegunFromSomebody(run: seq<Net>, steps: seq<Step>, k: nat, i: nat, x: nat, sid: nat)
    requires IsRun(run, steps) && BegunAt(run, steps, k, i, x, sid) && x in run[k].nodes
    ensures StartOf(run[k], x) != []
  {
    Effects.SearchBegins(run, steps, k, x, sid);
    assert Enabled(run[k], steps[k]);
    assert sid !in run[k].nodes[x].searches && sid in run[k + 1].nodes[x].searches;
  }

  // And it takes the whole course of the specified search: every round that a closer peer calls for is run,
  // and asks everybody it has to.
  lemma NetworkSearchCourse(run: seq<Net>, steps: seq<Step>, i: nat, x: nat, sid: nat)
      returns (k: nat, env: Env, sizes: seq<nat>)
    requires IsRun(run, steps) && i < |steps| && steps[i] == Proceed(x, sid) && !GoesOn(run[i].cfg, run[i].nodes[x].searches[sid])
    ensures BegunAt(run, steps, k, i, x, sid) && StartOf(run[k], x) != []
    ensures var cfg, st, start := run[i].cfg, run[i].nodes[x].searches[sid].st, StartOf(run[k], x);
            && (forall q | q in st.sent :: Truthful(env, run[i].net, x, q))
            && SearchRounds.RoundsRan(env, cfg, x, start[0], start, sizes, st)
            && SearchRounds.Over(env, cfg, x, start[0], sizes, st)
  {
    k, env := NetworkSearchAsSpecified(run, steps, i, x, sid);
    BegunFromSomebody(run, steps, k, i, x, sid);
    sizes := SearchRounds.FindNodesCourse(env, run[i].cfg, x, StartOf(run[k], x));
  }
}
