// The recursive peer search: rounds of concurrent queries that share a growing shortlist and contact map.
module Searches {
  import opened Metric
  import opened Peers
  import opened Tables

  // How a FIND_NODE query ends: with the peers of the reply, or with a timeout or error.
  datatype Outcome = Answer(nodes: seq<Peer>) | Failure

  datatype Query = Query(round: nat, position: nat, node: Peer)

  // `contacts` is the contact map in insertion order, `sent` the queries sent so far.
  datatype State = State(contacts: seq<Peer>, shortlist: seq<Peer>, sent: seq<Query>)

  // Everything a search cannot control: the outcome of the query sent in a round for a shortlist position,
  // and which of the pending queries of a round completes next.
  datatype Env = Env(outcome: (nat, nat) -> Outcome, next: (nat, seq<nat>) -> nat) {
    function Pick(round: nat, pending: seq<nat>): (i: nat)
      requires pending != []
      ensures i < |pending|
    {
      next(round, pending) % |pending|
    }
  }

  function SetContact(contacts: seq<Peer>, p: Peer): seq<Peer> {
    if p.nodeId in Ids(contacts) then contacts[IndexOf(contacts, p.nodeId) := p] else contacts + [p]
  }

  // Some listed peer is in a lower bucket than the candidate.
  predicate HasCloser(cfg: Config, self: nat, candidate: Peer, nodes: seq<Peer>) {
    exists p | p in nodes :: BucketIndex(self, p.nodeId, cfg.bits) < BucketIndex(self, candidate.nodeId, cfg.bits)
  }

  function Completed(st: State, node: Peer, o: Outcome): State {
    match o
    case Failure => st
    case Answer(nodes) => st.(contacts := SetContact(st.contacts, node), shortlist := st.shortlist + nodes)
  }

  predicate Updates(cfg: Config, self: nat, candidate: Peer, o: Outcome) {
    o.Answer? && HasCloser(cfg, self, candidate, o.nodes)
  }

  // Positions from `lo` up to `hi` whose peer has not been contacted.
  function Uncontacted(st: State, lo: nat, hi: nat): seq<nat>
    decreases hi - lo
  {
    if lo >= hi || lo >= |st.shortlist| then []
    else (if st.shortlist[lo].nodeId in Ids(st.contacts) then [] else [lo]) + Uncontacted(st, lo + 1, hi)
  }

  // Where the slice of the shortlist that a round looks at starts.
  function WindowStart(cfg: Config, round: nat): nat {
    if round == 0 then 0 else WindowStart(cfg, round - 1) + cfg.alpha
  }

  lemma {:induction false} WindowStartIs(cfg: Config, round: nat)
    ensures WindowStart(cfg, round) == round * cfg.alpha
  {
    if round > 0 {
      WindowStartIs(cfg, round - 1);
      assert round * cfg.alpha == (round - 1) * cfg.alpha + cfg.alpha;
    }
  }

  function Window(cfg: Config, st: State, round: nat): seq<nat> {
    Uncontacted(st, WindowStart(cfg, round), WindowStart(cfg, round) + cfg.alpha)
  }

  predicate Within(positions: seq<nat>, n: nat) {
    forall i | 0 <= i < |positions| :: positions[i] < n
  }

  lemma WithinWithout(positions: seq<nat>, i: nat, n: nat)
    requires i < |positions| && Within(positions, n)
    ensures Within(positions[..i] + positions[i + 1..], n)
  {
  }

  function Queries(st: State, round: nat, positions: seq<nat>): seq<Query>
    requires Within(positions, |st.shortlist|)
  {
    seq(|positions|, i requires 0 <= i < |positions| => Query(round, positions[i], st.shortlist[positions[i]]))
  }

  // The pending queries of a round complete one by one, in the order the environment picks.
  function Finish(env: Env, cfg: Config, self: nat, candidate: Peer, round: nat, pending: seq<nat>, st: State): (r: (State, bool))
    requires Within(pending, |st.shortlist|)
    decreases |pending|
  {
    if pending == [] then (st, false)
    else
      var i := env.Pick(round, pending);
      var o := env.outcome(round, pending[i]);
      WithinWithout(pending, i, |st.shortlist|);
      var rest := Finish(env, cfg, self, candidate, round, pending[..i] + pending[i + 1..],
                         Completed(st, st.shortlist[pending[i]], o));
      (rest.0, rest.1 || Updates(cfg, self, candidate, o))
  }

  function Round(env: Env, cfg: Config, self: nat, candidate: Peer, round: nat, st: State): (State, bool) {
    WindowMembers(cfg, st, round);
    var window := Window(cfg, st, round);
    assert Within(window, |st.shortlist|);
    Finish(env, cfg, self, candidate, round, window, st.(sent := st.sent + Queries(st, round, window)))
  }

  function Search(env: Env, cfg: Config, self: nat, candidate: Peer, round: nat, st: State): State
    requires DistinctIds(st.contacts)
    decreases cfg.bits - |st.contacts|
  {
    if Window(cfg, st, round) == [] then st
    else
      RoundContacts(env, cfg, self, candidate, round, st);
      var r := Round(env, cfg, self, candidate, round, st);
      if r.1 && |r.0.contacts| < cfg.bits then Search(env, cfg, self, candidate, round + 1, r.0) else r.0
  }

  // The positions of a window are increasing, inside it, and not contacted yet.
  lemma {:induction false} UncontactedMembers(st: State, lo: nat, hi: nat)
    ensures var u := Uncontacted(st, lo, hi);
            && (forall i | 0 <= i < |u| :: lo <= u[i] < hi && u[i] < |st.shortlist| && st.shortlist[u[i]].nodeId !in Ids(st.contacts))
            && (forall i, j | 0 <= i < j < |u| :: u[i] < u[j])
            && (lo <= hi ==> |u| <= hi - lo)
    decreases hi - lo
  {
    if lo < hi && lo < |st.shortlist| {
      UncontactedMembers(st, lo + 1, hi);
    }
  }

  lemma UncontactedStep(st: State, lo: nat, hi: nat)
    requires lo < hi && lo < |st.shortlist|
    ensures Uncontacted(st, lo, hi) ==
            (if st.shortlist[lo].nodeId in Ids(st.contacts) then [] else [lo]) + Uncontacted(st, lo + 1, hi)
  {
  }

  // One step of the loop over a slice: what has been gathered so far, and what is still to come.
  lemma SliceStep(cfg: Config, st: State, round: nat, got: seq<nat>, lo: nat, hi: nat)
    requires Window(cfg, st, round) == got + Uncontacted(st, lo, hi) && lo < hi && lo < |st.shortlist|
    ensures Window(cfg, st, round) ==
            (if st.shortlist[lo].nodeId in Ids(st.contacts) then got else got + [lo]) + Uncontacted(st, lo + 1, hi)
  {
    UncontactedStep(st, lo, hi);
  }

  lemma QueriesNext(st: State, round: nat, positions: seq<nat>, pos: nat)
    requires Within(positions, |st.shortlist|) && pos < |st.shortlist|
    ensures Within(positions + [pos], |st.shortlist|)
    ensures Queries(st, round, positions + [pos]) == Queries(st, round, positions) + [Query(round, pos, st.shortlist[pos])]
  {
  }

  // They are all such positions.
  lemma {:induction false} UncontactedAll(st: State, lo: nat, hi: nat)
    ensures forall i: nat :: i in Uncontacted(st, lo, hi) <==>
              lo <= i < hi && i < |st.shortlist| && st.shortlist[i].nodeId !in Ids(st.contacts)
    decreases hi - lo
  {
    if lo < hi && lo < |st.shortlist| {
      UncontactedAll(st, lo + 1, hi);
    }
  }

  // A round looks at every position of its slice of the shortlist whose peer has not been contacted.
  lemma WindowExactly(cfg: Config, st: State, round: nat)
    ensures forall i: nat :: i in Window(cfg, st, round) <==>
              WindowStart(cfg, round) <= i < WindowStart(cfg, round) + cfg.alpha && i < |st.shortlist| &&
              st.shortlist[i].nodeId !in Ids(st.contacts)
  {
    UncontactedAll(st, WindowStart(cfg, round), WindowStart(cfg, round) + cfg.alpha);
  }

  // The same of the window of a round.
  lemma WindowMembers(cfg: Config, st: State, round: nat)
    ensures var w, low := Window(cfg, st, round), WindowStart(cfg, round);
            && Within(w, |st.shortlist|) && NotContacted(st, w) && |w| <= cfg.alpha
            && (forall i | 0 <= i < |w| :: low <= w[i] < low + cfg.alpha)
            && (forall i, j | 0 <= i < j < |w| :: w[i] < w[j])
  {
    UncontactedMembers(st, WindowStart(cfg, round), WindowStart(cfg, round) + cfg.alpha);
  }

  // ----- what one round does, whatever the order of completion -----

  // Ids at the pending positions whose query is answered.
  function Answered(env: Env, round: nat, pending: seq<nat>, shortlist: seq<Peer>): set<nat>
    requires Within(pending, |shortlist|)
  {
    set i | 0 <= i < |pending| && env.outcome(round, pending[i]).Answer? :: shortlist[pending[i]].nodeId
  }

  // The peers that an outcome lists, and those that all pending queries will list.
  function ListedBy(o: Outcome): multiset<Peer> {
    match o case Answer(nodes) => multiset(nodes) case Failure => multiset{}
  }

  function Listed(env: Env, round: nat, pending: seq<nat>): multiset<Peer> {
    if pending == [] then multiset{} else ListedBy(env.outcome(round, pending[0])) + Listed(env, round, pending[1..])
  }

  lemma CompletedEffect(st: State, node: Peer, o: Outcome)
    ensures var r := Completed(st, node, o);
            && st.shortlist <= r.shortlist && r.sent == st.sent
            && multiset(r.shortlist) == multiset(st.shortlist) + ListedBy(o)
            && (DistinctIds(st.contacts) ==>
                  DistinctIds(r.contacts) && Ids(r.contacts) == Ids(st.contacts) + if o.Answer? then {node.nodeId} else {})
  {
    if DistinctIds(st.contacts) {
      SetContactIds(st.contacts, node);
    }
  }

  lemma SetContactIds(contacts: seq<Peer>, p: Peer)
    requires DistinctIds(contacts)
    ensures DistinctIds(SetContact(contacts, p)) && Ids(SetContact(contacts, p)) == Ids(contacts) + {p.nodeId}
    ensures forall q | q in SetContact(contacts, p) :: q in contacts || q == p
  {
    var r := SetContact(contacts, p);
    if p.nodeId in Ids(contacts) {
      var i := IndexOf(contacts, p.nodeId);
      assert r[i] == p;
      forall id | id in Ids(contacts)
        ensures id in Ids(r)
      {
        var q :| q in contacts && q.nodeId == id;
        var j :| 0 <= j < |contacts| && contacts[j] == q;
        assert r[j].nodeId == id && r[j] in r;
      }
    } else {
      forall j | 0 <= j < |contacts|
        ensures contacts[j].nodeId != p.nodeId
      {
        assert contacts[j] in contacts;
      }
    }
  }

  lemma ListedSplit(env: Env, round: nat, pending: seq<nat>, i: nat)
    requires i < |pending|
    ensures Listed(env, round, pending) ==
            ListedBy(env.outcome(round, pending[i])) + Listed(env, round, pending[..i] + pending[i + 1..])
    decreases i
  {
    var rest := pending[..i] + pending[i + 1..];
    if i == 0 {
      assert rest == pending[1..];
    } else {
      ListedSplit(env, round, pending[1..], i - 1);
      assert rest[1..] == pending[1..][..i - 1] + pending[1..][i..];
    }
  }

  lemma AnsweredSplit(env: Env, round: nat, pending: seq<nat>, i: nat, shortlist: seq<Peer>)
    requires i < |pending| && Within(pending, |shortlist|)
    ensures Within(pending[..i] + pending[i + 1..], |shortlist|)
    ensures Answered(env, round, pending, shortlist) ==
            Answered(env, round, pending[..i] + pending[i + 1..], shortlist) +
            (if env.outcome(round, pending[i]).Answer? then {shortlist[pending[i]].nodeId} else {})
  {
    var rest := pending[..i] + pending[i + 1..];
    assert forall j | 0 <= j < |rest| :: rest[j] == pending[if j < i then j else j + 1];
    assert forall j | 0 <= j < |pending| && j != i :: pending[j] == rest[if j < i then j else j - 1];
  }

  predicate SomeUpdate(env: Env, cfg: Config, self: nat, candidate: Peer, round: nat, pending: seq<nat>) {
    exists i | 0 <= i < |pending| :: Updates(cfg, self, candidate, env.outcome(round, pending[i]))
  }

  lemma SomeUpdateSplit(env: Env, cfg: Config, self: nat, candidate: Peer, round: nat, pending: seq<nat>, i: nat)
    requires i < |pending|
    ensures SomeUpdate(env, cfg, self, candidate, round, pending) <==>
            SomeUpdate(env, cfg, self, candidate, round, pending[..i] + pending[i + 1..]) ||
            Updates(cfg, self, candidate, env.outcome(round, pending[i]))
  {
    var rest := pending[..i] + pending[i + 1..];
    assert forall j | 0 <= j < |rest| :: rest[j] == pending[if j < i then j else j + 1];
    assert forall j | 0 <= j < |pending| && j != i :: pending[j] == rest[if j < i then j else j - 1];
  }

  // One completion, and the rest of the round after it.
  lemma FinishStep(env: Env, cfg: Config, self: nat, candidate: Peer, round: nat, pending: seq<nat>, st: State)
      returns (i: nat, o: Outcome, after: State, rest: seq<nat>)
    requires Within(pending, |st.shortlist|) && pending != []
    ensures i == env.Pick(round, pending) && o == env.outcome(round, pending[i]) && rest == pending[..i] + pending[i + 1..]
    ensures after == Completed(st, st.shortlist[pending[i]], o) && st.shortlist <= after.shortlist && Within(rest, |after.shortlist|)
    ensures var r, s := Finish(env, cfg, self, candidate, round, pending, st), Finish(env, cfg, self, candidate, round, rest, after);
            r.0 == s.0 && r.1 == (s.1 || Updates(cfg, self, candidate, o))
  {
    i := env.Pick(round, pending);
    o := env.outcome(round, pending[i]);
    rest := pending[..i] + pending[i + 1..];
    after := Completed(st, st.shortlist[pending[i]], o);
    WithinWithout(pending, i, |st.shortlist|);
  }

  // The contacts after a round, in terms that do not mention the order of completion.
  lemma {:induction false} FinishContacts(
    env: Env, cfg: Config, self: nat, candidate: Peer, round: nat, pending: seq<nat>, st: State)
    requires DistinctIds(st.contacts) && Within(pending, |st.shortlist|)
    ensures var r := Finish(env, cfg, self, candidate, round, pending, st).0;
            DistinctIds(r.contacts) && Ids(r.contacts) == Ids(st.contacts) + Answered(env, round, pending, st.shortlist)
    decreases |pending|
  {
    if pending != [] {
      var i, o, after, rest := FinishStep(env, cfg, self, candidate, round, pending, st);
      AnsweredSplit(env, round, pending, i, st.shortlist);
      CompletedEffect(st, st.shortlist[pending[i]], o);
      FinishContacts(env, cfg, self, candidate, round, rest, after);
      AnsweredInLonger(env, round, rest, st.shortlist, after.shortlist);
    }
  }

  lemma AnsweredInLonger(env: Env, round: nat, pending: seq<nat>, shortlist: seq<Peer>, longer: seq<Peer>)
    requires Within(pending, |shortlist|) && shortlist <= longer
    ensures Answered(env, round, pending, longer) == Answered(env, round, pending, shortlist)
  {
  }

  // Likewise the shortlist,
  lemma {:induction false} FinishShortlist(
    env: Env, cfg: Config, self: nat, candidate: Peer, round: nat, pending: seq<nat>, st: State)
    requires Within(pending, |st.shortlist|)
    ensures multiset(Finish(env, cfg, self, candidate, round, pending, st).0.shortlist) ==
            multiset(st.shortlist) + Listed(env, round, pending)
    decreases |pending|
  {
    if pending != [] {
      var i, o, after, rest := FinishStep(env, cfg, self, candidate, round, pending, st);
      CompletedEffect(st, st.shortlist[pending[i]], o);
      FinishShortlist(env, cfg, self, candidate, round, rest, after);
      ListedSplit(env, round, pending, i);
    }
  }

  // which only grows at its end,
  lemma {:induction false} FinishAppends(
    env: Env, cfg: Config, self: nat, candidate: Peer, round: nat, pending: seq<nat>, st: State)
    requires Within(pending, |st.shortlist|)
    ensures var r := Finish(env, cfg, self, candidate, round, pending, st).0;
            st.shortlist <= r.shortlist && r.sent == st.sent
    decreases |pending|
  {
    if pending != [] {
      var i, o, after, rest := FinishStep(env, cfg, self, candidate, round, pending, st);
      FinishAppends(env, cfg, self, candidate, round, rest, after);
    }
  }

  // and the verdict: some reply of the round lists a peer in a lower bucket than the candidate's.
  lemma {:induction false} FinishVerdict(
    env: Env, cfg: Config, self: nat, candidate: Peer, round: nat, pending: seq<nat>, st: State)
    requires Within(pending, |st.shortlist|)
    ensures Finish(env, cfg, self, candidate, round, pending, st).1 <==> SomeUpdate(env, cfg, self, candidate, round, pending)
    decreases |pending|
  {
    if pending != [] {
      var i, o, after, rest := FinishStep(env, cfg, self, candidate, round, pending, st);
      SomeUpdateSplit(env, cfg, self, candidate, round, pending, i);
      FinishVerdict(env, cfg, self, candidate, round, rest, after);
    }
  }

  lemma RoundOutcome(env: Env, cfg: Config, self: nat, candidate: Peer, round: nat, pending: seq<nat>, st: State)
    requires DistinctIds(st.contacts) && Within(pending, |st.shortlist|)
    ensures var r := Finish(env, cfg, self, candidate, round, pending, st);
            && Ids(r.0.contacts) == Ids(st.contacts) + Answered(env, round, pending, st.shortlist)
            && multiset(r.0.shortlist) == multiset(st.shortlist) + Listed(env, round, pending)
            && r.1 == SomeUpdate(env, cfg, self, candidate, round, pending)
  {
    FinishContacts(env, cfg, self, candidate, round, pending, st);
    FinishShortlist(env, cfg, self, candidate, round, pending, st);
    FinishVerdict(env, cfg, self, candidate, round, pending, st);
  }

  // For the same replies and failures, every order of completion leaves the same contact ids, the same
  // shortlist up to order, and the same decision whether to go on.
  lemma ReplyOrderIrrelevant(env: Env, other: Env, cfg: Config, self: nat, candidate: Peer, round: nat, pending: seq<nat>, st: State)
    requires DistinctIds(st.contacts) && Within(pending, |st.shortlist|)
    requires forall p :: env.outcome(round, p) == other.outcome(round, p)
    ensures var r, s := Finish(env, cfg, self, candidate, round, pending, st), Finish(other, cfg, self, candidate, round, pending, st);
            && Ids(r.0.contacts) == Ids(s.0.contacts)
            && multiset(r.0.shortlist) == multiset(s.0.shortlist)
            && r.1 == s.1
  {
    RoundOutcome(env, cfg, self, candidate, round, pending, st);
    RoundOutcome(other, cfg, self, candidate, round, pending, st);
    SameListed(env, other, round, pending);
    SameAnswered(env, other, cfg, self, candidate, round, pending, st.shortlist);
  }

  lemma SameAnswered(env: Env, other: Env, cfg: Config, self: nat, candidate: Peer, round: nat, pending: seq<nat>, shortlist: seq<Peer>)
    requires Within(pending, |shortlist|) && forall p :: env.outcome(round, p) == other.outcome(round, p)
    ensures Answered(env, round, pending, shortlist) == Answered(other, round, pending, shortlist)
    ensures SomeUpdate(env, cfg, self, candidate, round, pending) == SomeUpdate(other, cfg, self, candidate, round, pending)
  {
  }

  lemma {:induction false} SameListed(env: Env, other: Env, round: nat, pending: seq<nat>)
    requires forall p :: env.outcome(round, p) == other.outcome(round, p)
    ensures Listed(env, round, pending) == Listed(other, round, pending)
  {
    if pending != [] {
      SameListed(env, other, round, pending[1..]);
    }
  }

  predicate NotContacted(st: State, pending: seq<nat>) {
    forall i | 0 <= i < |pending| :: pending[i] < |st.shortlist| && st.shortlist[pending[i]].nodeId !in Ids(st.contacts)
  }

  lemma FinishMeets(env: Env, cfg: Config, self: nat, candidate: Peer, round: nat, pending: seq<nat>, st: State)
    requires DistinctIds(st.contacts) && NotContacted(st, pending)
    ensures var r := Finish(env, cfg, self, candidate, round, pending, st);
            && (r.1 ==> |r.0.contacts| > |st.contacts|)
            && |st.contacts| <= |r.0.contacts| <= |st.contacts| + |pending|
  {
    FinishContacts(env, cfg, self, candidate, round, pending, st);
    FinishVerdict(env, cfg, self, candidate, round, pending, st);
    var r := Finish(env, cfg, self, candidate, round, pending, st);
    var met := Answered(env, round, pending, st.shortlist);
    MeetingCounts(st.contacts, r.0.contacts, met);
    AnsweredBound(env, round, pending, st.shortlist);
    if r.1 {
      var i :| 0 <= i < |pending| && Updates(cfg, self, candidate, env.outcome(round, pending[i]));
      assert st.shortlist[pending[i]].nodeId in met;
    }
  }

  // A round that asks for another one has contacted somebody new.
  lemma RoundContacts(env: Env, cfg: Config, self: nat, candidate: Peer, round: nat, st: State)
    requires DistinctIds(st.contacts)
    ensures var r := Round(env, cfg, self, candidate, round, st);
            && DistinctIds(r.0.contacts)
            && (r.1 ==> |r.0.contacts| > |st.contacts|)
            && |st.contacts| <= |r.0.contacts| <= |st.contacts| + cfg.alpha
  {
    var window := Window(cfg, st, round);
    WindowMembers(cfg, st, round);
    var sent := st.(sent := st.sent + Queries(st, round, window));
    assert NotContacted(sent, window);
    FinishMeets(env, cfg, self, candidate, round, window, sent);
    FinishContacts(env, cfg, self, candidate, round, window, sent);
  }

  lemma MeetingCounts(before: seq<Peer>, after: seq<Peer>, met: set<nat>)
    requires DistinctIds(before) && DistinctIds(after) && Ids(after) == Ids(before) + met && Ids(before) !! met
    ensures |after| == |before| + |met|
  {
    IdsCount(before);
    IdsCount(after);
  }

  lemma AnsweredBound(env: Env, round: nat, pending: seq<nat>, shortlist: seq<Peer>)
    requires Within(pending, |shortlist|)
    ensures |Answered(env, round, pending, shortlist)| <= |pending|
  {
    var asked := seq(|pending|, i requires 0 <= i < |pending| => shortlist[pending[i]]);
    forall id | id in Answered(env, round, pending, shortlist)
      ensures id in Ids(asked)
    {
      var i :| 0 <= i < |pending| && shortlist[pending[i]].nodeId == id;
      assert asked[i] in asked;
    }
    IdsAtMost(asked);
    SubsetSize(Answered(env, round, pending, shortlist), Ids(asked));
  }

  // ----- the whole search -----

  // Each query was sent from its round's window of the shortlist, and the windows are read left to right.
  ghost predicate SentOk(cfg: Config, shortlist: seq<Peer>, sent: seq<Query>, rounds: nat) {
    && (forall i | 0 <= i < |sent| :: InWindow(cfg, shortlist, sent[i]) && sent[i].round < rounds)
    && (forall i, j | 0 <= i < j < |sent| :: sent[i].position < sent[j].position)
    && |sent| <= WindowStart(cfg, rounds)
  }

  predicate InWindow(cfg: Config, shortlist: seq<Peer>, q: Query) {
    && WindowStart(cfg, q.round) <= q.position < WindowStart(cfg, q.round) + cfg.alpha
    && q.position < |shortlist|
    && q.node == shortlist[q.position]
  }

  predicate WasAnswered(env: Env, q: Query) {
    env.outcome(q.round, q.position).Answer?
  }

  function AnsweredBy(env: Env, sent: seq<Query>): set<nat> {
    set i | 0 <= i < |sent| && WasAnswered(env, sent[i]) :: sent[i].node.nodeId
  }

  // Who answered in an earlier round is not asked again.
  ghost predicate NoneAskedAgain(env: Env, sent: seq<Query>) {
    forall i, j | 0 <= i < j < |sent| && sent[i].round < sent[j].round && WasAnswered(env, sent[i]) ::
      sent[i].node.nodeId != sent[j].node.nodeId
  }

  ghost predicate Inv(env: Env, cfg: Config, start: seq<Peer>, rounds: nat, st: State) {
    && start <= st.shortlist
    && DistinctIds(st.contacts)
    && SentOk(cfg, st.shortlist, st.sent, rounds)
    && Ids(st.contacts) == AnsweredBy(env, st.sent)
    && NoneAskedAgain(env, st.sent)
  }

  // Earlier rounds stayed below the window of a later one.
  lemma SentBefore(cfg: Config, shortlist: seq<Peer>, sent: seq<Query>, round: nat)
    requires SentOk(cfg, shortlist, sent, round)
    ensures forall i | 0 <= i < |sent| :: sent[i].position < WindowStart(cfg, round)
  {
    forall i | 0 <= i < |sent|
      ensures sent[i].position < WindowStart(cfg, round)
    {
      assert InWindow(cfg, shortlist, sent[i]);
      WindowsInOrder(cfg, sent[i].round, round);
    }
  }

  lemma WindowQueries(cfg: Config, st: State, round: nat)
    ensures var window := Window(cfg, st, round);
            && Within(window, |st.shortlist|)
            && var qs := Queries(st, round, window);
              && |qs| <= cfg.alpha
              && (forall i | 0 <= i < |qs| :: InWindow(cfg, st.shortlist, qs[i]) && qs[i].round == round)
              && (forall i, j | 0 <= i < j < |qs| :: qs[i].position < qs[j].position)
  {
    WindowMembers(cfg, st, round);
  }

  lemma SentConcat(cfg: Config, shortlist: seq<Peer>, sent: seq<Query>, qs: seq<Query>, round: nat, low: nat)
    requires SentOk(cfg, shortlist, sent, round) && |qs| <= cfg.alpha && low == WindowStart(cfg, round)
    requires forall i | 0 <= i < |sent| :: sent[i].position < low
    requires forall i | 0 <= i < |qs| :: InWindow(cfg, shortlist, qs[i]) && qs[i].round == round
    requires forall i, j | 0 <= i < j < |qs| :: qs[i].position < qs[j].position
    ensures SentOk(cfg, shortlist, sent + qs, round + 1)
  {
    var all := sent + qs;
    forall i | 0 <= i < |all|
      ensures InWindow(cfg, shortlist, all[i]) && all[i].round < round + 1
    {
      assert all[i] == if i < |sent| then sent[i] else qs[i - |sent|];
    }
    forall i, j | 0 <= i < j < |all|
      ensures all[i].position < all[j].position
    {
      assert all[i] == if i < |sent| then sent[i] else qs[i - |sent|];
      assert all[j] == if j < |sent| then sent[j] else qs[j - |sent|];
      assert j >= |sent| ==> low <= all[j].position;
    }
  }

  lemma SentExtends(cfg: Config, st: State, round: nat, window: seq<nat>)
    requires SentOk(cfg, st.shortlist, st.sent, round) && window == Window(cfg, st, round) && Within(window, |st.shortlist|)
    ensures SentOk(cfg, st.shortlist, st.sent + Queries(st, round, window), round + 1)
  {
    SentBefore(cfg, st.shortlist, st.sent, round);
    WindowQueries(cfg, st, round);
    SentConcat(cfg, st.shortlist, st.sent, Queries(st, round, window), round, WindowStart(cfg, round));
  }

  lemma {:induction false} WindowsInOrder(cfg: Config, i: nat, j: nat)
    requires i < j
    ensures WindowStart(cfg, i) + cfg.alpha <= WindowStart(cfg, j)
  {
    if i + 1 < j {
      WindowsInOrder(cfg, i, j - 1);
    }
  }

  lemma LongerShortlist(cfg: Config, shortlist: seq<Peer>, longer: seq<Peer>, sent: seq<Query>, rounds: nat)
    requires SentOk(cfg, shortlist, sent, rounds) && shortlist <= longer
    ensures SentOk(cfg, longer, sent, rounds)
  {
    forall i | 0 <= i < |sent|
      ensures InWindow(cfg, longer, sent[i])
    {
      assert InWindow(cfg, shortlist, sent[i]);
    }
  }

  lemma AnsweredConcat(env: Env, a: seq<Query>, b: seq<Query>)
    ensures AnsweredBy(env, a + b) == AnsweredBy(env, a) + AnsweredBy(env, b)
  {
    var c := a + b;
    assert forall i | 0 <= i < |a| :: c[i] == a[i];
    assert forall i | 0 <= i < |b| :: c[|a| + i] == b[i];
    assert forall i | |a| <= i < |c| :: c[i] == b[i - |a|];
  }

  lemma AnsweredInRound(env: Env, st: State, round: nat, window: seq<nat>)
    requires Within(window, |st.shortlist|)
    ensures AnsweredBy(env, Queries(st, round, window)) == Answered(env, round, window, st.shortlist)
  {
    var qs := Queries(st, round, window);
    assert forall i | 0 <= i < |qs| :: WasAnswered(env, qs[i]) == env.outcome(round, window[i]).Answer?;
  }

  // New queries, all of one round, to nobody who has answered.
  lemma AskingStrangers(env: Env, sent: seq<Query>, qs: seq<Query>, round: nat)
    requires NoneAskedAgain(env, sent)
    requires forall i | 0 <= i < |qs| :: qs[i].round == round && qs[i].node.nodeId !in AnsweredBy(env, sent)
    ensures NoneAskedAgain(env, sent + qs)
  {
    var all := sent + qs;
    forall i, j | 0 <= i < j < |all| && all[i].round < all[j].round && WasAnswered(env, all[i])
      ensures all[i].node.nodeId != all[j].node.nodeId
    {
      if i < |sent| <= j {
        assert all[j] == qs[j - |sent|];
        assert sent[i].node.nodeId in AnsweredBy(env, sent);
      }
    }
  }

  // The queries of a round are sent.
  lemma RoundAsks(env: Env, cfg: Config, start: seq<Peer>, round: nat, st: State)
    requires Inv(env, cfg, start, round, st)
    ensures var window := Window(cfg, st, round);
            && Within(window, |st.shortlist|)
            && var all := st.sent + Queries(st, round, window);
              && SentOk(cfg, st.shortlist, all, round + 1) && NoneAskedAgain(env, all)
              && AnsweredBy(env, all) == Ids(st.contacts) + Answered(env, round, window, st.shortlist)
  {
    var window := Window(cfg, st, round);
    WindowMembers(cfg, st, round);
    SentExtends(cfg, st, round, window);
    AnsweredConcat(env, st.sent, Queries(st, round, window));
    AnsweredInRound(env, st, round, window);
    AskingStrangers(env, st.sent, Queries(st, round, window), round);
  }

  lemma RoundKeepsInv(env: Env, cfg: Config, self: nat, candidate: Peer, start: seq<Peer>, round: nat, st: State)
    requires Inv(env, cfg, start, round, st)
    ensures Inv(env, cfg, start, round + 1, Round(env, cfg, self, candidate, round, st).0)
  {
    var window := Window(cfg, st, round);
    RoundAsks(env, cfg, start, round, st);
    var asked := st.(sent := st.sent + Queries(st, round, window));
    FinishContacts(env, cfg, self, candidate, round, window, asked);
    FinishAppends(env, cfg, self, candidate, round, window, asked);
    LongerShortlist(cfg, st.shortlist, Round(env, cfg, self, candidate, round, st).0.shortlist, asked.sent, round + 1);
  }

  // For every pattern of replies, failures and completion orders the search stops within BIT_SIZE rounds.
  lemma {:induction false} SearchKeepsInv(
    env: Env, cfg: Config, self: nat, candidate: Peer, start: seq<Peer>, round: nat, st: State) returns (rounds: nat)
    requires Inv(env, cfg, start, round, st) && round <= |st.contacts| < cfg.bits
    ensures var r := Search(env, cfg, self, candidate, round, st);
            rounds <= cfg.bits && Inv(env, cfg, start, rounds, r) && |r.contacts| < cfg.bits + cfg.alpha
    decreases cfg.bits - |st.contacts|
  {
    if Window(cfg, st, round) == [] {
      rounds := round;
    } else {
      RoundContacts(env, cfg, self, candidate, round, st);
      RoundKeepsInv(env, cfg, self, candidate, start, round, st);
      var r := Round(env, cfg, self, candidate, round, st);
      if r.1 && |r.0.contacts| < cfg.bits {
        rounds := SearchKeepsInv(env, cfg, self, candidate, start, round + 1, r.0);
      } else {
        rounds := round + 1;
      }
    }
  }

  // What `findNodes` hands back, and what it costs, for a shortlist from the node's own table.
  function FindNodes(env: Env, cfg: Config, self: nat, shortlist: seq<Peer>): State {
    if shortlist == [] then State([], [], []) else Search(env, cfg, self, shortlist[0], 0, State([], shortlist, []))
  }

  lemma FindNodesBounds(env: Env, cfg: Config, self: nat, shortlist: seq<Peer>)
    ensures var r := FindNodes(env, cfg, self, shortlist);
            && (forall q | q in r.sent :: q.round < cfg.bits)
            && |r.sent| <= cfg.alpha * cfg.bits
            && |r.contacts| <= cfg.bits - 1 + cfg.alpha
            && DistinctIds(r.contacts) && Ids(r.contacts) == AnsweredBy(env, r.sent)
  {
    if shortlist != [] {
      var rounds := SearchKeepsInv(env, cfg, self, shortlist[0], shortlist, 0, State([], shortlist, []));
      WindowStartIs(cfg, cfg.bits);
      if rounds < cfg.bits {
        WindowsInOrder(cfg, rounds, cfg.bits);
      }
    }
  }

  // The shortlist only grows, the windows taken are disjoint slices of it from left to right, no position
  // is queried twice, and nobody who answered in an earlier round is queried again.
  lemma FindNodesWindows(env: Env, cfg: Config, self: nat, shortlist: seq<Peer>)
    ensures var r := FindNodes(env, cfg, self, shortlist);
            && shortlist <= r.shortlist
            && (forall q | q in r.sent :: InWindow(cfg, r.shortlist, q))
            && (forall i, j | 0 <= i < j < |r.sent| :: r.sent[i].position < r.sent[j].position)
            && NoneAskedAgain(env, r.sent)
  {
    if shortlist != [] {
      var rounds := SearchKeepsInv(env, cfg, self, shortlist[0], shortlist, 0, State([], shortlist, []));
    }
  }
}
