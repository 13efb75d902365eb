// Which rounds a search runs and what each of them asks: the whole course of a search, read off its queries and
// their outcomes.
module SearchRounds {
  import opened Peers
  import opened Tables
  import opened Searches

  // The shortlist position `pos` was queried in round r.
  ghost predicate Asked(sent: seq<Query>, r: nat, pos: nat) {
    exists i :: 0 <= i < |sent| && sent[i].round == r && sent[i].position == pos
  }

  // Who answered before round r.
  function AnsweredBefore(env: Env, sent: seq<Query>, r: nat): set<nat> {
    set i | 0 <= i < |sent| && sent[i].round < r && WasAnswered(env, sent[i]) :: sent[i].node.nodeId
  }

  // How many peers the answers of round r list.
  function ListedIn(env: Env, sent: seq<Query>, r: nat): nat {
    if sent == [] then 0
    else
      var q := sent[|sent| - 1];
      var o := env.outcome(q.round, q.position);
      ListedIn(env, sent[..|sent| - 1], r) + (if q.round == r && o.Answer? then |o.nodes| else 0)
  }

  // Some answer of round r lists a peer in a lower bucket than the candidate's.
  ghost predicate FoundCloser(env: Env, cfg: Config, self: nat, candidate: Peer, sent: seq<Query>, r: nat) {
    exists i :: 0 <= i < |sent| && sent[i].round == r && Updates(cfg, self, candidate, env.outcome(r, sent[i].position))
  }

  // The position lies in the slice of round r, the shortlist had grown that far when the round began, and its
  // peer had not answered before.
  ghost predicate Due(env: Env, cfg: Config, st: State, size: nat, r: nat, pos: nat)
    requires size <= |st.shortlist|
  {
    && WindowStart(cfg, r) <= pos < WindowStart(cfg, r) + cfg.alpha
    && pos < size
    && st.shortlist[pos].nodeId !in AnsweredBefore(env, st.sent, r)
  }

  // `size` and `next` are the lengths of the shortlist when round r began and ended. The round asked exactly
  // whom it had to, at least one peer, and the shortlist gained what their answers list.
  ghost predicate RoundRan(env: Env, cfg: Config, st: State, size: nat, next: nat, r: nat) {
    && size <= |st.shortlist|
    && (forall pos: nat :: Asked(st.sent, r, pos) <==> Due(env, cfg, st, size, r, pos))
    && (exists pos: nat :: Asked(st.sent, r, pos))
    && next == size + ListedIn(env, st.sent, r)
  }

  // After round r another one may follow.
  ghost predicate Continues(env: Env, cfg: Config, self: nat, candidate: Peer, st: State, r: nat) {
    FoundCloser(env, cfg, self, candidate, st.sent, r) && |AnsweredBefore(env, st.sent, r + 1)| < cfg.bits
  }

  // `sizes` lists the lengths of the shortlist before, between and after the rounds.
  ghost predicate RoundsRan(env: Env, cfg: Config, self: nat, candidate: Peer, start: seq<Peer>, sizes: seq<nat>, st: State) {
    && |sizes| >= 1 && sizes[0] == |start| && sizes[|sizes| - 1] == |st.shortlist|
    && (forall i | 0 <= i < |st.sent| :: st.sent[i].round + 1 < |sizes|)
    && (forall r: nat | r + 1 < |sizes| :: RoundRan(env, cfg, st, sizes[r], sizes[r + 1], r))
    && (forall r: nat | r + 2 < |sizes| :: Continues(env, cfg, self, candidate, st, r))
  }

  // ----- queries of a later round -----

  ghost predicate AllOf(qs: seq<Query>, r: nat) {
    forall i | 0 <= i < |qs| :: qs[i].round == r
  }

  ghost predicate AllBefore(sent: seq<Query>, r: nat) {
    forall i | 0 <= i < |sent| :: sent[i].round < r
  }

  lemma AskedSplit(sent: seq<Query>, qs: seq<Query>, r: nat, pos: nat)
    ensures Asked(sent + qs, r, pos) <==> Asked(sent, r, pos) || Asked(qs, r, pos)
  {
    var all := sent + qs;
    assert forall i | 0 <= i < |qs| :: all[|sent| + i] == qs[i];
    assert forall i | |sent| <= i < |all| :: all[i] == qs[i - |sent|];
    assert forall i | 0 <= i < |sent| :: all[i] == sent[i];
  }

  lemma FoundSplit(env: Env, cfg: Config, self: nat, candidate: Peer, sent: seq<Query>, qs: seq<Query>, r: nat)
    ensures FoundCloser(env, cfg, self, candidate, sent + qs, r) <==>
            FoundCloser(env, cfg, self, candidate, sent, r) || FoundCloser(env, cfg, self, candidate, qs, r)
  {
    var all := sent + qs;
    assert forall i | 0 <= i < |qs| :: all[|sent| + i] == qs[i];
    assert forall i | |sent| <= i < |all| :: all[i] == qs[i - |sent|];
    assert forall i | 0 <= i < |sent| :: all[i] == sent[i];
  }

  lemma AnsweredBeforeSplit(env: Env, sent: seq<Query>, qs: seq<Query>, r: nat, round: nat)
    requires AllOf(qs, round) && r <= round
    ensures AnsweredBefore(env, sent + qs, r) == AnsweredBefore(env, sent, r)
  {
    var all := sent + qs;
    assert forall i | |sent| <= i < |all| :: all[i] == qs[i - |sent|];
    assert forall i | 0 <= i < |sent| :: all[i] == sent[i];
  }

  lemma AnsweredInAll(env: Env, sent: seq<Query>, r: nat)
    requires AllBefore(sent, r)
    ensures AnsweredBefore(env, sent, r) == AnsweredBy(env, sent)
  {
  }

  lemma {:induction false} ListedSplit(env: Env, sent: seq<Query>, qs: seq<Query>, r: nat)
    ensures ListedIn(env, sent + qs, r) == ListedIn(env, sent, r) + ListedIn(env, qs, r)
  {
    if qs == [] {
      assert sent + qs == sent;
    } else {
      assert (sent + qs)[..|sent + qs| - 1] == sent + qs[..|qs| - 1];
      ListedSplit(env, sent, qs[..|qs| - 1], r);
    }
  }

  lemma {:induction false} ListedNone(env: Env, sent: seq<Query>, r: nat)
    requires forall i | 0 <= i < |sent| :: sent[i].round != r
    ensures ListedIn(env, sent, r) == 0
  {
    if sent != [] {
      ListedNone(env, sent[..|sent| - 1], r);
    }
  }

  // The queries of one round list what its replies list.
  lemma {:induction false} ListedByRound(env: Env, st: State, round: nat, window: seq<nat>)
    requires Within(window, |st.shortlist|)
    ensures ListedIn(env, Queries(st, round, window), round) == |Listed(env, round, window)|
  {
    if window != [] {
      var last := |window| - 1;
      var front, qs := window[..last], Queries(st, round, window);
      assert qs[..last] == Queries(st, round, front);
      ListedByRound(env, st, round, front);
      Searches.ListedSplit(env, round, window, last);
      assert window[..last] + window[last + 1..] == front;
    }
  }

  // ----- one more round -----

  lemma RoundKept(env: Env, cfg: Config, st: State, after: State, qs: seq<Query>, size: nat, next: nat, r: nat, round: nat)
    requires RoundRan(env, cfg, st, size, next, r) && r < round && AllOf(qs, round)
    requires after.sent == st.sent + qs && st.shortlist <= after.shortlist
    ensures RoundRan(env, cfg, after, size, next, r)
  {
    forall pos: nat
      ensures Asked(after.sent, r, pos) <==> Asked(st.sent, r, pos)
    {
      AskedSplit(st.sent, qs, r, pos);
    }
    AnsweredBeforeSplit(env, st.sent, qs, r, round);
    ListedSplit(env, st.sent, qs, r);
    ListedNone(env, qs, r);
    forall pos: nat
      ensures Asked(after.sent, r, pos) <==> Due(env, cfg, after, size, r, pos)
    {
      assert Asked(st.sent, r, pos) <==> Due(env, cfg, st, size, r, pos);
    }
    var pos: nat :| Asked(st.sent, r, pos);
    assert Asked(after.sent, r, pos);
  }

  lemma ContinuesKept(env: Env, cfg: Config, self: nat, candidate: Peer, st: State, after: State, qs: seq<Query>, r: nat, round: nat)
    requires Continues(env, cfg, self, candidate, st, r) && r < round && AllOf(qs, round) && after.sent == st.sent + qs
    ensures Continues(env, cfg, self, candidate, after, r)
  {
    FoundSplit(env, cfg, self, candidate, st.sent, qs, r);
    AnsweredBeforeSplit(env, st.sent, qs, r + 1, round);
  }

  lemma AskedInRound(st: State, round: nat, window: seq<nat>, pos: nat)
    requires Within(window, |st.shortlist|)
    ensures Asked(Queries(st, round, window), round, pos) <==> pos in window
  {
    var qs := Queries(st, round, window);
    if pos in window {
      var i :| 0 <= i < |window| && window[i] == pos;
      assert qs[i].position == pos;
    }
  }

  lemma FoundInRound(env: Env, cfg: Config, self: nat, candidate: Peer, st: State, round: nat, window: seq<nat>)
    requires Within(window, |st.shortlist|)
    ensures FoundCloser(env, cfg, self, candidate, Queries(st, round, window), round) <==>
            SomeUpdate(env, cfg, self, candidate, round, window)
  {
    var qs := Queries(st, round, window);
    assert forall i | 0 <= i < |window| :: qs[i].position == window[i];
  }

  // The round just run.
  lemma NewRoundRan(env: Env, cfg: Config, start: seq<Peer>, round: nat, st: State, after: State)
    requires Inv(env, cfg, start, round, st) && Window(cfg, st, round) != [] && Within(Window(cfg, st, round), |st.shortlist|)
    requires after.sent == st.sent + Queries(st, round, Window(cfg, st, round)) && st.shortlist <= after.shortlist
    requires |after.shortlist| == |st.shortlist| + |Listed(env, round, Window(cfg, st, round))|
    ensures RoundRan(env, cfg, after, |st.shortlist|, |after.shortlist|, round)
  {
    var window := Window(cfg, st, round);
    var qs := Queries(st, round, window);
    WindowExactly(cfg, st, round);
    AnsweredInAll(env, st.sent, round);
    AnsweredBeforeSplit(env, st.sent, qs, round, round);
    forall pos: nat
      ensures Asked(after.sent, round, pos) <==> Due(env, cfg, after, |st.shortlist|, round, pos)
    {
      AskedSplit(st.sent, qs, round, pos);
      AskedInRound(st, round, window, pos);
    }
    ListedSplit(env, st.sent, qs, round);
    ListedNone(env, st.sent, round);
    ListedByRound(env, st, round, window);
    AskedInRound(st, round, window, window[0]);
    AskedSplit(st.sent, qs, round, window[0]);
  }

  lemma RoundExtends(env: Env, cfg: Config, self: nat, candidate: Peer, start: seq<Peer>, sizes: seq<nat>, st: State, after: State)
    requires RoundsRan(env, cfg, self, candidate, start, sizes, st)
    requires var round := |sizes| - 1;
             && Within(Window(cfg, st, round), |st.shortlist|)
             && after.sent == st.sent + Queries(st, round, Window(cfg, st, round)) && st.shortlist <= after.shortlist
             && RoundRan(env, cfg, after, |st.shortlist|, |after.shortlist|, round)
             && (round > 0 ==> Continues(env, cfg, self, candidate, st, round - 1))
    ensures RoundsRan(env, cfg, self, candidate, start, sizes + [|after.shortlist|], after)
  {
    var round, more := |sizes| - 1, sizes + [|after.shortlist|];
    var qs := Queries(st, round, Window(cfg, st, round));
    forall r: nat | r + 1 < |more|
      ensures RoundRan(env, cfg, after, more[r], more[r + 1], r)
    {
      if r < round {
        RoundKept(env, cfg, st, after, qs, sizes[r], sizes[r + 1], r, round);
      }
    }
    forall r: nat | r + 2 < |more|
      ensures Continues(env, cfg, self, candidate, after, r)
    {
      ContinuesKept(env, cfg, self, candidate, st, after, qs, r, round);
    }
  }

  // ----- the whole search -----

  lemma RoundFacts(env: Env, cfg: Config, self: nat, candidate: Peer, start: seq<Peer>, round: nat, st: State)
    requires Inv(env, cfg, start, round, st)
    ensures var window, r := Window(cfg, st, round), Round(env, cfg, self, candidate, round, st);
            && Within(window, |st.shortlist|)
            && r.0.sent == st.sent + Queries(st, round, window) && st.shortlist <= r.0.shortlist
            && |r.0.shortlist| == |st.shortlist| + |Listed(env, round, window)|
            && (r.1 <==> FoundCloser(env, cfg, self, candidate, r.0.sent, round))
  {
    var window := Window(cfg, st, round);
    WindowMembers(cfg, st, round);
    var qs := Queries(st, round, window);
    var asked := st.(sent := st.sent + qs);
    FinishAppends(env, cfg, self, candidate, round, window, asked);
    FinishShortlist(env, cfg, self, candidate, round, window, asked);
    FinishVerdict(env, cfg, self, candidate, round, window, asked);
    FoundSplit(env, cfg, self, candidate, st.sent, qs, round);
    FoundInRound(env, cfg, self, candidate, st, round, window);
    var r := Round(env, cfg, self, candidate, round, st).0;
    assert |multiset(r.shortlist)| == |r.shortlist| && |multiset(st.shortlist)| == |st.shortlist|;
  }

  // A search is over when there is nobody left to ask in the next slice, or no answer of the last round was
  // closer, or enough peers have answered.
  ghost predicate Over(env: Env, cfg: Config, self: nat, candidate: Peer, sizes: seq<nat>, st: State)
    requires |sizes| >= 1
  {
    var rounds := |sizes| - 1;
    || (forall pos: nat :: !Due(env, cfg, st, |st.shortlist|, rounds, pos))
    || (rounds > 0 && !Continues(env, cfg, self, candidate, st, rounds - 1))
  }

  lemma OneRound(env: Env, cfg: Config, self: nat, candidate: Peer, start: seq<Peer>, sizes: seq<nat>, st: State)
    requires RoundsRan(env, cfg, self, candidate, start, sizes, st) && Inv(env, cfg, start, |sizes| - 1, st)
    requires |sizes| > 1 ==> Continues(env, cfg, self, candidate, st, |sizes| - 2)
    requires Window(cfg, st, |sizes| - 1) != []
    ensures var r := Round(env, cfg, self, candidate, |sizes| - 1, st);
            && RoundsRan(env, cfg, self, candidate, start, sizes + [|r.0.shortlist|], r.0)
            && Inv(env, cfg, start, |sizes|, r.0) && (r.1 ==> |r.0.contacts| > |st.contacts|)
            && (r.1 && |r.0.contacts| < cfg.bits <==> Continues(env, cfg, self, candidate, r.0, |sizes| - 1))
  {
    var round := |sizes| - 1;
    var r := Round(env, cfg, self, candidate, round, st);
    RoundFacts(env, cfg, self, candidate, start, round, st);
    RoundKeepsInv(env, cfg, self, candidate, start, round, st);
    NewRoundRan(env, cfg, start, round, st, r.0);
    RoundExtends(env, cfg, self, candidate, start, sizes, st, r.0);
    ContactsCounted(env, cfg, start, round + 1, r.0);
    RoundContacts(env, cfg, self, candidate, round, st);
  }

  lemma ContactsCounted(env: Env, cfg: Config, start: seq<Peer>, round: nat, st: State)
    requires Inv(env, cfg, start, round, st)
    ensures |AnsweredBefore(env, st.sent, round)| == |st.contacts|
  {
    AnsweredInAll(env, st.sent, round);
    IdsCount(st.contacts);
  }

  lemma NobodyDue(env: Env, cfg: Config, start: seq<Peer>, round: nat, st: State)
    requires Inv(env, cfg, start, round, st) && Window(cfg, st, round) == []
    ensures forall pos: nat :: !Due(env, cfg, st, |st.shortlist|, round, pos)
  {
    WindowExactly(cfg, st, round);
    AnsweredInAll(env, st.sent, round);
  }

  lemma SearchUnfolds(env: Env, cfg: Config, self: nat, candidate: Peer, round: nat, st: State)
    requires DistinctIds(st.contacts)
    ensures var r := Round(env, cfg, self, candidate, round, st);
            && DistinctIds(r.0.contacts)
            && Search(env, cfg, self, candidate, round, st) ==
               if Window(cfg, st, round) == [] then st
               else if r.1 && |r.0.contacts| < cfg.bits then Search(env, cfg, self, candidate, round + 1, r.0) else r.0
  {
    RoundContacts(env, cfg, self, candidate, round, st);
  }

  lemma {:induction false} SearchRan(env: Env, cfg: Config, self: nat, candidate: Peer, start: seq<Peer>, sizes: seq<nat>, st: State)
      returns (all: seq<nat>)
    requires RoundsRan(env, cfg, self, candidate, start, sizes, st) && Inv(env, cfg, start, |sizes| - 1, st)
    requires |sizes| > 1 ==> Continues(env, cfg, self, candidate, st, |sizes| - 2)
    ensures var r := Search(env, cfg, self, candidate, |sizes| - 1, st);
            RoundsRan(env, cfg, self, candidate, start, all, r) && Over(env, cfg, self, candidate, all, r)
    decreases cfg.bits - |st.contacts|
  {
    all := sizes;
    SearchUnfolds(env, cfg, self, candidate, |sizes| - 1, st);
    if Window(cfg, st, |sizes| - 1) == [] {
      NobodyDue(env, cfg, start, |sizes| - 1, st);
    } else {
      var r := Round(env, cfg, self, candidate, |sizes| - 1, st);
      OneRound(env, cfg, self, candidate, start, sizes, st);
      all := sizes + [|r.0.shortlist|];
      if r.1 && |r.0.contacts| < cfg.bits {
        all := SearchRan(env, cfg, self, candidate, start, all, r.0);
      }
    }
  }

  // The course of a search, whatever its replies, failures and their order: which rounds run, whom each of
  // them asks, and why there is no further one.
  lemma FindNodesCourse(env: Env, cfg: Config, self: nat, shortlist: seq<Peer>) returns (sizes: seq<nat>)
    requires shortlist != []
    ensures var r := FindNodes(env, cfg, self, shortlist);
            && RoundsRan(env, cfg, self, shortlist[0], shortlist, sizes, r)
            && Over(env, cfg, self, shortlist[0], sizes, r)
  {
    sizes := SearchRan(env, cfg, self, shortlist[0], shortlist, [|shortlist|], State([], shortlist, []));
  }
}
