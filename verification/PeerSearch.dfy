// The search as the node runs it: shared contacts and shortlist, changed by each query that completes.
module PeerSearches {
  import opened Metric
  import opened Peers
  import Lookups
  import opened RoutingTables
  import opened Searches

  class PeerSearch {
    const table: RoutingTable
    var contacts: seq<Peer>
    var nodeShortlist: seq<Peer>
    var sent: seq<Query>

    function Current(): State
      reads this
    {
      State(contacts, nodeShortlist, sent)
    }

    constructor (table: RoutingTable, shortlist: seq<Peer>)
      ensures this.table == table && Current() == State([], shortlist, [])
    {
      this.table := table;
      contacts, nodeShortlist, sent := [], shortlist, [];
    }

    // The rest of `handleFindNodeQuery` once its query has ended with `o`.
    method HandleFindNodeQuery(node: Peer, candidate: Peer, o: Outcome) returns (hasCloserThanExist: bool)
      modifies this
      ensures Current() == Completed(old(Current()), node, o)
      ensures o.Failure? ==> Current() == old(Current())
      ensures o.Answer? ==> nodeShortlist == old(nodeShortlist) + o.nodes && sent == old(sent)
      ensures o.Answer? && node.nodeId !in Ids(old(contacts)) ==> contacts == old(contacts) + [node]
      ensures hasCloserThanExist <==> Updates(table.cfg, table.tableId, candidate, o)
    {
      hasCloserThanExist := false;
      if o.Failure? {
        return;
      }
      var closeNodes := o.nodes;
      var initialClosestNode := candidate;
      contacts := SetContact(contacts, node);
      var i := 0;
      while i < |closeNodes|
        invariant i <= |closeNodes|
        invariant Current() == Completed(old(Current()), node, Answer(closeNodes[..i]))
        invariant hasCloserThanExist <==> HasCloser(table.cfg, table.tableId, candidate, closeNodes[..i])
        invariant hasCloserThanExist <==> Index(initialClosestNode) < Index(candidate)
        invariant !hasCloserThanExist ==> initialClosestNode == candidate
      {
        var currentCloseNode := closeNodes[i];
        nodeShortlist := nodeShortlist + [currentCloseNode];
        assert closeNodes[..i + 1] == closeNodes[..i] + [currentCloseNode];
        var currentDistance := table.GetBucketIndex(initialClosestNode.nodeId);
        var distance := table.GetBucketIndex(currentCloseNode.nodeId);
        if distance < currentDistance {
          initialClosestNode := currentCloseNode;
          hasCloserThanExist := true;
        }
        i := i + 1;
      }
      assert closeNodes[..i] == closeNodes;
    }

    function Index(p: Peer): nat {
      BucketIndex(table.tableId, p.nodeId, table.cfg.bits)
    }

    // Sends the queries of one round.
    method SendRound(iteration: nat) returns (pending: seq<nat>)
      modifies this`sent
      ensures pending == Window(table.cfg, old(Current()), iteration) && Within(pending, |nodeShortlist|)
      ensures sent == old(sent) + Queries(old(Current()), iteration, pending)
      ensures forall i: nat :: i in pending <==>
                WindowStart(table.cfg, iteration) <= i < WindowStart(table.cfg, iteration) + table.cfg.alpha &&
                i < |nodeShortlist| && nodeShortlist[i].nodeId !in Ids(contacts)
    {
      WindowExactly(table.cfg, Current(), iteration);
      pending := Slice(iteration);
    }

    // The loop over the round's slice of the shortlist.
    method Slice(iteration: nat) returns (pending: seq<nat>)
      modifies this`sent
      ensures pending == Window(table.cfg, old(Current()), iteration) && Within(pending, |nodeShortlist|)
      ensures sent == old(sent) + Queries(old(Current()), iteration, pending)
    {
      WindowStartIs(table.cfg, iteration);
      var low := iteration * table.cfg.alpha;
      var high := low + table.cfg.alpha;
      ghost var start := Current();
      pending := [];
      var i := low;
      while i < high && i < |nodeShortlist|
        invariant low <= i <= high
        invariant Within(pending, |nodeShortlist|)
        invariant Window(table.cfg, start, iteration) == pending + Uncontacted(start, i, high)
        invariant sent == start.sent + Queries(start, iteration, pending)
        decreases high - i
      {
        SliceStep(table.cfg, start, iteration, pending, i, high);
        QueriesNext(start, iteration, pending, i);
        if nodeShortlist[i].nodeId !in Ids(contacts) {
          pending := pending + [i];
          sent := sent + [Query(iteration, i, nodeShortlist[i])];
        }
        i := i + 1;
      }
    }

    // `Promise.all`: the pending queries complete in the order the environment picks.
    method AwaitAll(env: Env, candidate: Peer, iteration: nat, pending: seq<nat>) returns (isUpdatedClosest: bool)
      requires Within(pending, |nodeShortlist|)
      modifies this
      ensures (Current(), isUpdatedClosest) ==
              Finish(env, table.cfg, table.tableId, candidate, iteration, pending, old(Current()))
    {
      isUpdatedClosest := false;
      var waiting := pending;
      ghost var start := Current();
      ghost var whole := Finish(env, table.cfg, table.tableId, candidate, iteration, pending, start);
      while waiting != []
        invariant Within(waiting, |nodeShortlist|)
        invariant Finish(env, table.cfg, table.tableId, candidate, iteration, waiting, Current()).0 == whole.0
        invariant whole.1 <==>
                  isUpdatedClosest || Finish(env, table.cfg, table.tableId, candidate, iteration, waiting, Current()).1
        decreases |waiting|
      {
        var i := env.Pick(iteration, waiting);
        WithinWithout(waiting, i, |nodeShortlist|);
        var closer := HandleFindNodeQuery(nodeShortlist[waiting[i]], candidate, env.outcome(iteration, waiting[i]));
        isUpdatedClosest := isUpdatedClosest || closer;
        waiting := waiting[..i] + waiting[i + 1..];
      }
    }

    method FindNodeRecursiveSearch(env: Env, candidate: Peer, previous: Option<nat>)
      requires DistinctIds(contacts)
      modifies this
      ensures Current() == Search(env, table.cfg, table.tableId, candidate,
                                  if previous.None? then 0 else previous.value + 1, old(Current()))
      decreases table.cfg.bits - |contacts|
    {
      var iteration := if previous.None? then 0 else previous.value + 1;
      ghost var start := Current();
      var pending := SendRound(iteration);
      if |pending| == 0 {
        assert Current() == start;
        return;
      }
      RoundContacts(env, table.cfg, table.tableId, candidate, iteration, start);
      var isUpdatedClosest := AwaitAll(env, candidate, iteration, pending);
      assert (Current(), isUpdatedClosest) == Round(env, table.cfg, table.tableId, candidate, iteration, start);
      if isUpdatedClosest && |contacts| < table.cfg.bits {
        FindNodeRecursiveSearch(env, candidate, Some(iteration));
      }
    }
  }

  // `findNodes`: the search starts from the table's own answer, and takes its first entry as candidate.
  method FindNodes(table: RoutingTable, env: Env, key: nat) returns (contacts: seq<Peer>)
    requires table.Valid()
    ensures contacts == Searches.FindNodes(env, table.cfg, table.tableId, Lookups.FindNode(table.view, key, table.cfg.alpha)).contacts
    ensures |contacts| <= table.cfg.bits - 1 + table.cfg.alpha && DistinctIds(contacts)
  {
    var shortlist := table.FindNode(key, table.cfg.alpha);
    FindNodesBounds(env, table.cfg, table.tableId, shortlist);
    var search := new PeerSearch(table, shortlist);
    if shortlist != [] {
      search.FindNodeRecursiveSearch(env, shortlist[0], None);
    }
    contacts := search.contacts;
  }
}
