// The node object: its table and search state, changed turn by turn as the protocol says.
module KademliaNodes {
  import opened Metric
  import opened Peers
  import opened Tables
  import opened RoutingTables
  import opened Searches
  import opened Chunks
  import opened Protocol
  import opened WsTransport

  lemma AddsOne(m: map<nat, Pending>, added: map<nat, Pending>, r: nat, p: Pending)
    ensures (m + added)[r := p] == m + added[r := p]
  {
  }

  lemma OneMoreQuery(x: nat, sid: nat, qs: seq<Query>, q: Query, first: nat)
    ensures Asks(x, qs + [q], first) == Asks(x, qs, first) + [FindNode(Own(x), q.node, first + |qs|)]
    ensures Awaited(sid, qs + [q], first) == Awaited(sid, qs, first)[first + |qs| := Pending(sid, q)]
  {
    assert (qs + [q])[..|qs|] == qs;
  }

  class KademliaNode {
    const nodeId: nat
    const table: RoutingTable
    const wsTransport: WebSocketTransport
    var searches: map<nat, SearchRun>
    var waiting: map<nat, Pending>
    var stores: map<nat, seq<seq<Peer>>>
    var outbox: seq<Msg>  // everything sent so far
    var nextId: nat  // response ids are fresh

    ghost predicate Valid()
      reads this, table, table.buckets.Values
    {
      table.Valid() && table.tableId == nodeId
    }

    ghost function Current(): Node
      reads this, table
    {
      Node(table.view, searches, waiting, stores)
    }

    constructor (nodeId: nat, cfg: Config, wsTransport: WebSocketTransport)
      ensures Valid() && Current() == Node(EmptyTable(cfg, nodeId), map[], map[], map[]) && outbox == [] && nextId == 0
    {
      this.nodeId := nodeId;
      this.wsTransport := wsTransport;
      table := new RoutingTable(nodeId, cfg);
      searches, waiting, stores, outbox, nextId := map[], map[], map[], [], 0;
    }

    // `updateTables`, with the pings that full buckets send.
    method UpdateTables(contacts: seq<Peer>)
      requires Valid()
      modifies this`outbox, this`nextId, table, table.buckets.Values
      ensures Valid() && fresh(table.buckets.Values - old(table.buckets.Values))
      ensures var r := Learn(nodeId, old(Current()), contacts, old(nextId));
              Current() == r.node && outbox == old(outbox) + r.sent && nextId == old(nextId) + r.used
    {
      var pings := table.UpdateTables(contacts);
      outbox := outbox + Pings(nodeId, pings, nextId);
      nextId := nextId + |pings|;
    }

    method Start()
      requires Valid()
      modifies this`outbox, this`nextId, table, table.buckets.Values
      ensures Valid() && fresh(table.buckets.Values - old(table.buckets.Values))
      ensures var r := Learn(nodeId, old(Current()), [Own(0)], old(nextId));
              Current() == r.node && outbox == old(outbox) + r.sent && nextId == old(nextId) + r.used
    {
      UpdateTables([Own(0)]);
    }

    method HandleMessage(m: Msg)
      requires Valid()
      modifies this, table, table.buckets.Values
      ensures Valid() && fresh(table.buckets.Values - old(table.buckets.Values))
      ensures var r := Protocol.HandleMessage(nodeId, old(Current()), m, old(nextId));
              Current() == r.node && outbox == old(outbox) + r.sent && nextId == old(nextId) + r.used
    {
      UpdateTables([m.from]);
      Answer(m);
    }

    // The switch of `handleMessage`.
    method Answer(m: Msg)
      requires Valid()
      modifies this
      ensures Valid() && nextId == old(nextId)
      ensures var r := Respond(nodeId, old(Current()), m);
              Current() == r.node && outbox == old(outbox) + r.sent
    {
      match m {
        case FindNode(from, _, resId) =>
          var closestNodes := table.FindNode(from.nodeId, table.cfg.alpha);
          outbox := outbox + [Reply(Own(nodeId), from, resId, closestNodes)];
        case Ping(from, _, resId) =>
          outbox := outbox + [Pong(Own(nodeId), from, resId)];
        case Store(from, _, resId) =>
          outbox := outbox + [Pong(Own(nodeId), from, resId)];
        case Pong(_, _, _) =>
        case Reply(_, _, _, _) =>
          Resolve(m);
      }
    }

    // The emitted response reaches the query that waits for it.
    method Resolve(m: Msg)
      requires Valid() && m.Reply?
      modifies this`searches, this`waiting
      ensures Valid() && Current() == OnReply(nodeId, old(Current()), m).node
    {
      if m.resId in waiting && waiting[m.resId].search in searches {
        var sid, target := waiting[m.resId].search, waiting[m.resId].query.node;
        var run := searches[sid];
        var closer := FindCloser(run.candidate, m.nodes);
        searches := searches[sid := run.(st := Completed(run.st, target, Searches.Answer(m.nodes)), updated := run.updated || closer)];
        waiting := waiting - {m.resId};
      }
    }

    // The running minimum over a reply: true if and only if it lists a peer in a lower bucket.
    method FindCloser(candidate: Peer, nodes: seq<Peer>) returns (closer: bool)
      requires Valid()
      ensures closer <==> HasCloser(table.cfg, nodeId, candidate, nodes)
    {
      closer := false;
      var least := table.GetBucketIndex(candidate.nodeId);
      var i := 0;
      while i < |nodes|
        invariant i <= |nodes|
        invariant closer <==> HasCloser(table.cfg, nodeId, candidate, nodes[..i])
        invariant least <= BucketIndex(nodeId, candidate.nodeId, table.cfg.bits)
        invariant closer <==> least < BucketIndex(nodeId, candidate.nodeId, table.cfg.bits)
      {
        assert nodes[..i + 1] == nodes[..i] + [nodes[i]];
        var distance := table.GetBucketIndex(nodes[i].nodeId);
        if distance < least {
          least, closer := distance, true;
        }
        i := i + 1;
      }
      assert nodes[..i] == nodes;
    }

    // A query has waited too long.
    method Timeout(resId: nat)
      modifies this`waiting
      ensures Current() == old(Current()).(waiting := old(waiting) - {resId})
    {
      waiting := waiting - {resId};
    }

    // The queries of a round: to the peers of its window that have not been contacted.
    method RoundQueries(run: SearchRun) returns (qs: seq<Query>)
      requires Valid()
      ensures qs == NextQueries(table.cfg, run)
      ensures forall i: nat ::
                (i < |run.st.shortlist| && Query(run.round, i, run.st.shortlist[i]) in qs) <==>
                WindowStart(table.cfg, run.round) <= i < WindowStart(table.cfg, run.round) + table.cfg.alpha &&
                i < |run.st.shortlist| && run.st.shortlist[i].nodeId !in Ids(run.st.contacts)
    {
      qs := Slice(run);
      RoundAsksAll(table.cfg, run);
    }

    // The loop over the round's slice of the shortlist.
    method Slice(run: SearchRun) returns (qs: seq<Query>)
      requires Valid()
      ensures qs == NextQueries(table.cfg, run)
    {
      WindowStartIs(table.cfg, run.round);
      var low := run.round * table.cfg.alpha;
      var high := low + table.cfg.alpha;
      ghost var window: seq<nat> := [];
      qs := [];
      var i := low;
      while i < high && i < |run.st.shortlist|
        invariant low <= i <= high
        invariant Within(window, |run.st.shortlist|) && qs == Queries(run.st, run.round, window)
        invariant Window(table.cfg, run.st, run.round) == window + Uncontacted(run.st, i, high)
        decreases high - i
      {
        SliceStep(table.cfg, run.st, run.round, window, i, high);
        QueriesNext(run.st, run.round, window, i);
        if run.st.shortlist[i].nodeId !in Ids(run.st.contacts) {
          window := window + [i];
          qs := qs + [Query(run.round, i, run.st.shortlist[i])];
        }
        i := i + 1;
      }
    }

    method SendRound(sid: nat, run: SearchRun)
      requires Valid()
      modifies this`searches, this`waiting, this`outbox, this`nextId
      ensures Valid()
      ensures var r := Ask(nodeId, old(Current()), sid, run, old(nextId));
              Current() == r.node && outbox == old(outbox) + r.sent && nextId == old(nextId) + r.used
    {
      var qs := RoundQueries(run);
      searches := searches[sid := WithSent(run, qs)];
      SendQueries(sid, qs);
    }

    // Sends a FIND_NODE for each query, with consecutive response ids.
    method SendQueries(sid: nat, qs: seq<Query>)
      modifies this`waiting, this`outbox, this`nextId
      ensures waiting == old(waiting) + Awaited(sid, qs, old(nextId))
      ensures outbox == old(outbox) + Asks(nodeId, qs, old(nextId)) && nextId == old(nextId) + |qs|
    {
      ghost var first := nextId;
      var i := 0;
      while i < |qs|
        invariant i <= |qs| && nextId == first + i
        invariant waiting == old(waiting) + Awaited(sid, qs[..i], first)
        invariant outbox == old(outbox) + Asks(nodeId, qs[..i], first)
      {
        assert qs[..i + 1] == qs[..i] + [qs[i]];
        OneMoreQuery(nodeId, sid, qs[..i], qs[i], first);
        AddsOne(old(waiting), Awaited(sid, qs[..i], first), nextId, Pending(sid, qs[i]));
        waiting := waiting[nextId := Pending(sid, qs[i])];
        outbox := outbox + [FindNode(Own(nodeId), qs[i].node, nextId)];
        nextId := nextId + 1;
        i := i + 1;
      }
      assert qs[..i] == qs;
    }

    // The cron job starts a search for the node's own id.
    method BeginSearch(sid: nat)
      requires Valid()
      modifies this
      ensures Valid()
      ensures var r := OnBeginSearch(nodeId, old(Current()), sid, old(nextId));
              Current() == r.node && outbox == old(outbox) + r.sent && nextId == old(nextId) + r.used
    {
      var shortlist := table.FindNode(nodeId, table.cfg.alpha);
      if shortlist != [] {
        SendRound(sid, SearchRun(State([], shortlist, []), shortlist[0], 0, false));
      }
    }

    // All queries of a round have ended.
    method Proceed(sid: nat)
      requires Valid() && sid in searches
      modifies this, table, table.buckets.Values
      ensures Valid() && fresh(table.buckets.Values - old(table.buckets.Values))
      ensures var r := OnProceed(nodeId, old(Current()), sid, old(nextId));
              Current() == r.node && outbox == old(outbox) + r.sent && nextId == old(nextId) + r.used
    {
      var run := searches[sid];
      if GoesOn(table.cfg, run) {
        SendRound(sid, FollowingRound(run));
      } else {
        searches := searches - {sid};
        UpdateTables(run.st.contacts);
      }
    }

    // `store` cuts the peers of the table into chunks, and writes to them chunk by chunk.
    method BeginStore(job: nat)
      requires Valid()
      modifies this`stores
      ensures Valid()
      ensures Current() == old(Current()).(stores := old(stores)[job := Chunk(old(table.view).AllPeers(), table.cfg.alpha)])
    {
      var closestNodes := table.GetAllPeers();
      var chunks := ChunkArray(closestNodes, table.cfg.alpha);
      stores := stores[job := chunks];
    }

    method StoreChunk(job: nat)
      requires Valid() && job in stores && stores[job] != []
      modifies this`stores, this`outbox, this`nextId
      ensures Valid()
      ensures var chunk := old(stores)[job][0];
              && Current() == old(Current()).(stores := old(stores)[job := old(stores)[job][1..]])
              && outbox == old(outbox) + Stores(nodeId, chunk, old(nextId)) && nextId == old(nextId) + |chunk|
    {
      var nodes := stores[job][0];
      ghost var first := nextId;
      var i := 0;
      while i < |nodes|
        invariant i <= |nodes| && nextId == first + i && Valid() && stores == old(stores)
        invariant outbox == old(outbox) + Stores(nodeId, nodes[..i], first)
      {
        assert nodes[..i + 1] == nodes[..i] + [nodes[i]];
        assert Stores(nodeId, nodes[..i + 1], first) == Stores(nodeId, nodes[..i], first) + [Store(Own(nodeId), nodes[i], nextId)];
        outbox := outbox + [Store(Own(nodeId), nodes[i], nextId)];
        nextId := nextId + 1;
        i := i + 1;
      }
      assert nodes[..i] == nodes;
      stores := stores[job := stores[job][1..]];
    }

    // A connection closes: its socket and neighbour entries go, and the peer leaves the table.
    method HandleTcpDisconnect(id: nat)
      requires Valid()
      modifies wsTransport`neighbors, wsTransport`connections, table, table.buckets.Values
      ensures Valid() && fresh(table.buckets.Values - old(table.buckets.Values))
      ensures Current() == old(Current()).(table := old(table.view).Disconnected(id))
      ensures wsTransport.Current() == old(wsTransport.Current()).Dropped(id)
    {
      wsTransport.Drop(id);
      table.HandleDisconnect(id, id + 3000);
    }
  }
}
