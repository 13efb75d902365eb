// Whom `store` writes to: chunk after chunk of the table's peers, until a whole chunk acknowledges.
module StoreCalls {
  import opened Peers
  import opened Tables
  import opened RoutingTables
  import opened Chunks

  // The peers at positions [lo, hi) all acknowledge.
  predicate Acked(acks: nat -> bool, lo: nat, hi: nat) {
    forall p | lo <= p < hi :: acks(p)
  }

  // Everybody in chunk number i of n peers acknowledges.
  predicate ChunkAcked(acks: nat -> bool, n: nat, alpha: nat, i: nat) {
    Acked(acks, Cut(n, alpha, i), Cut(n, alpha, i + 1))
  }

  // `acks` says of each position in the peer list whether a STORE sent there is answered in time; `tried`
  // counts the chunks written to.
  method Store(table: RoutingTable, acks: nat -> bool) returns (sent: seq<Peer>, stored: bool, tried: nat)
    requires table.Valid()
    ensures var peers, alpha := table.view.AllPeers(), table.cfg.alpha;
            && sent == peers[..Cut(|peers|, alpha, tried)]
            && DistinctIds(sent)
            && (forall i | 0 <= i < tried - 1 :: !ChunkAcked(acks, |peers|, alpha, i))
            && (stored ==> tried > 0 && ChunkAcked(acks, |peers|, alpha, tried - 1))
            && (!stored ==> sent == peers && (tried > 0 ==> !ChunkAcked(acks, |peers|, alpha, tried - 1)))
  {
    var closestNodes := table.GetAllPeers();
    GatherDistinct(table.view, table.view.keys);
    sent, stored, tried := StoreTo(closestNodes, table.cfg.alpha, acks);
  }

  method StoreTo(closestNodes: seq<Peer>, alpha: nat, acks: nat -> bool) returns (sent: seq<Peer>, stored: bool, tried: nat)
    requires alpha > 0
    ensures sent == closestNodes[..Cut(|closestNodes|, alpha, tried)]
    ensures forall i | 0 <= i < tried - 1 :: !ChunkAcked(acks, |closestNodes|, alpha, i)
    ensures stored ==> tried > 0 && ChunkAcked(acks, |closestNodes|, alpha, tried - 1)
    ensures !stored ==> sent == closestNodes && (tried > 0 ==> !ChunkAcked(acks, |closestNodes|, alpha, tried - 1))
  {
    var chunks := ChunkArray(closestNodes, alpha);
    sent, stored, tried := [], false, 0;
    FirstCuts(|closestNodes|, alpha);
    while tried < |chunks|
      invariant tried <= |chunks| && !stored
      invariant sent == closestNodes[..Cut(|closestNodes|, alpha, tried)]
      invariant forall i | 0 <= i < tried :: !ChunkAcked(acks, |closestNodes|, alpha, i)
    {
      var nodes := chunks[tried];
      ChunkAt(closestNodes, alpha, tried);
      var answered := AllAnswered(acks, |sent|, |nodes|);
      sent := sent + nodes;
      tried := tried + 1;
      if answered {
        stored := true;
        return;
      }
    }
    ChunkAt(closestNodes, alpha, tried);
  }

  // `Promise.all` over the sends of one chunk.
  method AllAnswered(acks: nat -> bool, start: nat, length: nat) returns (all: bool)
    ensures all <==> Acked(acks, start, start + length)
  {
    var i := 0;
    while i < length
      invariant i <= length && Acked(acks, start, start + i)
    {
      if !acks(start + i) {
        return false;
      }
      i := i + 1;
    }
    return true;
  }
}
