// One node's side of the WebSocket broadcast: what it has seen, and whom it forwards to.
module WsTransport {

  datatype PacketType = Broadcast | Direct

  datatype Packet = Packet(id: nat, ttl: int, kind: PacketType, destination: nat, message: nat, origin: nat)

  // What the message maps keep: the bare message on arrival, the whole packet once it has been sent on.
  datatype Stored = Message(message: nat) | Whole(packet: Packet)

  // A broadcast or direct event handed to the node, with the id of its packet.
  datatype Emission = Emission(id: nat, kind: PacketType, message: nat, origin: nat)

  // A copy of a packet on its way to the node `to`.
  datatype Copy = Copy(to: nat, packet: Packet)

  // `neighbors` lists the keys of the neighbour map in insertion order (each key is also its value), and
  // `connections` the node at the other end of each live socket.
  datatype Ws = Ws(neighbors: seq<nat>, connections: map<nat, nat>, seen: map<nat, Stored>, direct: map<nat, Stored>,
                   emitted: seq<Emission>) {

    // The nodes that a broadcast reaches: neighbours with a live socket.
    function Links(): seq<nat> {
      Reached(neighbors, connections)
    }

    // After the connection under `key` closes.
    function Dropped(key: nat): Ws {
      this.(neighbors := Except(neighbors, key), connections := connections - {key})
    }
  }

  function Reached(keys: seq<nat>, connections: map<nat, nat>): seq<nat> {
    if keys == [] then []
    else
      var last := |keys| - 1;
      Reached(keys[..last], connections) + Behind(keys[last], connections)
  }

  function Except(keys: seq<nat>, key: nat): seq<nat> {
    if keys == [] then []
    else
      var last := |keys| - 1;
      Except(keys[..last], key) + (if keys[last] == key then [] else [keys[last]])
  }

  // The node behind a key, if a live socket leads there.
  function Behind(key: nat, connections: map<nat, nat>): seq<nat> {
    if key in connections then [connections[key]] else []
  }

  lemma {:induction false} UnusedSocket(keys: seq<nat>, connections: map<nat, nat>, key: nat)
    requires key !in keys
    ensures Reached(keys, connections - {key}) == Reached(keys, connections)
  {
    if keys != [] {
      UnusedSocket(keys[..|keys| - 1], connections, key);
    }
  }

  lemma {:induction false} ExceptMiddle(before: seq<nat>, key: nat, after: seq<nat>)
    requires key !in before && key !in after
    ensures Except(before + [key] + after, key) == before + after
    decreases |before| + |after|
  {
    var keys := before + [key] + after;
    var last := |keys| - 1;
    if after != [] {
      assert keys[..last] == before + [key] + after[..|after| - 1];
      ExceptMiddle(before, key, after[..|after| - 1]);
      assert before + after == before + after[..|after| - 1] + [after[|after| - 1]];
    } else {
      assert keys[..last] == before;
      ExceptNone(before, key);
    }
  }

  lemma {:induction false} ExceptNone(keys: seq<nat>, key: nat)
    requires key !in keys
    ensures Except(keys, key) == keys
  {
    if keys != [] {
      ExceptNone(keys[..|keys| - 1], key);
    }
  }

  lemma {:induction false} ReachedConcat(a: seq<nat>, b: seq<nat>, connections: map<nat, nat>)
    ensures Reached(a + b, connections) == Reached(a, connections) + Reached(b, connections)
  {
    if b == [] {
      assert a + b == a;
    } else {
      assert (a + b)[..|a + b| - 1] == a + b[..|b| - 1];
      ReachedConcat(a, b[..|b| - 1], connections);
    }
  }

  lemma {:induction false} ExceptMembers(keys: seq<nat>, key: nat)
    ensures forall k :: k in Except(keys, key) <==> k in keys && k != key
  {
    if keys != [] {
      ExceptMembers(keys[..|keys| - 1], key);
    }
  }

  // The key is gone from both maps, and every other key is what it was.
  lemma DropForgetsTheKey(w: Ws, key: nat)
    ensures var d := w.Dropped(key);
            && key !in d.connections && key !in d.neighbors
            && (forall k | k != key :: (k in d.connections <==> k in w.connections) && (k in d.neighbors <==> k in w.neighbors))
            && (forall k | k in d.connections :: d.connections[k] == w.connections[k])
            && d.seen == w.seen && d.direct == w.direct && d.emitted == w.emitted
  {
    ExceptMembers(w.neighbors, key);
  }

  // A dropped connection takes the link under its key away, and the other links stay, in order.
  lemma DropTakesOneLink(w: Ws, before: seq<nat>, key: nat, after: seq<nat>)
    requires w.neighbors == before + [key] + after && key !in before && key !in after
    ensures w.Links() == Reached(before, w.connections) + Behind(key, w.connections) + Reached(after, w.connections)
    ensures w.Dropped(key).Links() == Reached(before, w.connections) + Reached(after, w.connections)
  {
    ReachedConcat(before + [key], after, w.connections);
    ReachedNext(before, key, w.connections);
    ExceptMiddle(before, key, after);
    UnusedSocket(before + after, w.connections, key);
    ReachedConcat(before, after, w.connections);
  }

  lemma ReachedNext(keys: seq<nat>, key: nat, connections: map<nat, nat>)
    ensures Reached(keys + [key], connections) == Reached(keys, connections) + Behind(key, connections)
  {
    assert (keys + [key])[..|keys|] == keys;
  }

  function Copies(tos: seq<nat>, p: Packet): (cs: seq<Copy>)
    ensures |cs| == |tos| && forall i | 0 <= i < |tos| :: cs[i] == Copy(tos[i], p)
  {
    seq(|tos|, i requires 0 <= i < |tos| => Copy(tos[i], p))
  }

  lemma SpreadNext(keys: seq<nat>, key: nat, connections: map<nat, nat>, p: Packet)
    ensures Reached(keys + [key], connections) == Reached(keys, connections) + Behind(key, connections)
    ensures Copies(Reached(keys + [key], connections), p) == Copies(Reached(keys, connections), p) + Copies(Behind(key, connections), p)
  {
    ReachedNext(keys, key, connections);
  }

  // `sendMessage` for a broadcast: every live link gets a copy; the id counts as seen if there was any.
  function Spread(w: Ws, p: Packet): Ws {
    if w.Links() == [] then w else w.(seen := w.seen[p.id := Whole(p)])
  }

  // The message handler, for a packet that arrives.
  predicate Ignores(w: Ws, p: Packet) {
    p.id in w.seen || p.ttl < 1
  }

  function Received(w: Ws, p: Packet): Ws {
    if Ignores(w, p) then w
    else
      var emission := Emission(p.id, p.kind, p.message, p.origin);
      match p.kind
      case Broadcast =>
        var spread := Spread(w.(seen := w.seen[p.id := Message(p.message)]), p);
        spread.(emitted := spread.emitted + [emission])
      case Direct => w.(direct := w.direct[p.id := Message(p.message)], emitted := w.emitted + [emission])
  }

  function Forwards(w: Ws, p: Packet): seq<Copy> {
    if Ignores(w, p) || p.kind.Direct? then [] else Copies(w.Links(), p)
  }

  class WebSocketTransport {
    var neighbors: seq<nat>
    var connections: map<nat, nat>
    var broadcasts: map<nat, Stored>
    var directs: map<nat, Stored>
    var emitted: seq<Emission>
    var outbox: seq<Copy>  // everything written to a socket so far

    function Current(): Ws
      reads this
    {
      Ws(neighbors, connections, broadcasts, directs, emitted)
    }

    constructor (neighbors: seq<nat>, connections: map<nat, nat>)
      ensures Current() == Ws(neighbors, connections, map[], map[], []) && outbox == []
    {
      this.neighbors, this.connections := neighbors, connections;
      broadcasts, directs, emitted, outbox := map[], map[], [], [];
    }

    // One copy to every node behind the key. Fails, as the original throws, when there is none.
    method Send(key: nat, p: Packet) returns (ok: bool)
      modifies this`outbox
      ensures ok <==> Behind(key, connections) != []
      ensures outbox == old(outbox) + Copies(Behind(key, connections), p)
    {
      ok := key in connections;
      if ok {
        outbox := outbox + [Copy(connections[key], p)];
      }
    }

    // The socket and the neighbour under the key are forgotten.
    method Drop(key: nat)
      modifies this`neighbors, this`connections
      ensures Current() == old(Current()).Dropped(key)
      ensures key !in connections && key !in neighbors
      ensures forall k | k != key :: (k in connections <==> k in old(connections)) && (k in neighbors <==> k in old(neighbors))
      ensures forall k | k in connections :: connections[k] == old(connections)[k]
    {
      DropForgetsTheKey(Current(), key);
      connections := connections - {key};
      var i, kept := 0, [];
      while i < |neighbors|
        invariant i <= |neighbors| && neighbors == old(neighbors) && connections == old(connections) - {key}
        invariant kept == Except(neighbors[..i], key)
      {
        assert neighbors[..i + 1][..i] == neighbors[..i];
        if neighbors[i] != key {
          kept := kept + [neighbors[i]];
        }
        i := i + 1;
      }
      assert neighbors[..i] == neighbors;
      neighbors := kept;
    }

    method SendMessage(p: Packet) returns (ok: bool)
      modifies this`outbox, this`broadcasts, this`directs
      ensures p.kind.Broadcast? ==> ok && Current() == Spread(old(Current()), p)
      ensures p.kind.Broadcast? ==> outbox == old(outbox) + Copies(old(Current()).Links(), p)
      ensures p.kind.Direct? ==> (ok <==> p.destination in connections) && broadcasts == old(broadcasts)
      ensures p.kind.Direct? ==> directs == if ok then old(directs)[p.id := Whole(p)] else old(directs)
      ensures p.kind.Direct? ==> outbox == old(outbox) + if ok then [Copy(connections[p.destination], p)] else []
    {
      if p.kind.Direct? {
        ok := Send(p.destination, p);
        if ok {
          directs := directs[p.id := Whole(p)];
        }
        return;
      }
      SendToAll(p);
      ok := true;
    }

    // The loop over the neighbours: a failed send is skipped, and the id is marked with every one that goes.
    method SendToAll(p: Packet)
      modifies this`outbox, this`broadcasts
      ensures outbox == old(outbox) + Copies(old(Current()).Links(), p)
      ensures broadcasts == if old(Current()).Links() == [] then old(broadcasts) else old(broadcasts)[p.id := Whole(p)]
    {
      var i := 0;
      ghost var links: seq<nat> := [];
      while i < |neighbors|
        invariant i <= |neighbors| && links == Reached(neighbors[..i], connections)
        invariant outbox == old(outbox) + Copies(links, p)
        invariant broadcasts == if links == [] then old(broadcasts) else old(broadcasts)[p.id := Whole(p)]
      {
        SpreadNext(neighbors[..i], neighbors[i], connections, p);
        assert neighbors[..i + 1] == neighbors[..i] + [neighbors[i]];
        var sent := Send(neighbors[i], p);
        links := links + Behind(neighbors[i], connections);
        if sent {
          broadcasts := broadcasts[p.id := Whole(p)];
        }
        i := i + 1;
      }
      assert neighbors[..i] == neighbors;
    }

    method OnMessage(p: Packet)
      modifies this
      ensures Current() == Received(old(Current()), p)
      ensures outbox == old(outbox) + Forwards(old(Current()), p)
      ensures p.id in old(broadcasts) || p.ttl < 1 ==> Current() == old(Current()) && outbox == old(outbox)
      ensures p.id !in old(broadcasts) && p.ttl >= 1 ==> emitted == old(emitted) + [Emission(p.id, p.kind, p.message, p.origin)]
      ensures p.id !in old(broadcasts) && p.ttl >= 1 && p.kind.Direct? ==>
                broadcasts == old(broadcasts) && directs == old(directs)[p.id := Message(p.message)] && outbox == old(outbox)
      ensures p.id !in old(broadcasts) && p.ttl >= 1 && p.kind.Broadcast? ==>
                var links := Reached(neighbors, connections);
                && broadcasts == old(broadcasts)[p.id := if links == [] then Message(p.message) else Whole(p)]
                && directs == old(directs) && outbox == old(outbox) + Copies(links, p)
      ensures neighbors == old(neighbors) && connections == old(connections)
    {
      if p.id in broadcasts || p.ttl < 1 {
        return;
      }
      match p.kind {
        case Broadcast =>
          broadcasts := broadcasts[p.id := Message(p.message)];
          var _ := SendMessage(p);
        case Direct =>
          directs := directs[p.id := Message(p.message)];
      }
      emitted := emitted + [Emission(p.id, p.kind, p.message, p.origin)];
    }
  }
}
