// Cutting a list into chunks, and the targets that `store` reaches with it.
module Chunks {
  import opened Numbers

  // The chunks of `arr`: `count` elements each, the last one possibly shorter.
  function Chunk<T>(arr: seq<T>, count: nat): seq<seq<T>>
    requires count > 0
    decreases |arr|
  {
    if arr == [] then []
    else if |arr| <= count then [arr]
    else [arr[..count]] + Chunk(arr[count..], count)
  }

  function Flatten<T>(cs: seq<seq<T>>): seq<T> {
    if cs == [] then [] else cs[0] + Flatten(cs[1..])
  }

  lemma {:induction false} ChunkFlattens<T>(arr: seq<T>, count: nat)
    requires count > 0
    ensures Flatten(Chunk(arr, count)) == arr
    ensures forall i | 0 <= i < |Chunk(arr, count)| :: 0 < |Chunk(arr, count)[i]| <= count
    ensures forall i | 0 <= i < |Chunk(arr, count)| - 1 :: |Chunk(arr, count)[i]| == count
    decreases |arr|
  {
    if arr != [] && |arr| > count {
      ChunkFlattens(arr[count..], count);
      assert arr == arr[..count] + arr[count..];
    } else if arr != [] {
      assert Chunk(arr, count)[1..] == [];
    }
  }

  // Where chunk number i of a list of n elements starts, and chunk i - 1 ends.
  function Cut(n: nat, count: nat, i: nat): nat {
    Min(n, i * count)
  }

  lemma RoundedUp(n: nat, count: nat, i: nat)
    requires count > 0
    ensures i < (n + count - 1) / count <==> i * count < n
  {
    var q := (n + count - 1) / count;
    assert q * count <= n + count - 1 < q * count + count;
    if i < q {
      assert (i + 1) * count <= q * count;
    } else {
      assert q * count <= i * count;
    }
  }

  lemma ChunkNext<T>(rest: seq<T>, count: nat)
    requires count > 0 && rest != []
    ensures Chunk(rest, count) == [rest[..Min(count, |rest|)]] + Chunk(rest[Min(count, |rest|)..], count)
  {
    if |rest| <= count {
      assert rest[..|rest|] == rest && rest[|rest|..] == [];
    }
  }

  // `chunk` as the loop over slices that it is.
  method ChunkArray<T>(arr: seq<T>, count: nat) returns (result: seq<seq<T>>)
    requires count > 0
    ensures result == Chunk(arr, count)
  {
    result := [];
    var resultLength := (|arr| + count - 1) / count;
    var i := 0;
    while i < resultLength
      invariant i <= resultLength
      invariant Chunk(arr, count) == result + Chunk(arr[Cut(|arr|, count, i)..], count)
    {
      var index := i * count;
      RoundedUp(|arr|, count, i);
      var current := arr[index..Min(|arr|, index + count)];
      NextCut(arr, count, i);
      result := result + [current];
      i := i + 1;
    }
    RoundedUp(|arr|, count, i);
    assert arr[Cut(|arr|, count, i)..] == [];
  }

  lemma NextCut<T>(arr: seq<T>, count: nat, i: nat)
    requires count > 0 && i * count < |arr|
    ensures Cut(|arr|, count, i) == i * count && Cut(|arr|, count, i + 1) == Min(|arr|, i * count + count)
    ensures Chunk(arr[i * count..], count) ==
            [arr[i * count..Min(|arr|, i * count + count)]] + Chunk(arr[Cut(|arr|, count, i + 1)..], count)
  {
    var index := i * count;
    assert (i + 1) * count == index + count;
    ChunkNext(arr[index..], count);
    var size := Min(count, |arr| - index);
    assert arr[index..][..size] == arr[index..index + size];
    assert arr[index..][size..] == arr[index + size..];
  }

  // The chunks from number i on are those of what lies behind cut i.
  lemma {:induction false} ChunksFrom<T>(arr: seq<T>, count: nat, i: nat)
    requires count > 0 && i <= |Chunk(arr, count)|
    ensures Chunk(arr, count)[i..] == Chunk(arr[Cut(|arr|, count, i)..], count)
    decreases i
  {
    FirstCuts(|arr|, count);
    if i > 0 {
      ChunksFrom(arr, count, i - 1);
      ChunkBehind(arr, count, i - 1);
      assert Chunk(arr, count)[i - 1..][1..] == Chunk(arr, count)[i..];
    }
  }

  lemma ChunkBehind<T>(arr: seq<T>, count: nat, i: nat)
    requires count > 0 && Chunk(arr[Cut(|arr|, count, i)..], count) != []
    ensures Cut(|arr|, count, i) < Cut(|arr|, count, i + 1)
    ensures Chunk(arr[Cut(|arr|, count, i)..], count) ==
            [arr[Cut(|arr|, count, i)..Cut(|arr|, count, i + 1)]] + Chunk(arr[Cut(|arr|, count, i + 1)..], count)
  {
    NextCut(arr, count, i);
  }

  // The chunks cut the list at the multiples of `count`.
  lemma ChunkAt<T>(arr: seq<T>, count: nat, i: nat)
    requires count > 0 && i <= |Chunk(arr, count)|
    ensures i < |Chunk(arr, count)| ==> Cut(|arr|, count, i) < Cut(|arr|, count, i + 1) &&
                                        Chunk(arr, count)[i] == arr[Cut(|arr|, count, i)..Cut(|arr|, count, i + 1)]
    ensures i == |Chunk(arr, count)| ==> Cut(|arr|, count, i) == |arr|
  {
    ChunksFrom(arr, count, i);
    if i < |Chunk(arr, count)| {
      ChunkBehind(arr, count, i);
      assert Chunk(arr, count)[i] == Chunk(arr, count)[i..][0];
    }
  }

  lemma FirstCuts(n: nat, count: nat)
    ensures Cut(n, count, 0) == 0 && Cut(n, count, 1) == Min(n, count)
  {
    assert 0 * count == 0;
    assert 1 * count == count;
  }
}
