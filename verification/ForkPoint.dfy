/** Where two stored chains part (lookup_fork_chain of find_fork_point.py). */
module ForkPoint {
  import opened Types
  import opened BlockStore

  /** The last height at which the two chains agree; -1 when they share nothing. */
  ghost predicate IsForkHeight(c1: seq<Block>, c2: seq<Block>, f: int) {
    && -1 <= f < |c1| && f < |c2|
    && c1[..f + 1] == c2[..f + 1]
    && (f + 1 < |c1| && f + 1 < |c2| ==> c1[f + 1].hash != c2[f + 1].hash)
  }

  /** The hash a block leads back to: blocks.prev_block_hash. */
  function PrevHash(store: Store, h: Hash): Hash
    requires h in store
  {
    store[h].prevHash
  }

  /** The walk on the chain to h stands at a height. */
  ghost predicate Stands(store: Store, h: Hash, height: int, at: Hash)
    requires Linked(store) && h in store
  {
    0 <= height <= store[h].height && at in store && at == ChainTo(store, h)[height].hash
    && store[at] == ChainTo(store, h)[height]
  }

  lemma WalkStarts(store: Store, h: Hash)
    requires Linked(store) && h in store
    ensures Stands(store, h, store[h].height, h)
  {
    assert LinkedAt(store, h);
  }

  lemma WalkGoesDown(store: Store, h: Hash, height: int, at: Hash)
    requires Linked(store) && h in store && Stands(store, h, height, at) && height > 0
    ensures Stands(store, h, height - 1, PrevHash(store, at))
  {
    StepBack(store, h, height);
  }

  /** The hashes of a chain strictly above a height, by height. */
  ghost predicate HashesAbove(hashes: map<nat, Hash>, chain: seq<Block>, height: int) {
    && -1 <= height < |chain|
    && (forall i :: i in hashes <==> height < i < |chain|)
    && (forall i :: i in hashes ==> hashes[i] == chain[i].hash)
    && |hashes| == |chain| - 1 - height
  }

  lemma AboveCount(hashes: map<nat, Hash>, chain: seq<Block>, height: int)
    requires HashesAbove(hashes, chain, height)
    ensures |hashes| == |chain| - 1 - height
  {
  }

  lemma NothingAbove(chain: seq<Block>)
    requires chain != []
    ensures HashesAbove(map[], chain, |chain| - 1)
  {
  }

  lemma OneLower(hashes: map<nat, Hash>, chain: seq<Block>, height: nat)
    requires HashesAbove(hashes, chain, height)
    ensures HashesAbove(hashes[height := chain[height].hash], chain, height - 1)
  {
  }

  /** The two walks stand on equal hashes, having differed one height above: this is the fork. */
  lemma ForkFound(store: Store, hash1: Hash, hash2: Hash, height: nat, at: Hash)
    requires Linked(store) && hash1 in store && hash2 in store
    requires Stands(store, hash1, height, at) && Stands(store, hash2, height, at)
    requires Differ(ChainTo(store, hash1), ChainTo(store, hash2), height + 1)
    ensures IsForkHeight(ChainTo(store, hash1), ChainTo(store, hash2), height)
  {
    SameHashSamePrefix(store, hash1, hash2, height);
  }

  ghost predicate Differ(c1: seq<Block>, c2: seq<Block>, height: nat) {
    height < |c1| && height < |c2| ==> c1[height].hash != c2[height].hash
  }

  /** Walks both chains down to their common block; returns the second chain above it, by height. */
  method LookupForkChain(store: Store, height1: nat, hash1: Hash, height2: nat, hash2: Hash)
      returns (chain: map<nat, Hash>, forkHash: Hash)
    requires Linked(store) && hash1 in store && hash2 in store
    requires store[hash1].height == height1 && store[hash2].height == height2
    ensures IsForkHeight(ChainTo(store, hash1), ChainTo(store, hash2), height2 - |chain|)
    ensures HashesAbove(chain, ChainTo(store, hash2), height2 - |chain|)
    ensures forkHash == if |chain| > height2 then 0 else ChainTo(store, hash2)[height2 - |chain|].hash
  {
    hide ChainTo, Linked, HashesAbove, LinkedAt;
    ghost var c1, c2 := ChainTo(store, hash1), ChainTo(store, hash2);
    var h1, bh1, h2, bh2 := height1, hash1, height2, hash2;
    chain := map[];
    WalkStarts(store, hash1);
    WalkStarts(store, hash2);
    while h1 > h2
      invariant Stands(store, hash1, h1, bh1) && (h1 < height1 ==> h2 <= h1)
    {
      WalkGoesDown(store, hash1, h1, bh1);
      bh1 := PrevHash(store, bh1);
      h1 := h1 - 1;
    }
    NothingAbove(c2);
    while h2 > h1
      invariant Stands(store, hash2, h2, bh2) && h1 <= h2 && HashesAbove(chain, c2, h2)
      invariant h1 < height1 ==> h1 == h2 == height2
    {
      OneLower(chain, c2, h2);
      chain := chain[h2 := bh2];
      WalkGoesDown(store, hash2, h2, bh2);
      bh2 := PrevHash(store, bh2);
      h2 := h2 - 1;
    }
    var height := h2;
    while height > 0 && bh1 != bh2
      invariant Stands(store, hash1, height, bh1) && Stands(store, hash2, height, bh2)
      invariant HashesAbove(chain, c2, height) && Differ(c1, c2, height + 1)
    {
      OneLower(chain, c2, height);
      chain := chain[height := bh2];
      WalkGoesDown(store, hash1, height, bh1);
      WalkGoesDown(store, hash2, height, bh2);
      bh1, bh2 := PrevHash(store, bh1), PrevHash(store, bh2);
      height := height - 1;
    }
    if bh1 == bh2 {
      ForkFound(store, hash1, hash2, height, bh1);
      AboveCount(chain, c2, height);
      return chain, bh2;
    }
    OneLower(chain, c2, 0);
    chain := chain[0 := bh2];
    AboveCount(chain, c2, -1);
    return chain, 0;
  }
}
