/** The block table: blocks by header hash, and the chain of ancestors of each. */
module BlockStore {
  import opened Types
  import opened Headers
  import opened Bodies
  import opened BodyTheorems

  type Store = map<Hash, Block>

  predicate LinkedAt(store: Store, h: Hash)
    requires h in store
  {
    && store[h].hash == h
    && (store[h].height > 0 ==>
          store[h].prevHash in store && store[store[h].prevHash].height == store[h].height - 1)
  }

  /** Every stored block is stored under its hash, and its parent is stored one height below. */
  predicate Linked(store: Store) {
    forall h {:trigger LinkedAt(store, h)} :: h in store ==> LinkedAt(store, h)
  }

  /** The chain from genesis to a stored block. */
  function ChainTo(store: Store, h: Hash): (chain: seq<Block>)
    requires Linked(store) && h in store
    ensures |chain| == store[h].height + 1 && chain[|chain| - 1] == store[h]
    decreases store[h].height
  {
    assert LinkedAt(store, h);
    if store[h].height == 0 then [store[h]] else ChainTo(store, store[h].prevHash) + [store[h]]
  }

  /** The ancestors of a block that need not be stored itself. */
  function Ancestors(store: Store, b: Block): seq<Block>
    requires Linked(store) && (b.height == 0 || b.prevHash in store)
  {
    if b.height == 0 then [] else ChainTo(store, b.prevHash)
  }

  lemma StoredUnderHash(store: Store, h: Hash)
    requires Linked(store) && h in store
    ensures store[h].hash == h
  {
    assert LinkedAt(store, h);
  }

  /** Every prefix of a stored chain is the chain of its own last block. */
  lemma {:induction false} ChainToPrefix(store: Store, h: Hash, i: nat)
    requires Linked(store) && h in store && i < |ChainTo(store, h)|
    ensures var c := ChainTo(store, h);
            c[i].hash in store && store[c[i].hash] == c[i] && ChainTo(store, c[i].hash) == c[..i + 1]
    decreases store[h].height
  {
    assert LinkedAt(store, h);
    var c := ChainTo(store, h);
    if i == |c| - 1 {
      assert c[..i + 1] == c;
    } else {
      ChainToPrefix(store, store[h].prevHash, i);
      assert c[..i + 1] == ChainTo(store, store[h].prevHash)[..i + 1];
    }
  }

  /** Following prev_hash from a block of the chain gives the block below it. */
  lemma StepBack(store: Store, h: Hash, i: nat)
    requires Linked(store) && h in store && 0 < i < |ChainTo(store, h)|
    ensures var c := ChainTo(store, h);
            c[i].height == i && c[i].prevHash in store && store[c[i].prevHash] == c[i - 1]
            && c[i].prevHash == c[i - 1].hash
  {
    var c := ChainTo(store, h);
    ChainToPrefix(store, h, i);
    assert LinkedAt(store, c[i].hash);
    assert ChainTo(store, c[i].hash) == ChainTo(store, c[i].prevHash) + [c[i]];
    assert c[..i + 1][i - 1] == c[i - 1];
    assert LinkedAt(store, c[i].prevHash);
  }

  /** Two stored chains that meet at a height are the same up to it. */
  lemma SameHashSamePrefix(store: Store, h1: Hash, h2: Hash, i: nat)
    requires Linked(store) && h1 in store && h2 in store
    requires i < |ChainTo(store, h1)| && i < |ChainTo(store, h2)|
    ensures ChainTo(store, h1)[i].hash == ChainTo(store, h2)[i].hash <==>
            ChainTo(store, h1)[..i + 1] == ChainTo(store, h2)[..i + 1]
  {
    ChainToPrefix(store, h1, i);
    ChainToPrefix(store, h2, i);
    assert ChainTo(store, h1)[..i + 1][i] == ChainTo(store, h1)[i];
    assert ChainTo(store, h2)[..i + 1][i] == ChainTo(store, h2)[i];
  }

  /** Storing a new block leaves the chains of the others alone. */
  lemma {:induction false} ChainToStable(store: Store, b: Block, h: Hash)
    requires Linked(store) && h in store && b.hash !in store && Linked(store[b.hash := b])
    ensures ChainTo(store[b.hash := b], h) == ChainTo(store, h)
    decreases store[h].height
  {
    assert LinkedAt(store, h);
    if store[h].height > 0 {
      ChainToStable(store, b, store[h].prevHash);
    }
  }

  lemma AddKeepsLinked(store: Store, b: Block)
    requires Linked(store) && b.hash !in store
    requires b.height == 0 || (b.prevHash in store && store[b.prevHash].height == b.height - 1)
    ensures Linked(store[b.hash := b])
    ensures ChainTo(store[b.hash := b], b.hash) == Ancestors(store, b) + [b]
  {
    var store' := store[b.hash := b];
    forall h | h in store' ensures LinkedAt(store', h) {
      if h != b.hash {
        assert LinkedAt(store, h);
      }
    }
    if b.height > 0 {
      ChainToStable(store, b, b.prevHash);
    }
  }

  /** Every stored block, orphan or not, sits on a valid chain. */
  ghost predicate AllValid(k: Constants, store: Store)
    requires Linked(store)
  {
    forall h {:trigger ChainTo(store, h)} :: h in store ==> ValidChain(k, ChainTo(store, h))
  }

  lemma AddKeepsValid(k: Constants, store: Store, b: Block)
    requires Linked(store) && AllValid(k, store) && b.hash !in store
    requires b.height == 0 || b.prevHash in store
    requires Accepted(k, Ancestors(store, b), b)
    ensures Linked(store[b.hash := b]) && AllValid(k, store[b.hash := b])
  {
    hide BodyAccepted, IterRule, SlotRule, BlockCountRule, InfusionRule, DeficitRule, TxRule, TxLinkRule, ValidChain;
    var store' := store[b.hash := b];
    if b.height > 0 {
      assert |ChainTo(store, b.prevHash)| == store[b.prevHash].height + 1;
    }
    AddKeepsLinked(store, b);
    forall h | h in store' ensures ValidChain(k, ChainTo(store', h)) {
      if h == b.hash {
        if b.height == 0 {
          EmptyIsValid(k);
        }
        ValidSnoc(k, Ancestors(store, b), b);
      } else {
        ChainToStable(store, b, h);
      }
    }
  }

  lemma EmptyIsValid(k: Constants)
    ensures ValidChain(k, [])
  {
  }

  // ---- walking back -------------------------------------------------------------

  /** The walk to the previous transaction block, starting at a stored block. */
  method WalkToTx(store: Store, h: Hash) returns (curr: Block)
    requires Linked(store) && h in store && LastTx(ChainTo(store, h)) >= 0
    ensures curr == ChainTo(store, h)[LastTx(ChainTo(store, h))]
  {
    ghost var c := ChainTo(store, h);
    ghost var i := |c| - 1;
    curr := store[h];
    while !curr.IsTx()
      invariant LastTx(c) <= i < |c| && curr == c[i]
      decreases i
    {
      StepBack(store, h, i);
      curr := store[curr.prevHash];
      i := i - 1;
    }
  }

  /** The walk to the first block of the current sub-slot. */
  method WalkToSlotStart(store: Store, h: Hash) returns (curr: Block, steps: nat)
    requires Linked(store) && h in store && SlotStart(ChainTo(store, h)) >= 0
    ensures curr == ChainTo(store, h)[SlotStart(ChainTo(store, h))]
    ensures steps == |ChainTo(store, h)| - 1 - SlotStart(ChainTo(store, h))
  {
    ghost var c := ChainTo(store, h);
    ghost var i := |c| - 1;
    curr, steps := store[h], 0;
    while !curr.FirstInSubSlot()
      invariant SlotStart(c) <= i < |c| && curr == c[i] && steps == |c| - 1 - i
      decreases i
    {
      StepBack(store, h, i);
      curr := store[curr.prevHash];
      steps := steps + 1;
      i := i - 1;
    }
  }

  /** The walk to the block that anchors the running infused chain. */
  method WalkToIccAnchor(k: Constants, store: Store, h: Hash) returns (curr: Block)
    requires Linked(store) && h in store && IccAnchor(k, ChainTo(store, h)) >= 0
    ensures curr == ChainTo(store, h)[IccAnchor(k, ChainTo(store, h))]
  {
    ghost var c := ChainTo(store, h);
    ghost var i := |c| - 1;
    curr := store[h];
    while !IsChallengeBlock(k, curr) && !curr.FirstInSubSlot()
      invariant IccAnchor(k, c) <= i < |c| && curr == c[i]
      decreases i
    {
      StepBack(store, h, i);
      curr := store[curr.prevHash];
      i := i - 1;
    }
  }
}
