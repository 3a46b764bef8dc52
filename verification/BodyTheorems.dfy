/** What body acceptance means for whole chains: coins, rewards. */
module BodyTheorems {
  import opened Types
  import opened CoinLedger
  import opened Headers
  import opened HeaderTheorems
  import opened Bodies

  // ---- prefixes -----------------------------------------------------------------------

  lemma ValidPrefix(k: Constants, chain: seq<Block>, n: nat)
    requires ValidChain(k, chain) && n <= |chain|
    ensures ValidChain(k, chain[..n])
  {
    hide Accepted;
    forall i | 0 <= i < n ensures Accepted(k, chain[..n][..i], chain[..n][i]) {
      assert chain[..n][..i] == chain[..i];
      assert Accepted(k, chain[..i], chain[i]);
    }
  }

  lemma ValidAt(k: Constants, chain: seq<Block>, i: nat)
    requires ValidChain(k, chain) && i < |chain|
    ensures ValidChain(k, chain[..i]) && Accepted(k, chain[..i], chain[i])
  {
    hide Accepted;
    ValidPrefix(k, chain, i);
  }

  lemma ValidLast(k: Constants, chain: seq<Block>)
    requires ValidChain(k, chain) && chain != []
    ensures ValidChain(k, chain[..|chain| - 1]) && Accepted(k, chain[..|chain| - 1], Last(chain))
    ensures chain[..|chain| - 1] + [Last(chain)] == chain
  {
    hide Accepted;
    ValidAt(k, chain, |chain| - 1);
  }

  lemma ValidSnoc(k: Constants, chain: seq<Block>, b: Block)
    requires ValidChain(k, chain) && Accepted(k, chain, b)
    ensures ValidChain(k, chain + [b])
  {
    hide Accepted;
    var longer := chain + [b];
    forall i | 0 <= i < |longer| ensures Accepted(k, longer[..i], longer[i]) {
      assert longer[..i] == chain[..i];
      if i < |chain| {
        assert Accepted(k, chain[..i], chain[i]);
      } else {
        assert chain[..i] == chain;
      }
    }
  }

  lemma ValidHeaders(k: Constants, chain: seq<Block>)
    requires ValidChain(k, chain)
    ensures HeaderChain(k, chain)
  {
    hide HeaderAccepted, BodyAccepted;
    forall i | 0 <= i < |chain| ensures HeaderAccepted(k, chain[..i], chain[i]) {
      assert Accepted(k, chain[..i], chain[i]);
    }
  }

  /** The body of an accepted block, by kind of block. */
  lemma AcceptedBody(k: Constants, chain: seq<Block>, b: Block)
    requires Accepted(k, chain, b)
    ensures b.height == |chain|
    ensures b.IsTx() ==> TxBodyAccepted(k, chain, b)
    ensures !b.IsTx() ==> NoTxData(b)
  {
  }

  lemma EffectsPrefix(chain: seq<Block>, n: nat)
    requires n <= |chain|
    ensures AllEffects(chain[..n]) == AllEffects(chain)[..n]
  {
  }

  lemma EffectsSnoc(chain: seq<Block>, b: Block)
    ensures AllEffects(chain + [b]) == AllEffects(chain) + [EffectsOf(b)]
    ensures LedgerAt(chain + [b]) == Apply(LedgerAt(chain), |chain|, EffectsOf(b))
  {
    var es := AllEffects(chain + [b]);
    assert es == AllEffects(chain) + [EffectsOf(b)];
    assert es[..|es| - 1] == AllEffects(chain);
  }

  // ---- reward claims ---------------------------------------------------------------------

  /** Membership in a claim list, by height. */
  lemma {:induction false} ClaimListMembers(chain: seq<Block>, lo: nat, hi: nat, c: Coin)
    requires hi <= |chain|
    ensures c in ClaimList(chain, lo, hi) <==>
            exists i :: lo <= i < hi && (c == PoolCoin(chain[i]) || c == FarmerCoin(chain[i]))
  {
    if lo < hi {
      ClaimListMembers(chain, lo, hi - 1, c);
      assert c in ClaimList(chain, lo, hi) <==>
             c == PoolCoin(chain[hi - 1]) || c == FarmerCoin(chain[hi - 1]) || c in ClaimList(chain, lo, hi - 1);
    }
  }

  /** The block a claimed coin belongs to, read off its parent id. */
  lemma ClaimHeight(chain: seq<Block>, lo: nat, hi: nat, c: Coin)
    requires hi <= |chain| && c in ClaimList(chain, lo, hi)
    requires forall i :: 0 <= i < |chain| ==> chain[i].height == i
    ensures c.parent.Reward? && lo <= c.parent.height < hi
    ensures c == if c.parent.kind.Pool? then PoolCoin(chain[c.parent.height]) else FarmerCoin(chain[c.parent.height])
  {
    ClaimListMembers(chain, lo, hi, c);
  }

  lemma {:induction false} ClaimListDistinct(chain: seq<Block>, lo: nat, hi: nat)
    requires hi <= |chain|
    requires forall i :: 0 <= i < |chain| ==> chain[i].height == i
    ensures NoDuplicates(ClaimList(chain, lo, hi))
  {
    if lo < hi {
      ClaimListDistinct(chain, lo, hi - 1);
      var rest := ClaimList(chain, lo, hi - 1);
      forall c | c in rest ensures c.parent.Reward? && c.parent.height < hi - 1 {
        ClaimHeight(chain, lo, hi - 1, c);
      }
      var all := ClaimList(chain, lo, hi);
      forall i, j | 0 <= i < j < |all| ensures all[i] != all[j] {
        assert j >= 2 ==> all[j] == rest[j - 2] && all[j] in rest;
        assert i >= 2 ==> all[i] == rest[i - 2];
      }
    }
  }

  /** A claim list only looks at its own blocks. */
  lemma {:induction false} ClaimListStable(chain: seq<Block>, longer: seq<Block>, lo: nat, hi: nat)
    requires hi <= |chain| <= |longer|
    requires forall i :: 0 <= i < hi ==> chain[i] == longer[i]
    ensures ClaimList(chain, lo, hi) == ClaimList(longer, lo, hi)
  {
    if lo < hi {
      ClaimListStable(chain, longer, lo, hi - 1);
    }
  }

  // ---- the block as one step of the ledger -------------------------------------------------

  lemma {:induction false} CreatedParents(spends: seq<Spend>, c: Coin)
    requires c in Created(spends)
    ensures c.parent.Spent? && c.parent.coin in Removed(spends)
  {
    var n := |spends| - 1;
    if c in SpendOutputs(spends[n]) {
      assert Removed(spends)[n] == spends[n].coin;
    } else {
      CreatedParents(spends[..n], c);
      var i :| 0 <= i < n && Removed(spends[..n])[i] == c.parent.coin;
      assert Removed(spends)[i] == c.parent.coin;
    }
  }

  /** A block without transaction data has no effects. */
  lemma NoTxNoEffects(b: Block)
    requires NoTxData(b)
    ensures EffectsOf(b) == Effects({}, {}, {}, 0)
  {
    assert Spends(b) == [];
  }

  lemma SpendsHaveEffects(b: Block)
    ensures EffectsOf(b).spent == {} ==> Spends(b) == []
  {
    if Spends(b) != [] {
      assert Removed(Spends(b))[0] in EffectsOf(b).spent;
    }
  }

  /** The reward coins in the table are exactly those of the blocks claimed so far. */
  ghost predicate RewardsExact(chain: seq<Block>, l: Ledger) {
    forall c: Coin :: c.parent.Reward? ==> (c in l <==> c in ClaimList(chain, 0, ClaimedCount(chain)))
  }

  /** An accepted block is a sound step. */
  lemma AcceptedIsStep(k: Constants, chain: seq<Block>, b: Block)
    requires HeaderChain(k, chain) && Accepted(k, chain, b)
    requires RewardsExact(chain, LedgerAt(chain))
    ensures StepOk(LedgerAt(chain), |chain|, EffectsOf(b))
    ensures EffectsOf(b).rewards !! EffectsOf(b).created
  {
    var l, e := LedgerAt(chain), EffectsOf(b);
    if !b.hasFoliageTxHash {
      NoTxNoEffects(b);
    } else {
      Grounded(k, chain);
      forall c | c in e.created ensures c.parent.Spent? && c.parent.coin in e.spent {
        CreatedParents(Spends(b), c);
      }
      forall c | c in e.rewards ensures c.parent.Reward? && c !in l {
        assert c in ExpectedClaims(chain);
        ClaimHeight(chain, ClaimedCount(chain), LastTx(chain) + 1, c);
        if c in l {
          ClaimHeight(chain, 0, ClaimedCount(chain), c);
        }
      }
      assert chain == [] ==> ExpectedClaims(chain) == [];
    }
  }

  // ---- every accepted chain ------------------------------------------------------------------

  /** A block that is not a transaction block moves neither the claims nor the table. */
  lemma NonTxStep(chain: seq<Block>, b: Block)
    requires NoTxData(b)
    ensures LedgerAt(chain + [b]) == LedgerAt(chain)
    ensures LastTx(chain + [b]) == LastTx(chain) && ClaimedCount(chain + [b]) == ClaimedCount(chain)
  {
    NoTxNoEffects(b);
    EffectsSnoc(chain, b);
    assert (chain + [b])[..|chain|] == chain;
    if LastTx(chain) >= 0 {
      assert (chain + [b])[..LastTx(chain)] == chain[..LastTx(chain)];
    }
  }

  lemma TxStep(chain: seq<Block>, b: Block)
    requires b.IsTx()
    ensures LastTx(chain + [b]) == |chain| && ClaimedCount(chain + [b]) == LastTx(chain) + 1
  {
    assert (chain + [b])[..|chain|] == chain;
  }

  /** The reward coins in the table after a transaction block: those before it, and its claims. */
  lemma RewardsAfterTx(chain: seq<Block>, b: Block, c: Coin)
    requires ClaimsOk(chain, b) && c.parent.Reward?
    ensures c in LedgerAt(chain + [b]) <==> c in LedgerAt(chain) || c in ExpectedClaims(chain)
  {
    EffectsSnoc(chain, b);
    var e := EffectsOf(b);
    if c in e.created {
      CreatedParents(Spends(b), c);
    }
    assert c in e.rewards <==> c in ToSet(ExpectedClaims(chain));
  }

  /** A transaction block turns the expected claims into claimed ones. */
  lemma ClaimsStepTx(chain: seq<Block>, b: Block)
    requires ClaimsOk(chain, b) && b.IsTx()
    requires ClaimedCount(chain) <= LastTx(chain) + 1
    requires RewardsExact(chain, LedgerAt(chain))
    ensures RewardsExact(chain + [b], LedgerAt(chain + [b]))
  {
    hide LedgerAt, ClaimedCount, ClaimsOk, PoolCoin, FarmerCoin, ClaimList, LastTx;
    var chain', n, p := chain + [b], ClaimedCount(chain), LastTx(chain);
    TxStep(chain, b);
    ClaimListStable(chain, chain', 0, p + 1);
    forall c: Coin | c.parent.Reward?
      ensures c in LedgerAt(chain') <==> c in ClaimList(chain', 0, p + 1)
    {
      RewardsAfterTx(chain, b, c);
      ClaimListMembers(chain, 0, n, c);
      ClaimListMembers(chain, n, p + 1, c);
      ClaimListMembers(chain, 0, p + 1, c);
    }
  }

  lemma ClaimsStep(k: Constants, chain: seq<Block>, b: Block)
    requires Accepted(k, chain, b)
    requires RewardsExact(chain, LedgerAt(chain))
    ensures RewardsExact(chain + [b], LedgerAt(chain + [b]))
  {
    if b.hasFoliageTxHash {
      ClaimsStepTx(chain, b);
    } else {
      NonTxStep(chain, b);
      ClaimListStable(chain, chain + [b], 0, ClaimedCount(chain));
    }
  }

  /** The central lemma: replaying an accepted chain is sound at every step, and claims are exact. */
  lemma {:induction false} ChainIsSound(k: Constants, chain: seq<Block>)
    requires ValidChain(k, chain)
    ensures Sound(AllEffects(chain))
    ensures RewardsExact(chain, LedgerAt(chain))
  {
    hide Accepted, HeaderChain, StepOk, Apply, EffectsOf;
    if chain != [] {
      var before, b := chain[..|chain| - 1], Last(chain);
      ValidLast(k, chain);
      ChainIsSound(k, before);
      ValidHeaders(k, before);
      AcceptedIsStep(k, before, b);
      ClaimsStep(k, before, b);
      EffectsSnoc(before, b);
      SoundSnoc(AllEffects(before), EffectsOf(b));
    }
  }

  /** On every accepted chain a coin is created at most once, spent at most once, and never spent before it exists. */
  lemma NoDoubleSpend(k: Constants, chain: seq<Block>, i: nat, j: nat, c: Coin)
    requires ValidChain(k, chain) && i < |chain| && j < |chain|
    ensures c in EffectsOf(chain[i]).Added() && c in EffectsOf(chain[j]).Added() ==> i == j
    ensures c in EffectsOf(chain[i]).spent && c in EffectsOf(chain[j]).spent ==> i == j
    ensures c in EffectsOf(chain[j]).spent ==> exists h :: 0 <= h <= j && c in EffectsOf(chain[h]).Added()
    ensures Spends(chain[0]) == []
  {
    ChainIsSound(k, chain);
    var es := AllEffects(chain);
    CreatedOnceSpentOnce(es, i, j, c);
    if c in es[j].spent {
      var h :| 0 <= h <= j && c in es[h].Added();
      assert c in EffectsOf(chain[h]).Added();
    }
    ReplayIsLedger(es);
    assert es[0].spent == {};
    SpendsHaveEffects(chain[0]);
  }

  /** Successive transaction blocks claim adjacent intervals of heights: from just above the last claim to P. */
  lemma ClaimIntervals(k: Constants, chain: seq<Block>, b: Block)
    requires ValidChain(k, chain) && Accepted(k, chain, b) && b.IsTx()
    ensures NoDuplicates(Claims(b))
    ensures forall c :: c in Claims(b) <==>
              exists i ::
                ClaimedCount(chain) <= i <= LastTx(chain) && (c == PoolCoin(chain[i]) || c == FarmerCoin(chain[i]))
    ensures ClaimedCount(chain + [b]) == LastTx(chain) + 1
  {
    TxStep(chain, b);
    forall c
      ensures c in Claims(b) <==>
        exists i :: ClaimedCount(chain) <= i <= LastTx(chain) && (c == PoolCoin(chain[i]) || c == FarmerCoin(chain[i]))
    {
      assert c in Claims(b) <==> c in ToSet(Claims(b));
      ClaimListMembers(chain, ClaimedCount(chain), LastTx(chain) + 1, c);
    }
  }

  /**
   Every reward exactly once: for a block up to the last but one transaction block, its
   pool coin and its farmer coin are in the table, they are the only coins with those
   parents, and a later block has no reward coin in the table yet.
   */
  lemma RewardsExactlyOnce(k: Constants, chain: seq<Block>, i: nat, c: Coin)
    requires ValidChain(k, chain) && i < |chain|
    ensures i < ClaimedCount(chain) ==>
              PoolCoin(chain[i]) in LedgerAt(chain) && FarmerCoin(chain[i]) in LedgerAt(chain)
    ensures c in LedgerAt(chain) && c.parent == Reward(Pool, i) ==> i < ClaimedCount(chain) && c == PoolCoin(chain[i])
    ensures c in LedgerAt(chain) && c.parent == Reward(Farmer, i) ==>
              i < ClaimedCount(chain) && c == FarmerCoin(chain[i])
  {
    ChainIsSound(k, chain);
    ValidHeaders(k, chain);
    Grounded(k, chain);
    var n := ClaimedCount(chain);
    ClaimListMembers(chain, 0, n, PoolCoin(chain[i]));
    ClaimListMembers(chain, 0, n, FarmerCoin(chain[i]));
    if c in LedgerAt(chain) && c.parent.Reward? {
      ClaimHeight(chain, 0, n, c);
    }
  }

  /** A chain can be extended by a transaction block only if its genesis block has a timestamp other than 0. */
  lemma GenesisTimestampDecides(k: Constants, chain: seq<Block>)
    requires ValidChain(k, chain) && chain != []
    ensures PrevTimestampOk(chain) <==> chain[0].Timestamp() > 0
  {
    hide ValidChain, HeaderChain, Accepted;
    ValidHeaders(k, chain);
    Grounded(k, chain);
    var p := LastTx(chain);
    if p > 0 {
      TransactionOrder(k, chain, 0, p);
      ValidAt(k, chain, p);
      AcceptedBody(k, chain[..p], chain[p]);
      GenesisTimestampDecides(k, chain[..p]);
      assert chain[..p][0] == chain[0];
    }
  }
}
