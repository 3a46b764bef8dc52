/** What a valid chain does to coins, read off the fields of its blocks. */
module ChainContents {
  import opened Types
  import opened Rewards
  import opened CoinLedger
  import opened CoinSums
  import opened MerkleRoots
  import opened Headers
  import opened HeaderTheorems
  import opened Bodies
  import opened BodyTheorems

  // ---- the coins of a list of spends -------------------------------------------------------

  /** The coin is output j of the spend. */
  ghost predicate IsOutput(s: Spend, j: nat, c: Coin)
    requires j < |s.outputs|
  {
    c.parent == Spent(s.coin) && c.puzzleHash == s.outputs[j].puzzleHash && c.amount == s.outputs[j].amount
  }

  /** Some spend makes the coin. */
  ghost predicate MadeBy(spends: seq<Spend>, c: Coin) {
    exists i, j :: 0 <= i < |spends| && 0 <= j < |spends[i].outputs| && IsOutput(spends[i], j, c)
  }

  ghost predicate SpentBy(spends: seq<Spend>, c: Coin) {
    exists i :: 0 <= i < |spends| && spends[i].coin == c
  }

  lemma OutputsAre(s: Spend, c: Coin)
    ensures c in SpendOutputs(s) <==> exists j :: 0 <= j < |s.outputs| && IsOutput(s, j, c)
  {
    if c in SpendOutputs(s) {
      var j :| 0 <= j < |s.outputs| && SpendOutputs(s)[j] == c;
      assert IsOutput(s, j, c);
    }
    if j :| 0 <= j < |s.outputs| && IsOutput(s, j, c) {
      assert SpendOutputs(s)[j] == c;
    }
  }

  /** The created coins are exactly the outputs of the spends. */
  lemma {:induction false} CreatedIsMade(spends: seq<Spend>, c: Coin)
    ensures c in Created(spends) <==> MadeBy(spends, c)
  {
    hide SpendOutputs, IsOutput;
    if spends != [] {
      var n := |spends| - 1;
      CreatedIsMade(spends[..n], c);
      OutputsAre(spends[n], c);
      assert c in Created(spends) <==> c in Created(spends[..n]) || c in SpendOutputs(spends[n]);
      MadeByLast(spends, c);
    }
  }

  lemma MadeByLast(spends: seq<Spend>, c: Coin)
    requires spends != []
    ensures var n := |spends| - 1;
            MadeBy(spends, c) <==>
            MadeBy(spends[..n], c) || exists j :: 0 <= j < |spends[n].outputs| && IsOutput(spends[n], j, c)
  {
    hide IsOutput;
    var n := |spends| - 1;
    if i, j :| 0 <= i < n && 0 <= j < |spends[..n][i].outputs| && IsOutput(spends[..n][i], j, c) {
      assert IsOutput(spends[i], j, c);
    }
    if i, j :| 0 <= i < |spends| && 0 <= j < |spends[i].outputs| && IsOutput(spends[i], j, c) {
      assert i < n ==> IsOutput(spends[..n][i], j, c);
    }
  }

  lemma RemovedIsSpent(spends: seq<Spend>, c: Coin)
    ensures c in Removed(spends) <==> SpentBy(spends, c)
  {
    if i :| 0 <= i < |spends| && spends[i].coin == c {
      assert Removed(spends)[i] == c;
    }
  }

  // ---- the coin table of a valid chain --------------------------------------------------------

  /** Every record: under its own coin, with height and timestamp of a transaction block, flagged for rewards only. */
  lemma RecordOf(k: Constants, chain: seq<Block>, c: Coin)
    requires ValidChain(k, chain) && c in LedgerAt(chain)
    ensures var r := LedgerAt(chain)[c];
            && r.coin == c && r.confirmed < |chain|
            && chain[r.confirmed].foliageTx.Some? && r.timestamp == chain[r.confirmed].foliageTx.value.timestamp
            && (r.coinbase <==> c.parent.Reward?)
  {
    hide ValidChain, Accepted, Sound, Replay, RewardsExact, TxBodyAccepted, Created, Spends;
    ChainIsSound(k, chain);
    ReplayIsLedger(AllEffects(chain));
    var h := LedgerAt(chain)[c].confirmed;
    assert c in AllEffects(chain)[h].Added();
    ValidAt(k, chain, h);
    AcceptedBody(k, chain[..h], chain[h]);
    if !chain[h].IsTx() {
      NoTxNoEffects(chain[h]);
    }
    ParentTells(k, chain, h, c);
  }

  /** Rewards have reward parents, created coins have spent parents. */
  lemma ParentTells(k: Constants, chain: seq<Block>, h: nat, c: Coin)
    requires ValidChain(k, chain) && h < |chain|
    ensures c in EffectsOf(chain[h]).rewards ==> c.parent.Reward?
    ensures c in EffectsOf(chain[h]).created ==> c.parent.Spent?
  {
    hide ValidChain, Accepted, OutputsOk, RootsOk, SpendsOk, FeesOk, PuzzlesOk, Created, ClaimList;
    ValidAt(k, chain, h);
    AcceptedBody(k, chain[..h], chain[h]);
    if c in EffectsOf(chain[h]).created {
      CreatedParents(Spends(chain[h]), c);
    }
    if c in EffectsOf(chain[h]).rewards {
      assert c in ToSet(ExpectedClaims(chain[..h]));
      ClaimListMembers(chain[..h], ClaimedCount(chain[..h]), LastTx(chain[..h]) + 1, c);
    }
  }

  /** What the table says about a height is what the block at that height adds and spends. */
  lemma AtHeight(k: Constants, chain: seq<Block>, h: nat, c: Coin)
    requires ValidChain(k, chain) && h < |chain|
    ensures c in LedgerAt(chain) && LedgerAt(chain)[c].confirmed == h <==> c in EffectsOf(chain[h]).Added()
    ensures 0 < h && c in LedgerAt(chain) && LedgerAt(chain)[c].spent == h <==> c in EffectsOf(chain[h]).spent
  {
    hide ValidChain, Sound, Replay, RewardsExact, EffectsOf;
    ChainIsSound(k, chain);
    var es := AllEffects(chain);
    ReplayIsLedger(es);
    assert es[h] == EffectsOf(chain[h]);
    assert c in es[h].Added() <==> c in EffectsOf(chain[h]).Added();
    assert c in es[h].spent <==> c in EffectsOf(chain[h]).spent;
  }

  /** The coins confirmed at a height that are not rewards are exactly the outputs of that block's spends. */
  lemma CoinsMadeAt(k: Constants, chain: seq<Block>, h: nat, c: Coin)
    requires ValidChain(k, chain) && h < |chain|
    ensures c in LedgerAt(chain) && LedgerAt(chain)[c].confirmed == h && !c.parent.Reward? <==>
            chain[h].generator.Some? && MadeBy(chain[h].generator.value.spends, c)
  {
    hide ValidChain, LedgerAt, Created, MadeBy;
    AtHeight(k, chain, h, c);
    ParentTells(k, chain, h, c);
    CreatedIsMade(Spends(chain[h]), c);
    NothingMade(c);
  }

  lemma NothingMade(c: Coin)
    ensures !MadeBy([], c)
  {
  }

  /** The coins spent at a height are exactly those of that block's spends; genesis spends nothing. */
  lemma CoinsSpentAt(k: Constants, chain: seq<Block>, h: nat, c: Coin)
    requires ValidChain(k, chain) && h < |chain|
    ensures 0 < h && c in LedgerAt(chain) && LedgerAt(chain)[c].spent == h <==>
            chain[h].generator.Some? && SpentBy(chain[h].generator.value.spends, c)
  {
    hide ValidChain, LedgerAt, Removed;
    AtHeight(k, chain, h, c);
    RemovedIsSpent(Spends(chain[h]), c);
  }

  // ---- fees -----------------------------------------------------------------------------------

  function OutputAmount(outputs: seq<NewCoin>): nat {
    if outputs == [] then 0 else OutputAmount(outputs[..|outputs| - 1]) + outputs[|outputs| - 1].amount
  }

  function AmountMade(spends: seq<Spend>): nat {
    if spends == [] then 0 else AmountMade(spends[..|spends| - 1]) + OutputAmount(spends[|spends| - 1].outputs)
  }

  function AmountSpent(spends: seq<Spend>): nat {
    if spends == [] then 0 else AmountSpent(spends[..|spends| - 1]) + spends[|spends| - 1].coin.amount
  }

  lemma {:induction false} OutputTotal(s: Spend, n: nat)
    requires n <= |s.outputs|
    ensures Total(SpendOutputs(s)[..n]) == OutputAmount(s.outputs[..n])
  {
    if n > 0 {
      OutputTotal(s, n - 1);
      assert SpendOutputs(s)[..n][..n - 1] == SpendOutputs(s)[..n - 1];
      assert s.outputs[..n][..n - 1] == s.outputs[..n - 1];
    }
  }

  lemma OutputsTotal(s: Spend)
    ensures Total(SpendOutputs(s)) == OutputAmount(s.outputs)
  {
    hide Total, OutputAmount;
    var n := |s.outputs|;
    OutputTotal(s, n);
    assert SpendOutputs(s)[..n] == SpendOutputs(s) && s.outputs[..n] == s.outputs;
  }

  lemma {:induction false} MadeIsTotal(spends: seq<Spend>)
    ensures Total(Created(spends)) == AmountMade(spends)
  {
    hide SpendOutputs, OutputAmount;
    if spends != [] {
      var n := |spends| - 1;
      MadeIsTotal(spends[..n]);
      OutputsTotal(spends[n]);
      TotalAppend(Created(spends[..n]), SpendOutputs(spends[n]));
    }
  }

  lemma {:induction false} SpentIsTotal(spends: seq<Spend>)
    ensures Total(Removed(spends)) == AmountSpent(spends)
  {
    if spends == [] {
      assert Removed(spends) == [];
    } else {
      var n := |spends| - 1;
      SpentIsTotal(spends[..n]);
      assert Removed(spends)[..n] == Removed(spends[..n]);
    }
  }

  lemma TotalsAreAmounts(spends: seq<Spend>)
    ensures Total(Created(spends)) == AmountMade(spends)
    ensures Total(Removed(spends)) == AmountSpent(spends)
  {
    hide Total, Created, Removed, AmountMade, AmountSpent;
    MadeIsTotal(spends);
    SpentIsTotal(spends);
  }

  /** A fee is what the spends leave over, and at least what they reserve; the puzzles are the coins'. */
  lemma FeeIsLeftOver(k: Constants, chain: seq<Block>, h: nat)
    requires ValidChain(k, chain) && h < |chain| && chain[h].foliageTx.Some?
    ensures chain[h].txInfo.Some?
    ensures chain[h].generator.None? ==> chain[h].txInfo.value.fees == 0
    ensures chain[h].generator.Some? ==>
              var g, fee := chain[h].generator.value, chain[h].txInfo.value.fees;
              && fee + AmountMade(g.spends) == AmountSpent(g.spends)
              && fee >= g.reserveFee
              && forall i :: 0 <= i < |g.spends| ==> g.spends[i].puzzleHash == g.spends[i].coin.puzzleHash
  {
    hide ValidChain, Accepted, ClaimsOk, OutputsOk, RootsOk, SpendsOk, PrevTimestampOk, Created, Removed, Total;
    ValidAt(k, chain, h);
    AcceptedBody(k, chain[..h], chain[h]);
    TotalsAreAmounts(Spends(chain[h]));
  }

  // ---- rewards ---------------------------------------------------------------------------------

  /** A block's rewards are claimed once a transaction block at or above it is followed by another one. */
  lemma ClaimedMeaning(chain: seq<Block>, i: nat)
    ensures i < ClaimedCount(chain) <==>
            exists p, q :: i <= p < q < |chain| && chain[p].foliageTx.Some? && chain[q].foliageTx.Some?
  {
    hide LastTx;
    var q := LastTx(chain);
    if q >= 0 {
      var p := LastTx(chain[..q]);
      assert forall n :: 0 <= n < q ==> chain[..q][n] == chain[n];
      if i <= p {
        assert chain[p].foliageTx.Some? && chain[q].foliageTx.Some?;
      }
    }
  }

  /** Who is paid what, and when: both reward coins of every claimed block, and no others with their parents. */
  lemma RewardsPaid(k: Constants, chain: seq<Block>, i: nat, c: Coin)
    requires ValidChain(k, chain) && i < |chain|
    ensures var fees := if chain[i].txInfo.Some? then chain[i].txInfo.value.fees else 0;
            && (c in LedgerAt(chain) && c.parent == Reward(Pool, i) <==>
                  i < ClaimedCount(chain) && c == Coin(Reward(Pool, i), chain[i].poolPuzzleHash, PoolReward(i)))
            && (c in LedgerAt(chain) && c.parent == Reward(Farmer, i) <==>
                  i < ClaimedCount(chain) &&
                  c == Coin(Reward(Farmer, i), chain[i].farmerPuzzleHash, FarmerReward(i) + fees))
  {
    hide ValidChain, LedgerAt, ClaimedCount, PoolReward, FarmerReward;
    ValidHeaders(k, chain);
    Grounded(k, chain);
    RewardsExactlyOnce(k, chain, i, c);
  }

  // ---- the two roots -----------------------------------------------------------------------------

  /** The coins with a puzzle hash that the table has confirmed at a height, each once. */
  ghost predicate IdsAt(l: Ledger, h: nat, p: Hash, ids: multiset<Coin>) {
    && (exists c :: c in ids)
    && forall c :: ids[c] == if c in l && l[c].confirmed == h && c.puzzleHash == p then 1 else 0
  }

  lemma GroupIsIds(l: Ledger, h: nat, coins: seq<Coin>, p: Hash)
    requires NoDuplicates(coins) && p in PuzzleHashes(coins)
    requires forall c :: c in coins <==> c in l && l[c].confirmed == h
    ensures IdsAt(l, h, p, multiset(GroupOf(coins, p)))
  {
    hide NoDuplicates;
    forall c: Coin
      ensures multiset(GroupOf(coins, p))[c] == if c in l && l[c].confirmed == h && c.puzzleHash == p then 1 else 0
    {
      GroupCounts(coins, p, c);
      CountOnce(coins, c);
    }
    var c :| c in coins && c.puzzleHash == p;
    assert c in multiset(GroupOf(coins, p));
  }

  lemma IdsAreEqual(l: Ledger, h: nat, p: Hash, a: multiset<Coin>, b: multiset<Coin>)
    requires IdsAt(l, h, p, a) && IdsAt(l, h, p, b)
    ensures a == b
  {
  }

  /** The items of an additions root over coins that are exactly those confirmed at a height. */
  lemma AdditionItems(l: Ledger, h: nat, coins: seq<Coin>, item: MerkleItem)
    requires NoDuplicates(coins) && forall c :: c in coins <==> c in l && l[c].confirmed == h
    ensures item in AdditionsRoot(coins) <==>
            match item
            case PuzzleItem(p) => exists c :: c in l && l[c].confirmed == h && c.puzzleHash == p
            case IdsItem(ids) => exists p :: IdsAt(l, h, p, ids)
            case NameItem(_) => false
  {
    hide NoDuplicates, IdsAt, GroupOf;
    match item
    case PuzzleItem(p) =>
      assert p in PuzzleHashes(coins) <==> exists c :: c in l && l[c].confirmed == h && c.puzzleHash == p;
    case IdsItem(ids) =>
      if item in AdditionsRoot(coins) {
        var p :| p in PuzzleHashes(coins) && ids == multiset(GroupOf(coins, p));
        GroupIsIds(l, h, coins, p);
      }
      if p :| IdsAt(l, h, p, ids) {
        IdsHavePuzzle(l, h, p, ids, coins);
        GroupIsIds(l, h, coins, p);
        IdsAreEqual(l, h, p, ids, multiset(GroupOf(coins, p)));
      }
    case NameItem(_) =>
  }

  lemma IdsHavePuzzle(l: Ledger, h: nat, p: Hash, ids: multiset<Coin>, coins: seq<Coin>)
    requires IdsAt(l, h, p, ids) && forall c :: c in coins <==> c in l && l[c].confirmed == h
    ensures p in PuzzleHashes(coins)
  {
    var c :| c in ids;
    assert c in coins;
  }

  /**
   The roots of every transaction block of a valid chain describe what the table has at its
   height: the puzzle hashes and the groups of the coins confirmed there, and the coins spent there.
   */
  lemma RootsDescribeBlock(k: Constants, chain: seq<Block>, h: nat, item: MerkleItem)
    requires ValidChain(k, chain) && h < |chain| && chain[h].foliageTx.Some?
    ensures var l, f := LedgerAt(chain), chain[h].foliageTx.value;
            && (item in f.additionsRoot <==>
                  match item
                  case PuzzleItem(p) => exists c :: c in l && l[c].confirmed == h && c.puzzleHash == p
                  case IdsItem(ids) => exists p :: IdsAt(l, h, p, ids)
                  case NameItem(_) => false)
            && (item in f.removalsRoot <==>
                  item.NameItem? && 0 < h && item.coin in l && l[item.coin].spent == h)
  {
    hide ValidChain, Accepted, ClaimsOk, SpendsOk, FeesOk, PuzzlesOk, PrevTimestampOk, Created, Removed, NoDuplicates;
    hide LedgerAt, AdditionsRoot, IdsAt;
    ValidAt(k, chain, h);
    AcceptedBody(k, chain[..h], chain[h]);
    var b, l := chain[h], LedgerAt(chain);
    var coins := Created(Spends(b)) + Claims(b);
    forall c ensures c in coins <==> c in l && l[c].confirmed == h {
      AtHeight(k, chain, h, c);
    }
    AdditionItems(l, h, coins, item);
    forall c ensures c in Removed(Spends(b)) <==> 0 < h && c in l && l[c].spent == h {
      AtHeight(k, chain, h, c);
    }
  }
}
