/** No dead ends: when a chain can be extended at all. */
module Progress {
  import opened Types
  import opened Rewards
  import opened PotIterations
  import opened CoinLedger
  import opened MerkleRoots
  import opened Headers
  import opened HeaderTheorems
  import opened Bodies
  import opened BodyTheorems
  import opened BodyValidation
  import opened BlockCreation
  import opened BlockStore
  import opened HeaderValidation
  import opened Blockchains

  // ---- amounts -----------------------------------------------------------------------------

  /** No coin of a valid chain exceeds the maximum amount. */
  lemma CoinsInRange(k: Constants, chain: seq<Block>, c: Coin)
    requires ValidChain(k, chain) && c in LedgerAt(chain)
    ensures c.amount <= k.maxCoinAmount
  {
    hide ValidChain, Accepted, Sound, Replay, RewardsExact, ClaimsOk, SpendsOk, FeesOk, PuzzlesOk, PrevTimestampOk;
    hide Created, Spends;
    ChainIsSound(k, chain);
    ReplayIsLedger(AllEffects(chain));
    var h := LedgerAt(chain)[c].confirmed;
    assert h < |chain| && c in AllEffects(chain)[h].Added();
    ValidAt(k, chain, h);
    AcceptedBody(k, chain[..h], chain[h]);
    assert c in Created(Spends(chain[h])) + Claims(chain[h]);
    if !chain[h].IsTx() {
      NoTxNoEffects(chain[h]);
    }
  }

  /** A transaction block above genesis claims the prefarm, or stands on a chain that has claimed it. */
  lemma PrefarmInRange(k: Constants, chain: seq<Block>, b: Block)
    requires ValidChain(k, chain) && chain != [] && Accepted(k, chain, b) && b.IsTx()
    ensures PoolReward(0) <= k.maxCoinAmount
  {
    hide ValidChain, Accepted, LedgerAt, LastTx, PoolReward;
    var longer := chain + [b];
    ValidSnoc(k, chain, b);
    ValidHeaders(k, chain);
    Grounded(k, chain);
    TxStep(chain, b);
    RewardsExactlyOnce(k, longer, 0, PoolCoin(longer[0]));
    CoinsInRange(k, longer, PoolCoin(longer[0]));
  }

  // ---- the next block ----------------------------------------------------------------------

  /** The infused chain that a sub-slot right after the chain must continue. */
  ghost function RunningIcc(k: Constants, chain: seq<Block>): Option<IccSlot>
    requires chain != []
  {
    if Last(chain).deficit < k.minBlocksPerChallengeBlock && FirstIcc(k, chain).Some? && FirstIcc(k, chain).value.1 >= 0
    then Some(IccSlot(FirstIcc(k, chain).value.0, FirstIcc(k, chain).value.1, 0)) else None
  }

  ghost function HashOf(icc: Option<IccSlot>): Option<Hash> { if icc.Some? then Some(icc.value.hash) else None }

  /** What the validator is handed for a block, besides the block itself. */
  datatype Given = Given(hash: Hash, difficulty: nat, subSlotIters: nat, requiredIters: nat)
  {
    predicate Of(b: Block) {
      && b.hash == hash && b.difficulty == difficulty
      && b.subSlotIters == subSlotIters && b.requiredIters == requiredIters
    }
  }

  /** A signage point that does not trip the assertion on signage point 0. */
  function SafeIndex(k: Constants): nat { if IsOverflow(k, 0) then 1 else 0 }

  /** Two sub-slots that end the chain's sub-slot and the one after it. */
  ghost function NextSlots(k: Constants, chain: seq<Block>, subSlotIters: nat): (slots: seq<SubSlot>)
    requires chain != []
    ensures |slots| == 2
  {
    var d, iters, icc := SlotDeficit(k, chain), Last(chain).subSlotIters, RunningIcc(k, chain);
    var more := if icc.Some? && d < k.minBlocksPerChallengeBlock then Some(IccSlot(0, iters, 0)) else None;
    var full := d == k.minBlocksPerChallengeBlock;
    [SubSlot(LatestSlotHash(k, chain), iters, if full then HashOf(icc) else None, 0, icc, 0, HashOf(icc), d, 0),
     SubSlot(0, subSlotIters, if full then HashOf(more) else None, 0, more, 0, HashOf(more), d, 0)]
  }

  /** A transaction block without spends, two sub-slots after the chain's last block. */
  ghost function NextBlock(k: Constants, chain: seq<Block>, g: Given): Block
    requires chain != [] && LastTx(chain) >= 0 && ItersDefined(k, g.subSlotIters, SafeIndex(k), g.requiredIters)
  {
    var prev, p, claims := Last(chain), chain[LastTx(chain)], ExpectedClaims(chain);
    var deficit := CalculateDeficit(k, chain, IsOverflow(k, SafeIndex(k)), 2);
    var slots, ip := NextSlots(k, chain, g.subSlotIters), IpIters(k, g.subSlotIters, SafeIndex(k), g.requiredIters);
    var total := prev.totalIters + prev.subSlotIters - Ip(k, prev) + g.subSlotIters + ip;
    Block(g.hash, prev.hash, |chain|, prev.weight + g.difficulty, if total < 0 then 0 else total, SafeIndex(k), true,
          0, ip, deficit < k.minBlocksPerChallengeBlock - 1, 0, slots, 0, 0, true, true,
          Some(FoliageTx(p.hash, p.Timestamp() + 1, AdditionsRoot(claims), RemovalsRoot([]))), Some(TxInfo(0, claims)),
          None, [], g.difficulty, g.subSlotIters, g.requiredIters, if deficit < 0 then 0 else deficit)
  }

  /** The iterations of a chain's last block, and that the constants leave a signage point that does not raise. */
  lemma LastIters(k: Constants, chain: seq<Block>, g: Given)
    requires HeaderChain(k, chain) && chain != [] && ItersDefined(k, g.subSlotIters, 0, g.requiredIters)
    ensures Ip(k, Last(chain)) < Last(chain).subSlotIters
    ensures ItersDefined(k, g.subSlotIters, SafeIndex(k), g.requiredIters)
  {
    hide HeaderChain, SlotRule, WeightRule, BlockCountRule, InfusionRule, DeficitRule, TxRule, TxLinkRule;
    HeaderLast(k, chain);
  }

  lemma NextIters(k: Constants, chain: seq<Block>, g: Given)
    requires HeaderChain(k, chain) && chain != [] && LastTx(chain) >= 0
    requires ItersDefined(k, g.subSlotIters, SafeIndex(k), g.requiredIters)
    requires Ip(k, Last(chain)) < Last(chain).subSlotIters
    ensures var b := NextBlock(k, chain, g); IterRule(k, chain, b) && SpTotal(k, b) > Last(chain).totalIters
  {
    hide HeaderChain, NextSlots, CalculateDeficit, ExpectedClaims, LastTx, SpIters, IpIters;
    var b := NextBlock(k, chain, g);
    assert Ip(k, b) == IpIters(k, g.subSlotIters, SafeIndex(k), g.requiredIters);
  }

  lemma NextSlotsFit(k: Constants, chain: seq<Block>, g: Given)
    requires HeaderChain(k, chain) && chain != [] && LastTx(chain) >= 0
    requires ItersDefined(k, g.subSlotIters, SafeIndex(k), g.requiredIters)
    ensures SlotRule(k, chain, NextBlock(k, chain, g))
  {
    hide HeaderChain, CalculateDeficit, ExpectedClaims, LastTx, Ip, IpIters, FirstIcc, LatestSlotHash, IccFound;
    var b, d, m := NextBlock(k, chain, g), Last(chain).deficit, k.minBlocksPerChallengeBlock;
    if d < m {
      IccWalkSucceeds(k, chain);
      FoundIsRunning(k, chain);
    }
    assert SlotOk(k, chain, b, 0);
    assert SlotOk(k, chain, b, 1);
  }

  lemma FoundIsRunning(k: Constants, chain: seq<Block>)
    requires chain != [] && IccFound(k, chain)
    ensures FirstIcc(k, chain).Some? && FirstIcc(k, chain).value.1 >= 0
  {
  }

  lemma NextHeader(k: Constants, chain: seq<Block>, g: Given)
    requires HeaderChain(k, chain) && chain != [] && ItersDefined(k, g.subSlotIters, 0, g.requiredIters)
    ensures LastTx(chain) >= 0 && ItersDefined(k, g.subSlotIters, SafeIndex(k), g.requiredIters)
    ensures HeaderAccepted(k, chain, NextBlock(k, chain, g))
    ensures NextBlock(k, chain, g).IsTx() && g.Of(NextBlock(k, chain, g))
  {
    hide HeaderChain, ExpectedClaims, LastTx, NextSlots, Ip, IpIters, SlotRule, IterRule, SpTotal, InfusionRule;
    Grounded(k, chain);
    DeficitInRange(k, chain);
    LastIters(k, chain, g);
    NextIters(k, chain, g);
    NextSlotsFit(k, chain, g);
    ItersGrow(k, chain, LastTx(chain), |chain| - 1);
    NextInfusion(k, chain, g);
  }

  lemma NextInfusion(k: Constants, chain: seq<Block>, g: Given)
    requires chain != [] && LastTx(chain) >= 0 && ItersDefined(k, g.subSlotIters, SafeIndex(k), g.requiredIters)
    ensures InfusionRule(k, chain, NextBlock(k, chain, g))
  {
    hide ExpectedClaims, LastTx, CalculateDeficit, RunningIcc, IpIters;
  }

  lemma NextBody(k: Constants, chain: seq<Block>, g: Given)
    requires ValidChain(k, chain) && chain != [] && LastTx(chain) >= 0
    requires ItersDefined(k, g.subSlotIters, SafeIndex(k), g.requiredIters)
    requires PrevTimestampOk(chain) && PoolReward(0) <= k.maxCoinAmount
    ensures BodyAccepted(k, chain, NextBlock(k, chain, g))
  {
    hide ValidChain, HeaderChain, ExpectedClaims, LastTx, NextSlots, Ip, IpIters, CalculateDeficit, LedgerAt, ClaimList;
    hide AdditionsRoot, RemovalsRoot;
    var b := NextBlock(k, chain, g);
    ValidHeaders(k, chain);
    ClaimsDistinct(k, chain);
    NoSpendsNoFee(b);
    assert Created(Spends(b)) == [] && Removed(Spends(b)) == [];
    assert Created(Spends(b)) + Claims(b) == ExpectedClaims(chain);
    forall c | c in ExpectedClaims(chain) ensures c.amount <= k.maxCoinAmount {
      ClaimsInRange(k, chain, c);
    }
  }

  /** A transaction block with the given hash, difficulty and iterations is accepted on the chain. */
  ghost predicate CanGrow(k: Constants, chain: seq<Block>, g: Given) {
    exists b :: Accepted(k, chain, b) && b.IsTx() && g.Of(b)
  }

  /**
   No dead ends: whatever happened on a valid chain, and whatever difficulty, sub-slot
   iterations and required iterations the next block is given, a transaction block can follow
   exactly when those iterations are defined, genesis has a timestamp, and the largest
   scheduled reward is a possible amount.
   */
  lemma GrowsExactlyWhen(k: Constants, chain: seq<Block>, g: Given)
    requires ValidChain(k, chain) && chain != []
    ensures CanGrow(k, chain, g) <==>
            && ItersDefined(k, g.subSlotIters, 0, g.requiredIters)
            && chain[0].Timestamp() > 0
            && PoolReward(0) <= k.maxCoinAmount
  {
    hide ValidChain, HeaderChain, HeaderAccepted, BodyAccepted, PrevTimestampOk, NextBlock, PoolReward;
    GenesisTimestampDecides(k, chain);
    ValidHeaders(k, chain);
    var defined := ItersDefined(k, g.subSlotIters, 0, g.requiredIters);
    if defined && PrevTimestampOk(chain) && PoolReward(0) <= k.maxCoinAmount {
      NextHeader(k, chain, g);
      NextBody(k, chain, g);
      assert Accepted(k, chain, NextBlock(k, chain, g));
    }
    if b :| Accepted(k, chain, b) && b.IsTx() && g.Of(b) {
      PrefarmInRange(k, chain, b);
      AcceptedBody(k, chain, b);
      AcceptedIters(k, chain, b);
    }
  }

  lemma AcceptedIters(k: Constants, chain: seq<Block>, b: Block)
    requires Accepted(k, chain, b)
    ensures ItersDefined(k, b.subSlotIters, 0, b.requiredIters)
  {
  }

  /**
   In every state of a node that has a peak, every fresh hash and positive difficulty belong to
   a block that the node adopts as its new peak, under the same conditions.
   */
  lemma PeakCanGrow(node: Blockchain, g: Given)
    requires node.Valid() && node.peak.Some? && g.hash !in node.store && g.difficulty > 0
    requires ItersDefined(node.k, g.subSlotIters, 0, g.requiredIters)
    requires node.Main()[0].Timestamp() > 0 && PoolReward(0) <= node.k.maxCoinAmount
    ensures exists b :: g.Of(b) && Accepted(node.k, Before(node.store, b), b) && node.Outweighs(b)
  {
    hide ValidChain, Accepted, PoolReward, Linked, AllValid, ChainTo, LedgerAt, Hashes, Given.Of;
    var main := node.Main();
    ValidStored(node.k, node.store, node.peak.value);
    GrowsExactlyWhen(node.k, main, g);
    var b :| Accepted(node.k, main, b) && b.IsTx() && g.Of(b);
    StoredUnderHash(node.store, node.peak.value);
    HeavierChild(node.k, main, b, g);
  }

  lemma HeavierChild(k: Constants, chain: seq<Block>, b: Block, g: Given)
    requires chain != [] && Accepted(k, chain, b) && g.Of(b) && g.difficulty > 0
    ensures b.prevHash == Last(chain).hash && b.height > 0 && b.weight > Last(chain).weight
  {
  }

  // ---- the first block, and chains of every length ---------------------------------------------

  /** What the constants must satisfy for a genesis block to exist. */
  predicate CanStart(k: Constants) {
    && k.numSpsSubSlot > 0 && k.subSlotItersStarting % k.numSpsSubSlot == 0
    && SpInterval(k, k.subSlotItersStarting) > 1
    && (k.numSpIntervalsExtra < k.numSpsSubSlot || k.numSpsSubSlot > 1)
    && k.minBlocksPerChallengeBlock > 0
    && FarmerReward(0) <= k.maxCoinAmount
  }

  /** A genesis block without spends, after one sub-slot. */
  ghost function GenesisBlock(k: Constants, hash: Hash, timestamp: nat, requiredIters: nat): Block
    requires CanStart(k) && ItersDefined(k, k.subSlotItersStarting, 0, requiredIters)
  {
    var iters := k.subSlotItersStarting;
    var ip := IpIters(k, iters, SafeIndex(k), requiredIters);
    Block(hash, k.genesisChallenge, 0, k.difficultyStarting, iters + ip, SafeIndex(k), true, 0, ip, false, 0,
          [SubSlot(k.genesisChallenge, iters, None, 0, None, 0, None, k.minBlocksPerChallengeBlock, 0)], 0, 0, true,
          true, Some(FoliageTx(k.genesisChallenge, timestamp, AdditionsRoot([]), RemovalsRoot([]))),
          Some(TxInfo(0, [])), None, [], k.difficultyStarting, iters, requiredIters, k.minBlocksPerChallengeBlock - 1)
  }

  lemma GenesisHeader(k: Constants, hash: Hash, timestamp: nat, requiredIters: nat)
    requires CanStart(k) && ItersDefined(k, k.subSlotItersStarting, 0, requiredIters)
    ensures HeaderAccepted(k, [], GenesisBlock(k, hash, timestamp, requiredIters))
  {
    hide IpIters, SpIters, AdditionsRoot, RemovalsRoot;
    var b := GenesisBlock(k, hash, timestamp, requiredIters);
    assert IterRule(k, [], b) && SlotRule(k, [], b) && InfusionRule(k, [], b);
  }

  lemma GenesisBody(k: Constants, hash: Hash, timestamp: nat, requiredIters: nat)
    requires CanStart(k) && ItersDefined(k, k.subSlotItersStarting, 0, requiredIters)
    ensures BodyAccepted(k, [], GenesisBlock(k, hash, timestamp, requiredIters))
  {
    hide IpIters, AdditionsRoot, RemovalsRoot;
    var b := GenesisBlock(k, hash, timestamp, requiredIters);
    NoSpendsNoFee(b);
    assert Created(Spends(b)) == [] && Removed(Spends(b)) == [];
    assert Created(Spends(b)) + Claims(b) == [];
  }

  /** A genesis block exists exactly when the constants allow one, with any hash, timestamp and possible iterations. */
  lemma StartsExactlyWhen(k: Constants, hash: Hash, timestamp: nat, requiredIters: nat)
    ensures (exists b :: Accepted(k, [], b) && b.hash == hash && b.Timestamp() == timestamp
                         && b.requiredIters == requiredIters)
            <==> CanStart(k) && ItersDefined(k, k.subSlotItersStarting, 0, requiredIters)
  {
    hide SlotRule, WeightRule, BlockCountRule, InfusionRule, TxLinkRule, ClaimsOk, OutputsOk, SpendsOk, PuzzlesOk;
    hide RootsOk;
    hide PrevTimestampOk, IpIters, SpTotal;
    if CanStart(k) && ItersDefined(k, k.subSlotItersStarting, 0, requiredIters) {
      GenesisHeader(k, hash, timestamp, requiredIters);
      GenesisBody(k, hash, timestamp, requiredIters);
      assert Accepted(k, [], GenesisBlock(k, hash, timestamp, requiredIters));
    }
  }

  /** Every block is a transaction block. */
  ghost predicate AllTx(chain: seq<Block>) {
    forall i :: 0 <= i < |chain| ==> chain[i].IsTx()
  }

  lemma {:induction false} ChainOfLength(k: Constants, n: nat) returns (chain: seq<Block>)
    requires n > 0 && CanStart(k) && PoolReward(0) <= k.maxCoinAmount
    ensures ValidChain(k, chain) && |chain| == n && AllTx(chain) && chain[0].Timestamp() > 0
  {
    hide ValidChain, Accepted, PoolReward, FarmerReward;
    if n == 1 {
      StartsExactlyWhen(k, 0, 1, 1);
      var b :| Accepted(k, [], b) && b.hash == 0 && b.Timestamp() == 1 && b.requiredIters == 1;
      EmptyIsValid(k);
      ValidSnoc(k, [], b);
      chain := [] + [b];
    } else {
      var before := ChainOfLength(k, n - 1);
      var g := Given(n, k.difficultyStarting, k.subSlotItersStarting, 1);
      GrowsExactlyWhen(k, before, g);
      var b :| Accepted(k, before, b) && b.IsTx() && g.Of(b);
      ValidSnoc(k, before, b);
      chain := before + [b];
    }
  }

  /**
   Chains of any number of transaction blocks exist exactly when the constants allow a genesis
   block and its prefarm.
   */
  lemma ChainsExistExactlyWhen(k: Constants, n: nat)
    requires n >= 2
    ensures (exists chain: seq<Block> :: ValidChain(k, chain) && |chain| == n && AllTx(chain)) <==>
            CanStart(k) && PoolReward(0) <= k.maxCoinAmount
  {
    hide ValidChain, Accepted, PoolReward, FarmerReward;
    if CanStart(k) && PoolReward(0) <= k.maxCoinAmount {
      var chain := ChainOfLength(k, n);
    }
    if chain: seq<Block> :| ValidChain(k, chain) && |chain| == n && AllTx(chain) {
      ValidAt(k, chain, 0);
      assert chain[..0] == [];
      StartsExactlyWhen(k, chain[0].hash, chain[0].Timestamp(), chain[0].requiredIters);
      ValidAt(k, chain, 1);
      PrefarmInRange(k, chain[..1], chain[1]);
    }
  }
}
