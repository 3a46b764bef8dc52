/**
 Building a block at its signage point and finishing it at its infusion point
 (block_creation.py), against the rules that the validator applies to the result.
 */
module BlockCreation {
  import opened Types
  import opened Rewards
  import opened CoinSums
  import opened PotIterations
  import opened Headers
  import opened HeaderTheorems
  import opened Bodies
  import opened BodyTheorems
  import opened ChainContents
  import opened BlockStore
  import opened BodyValidation
  import opened MerkleRoots

  // ---- transaction blocks -----------------------------------------------------------------

  /** The answer of get_prev_transaction_block, over the chain that ends at the previous block. */
  predicate IsTxAt(chain: seq<Block>, totalItersSp: nat) {
    chain == [] || (LastTx(chain) >= 0 && totalItersSp > chain[LastTx(chain)].totalIters)
  }

  /** get_prev_transaction_block; when the answer is no, it hands back the block it was given. */
  method GetPrevTransactionBlock(store: Store, h: Hash, totalItersSp: nat) returns (isTx: bool, prevTx: Block)
    requires Linked(store) && h in store && LastTx(ChainTo(store, h)) >= 0
    ensures isTx <==> IsTxAt(ChainTo(store, h), totalItersSp)
    ensures prevTx == if isTx then ChainTo(store, h)[LastTx(ChainTo(store, h))] else store[h]
  {
    var curr := WalkToTx(store, h);
    isTx := totalItersSp > curr.totalIters;
    prevTx := if isTx then curr else store[h];
  }

  // ---- compute_block_fee ---------------------------------------------------------------------

  /** compute_block_fee raises: the conversion to uint64 fails. */
  predicate NoFee(additions: seq<Coin>, removals: seq<Coin>) {
    Total(removals) < Total(additions) || Total(removals) - Total(additions) > UINT64_MAX
  }

  /** The fee, or None when the conversion raises. */
  method ComputeBlockFee(additions: seq<Coin>, removals: seq<Coin>) returns (fee: Option<nat>)
    ensures fee.None? <==> NoFee(additions, removals)
    ensures fee.Some? ==> fee.value + Total(additions) == Total(removals)
  {
    var removalAmount := SumOfCoins(removals);
    var additionAmount := SumOfCoins(additions);
    if removalAmount < additionAmount || removalAmount - additionAmount > UINT64_MAX {
      return None;
    }
    return Some(removalAmount - additionAmount);
  }

  // ---- create_foliage ---------------------------------------------------------------------------

  /** The caller's list of additions, which create_foliage extends in place. */
  class CoinList {
    var items: seq<Coin>

    constructor (items: seq<Coin>)
      ensures this.items == items
    {
      this.items := items;
    }

    method Extend(coins: seq<Coin>)
      modifies this
      ensures items == old(items) + coins
    {
      items := items + coins;
    }
  }

  datatype Foliage = Foliage(prevHash: Hash, foliageTx: Option<FoliageTx>, txInfo: Option<TxInfo>)

  lemma {:induction false} ClaimListAppend(chain: seq<Block>, lo: nat, hi: nat)
    requires lo < hi <= |chain|
    ensures ClaimList(chain, lo, hi) == ClaimList(chain, lo + 1, hi) + [PoolCoin(chain[lo]), FarmerCoin(chain[lo])]
  {
    hide PoolCoin, FarmerCoin;
    if lo < hi - 1 {
      ClaimListAppend(chain, lo, hi - 1);
      var pair := [PoolCoin(chain[hi - 1]), FarmerCoin(chain[hi - 1])];
      assert pair + (ClaimList(chain, lo + 1, hi - 1) + [PoolCoin(chain[lo]), FarmerCoin(chain[lo])])
             == pair + ClaimList(chain, lo + 1, hi - 1) + [PoolCoin(chain[lo]), FarmerCoin(chain[lo])];
    }
  }

  /** The expected claims start above the last but one transaction block, or at genesis. */
  lemma ExpectedFrom(chain: seq<Block>, lo: nat)
    requires lo <= LastTx(chain) && (lo == 0 || chain[lo - 1].IsTx())
    requires forall n :: lo <= n < LastTx(chain) ==> !chain[n].IsTx()
    ensures ExpectedClaims(chain) == ClaimList(chain, lo, LastTx(chain) + 1)
  {
    hide ClaimList, LastTx;
    var p := LastTx(chain);
    if lo == 0 {
      NoTxAtAll(chain[..p]);
    } else {
      LastTxIs(chain[..p], lo - 1);
    }
  }

  /** The second walk: the blocks below the previous transaction block, down to the one before it. */
  method CollectBelow(store: Store, ghost h: Hash, prevTx: Block, start: seq<Coin>, ghost chain: seq<Block>)
      returns (claims: seq<Coin>)
    requires Linked(store) && h in store && chain == ChainTo(store, h)
    requires LastTx(chain) > 0 && prevTx == chain[LastTx(chain)] && chain[0].IsTx()
    requires start == ClaimList(chain, LastTx(chain), LastTx(chain) + 1)
    ensures claims == ExpectedClaims(chain)
  {
    hide Linked, ChainTo, ClaimList, PoolCoin, FarmerCoin, ExpectedClaims, LastTx;
    ghost var p := LastTx(chain);
    ghost var i := p - 1;
    claims := start;
    StepBack(store, h, p);
    var curr := store[prevTx.prevHash];
    while !curr.IsTx()
      invariant 0 <= i < p && curr == chain[i]
      invariant forall n :: i < n < p ==> !chain[n].IsTx()
      invariant claims == ClaimList(chain, i + 1, p + 1)
      decreases i
    {
      claims := claims + [PoolCoin(curr), FarmerCoin(curr)];
      ClaimListAppend(chain, i, p + 1);
      StepBack(store, h, i);
      curr := store[curr.prevHash];
      i := i - 1;
    }
    ExpectedFrom(chain, i + 1);
  }

  /** The reward claims, in the order in which the two walks append them. */
  method CollectClaims(ghost k: Constants, store: Store, h: Hash, ghost chain: seq<Block>)
      returns (prevTx: Block, claims: seq<Coin>)
    requires Linked(store) && h in store && chain == ChainTo(store, h) && ValidChain(k, chain)
    ensures LastTx(chain) >= 0 && prevTx == chain[LastTx(chain)]
    ensures claims == ExpectedClaims(chain)
    ensures k.maxCoinAmount <= UINT64_MAX ==> forall c :: c in claims ==> c.amount <= UINT64_MAX
  {
    hide Linked, ChainTo, ClaimList, PoolCoin, FarmerCoin, ValidChain, HeaderChain, ExpectedClaims, LastTx;
    ValidHeaders(k, chain);
    Grounded(k, chain);
    ghost var p := LastTx(chain);
    prevTx := WalkToTx(store, h);
    claims := [PoolCoin(prevTx), FarmerCoin(prevTx)];
    ClaimListEmpty(chain, p + 1);
    ClaimListAppend(chain, p, p + 1);
    if prevTx.height > 0 {
      claims := CollectBelow(store, h, prevTx, claims, chain);
    } else {
      ExpectedFrom(chain, 0);
    }
    forall c | k.maxCoinAmount <= UINT64_MAX && c in claims ensures c.amount <= UINT64_MAX {
      ClaimsInRange(k, chain, c);
    }
  }

  /** The chain a block is built on. */
  ghost function ChainAt(store: Store, prev: Option<Hash>): seq<Block>
    requires Linked(store) && (prev.Some? ==> prev.value in store)
  {
    if prev.None? then [] else ChainTo(store, prev.value)
  }

  /** create_foliage; None when the fee does not fit. */
  method CreateFoliage(k: Constants, store: Store, generator: Option<Generator>, additions: CoinList,
                       removals: seq<Coin>,
                       prev: Option<Hash>, totalItersSp: nat, timestamp: nat, ghost chain: seq<Block>)
      returns (foliage: Option<Foliage>)
    requires Linked(store) && (prev.Some? ==> prev.value in store)
    requires chain == ChainAt(store, prev) && ValidChain(k, chain)
    modifies additions
    ensures foliage.None? <==> IsTxAt(chain, totalItersSp) && generator.Some? && NoFee(old(additions.items), removals)
    ensures foliage.Some? ==>
              foliage.value.prevHash == if prev.None? then k.genesisChallenge else store[prev.value].hash
    ensures foliage.Some? ==> (foliage.value.foliageTx.Some? <==> IsTxAt(chain, totalItersSp))
    ensures foliage.Some? ==> (foliage.value.txInfo.Some? <==> IsTxAt(chain, totalItersSp))
    ensures foliage.Some? && IsTxAt(chain, totalItersSp) ==>
              && foliage.value.foliageTx.value
                 == FoliageTx(if chain == [] then k.genesisChallenge else chain[LastTx(chain)].hash, timestamp,
                              AdditionsRoot(old(additions.items) + ExpectedClaims(chain)), RemovalsRoot(removals))
              && foliage.value.txInfo.value.rewardClaims == ExpectedClaims(chain)
              && foliage.value.txInfo.value.fees
                 == (if generator.Some? then Total(removals) - Total(old(additions.items)) else 0)
    ensures foliage.Some? ==>
              additions.items
              == old(additions.items) + (if IsTxAt(chain, totalItersSp) then ExpectedClaims(chain) else [])
  {
    hide Linked, ChainTo, ClaimList, ValidChain, HeaderChain;
    ClaimListEmpty(chain, 0);
    var isTx, prevTx := true, None;
    if prev.Some? {
      ValidHeaders(k, chain);
      Grounded(k, chain);
      var found;
      isTx, found := GetPrevTransactionBlock(store, prev.value, totalItersSp);
      prevTx := Some(found);
    }
    var prevHash := if prev.None? then k.genesisChallenge else store[prev.value].hash;
    if !isTx {
      assert additions.items == additions.items + [];
      return Some(Foliage(prevHash, None, None));
    }
    var fees := 0;
    if generator.Some? {
      var fee := ComputeBlockFee(additions.items, removals);
      if fee.None? {
        return None;
      }
      fees := fee.value;
    }
    var claims, prevTxHash := [], k.genesisChallenge;
    if prev.Some? {
      var curr;
      curr, claims := CollectClaims(k, store, prev.value, chain);
      assert curr.hash == prevTx.value.hash;
      prevTxHash := prevTx.value.hash;
    }
    additions.Extend(claims);
    var additionsRoot := ComputeAdditionsRoot(additions.items);
    var removalsRoot := ComputeRemovalsRoot(removals);
    return Some(Foliage(prevHash, Some(FoliageTx(prevTxHash, timestamp, additionsRoot, removalsRoot)),
                        Some(TxInfo(fees, claims))));
  }

  // ---- unfinished and full blocks ----------------------------------------------------------------

  datatype Unfinished = Unfinished(
    prevHash: Hash, totalIters: nat, spIndex: nat,
    hasFoliageTxHash: bool, hasFoliageTxSig: bool, foliageTx: Option<FoliageTx>, txInfo: Option<TxInfo>,
    generator: Option<Generator>, generatorRefs: seq<nat>,
    poolPuzzleHash: Hash, farmerPuzzleHash: Hash)

  /** What is known only at the infusion point. */
  datatype Infusion = Infusion(
    hash: Hash, finishedSlots: seq<SubSlot>, ccIpChallenge: Hash, ccIpIters: nat, hasIccIp: bool,
    challengeInfoHash: Hash, difficulty: nat, subSlotIters: nat, requiredIters: nat, deficit: nat)

  /** The full block, once its link, its weight and its transaction status are known. */
  function Assemble(u: Unfinished, inf: Infusion, prevHash: Hash, height: nat, weight: nat, isTx: bool): Block {
    Block(inf.hash, prevHash, height, weight, u.totalIters, u.spIndex, isTx,
          inf.ccIpChallenge, inf.ccIpIters, inf.hasIccIp, inf.challengeInfoHash, inf.finishedSlots,
          u.poolPuzzleHash, u.farmerPuzzleHash,
          isTx && u.hasFoliageTxHash, isTx && u.hasFoliageTxSig,
          if isTx then u.foliageTx else None,
          if isTx then u.txInfo else None,
          if isTx then u.generator else None,
          if isTx then u.generatorRefs else [],
          inf.difficulty, inf.subSlotIters, inf.requiredIters, inf.deficit)
  }

  /** unfinished_block_to_full_block, over the chain that ends at the previous block of the infusion point. */
  function Finish(u: Unfinished, chain: seq<Block>, totalItersSp: nat, inf: Infusion): Block {
    if chain == [] then Assemble(u, inf, u.prevHash, 0, inf.difficulty, true)
    else Assemble(u, inf, Last(chain).hash, Last(chain).height + 1, Last(chain).weight + inf.difficulty,
                  IsTxAt(chain, totalItersSp))
  }

  /** unfinished_block_to_full_block, with the walk to the previous transaction block. */
  method FinishBlock(k: Constants, store: Store, u: Unfinished, prev: Option<Hash>, totalItersSp: nat, inf: Infusion,
                     ghost chain: seq<Block>)
      returns (b: Block)
    requires Linked(store) && (prev.Some? ==> prev.value in store)
    requires chain == ChainAt(store, prev) && HeaderChain(k, chain)
    ensures b == Finish(u, chain, totalItersSp, inf)
  {
    hide Linked, ChainTo, HeaderChain, LastTx, Assemble;
    if prev.None? {
      return Assemble(u, inf, u.prevHash, 0, inf.difficulty, true);
    }
    Grounded(k, chain);
    StoredUnderHash(store, prev.value);
    var prevBlock := store[prev.value];
    var isTx, _ := GetPrevTransactionBlock(store, prev.value, totalItersSp);
    return Assemble(u, inf, prevBlock.hash, prevBlock.height + 1, prevBlock.weight + inf.difficulty, isTx);
  }

  /**
   What create_unfinished_block puts into a block built on a chain with a given signage-point
   total, from a caller's additions and removals.
   */
  ghost predicate BuiltOn(k: Constants, u: Unfinished, chain: seq<Block>, totalItersSp: nat, timestamp: nat,
                          additions: seq<Coin>, removals: seq<Coin>) {
    var isTx := IsTxAt(chain, totalItersSp);
    && (chain == [] ==> u.prevHash == k.genesisChallenge)
    && u.hasFoliageTxHash == u.hasFoliageTxSig == u.foliageTx.Some? == u.txInfo.Some? == isTx
    && (isTx ==>
          && u.foliageTx.value
             == FoliageTx(if chain == [] then k.genesisChallenge else chain[LastTx(chain)].hash, timestamp,
                          AdditionsRoot(additions + ExpectedClaims(chain)), RemovalsRoot(removals))
          && u.txInfo.value.rewardClaims == ExpectedClaims(chain)
          && u.txInfo.value.fees == if u.generator.Some? then Total(removals) - Total(additions) else 0)
  }

  /** create_unfinished_block: total iterations, and the foliage of create_foliage. */
  method CreateUnfinishedBlock(k: Constants, store: Store, slotStart: nat, subSlotIters: nat, spIndex: nat,
                               spIters: nat,
                               ipIters: nat, generator: Option<Generator>, generatorRefs: seq<nat>, additions: CoinList,
                               removals: seq<Coin>, prev: Option<Hash>, timestamp: nat,
                               poolPuzzleHash: Hash, farmerPuzzleHash: Hash, ghost chain: seq<Block>)
      returns (u: Option<Unfinished>)
    requires Linked(store) && (prev.Some? ==> prev.value in store)
    requires chain == ChainAt(store, prev) && ValidChain(k, chain)
    modifies additions
    ensures u.None? <==>
            && IsTxAt(chain, CreatorSpTotal(slotStart, spIters))
            && generator.Some? && NoFee(old(additions.items), removals)
    ensures u.Some? ==>
              BuiltOn(k, u.value, chain, CreatorSpTotal(slotStart, spIters), timestamp, old(additions.items), removals)
    ensures u.Some? ==> u.value.totalIters == CreatorTotal(slotStart, subSlotIters, spIters, ipIters)
    ensures u.Some? ==> u.value.spIndex == spIndex && u.value.generator == generator
    ensures u.Some? ==> u.value.generatorRefs == if generator.Some? then generatorRefs else []
    ensures u.Some? ==> u.value.poolPuzzleHash == poolPuzzleHash && u.value.farmerPuzzleHash == farmerPuzzleHash
  {
    hide Linked, ChainTo, ValidChain, ExpectedClaims;
    var overflow := spIters > ipIters;
    var totalItersSp := slotStart + spIters;
    var totalIters := slotStart + ipIters + (if overflow then subSlotIters else 0);
    var foliage := CreateFoliage(k, store, generator, additions, removals, prev, totalItersSp, timestamp, chain);
    if foliage.None? {
      return None;
    }
    var f := foliage.value;
    return Some(Unfinished(f.prevHash, totalIters, spIndex, f.foliageTx.Some?, f.foliageTx.Some?, f.foliageTx, f.txInfo,
                           generator, if generator.Some? then generatorRefs else [], poolPuzzleHash, farmerPuzzleHash));
  }

  // ---- from the signage point to the infusion point ----------------------------------------------------

  /** Appending blocks that are not transaction blocks moves neither the last transaction block nor the claims. */
  lemma {:induction false} NoTxAppended(chain: seq<Block>, appended: seq<Block>)
    requires forall i :: 0 <= i < |appended| ==> !appended[i].IsTx()
    ensures LastTx(chain + appended) == LastTx(chain)
    ensures ClaimedCount(chain + appended) == ClaimedCount(chain)
    ensures ExpectedClaims(chain + appended) == ExpectedClaims(chain)
  {
    var longer, p := chain + appended, LastTx(chain);
    if p >= 0 {
      assert longer[p] == chain[p];
      LastTxIs(longer, p);
      assert longer[..p] == chain[..p];
    } else {
      NoTxAtAll(longer);
    }
    ClaimListStable(chain, longer, ClaimedCount(chain), p + 1);
  }

  lemma {:induction false} NoTxAtAll(chain: seq<Block>)
    requires forall i :: 0 <= i < |chain| ==> !chain[i].IsTx()
    ensures LastTx(chain) == -1
  {
  }

  /** The last transaction block of a longer chain, when there is one among the appended blocks. */
  lemma TxAppended(chain: seq<Block>, appended: seq<Block>, i: nat)
    requires i < |appended| && appended[i].IsTx()
    ensures LastTx(chain + appended) >= |chain| && (chain + appended)[LastTx(chain + appended)] in appended
  {
    hide LastTx;
    var longer := chain + appended;
    var p := LastTx(longer);
    assert longer[|chain| + i] == appended[i];
    assert p >= |chain|;
    assert longer[p] == appended[p - |chain|];
  }

  /**
   A block whose predecessors since the signage point were all infused at or after it keeps
   its transaction status exactly when none of them is a transaction block, and never gains
   it; if it keeps it, its previous transaction block and its reward claims are unchanged.
   */
  lemma StatusAtInfusion(k: Constants, chain: seq<Block>, appended: seq<Block>, totalItersSp: nat)
    requires ValidChain(k, chain) && (chain != [] || appended == [])
    requires forall b :: b in appended ==> b.totalIters >= totalItersSp
    ensures IsTxAt(chain + appended, totalItersSp) <==>
            IsTxAt(chain, totalItersSp) && forall b :: b in appended ==> !b.IsTx()
    ensures IsTxAt(chain + appended, totalItersSp) ==>
              LastTx(chain + appended) == LastTx(chain) && ExpectedClaims(chain + appended) == ExpectedClaims(chain)
  {
    hide ValidChain, HeaderChain, ExpectedClaims;
    ValidHeaders(k, chain);
    Grounded(k, chain);
    if i :| 0 <= i < |appended| && appended[i].IsTx() {
      TxAppended(chain, appended, i);
      assert appended[i] in appended;
    } else {
      NoTxAppended(chain, appended);
      assert chain != [] ==> (chain + appended)[LastTx(chain)] == chain[LastTx(chain)];
    }
  }

  lemma ClaimsDistinct(k: Constants, chain: seq<Block>)
    requires HeaderChain(k, chain)
    ensures NoDuplicates(ExpectedClaims(chain))
  {
    hide HeaderChain;
    Grounded(k, chain);
    ClaimListDistinct(chain, ClaimedCount(chain), LastTx(chain) + 1);
  }

  /** The signage point that a block is built for, and what its infusion shares with it. */
  datatype SignagePoint = SignagePoint(slotStart: nat, subSlotIters: nat, spIndex: nat, requiredIters: nat)
  {
    /** The iterations are defined, and the two overflow tests agree at this index. */
    predicate Ok(k: Constants) {
      ItersDefined(k, subSlotIters, spIndex, requiredIters) && OverflowTestsFit(k, spIndex)
    }

    function Total(k: Constants): nat
      requires k.numSpsSubSlot > 0
    {
      CreatorSpTotal(slotStart, SpIters(k, subSlotIters, spIndex))
    }

    function BlockTotal(k: Constants): nat
      requires Ok(k)
    {
      CreatorTotal(slotStart, subSlotIters, SpIters(k, subSlotIters, spIndex),
                   IpIters(k, subSlotIters, spIndex, requiredIters))
    }
  }

  /** The unfinished block was created at this signage point, and is infused with its iterations. */
  ghost predicate CreatedAt(k: Constants, u: Unfinished, sp: SignagePoint, inf: Infusion) {
    && sp.Ok(k) && u.totalIters == sp.BlockTotal(k) && u.spIndex == sp.spIndex
    && inf.subSlotIters == sp.subSlotIters && inf.requiredIters == sp.requiredIters
  }

  /** The validator computes the creator's signage-point total from the finished block. */
  lemma FinishedAtSignagePoint(k: Constants, u: Unfinished, chain: seq<Block>, sp: SignagePoint, inf: Infusion)
    requires CreatedAt(k, u, sp, inf)
    ensures SpTotal(k, Finish(u, chain, sp.Total(k), inf)) == sp.Total(k)
  {
    hide SpIters, IpIters, IsTxAt;
    SignagePointTotalsAgree(k, Finish(u, chain, sp.Total(k), inf), sp.slotStart);
  }

  /** The spends of a generator, which the caller hands to the creator as additions and removals. */
  function SpendsOf(generator: Option<Generator>): seq<Spend> { if generator.Some? then generator.value.spends else [] }

  /**
   The finished block: it satisfies the transaction-block rules of the header; kept, it has
   exactly the claims and roots that checks 5 and 11 ask for; lost, it has no transaction data.
   */
  lemma FinishedBlock(k: Constants, u: Unfinished, chain: seq<Block>, appended: seq<Block>, sp: SignagePoint,
                      timestamp: nat, inf: Infusion)
    requires ValidChain(k, chain) && (chain != [] || appended == []) && HeaderChain(k, chain + appended)
    requires CreatedAt(k, u, sp, inf) && forall b :: b in appended ==> b.totalIters >= sp.Total(k)
    requires BuiltOn(k, u, chain, sp.Total(k), timestamp,
                     Created(SpendsOf(u.generator)), Removed(SpendsOf(u.generator)))
    requires chain != [] && IsTxAt(chain, sp.Total(k)) ==> timestamp > chain[LastTx(chain)].Timestamp()
    ensures var ip := chain + appended; var b := Finish(u, ip, sp.Total(k), inf);
            && TxRule(k, ip, b) && TxLinkRule(k, ip, b) && LinkRule(k, ip, b)
            && (b.IsTx() ==> b.txInfo == u.txInfo && b.generator == u.generator && ClaimsOk(ip, b) && RootsOk(b))
            && (!b.IsTx() ==> NoTxData(b))
  {
    hide ValidChain, HeaderChain, ExpectedClaims, SpTotal, NoDuplicates, AdditionsRoot, RemovalsRoot, Created, Removed;
    hide SignagePoint.BlockTotal, SignagePoint.Total;
    var ip := chain + appended;
    var b := Finish(u, ip, sp.Total(k), inf);
    FinishedAtSignagePoint(k, u, ip, sp, inf);
    StatusAtInfusion(k, chain, appended, sp.Total(k));
    Grounded(k, ip);
    if b.IsTx() {
      assert chain != [] ==> ip[LastTx(chain)] == chain[LastTx(chain)];
      ClaimsDistinct(k, ip);
    }
  }

  // ---- creator and validator -------------------------------------------------------------

  /**
   What the spends of a block must satisfy by themselves: the parts of the body checks the
   creator does not decide.
   */
  predicate SpendsFit(k: Constants, l: Ledger, b: Block) {
    && OutputsOk(k, b) && SpendsOk(l, b) && PuzzlesOk(b)
    && var removed, added := Total(Removed(Spends(b))), Total(Created(Spends(b)));
    && removed >= added
    && removed - added >= (if b.generator.Some? then b.generator.value.reserveFee else 0)
    && removed - added + FarmerReward(b.height) <= k.maxCoinAmount
  }

  /**
   A finished block that the creator built from the additions and removals of its own
   generator passes the body checks at the infusion point exactly when its spends fit there.
   */
  lemma CreatedBlockPasses(k: Constants, u: Unfinished, chain: seq<Block>, appended: seq<Block>, sp: SignagePoint,
                           timestamp: nat, inf: Infusion)
    requires ValidChain(k, chain) && (chain != [] || appended == []) && HeaderChain(k, chain + appended)
    requires CreatedAt(k, u, sp, inf) && forall b :: b in appended ==> b.totalIters >= sp.Total(k)
    requires BuiltOn(k, u, chain, sp.Total(k), timestamp,
                     Created(SpendsOf(u.generator)), Removed(SpendsOf(u.generator)))
    requires chain != [] && IsTxAt(chain, sp.Total(k)) ==> timestamp > chain[LastTx(chain)].Timestamp()
    ensures var ip := chain + appended; var b := Finish(u, ip, sp.Total(k), inf);
            BodyAccepted(k, ip, b) <==> (b.IsTx() ==> PrevTimestampOk(ip) && SpendsFit(k, LedgerAt(ip), b))
  {
    hide ValidChain, HeaderChain, SpTotal, OutputsOk, SpendsOk, PuzzlesOk, PrevTimestampOk, LedgerAt, ClaimsOk, RootsOk;
    hide ExpectedClaims, Created, Removed, AdditionsRoot, RemovalsRoot, SignagePoint.BlockTotal, SignagePoint.Total;
    FinishedBlock(k, u, chain, appended, sp, timestamp, inf);
    var ip := chain + appended;
    var b := Finish(u, ip, sp.Total(k), inf);
    assert b.hasFoliageTxHash == b.IsTx();
    if b.IsTx() && u.generator.None? {
      NoSpendsNoFee(b);
    }
  }

  lemma NoSpendsNoFee(b: Block)
    requires b.generator.None?
    ensures Total(Removed(Spends(b))) == 0 && Total(Created(Spends(b))) == 0
  {
    assert Spends(b) == [];
    assert Removed(Spends(b)) == [];
  }

  /** Where the creator refuses, so does the validator, with the error that its order of checks gives. */
  lemma RefusedIsRejected(k: Constants, b: Block)
    requires k.maxCoinAmount <= UINT64_MAX && b.generator.Some?
    ensures var removed, added := Total(Removed(Spends(b))), Total(Created(Spends(b)));
            && (FeeError(k, b) == Some(MintingCoin) <==> removed < added)
            && (removed - added > UINT64_MAX ==>
                  FeeError(k, b) == Some(if removed - added < b.generator.value.reserveFee
                                         then ReserveFeeConditionFailed else CoinAmountExceedsMaximum))
            && (NoFee(Created(Spends(b)), Removed(Spends(b))) ==> !FeesOk(k, b))
  {
    hide Created, Removed, Total;
  }

  /** What the caller wants in the block. */
  datatype Request = Request(generator: Option<Generator>, generatorRefs: seq<nat>, timestamp: nat,
                             poolPuzzleHash: Hash, farmerPuzzleHash: Hash)

  /** The block has the values of the request, of the signage point and of the infusion point. */
  ghost predicate Carries(sp: SignagePoint, request: Request, inf: Infusion, b: Block) {
    && b.hash == inf.hash && b.finishedSlots == inf.finishedSlots
    && b.ccIpChallenge == inf.ccIpChallenge && b.ccIpIters == inf.ccIpIters && b.hasIccIp == inf.hasIccIp
    && b.challengeInfoHash == inf.challengeInfoHash && b.difficulty == inf.difficulty && b.deficit == inf.deficit
    && b.subSlotIters == sp.subSlotIters && b.requiredIters == sp.requiredIters && b.spIndex == sp.spIndex
    && b.poolPuzzleHash == request.poolPuzzleHash && b.farmerPuzzleHash == request.farmerPuzzleHash
    && (b.IsTx() ==>
          && b.generator == request.generator
          && b.generatorRefs == (if request.generator.Some? then request.generatorRefs else [])
          && b.foliageTx.value.timestamp == request.timestamp)
  }

  /** What the header rules ask of the infusion point, and of where the signage point's sub-slot starts. */
  ghost predicate InfusionFits(k: Constants, chain: seq<Block>, sp: SignagePoint, b: Block) {
    && (chain == [] ==> b.difficulty == k.difficultyStarting && b.subSlotIters == k.subSlotItersStarting)
    && (sp.spIndex == 0 ==> !IsOverflow(k, sp.spIndex))
    && sp.slotStart + (if IsOverflow(k, sp.spIndex) then sp.subSlotIters else 0) == ExpectedSlotStart(k, chain, b)
    && (chain != [] && b.finishedSlots == [] ==>
          b.subSlotIters == Last(chain).subSlotIters && b.totalIters >= Last(chain).totalIters)
    && SlotRule(k, chain, b) && BlockCountRule(k, chain, b) && InfusionRule(k, chain, b) && DeficitRule(k, chain, b)
  }

  /** What the validator says about a produced block. */
  ghost predicate ProducedOk(k: Constants, chain: seq<Block>, appended: seq<Block>, sp: SignagePoint,
                             request: Request, inf: Infusion, b: Block)
    requires k.numSpsSubSlot > 0
  {
    var ip := chain + appended;
    && Carries(sp, request, inf, b)
    && LinkRule(k, ip, b) && TxRule(k, ip, b) && TxLinkRule(k, ip, b)
    && ((ip == [] ==> inf.difficulty == k.difficultyStarting) ==> WeightRule(k, ip, b))
    && (HeaderAccepted(k, ip, b) <==> InfusionFits(k, ip, sp, b))
    && (b.IsTx() <==> IsTxAt(chain, sp.Total(k)) && forall a :: a in appended ==> !a.IsTx())
    && (BodyAccepted(k, ip, b) <==> (b.IsTx() ==> PrevTimestampOk(ip) && SpendsFit(k, LedgerAt(ip), b)))
  }

  /** The unfinished block was created for this request. */
  ghost predicate CreatedFor(u: Unfinished, request: Request) {
    && u.generator == request.generator
    && u.generatorRefs == (if request.generator.Some? then request.generatorRefs else [])
    && u.poolPuzzleHash == request.poolPuzzleHash && u.farmerPuzzleHash == request.farmerPuzzleHash
  }

  /** The iteration rule, for a block with the creator's total. */
  lemma FinishedIters(k: Constants, u: Unfinished, chain: seq<Block>, sp: SignagePoint, inf: Infusion)
    requires CreatedAt(k, u, sp, inf)
    ensures var b := Finish(u, chain, sp.Total(k), inf);
            IterRule(k, chain, b) <==>
            && (chain == [] ==> b.subSlotIters == k.subSlotItersStarting)
            && (sp.spIndex == 0 ==> !IsOverflow(k, sp.spIndex))
            && sp.slotStart + (if IsOverflow(k, sp.spIndex) then sp.subSlotIters else 0)
               == ExpectedSlotStart(k, chain, b)
            && (chain != [] && b.finishedSlots == [] ==>
                  b.subSlotIters == Last(chain).subSlotIters && b.totalIters >= Last(chain).totalIters)
  {
    hide SpIters, IpIters, IsTxAt, ExpectedSlotStart;
    FinishedAtSignagePoint(k, u, chain, sp, inf);
    OverflowTestsAgree(k, sp.subSlotIters, sp.spIndex, sp.requiredIters);
  }

  lemma FinishedHeader(k: Constants, u: Unfinished, chain: seq<Block>, sp: SignagePoint, inf: Infusion)
    requires CreatedAt(k, u, sp, inf)
    ensures var b := Finish(u, chain, sp.Total(k), inf);
            && ((chain == [] ==> inf.difficulty == k.difficultyStarting) <==> WeightRule(k, chain, b))
            && (LinkRule(k, chain, b) && TxRule(k, chain, b) && TxLinkRule(k, chain, b) ==>
                  (HeaderAccepted(k, chain, b) <==> InfusionFits(k, chain, sp, b)))
  {
    hide IterRule, SlotRule, BlockCountRule, InfusionRule, DeficitRule, LinkRule, TxRule, TxLinkRule, IsTxAt;
    hide ExpectedSlotStart, SignagePoint.Total, SignagePoint.BlockTotal, IsOverflow;
    FinishedIters(k, u, chain, sp, inf);
  }

  lemma FinishedIsProduced(k: Constants, u: Unfinished, chain: seq<Block>, appended: seq<Block>, sp: SignagePoint,
                           request: Request, inf: Infusion)
    requires ValidChain(k, chain) && (chain != [] || appended == []) && HeaderChain(k, chain + appended)
    requires CreatedAt(k, u, sp, inf) && CreatedFor(u, request)
    requires forall b :: b in appended ==> b.totalIters >= sp.Total(k)
    requires BuiltOn(k, u, chain, sp.Total(k), request.timestamp,
                     Created(SpendsOf(u.generator)), Removed(SpendsOf(u.generator)))
    requires chain != [] && IsTxAt(chain, sp.Total(k)) ==> request.timestamp > chain[LastTx(chain)].Timestamp()
    ensures ProducedOk(k, chain, appended, sp, request, inf, Finish(u, chain + appended, sp.Total(k), inf))
  {
    hide ValidChain, HeaderChain, BodyAccepted, SpendsFit, PrevTimestampOk, LedgerAt, TxRule, TxLinkRule, LinkRule;
    hide Created, Removed, AdditionsRoot, RemovalsRoot, ExpectedClaims, SignagePoint.Total, ClaimsOk, RootsOk;
    hide HeaderAccepted, InfusionFits, WeightRule, SignagePoint.BlockTotal;
    FinishedBlock(k, u, chain, appended, sp, request.timestamp, inf);
    FinishedHeader(k, u, chain + appended, sp, inf);
    CreatedBlockPasses(k, u, chain, appended, sp, request.timestamp, inf);
    StatusAtInfusion(k, chain, appended, sp.Total(k));
  }

  /**
   Production agrees with validation.  A block is created on one stored chain, from its
   generator's own additions and removals, and finished on another that extends it by blocks
   infused at or after the signage point.  Creation fails exactly when it is to be a
   transaction block whose fee is negative or too large, and then the validator would refuse the
   fee too.  Otherwise the block carries what was asked for, its header is accepted exactly when
   the infusion point fits the chain, and its body exactly when its own spends fit it.
   */
  method ProduceBlock(k: Constants, store: Store, sp: SignagePoint, request: Request, prev: Option<Hash>,
                      prevAtInfusion: Option<Hash>, inf: Infusion, ghost chain: seq<Block>, ghost appended: seq<Block>)
      returns (b: Option<Block>)
    requires Linked(store) && (prev.Some? ==> prev.value in store)
    requires chain == ChainAt(store, prev) && ValidChain(k, chain)
    requires prevAtInfusion.Some? ==> prevAtInfusion.value in store
    requires ChainAt(store, prevAtInfusion) == chain + appended && (chain != [] || appended == [])
    requires HeaderChain(k, chain + appended) && k.maxCoinAmount <= UINT64_MAX
    requires sp.Ok(k) && inf.subSlotIters == sp.subSlotIters && inf.requiredIters == sp.requiredIters
    requires forall a :: a in appended ==> a.totalIters >= sp.Total(k)
    requires chain != [] && IsTxAt(chain, sp.Total(k)) ==> request.timestamp > chain[LastTx(chain)].Timestamp()
    ensures b.None? <==>
            && IsTxAt(chain, sp.Total(k)) && request.generator.Some?
            && var spends := request.generator.value.spends;
            !(AmountMade(spends) <= AmountSpent(spends) <= AmountMade(spends) + UINT64_MAX)
    ensures b.None? ==> forall c: Block :: c.generator == request.generator ==> !FeesOk(k, c)
    ensures b.Some? ==> ProducedOk(k, chain, appended, sp, request, inf, b.value)
  {
    hide Linked, ChainTo, ValidChain, HeaderChain, ProducedOk, BuiltOn, FeesOk, FeeError, Created, Removed, SpIters;
    hide IpIters, OverflowTestsFit, IsTxAt, PuzzlesOf;
    var generator := request.generator;
    TotalsAreAmounts(SpendsOf(generator));
    var removals, created, _ := ReadSpends(SpendsOf(generator));
    var additions := new CoinList(created);
    var spIters := SpIters(k, sp.subSlotIters, sp.spIndex);
    var ipIters := IpIters(k, sp.subSlotIters, sp.spIndex, sp.requiredIters);
    var u := CreateUnfinishedBlock(k, store, sp.slotStart, sp.subSlotIters, sp.spIndex, spIters, ipIters, generator,
                                   request.generatorRefs, additions, removals, prev, request.timestamp,
                                   request.poolPuzzleHash, request.farmerPuzzleHash, chain);
    if u.None? {
      forall c: Block | c.generator == generator ensures !FeesOk(k, c) {
        RefusedIsRejected(k, c);
      }
      return None;
    }
    FinishedIsProduced(k, u.value, chain, appended, sp, request, inf);
    var block := FinishBlock(k, store, u.value, prevAtInfusion, sp.slotStart + spIters, inf, chain + appended);
    return Some(block);
  }
}
