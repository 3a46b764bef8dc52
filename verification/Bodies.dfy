/**
 What it means for a block's body to be accepted on top of a chain
 (block_body_validation.py), stated against the coin table obtained by replaying the
 whole chain, and what that makes of every accepted chain.
 */
module Bodies {
  import opened Types
  import opened Rewards
  import opened CoinLedger
  import opened CoinSums
  import opened MerkleRoots
  import opened Headers

  // ---- what a block does to coins ------------------------------------------------

  function SpendOutputs(s: Spend): seq<Coin> {
    seq(|s.outputs|, i requires 0 <= i < |s.outputs| =>
      Coin(Spent(s.coin), s.outputs[i].puzzleHash, s.outputs[i].amount))
  }

  function Created(spends: seq<Spend>): seq<Coin> {
    if spends == [] then [] else Created(spends[..|spends| - 1]) + SpendOutputs(spends[|spends| - 1])
  }

  function Removed(spends: seq<Spend>): seq<Coin> {
    seq(|spends|, i requires 0 <= i < |spends| => spends[i].coin)
  }

  function Spends(b: Block): seq<Spend> { if b.generator.Some? then b.generator.value.spends else [] }

  /** FullBlock.get_included_reward_coins. */
  function Claims(b: Block): seq<Coin> { if b.IsTx() && b.txInfo.Some? then b.txInfo.value.rewardClaims else [] }

  function EffectsOf(b: Block): Effects {
    Effects(ToSet(Claims(b)), ToSet(Created(Spends(b))), ToSet(Removed(Spends(b))), b.Timestamp())
  }

  function AllEffects(chain: seq<Block>): seq<Effects> {
    seq(|chain|, i requires 0 <= i < |chain| => EffectsOf(chain[i]))
  }

  /** The coin table of a chain. */
  function LedgerAt(chain: seq<Block>): Ledger { Replay(AllEffects(chain)) }

  // ---- reward claims ------------------------------------------------------------------

  function PoolCoin(b: Block): Coin { Coin(Reward(Pool, b.height), b.poolPuzzleHash, PoolReward(b.height)) }

  function FarmerCoin(b: Block): Coin {
    Coin(Reward(Farmer, b.height), b.farmerPuzzleHash, FarmerReward(b.height) + b.Fees())
  }

  /** The reward coins of the blocks at heights lo .. hi - 1, latest block first. */
  function ClaimList(chain: seq<Block>, lo: nat, hi: nat): seq<Coin>
    requires hi <= |chain|
  {
    if hi <= lo then [] else [PoolCoin(chain[hi - 1]), FarmerCoin(chain[hi - 1])] + ClaimList(chain, lo, hi - 1)
  }

  /** The number of blocks whose rewards have been claimed: those up to the last but one transaction block. */
  function ClaimedCount(chain: seq<Block>): (n: nat)
    ensures n <= |chain|
  {
    if LastTx(chain) < 0 then 0 else LastTx(chain[..LastTx(chain)]) + 1
  }

  /** What a transaction block on top of the chain must claim (check 5). */
  function ExpectedClaims(chain: seq<Block>): seq<Coin> {
    ClaimList(chain, ClaimedCount(chain), LastTx(chain) + 1)
  }

  // ---- acceptance -----------------------------------------------------------------------

  /** Check 1: nothing that belongs to a transaction block. */
  predicate NoTxData(b: Block) {
    b.foliageTx.None? && b.txInfo.None? && b.generator.None? && b.generatorRefs == []
  }

  /** Check 5. */
  predicate ClaimsOk(chain: seq<Block>, b: Block) {
    NoDuplicates(Claims(b)) && ToSet(Claims(b)) == ToSet(ExpectedClaims(chain))
  }

  /** Checks 10 and 13. */
  predicate OutputsOk(k: Constants, b: Block) {
    && (forall c :: c in Created(Spends(b)) + Claims(b) ==> c.amount <= k.maxCoinAmount)
    && NoDuplicates(Created(Spends(b)) + Claims(b))
  }

  /** Check 11. */
  predicate RootsOk(b: Block)
    requires b.foliageTx.Some?
  {
    RootErrorOf(b.foliageTx.value, Created(Spends(b)) + Claims(b), Removed(Spends(b))).None?
  }

  /** Checks 14 and 15: each coin spent once, and each either made in this block or unspent before it. */
  predicate SpendsOk(l: Ledger, b: Block) {
    && NoDuplicates(Removed(Spends(b)))
    && forall c :: c in Removed(Spends(b)) ==> c in Created(Spends(b)) + Claims(b) || Unspent(l, c)
  }

  /** Checks 16 to 19. */
  predicate FeesOk(k: Constants, b: Block) {
    var removed, added := Total(Removed(Spends(b))), Total(Created(Spends(b)));
    && removed >= added
    && removed - added >= (if b.generator.Some? then b.generator.value.reserveFee else 0)
    && removed - added + FarmerReward(b.height) <= k.maxCoinAmount
    && b.Fees() == removed - added
  }

  /** Check 20. */
  predicate PuzzlesOk(b: Block) {
    forall i :: 0 <= i < |Spends(b)| ==> Spends(b)[i].coin.puzzleHash == Spends(b)[i].puzzleHash
  }

  /** The assertion on the previous transaction block's timestamp. */
  predicate PrevTimestampOk(chain: seq<Block>) {
    chain != [] ==> LastTx(chain) >= 0 && chain[LastTx(chain)].Timestamp() > 0
  }

  predicate TxBodyAccepted(k: Constants, chain: seq<Block>, b: Block) {
    && b.foliageTx.Some? && b.txInfo.Some?
    && PrevTimestampOk(chain)
    && ClaimsOk(chain, b)
    && OutputsOk(k, b)
    && RootsOk(b)
    && SpendsOk(LedgerAt(chain), b)
    && FeesOk(k, b)
    && PuzzlesOk(b)
  }

  predicate BodyAccepted(k: Constants, chain: seq<Block>, b: Block) {
    if b.hasFoliageTxHash then TxBodyAccepted(k, chain, b) else NoTxData(b)
  }

  predicate Accepted(k: Constants, chain: seq<Block>, b: Block) {
    HeaderAccepted(k, chain, b) && BodyAccepted(k, chain, b)
  }

  predicate ValidChain(k: Constants, chain: seq<Block>) {
    forall i {:trigger Accepted(k, chain[..i], chain[i])} :: 0 <= i < |chain| ==> Accepted(k, chain[..i], chain[i])
  }
}
