/**
 The data the consensus layer works on: coins and their records, finished
 sub-slots, blocks, and the consensus constants.

 A 32-byte hash is a number.  A coin is its own name: its parent is either a
 reward tag (the two families of parent ids of coinbase.py) or another coin, so
 names cannot collide and no coin is its own ancestor.
 */
module Types {

  type Hash = nat

  datatype Option<+T> = None | Some(value: T)

  // ---- coins -------------------------------------------------------------

  datatype RewardKind = Pool | Farmer

  datatype Parent = Reward(kind: RewardKind, height: nat) | Spent(coin: Coin)

  datatype Coin = Coin(parent: Parent, puzzleHash: Hash, amount: nat)

  /** One row of the coin table; `spent == 0` means the coin is unspent. */
  datatype CoinRecord = CoinRecord(coin: Coin, confirmed: nat, spent: nat, coinbase: bool, timestamp: nat)

  type Ledger = map<Coin, CoinRecord>

  // ---- what a generator does ----------------------------------------------

  datatype NewCoin = NewCoin(puzzleHash: Hash, amount: nat)

  /** One spend of the CLVM result: the coin, the puzzle hash it was run with, the outputs. */
  datatype Spend = Spend(coin: Coin, puzzleHash: Hash, outputs: seq<NewCoin>)

  /** A generator together with the (successful) result of running it. */
  datatype Generator = Generator(spends: seq<Spend>, reserveFee: nat)

  // ---- blocks --------------------------------------------------------------

  datatype IccSlot = IccSlot(challenge: Hash, iters: nat, hash: Hash)

  /** A finished sub-slot.  `ccHash` and `rcHash` are the hashes of its two chains' parts. */
  datatype SubSlot = SubSlot(
    ccChallenge: Hash,          // challenge of the challenge-chain end-of-slot VDF
    ccIters: nat,               // iterations of that VDF
    ccIccHash: Option<Hash>,    // infused-chain hash carried by the challenge chain
    ccHash: Hash,
    icc: Option<IccSlot>,       // the infused challenge chain, if any
    rcCcHash: Hash,             // challenge-chain hash carried by the reward chain
    rcIccHash: Option<Hash>,    // infused-chain hash carried by the reward chain
    rcDeficit: nat,
    rcHash: Hash)

  /** What goes into a Merkle set: a puzzle hash, the hash of a list of coin names, or one name. */
  datatype MerkleItem = PuzzleItem(puzzleHash: Hash) | IdsItem(ids: multiset<Coin>) | NameItem(coin: Coin)

  /** A Merkle root stands for the set that it hashes. */
  type MerkleRoot = set<MerkleItem>

  datatype FoliageTx = FoliageTx(prevTxHash: Hash, timestamp: nat, additionsRoot: MerkleRoot, removalsRoot: MerkleRoot)

  datatype TxInfo = TxInfo(fees: nat, rewardClaims: seq<Coin>)

  /**
   A full block together with its block record.  `difficulty`, `subSlotIters` and
   `requiredIters` are the values the validator derives from the chain and the
   proof of space; `deficit` is the one the record stores.
   */
  datatype Block = Block(
    hash: Hash,
    prevHash: Hash,
    height: nat,
    weight: nat,
    totalIters: nat,
    spIndex: nat,
    isTxFlag: bool,             // reward chain block: is_transaction_block
    ccIpChallenge: Hash,        // challenge of the challenge-chain infusion VDF
    ccIpIters: nat,
    hasIccIp: bool,             // is there an infused-chain infusion VDF
    challengeInfoHash: Hash,    // hash of the block's challenge data
    finishedSlots: seq<SubSlot>,
    poolPuzzleHash: Hash,
    farmerPuzzleHash: Hash,
    hasFoliageTxHash: bool,
    hasFoliageTxSig: bool,
    foliageTx: Option<FoliageTx>,
    txInfo: Option<TxInfo>,
    generator: Option<Generator>,
    generatorRefs: seq<nat>,
    difficulty: nat,
    subSlotIters: nat,
    requiredIters: nat,
    deficit: nat)
  {
    /** BlockRecord.is_transaction_block: the record has a timestamp. */
    predicate IsTx() { foliageTx.Some? }

    function Timestamp(): nat { if foliageTx.Some? then foliageTx.value.timestamp else 0 }

    function Fees(): nat { if txInfo.Some? then txInfo.value.fees else 0 }

    /** BlockRecord.first_in_sub_slot: genesis counts as first in its slot. */
    predicate FirstInSubSlot() { finishedSlots != [] || height == 0 }
  }

  datatype Constants = Constants(
    genesisChallenge: Hash,
    maxCoinAmount: nat,
    numSpsSubSlot: nat,
    numSpIntervalsExtra: nat,
    minBlocksPerChallengeBlock: nat,
    maxSubSlotBlocks: nat,
    subSlotItersStarting: nat,
    difficultyStarting: nat)

  const UINT64_MAX: nat := 0xFFFF_FFFF_FFFF_FFFF

  // ---- small helpers --------------------------------------------------------

  predicate NoDuplicates<T(==)>(s: seq<T>) {
    forall i, j :: 0 <= i < j < |s| ==> s[i] != s[j]
  }

  function ToSet<T>(s: seq<T>): set<T> { set x | x in s }
}
