/**
 What it means for a block's header to be accepted on top of a chain
 (block_header_validation.py), stated rule by rule over the chain of ancestors.

 `chain` is always the sequence of all ancestors, genesis first; the empty chain is
 what the genesis block is checked against.
 */
module Headers {
  import opened Types
  import opened PotIterations

  function Last(chain: seq<Block>): Block
    requires chain != []
  {
    chain[|chain| - 1]
  }

  // ---- looking back ---------------------------------------------------------------

  /** The height of the most recent transaction block, or -1. */
  function LastTx(chain: seq<Block>): (r: int)
    ensures -1 <= r < |chain|
    ensures r >= 0 ==> chain[r].IsTx()
    ensures forall i :: r < i < |chain| ==> !chain[i].IsTx()
  {
    if chain == [] then -1
    else if Last(chain).IsTx() then |chain| - 1
    else LastTx(chain[..|chain| - 1])
  }

  /** The height of the most recent block that is first in its sub-slot, or -1. */
  function SlotStart(chain: seq<Block>): (r: int)
    ensures -1 <= r < |chain|
    ensures r >= 0 ==> chain[r].FirstInSubSlot()
    ensures forall i :: r < i < |chain| ==> !chain[i].FirstInSubSlot()
  {
    if chain == [] then -1
    else if Last(chain).FirstInSubSlot() then |chain| - 1
    else SlotStart(chain[..|chain| - 1])
  }

  predicate IsChallengeBlock(k: Constants, b: Block) { b.deficit == k.minBlocksPerChallengeBlock - 1 }

  /** The most recent block that is a challenge block or first in its sub-slot, or -1. */
  function IccAnchor(k: Constants, chain: seq<Block>): (r: int)
    ensures -1 <= r < |chain|
    ensures r >= 0 ==> IsChallengeBlock(k, chain[r]) || chain[r].FirstInSubSlot()
    ensures forall i :: r < i < |chain| ==> !IsChallengeBlock(k, chain[i]) && !chain[i].FirstInSubSlot()
  {
    if chain == [] then -1
    else if IsChallengeBlock(k, Last(chain)) || Last(chain).FirstInSubSlot() then |chain| - 1
    else IccAnchor(k, chain[..|chain| - 1])
  }

  // ---- hashes stored in a record -----------------------------------------------------

  /** finished_challenge_slot_hashes[-1] of a block that is first in its sub-slot. */
  function LastSlotHash(k: Constants, b: Block): Hash {
    if b.finishedSlots == [] then k.genesisChallenge else b.finishedSlots[|b.finishedSlots| - 1].ccHash
  }

  /** The hash of the latest sub-slot finished on the chain; the genesis challenge before any. */
  function LatestSlotHash(k: Constants, chain: seq<Block>): Hash {
    var s := SlotStart(chain);
    if s < 0 then k.genesisChallenge else LastSlotHash(k, chain[s])
  }

  /** finished_infused_challenge_slot_hashes. */
  function IccHashes(slots: seq<SubSlot>): seq<Hash> {
    if slots == [] then []
    else IccHashes(slots[..|slots| - 1]) +
         (if slots[|slots| - 1].icc.Some? then [slots[|slots| - 1].icc.value.hash] else [])
  }

  // ---- iterations ----------------------------------------------------------------------

  /** BlockRecord.ip_iters; 0 stands for a calculation that raises. */
  function Ip(k: Constants, b: Block): nat {
    if ItersDefined(k, b.subSlotIters, b.spIndex, b.requiredIters)
    then IpIters(k, b.subSlotIters, b.spIndex, b.requiredIters) else 0
  }

  function Sp(k: Constants, b: Block): nat {
    if k.numSpsSubSlot > 0 then SpIters(k, b.subSlotIters, b.spIndex) else 0
  }

  /** BlockRecord.ip_sub_slot_total_iters: where the sub-slot of the infusion point starts. */
  function SlotStartIters(k: Constants, b: Block): int { b.totalIters - Ip(k, b) }

  /** sp_total_iters, as the validator computes it. */
  function SpTotal(k: Constants, b: Block): int {
    SlotStartIters(k, b) + Sp(k, b) - (if IsOverflow(k, b.spIndex) then b.subSlotIters else 0)
  }

  /** The start of the block's sub-slot, as check 10 computes it from the previous block. */
  function ExpectedSlotStart(k: Constants, chain: seq<Block>, b: Block): int {
    var n := |b.finishedSlots|;
    if chain == [] then b.subSlotIters * n
    else
      var prev := Last(chain);
      if n > 0 then prev.totalIters + prev.subSlotIters - Ip(k, prev) + b.subSlotIters * (n - 1)
      else prev.totalIters - Ip(k, prev)
  }

  /** Checks 6, 7, 10, the assertion before check 9, and the range checks of the unsigned integers on the way. */
  predicate IterRule(k: Constants, chain: seq<Block>, b: Block) {
    && ItersDefined(k, b.subSlotIters, b.spIndex, b.requiredIters)
    && (b.spIndex == 0 ==> !IsOverflow(k, b.spIndex))
    && (chain == [] ==> b.subSlotIters == k.subSlotItersStarting)
    && (chain != [] && b.finishedSlots == [] ==>
          b.subSlotIters == Last(chain).subSlotIters && b.totalIters >= Last(chain).totalIters)
    && b.totalIters == ExpectedSlotStart(k, chain, b) + Ip(k, b)
    && SpTotal(k, b) >= 0
  }

  // ---- sub-slots -------------------------------------------------------------------------

  /** The deficit a finished sub-slot must carry (2r, 2s, 2t). */
  function SlotDeficit(k: Constants, chain: seq<Block>): nat {
    if chain == [] || Last(chain).deficit == 0 then k.minBlocksPerChallengeBlock else Last(chain).deficit
  }

  /** The challenge a finished sub-slot must start from (2a, 2b, 2c). */
  function SlotChallenge(k: Constants, chain: seq<Block>, slots: seq<SubSlot>, n: nat): Hash
    requires n < |slots|
  {
    if n == 0 then LatestSlotHash(k, chain) else slots[n - 1].ccHash
  }

  /** Challenge hash and committed iterations of the infused chain at the end of the previous block's slot. */
  function FirstIcc(k: Constants, chain: seq<Block>): Option<(Hash, int)>
    requires chain != []
  {
    var a := IccAnchor(k, chain);
    if a < 0 then None
    else if IsChallengeBlock(k, chain[a]) then
      Some((chain[a].challengeInfoHash, Last(chain).subSlotIters - Ip(k, chain[a])))
    else
      var hashes := IccHashes(chain[a].finishedSlots);
      if hashes == [] then None else Some((hashes[|hashes| - 1], Last(chain).subSlotIters))
  }

  /** The infused chain a finished sub-slot must continue, if it must have one (2e). */
  function ExpectedIcc(k: Constants, chain: seq<Block>, slots: seq<SubSlot>, n: nat): Option<(Hash, int)>
    requires n < |slots|
  {
    if chain == [] || Last(chain).deficit >= k.minBlocksPerChallengeBlock then None
    else if n == 0 then FirstIcc(k, chain)
    else if slots[n - 1].rcDeficit < k.minBlocksPerChallengeBlock && slots[n - 1].icc.Some? then
      Some((slots[n - 1].icc.value.hash, Last(chain).subSlotIters))
    else None
  }

  /** Check 2 for one finished sub-slot. */
  predicate SlotOk(k: Constants, chain: seq<Block>, b: Block, n: nat)
    requires n < |b.finishedSlots|
  {
    var s := b.finishedSlots[n];
    var expected := ExpectedIcc(k, chain, b.finishedSlots, n);
    && s.ccChallenge == SlotChallenge(k, chain, b.finishedSlots, n)
    && (s.icc.Some? <==> expected.Some?)
    && (s.icc.Some? ==> s.icc.value.challenge == expected.value.0 && s.icc.value.iters == expected.value.1)
    && (chain != [] ==> s.ccIccHash == (if s.icc.Some? && s.rcDeficit == k.minBlocksPerChallengeBlock
                                        then Some(s.icc.value.hash) else None))
    && (chain != [] ==> s.rcIccHash == (if s.icc.Some? then Some(s.icc.value.hash) else None))
    && s.ccHash == s.rcCcHash
    && s.ccIters == (if chain != [] && n == 0 then Last(chain).subSlotIters else b.subSlotIters)
    && s.rcDeficit == SlotDeficit(k, chain)
  }

  predicate SlotRule(k: Constants, chain: seq<Block>, b: Block) {
    forall n :: 0 <= n < |b.finishedSlots| ==> SlotOk(k, chain, b, n)
  }

  /** Check 4: the block, and the blocks back to the first one of the slot. */
  predicate BlockCountRule(k: Constants, chain: seq<Block>, b: Block) {
    chain != [] && b.finishedSlots == [] ==> |chain| - SlotStart(chain) + 1 <= k.maxSubSlotBlocks
  }

  /** Check 29: the infusion VDF starts from the latest finished sub-slot. */
  predicate InfusionRule(k: Constants, chain: seq<Block>, b: Block) {
    && b.ccIpChallenge == (if b.finishedSlots != [] then LastSlotHash(k, b) else LatestSlotHash(k, chain))
    && b.ccIpIters == Ip(k, b)
  }

  // ---- deficit ----------------------------------------------------------------------------

  /** calculate_deficit. */
  function CalculateDeficit(k: Constants, chain: seq<Block>, overflow: bool, numSlots: nat): int {
    var m := k.minBlocksPerChallengeBlock;
    if chain == [] then m - 1
    else
      var d := Last(chain).deficit;
      if d == m then (if overflow && numSlots == 0 then m else m - 1)
      else if d == 0 then
        if numSlots == 0 then 0
        else if numSlots == 1 && overflow then m
        else m - 1
      else d - 1
  }

  /** The stored deficit, and check 31: an infused-chain VDF exactly when the deficit is below MIN - 1. */
  predicate DeficitRule(k: Constants, chain: seq<Block>, b: Block) {
    && b.deficit == CalculateDeficit(k, chain, IsOverflow(k, b.spIndex), |b.finishedSlots|)
    && (chain != [] ==> (b.hasIccIp <==> b.deficit < k.minBlocksPerChallengeBlock - 1))
  }

  // ---- links, weight, transaction blocks -----------------------------------------------------

  /** Checks 1 and 27. */
  predicate LinkRule(k: Constants, chain: seq<Block>, b: Block) {
    && b.height == |chain|
    && b.prevHash == (if chain == [] then k.genesisChallenge else Last(chain).hash)
  }

  /** Check 28. */
  predicate WeightRule(k: Constants, chain: seq<Block>, b: Block) {
    && b.weight == (if chain == [] then 0 else Last(chain).weight) + b.difficulty
    && (chain == [] ==> b.difficulty == k.difficultyStarting)
  }

  /** The rule of check 15: the first block whose signage point is past the last transaction block. */
  predicate MustBeTx(k: Constants, chain: seq<Block>, b: Block) {
    chain == [] || (LastTx(chain) >= 0 && SpTotal(k, b) > chain[LastTx(chain)].totalIters)
  }

  /** Checks 15, 22, 33: everything that marks a transaction block agrees with the rule. */
  predicate TxRule(k: Constants, chain: seq<Block>, b: Block) {
    b.hasFoliageTxHash == b.hasFoliageTxSig == b.isTxFlag == b.foliageTx.Some? == MustBeTx(k, chain, b)
  }

  /** Checks 24 and 26b. */
  predicate TxLinkRule(k: Constants, chain: seq<Block>, b: Block) {
    b.foliageTx.Some? ==>
      var f := b.foliageTx.value;
      if chain == [] then f.prevTxHash == k.genesisChallenge
      else LastTx(chain) >= 0 && f.prevTxHash == chain[LastTx(chain)].hash
           && f.timestamp > chain[LastTx(chain)].Timestamp()
  }

  predicate HeaderAccepted(k: Constants, chain: seq<Block>, b: Block) {
    && LinkRule(k, chain, b)
    && WeightRule(k, chain, b)
    && IterRule(k, chain, b)
    && SlotRule(k, chain, b)
    && BlockCountRule(k, chain, b)
    && InfusionRule(k, chain, b)
    && DeficitRule(k, chain, b)
    && TxRule(k, chain, b)
    && TxLinkRule(k, chain, b)
  }

  /** Every block of the chain has an accepted header. */
  predicate HeaderChain(k: Constants, chain: seq<Block>) {
    forall i {:trigger HeaderAccepted(k, chain[..i], chain[i])} :: 0 <= i < |chain| ==>
      HeaderAccepted(k, chain[..i], chain[i])
  }
}
