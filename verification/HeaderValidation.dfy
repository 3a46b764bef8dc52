/**
 validate_unfinished_header_block and validate_finished_header_block: the header checks as
 loops over the finished sub-slots and walks through the block table, proved against the
 rules over the chain of ancestors.
 */
module HeaderValidation {
  import opened Types
  import opened PotIterations
  import opened Headers
  import opened HeaderTheorems
  import opened BlockStore

  datatype HeaderError = BadSlots | TooManyBlocks | BadIters | BadTransactionStatus | BadTransactionLink
                       | BadLink | BadWeight | BadInfusion | BadDeficit

  /** The first rule that fails, in the order of the checks. */
  function FirstFailing(k: Constants, chain: seq<Block>, b: Block): Option<HeaderError> {
    if b.prevHash != (if chain == [] then k.genesisChallenge else Last(chain).hash) then Some(BadLink)
    else if !SlotRule(k, chain, b) then Some(BadSlots)
    else if !BlockCountRule(k, chain, b) then Some(TooManyBlocks)
    else if !IterRule(k, chain, b) then Some(BadIters)
    else if !TxRule(k, chain, b) then Some(BadTransactionStatus)
    else if !TxLinkRule(k, chain, b) then Some(BadTransactionLink)
    else if b.height != |chain| then Some(BadLink)
    else if !WeightRule(k, chain, b) then Some(BadWeight)
    else if !InfusionRule(k, chain, b) then Some(BadInfusion)
    else if !DeficitRule(k, chain, b) then Some(BadDeficit)
    else None
  }

  /** What each error says about the header. */
  ghost predicate Violates(k: Constants, chain: seq<Block>, b: Block, e: HeaderError) {
    match e
    case BadSlots => exists n :: 0 <= n < |b.finishedSlots| && !SlotOk(k, chain, b, n)
    case TooManyBlocks => !BlockCountRule(k, chain, b)
    case BadIters => !IterRule(k, chain, b)
    case BadTransactionStatus => !TxRule(k, chain, b)
    case BadTransactionLink => b.foliageTx.Some? && !TxLinkRule(k, chain, b)
    case BadLink => b.height != |chain| || b.prevHash != (if chain == [] then k.genesisChallenge else Last(chain).hash)
    case BadWeight => !WeightRule(k, chain, b)
    case BadInfusion => !InfusionRule(k, chain, b)
    case BadDeficit => !DeficitRule(k, chain, b)
  }

  /** An error names a violated rule, and there is none exactly when the header is accepted. */
  lemma HeaderErrorMeans(k: Constants, chain: seq<Block>, b: Block)
    ensures FirstFailing(k, chain, b).None? <==> HeaderAccepted(k, chain, b)
    ensures FirstFailing(k, chain, b).Some? ==> Violates(k, chain, b, FirstFailing(k, chain, b).value)
  {
    hide SlotOk, BlockCountRule, IterRule, TxRule, TxLinkRule, WeightRule, InfusionRule, DeficitRule;
    if b.foliageTx.None? {
      NoLink(k, chain, b);
    }
  }

  lemma NoLink(k: Constants, chain: seq<Block>, b: Block)
    requires b.foliageTx.None?
    ensures TxLinkRule(k, chain, b)
  {
  }

  /** The ancestors that try_block_record leads to; none means that the block is checked as genesis. */
  ghost function Before(store: Store, b: Block): seq<Block>
    requires Linked(store)
  {
    if b.prevHash in store then ChainTo(store, b.prevHash) else []
  }

  // ---- check 2 ------------------------------------------------------------------------------

  /** The last slot hash of the chain, by the walk to the first block of the slot. */
  method ChallengeBefore(k: Constants, store: Store, b: Block, ghost chain: seq<Block>) returns (challenge: Hash)
    requires Linked(store) && chain == Before(store, b) && HeaderChain(k, chain)
    ensures challenge == LatestSlotHash(k, chain)
  {
    hide Linked, ChainTo, HeaderChain;
    if b.prevHash !in store {
      return k.genesisChallenge;
    }
    Grounded(k, chain);
    var curr, _ := WalkToSlotStart(store, b.prevHash);
    return LastSlotHash(k, curr);
  }

  /** The infused chain at the end of the previous block's slot; the assertion in the else branch cannot fail. */
  method IccBefore(k: Constants, store: Store, b: Block, ghost chain: seq<Block>) returns (challenge: Hash, iters: int)
    requires Linked(store) && chain == Before(store, b) && HeaderChain(k, chain) && b.prevHash in store
    requires Last(chain).deficit < k.minBlocksPerChallengeBlock
    ensures FirstIcc(k, chain) == Some((challenge, iters)) && iters >= 0
  {
    hide Linked, ChainTo, HeaderChain;
    Grounded(k, chain);
    IccWalkSucceeds(k, chain);
    var prev := store[b.prevHash];
    var curr := WalkToIccAnchor(k, store, b.prevHash);
    if IsChallengeBlock(k, curr) {
      return curr.challengeInfoHash, prev.subSlotIters - Ip(k, curr);
    }
    var hashes := IccHashes(curr.finishedSlots);
    assert hashes != [];
    return hashes[|hashes| - 1], prev.subSlotIters;
  }

  /** The infused chain that a finished sub-slot must continue; the assertion on the previous slot cannot fail. */
  method IccExpected(k: Constants, store: Store, b: Block, n: nat, ghost chain: seq<Block>)
      returns (icc: Option<(Hash, int)>)
    requires Linked(store) && chain == Before(store, b) && HeaderChain(k, chain)
    requires n < |b.finishedSlots| && forall m :: 0 <= m < n ==> SlotOk(k, chain, b, m)
    ensures icc == ExpectedIcc(k, chain, b.finishedSlots, n)
  {
    hide Linked, ChainTo, HeaderChain;
    icc := None;
    if b.prevHash in store {
      var prev := store[b.prevHash];
      if prev.deficit < k.minBlocksPerChallengeBlock {
        if n == 0 {
          var challenge, iters := IccBefore(k, store, b, chain);
          icc := Some((challenge, iters));
        } else {
          var finished := b.finishedSlots[n - 1];
          if finished.rcDeficit < k.minBlocksPerChallengeBlock {
            IccWalkSucceeds(k, chain);
            SlotHasIcc(k, chain, b, n - 1);
            assert SlotOk(k, chain, b, n - 1);
            assert finished.icc.Some?;
            icc := Some((finished.icc.value.hash, prev.subSlotIters));
          }
        }
      }
    }
  }

  /** Check 2 for one finished sub-slot. */
  method CheckSlot(k: Constants, store: Store, b: Block, n: nat, ghost chain: seq<Block>) returns (ok: bool)
    requires Linked(store) && chain == Before(store, b) && HeaderChain(k, chain)
    requires n < |b.finishedSlots| && forall m :: 0 <= m < n ==> SlotOk(k, chain, b, m)
    ensures ok <==> SlotOk(k, chain, b, n)
  {
    hide Linked, ChainTo, HeaderChain, LatestSlotHash, FirstIcc;
    var s, genesis := b.finishedSlots[n], b.prevHash !in store;
    var challenge;
    if n == 0 {
      challenge := ChallengeBefore(k, store, b, chain);
    } else {
      challenge := b.finishedSlots[n - 1].ccHash;
    }
    if s.ccChallenge != challenge {
      return false;
    }
    var icc := IccExpected(k, store, b, n, chain);
    if s.icc.Some? != icc.Some? {
      return false;
    }
    if s.icc.Some? && (s.icc.value.challenge != icc.value.0 || s.icc.value.iters != icc.value.1) {
      return false;
    }
    if !genesis {
      if s.icc.Some? {
        if s.rcDeficit == k.minBlocksPerChallengeBlock {
          if s.ccIccHash != Some(s.icc.value.hash) { return false; }
        } else {
          if s.ccIccHash.Some? { return false; }
        }
        if s.rcIccHash != Some(s.icc.value.hash) { return false; }
      } else {
        if s.ccIccHash.Some? || s.rcIccHash.Some? { return false; }
      }
    }
    if s.ccHash != s.rcCcHash {
      return false;
    }
    var iters := if !genesis && n == 0 then store[b.prevHash].subSlotIters else b.subSlotIters;
    if s.ccIters != iters {
      return false;
    }
    var deficit :=
      if genesis || store[b.prevHash].deficit == 0 then k.minBlocksPerChallengeBlock else store[b.prevHash].deficit;
    return s.rcDeficit == deficit;
  }

  method CheckSlots(k: Constants, store: Store, b: Block, ghost chain: seq<Block>) returns (ok: bool)
    requires Linked(store) && chain == Before(store, b) && HeaderChain(k, chain)
    ensures ok <==> SlotRule(k, chain, b)
  {
    hide Linked, ChainTo, HeaderChain, SlotOk;
    for n := 0 to |b.finishedSlots|
      invariant forall m :: 0 <= m < n ==> SlotOk(k, chain, b, m)
    {
      ok := CheckSlot(k, store, b, n, chain);
      if !ok {
        return false;
      }
    }
    return true;
  }

  // ---- checks 4 to 10 ---------------------------------------------------------------------------

  method CheckBlockCount(k: Constants, store: Store, b: Block, ghost chain: seq<Block>) returns (ok: bool)
    requires Linked(store) && chain == Before(store, b) && HeaderChain(k, chain)
    ensures ok <==> BlockCountRule(k, chain, b)
  {
    hide Linked, ChainTo, HeaderChain;
    if b.finishedSlots != [] || b.prevHash !in store {
      return true;
    }
    Grounded(k, chain);
    var _, steps := WalkToSlotStart(store, b.prevHash);
    return 2 + steps <= k.maxSubSlotBlocks;
  }

  method CheckIters(k: Constants, store: Store, b: Block, ghost chain: seq<Block>) returns (ok: bool)
    requires Linked(store) && chain == Before(store, b)
    ensures ok <==> IterRule(k, chain, b)
  {
    hide Linked, ChainTo, ItersDefined;
    if !ItersDefined(k, b.subSlotIters, b.spIndex, b.requiredIters) {
      return false;
    }
    var ipIters, spIters, overflow := Ip(k, b), Sp(k, b), IsOverflow(k, b.spIndex);
    if b.spIndex == 0 && overflow {
      return false;                                    // the assertion where there is no signage-point VDF
    }
    var slots := |b.finishedSlots|;
    var totalIters: int;
    if b.prevHash !in store {
      if b.subSlotIters != k.subSlotItersStarting {
        return false;
      }
      totalIters := b.subSlotIters * slots;
    } else {
      var prev := store[b.prevHash];
      if slots > 0 {
        totalIters := prev.totalIters;
        totalIters := totalIters + prev.subSlotIters - Ip(k, prev);
        totalIters := totalIters + b.subSlotIters * (slots - 1);
      } else {
        if b.subSlotIters != prev.subSlotIters || b.totalIters < prev.totalIters {
          return false;
        }
        totalIters := prev.totalIters - Ip(k, prev);
      }
    }
    totalIters := totalIters + ipIters;
    if totalIters != b.totalIters {
      return false;
    }
    return totalIters - ipIters + spIters - (if overflow then b.subSlotIters else 0) >= 0;
  }

  // ---- checks 15, 22, 24, 26, 33 --------------------------------------------------------------------

  method CheckTransactionStatus(k: Constants, store: Store, b: Block, ghost chain: seq<Block>) returns (ok: bool)
    requires Linked(store) && chain == Before(store, b) && HeaderChain(k, chain)
    ensures ok <==> TxRule(k, chain, b)
  {
    hide Linked, ChainTo, HeaderChain;
    var isTx := true;
    if b.prevHash in store {
      Grounded(k, chain);
      var curr := WalkToTx(store, b.prevHash);
      isTx := SpTotal(k, b) > curr.totalIters;
    }
    return isTx == b.hasFoliageTxHash && isTx == b.hasFoliageTxSig
           && b.hasFoliageTxHash == b.foliageTx.Some? && b.hasFoliageTxSig == b.foliageTx.Some?
           && b.hasFoliageTxHash == b.isTxFlag;
  }

  method CheckTransactionLink(k: Constants, store: Store, b: Block, ghost chain: seq<Block>) returns (ok: bool)
    requires Linked(store) && chain == Before(store, b) && HeaderChain(k, chain)
    ensures ok <==> TxLinkRule(k, chain, b)
  {
    hide Linked, ChainTo, HeaderChain;
    if b.foliageTx.None? {
      return true;
    }
    var f := b.foliageTx.value;
    if b.prevHash !in store {
      return f.prevTxHash == k.genesisChallenge;
    }
    Grounded(k, chain);
    var curr := WalkToTx(store, b.prevHash);
    if f.prevTxHash != curr.hash {
      return false;
    }
    ghost var p := LastTx(chain);
    ChainToPrefix(store, b.prevHash, p);
    var prevTx := store[f.prevTxHash];
    return f.timestamp > prevTx.Timestamp();
  }

  // ---- checks 27 to 31 ---------------------------------------------------------------------------------

  method CheckInfusion(k: Constants, store: Store, b: Block, ghost chain: seq<Block>) returns (ok: bool)
    requires Linked(store) && chain == Before(store, b) && HeaderChain(k, chain)
    ensures ok <==> InfusionRule(k, chain, b)
  {
    hide Linked, ChainTo, HeaderChain, LatestSlotHash;
    var challenge;
    if b.finishedSlots != [] {
      challenge := b.finishedSlots[|b.finishedSlots| - 1].ccHash;
    } else {
      challenge := ChallengeBefore(k, store, b, chain);
    }
    return b.ccIpChallenge == challenge && b.ccIpIters == Ip(k, b);
  }

  /**
   Where the infused-chain VDF of an accepted block starts: no assertion fails, and the second
   walk, which passes over slot starts without recorded hashes, finds what the first one finds.
   */
  method IccInfusionChallenge(k: Constants, store: Store, b: Block, ghost chain: seq<Block>) returns (challenge: Hash)
    requires Linked(store) && chain == Before(store, b) && HeaderChain(k, chain) && b.prevHash in store
    requires HeaderAccepted(k, chain, b) && b.hasIccIp
    ensures b.finishedSlots != [] ==>
              var icc := b.finishedSlots[|b.finishedSlots| - 1].icc; icc.Some? && challenge == icc.value.hash
    ensures b.finishedSlots == [] ==> FirstIcc(k, chain).Some? && challenge == FirstIcc(k, chain).value.0
  {
    hide Linked, ChainTo, HeaderChain, WeightRule, IterRule, SlotRule, BlockCountRule, InfusionRule, TxRule, TxLinkRule;
    IccInfusionHasSlot(k, chain, b);
    if b.finishedSlots != [] {
      var last := b.finishedSlots[|b.finishedSlots| - 1];
      assert last.icc.Some?;
      return last.icc.value.hash;
    }
    var curr := store[b.prevHash];
    ghost var i := |chain| - 1;
    while curr.finishedSlots == [] && !IsChallengeBlock(k, curr)
      invariant IccAnchor(k, chain) <= i < |chain| && curr == chain[i]
      decreases i
    {
      StepBack(store, b.prevHash, i);
      curr := store[curr.prevHash];
      i := i - 1;
    }
    if IsChallengeBlock(k, curr) {
      return curr.challengeInfoHash;
    }
    var hashes := IccHashes(curr.finishedSlots);
    assert hashes != [];
    return hashes[|hashes| - 1];
  }

  /** The whole header: the first failing rule, and none exactly when the header is accepted. */
  method ValidateFinishedHeaderBlock(k: Constants, store: Store, b: Block, ghost chain: seq<Block>)
      returns (err: Option<HeaderError>)
    requires Linked(store) && chain == Before(store, b) && HeaderChain(k, chain)
    ensures err == FirstFailing(k, chain, b)
    ensures err.None? <==> HeaderAccepted(k, chain, b)
  {
    hide Linked, ChainTo, HeaderChain, SlotRule, BlockCountRule, IterRule, TxRule, TxLinkRule, InfusionRule;
    var genesis := b.prevHash !in store;
    if !genesis {
      StoredUnderHash(store, b.prevHash);
    }
    if genesis && b.prevHash != k.genesisChallenge {
      return Some(BadLink);
    }
    var ok := CheckSlots(k, store, b, chain);
    if !ok { return Some(BadSlots); }
    ok := CheckBlockCount(k, store, b, chain);
    if !ok { return Some(TooManyBlocks); }
    ok := CheckIters(k, store, b, chain);
    if !ok { return Some(BadIters); }
    ok := CheckTransactionStatus(k, store, b, chain);
    if !ok { return Some(BadTransactionStatus); }
    ok := CheckTransactionLink(k, store, b, chain);
    if !ok { return Some(BadTransactionLink); }
    if b.height != (if genesis then 0 else store[b.prevHash].height + 1) {
      return Some(BadLink);
    }
    var weight := (if genesis then 0 else store[b.prevHash].weight) + b.difficulty;
    if b.weight != weight || (genesis && b.difficulty != k.difficultyStarting) {
      return Some(BadWeight);
    }
    ok := CheckInfusion(k, store, b, chain);
    if !ok { return Some(BadInfusion); }
    var prev := if genesis then None else Some(store[b.prevHash]);
    if b.deficit != DeficitOf(k, prev, IsOverflow(k, b.spIndex), |b.finishedSlots|) {
      return Some(BadDeficit);
    }
    if !genesis && b.hasIccIp != (b.deficit < k.minBlocksPerChallengeBlock - 1) {
      return Some(BadDeficit);
    }
    return None;
  }

  /** calculate_deficit, from the previous block. */
  function DeficitOf(k: Constants, prev: Option<Block>, overflow: bool, numSlots: nat): int {
    CalculateDeficit(k, if prev.None? then [] else [prev.value], overflow, numSlots)
  }
}
