/** What the header rules, each a check against the previous block, mean for a whole chain. */
module HeaderTheorems {
  import opened Types
  import opened PotIterations
  import opened Headers

  lemma HeaderPrefix(k: Constants, chain: seq<Block>, n: nat)
    requires HeaderChain(k, chain) && n <= |chain|
    ensures HeaderChain(k, chain[..n])
  {
    hide HeaderAccepted;
    forall i | 0 <= i < n ensures HeaderAccepted(k, chain[..n][..i], chain[..n][i]) {
      assert chain[..n][..i] == chain[..i];
      assert HeaderAccepted(k, chain[..i], chain[i]);
    }
  }

  lemma HeaderAt(k: Constants, chain: seq<Block>, i: nat)
    requires HeaderChain(k, chain) && i < |chain|
    ensures HeaderChain(k, chain[..i]) && HeaderAccepted(k, chain[..i], chain[i])
  {
    hide HeaderAccepted;
    HeaderPrefix(k, chain, i);
  }

  /** The last block of a chain, and what precedes it. */
  lemma HeaderLast(k: Constants, chain: seq<Block>)
    requires HeaderChain(k, chain) && chain != []
    ensures HeaderChain(k, chain[..|chain| - 1]) && HeaderAccepted(k, chain[..|chain| - 1], Last(chain))
  {
    hide HeaderAccepted;
    HeaderAt(k, chain, |chain| - 1);
  }

  /** Heights count the chain, and its first block is a transaction block that starts a slot. */
  lemma Grounded(k: Constants, chain: seq<Block>)
    requires HeaderChain(k, chain)
    ensures forall i :: 0 <= i < |chain| ==> chain[i].height == i
    ensures chain != [] ==> chain[0].IsTx() && LastTx(chain) >= 0 && SlotStart(chain) >= 0
    ensures chain != [] ==> IccAnchor(k, chain) >= SlotStart(chain)
  {
    forall i | 0 <= i < |chain| ensures chain[i].height == i {
      HeaderAt(k, chain, i);
    }
    if chain != [] {
      HeaderAt(k, chain, 0);
      assert chain[..0] == [];
      assert chain[0].FirstInSubSlot();
    }
  }

  // ---- sub-slot accounting ---------------------------------------------------------

  /** All sub-slots finished on the chain, in order. */
  function AllSlots(chain: seq<Block>): seq<SubSlot> {
    if chain == [] then [] else AllSlots(chain[..|chain| - 1]) + Last(chain).finishedSlots
  }

  function TotalLength(slots: seq<SubSlot>): nat {
    if slots == [] then 0 else TotalLength(slots[..|slots| - 1]) + slots[|slots| - 1].ccIters
  }

  lemma {:induction false} TotalLengthAppend(s: seq<SubSlot>, t: seq<SubSlot>)
    ensures TotalLength(s + t) == TotalLength(s) + TotalLength(t)
  {
    if t == [] {
      assert s + t == s;
    } else {
      var n := |t| - 1;
      assert (s + t)[..|s + t| - 1] == s + t[..n];
      TotalLengthAppend(s, t[..n]);
    }
  }

  lemma {:induction false} EqualSlots(slots: seq<SubSlot>, iters: nat)
    requires forall i :: 0 <= i < |slots| ==> slots[i].ccIters == iters
    ensures TotalLength(slots) == iters * |slots|
  {
    if slots != [] {
      EqualSlots(slots[..|slots| - 1], iters);
    }
  }

  /** The sub-slots one block finishes account for the distance between the two blocks' slot starts. */
  lemma BlockSlotsLength(k: Constants, chain: seq<Block>, b: Block)
    requires HeaderAccepted(k, chain, b)
    ensures SlotStartIters(k, b) == (if chain == [] then 0 else SlotStartIters(k, Last(chain)))
                                    + TotalLength(b.finishedSlots)
  {
    var slots := b.finishedSlots;
    forall i | 0 <= i < |slots|
      ensures slots[i].ccIters == (if chain != [] && i == 0 then Last(chain).subSlotIters else b.subSlotIters)
    {
      assert SlotOk(k, chain, b, i);
    }
    if chain == [] {
      EqualSlots(slots, b.subSlotIters);
    } else if slots != [] {
      EqualSlots(slots[1..], b.subSlotIters);
      TotalLengthAppend(slots[..1], slots[1..]);
      assert slots[..1] + slots[1..] == slots;
      assert TotalLength(slots[..1]) == TotalLength(slots[..1][..0]) + slots[0].ccIters;
    }
  }

  /**
   Sub-slot accounting: total_iters minus ip_iters of a block is the summed length of
   every sub-slot finished on the chain up to it.
   */
  lemma {:induction false} SlotAccounting(k: Constants, chain: seq<Block>)
    requires HeaderChain(k, chain) && chain != []
    ensures SlotStartIters(k, Last(chain)) == TotalLength(AllSlots(chain))
  {
    var before, b := chain[..|chain| - 1], Last(chain);
    HeaderLast(k, chain);
    BlockSlotsLength(k, before, b);
    TotalLengthAppend(AllSlots(before), b.finishedSlots);
    if before != [] {
      SlotAccounting(k, before);
    }
  }

  // ---- the challenge chain is one hash chain -------------------------------------------

  function EndHash(k: Constants, slots: seq<SubSlot>): Hash {
    if slots == [] then k.genesisChallenge else slots[|slots| - 1].ccHash
  }

  /** Every slot starts from the hash of the slot before it, the first from the genesis challenge. */
  ghost predicate HashChain(k: Constants, slots: seq<SubSlot>) {
    forall i {:trigger slots[i].ccChallenge} :: 0 <= i < |slots| ==> slots[i].ccChallenge == EndHash(k, slots[..i])
  }

  /** The slots one block finishes continue the hash chain. */
  lemma BlockExtendsHashChain(k: Constants, chain: seq<Block>, b: Block, known: seq<SubSlot>)
    requires SlotRule(k, chain, b)
    requires HashChain(k, known) && LatestSlotHash(k, chain) == EndHash(k, known)
    ensures HashChain(k, known + b.finishedSlots)
  {
    var slots := b.finishedSlots;
    var all := known + slots;
    forall i {:trigger all[i].ccChallenge} | 0 <= i < |all|
      ensures all[i].ccChallenge == EndHash(k, all[..i])
    {
      if i < |known| {
        assert all[..i] == known[..i];
        assert known[i].ccChallenge == EndHash(k, known[..i]);
      } else {
        assert SlotOk(k, chain, b, i - |known|);
        assert i == |known| ==> all[..i] == known;
        assert i > |known| ==> all[..i][i - 1] == slots[i - |known| - 1];
      }
    }
  }

  /** Concatenating the finished sub-slots of all blocks gives one hash chain. */
  lemma {:induction false} ChallengeChainLinks(k: Constants, chain: seq<Block>)
    requires HeaderChain(k, chain)
    ensures HashChain(k, AllSlots(chain))
    ensures LatestSlotHash(k, chain) == EndHash(k, AllSlots(chain))
  {
    if chain != [] {
      var before, b := chain[..|chain| - 1], Last(chain);
      HeaderLast(k, chain);
      ChallengeChainLinks(k, before);
      BlockExtendsHashChain(k, before, b, AllSlots(before));
      if b.finishedSlots == [] {
        assert AllSlots(before) + b.finishedSlots == AllSlots(before);
        assert before == [] || SlotStart(chain) == SlotStart(before);
      } else {
        assert SlotStart(chain) == |chain| - 1;
      }
    }
  }

  /** The infusion VDF of every block starts from the latest sub-slot finished up to that block. */
  lemma InfusionStartsAtLatestSlot(k: Constants, chain: seq<Block>, i: nat)
    requires HeaderChain(k, chain) && i < |chain|
    ensures chain[i].ccIpChallenge == EndHash(k, AllSlots(chain[..i + 1]))
  {
    HeaderAt(k, chain, i);
    ChallengeChainLinks(k, chain[..i]);
    assert chain[..i + 1][..i] == chain[..i];
    assert AllSlots(chain[..i + 1]) == AllSlots(chain[..i]) + chain[i].finishedSlots;
  }

  /** The infusion VDF of every block runs from the end of the latest finished sub-slot to the block. */
  lemma InfusionIters(k: Constants, chain: seq<Block>, i: nat)
    requires HeaderChain(k, chain) && i < |chain|
    ensures chain[i].totalIters == TotalLength(AllSlots(chain[..i + 1])) + chain[i].ccIpIters
  {
    hide HeaderChain, WeightRule, IterRule, SlotRule, BlockCountRule, DeficitRule, TxRule, TxLinkRule, Ip;
    HeaderAt(k, chain, i);
    HeaderPrefix(k, chain, i + 1);
    SlotAccounting(k, chain[..i + 1]);
  }

  /** The slots finished from block a + 1 up to block b lie between the starts of the sub-slots of a and of b. */
  lemma {:induction false} SameSlotStart(k: Constants, chain: seq<Block>, a: nat, b: nat)
    requires HeaderChain(k, chain) && a <= b < |chain|
    requires forall i :: a < i <= b ==> chain[i].finishedSlots == []
    ensures SlotStartIters(k, chain[a]) == SlotStartIters(k, chain[b])
  {
    hide HeaderChain, HeaderAccepted, SlotStartIters;
    if a < b {
      SameSlotStart(k, chain, a, b - 1);
      HeaderAt(k, chain, b);
      BlockSlotsLength(k, chain[..b], chain[b]);
    }
  }

  /** No sub-slot holds more than the maximum number of blocks: the first of a run and all that finish no sub-slot. */
  lemma SlotCapacity(k: Constants, chain: seq<Block>, a: nat, b: nat)
    requires HeaderChain(k, chain) && a < b < |chain|
    requires forall i :: a < i <= b ==> chain[i].finishedSlots == []
    ensures b - a + 1 <= k.maxSubSlotBlocks
  {
    hide HeaderChain, WeightRule, IterRule, SlotRule, InfusionRule, DeficitRule, TxRule, TxLinkRule;
    Grounded(k, chain);
    HeaderAt(k, chain, b);
    var before := chain[..b];
    assert forall i :: a < i < b ==> before[i] == chain[i] && !before[i].FirstInSubSlot();
    assert SlotStart(before) <= a;
  }

  /** The blocks of the sub-slot that the chain ends in, from its first one on. */
  function BlocksInSlot(chain: seq<Block>): nat {
    if chain == [] then 0
    else if Last(chain).FirstInSubSlot() then 1
    else BlocksInSlot(chain[..|chain| - 1]) + 1
  }

  lemma {:induction false} BlocksSinceSlotStart(chain: seq<Block>)
    requires SlotStart(chain) >= 0
    ensures BlocksInSlot(chain) == |chain| - SlotStart(chain)
  {
    if chain != [] && !Last(chain).FirstInSubSlot() {
      BlocksSinceSlotStart(chain[..|chain| - 1]);
    }
  }

  /** Check 4 limits exactly that number. */
  lemma BlockCountMeaning(k: Constants, chain: seq<Block>, b: Block)
    requires HeaderChain(k, chain) && b.height == |chain|
    ensures BlockCountRule(k, chain, b) <==>
            (chain != [] && b.finishedSlots == [] ==> BlocksInSlot(chain + [b]) <= k.maxSubSlotBlocks)
  {
    hide HeaderChain, SlotStart;
    if chain != [] {
      Grounded(k, chain);
      BlocksSinceSlotStart(chain);
      assert (chain + [b])[..|chain|] == chain;
    }
  }

  /** A signage point is never before the start of the chain: no overflow block without a finished sub-slot below it. */
  lemma OverflowNeedsSlot(k: Constants, chain: seq<Block>, i: nat)
    requires HeaderChain(k, chain) && i < |chain|
    ensures SpTotal(k, chain[i]) >= 0
    ensures IsOverflow(k, chain[i].spIndex) ==> AllSlots(chain[..i + 1]) != []
  {
    hide HeaderChain, WeightRule, SlotRule, BlockCountRule, InfusionRule, DeficitRule, TxRule, TxLinkRule, Ip, Sp;
    HeaderAt(k, chain, i);
    HeaderPrefix(k, chain, i + 1);
    SlotAccounting(k, chain[..i + 1]);
    SpInSlot(k, chain[i]);
  }

  /** The weight of a block is the sum of all difficulties up to it. */
  function TotalDifficulty(chain: seq<Block>): nat {
    if chain == [] then 0 else TotalDifficulty(chain[..|chain| - 1]) + Last(chain).difficulty
  }

  lemma {:induction false} WeightIsTotalDifficulty(k: Constants, chain: seq<Block>)
    requires HeaderChain(k, chain) && chain != []
    ensures Last(chain).weight == TotalDifficulty(chain)
    ensures chain[0].difficulty == k.difficultyStarting
  {
    hide HeaderChain, IterRule, SlotRule, BlockCountRule, InfusionRule, DeficitRule, TxRule, TxLinkRule;
    HeaderLast(k, chain);
    if |chain| > 1 {
      WeightIsTotalDifficulty(k, chain[..|chain| - 1]);
    }
  }

  // ---- the deficit -------------------------------------------------------------------------

  /** Where the sub-slot of a block ends. */
  function SlotEndIters(k: Constants, b: Block): int { SlotStartIters(k, b) + b.subSlotIters }

  /** Signage points against the sub-slot of the previous block, in one sub-slot and past its end. */
  lemma SignagePointPlace(k: Constants, chain: seq<Block>, b: Block)
    requires IterRule(k, chain, b) && chain != []
    ensures b.finishedSlots == [] ==> (IsOverflow(k, b.spIndex) <==> SpTotal(k, b) < SlotStartIters(k, Last(chain)))
    ensures |b.finishedSlots| == 1 ==> (IsOverflow(k, b.spIndex) <==> SpTotal(k, b) < SlotEndIters(k, Last(chain)))
    ensures |b.finishedSlots| > 1 ==> SpTotal(k, b) >= SlotEndIters(k, Last(chain))
  {
    hide Ip, Sp, IsOverflow;
    SpInSlot(k, b);
    var n := |b.finishedSlots|;
    if n == 1 {
      Distribute(n, 1, b.subSlotIters);
    } else if n > 1 {
      AtLeastOnce(n - 1, b.subSlotIters);
    }
  }

  lemma SpInSlot(k: Constants, b: Block)
    requires ItersDefined(k, b.subSlotIters, b.spIndex, b.requiredIters)
    ensures 0 <= Sp(k, b) < b.subSlotIters
  {
    WholeIntervals(b.subSlotIters, k.numSpsSubSlot);
    Bounded(b.spIndex, k.numSpsSubSlot, SpInterval(k, b.subSlotIters));
  }

  /**
   What the deficit counts.  Once it has come down to 0, the next challenge block is the first
   block that finishes a sub-slot and whose signage point lies past the end of the previous
   block's sub-slot; a block that finishes one with an earlier signage point waits at MIN.  At
   MIN, every block is a challenge block unless it finishes no sub-slot and has its signage
   point before the current one.  In between, every block counts down by one.
   */
  lemma DeficitMeaning(k: Constants, chain: seq<Block>, b: Block)
    requires HeaderAccepted(k, chain, b) && chain != []
    ensures var d, m := Last(chain).deficit, k.minBlocksPerChallengeBlock;
            && (0 < d < m ==> b.deficit == d - 1)
            && (d == 0 < m && b.finishedSlots == [] ==> b.deficit == 0)
            && (d == 0 < m && b.finishedSlots != [] ==>
                  b.deficit == if SpTotal(k, b) >= SlotEndIters(k, Last(chain)) then m - 1 else m)
            && (d == m ==>
                  var early := SpTotal(k, b) < SlotStartIters(k, Last(chain));
                  b.deficit == if b.finishedSlots == [] && early then m else m - 1)
  {
    hide WeightRule, SlotRule, BlockCountRule, InfusionRule, TxRule, TxLinkRule, SpTotal, SlotStartIters;
    SignagePointPlace(k, chain, b);
  }

  /** Only an overflow block waits at MIN. */
  lemma WaitingIsOverflow(k: Constants, chain: seq<Block>, b: Block)
    requires HeaderAccepted(k, chain, b) && k.minBlocksPerChallengeBlock > 0
    requires b.deficit == k.minBlocksPerChallengeBlock && (chain != [] ==> Last(chain).deficit <= b.deficit)
    ensures chain != [] && IsOverflow(k, b.spIndex)
  {
    hide WeightRule, IterRule, SlotRule, BlockCountRule, InfusionRule, TxRule, TxLinkRule;
  }

  /** Genesis starts as a challenge block. */
  lemma GenesisDeficit(k: Constants, b: Block)
    requires HeaderAccepted(k, [], b)
    ensures IsChallengeBlock(k, b)
  {
  }

  /** The deficit that a finished sub-slot carries is the one that the next block counts down from. */
  lemma SlotCarriesDeficit(k: Constants, chain: seq<Block>, b: Block, n: nat)
    requires HeaderAccepted(k, chain, b) && chain != [] && n < |b.finishedSlots|
    requires 0 <= Last(chain).deficit <= k.minBlocksPerChallengeBlock
    ensures b.deficit == b.finishedSlots[n].rcDeficit - 1 || b.deficit == b.finishedSlots[n].rcDeficit
    ensures b.deficit == b.finishedSlots[n].rcDeficit <==>
            Last(chain).deficit == 0 && SpTotal(k, b) < SlotEndIters(k, Last(chain))
  {
    hide WeightRule, BlockCountRule, InfusionRule, TxRule, TxLinkRule, SpTotal, SlotStartIters;
    SignagePointPlace(k, chain, b);
    assert SlotOk(k, chain, b, n);
  }

  // ---- the infused challenge chain --------------------------------------------------------

  lemma {:induction false} DeficitInRange(k: Constants, chain: seq<Block>)
    requires HeaderChain(k, chain) && chain != []
    ensures 0 <= Last(chain).deficit <= k.minBlocksPerChallengeBlock
    ensures 1 <= k.minBlocksPerChallengeBlock
  {
    HeaderLast(k, chain);
    if |chain| > 1 {
      DeficitInRange(k, chain[..|chain| - 1]);
    }
  }

  lemma {:induction false} IccHashesAll(slots: seq<SubSlot>)
    requires forall i :: 0 <= i < |slots| ==> slots[i].icc.Some?
    ensures |IccHashes(slots)| == |slots|
  {
    if slots != [] {
      IccHashesAll(slots[..|slots| - 1]);
    }
  }

  /**
   Between two blocks: below the minimum but not 0, every sub-slot carries an infused
   chain; at the minimum none does; at 0 only the first does, provided the walk back from
   the previous block finds the chain to continue.
   */
  lemma {:induction false} SlotHasIcc(k: Constants, chain: seq<Block>, b: Block, n: nat)
    requires chain != [] && n < |b.finishedSlots| && forall m :: 0 <= m <= n ==> SlotOk(k, chain, b, m)
    requires Last(chain).deficit < k.minBlocksPerChallengeBlock ==> FirstIcc(k, chain).Some?
    ensures b.finishedSlots[n].icc.Some? <==>
            Last(chain).deficit < k.minBlocksPerChallengeBlock && (n == 0 || Last(chain).deficit > 0)
  {
    assert SlotOk(k, chain, b, n);
    if n > 0 {
      SlotHasIcc(k, chain, b, n - 1);
      assert SlotOk(k, chain, b, n - 1);
    }
  }

  /**
   The walk back finds the infused chain: it stops inside the sub-slot of the chain's last
   block, at a challenge block or at the slot's first block, and the latter has recorded an
   infused-chain hash for every slot it finished.
   */
  ghost predicate IccFound(k: Constants, chain: seq<Block>)
    requires chain != []
  {
    var a := IccAnchor(k, chain);
    && FirstIcc(k, chain).Some? && FirstIcc(k, chain).value.1 >= 0
    && SlotStart(chain) <= a
    && (IsChallengeBlock(k, chain[a]) ||
        (a > 0 && |IccHashes(chain[a].finishedSlots)| == |chain[a].finishedSlots| > 0))
    && forall i :: a <= i < |chain| ==> chain[i].subSlotIters == Last(chain).subSlotIters
  }

  /** The walk stops at once at a challenge block, or at one that has recorded infused-chain hashes. */
  lemma IccFoundHere(k: Constants, chain: seq<Block>, b: Block)
    requires IsChallengeBlock(k, b) || (chain != [] && |IccHashes(b.finishedSlots)| == |b.finishedSlots| > 0)
    ensures IccFound(k, chain + [b])
  {
    assert (chain + [b])[..|chain|] == chain;
  }

  /** A block that neither starts a slot nor is a challenge block leaves the walk where it was. */
  lemma IccFoundBefore(k: Constants, chain: seq<Block>, b: Block)
    requires chain != [] && IccFound(k, chain)
    requires !b.FirstInSubSlot() && !IsChallengeBlock(k, b) && b.subSlotIters == Last(chain).subSlotIters
    ensures IccFound(k, chain + [b])
  {
    assert (chain + [b])[..|chain|] == chain;
  }

  /** While the infused chain runs, a new sub-slot continues it in every slot it finishes. */
  lemma SlotsHaveIcc(k: Constants, chain: seq<Block>, b: Block)
    requires chain != [] && IccFound(k, chain) && SlotRule(k, chain, b)
    requires 0 < Last(chain).deficit < k.minBlocksPerChallengeBlock
    ensures |IccHashes(b.finishedSlots)| == |b.finishedSlots|
  {
    forall n | 0 <= n < |b.finishedSlots| ensures b.finishedSlots[n].icc.Some? {
      SlotHasIcc(k, chain, b, n);
    }
    IccHashesAll(b.finishedSlots);
  }

  /** What the deficit rule says about a block below the minimum that is no challenge block. */
  lemma DeficitBefore(k: Constants, chain: seq<Block>, b: Block)
    requires chain != [] && DeficitRule(k, chain, b) && 0 <= Last(chain).deficit <= k.minBlocksPerChallengeBlock
    requires b.deficit < k.minBlocksPerChallengeBlock && !IsChallengeBlock(k, b)
    ensures Last(chain).deficit < k.minBlocksPerChallengeBlock
    ensures b.finishedSlots != [] ==> 0 < Last(chain).deficit
  {
  }

  /** The walk back from a block with a running infused chain (deficit below the minimum) never fails. */
  lemma {:induction false} IccWalkSucceeds(k: Constants, chain: seq<Block>)
    requires HeaderChain(k, chain) && chain != []
    requires Last(chain).deficit < k.minBlocksPerChallengeBlock
    ensures IccFound(k, chain)
  {
    hide HeaderChain, WeightRule, SlotRule, BlockCountRule, InfusionRule, TxRule, TxLinkRule, IccFound, IccHashes;
    var before, b := chain[..|chain| - 1], Last(chain);
    assert chain == before + [b];
    HeaderLast(k, chain);
    if IsChallengeBlock(k, b) {
      IccFoundHere(k, before, b);
    } else {
      assert before != [];
      DeficitInRange(k, before);
      DeficitBefore(k, before, b);
      IccWalkSucceeds(k, before);
      if b.finishedSlots == [] {
        IccFoundBefore(k, before, b);
      } else {
        SlotsHaveIcc(k, before, b);
        IccFoundHere(k, before, b);
      }
    }
  }

  /** Exactly which finished sub-slots of a block carry an infused chain, and which put it on the challenge chain. */
  lemma InfusedChainRule(k: Constants, chain: seq<Block>, b: Block, n: nat)
    requires HeaderChain(k, chain) && HeaderAccepted(k, chain, b) && chain != [] && n < |b.finishedSlots|
    ensures var d, s := Last(chain).deficit, b.finishedSlots[n];
            && (s.icc.Some? <==> d < k.minBlocksPerChallengeBlock && (n == 0 || d > 0))
            && s.ccIccHash == (if d == 0 && n == 0 then Some(s.icc.value.hash) else None)
            && s.rcIccHash == (if s.icc.Some? then Some(s.icc.value.hash) else None)
            && s.rcCcHash == s.ccHash
  {
    DeficitInRange(k, chain);
    if Last(chain).deficit < k.minBlocksPerChallengeBlock {
      IccWalkSucceeds(k, chain);
    }
    SlotHasIcc(k, chain, b, n);
    assert SlotOk(k, chain, b, n);
  }

  /** The infused chain that the walk finds: its hash, and the iterations from there to the end of the sub-slot. */
  lemma InfusedChainStart(k: Constants, chain: seq<Block>)
    requires HeaderChain(k, chain) && chain != []
    requires Last(chain).deficit < k.minBlocksPerChallengeBlock
    ensures var a, icc := IccAnchor(k, chain), FirstIcc(k, chain);
            && icc.Some? && 0 <= a < |chain|
            && (IsChallengeBlock(k, chain[a]) ==>
                  icc.value == (chain[a].challengeInfoHash, SlotEndIters(k, Last(chain)) - chain[a].totalIters))
            && (!IsChallengeBlock(k, chain[a]) ==>
                  var slots := chain[a].finishedSlots;
                  slots != [] && slots[|slots| - 1].icc.Some? &&
                  icc.value == (slots[|slots| - 1].icc.value.hash, Last(chain).subSlotIters))
  {
    hide HeaderChain, HeaderAccepted, IccAnchor, SlotStart;
    IccWalkSucceeds(k, chain);
    var a := IccAnchor(k, chain);
    Grounded(k, chain);
    SameSlotStart(k, chain, a, |chain| - 1);
    if !IsChallengeBlock(k, chain[a]) {
      IccHashesLast(chain[a].finishedSlots);
    }
  }

  lemma {:induction false} IccHashesLength(slots: seq<SubSlot>)
    ensures |IccHashes(slots)| <= |slots|
  {
    if slots != [] {
      IccHashesLength(slots[..|slots| - 1]);
    }
  }

  lemma IccHashesLast(slots: seq<SubSlot>)
    requires |IccHashes(slots)| == |slots|
    ensures slots != [] ==>
              && slots[|slots| - 1].icc.Some?
              && IccHashes(slots)[|slots| - 1] == slots[|slots| - 1].icc.value.hash
  {
    if slots != [] {
      IccHashesLength(slots[..|slots| - 1]);
    }
  }

  /** Inside one block, every sub-slot continues the infused chain of the one before it for a whole sub-slot. */
  lemma InfusedChainContinues(k: Constants, chain: seq<Block>, b: Block, n: nat)
    requires HeaderChain(k, chain) && HeaderAccepted(k, chain, b) && chain != []
    requires n < |b.finishedSlots| && b.finishedSlots[n].icc.Some?
    ensures var icc := b.finishedSlots[n].icc.value;
            && (n == 0 ==> FirstIcc(k, chain) == Some((icc.challenge, icc.iters)))
            && (n > 0 ==> b.finishedSlots[n - 1].icc.Some? && icc.challenge == b.finishedSlots[n - 1].icc.value.hash
                          && icc.iters == Last(chain).subSlotIters)
  {
    hide HeaderChain, WeightRule, IterRule, BlockCountRule, InfusionRule, DeficitRule, TxRule, TxLinkRule, FirstIcc;
    assert SlotOk(k, chain, b, n);
  }

  /** A block that carries an infused-chain VDF has an infused chain to start it from. */
  lemma IccInfusionHasSlot(k: Constants, chain: seq<Block>, b: Block)
    requires HeaderChain(k, chain) && HeaderAccepted(k, chain, b) && chain != []
    requires b.hasIccIp
    ensures b.finishedSlots != [] ==> b.finishedSlots[|b.finishedSlots| - 1].icc.Some?
    ensures b.finishedSlots == [] ==> IccFound(k, chain)
  {
    DeficitInRange(k, chain);
    if b.finishedSlots != [] {
      InfusedChainRule(k, chain, b, |b.finishedSlots| - 1);
    } else {
      IccWalkSucceeds(k, chain);
    }
  }

  /**
   MIN_BLOCKS_PER_CHALLENGE_BLOCK keeps its promise: when the deficit has come down to d,
   at least MIN - d blocks have been infused since (and including) the latest challenge
   block; so a sub-slot hands its infused chain to the challenge chain, which happens at
   deficit 0, only after MIN of them.
   */
  lemma {:induction false} BlocksSinceChallenge(k: Constants, chain: seq<Block>) returns (a: nat)
    requires HeaderChain(k, chain) && chain != []
    requires Last(chain).deficit < k.minBlocksPerChallengeBlock
    ensures a < |chain| && IsChallengeBlock(k, chain[a])
    ensures |chain| - a >= k.minBlocksPerChallengeBlock - Last(chain).deficit
    ensures forall i :: a < i < |chain| ==> chain[i].deficit < k.minBlocksPerChallengeBlock - 1
  {
    var before, b := chain[..|chain| - 1], Last(chain);
    HeaderLast(k, chain);
    if IsChallengeBlock(k, b) {
      a := |chain| - 1;
    } else {
      a := BlocksSinceChallenge(k, before);
    }
  }

  // ---- transaction blocks ----------------------------------------------------------------------

  lemma ItersStep(k: Constants, chain: seq<Block>, b: Block)
    requires IterRule(k, chain, b) && chain != []
    ensures Last(chain).totalIters <= b.totalIters
  {
    hide Ip, SpTotal;
    IpInSlot(k, Last(chain));
    if b.finishedSlots != [] {
      var n := |b.finishedSlots| - 1;
      assert b.subSlotIters * n >= 0;
    }
  }

  lemma IpInSlot(k: Constants, b: Block)
    ensures Ip(k, b) <= b.subSlotIters
  {
  }

  /** Total iterations never decrease. */
  lemma {:induction false} ItersGrow(k: Constants, chain: seq<Block>, i: nat, j: nat)
    requires HeaderChain(k, chain) && i <= j < |chain|
    ensures chain[i].totalIters <= chain[j].totalIters
  {
    if i < j {
      ItersGrow(k, chain, i, j - 1);
      HeaderAt(k, chain, j);
      ItersStep(k, chain[..j], chain[j]);
    }
  }

  /**
   A transaction block's signage point lies past the infusion of every earlier
   transaction block, and transaction timestamps strictly increase; a block that is not
   a transaction block has its signage point at or before the latest one.
   */
  lemma {:induction false} TransactionOrder(k: Constants, chain: seq<Block>, i: nat, j: nat)
    requires HeaderChain(k, chain) && i < j < |chain| && chain[i].IsTx()
    ensures chain[j].IsTx() ==> SpTotal(k, chain[j]) > chain[i].totalIters
    ensures chain[j].IsTx() ==> chain[j].Timestamp() > chain[i].Timestamp()
    ensures !chain[j].IsTx() ==> SpTotal(k, chain[j]) <= chain[LastTx(chain[..j])].totalIters
  {
    HeaderAt(k, chain, j);
    var p := LastTx(chain[..j]);
    assert i <= p by {
      assert chain[..j][i] == chain[i];
    }
    assert chain[..j][p] == chain[p];
    ItersGrow(k, chain, i, p);
    if i < p {
      TransactionOrder(k, chain, i, p);
    }
  }

  // ---- the three signage-point totals -----------------------------------------------------------

  /** create_unfinished_block's two totals, from the start of the signage point's sub-slot. */
  function CreatorSpTotal(start: nat, spIters: nat): nat { start + spIters }

  function CreatorTotal(start: nat, subSlotIters: nat, spIters: nat, ipIters: nat): nat {
    start + ipIters + (if spIters > ipIters then subSlotIters else 0)
  }

  /** BlockRecord.sp_total_iters, from the start of the signage point's sub-slot. */
  function RecordSpTotal(k: Constants, b: Block): int {
    var start := b.totalIters - Ip(k, b) - (if IsOverflow(k, b.spIndex) then b.subSlotIters else 0);
    start + Sp(k, b)
  }

  /**
   A block built with the creator's total has, for the validator and for its record, the
   creator's signage-point total exactly when the two overflow tests agree at its signage point.
   */
  lemma SignagePointTotalsAgree(k: Constants, b: Block, start: nat)
    requires ItersDefined(k, b.subSlotIters, b.spIndex, b.requiredIters)
    requires b.totalIters == CreatorTotal(start, b.subSlotIters, Sp(k, b), Ip(k, b))
    ensures RecordSpTotal(k, b) == SpTotal(k, b)
    ensures SpTotal(k, b) == CreatorSpTotal(start, Sp(k, b)) <==> OverflowTestsFit(k, b.spIndex)
  {
    hide SpIters, IpIters;
    OverflowTestsAgree(k, b.subSlotIters, b.spIndex, b.requiredIters);
    assert b.subSlotIters > 0 by { assert IpIters(k, b.subSlotIters, b.spIndex, b.requiredIters) < b.subSlotIters; }
  }

  /**
   ... and they can differ for a block whose iterations the validator accepts: two signage
   points and two extra intervals.
   */
  lemma SignagePointTotalsDiffer(k: Constants, b: Block)
    requires k.numSpsSubSlot == 2 && k.numSpIntervalsExtra == 2 && k.subSlotItersStarting == 20
    requires b.subSlotIters == 20 && b.spIndex == 1 && b.requiredIters == 1
    requires |b.finishedSlots| == 1 && b.totalIters == 31
    ensures IterRule(k, [], b) && b.totalIters == CreatorTotal(20, b.subSlotIters, Sp(k, b), Ip(k, b))
    ensures SpTotal(k, b) == 10 && CreatorSpTotal(20, Sp(k, b)) == 30
  {
  }
}
