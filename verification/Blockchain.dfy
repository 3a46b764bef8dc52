/**
 The node's chain state (blockchain.py): adding blocks in any order, on any branch, and
 switching the coin table over when another branch becomes heavier.
 */
module Blockchains {
  import opened Types
  import opened CoinLedger
  import opened ForkOverlay
  import opened Headers
  import opened HeaderTheorems
  import opened Bodies
  import opened BodyTheorems
  import opened BlockStore
  import opened ForkInfos
  import opened CoinStores
  import opened ForkPoint
  import opened BodyValidation
  import opened HeaderValidation

  datatype AddBlockResult = NewPeak | AddedAsOrphan | InvalidBlock | AlreadyHaveBlock | DisconnectedBlock | Raised

  ghost function Hashes(chain: seq<Block>): set<Hash> { set i | 0 <= i < |chain| :: chain[i].hash }

  // ---- replaying a branch into the coin table --------------------------------------------

  /** A transaction block above genesis claims at least one pool and one farmer coin. */
  lemma AtLeastTwoClaims(k: Constants, chain: seq<Block>, b: Block)
    requires ValidChain(k, chain) && Accepted(k, chain, b) && b.IsTx() && chain != []
    ensures |EffectsOf(b).rewards| >= 2
  {
    hide Accepted, ValidChain, HeaderChain;
    AcceptedBody(k, chain, b);
    ValidHeaders(k, chain);
    Grounded(k, chain);
    var p := LastTx(chain);
    ClaimListMembers(chain, ClaimedCount(chain), p + 1, PoolCoin(chain[p]));
    ClaimListMembers(chain, ClaimedCount(chain), p + 1, FarmerCoin(chain[p]));
    assert {PoolCoin(chain[p]), FarmerCoin(chain[p])} <= EffectsOf(b).rewards;
    SubsetSize({PoolCoin(chain[p]), FarmerCoin(chain[p])}, EffectsOf(b).rewards);
  }

  lemma SubsetSize<T>(a: set<T>, b: set<T>)
    requires a <= b
    ensures |a| <= |b|
  {
    assert b == a + (b - a);
  }

  /** The picked effects of the branch's next transaction block can be applied, and give its table. */
  lemma NextBlockApplies(k: Constants, branch: seq<Block>, i: nat, forkHeight: int, adds: Additions, rems: Removals)
    requires ValidChain(k, branch) && forkHeight < i < |branch| && branch[i].IsTx()
    requires AdditionsSince(AllEffects(branch), forkHeight, adds)
    requires RemovalsSince(AllEffects(branch), forkHeight, rems)
    ensures branch[i].height == i
    ensures PickedAt(adds, rems, i, branch[i].Timestamp()) == EffectsOf(branch[i])
    ensures CanApplyTo(LedgerAt(branch[..i]), i, EffectsOf(branch[i]))
    ensures Apply(LedgerAt(branch[..i]), i, EffectsOf(branch[i])) == LedgerAt(branch[..i + 1])
  {
    hide Accepted, ValidChain, HeaderChain, Sound, AdditionsSince, RemovalsSince, Replay, RewardsExact, Apply;
    var before, b := branch[..i], branch[i];
    ValidAt(k, branch, i);
    AcceptedBody(k, before, b);
    ChainIsSound(k, before);
    ValidHeaders(k, before);
    AcceptedIsStep(k, before, b);
    ReplayIsLedger(AllEffects(before));
    StepIsFresh(AllEffects(before), LedgerAt(before), EffectsOf(b));
    if i > 0 {
      AtLeastTwoClaims(k, before, b);
    }
    EffectsSnoc(before, b);
    assert before + [b] == branch[..i + 1];
    assert AllEffects(branch)[i] == EffectsOf(b);
    PickedIsBlock(AllEffects(branch), forkHeight, adds, rems, i);
  }

  /** Rolling the main chain's table back to the fork gives the table of the shared prefix. */
  lemma RollBackToFork(k: Constants, main: seq<Block>, branch: seq<Block>, f: int)
    requires ValidChain(k, main) && -1 <= f < |main| && f < |branch| && main[..f + 1] == branch[..f + 1]
    ensures RolledBack(LedgerAt(main), f) == LedgerAt(branch[..f + 1])
  {
    hide ValidChain, Sound, Replay, RolledBack, EffectsOf, RewardsExact;
    ChainIsSound(k, main);
    RollBackIsReplay(AllEffects(main), f);
    EffectsPrefix(main, f + 1);
  }

  lemma NonTxApplies(k: Constants, branch: seq<Block>, i: nat)
    requires ValidChain(k, branch) && i < |branch| && !branch[i].IsTx()
    ensures LedgerAt(branch[..i + 1]) == LedgerAt(branch[..i])
  {
    hide Accepted, ValidChain, LedgerAt;
    ValidAt(k, branch, i);
    AcceptedBody(k, branch[..i], branch[i]);
    NonTxStep(branch[..i], branch[i]);
    assert branch[..i] + [branch[i]] == branch[..i + 1];
  }

  // ---- weights -----------------------------------------------------------------------------

  lemma {:induction false} WeightAtLeastStarting(k: Constants, chain: seq<Block>)
    requires HeaderChain(k, chain) && chain != []
    ensures Last(chain).weight >= k.difficultyStarting
  {
    hide IterRule, SlotRule, BlockCountRule, InfusionRule, DeficitRule, TxRule, TxLinkRule, HeaderChain;
    HeaderLast(k, chain);
    if |chain| > 1 {
      WeightAtLeastStarting(k, chain[..|chain| - 1]);
    }
  }

  // ---- running the blocks of a branch ------------------------------------------------------------

  lemma ValidStored(k: Constants, store: Store, h: Hash)
    requires Linked(store) && AllValid(k, store) && h in store
    ensures ValidChain(k, ChainTo(store, h))
  {
  }

  lemma BlockOnBranch(k: Constants, store: Store, h: Hash, height: nat)
    requires Linked(store) && AllValid(k, store) && h in store && height <= store[h].height
    ensures var branch := ChainTo(store, h); var b := branch[height];
            && b.hash in store && store[b.hash] == b && b.height == height
            && ValidChain(k, branch[..height]) && Accepted(k, branch[..height], b)
            && branch[..height] + [b] == branch[..height + 1]
  {
    hide Accepted, ValidChain, ChainTo, Linked, AllValid, TxBodyAccepted;
    var branch := ChainTo(store, h);
    ValidStored(k, store, h);
    ChainToPrefix(store, h, height);
    ValidAt(k, branch, height);
    AcceptedBody(k, branch[..height], branch[height]);
  }

  lemma HashAt(hashes: map<nat, Hash>, chain: seq<Block>, height: int, i: nat)
    requires HashesAbove(hashes, chain, height) && height < i < |chain|
    ensures i in hashes && hashes[i] == chain[i].hash
  {
  }

  lemma PeakIsParent(k: Constants, forkInfo: ForkInfo, chain: seq<Block>, b: Block)
    requires HeaderAccepted(k, chain, b) && forkInfo.Tracks(chain)
    ensures forkInfo.peakHeight == b.height - 1 && (b.height == 0 || forkInfo.peakHash == b.prevHash)
  {
    hide HashesFrom, AdditionsSince, RemovalsSince;
    LinkOf(k, chain, b);
  }

  /** run_single_block, for the blocks of a branch from the ForkInfo's peak up. */
  method RunBlocks(ghost k: Constants, store: Store, forkInfo: ForkInfo, hashes: map<nat, Hash>, h: Hash,
                   ghost branch: seq<Block>)
    requires Linked(store) && AllValid(k, store) && h in store && branch == ChainTo(store, h)
    requires -1 <= forkInfo.peakHeight < |branch| && forkInfo.Tracks(branch[..forkInfo.peakHeight + 1])
    requires HashesAbove(hashes, branch, forkInfo.peakHeight)
    modifies forkInfo
    ensures forkInfo.Tracks(branch) && forkInfo.forkHeight == old(forkInfo.forkHeight)
  {
    hide Linked, AllValid, ValidChain, HeaderAccepted, BodyAccepted, ChainTo, HashesAbove, AdditionsSince;
    hide RemovalsSince;
    var height := forkInfo.peakHeight + 1;
    ghost var start := forkInfo.peakHeight;
    while height < store[h].height + 1
      invariant start < height <= |branch| == store[h].height + 1
      invariant forkInfo.Tracks(branch[..height]) && forkInfo.forkHeight == old(forkInfo.forkHeight)
    {
      BlockOnBranch(k, store, h, height);
      HashAt(hashes, branch, start, height);
      var forkBlock := store[hashes[height]];
      assert forkInfo.peakHeight == forkBlock.height - 1;
      PeakIsParent(k, forkInfo, branch[..height], forkBlock);
      assert forkBlock.height == 0 || forkInfo.peakHash == forkBlock.prevHash;
      forkInfo.IncludeSpends(k, forkBlock, branch[..height]);
      height := height + 1;
    }
    assert branch[..|branch|] == branch;
  }

  /** Applies the blocks above the fork to a coin table that stands at the fork. */
  method ApplyBranch(ghost k: Constants, coinStore: CoinStore, records: seq<Block>, forkInfo: ForkInfo,
                     ghost branch: seq<Block>)
    requires ValidChain(k, branch) && forkInfo.Tracks(branch)
    requires records == branch[forkInfo.forkHeight + 1..]
    requires coinStore.records == LedgerAt(branch[..forkInfo.forkHeight + 1])
    modifies coinStore
    ensures coinStore.records == LedgerAt(branch)
  {
    hide ValidChain, LedgerAt, CanApplyTo, Apply, EffectsOf, AdditionsSince, RemovalsSince, HashesFrom;
    ghost var f := forkInfo.forkHeight;
    for i := 0 to |records|
      invariant coinStore.records == LedgerAt(branch[..f + 1 + i])
    {
      var r := records[i];
      ghost var n := f + 1 + i;
      assert r == branch[n];
      if !r.IsTx() {
        NonTxApplies(k, branch, n);
      } else {
        NextBlockApplies(k, branch, n, f, forkInfo.additions, forkInfo.removals);
        var e := PickedAt(forkInfo.additions, forkInfo.removals, r.height, r.Timestamp());
        coinStore.NewBlock(r.height, r.Timestamp(), e.rewards, e.created, e.spent);
      }
    }
    assert branch[..|branch|] == branch;
  }

  /** get_block_records_by_hash, in the order of the hashes. */
  method RecordsByHash(store: Store, hashes: seq<Hash>) returns (records: seq<Block>)
    requires forall h :: h in hashes ==> h in store
    ensures |records| == |hashes| && forall i :: 0 <= i < |hashes| ==> records[i] == store[hashes[i]]
  {
    records := [];
    for i := 0 to |hashes|
      invariant |records| == i && forall j :: 0 <= j < i ==> records[j] == store[hashes[j]]
    {
      records := records + [store[hashes[i]]];
    }
  }

  /** The flags after unsetting them above the fork and setting them on the given blocks. */
  function MovedFlags(flags: set<Hash>, store: Store, forkHeight: int, records: seq<Block>): set<Hash> {
    (set h | h in flags && h in store && store[h].height <= forkHeight)
    + (set i | 0 <= i < |records| :: records[i].hash)
  }

  /** A block's hash is kept exactly when the block is on the shared part. */
  lemma KeptIsShared(store: Store, main: seq<Block>, branch: seq<Block>, f: int, h: Hash)
    requires Forks(main, branch, f) && StoredAt(store, main)
    ensures h in Hashes(main) && h in store && store[h].height <= f <==> exists i :: 0 <= i <= f && branch[i].hash == h
  {
    assert forall i :: 0 <= i <= f ==> main[..f + 1][i] == main[i] && branch[..f + 1][i] == branch[i];
    if h in Hashes(main) && h in store && store[h].height <= f {
      var i :| 0 <= i < |main| && main[i].hash == h;
      assert branch[i].hash == h;
    }
    if i :| 0 <= i <= f && branch[i].hash == h {
      assert main[i].hash == h;
    }
  }

  /** Moving the flags over marks exactly the branch. */
  lemma FlagsMoveOver(k: Constants, store: Store, peak: Option<Hash>, branch: seq<Block>, f: int)
    requires Linked(store) && AllValid(k, store) && (peak.Some? ==> peak.value in store)
    requires Forks(MainOf(store, peak), branch, f)
    ensures f < |branch| && MovedFlags(Hashes(MainOf(store, peak)), store, f, branch[f + 1..]) == Hashes(branch)
  {
    hide Linked, AllValid, ChainTo, StoredAt;
    var main := MainOf(store, peak);
    if peak.Some? {
      StoredBlocks(k, store, peak.value);
    } else {
      NothingStored(store);
    }
    var moved, tail := MovedFlags(Hashes(main), store, f, branch[f + 1..]), branch[f + 1..];
    forall h ensures h in moved <==> h in Hashes(branch) {
      KeptIsShared(store, main, branch, f, h);
      TailHashes(branch, f, h);
    }
  }

  lemma TailHashes(branch: seq<Block>, f: int, h: Hash)
    requires -1 <= f < |branch|
    ensures h in Hashes(branch) <==> (exists i :: 0 <= i <= f && branch[i].hash == h) || h in Hashes(branch[f + 1..])
  {
    var tail := branch[f + 1..];
    if h in Hashes(branch) {
      var i :| 0 <= i < |branch| && branch[i].hash == h;
      assert i > f ==> tail[i - f - 1].hash == h;
    }
    if h in Hashes(tail) {
      var i :| 0 <= i < |tail| && tail[i].hash == h;
      assert branch[f + 1 + i].hash == h;
    }
  }

  lemma ForksSnoc(main: seq<Block>, chain: seq<Block>, f: int, b: Block)
    requires Forks(main, chain, f)
    ensures Forks(main, chain + [b], f) && -1 <= f < |chain|
  {
    assert (chain + [b])[..f + 1] == chain[..f + 1];
  }

  /** Against one of its own prefixes, a chain forks at the prefix's end. */
  lemma PrefixForksAtEnd(prefix: seq<Block>, chain: seq<Block>, f: int)
    requires prefix <= chain && IsForkHeight(prefix, chain, f)
    ensures f == |prefix| - 1
  {
    assert forall i :: 0 <= i < |prefix| ==> prefix[i] == chain[i];
  }

  /** The blocks from genesis to a peak. */
  ghost function MainOf(store: Store, peak: Option<Hash>): seq<Block>
    requires Linked(store) && (peak.Some? ==> peak.value in store)
  {
    if peak.None? then [] else ChainTo(store, peak.value)
  }

  // ---- the chain state ------------------------------------------------------------------------

  class Blockchain {
    const k: Constants
    const coinStore: CoinStore
    var store: Store              // every block that was ever accepted, by hash
    var peak: Option<Hash>
    var inMainChain: set<Hash>    // the in_main_chain flag of the block table

    /** The blocks from genesis to the peak. */
    ghost function Main(): seq<Block>
      reads this
      requires Linked(store) && (peak.Some? ==> peak.value in store)
    {
      MainOf(store, peak)
    }

    /** Every stored chain is valid, the peak is a heaviest block, and table and flags are the main chain's. */
    ghost predicate Valid()
      reads this, coinStore
    {
      && k.maxCoinAmount <= UINT64_MAX
      && Linked(store) && AllValid(k, store)
      && (peak.None? ==> store == map[])
      && (peak.Some? ==> peak.value in store)
      && (peak.Some? ==> forall h :: h in store ==> store[h].weight <= store[peak.value].weight)
      && coinStore.records == LedgerAt(Main())
      && inMainChain == Hashes(Main())
    }

    constructor (k: Constants)
      requires k.maxCoinAmount <= UINT64_MAX
      ensures Valid() && fresh(coinStore) && store == map[] && this.k == k
    {
      this.k := k;
      coinStore := new CoinStore();
      store, peak, inMainChain := map[], None, {};
    }

    ghost predicate Connected(b: Block)
      reads this
    {
      b.height == 0 || (b.prevHash in store && store[b.prevHash].height == b.height - 1)
    }

    predicate ExtendsMainChain(b: Block)
      reads this
    {
      b.height == 0 || peak.None? || b.prevHash == peak.value
    }

    /** Does the block become the peak, once it is accepted? */
    predicate Outweighs(b: Block)
      reads this
      requires peak.Some? ==> peak.value in store
    {
      peak.None? || (b.height > 0 && b.weight > store[peak.value].weight)
    }

    /** A ForkInfo describes a branch that ends at or below a block, and leaves the main chain where it says. */
    ghost predicate Describes(forkInfo: ForkInfo, branch: seq<Block>)
      reads this, forkInfo
      requires Linked(store) && (peak.Some? ==> peak.value in store)
    {
      && forkInfo.Tracks(branch)
      && Forks(Main(), branch, forkInfo.forkHeight)
    }

    /** advance_fork_info: brings a ForkInfo that lags behind up to the block's parent; raises at peak height -1. */
    method AdvanceForkInfo(b: Block, forkInfo: ForkInfo, ghost branch: seq<Block>) returns (raised: bool)
      requires Valid() && Connected(b) && branch <= Ancestors(store, b) && forkInfo.Tracks(branch)
      requires forkInfo.peakHash == b.prevHash ==> branch == Ancestors(store, b)
      modifies forkInfo
      ensures raised <==> old(forkInfo.peakHeight < 0 && forkInfo.peakHash != b.prevHash)
      ensures raised ==> unchanged(forkInfo)
      ensures !raised ==> forkInfo.Tracks(Ancestors(store, b)) && forkInfo.forkHeight == old(forkInfo.forkHeight)
    {
      hide Linked, AllValid, LedgerAt, ValidChain, HashesAbove, ChainTo;
      if forkInfo.peakHash == b.prevHash {
        return false;
      }
      if forkInfo.peakHeight < 0 || b.height - 1 < 0 {
        return true;                                   // uint32() of a negative number
      }
      ghost var chain := Ancestors(store, b);
      ghost var p := forkInfo.peakHeight;
      ChainToPrefix(store, b.prevHash, p);
      assert chain[..p + 1] == branch;
      var hashes, forkHash := LookupForkChain(store, forkInfo.peakHeight, forkInfo.peakHash, b.height - 1, b.prevHash);
      PrefixForksAtEnd(branch, chain, b.height - 1 - |hashes|);
      assert |hashes| == b.height - forkInfo.peakHeight - 1;
      assert forkHash == forkInfo.peakHash;
      RunBlocks(k, store, forkInfo, hashes, b.prevHash, chain);
      raised := false;
    }

    /** The slow path of add_block: find the fork and run the branch from there. */
    method BuildForkInfo(b: Block) returns (forkInfo: ForkInfo)
      requires Valid() && Connected(b) && b.height > 0 && peak.Some?
      ensures fresh(forkInfo) && Describes(forkInfo, Ancestors(store, b))
    {
      hide Linked, AllValid, LedgerAt, ValidChain, ChainTo, HashesAbove;
      ghost var chain := Ancestors(store, b);
      var hashes, forkHash := LookupForkChain(store, store[peak.value].height, peak.value, b.height - 1, b.prevHash);
      var forkHeight := b.height - |hashes| - 1;
      assert forkHeight >= 0 ==> Last(chain[..forkHeight + 1]) == chain[forkHeight];
      forkInfo := new ForkInfo(forkHeight, forkHash, chain[..forkHeight + 1]);
      RunBlocks(k, store, forkInfo, hashes, b.prevHash, chain);
    }

    /** What _reconsider_peak starts from, once the block has been stored. */
    ghost predicate Stored(b: Block, forkInfo: ForkInfo, branch: seq<Block>)
      reads this, coinStore, forkInfo
    {
      && Linked(store) && AllValid(k, store) && b.hash in store && store[b.hash] == b
      && branch == ChainTo(store, b.hash)
      && (peak.Some? ==> peak.value in store)
      && Describes(forkInfo, branch) && forkInfo.forkHeight < b.height
      && (peak.Some? && b.height > 0 && b.prevHash == peak.value ==> forkInfo.forkHeight == |Main()| - 1)
      && inMainChain == Hashes(Main())
    }

    /** Undoes the main chain's coins above the fork. */
    method RewindToFork(b: Block, forkInfo: ForkInfo, ghost branch: seq<Block>)
      requires Stored(b, forkInfo, branch) && coinStore.records == LedgerAt(Main())
      requires b.height > 0 || peak.None?
      modifies coinStore
      ensures forkInfo.forkHeight < |branch|
      ensures coinStore.records == LedgerAt(branch[..forkInfo.forkHeight + 1])
    {
      hide Linked, AllValid, LedgerAt, ValidChain, ChainTo, Hashes, RolledBack, ForkInfo.Tracks;
      ghost var main, f := Main(), forkInfo.forkHeight;
      if peak.Some? && b.prevHash != peak.value {
        ValidStored(k, store, peak.value);
        RollBackToFork(k, main, branch, f);
        var _ := coinStore.RollbackToBlock(forkInfo.forkHeight);
      } else {
        assert main[..f + 1] == main;
      }
    }

    /** Applies the branch to the coin table, moves the flags, and sets the peak. */
    method SwitchOver(b: Block, forkInfo: ForkInfo, ghost branch: seq<Block>)
      requires Stored(b, forkInfo, branch)
      requires forkInfo.forkHeight < |branch| && coinStore.records == LedgerAt(branch[..forkInfo.forkHeight + 1])
      modifies this, coinStore
      ensures store == old(store) && peak == Some(b.hash)
      ensures coinStore.records == LedgerAt(branch) && inMainChain == Hashes(branch)
    {
      hide Linked, AllValid, LedgerAt, ValidChain, ChainTo, Hashes, ForkInfo.Tracks, Forks, MovedFlags, MainOf;
      FlagsMoveOver(k, store, peak, branch, forkInfo.forkHeight);
      var records := BranchRecords(k, store, b, forkInfo, branch);
      ValidStored(k, store, b.hash);
      ApplyBranch(k, coinStore, records, forkInfo, branch);
      inMainChain := MovedFlags(inMainChain, store, forkInfo.forkHeight, records);
      peak := Some(b.hash);
    }

    /** _reconsider_peak, after the block has been stored. */
    method ReconsiderPeak(b: Block, forkInfo: ForkInfo, ghost branch: seq<Block>) returns (newPeak: bool)
      requires Stored(b, forkInfo, branch) && coinStore.records == LedgerAt(Main())
      modifies this, coinStore
      ensures store == old(store)
      ensures newPeak <==> old(peak.None?) || (b.height > 0 && b.weight > store[old(peak).value].weight)
      ensures peak == if newPeak then Some(b.hash) else old(peak)
      ensures coinStore.records == LedgerAt(Main()) && inMainChain == Hashes(Main())
    {
      hide Linked, AllValid, LedgerAt, ChainTo, Hashes, ForkInfo.Tracks, Forks;
      var genesis := b.height == 0;
      if genesis && peak.Some? {
        return false;
      }
      if peak.Some? && b.weight <= store[peak.value].weight {
        return false;
      }
      RewindToFork(b, forkInfo, branch);
      SwitchOver(b, forkInfo, branch);
      newPeak := true;
    }

    /** Storing an accepted block, and what that leaves unchanged. */
    method StoreBlock(b: Block, forkInfo: ForkInfo, ghost chain: seq<Block>)
      requires Valid() && Connected(b) && b.hash !in store && chain == Ancestors(store, b)
      requires Accepted(k, chain, b) && Describes(forkInfo, chain + [b]) && forkInfo.forkHeight < b.height
      requires peak.Some? && b.height > 0 && b.prevHash == peak.value ==> forkInfo.forkHeight == |Main()| - 1
      modifies this`store
      ensures store == old(store)[b.hash := b] && Stored(b, forkInfo, chain + [b])
      ensures Main() == old(Main())
      ensures peak.Some? ==> store[peak.value] == old(store)[peak.value]
    {
      hide Linked, AllValid, LedgerAt, Accepted, ChainTo, Hashes, ForkInfo.Tracks, Forks;
      AddKeepsLinked(store, b);
      AddKeepsValid(k, store, b);
      if peak.Some? {
        ChainToStable(store, b, peak.value);
      }
      store := store[b.hash := b];
    }

    /** add_full_block and _reconsider_peak, for an accepted block that its ForkInfo includes. */
    method StoreAndReconsider(b: Block, forkInfo: ForkInfo, ghost chain: seq<Block>) returns (newPeak: bool)
      requires Valid() && Connected(b) && b.hash !in store && chain == Ancestors(store, b)
      requires Accepted(k, chain, b) && Describes(forkInfo, chain + [b]) && forkInfo.forkHeight < b.height
      requires peak.Some? && b.height > 0 && b.prevHash == peak.value ==> forkInfo.forkHeight == |Main()| - 1
      modifies this, coinStore
      ensures Valid()
      ensures store == old(store)[b.hash := b] && ChainTo(store, b.hash) == chain + [b]
      ensures newPeak <==> old(Outweighs(b))
      ensures peak == if newPeak then Some(b.hash) else old(peak)
    {
      hide Linked, AllValid, LedgerAt, HeaderAccepted, BodyAccepted, ChainTo, Hashes, ForkInfo.Tracks, Forks, MainOf;
      WeightsStay(k, store, b, peak);
      StoreBlock(b, forkInfo, chain);
      newPeak := ReconsiderPeak(b, forkInfo, chain + [b]);
    }

    /** validate_block_body, include_spends, add_full_block and _reconsider_peak, on a ForkInfo that is up to date. */
    method ValidateAndStore(b: Block, forkInfo: ForkInfo, ghost chain: seq<Block>) returns (result: AddBlockResult)
      requires Valid() && Connected(b) && b.hash !in store && chain == Ancestors(store, b)
      requires HeaderAccepted(k, chain, b) && Describes(forkInfo, chain)
      requires peak.Some? && b.height > 0 && b.prevHash == peak.value ==> forkInfo.forkHeight == |Main()| - 1
      modifies this, coinStore, forkInfo
      ensures Valid()
      ensures result.InvalidBlock? || result.NewPeak? || result.AddedAsOrphan?
      ensures result.InvalidBlock? <==> !BodyAccepted(k, chain, b)
      ensures result.InvalidBlock? ==> unchanged(this) && unchanged(coinStore) && unchanged(forkInfo)
      ensures !result.InvalidBlock? ==> store == old(store)[b.hash := b] && forkInfo.Tracks(ChainTo(store, b.hash))
      ensures !result.InvalidBlock? ==> (result.NewPeak? <==> old(Outweighs(b)))
      ensures peak == if result.NewPeak? then Some(b.hash) else old(peak)
    {
      hide Linked, AllValid, LedgerAt, ValidChain, HeaderAccepted, BodyAccepted, ChainTo, Hashes, ForkInfo.Tracks;
      hide Forks;
      ChainsAreValid(k, store, b, peak);
      PeakIsParent(k, forkInfo, chain, b);
      assert forkInfo.peakHeight == b.height - 1 && (b.height == 0 || forkInfo.peakHash == b.prevHash);
      var err := ValidateBlockBody(k, store, coinStore, forkInfo, b, Main(), chain);
      if err.Some? {
        return InvalidBlock;
      }
      LinkOf(k, chain, b);
      ForksSnoc(Main(), chain, forkInfo.forkHeight, b);
      forkInfo.IncludeSpends(k, b, chain);
      var newPeak := StoreAndReconsider(b, forkInfo, chain);
      result := if newPeak then NewPeak else AddedAsOrphan;
    }

    /** The given ForkInfo lags behind the block's parent on its way up from the fork. */
    ghost predicate Lags(b: Block, forkInfo: ForkInfo, branch: seq<Block>)
      reads this, forkInfo
      requires Linked(store) && (peak.Some? ==> peak.value in store) && (b.height == 0 || b.prevHash in store)
    {
      && Describes(forkInfo, branch)
      && branch <= Ancestors(store, b)
      && (forkInfo.peakHash == b.prevHash ==> branch == Ancestors(store, b))
    }

    /** A ForkInfo at height -1 cannot be advanced: its height is converted to an unsigned integer. */
    predicate AdvanceRaises(b: Block, forkInfo: ForkInfo?)
      reads this, forkInfo
    {
      forkInfo != null && !ExtendsMainChain(b) && forkInfo.peakHeight < 0 && forkInfo.peakHash != b.prevHash
    }

    /**
     add_block.  `preValidated` says that the header check against the block's ancestors has
     succeeded; `branch` is what the given ForkInfo describes.
     */
    method AddBlock(b: Block, preValidated: bool, forkInfo: ForkInfo?, ghost branch: seq<Block>)
        returns (result: AddBlockResult)
      requires Valid()
      requires b.hash in store ==> store[b.hash] == b
      requires preValidated ==> b.height == 0 || peak.Some?
      requires preValidated && (b.height == 0 || b.prevHash in store) ==> HeaderAccepted(k, Ancestors(store, b), b)
      requires forkInfo != null && (b.height == 0 || b.prevHash in store) && !ExtendsMainChain(b) ==>
                Lags(b, forkInfo, branch)
      modifies this, coinStore, forkInfo
      ensures Valid()
      ensures (result.NewPeak? || result.AddedAsOrphan?) <==>
              old(b.hash !in store && (b.height == 0 || b.prevHash in store) && preValidated
                  && BodyAccepted(k, Ancestors(store, b), b) && !AdvanceRaises(b, forkInfo))
      ensures result.NewPeak? ==> old(Outweighs(b)) && peak == Some(b.hash)
      ensures result.AddedAsOrphan? ==> !old(Outweighs(b)) && peak == old(peak)
      ensures store == if result.NewPeak? || result.AddedAsOrphan? then old(store)[b.hash := b] else old(store)
      ensures !(result.NewPeak? || result.AddedAsOrphan?) ==> unchanged(this) && unchanged(coinStore)
      ensures result.Raised? ==> old(AdvanceRaises(b, forkInfo))
      ensures forkInfo != null && (result.NewPeak? || result.AddedAsOrphan? || result.AlreadyHaveBlock?) ==>
                b.hash in store && forkInfo.Tracks(ChainTo(store, b.hash))
    {
      hide Linked, AllValid, LedgerAt, ValidChain, BodyAccepted, ChainTo, Hashes, AdditionsSince, RemovalsSince;
      hide WeightRule, IterRule, SlotRule, BlockCountRule, InfusionRule, DeficitRule, TxRule, TxLinkRule;
      if b.height == 0 && b.prevHash != k.genesisChallenge {
        return InvalidBlock;
      }
      var extending := ExtendsMainChain(b);
      if !extending {
        if b.prevHash !in store {
          return DisconnectedBlock;
        }
        if store[b.prevHash].height + 1 != b.height {
          return InvalidBlock;
        }
      }
      if !preValidated {
        return InvalidBlock;
      }
      ghost var chain := Ancestors(store, b);
      var fork: ForkInfo;
      if forkInfo == null {
        if b.hash in store {
          return AlreadyHaveBlock;
        }
        if extending {
          fork := new ForkInfo(b.height - 1, b.prevHash, chain);
        } else {
          fork := BuildForkInfo(b);
        }
      } else {
        fork := forkInfo;
        if extending {
          fork.Reset(b.height - 1, b.prevHash, chain);
        }
        if b.hash in store || fork.peakHash != b.prevHash {
          var raised := AdvanceForkInfo(b, fork, if extending then chain else branch);
          if raised {
            return Raised;
          }
        }
        if b.hash in store {
          KnownIsAccepted(k, store, b);
          fork.IncludeSpends(k, b, chain);
          return AlreadyHaveBlock;
        }
      }
      result := ValidateAndStore(b, fork, chain);
    }

    /** A block arrives: its header is validated, then it is added without a ForkInfo. */
    method ReceiveBlock(b: Block) returns (result: AddBlockResult)
      requires Valid() && (b.hash in store ==> store[b.hash] == b)
      modifies this, coinStore
      ensures Valid()
      ensures (result.NewPeak? || result.AddedAsOrphan?) <==> old(b.hash !in store && Accepted(k, Before(store, b), b))
      ensures store == if result.NewPeak? || result.AddedAsOrphan? then old(store)[b.hash := b] else old(store)
      ensures result.NewPeak? ==>
                old(peak.None? || b.weight > store[peak.value].weight) && peak == Some(b.hash)
      ensures result.AddedAsOrphan? ==>
                old(peak.Some? && b.weight <= store[peak.value].weight) && peak == old(peak)
      ensures !(result.NewPeak? || result.AddedAsOrphan?) ==> unchanged(this) && unchanged(coinStore)
    {
      hide Linked, AllValid, LedgerAt, ValidChain, HeaderChain, HeaderAccepted, BodyAccepted, ChainTo, Hashes;
      hide FirstFailing;
      ghost var chain := Before(store, b);
      BeforeIsValid(k, store, b);
      var err := ValidateFinishedHeaderBlock(k, store, b, chain);
      if err.None? {
        LinkOf(k, chain, b);
        WeightsStay(k, store, b, peak);
      }
      result := AddBlock(b, err.None?, null, []);
    }

    /** Any number of blocks, in any order. */
    method ReceiveAll(blocks: seq<Block>)
      requires Valid() && HashesIdentify(store, blocks)
      modifies this, coinStore
      ensures Valid()
      ensures forall h :: h in old(store) ==> h in store && store[h] == old(store)[h]
      ensures forall h :: h in store && h !in old(store) ==> store[h] in blocks
    {
      hide Linked, AllValid, LedgerAt, ValidChain, ChainTo, Hashes;
      for i := 0 to |blocks|
        invariant Valid()
        invariant forall h :: h in old(store) ==> h in store && store[h] == old(store)[h]
        invariant forall h :: h in store && h !in old(store) ==> store[h] in blocks && store[h].hash == h
      {
        var _ := ReceiveBlock(blocks[i]);
      }
    }
  }

  /** Blocks with the same hash are the same block. */
  ghost predicate HashesIdentify(store: Store, blocks: seq<Block>) {
    && (forall b :: b in blocks && b.hash in store ==> store[b.hash] == b)
    && (forall b, b' :: b in blocks && b' in blocks && b.hash == b'.hash ==> b == b')
  }

  lemma BeforeIsValid(k: Constants, store: Store, b: Block)
    requires Linked(store) && AllValid(k, store)
    ensures ValidChain(k, Before(store, b)) && HeaderChain(k, Before(store, b))
  {
    hide Accepted, HeaderAccepted, Linked, ChainTo;
    if b.prevHash in store {
      ValidStored(k, store, b.prevHash);
    } else {
      EmptyIsValid(k);
    }
    ValidHeaders(k, Before(store, b));
  }

  lemma KnownIsAccepted(k: Constants, store: Store, b: Block)
    requires Linked(store) && AllValid(k, store) && b.hash in store && store[b.hash] == b
    ensures (b.height == 0 || b.prevHash in store)
    ensures ValidChain(k, Ancestors(store, b)) && Accepted(k, Ancestors(store, b), b)
    ensures Ancestors(store, b) + [b] == ChainTo(store, b.hash)
  {
    hide Accepted, ValidChain;
    assert LinkedAt(store, b.hash);
    EmptyIsValid(k);
    var chain := ChainTo(store, b.hash);
    assert ValidChain(k, chain);
    ValidLast(k, chain);
    assert chain[..|chain| - 1] == Ancestors(store, b);
  }

  lemma LinkOf(k: Constants, chain: seq<Block>, b: Block)
    requires HeaderAccepted(k, chain, b)
    ensures b.height == |chain| && (chain != [] ==> b.prevHash == Last(chain).hash)
  {
  }

  /** Ancestors and main chain of a consistent store are valid. */
  lemma ChainsAreValid(k: Constants, store: Store, b: Block, peak: Option<Hash>)
    requires Linked(store) && AllValid(k, store) && (b.height == 0 || b.prevHash in store)
    requires peak.Some? ==> peak.value in store
    ensures ValidChain(k, Ancestors(store, b))
    ensures ValidChain(k, MainOf(store, peak))
  {
    hide Accepted;
    EmptyIsValid(k);
  }

  /** The heaviest block is still the peak, or the new block outweighs it. */
  lemma WeightsStay(k: Constants, store: Store, b: Block, peak: Option<Hash>)
    requires Linked(store) && AllValid(k, store) && (b.height == 0 || b.prevHash in store)
    requires HeaderAccepted(k, Ancestors(store, b), b)
    requires peak.Some? ==> peak.value in store
    ensures peak.Some? && b.height == 0 ==> b.weight <= store[peak.value].weight
  {
    hide IterRule, SlotRule, BlockCountRule, InfusionRule, DeficitRule, TxRule, TxLinkRule, ValidChain, ChainTo, Linked;
    if peak.Some? && b.height == 0 {
      ValidStored(k, store, peak.value);
      ValidHeaders(k, ChainTo(store, peak.value));
      WeightAtLeastStarting(k, ChainTo(store, peak.value));
    }
  }

  lemma NothingStored(store: Store)
    ensures StoredAt(store, [])
  {
  }

  /** The records of the blocks between the fork and the new block. */
  method BranchRecords(ghost k: Constants, store: Store, b: Block, forkInfo: ForkInfo, ghost branch: seq<Block>)
      returns (records: seq<Block>)
    requires Linked(store) && AllValid(k, store) && b.hash in store
    requires store[b.hash] == b && branch == ChainTo(store, b.hash)
    requires forkInfo.Tracks(branch) && forkInfo.forkHeight < b.height
    ensures records == branch[forkInfo.forkHeight + 1..]
  {
    hide Linked, AllValid, ChainTo, AdditionsSince, RemovalsSince;
    StoredBlocks(k, store, b.hash);
    var f := forkInfo.forkHeight;
    if b.height == 0 {
      records := [b];
    } else {
      assert forall i :: 0 <= i < |forkInfo.blockHashes| ==> forkInfo.blockHashes[i] == branch[f + 1 + i].hash;
      records := RecordsByHash(store, forkInfo.blockHashes);
      assert forall i :: 0 <= i < |records| ==> records[i] == branch[f + 1 + i];
    }
  }

  /** Every block of the chain is stored under its hash, at its height. */
  ghost predicate StoredAt(store: Store, chain: seq<Block>) {
    forall i :: 0 <= i < |chain| ==> chain[i].hash in store && store[chain[i].hash] == chain[i] && chain[i].height == i
  }

  lemma StoredBlocks(k: Constants, store: Store, h: Hash)
    requires Linked(store) && AllValid(k, store) && h in store
    ensures StoredAt(store, ChainTo(store, h))
  {
    hide AllValid, Linked, ChainTo;
    var c := ChainTo(store, h);
    forall i | 0 <= i < |c| ensures c[i].hash in store && store[c[i].hash] == c[i] && c[i].height == i {
      BlockOnBranch(k, store, h, i);
    }
  }
}
