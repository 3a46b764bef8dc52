/** ForkInfo: what the blocks of a branch did since it left the main chain. */
module ForkInfos {
  import opened Types
  import opened CoinLedger
  import opened ForkOverlay
  import opened Headers
  import opened Bodies
  import opened BodyTheorems

  /** Coins added by a block at a height, on top of what is recorded already. */
  function Record(adds: Additions, coins: seq<Coin>, h: nat, timestamp: nat, coinbase: bool): Additions {
    map c | c in adds.Keys + ToSet(coins) :: if c in coins then ForkAdd(c, h, timestamp, coinbase) else adds[c]
  }

  function RecordSpends(rems: Removals, spends: seq<Spend>, h: nat): Removals {
    map c | c in rems.Keys + ToSet(Removed(spends)) ::
      if c in Removed(spends) then ForkRem(c.puzzleHash, h) else rems[c]
  }

  lemma RecordOne(adds: Additions, coins: seq<Coin>, c: Coin, h: nat, timestamp: nat, coinbase: bool)
    ensures Record(adds, coins, h, timestamp, coinbase)[c := ForkAdd(c, h, timestamp, coinbase)]
            == Record(adds, coins + [c], h, timestamp, coinbase)
  {
  }

  lemma RecordNothing(adds: Additions, rems: Removals, h: nat, timestamp: nat)
    ensures Record(adds, [], h, timestamp, false) == adds && RecordSpends(rems, [], h) == rems
  {
  }

  lemma RecordSpendOne(rems: Removals, spends: seq<Spend>, i: nat, h: nat)
    requires i < |spends| && spends[i].coin.puzzleHash == spends[i].puzzleHash
    ensures RecordSpends(rems, spends[..i], h)[spends[i].coin := ForkRem(spends[i].puzzleHash, h)]
            == RecordSpends(rems, spends[..i + 1], h)
  {
    assert Removed(spends[..i + 1]) == Removed(spends[..i]) + [spends[i].coin];
  }

  /** Recording the created coins and then the claimed ones is including the block's effects. */
  lemma RecordIsInclude(adds: Additions, rems: Removals, b: Block, h: nat)
    requires EffectsOf(b).rewards !! EffectsOf(b).created
    ensures RecordSpends(rems, Spends(b), h) == RemsWith(rems, h, EffectsOf(b))
    ensures Record(Record(adds, Created(Spends(b)), h, b.Timestamp(), false), Claims(b), h, b.Timestamp(), true)
            == AddsWith(adds, h, EffectsOf(b))
  {
  }

  /** The hashes of the branch's blocks from a height on. */
  ghost predicate HashesFrom(hashes: seq<Hash>, branch: seq<Block>, start: nat) {
    && |hashes| + start == |branch|
    && forall i :: 0 <= i < |hashes| ==> hashes[i] == branch[start + i].hash
  }

  lemma HashesSnoc(hashes: seq<Hash>, branch: seq<Block>, start: nat, b: Block)
    requires HashesFrom(hashes, branch, start)
    ensures HashesFrom(hashes + [b.hash], branch + [b], start)
  {
  }

  class ForkInfo {
    var forkHeight: int
    var peakHeight: int
    var peakHash: Hash
    var additions: Additions
    var removals: Removals
    var blockHashes: seq<Hash>

    /** This object describes the branch: its hashes, and exactly its effects, since the fork height. */
    ghost predicate Tracks(branch: seq<Block>)
      reads this
    {
      && -1 <= forkHeight <= peakHeight == |branch| - 1
      && (branch != [] ==> peakHash == Last(branch).hash)
      && |blockHashes| == peakHeight - forkHeight
      && HashesFrom(blockHashes, branch, forkHeight + 1)
      && AdditionsSince(AllEffects(branch), forkHeight, additions)
      && RemovalsSince(AllEffects(branch), forkHeight, removals)
    }

    constructor (forkHeight: int, headerHash: Hash, ghost branch: seq<Block>)
      requires forkHeight == |branch| - 1 && (branch != [] ==> headerHash == Last(branch).hash)
      ensures Tracks(branch) && this.forkHeight == forkHeight && peakHash == headerHash
    {
      this.forkHeight := forkHeight;
      peakHeight := forkHeight;
      peakHash := headerHash;
      additions, removals, blockHashes := map[], map[], [];
    }

    /** Forgets the branch: the fork is now at the given block. */
    method Reset(forkHeight: int, headerHash: Hash, ghost branch: seq<Block>)
      requires forkHeight == |branch| - 1 && (branch != [] ==> headerHash == Last(branch).hash)
      modifies this
      ensures Tracks(branch) && this.forkHeight == forkHeight && peakHash == headerHash
    {
      this.forkHeight := forkHeight;
      peakHeight := forkHeight;
      peakHash := headerHash;
      additions, removals, blockHashes := map[], map[], [];
    }

    /** Adds the next block of the branch; none of the source's assertions can fail on an accepted block. */
    method IncludeSpends(ghost k: Constants, b: Block, ghost branch: seq<Block>)
      requires Tracks(branch)
      requires ValidChain(k, branch) && Accepted(k, branch, b)
      modifies this
      ensures Tracks(branch + [b]) && forkHeight == old(forkHeight) && peakHash == b.hash
    {
      hide Accepted, ValidChain, AdditionsSince, RemovalsSince, EffectsOf, AddsWith, RemsWith, Record, RecordSpends;
      hide HashesFrom;
      hide TxBodyAccepted;
      AcceptedBody(k, branch, b);
      assert peakHeight == b.height - 1;
      assert |blockHashes| == peakHeight - forkHeight;
      assert b.height == forkHeight + 1 + |blockHashes|;
      ghost var adds, rems := additions, removals;
      HashesSnoc(blockHashes, branch, forkHeight + 1, b);
      blockHashes := blockHashes + [b.hash];
      peakHeight := b.height;
      peakHash := b.hash;
      BodyFacts(k, branch, b);
      RecordSpendsOf(b);
      NextIsFresh(k, b, branch, forkHeight, adds, rems);
      RecordRewardsOf(b, adds);
      IncludeBlock(k, b, branch, forkHeight, adds, rems);
    }

    /** The loop over the spends, and over the outputs of each. */
    method RecordSpendsOf(b: Block)
      requires b.IsTx() ==> PuzzlesOk(b)
      requires !b.IsTx() ==> NoTxData(b)
      modifies this`additions, this`removals
      ensures additions == Record(old(additions), Created(Spends(b)), b.height, b.Timestamp(), false)
      ensures removals == RecordSpends(old(removals), Spends(b), b.height)
    {
      hide Record, RecordSpends;
      ghost var adds, rems := additions, removals;
      var spends := Spends(b);
      var timestamp := b.Timestamp();
      RecordNothing(adds, rems, b.height, timestamp);
      assert spends[..0] == [];
      for i := 0 to |spends|
        invariant additions == Record(adds, Created(spends[..i]), b.height, timestamp, false)
        invariant removals == RecordSpends(rems, spends[..i], b.height)
      {
        removals := removals[spends[i].coin := ForkRem(spends[i].puzzleHash, b.height)];
        RecordSpendOne(rems, spends, i, b.height);
        ghost var made, outputs := Created(spends[..i]), SpendOutputs(spends[i]);
        assert made + outputs[..0] == made;
        for j := 0 to |spends[i].outputs|
          invariant additions == Record(adds, made + outputs[..j], b.height, timestamp, false)
          invariant removals == RecordSpends(rems, spends[..i + 1], b.height)
        {
          var coin := Coin(Spent(spends[i].coin), spends[i].outputs[j].puzzleHash, spends[i].outputs[j].amount);
          RecordOne(adds, made + outputs[..j], coin, b.height, timestamp, false);
          assert made + outputs[..j] + [coin] == made + outputs[..j + 1];
          additions := additions[coin := ForkAdd(coin, b.height, timestamp, false)];
        }
        assert outputs[..|spends[i].outputs|] == outputs;
        assert spends[..i + 1][..i] == spends[..i];
      }
      assert spends[..|spends|] == spends;
    }

    /** The loop over the included reward coins, with its freshness assertion. */
    method RecordRewardsOf(b: Block, ghost adds: Additions)
      requires additions == Record(adds, Created(Spends(b)), b.height, b.Timestamp(), false)
      requires NoDuplicates(Created(Spends(b)) + Claims(b))
      requires forall c :: c in Claims(b) ==> c !in adds
      modifies this`additions
      ensures additions == Record(old(additions), Claims(b), b.height, b.Timestamp(), true)
    {
      ghost var before, created := additions, Created(Spends(b));
      var claims := Claims(b);
      var timestamp := b.Timestamp();
      assert additions == Record(before, claims[..0], b.height, timestamp, true);
      for j := 0 to |claims|
        invariant additions == Record(before, claims[..j], b.height, timestamp, true)
      {
        assert claims[j] !in additions by {
          assert (created + claims)[|created| + j] == claims[j];
          assert forall i :: 0 <= i < |created| ==> (created + claims)[i] == created[i];
          assert forall i :: 0 <= i < j ==> (created + claims)[|created| + i] == claims[i];
          assert claims[j] !in created && claims[j] !in claims[..j];
          assert claims[j] in claims;
        }
        RecordOne(before, claims[..j], claims[j], b.height, timestamp, true);
        assert claims[..j] + [claims[j]] == claims[..j + 1];
        additions := additions[claims[j] := ForkAdd(claims[j], b.height, timestamp, true)];
      }
      assert claims[..|claims|] == claims;
    }
  }

  lemma BodyFacts(k: Constants, branch: seq<Block>, b: Block)
    requires Accepted(k, branch, b)
    ensures b.IsTx() ==> PuzzlesOk(b)
    ensures !b.IsTx() ==> NoTxData(b)
  {
    hide Accepted;
    AcceptedBody(k, branch, b);
  }

  /** None of the reward coins an accepted block claims has been recorded on its branch. */
  lemma NextIsFresh(k: Constants, b: Block, branch: seq<Block>, forkHeight: int, adds: Additions, rems: Removals)
    requires ValidChain(k, branch) && Accepted(k, branch, b) && forkHeight < |branch|
    requires AdditionsSince(AllEffects(branch), forkHeight, adds)
    requires RemovalsSince(AllEffects(branch), forkHeight, rems)
    ensures forall c :: c in Claims(b) ==> c !in adds
    ensures NoDuplicates(Created(Spends(b)) + Claims(b))
  {
    hide Accepted, ValidChain, Sound, AdditionsSince, RemovalsSince;
    AcceptedBody(k, branch, b);
    ValidSnoc(k, branch, b);
    ChainIsSound(k, branch + [b]);
    EffectsSnoc(branch, b);
    forall c | c in Claims(b) ensures c !in adds {
      assert c in EffectsOf(b).Added();
      NextBlockIsNew(AllEffects(branch), EffectsOf(b), forkHeight, adds, rems, c);
    }
    if !b.IsTx() {
      assert Created(Spends(b)) + Claims(b) == [];
    }
  }

  /** The two recordings keep the maps exact. */
  lemma IncludeBlock(k: Constants, b: Block, branch: seq<Block>, forkHeight: int, adds: Additions, rems: Removals)
    requires ValidChain(k, branch) && Accepted(k, branch, b) && forkHeight < |branch|
    requires AdditionsSince(AllEffects(branch), forkHeight, adds)
    requires RemovalsSince(AllEffects(branch), forkHeight, rems)
    ensures AdditionsSince(AllEffects(branch + [b]), forkHeight,
              Record(Record(adds, Created(Spends(b)), b.height, b.Timestamp(), false),
                     Claims(b), b.height, b.Timestamp(), true))
    ensures RemovalsSince(AllEffects(branch + [b]), forkHeight, RecordSpends(rems, Spends(b), b.height))
  {
    hide Accepted, ValidChain, HeaderChain, Sound, StepOk, Replay, Apply, TxBodyAccepted, RewardsExact;
    hide AdditionsSince, RemovalsSince, EffectsOf, AddsWith, RemsWith, Record, RecordSpends;
    AcceptedBody(k, branch, b);
    ValidSnoc(k, branch, b);
    ChainIsSound(k, branch + [b]);
    ChainIsSound(k, branch);
    ValidHeaders(k, branch);
    AcceptedIsStep(k, branch, b);
    EffectsSnoc(branch, b);
    IncludeKeepsBranch(AllEffects(branch), EffectsOf(b), forkHeight, adds, rems);
    RecordIsInclude(adds, rems, b, b.height);
  }
}
