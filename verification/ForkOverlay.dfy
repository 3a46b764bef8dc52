/**
 The coin set of a branch, read through the coin table of another chain.

 A node keeps one coin table, that of its main chain.  For a branch that left the
 main chain after `forkHeight` it keeps, in a ForkInfo, only what the branch's own
 blocks added and removed.  This module defines the lookup that combines the two,
 and proves that it answers exactly like the table obtained by replaying the branch.
 */
module ForkOverlay {
  import opened Types
  import opened CoinLedger

  datatype ForkAdd = ForkAdd(coin: Coin, confirmed: nat, timestamp: nat, coinbase: bool)
  datatype ForkRem = ForkRem(puzzleHash: Hash, height: nat)

  type Additions = map<Coin, ForkAdd>
  type Removals = map<Coin, ForkRem>

  ghost predicate AdditionsSince(es: seq<Effects>, forkHeight: int, adds: Additions) {
    && (forall h, c {:trigger c in es[h].Added()} :: 0 <= h < |es| && forkHeight < h && c in es[h].Added() ==>
          c in adds && adds[c] == ForkAdd(c, h, es[h].timestamp, c in es[h].rewards))
    && (forall c :: c in adds ==> forkHeight < adds[c].confirmed < |es| && c in es[adds[c].confirmed].Added())
  }

  ghost predicate RemovalsSince(es: seq<Effects>, forkHeight: int, rems: Removals) {
    && (forall h, c {:trigger c in es[h].spent} :: 0 <= h < |es| && forkHeight < h && c in es[h].spent ==>
          c in rems && rems[c] == ForkRem(c.puzzleHash, h))
    && (forall c :: c in rems ==> forkHeight < rems[c].height < |es| && c in es[rems[c].height].spent)
  }

  /** What the checks on one removed, non-ephemeral coin conclude. */
  datatype Lookup = SpentInFork | SpentBeforeFork | Unknown | Usable(record: CoinRecord)

  /** The lookup of validate_block_body, for one coin. */
  function LookUp(store: Ledger, forkHeight: int, adds: Additions, rems: Removals, c: Coin): Lookup {
    if c in rems then SpentInFork
    else if c in store && store[c].confirmed <= forkHeight then
      if 0 < store[c].spent <= forkHeight then SpentBeforeFork else Usable(store[c])
    else if c in adds then Usable(CoinRecord(adds[c].coin, adds[c].confirmed, 0, false, adds[c].timestamp))
    else Unknown
  }

  /** What the lookup should conclude, read off the branch's own table. */
  function Answer(l: Ledger, forkHeight: int, c: Coin): Lookup {
    if c !in l then Unknown
    else if l[c].spent == 0 then Usable(l[c])
    else if l[c].spent <= forkHeight then SpentBeforeFork
    else SpentInFork
  }

  /** Two lookups agree: same conclusion, and records with the same coin, height and timestamp. */
  predicate Agree(a: Lookup, b: Lookup) {
    if a.Usable? && b.Usable? then
      && a.record.coin == b.record.coin
      && a.record.confirmed == b.record.confirmed
      && a.record.timestamp == b.record.timestamp
    else a == b
  }

  /** Main chain and branch are the same up to and including the fork height. */
  predicate Share(main: seq<Effects>, branch: seq<Effects>, forkHeight: int) {
    && -1 <= forkHeight < |main| && forkHeight < |branch|
    && main[..forkHeight + 1] == branch[..forkHeight + 1]
  }

  lemma SharedAt(main: seq<Effects>, branch: seq<Effects>, forkHeight: int, h: nat)
    requires Share(main, branch, forkHeight) && h <= forkHeight
    ensures main[h] == branch[h]
  {
    assert main[..forkHeight + 1][h] == branch[..forkHeight + 1][h];
  }

  /** A coin confirmed at or below the fork is in both tables, confirmed alike, and spent alike up to the fork. */
  lemma SharedCoin(main: seq<Effects>, m: Ledger, branch: seq<Effects>, b: Ledger, forkHeight: int, c: Coin)
    requires LedgerOf(main, m) && LedgerOf(branch, b) && Share(main, branch, forkHeight)
    requires c in m && m[c].confirmed <= forkHeight
    ensures c in b && b[c].(spent := 0) == m[c].(spent := 0)
    ensures 0 < m[c].spent <= forkHeight ==> b[c].spent == m[c].spent
  {
    SharedAt(main, branch, forkHeight, m[c].confirmed);
    assert c in branch[m[c].confirmed].Added();
    if 0 < m[c].spent <= forkHeight {
      SharedAt(main, branch, forkHeight, m[c].spent);
      assert c in branch[m[c].spent].spent;
    }
  }

  /** The overlay refines the replay: main theorem of the module. */
  lemma OverlayAgreesWithReplay(main: seq<Effects>, branch: seq<Effects>, forkHeight: int,
                                adds: Additions, rems: Removals, c: Coin)
    requires Sound(main) && Sound(branch) && Share(main, branch, forkHeight)
    requires AdditionsSince(branch, forkHeight, adds) && RemovalsSince(branch, forkHeight, rems)
    ensures Agree(LookUp(Replay(main), forkHeight, adds, rems, c), Answer(Replay(branch), forkHeight, c))
  {
    var m, b := Replay(main), Replay(branch);
    ReplayIsLedger(main);
    ReplayIsLedger(branch);
    if c in m && m[c].confirmed <= forkHeight {
      SharedCoin(main, m, branch, b, forkHeight, c);
    }
    if c in b && b[c].confirmed <= forkHeight {
      assert Share(branch, main, forkHeight);
      SharedCoin(branch, b, main, m, forkHeight, c);
    }
    if c in rems {
      assert c in branch[rems[c].height].spent;
    }
    if c in adds {
      assert c in branch[adds[c].confirmed].Added();
    }
    if c in b {
      assert c in branch[b[c].confirmed].Added();
    }
  }

  // ---- including one more block -----------------------------------------------------

  function AddsWith(adds: Additions, h: nat, e: Effects): Additions {
    map c | c in adds.Keys + e.Added() ::
      if c in e.Added() then ForkAdd(c, h, e.timestamp, c in e.rewards) else adds[c]
  }

  function RemsWith(rems: Removals, h: nat, e: Effects): Removals {
    map c | c in rems.Keys + e.spent :: if c in e.spent then ForkRem(c.puzzleHash, h) else rems[c]
  }

  /** Nothing the branch's next block adds or spends is in the maps already. */
  lemma NextBlockIsNew(es: seq<Effects>, e: Effects, forkHeight: int, adds: Additions, rems: Removals, c: Coin)
    requires Sound(es + [e])
    requires AdditionsSince(es, forkHeight, adds) && RemovalsSince(es, forkHeight, rems)
    ensures c in e.Added() ==> c !in adds
    ensures c in e.spent ==> c !in rems
  {
    var es' := es + [e];
    ReplayIsLedger(es');
    assert c in e.Added() ==> c in es'[|es|].Added();
    assert c in e.spent ==> c in es'[|es|].spent;
    assert c in adds ==> c in es'[adds[c].confirmed].Added();
    assert c in rems ==> c in es'[rems[c].height].spent;
  }

  lemma IncludeKeepsAdditions(es: seq<Effects>, e: Effects, forkHeight: int, adds: Additions)
    requires AdditionsSince(es, forkHeight, adds) && forkHeight < |es|
    requires forall c :: c in e.Added() ==> c !in adds
    ensures AdditionsSince(es + [e], forkHeight, AddsWith(adds, |es|, e))
  {
    var es', adds' := es + [e], AddsWith(adds, |es|, e);
    forall h, c | 0 <= h < |es'| && forkHeight < h && c in es'[h].Added()
      ensures c in adds' && adds'[c] == ForkAdd(c, h, es'[h].timestamp, c in es'[h].rewards)
    {
      if h < |es| {
        assert c in es[h].Added();
      }
    }
  }

  lemma IncludeKeepsRemovals(es: seq<Effects>, e: Effects, forkHeight: int, rems: Removals)
    requires RemovalsSince(es, forkHeight, rems) && forkHeight < |es|
    requires forall c :: c in e.spent ==> c !in rems
    ensures RemovalsSince(es + [e], forkHeight, RemsWith(rems, |es|, e))
  {
    var es', rems' := es + [e], RemsWith(rems, |es|, e);
    forall h, c | 0 <= h < |es'| && forkHeight < h && c in es'[h].spent
      ensures c in rems' && rems'[c] == ForkRem(c.puzzleHash, h)
    {
      if h < |es| {
        assert c in es[h].spent;
      }
    }
  }

  /** Including the effects of the branch's next block keeps the two maps exact. */
  lemma IncludeKeepsBranch(es: seq<Effects>, e: Effects, forkHeight: int, adds: Additions, rems: Removals)
    requires Sound(es + [e]) && forkHeight < |es|
    requires AdditionsSince(es, forkHeight, adds) && RemovalsSince(es, forkHeight, rems)
    ensures AdditionsSince(es + [e], forkHeight, AddsWith(adds, |es|, e))
    ensures RemovalsSince(es + [e], forkHeight, RemsWith(rems, |es|, e))
    ensures forall c :: c in e.Added() ==> c !in adds
  {
    forall c ensures (c in e.Added() ==> c !in adds) && (c in e.spent ==> c !in rems) {
      NextBlockIsNew(es, e, forkHeight, adds, rems, c);
    }
    IncludeKeepsAdditions(es, e, forkHeight, adds);
    IncludeKeepsRemovals(es, e, forkHeight, rems);
  }

  // ---- switching the table over to the branch -------------------------------------------

  /** What _reconsider_peak picks out of the two maps for the block at a height. */
  function PickedAt(adds: Additions, rems: Removals, h: nat, timestamp: nat): Effects {
    Effects((set c | c in adds && adds[c].confirmed == h && adds[c].coinbase),
            (set c | c in adds && adds[c].confirmed == h && !adds[c].coinbase),
            (set c | c in rems && rems[c].height == h),
            timestamp)
  }

  /** The picked effects are those of the branch's block. */
  lemma PickedIsBlock(es: seq<Effects>, forkHeight: int, adds: Additions, rems: Removals, h: nat)
    requires forkHeight < h < |es|
    requires AdditionsSince(es, forkHeight, adds) && RemovalsSince(es, forkHeight, rems)
    requires es[h].rewards !! es[h].created
    ensures PickedAt(adds, rems, h, es[h].timestamp) == es[h]
  {
    var p, e := PickedAt(adds, rems, h, es[h].timestamp), es[h];
    forall c ensures (c in p.rewards <==> c in e.rewards) && (c in p.created <==> c in e.created) {
      assert c in e.Added() <==> c in e.rewards || c in e.created;
      if c in adds {
        assert c in es[adds[c].confirmed].Added();
      }
    }
    forall c ensures c in p.spent <==> c in e.spent {
    }
  }
}
