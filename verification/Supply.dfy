/** The money supply of every accepted chain. */
module Supply {
  import opened Types
  import opened Rewards
  import opened CoinLedger
  import opened CoinSums
  import opened Headers
  import opened HeaderTheorems
  import opened Bodies
  import opened BodyTheorems

  // ---- the supply ----------------------------------------------------------------------

  ghost function UnspentCoins(l: Ledger): set<Coin> { set c | c in l && l[c].spent == 0 }

  /** The sum of all unspent amounts. */
  ghost function CoinsInCirculation(l: Ledger): nat { SetTotal(UnspentCoins(l)) }

  /** One block: what it adds enters circulation, what it spends leaves. */
  lemma CirculationStep(es: seq<Effects>, l: Ledger, e: Effects)
    requires LedgerOf(es, l) && ParentsSpent(l) && StepOk(l, |es|, e)
    requires e.rewards !! e.created
    ensures CoinsInCirculation(Apply(l, |es|, e)) + SetTotal(e.spent)
            == CoinsInCirculation(l) + SetTotal(e.rewards) + SetTotal(e.created)
  {
    StepIsFresh(es, l, e);
    var before, after := UnspentCoins(l), UnspentCoins(Apply(l, |es|, e));
    forall c ensures c in after <==> c in before + e.Added() - e.spent {
      ApplyAt(l, |es|, e, c);
    }
    assert e.spent <= before + e.Added();
    assert after + e.spent == before + e.Added();
    SetTotalUnion(after, e.spent);
    SetTotalUnion(before, e.Added());
    SetTotalUnion(e.rewards, e.created);
  }

  /** Claims pay the schedule, plus the fees of the one transaction block among them. */
  lemma {:induction false} ClaimListTotal(chain: seq<Block>, lo: nat, hi: nat)
    requires lo <= hi <= |chain|
    requires forall i :: 0 <= i < |chain| ==> chain[i].height == i
    requires forall i :: lo <= i < hi - 1 ==> chain[i].Fees() == 0
    ensures Total(ClaimList(chain, lo, hi)) + Schedule(lo)
            == Schedule(hi) + (if lo < hi then chain[hi - 1].Fees() else 0)
  {
    if lo < hi {
      var pair := [PoolCoin(chain[hi - 1]), FarmerCoin(chain[hi - 1])];
      ClaimListTotal(chain, lo, hi - 1);
      TotalAppend(pair, ClaimList(chain, lo, hi - 1));
      assert pair[..1][..0] == [];
      assert Total(pair) == Total(pair[..1]) + pair[1].amount && Total(pair[..1]) == pair[0].amount;
    }
  }

  lemma NonTxHasNoFees(k: Constants, chain: seq<Block>, i: nat)
    requires ValidChain(k, chain) && i < |chain| && !chain[i].IsTx()
    ensures chain[i].Fees() == 0
  {
    ValidAt(k, chain, i);
  }

  /** What a transaction block must claim is the schedule since the last claim plus the last fees. */
  lemma ExpectedClaimsTotal(k: Constants, chain: seq<Block>)
    requires ValidChain(k, chain) && chain != []
    ensures 0 <= LastTx(chain)
    ensures Total(ExpectedClaims(chain)) + Schedule(ClaimedCount(chain))
            == Schedule(LastTx(chain) + 1) + chain[LastTx(chain)].Fees()
  {
    hide ValidChain, HeaderChain, ClaimList, Schedule;
    ValidHeaders(k, chain);
    Grounded(k, chain);
    var lo, p := ClaimedCount(chain), LastTx(chain);
    forall i | lo <= i < p ensures chain[i].Fees() == 0 {
      assert chain[..p][i] == chain[i];
      NonTxHasNoFees(k, chain, i);
    }
    ClaimListTotal(chain, lo, p + 1);
  }

  /** The sets of coins a block creates, claims and spends have the totals its fees are computed from. */
  lemma BlockTotals(k: Constants, chain: seq<Block>, b: Block)
    requires HeaderChain(k, chain) && TxBodyAccepted(k, chain, b)
    ensures SetTotal(EffectsOf(b).spent) == SetTotal(EffectsOf(b).created) + b.Fees()
    ensures SetTotal(EffectsOf(b).rewards) == Total(ExpectedClaims(chain))
  {
    hide HeaderChain, PuzzlesOk, PrevTimestampOk, ClaimList, PoolCoin, FarmerCoin, Created, Removed, Total, SetTotal;
    var created, claims := Created(Spends(b)), Claims(b);
    assert NoDuplicates(created) by {
      assert forall i :: 0 <= i < |created| ==> created[i] == (created + claims)[i];
    }
    SetTotalOfList(created);
    SetTotalOfList(Removed(Spends(b)));
    Grounded(k, chain);
    ClaimListDistinct(chain, ClaimedCount(chain), LastTx(chain) + 1);
    SetTotalOfList(ExpectedClaims(chain));
  }

  /** An accepted transaction block moves circulation by its claims minus its fees. */
  lemma BlockSupply(k: Constants, chain: seq<Block>, b: Block)
    requires ValidChain(k, chain) && Accepted(k, chain, b) && b.IsTx()
    ensures CoinsInCirculation(LedgerAt(chain + [b])) + b.Fees()
            == CoinsInCirculation(LedgerAt(chain)) + Total(ExpectedClaims(chain))
  {
    hide Accepted, HeaderChain, StepOk, Apply, SpendsOk, PuzzlesOk, PrevTimestampOk;
    var es, e := AllEffects(chain), EffectsOf(b);
    AcceptedBody(k, chain, b);
    ChainIsSound(k, chain);
    ReplayIsLedger(es);
    ValidHeaders(k, chain);
    AcceptedIsStep(k, chain, b);
    CirculationStep(es, LedgerAt(chain), e);
    EffectsSnoc(chain, b);
    BlockTotals(k, chain, b);
  }

  lemma {:induction false} SupplyInduction(k: Constants, chain: seq<Block>)
    requires ValidChain(k, chain) && chain != []
    ensures LastTx(chain) >= 0
    ensures CoinsInCirculation(LedgerAt(chain)) + chain[LastTx(chain)].Fees() == Schedule(ClaimedCount(chain))
  {
    hide Accepted, ValidChain, HeaderChain, TxBodyAccepted, LedgerAt, CoinsInCirculation, ExpectedClaims, Total;
    hide ClaimedCount, LastTx;
    var before, b := chain[..|chain| - 1], Last(chain);
    ValidLast(k, chain);
    ValidHeaders(k, chain);
    Grounded(k, chain);
    AcceptedBody(k, before, b);
    if !b.IsTx() {
      SupplyInduction(k, before);
      NonTxStep(before, b);
    } else {
      BlockSupply(k, before, b);
      TxStep(before, b);
      if before != [] {
        SupplyInduction(k, before);
        ExpectedClaimsTotal(k, before);
      } else {
        NothingYet();
      }
    }
  }

  /** Before genesis there are no coins and no claims. */
  lemma NothingYet()
    ensures CoinsInCirculation(LedgerAt([])) == 0 && Total(ExpectedClaims([])) == 0
    ensures LastTx([]) == -1 && Schedule(0) == 0
  {
    assert LedgerAt([]) == map[];
    assert UnspentCoins(map[]) == {};
  }

  /**
   Exact supply: on every accepted chain, the coins in circulation together with the fees
   of the latest transaction block (which nobody has claimed yet) are what the schedule
   pays for the blocks claimed so far, the ones up to the last but one transaction block.
   */
  lemma ExactSupply(k: Constants, chain: seq<Block>)
    requires ValidChain(k, chain) && chain != []
    ensures LastTx(chain) >= 0
    ensures CoinsInCirculation(LedgerAt(chain)) + chain[LastTx(chain)].Fees() == Schedule(ClaimedCount(chain))
    ensures CoinsInCirculation(LedgerAt(chain)) + chain[LastTx(chain)].Fees() == ScheduleClosedForm(ClaimedCount(chain))
  {
    hide ValidChain, CoinsInCirculation, LedgerAt, Schedule, ScheduleClosedForm;
    SupplyInduction(k, chain);
    ScheduleIsClosedForm(ClaimedCount(chain));
  }
}
