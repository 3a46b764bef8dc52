/**
 validate_block_body: the body checks as the node runs them, against the coin table of
 the main chain and the ForkInfo of the block's branch, proved equal to the checks
 against the replayed branch.
 */
module BodyValidation {
  import opened Types
  import opened Rewards
  import opened CoinLedger
  import opened CoinSums
  import opened ForkOverlay
  import opened Headers
  import opened HeaderTheorems
  import opened Bodies
  import opened BodyTheorems
  import opened ChainContents
  import opened BlockStore
  import opened MerkleRoots
  import opened ForkInfos
  import opened CoinStores

  datatype Err =
    | NotBlockButHasData
    | IsTransactionBlockButNoData
    | RaisedPrevTimestampZero       // the assertion on the previous transaction block's timestamp
    | InvalidRewardCoins
    | CoinAmountExceedsMaximum
    | BadRoots(which: RootError)
    | DuplicateOutput
    | DoubleSpend
    | DoubleSpendInFork
    | UnknownUnspent
    | MintingCoin
    | ReserveFeeConditionFailed
    | InvalidBlockFeeAmount
    | WrongPuzzleHash

  // ---- the specification, on the replayed branch --------------------------------------

  /** What a table answers about the coins that a block spends and does not make itself. */
  ghost function Answers(b: Block, l: Ledger, forkHeight: int): map<Coin, Lookup> {
    map c | c in ToSet(Removed(Spends(b))) - EffectsOf(b).Added() :: Answer(l, forkHeight, c)
  }

  ghost predicate SomeGets(answers: map<Coin, Lookup>, bad: Lookup) {
    exists c :: c in answers && answers[c] == bad
  }

  /** Check 15, in the order in which its three errors are looked for. */
  ghost function SpendError(answers: map<Coin, Lookup>): Option<Err> {
    if SomeGets(answers, SpentInFork) then Some(DoubleSpendInFork)
    else if SomeGets(answers, SpentBeforeFork) then Some(DoubleSpend)
    else if SomeGets(answers, Unknown) then Some(UnknownUnspent)
    else None
  }

  /** Checks 16 to 20. */
  function FeeError(k: Constants, b: Block): Option<Err> {
    var removed, added := Total(Removed(Spends(b))), Total(Created(Spends(b)));
    if removed < added then Some(MintingCoin)
    else if removed - added < (if b.generator.Some? then b.generator.value.reserveFee else 0) then
      Some(ReserveFeeConditionFailed)
    else if removed - added + FarmerReward(b.height) > k.maxCoinAmount then Some(CoinAmountExceedsMaximum)
    else if b.Fees() != removed - added then Some(InvalidBlockFeeAmount)
    else if !PuzzlesOk(b) then Some(WrongPuzzleHash)
    else None
  }

  /** The first failing check of a transaction block on a chain. */
  ghost function TxBodyError(k: Constants, chain: seq<Block>, forkHeight: int, b: Block): Option<Err> {
    if b.foliageTx.None? || b.txInfo.None? then Some(IsTransactionBlockButNoData)
    else if !PrevTimestampOk(chain) then Some(RaisedPrevTimestampZero)
    else if !ClaimsOk(chain, b) then Some(InvalidRewardCoins)
    else if exists c :: c in Created(Spends(b)) + Claims(b) && c.amount > k.maxCoinAmount then
      Some(CoinAmountExceedsMaximum)
    else
      var rootError := RootErrorOf(b.foliageTx.value, Created(Spends(b)) + Claims(b), Removed(Spends(b)));
      if rootError.Some? then Some(BadRoots(rootError.value))
      else if !NoDuplicates(Created(Spends(b)) + Claims(b)) then Some(DuplicateOutput)
      else if !NoDuplicates(Removed(Spends(b))) then Some(DoubleSpend)
      else
        var spendError := SpendError(Answers(b, LedgerAt(chain), forkHeight));
        if spendError.Some? then spendError else FeeError(k, b)
  }

  ghost function BodyError(k: Constants, chain: seq<Block>, forkHeight: int, b: Block): Option<Err> {
    if b.hasFoliageTxHash then TxBodyError(k, chain, forkHeight, b)
    else if NoTxData(b) then None else Some(NotBlockButHasData)
  }

  lemma NoSpendErrorIsSpendsOk(l: Ledger, forkHeight: int, b: Block)
    ensures SpendError(Answers(b, l, forkHeight)).None? <==>
            forall c :: c in Removed(Spends(b)) ==> c in Created(Spends(b)) + Claims(b) || Unspent(l, c)
  {
    var answers := Answers(b, l, forkHeight);
    assert SpendError(answers).None? <==> forall c :: c in answers ==> Unspent(l, c);
    forall c ensures c in Created(Spends(b)) + Claims(b) <==> c in EffectsOf(b).Added() {
    }
    assert forall c :: c in answers <==> c in Removed(Spends(b)) && c !in Created(Spends(b)) + Claims(b);
  }

  /** No error means accepted, wherever the fork is. */
  lemma NoErrorIsAccepted(k: Constants, chain: seq<Block>, forkHeight: int, b: Block)
    ensures BodyError(k, chain, forkHeight, b).None? <==> BodyAccepted(k, chain, b)
  {
    hide PrevTimestampOk, ClaimsOk, LedgerAt, PuzzlesOk, NoDuplicates, SpendError, Answers, Unspent, Claims, Created;
    hide Removed;
    hide RootErrorOf;
    NoSpendErrorIsSpendsOk(LedgerAt(chain), forkHeight, b);
  }

  /** What each error says about the block and the branch's table, read off the block's fields. */
  ghost predicate Explains(k: Constants, chain: seq<Block>, forkHeight: int, b: Block, e: Err) {
    var l, spends, claims := LedgerAt(chain), Spends(b), Claims(b);
    match e
    case NotBlockButHasData =>
      !b.hasFoliageTxHash && (b.foliageTx.Some? || b.txInfo.Some? || b.generator.Some? || b.generatorRefs != [])
    case IsTransactionBlockButNoData => b.hasFoliageTxHash && (b.foliageTx.None? || b.txInfo.None?)
    case RaisedPrevTimestampZero => chain != [] && (LastTx(chain) < 0 || chain[LastTx(chain)].Timestamp() == 0)
    case InvalidRewardCoins => !NoDuplicates(claims) || exists c :: (c in claims) != (c in ExpectedClaims(chain))
    case CoinAmountExceedsMaximum =>
      || (exists c :: (MadeBy(spends, c) || c in claims) && c.amount > k.maxCoinAmount)
      || AmountSpent(spends) - AmountMade(spends) + FarmerReward(b.height) > k.maxCoinAmount
    case BadRoots(BadAdditionRoot) =>
      b.foliageTx.Some? && b.foliageTx.value.additionsRoot != AdditionsRoot(Created(spends) + claims)
    case BadRoots(BadRemovalRoot) =>
      b.foliageTx.Some? && b.foliageTx.value.removalsRoot != RemovalsRoot(Removed(spends))
    case DuplicateOutput => !NoDuplicates(Created(spends) + claims)
    case DoubleSpend =>
      || !NoDuplicates(Removed(spends))
      || exists c :: SpentBy(spends, c) && c in l && 0 < l[c].spent <= forkHeight
    case DoubleSpendInFork => exists c :: SpentBy(spends, c) && c in l && l[c].spent > 0 && l[c].spent > forkHeight
    case UnknownUnspent => exists c :: SpentBy(spends, c) && c !in l && !MadeBy(spends, c) && c !in claims
    case MintingCoin => AmountSpent(spends) < AmountMade(spends)
    case ReserveFeeConditionFailed =>
      b.generator.Some? && AmountSpent(spends) - AmountMade(spends) < b.generator.value.reserveFee
    case InvalidBlockFeeAmount => b.Fees() + AmountMade(spends) != AmountSpent(spends)
    case WrongPuzzleHash => exists i :: 0 <= i < |spends| && spends[i].puzzleHash != spends[i].coin.puzzleHash
  }

  lemma SpendErrorMeans(k: Constants, chain: seq<Block>, forkHeight: int, b: Block)
    ensures var e := SpendError(Answers(b, LedgerAt(chain), forkHeight));
            e.Some? ==> Explains(k, chain, forkHeight, b, e.value)
  {
    hide LedgerAt, Created, Removed, MadeBy, SpentBy, Spends, Claims;
    var answers := Answers(b, LedgerAt(chain), forkHeight);
    forall c | c in answers ensures SpentBy(Spends(b), c) && !MadeBy(Spends(b), c) && c !in Claims(b) {
      RemovedIsSpent(Spends(b), c);
      CreatedIsMade(Spends(b), c);
    }
  }

  lemma FeeErrorMeans(k: Constants, chain: seq<Block>, forkHeight: int, b: Block)
    ensures FeeError(k, b).Some? ==> Explains(k, chain, forkHeight, b, FeeError(k, b).value)
  {
    hide LedgerAt, Created, Removed, MadeBy, SpentBy, Spends, Claims;
    TotalsAreAmounts(Spends(b));
  }

  /** An error of the body names something that is wrong with it, on the branch's own table. */
  lemma BodyErrorMeans(k: Constants, chain: seq<Block>, forkHeight: int, b: Block)
    ensures var e := BodyError(k, chain, forkHeight, b); e.Some? ==> Explains(k, chain, forkHeight, b, e.value)
  {
    hide LedgerAt, Created, Removed, MadeBy, SpentBy, Spends, Claims, SpendError, FeeError, AdditionsRoot, RemovalsRoot;
    hide NoDuplicates, ExpectedClaims;
    SpendErrorMeans(k, chain, forkHeight, b);
    FeeErrorMeans(k, chain, forkHeight, b);
    forall c | c in Created(Spends(b)) ensures MadeBy(Spends(b), c) {
      CreatedIsMade(Spends(b), c);
    }
    if forall c :: c in Claims(b) <==> c in ExpectedClaims(chain) {
      assert ToSet(Claims(b)) == ToSet(ExpectedClaims(chain));
    }
  }

  // ---- check 5 -----------------------------------------------------------------------

  lemma {:induction false} ClaimListLower(chain: seq<Block>, lo: nat, hi: nat)
    requires lo < hi <= |chain|
    ensures ToSet(ClaimList(chain, lo, hi))
            == ToSet(ClaimList(chain, lo + 1, hi)) + {PoolCoin(chain[lo]), FarmerCoin(chain[lo])}
  {
    hide PoolCoin, FarmerCoin;
    var pair := [PoolCoin(chain[hi - 1]), FarmerCoin(chain[hi - 1])];
    assert ToSet(ClaimList(chain, lo, hi)) == ToSet(pair) + ToSet(ClaimList(chain, lo, hi - 1));
    if lo < hi - 1 {
      ClaimListLower(chain, lo, hi - 1);
      assert ToSet(ClaimList(chain, lo + 1, hi)) == ToSet(pair) + ToSet(ClaimList(chain, lo + 1, hi - 1));
    }
  }

  /** The farmer coin of an accepted block fits the amount limit: check 18 looked ahead to it. */
  lemma FarmerCoinInRange(k: Constants, chain: seq<Block>, i: nat)
    requires ValidChain(k, chain) && i < |chain| && chain[i].IsTx()
    ensures FarmerCoin(chain[i]).amount <= k.maxCoinAmount
  {
    hide Accepted, ValidChain;
    ValidAt(k, chain, i);
    AcceptedBody(k, chain[..i], chain[i]);
  }

  /**
   The reward coins that the next transaction block must create pass its own amount check,
   whenever the limit admits the largest scheduled reward, and fit into 64 bits.
   */
  lemma ClaimsInRange(k: Constants, chain: seq<Block>, c: Coin)
    requires ValidChain(k, chain) && c in ExpectedClaims(chain)
    ensures PoolReward(0) <= k.maxCoinAmount ==> c.amount <= k.maxCoinAmount
    ensures k.maxCoinAmount <= UINT64_MAX ==> c.amount <= UINT64_MAX
  {
    hide Accepted, ValidChain, ClaimedCount, LastTx, ClaimList, TxBodyAccepted;
    var lo, hi := ClaimedCount(chain), LastTx(chain) + 1;
    ClaimListMembers(chain, lo, hi, c);
    var i :| lo <= i < hi && (c == PoolCoin(chain[i]) || c == FarmerCoin(chain[i]));
    if chain[i].IsTx() {
      FarmerCoinInRange(k, chain, i);
    } else {
      ValidAt(k, chain, i);
      AcceptedBody(k, chain[..i], chain[i]);
    }
  }

  /** The loop of check 5: the blocks below the previous transaction block, down to the one before it. */
  method ClaimsBelow(store: Store, ghost h: Hash, prevTx: Block, start: set<Coin>, ghost chain: seq<Block>)
      returns (coins: set<Coin>)
    requires Linked(store) && h in store && chain == ChainTo(store, h)
    requires 0 < LastTx(chain) && prevTx == chain[LastTx(chain)] && chain[0].IsTx()
    requires start == ToSet(ClaimList(chain, LastTx(chain), LastTx(chain) + 1))
    ensures coins == ToSet(ExpectedClaims(chain))
  {
    hide Linked, ChainTo, ClaimList, PoolCoin, FarmerCoin;
    coins := start;
    ghost var p := LastTx(chain);
    ghost var i := p - 1;
    StepBack(store, h, p);
    var curr := store[prevTx.prevHash];
    while !curr.IsTx()
      invariant 0 <= i < p && curr == chain[i]
      invariant forall n :: i < n < p ==> !chain[n].IsTx()
      invariant coins == ToSet(ClaimList(chain, i + 1, p + 1))
      decreases i
    {
      coins := coins + {PoolCoin(curr), FarmerCoin(curr)};
      ClaimListLower(chain, i, p + 1);
      StepBack(store, h, i);
      curr := store[curr.prevHash];
      i := i - 1;
    }
    LastTxIs(chain[..p], i);
  }

  lemma LastTxIs(chain: seq<Block>, i: nat)
    requires i < |chain| && chain[i].IsTx() && forall n :: i < n < |chain| ==> !chain[n].IsTx()
    ensures LastTx(chain) == i
  {
  }

  /** Check 5's expected coins; it raises when the previous transaction block has timestamp 0. */
  method ExpectedRewardCoins(ghost k: Constants, store: Store, b: Block, ghost chain: seq<Block>)
      returns (raised: bool, coins: set<Coin>)
    requires Linked(store) && (b.height == 0 || b.prevHash in store) && chain == Ancestors(store, b)
    requires ValidChain(k, chain) && k.maxCoinAmount <= UINT64_MAX
    requires LinkRule(k, chain, b) && TxLinkRule(k, chain, b) && b.foliageTx.Some?
    ensures raised <==> !PrevTimestampOk(chain)
    ensures !raised ==> coins == ToSet(ExpectedClaims(chain))
    ensures !raised ==> forall c :: c in coins ==> c.amount <= UINT64_MAX
  {
    hide ValidChain, HeaderChain, Linked, ClaimList, PoolCoin, FarmerCoin, ChainTo;
    raised, coins := false, {};
    forall c | c in ToSet(ExpectedClaims(chain)) ensures c.amount <= UINT64_MAX {
      ClaimsInRange(k, chain, c);
    }
    if b.height == 0 {
      ClaimListEmpty(chain, 0);
    } else {
      ghost var p := LastTx(chain);
      ValidHeaders(k, chain);
      Grounded(k, chain);
      ChainToPrefix(store, b.prevHash, p);
      var prevTx := store[b.foliageTx.value.prevTxHash];
      if prevTx.Timestamp() == 0 {
        return true, {};
      }
      coins := {PoolCoin(prevTx), FarmerCoin(prevTx)};
      ClaimListEmpty(chain, p + 1);
      ClaimListLower(chain, p, p + 1);
      if prevTx.height > 0 {
        coins := ClaimsBelow(store, b.prevHash, prevTx, coins, chain);
      } else {
        assert ClaimedCount(chain) == 0;
      }
    }
  }

  lemma ClaimListEmpty(chain: seq<Block>, n: nat)
    requires n <= |chain|
    ensures ClaimList(chain, n, n) == []
  {
  }

  // ---- lists, sets and counters --------------------------------------------------------

  lemma {:induction false} SetSize<T>(s: seq<T>)
    ensures |ToSet(s)| <= |s|
    ensures |ToSet(s)| == |s| <==> NoDuplicates(s)
  {
    hide NoDuplicates;
    if s == [] {
      NoDuplicatesSnoc(s);
    } else {
      var n := |s| - 1;
      SetSize(s[..n]);
      NoDuplicatesSnoc(s);
      assert ToSet(s) == ToSet(s[..n]) + {s[n]};
    }
  }

  lemma NoDuplicatesSnoc<T>(s: seq<T>)
    ensures s == [] ==> NoDuplicates(s)
    ensures s != [] ==> (NoDuplicates(s) <==> NoDuplicates(s[..|s| - 1]) && s[|s| - 1] !in s[..|s| - 1])
  {
    if s != [] {
      var n := |s| - 1;
      assert forall i :: 0 <= i < n ==> s[..n][i] == s[i];
    }
  }

  /** A set's elements, listed. */
  method Listed<T(==)>(s: set<T>) returns (r: seq<T>)
    ensures NoDuplicates(r) && ToSet(r) == s
  {
    r := [];
    var rest := s;
    while rest != {}
      invariant NoDuplicates(r) && ToSet(r) == s - rest && rest <= s
      decreases rest
    {
      var x :| x in rest;
      assert ToSet(r + [x]) == ToSet(r) + {x};
      r := r + [x];
      rest := rest - {x};
    }
  }

  /** Does a counter over the list show a count above one? */
  method HasDuplicates<T(==)>(s: seq<T>) returns (dup: bool)
    ensures dup <==> !NoDuplicates(s)
  {
    var counter: map<T, nat> := map[];
    for i := 0 to |s|
      invariant counter.Keys == ToSet(s[..i])
      invariant forall x :: x in counter ==> counter[x] >= 1
      invariant NoDuplicates(s[..i]) <==> forall x :: x in counter ==> counter[x] == 1
    {
      assert s[..i + 1] == s[..i] + [s[i]];
      assert ToSet(s[..i + 1]) == ToSet(s[..i]) + {s[i]};
      ghost var was := counter;
      counter := counter[s[i] := (if s[i] in counter then counter[s[i]] else 0) + 1];
      if s[i] in was {
        assert counter[s[i]] > 1;
        var j :| 0 <= j < i && s[..i][j] == s[i];
        assert s[..i + 1][j] == s[..i + 1][i];
      } else {
        assert NoDuplicates(s[..i + 1]) <==> NoDuplicates(s[..i]);
        assert forall x :: x in was ==> counter[x] == was[x];
      }
    }
    assert s[..|s|] == s;
    dup := exists x :: x in counter && counter[x] > 1;
  }

  /** Replacing the tail of a list by a permutation of it changes neither members nor duplicates. */
  lemma SameTail<T>(a: seq<T>, x: seq<T>, y: seq<T>)
    requires NoDuplicates(x) && NoDuplicates(y) && ToSet(x) == ToSet(y)
    ensures ToSet(a + x) == ToSet(a + y)
    ensures NoDuplicates(a + x) <==> NoDuplicates(a + y)
  {
    assert ToSet(a + x) == ToSet(a) + ToSet(x);
    assert ToSet(a + y) == ToSet(a) + ToSet(y);
    SetSize(a + x);
    SetSize(a + y);
    SetSize(x);
    SetSize(y);
  }

  // ---- checks 15: the removals ----------------------------------------------------------

  /** The dictionary of puzzle hashes: for distinct coins, each coin's own. */
  ghost predicate PuzzlesOf(spends: seq<Spend>, puzzles: map<Coin, Hash>) {
    && puzzles.Keys == ToSet(Removed(spends))
    && (NoDuplicates(Removed(spends)) ==>
          forall i :: 0 <= i < |spends| ==>
            spends[i].coin in puzzles && puzzles[spends[i].coin] == spends[i].puzzleHash)
  }

  lemma PuzzlesSnoc(spends: seq<Spend>, puzzles: map<Coin, Hash>, s: Spend)
    requires PuzzlesOf(spends, puzzles)
    ensures Removed(spends + [s]) == Removed(spends) + [s.coin]
    ensures PuzzlesOf(spends + [s], puzzles[s.coin := s.puzzleHash])
  {
    var longer := spends + [s];
    assert Removed(longer) == Removed(spends) + [s.coin];
    assert ToSet(Removed(longer)) == ToSet(Removed(spends)) + {s.coin};
    if NoDuplicates(Removed(longer)) {
      assert forall i :: 0 <= i < |spends| ==> Removed(longer)[i] == Removed(spends)[i] == spends[i].coin;
      assert Removed(longer)[|spends|] == s.coin;
    }
  }

  lemma CreatedSnoc(spends: seq<Spend>, s: Spend)
    ensures Created(spends + [s]) == Created(spends) + SpendOutputs(s)
  {
    assert (spends + [s])[..|spends|] == spends;
  }

  /** The outputs of one spend. */
  method ReadOutputs(s: Spend) returns (coins: seq<Coin>)
    ensures coins == SpendOutputs(s)
  {
    coins := [];
    for j := 0 to |s.outputs|
      invariant coins == SpendOutputs(s)[..j]
    {
      coins := coins + [Coin(Spent(s.coin), s.outputs[j].puzzleHash, s.outputs[j].amount)];
    }
  }

  /** The two loops that read the generator's result. */
  method ReadSpends(spends: seq<Spend>) returns (removals: seq<Coin>, additions: seq<Coin>, puzzles: map<Coin, Hash>)
    ensures removals == Removed(spends) && additions == Created(spends) && PuzzlesOf(spends, puzzles)
  {
    removals, additions, puzzles := [], [], map[];
    for i := 0 to |spends|
      invariant removals == Removed(spends[..i]) && additions == Created(spends[..i]) && PuzzlesOf(spends[..i], puzzles)
    {
      hide PuzzlesOf, Removed, Created, SpendOutputs;
      assert spends[..i + 1] == spends[..i] + [spends[i]];
      PuzzlesSnoc(spends[..i], puzzles, spends[i]);
      CreatedSnoc(spends[..i], spends[i]);
      removals := removals + [spends[i].coin];
      puzzles := puzzles[spends[i].coin := spends[i].puzzleHash];
      var outputs := ReadOutputs(spends[i]);
      additions := additions + outputs;
    }
    assert spends[..|spends|] == spends;
  }

  /** Coins made in this block get a record; the others must not be spent on the branch. */
  method SplitEphemeral(removals: seq<Coin>, made: set<Coin>, rems: Removals, height: nat, timestamp: nat)
      returns (inFork: bool, records: Ledger, fromDb: seq<Coin>)
    requires NoDuplicates(removals)
    ensures inFork <==> exists c :: c in removals && c !in made && c in rems
    ensures !inFork ==>
              && records == (map c | c in ToSet(removals) * made :: CoinRecord(c, height, height, false, timestamp))
              && NoDuplicates(fromDb) && ToSet(fromDb) == ToSet(removals) - made
  {
    inFork, records, fromDb := false, map[], [];
    for i := 0 to |removals|
      invariant forall c :: c in removals[..i] && c !in made ==> c !in rems
      invariant records == map c | c in ToSet(removals[..i]) * made :: CoinRecord(c, height, height, false, timestamp)
      invariant NoDuplicates(fromDb) && ToSet(fromDb) == ToSet(removals[..i]) - made
    {
      var rem := removals[i];
      assert ToSet(removals[..i + 1]) == ToSet(removals[..i]) + {rem} by {
        assert removals[..i + 1] == removals[..i] + [rem];
      }
      if rem in made {
        records := records[rem := CoinRecord(rem, height, height, false, timestamp)];
      } else {
        if rem in rems {
          return true, records, fromDb;
        }
        assert ToSet(fromDb + [rem]) == ToSet(fromDb) + {rem};
        assert rem !in ToSet(removals[..i]);
        assert rem !in ToSet(fromDb);
        fromDb := fromDb + [rem];
      }
    }
    assert removals[..|removals|] == removals;
  }

  /** Records confirmed up to the fork are used, unless spent up to it; later ones are looked up in the fork. */
  method UseStoreRecords(found: seq<CoinRecord>, forkHeight: int, start: Ledger)
      returns (spent: bool, records: Ledger, lookInFork: seq<Coin>)
    ensures spent <==> exists r :: r in found && r.confirmed <= forkHeight && 0 < r.spent <= forkHeight
    ensures !spent ==> forall r :: r in found && r.confirmed > forkHeight ==> r.coin in lookInFork
    ensures !spent ==> forall c :: c in lookInFork ==> exists r :: r in found && r.coin == c && r.confirmed > forkHeight
    ensures !spent ==> forall c :: c in records ==>
              || (c in start && records[c] == start[c])
              || (records[c] in found && records[c].coin == c && records[c].confirmed <= forkHeight)
    ensures !spent ==> start.Keys <= records.Keys
    ensures !spent ==> forall r :: r in found && r.confirmed <= forkHeight ==> r.coin in records
  {
    spent, records, lookInFork := false, start, [];
    for i := 0 to |found|
      invariant forall r :: r in found[..i] && r.confirmed <= forkHeight ==> !(0 < r.spent <= forkHeight)
      invariant forall r :: r in found[..i] && r.confirmed > forkHeight ==> r.coin in lookInFork
      invariant forall c :: c in lookInFork ==> exists r :: r in found && r.coin == c && r.confirmed > forkHeight
      invariant forall c :: c in records ==>
                  || (c in start && records[c] == start[c])
                  || (records[c] in found && records[c].coin == c && records[c].confirmed <= forkHeight)
      invariant start.Keys <= records.Keys
      invariant forall r :: r in found[..i] && r.confirmed <= forkHeight ==> r.coin in records
    {
      var r := found[i];
      assert found[..i + 1] == found[..i] + [r] && r in found;
      if r.confirmed <= forkHeight {
        if r.spent > 0 && r.spent <= forkHeight {
          return true, records, lookInFork;
        }
        records := records[r.coin := r];
      } else {
        lookInFork := lookInFork + [r.coin];
      }
    }
    assert found[..|found|] == found;
  }

  /** The names the store did not know. */
  method NotFound(names: seq<Coin>, found: seq<CoinRecord>) returns (missing: seq<Coin>)
    ensures forall c :: c in missing <==> c in names && forall r :: r in found ==> r.coin != c
  {
    missing := [];
    var known := set r | r in found :: r.coin;
    for i := 0 to |names|
      invariant forall c :: c in missing <==> c in names[..i] && c !in known
    {
      assert names[..i + 1] == names[..i] + [names[i]];
      if names[i] !in known {
        missing := missing + [names[i]];
      }
    }
    assert names[..|names|] == names;
  }

  /** The remaining coins must have been added on the branch. */
  method UseForkAdditions(look: seq<Coin>, adds: Additions, start: Ledger) returns (unknown: bool, records: Ledger)
    requires forall c :: c in adds ==> adds[c].coin == c
    ensures unknown <==> exists c :: c in look && c !in adds
    ensures !unknown ==>
              records == start + (map c | c in ToSet(look) * adds.Keys ::
                                    CoinRecord(c, adds[c].confirmed, 0, false, adds[c].timestamp))
  {
    unknown, records := false, start;
    for i := 0 to |look|
      invariant forall c :: c in look[..i] ==> c in adds
      invariant records == start + (map c | c in ToSet(look[..i]) * adds.Keys ::
                                      CoinRecord(c, adds[c].confirmed, 0, false, adds[c].timestamp))
    {
      var rem := look[i];
      assert look[..i + 1] == look[..i] + [rem];
      assert ToSet(look[..i + 1]) == ToSet(look[..i]) + {rem};
      if rem !in adds {
        return true, records;
      }
      records := records[rem := CoinRecord(adds[rem].coin, adds[rem].confirmed, 0, false, adds[rem].timestamp)];
    }
    assert look[..|look|] == look;
  }

  ghost function LookUps(removals: set<Coin>, made: set<Coin>, store: Ledger, forkHeight: int,
                         adds: Additions, rems: Removals): map<Coin, Lookup> {
    map c | c in removals - made :: LookUp(store, forkHeight, adds, rems, c)
  }

  /** What the store knows about the names it was asked for. */
  ghost predicate FoundIn(l: Ledger, fromDb: seq<Coin>, found: seq<CoinRecord>) {
    && (forall r :: r in found ==> r.coin in fromDb && r.coin in l && r == l[r.coin])
    && (forall c :: c in fromDb && c in l ==> l[c] in found)
    && (forall c :: c in l ==> l[c].coin == c)
  }

  lemma FirstPhase(removals: seq<Coin>, made: set<Coin>, l: Ledger, forkHeight: int, adds: Additions, rems: Removals)
    ensures SomeGets(LookUps(ToSet(removals), made, l, forkHeight, adds, rems), SpentInFork) <==>
            exists c :: c in removals && c !in made && c in rems
  {
    var answers := LookUps(ToSet(removals), made, l, forkHeight, adds, rems);
    forall c ensures c in answers && answers[c] == SpentInFork <==> c in removals && c !in made && c in rems {
    }
  }

  lemma SecondPhase(removals: seq<Coin>, made: set<Coin>, l: Ledger, forkHeight: int, adds: Additions, rems: Removals,
                    fromDb: seq<Coin>, found: seq<CoinRecord>)
    requires ToSet(fromDb) == ToSet(removals) - made && FoundIn(l, fromDb, found)
    requires forall c :: c in removals && c !in made ==> c !in rems
    ensures SomeGets(LookUps(ToSet(removals), made, l, forkHeight, adds, rems), SpentBeforeFork) <==>
            exists r :: r in found && r.confirmed <= forkHeight && 0 < r.spent <= forkHeight
  {
    var answers := LookUps(ToSet(removals), made, l, forkHeight, adds, rems);
    assert forall c :: c in fromDb <==> c in ToSet(fromDb);
    if c :| c in answers && answers[c] == SpentBeforeFork {
      assert l[c] in found;
    }
    if r :| r in found && r.confirmed <= forkHeight && 0 < r.spent <= forkHeight {
      assert r.coin in answers && answers[r.coin] == SpentBeforeFork;
    }
  }

  /** The coins looked up in the fork are those the store does not have, or has only after the fork. */
  lemma LookedUp(l: Ledger, fromDb: seq<Coin>, found: seq<CoinRecord>, forkHeight: int, late: seq<Coin>,
                 missing: seq<Coin>)
    requires FoundIn(l, fromDb, found)
    requires forall r :: r in found && r.confirmed > forkHeight ==> r.coin in late
    requires forall c :: c in late ==> exists r :: r in found && r.coin == c && r.confirmed > forkHeight
    requires forall c :: c in missing <==> c in fromDb && forall r :: r in found ==> r.coin != c
    ensures forall c :: c in late + missing <==> c in fromDb && (c in l ==> l[c].confirmed > forkHeight)
  {
    forall c ensures c in late + missing <==> c in fromDb && (c in l ==> l[c].confirmed > forkHeight) {
      if c in fromDb && c in l {
        assert l[c] in found;
      }
    }
  }

  /** What to look up in the fork: the store's late records, and what it did not know. */
  method WithMissing(ghost l: Ledger, fromDb: seq<Coin>, found: seq<CoinRecord>, forkHeight: int, late: seq<Coin>)
      returns (look: seq<Coin>)
    requires FoundIn(l, fromDb, found)
    requires |found| == |fromDb| ==> forall c :: c in fromDb ==> c in l
    requires forall r :: r in found && r.confirmed > forkHeight ==> r.coin in late
    requires forall c :: c in late ==> exists r :: r in found && r.coin == c && r.confirmed > forkHeight
    ensures forall c :: c in look <==> c in fromDb && (c in l ==> l[c].confirmed > forkHeight)
  {
    look := late;
    if |found| != |fromDb| {
      var missing := NotFound(fromDb, found);
      LookedUp(l, fromDb, found, forkHeight, late, missing);
      look := look + missing;
    } else {
      assert late + [] == late;
      LookedUp(l, fromDb, found, forkHeight, late, []);
    }
  }

  lemma ThirdPhase(removals: seq<Coin>, made: set<Coin>, l: Ledger, forkHeight: int, adds: Additions, rems: Removals,
                   fromDb: seq<Coin>, look: seq<Coin>)
    requires ToSet(fromDb) == ToSet(removals) - made
    requires forall c :: c in removals && c !in made ==> c !in rems
    requires forall c :: c in look <==> c in fromDb && (c in l ==> l[c].confirmed > forkHeight)
    ensures SomeGets(LookUps(ToSet(removals), made, l, forkHeight, adds, rems), Unknown) <==>
            exists c :: c in look && c !in adds
  {
    var answers := LookUps(ToSet(removals), made, l, forkHeight, adds, rems);
    assert forall c :: c in fromDb <==> c in ToSet(fromDb);
    forall c ensures c in answers && answers[c] == Unknown <==> c in look && c !in adds {
    }
  }

  /** After the third phase every removal has a record, of this block or from the lookup. */
  ghost predicate RecordsOk(removals: seq<Coin>, made: set<Coin>, l: Ledger, forkHeight: int, adds: Additions,
                            rems: Removals,
                            records: Ledger, height: nat, timestamp: nat) {
    && records.Keys == ToSet(removals)
    && forall c :: c in records ==> RecordOk(made, l, forkHeight, adds, rems, c, records[c], height, timestamp)
  }

  ghost predicate RecordOk(made: set<Coin>, l: Ledger, forkHeight: int, adds: Additions, rems: Removals,
                           c: Coin, r: CoinRecord, height: nat, timestamp: nat) {
    if c in made then r == CoinRecord(c, height, height, false, timestamp)
    else LookUp(l, forkHeight, adds, rems, c) == Usable(r) && r.coin == c
  }

  /** What the three phases have collected. */
  ghost predicate Collected(removals: seq<Coin>, made: set<Coin>, l: Ledger, forkHeight: int, adds: Additions,
                            rems: Removals,
                            fromDb: seq<Coin>, found: seq<CoinRecord>, look: seq<Coin>,
                            ephemeral: Ledger, fromStore: Ledger, records: Ledger, height: nat, timestamp: nat) {
    && ToSet(fromDb) == ToSet(removals) - made && FoundIn(l, fromDb, found)
    && (forall c :: c in removals && c !in made ==> c !in rems)
    && (forall c :: c in look <==> c in fromDb && (c in l ==> l[c].confirmed > forkHeight))
    && (forall c :: c in look ==> c in adds && adds[c].coin == c)
    && (!exists r :: r in found && r.confirmed <= forkHeight && 0 < r.spent <= forkHeight)
    && ephemeral == (map c | c in ToSet(removals) * made :: CoinRecord(c, height, height, false, timestamp))
    && (forall c :: c in fromStore ==>
          (c in ephemeral && fromStore[c] == ephemeral[c])
          || (fromStore[c] in found && fromStore[c].coin == c && fromStore[c].confirmed <= forkHeight))
    && ephemeral.Keys <= fromStore.Keys
    && (forall r :: r in found && r.confirmed <= forkHeight ==> r.coin in fromStore)
    && records == fromStore + (map c | c in ToSet(look) * adds.Keys ::
                                 CoinRecord(c, adds[c].confirmed, 0, false, adds[c].timestamp))
  }

  lemma RecordComplete(removals: seq<Coin>, made: set<Coin>, l: Ledger, forkHeight: int, adds: Additions,
                       rems: Removals,
                       fromDb: seq<Coin>, found: seq<CoinRecord>, look: seq<Coin>,
                       ephemeral: Ledger, fromStore: Ledger, records: Ledger, height: nat, timestamp: nat, c: Coin)
    requires Collected(removals, made, l, forkHeight, adds, rems, fromDb, found, look, ephemeral, fromStore, records,
                       height, timestamp)
    ensures c in records <==> c in ToSet(removals)
    ensures c in records ==> RecordOk(made, l, forkHeight, adds, rems, c, records[c], height, timestamp)
  {
    assert c in fromDb <==> c in ToSet(fromDb);
    assert c in look <==> c in ToSet(look);
    if c in removals && c !in made && c !in look {
      assert l[c] in found;
    }
  }

  lemma RecordsComplete(removals: seq<Coin>, made: set<Coin>, l: Ledger, forkHeight: int, adds: Additions,
                        rems: Removals,
                        fromDb: seq<Coin>, found: seq<CoinRecord>, look: seq<Coin>,
                        ephemeral: Ledger, fromStore: Ledger, records: Ledger, height: nat, timestamp: nat)
    requires Collected(removals, made, l, forkHeight, adds, rems, fromDb, found, look, ephemeral, fromStore, records,
                       height, timestamp)
    ensures RecordsOk(removals, made, l, forkHeight, adds, rems, records, height, timestamp)
  {
    hide Collected, RecordOk, ToSet;
    forall c
      ensures c in records <==> c in ToSet(removals)
      ensures c in records ==> RecordOk(made, l, forkHeight, adds, rems, c, records[c], height, timestamp)
    {
      RecordComplete(removals, made, l, forkHeight, adds, rems, fromDb, found, look, ephemeral, fromStore, records,
                     height, timestamp, c);
    }
  }

  /** Check 15: the three phases together. */
  method CheckRemovals(coinStore: CoinStore, forkHeight: int, adds: Additions, rems: Removals,
                       removals: seq<Coin>, made: set<Coin>, height: nat, timestamp: nat)
      returns (err: Option<Err>, records: Ledger)
    requires coinStore.Keyed() && NoDuplicates(removals)
    requires forall c :: c in adds ==> adds[c].coin == c
    ensures err == SpendError(LookUps(ToSet(removals), made, coinStore.records, forkHeight, adds, rems))
    ensures err.None? ==>
              RecordsOk(removals, made, coinStore.records, forkHeight, adds, rems, records, height, timestamp)
  {
    hide SomeGets, LookUps, LookUp, NoDuplicates, RecordsOk;
    ghost var l := coinStore.records;
    FirstPhase(removals, made, l, forkHeight, adds, rems);
    var inFork, ephemeral, fromDb := SplitEphemeral(removals, made, rems, height, timestamp);
    if inFork {
      return Some(DoubleSpendInFork), ephemeral;
    }
    var found := coinStore.GetCoinRecords(fromDb);
    SecondPhase(removals, made, l, forkHeight, adds, rems, fromDb, found);
    var spent, fromStore, look := UseStoreRecords(found, forkHeight, ephemeral);
    if spent {
      return Some(DoubleSpend), fromStore;
    }
    look := WithMissing(l, fromDb, found, forkHeight, look);
    ThirdPhase(removals, made, l, forkHeight, adds, rems, fromDb, look);
    var unknown;
    unknown, records := UseForkAdditions(look, adds, fromStore);
    if unknown {
      return Some(UnknownUnspent), records;
    }
    err := None;
    RecordsComplete(removals, made, l, forkHeight, adds, rems, fromDb, found, look, ephemeral, fromStore, records,
                    height, timestamp);
  }

  // ---- the overlay, applied ----------------------------------------------------------------

  /** Main chain, branch and ForkInfo fit together. */
  ghost predicate Overlay(k: Constants, main: seq<Block>, chain: seq<Block>, coinStore: CoinStore, forkInfo: ForkInfo)
    reads coinStore, forkInfo
  {
    && ValidChain(k, main) && ValidChain(k, chain)
    && coinStore.records == LedgerAt(main)
    && forkInfo.Tracks(chain)
    && Forks(main, chain, forkInfo.forkHeight)
  }

  /** Two chains are the same up to and including a height. */
  ghost predicate Forks(main: seq<Block>, chain: seq<Block>, height: int) {
    -1 <= height < |main| && height < |chain| && main[..height + 1] == chain[..height + 1]
  }

  lemma OverlayAt(k: Constants, main: seq<Block>, chain: seq<Block>, coinStore: CoinStore, forkInfo: ForkInfo, c: Coin)
    requires Overlay(k, main, chain, coinStore, forkInfo)
    ensures Agree(LookUp(coinStore.records, forkInfo.forkHeight, forkInfo.additions, forkInfo.removals, c),
                  Answer(LedgerAt(chain), forkInfo.forkHeight, c))
    ensures c in forkInfo.additions ==> forkInfo.additions[c].coin == c
    ensures c in coinStore.records ==> coinStore.records[c].coin == c
  {
    hide ValidChain, Sound, EffectsOf;
    ChainIsSound(k, main);
    ChainIsSound(k, chain);
    var f := forkInfo.forkHeight;
    EffectsPrefix(main, f + 1);
    EffectsPrefix(chain, f + 1);
    OverlayAgreesWithReplay(AllEffects(main), AllEffects(chain), f, forkInfo.additions, forkInfo.removals, c);
    ReplayIsLedger(AllEffects(main));
    if c in forkInfo.additions {
      assert c in AllEffects(chain)[forkInfo.additions[c].confirmed].Added();
    }
    if c in coinStore.records {
      assert c in AllEffects(main)[coinStore.records[c].confirmed].Added();
    }
  }

  lemma AgreeingAnswers(a: map<Coin, Lookup>, b: map<Coin, Lookup>)
    requires a.Keys == b.Keys && forall c :: c in a ==> Agree(a[c], b[c])
    ensures SpendError(a) == SpendError(b)
  {
    forall bad: Lookup | !bad.Usable? ensures SomeGets(a, bad) <==> SomeGets(b, bad) {
      assert forall c :: c in a ==> (a[c] == bad <==> b[c] == bad);
    }
  }

  /** The collected records are those of the branch's own table. */
  lemma RecordsOfBranch(k: Constants, main: seq<Block>, chain: seq<Block>, coinStore: CoinStore, forkInfo: ForkInfo,
                        removals: seq<Coin>, made: set<Coin>, records: Ledger, height: nat, timestamp: nat)
    requires Overlay(k, main, chain, coinStore, forkInfo)
    requires RecordsOk(removals, made, coinStore.records, forkInfo.forkHeight, forkInfo.additions, forkInfo.removals,
                       records, height, timestamp)
    ensures records.Keys == ToSet(removals) && forall c :: c in records ==> records[c].coin == c
    ensures forall c :: c in records && c !in made ==>
              && Unspent(LedgerAt(chain), c)
              && records[c].confirmed == LedgerAt(chain)[c].confirmed
              && records[c].timestamp == LedgerAt(chain)[c].timestamp
  {
    hide Overlay, LedgerAt, ToSet, LookUp;
    forall c | c in records && c !in made
      ensures Unspent(LedgerAt(chain), c)
      ensures records[c].confirmed == LedgerAt(chain)[c].confirmed
      ensures records[c].timestamp == LedgerAt(chain)[c].timestamp
    {
      OverlayAt(k, main, chain, coinStore, forkInfo, c);
    }
  }

  /**
   The removal checks of a block on a branch, run against the main chain's coin table, give
   the verdict of the branch's own table, and on success hand on its coins, heights and timestamps.
   */
  method ValidateRemovals(ghost k: Constants, coinStore: CoinStore, forkInfo: ForkInfo, b: Block,
                          removals: seq<Coin>, made: set<Coin>, ghost main: seq<Block>, ghost chain: seq<Block>)
      returns (err: Option<Err>, records: Ledger)
    requires Overlay(k, main, chain, coinStore, forkInfo)
    requires NoDuplicates(removals) && removals == Removed(Spends(b)) && made == EffectsOf(b).Added()
    ensures err == SpendError(Answers(b, LedgerAt(chain), forkInfo.forkHeight))
    ensures err.None? ==> records.Keys == ToSet(removals)
    ensures err.None? ==> forall c :: c in records ==> records[c].coin == c
    ensures err.None? ==> forall c :: c in records && c !in made ==>
              && Unspent(LedgerAt(chain), c)
              && records[c].confirmed == LedgerAt(chain)[c].confirmed
              && records[c].timestamp == LedgerAt(chain)[c].timestamp
  {
    hide Overlay, LedgerAt, EffectsOf, Removed, Spends, SpendError, NoDuplicates, Agree, LookUp, Answer, RecordsOk;
    var f, adds, rems := forkInfo.forkHeight, forkInfo.additions, forkInfo.removals;
    forall c
      ensures Agree(LookUp(coinStore.records, f, adds, rems, c), Answer(LedgerAt(chain), f, c))
      ensures c in adds ==> adds[c].coin == c
      ensures c in coinStore.records ==> coinStore.records[c].coin == c
    {
      OverlayAt(k, main, chain, coinStore, forkInfo, c);
    }
    err, records := CheckRemovals(coinStore, f, adds, rems, removals, made, b.height, b.Timestamp());
    if err.None? {
      RecordsOfBranch(k, main, chain, coinStore, forkInfo, removals, made, records, b.height, b.Timestamp());
    }
    AgreeingAnswers(LookUps(ToSet(removals), made, coinStore.records, f, adds, rems), Answers(b, LedgerAt(chain), f));
  }

  // ---- checks 10, 16 to 20 --------------------------------------------------------------------

  /** Check 10, and the dictionary of the coins made in this block. */
  method CheckAmounts(k: Constants, coins: seq<Coin>) returns (tooLarge: bool, made: set<Coin>)
    ensures tooLarge <==> exists c :: c in coins && c.amount > k.maxCoinAmount
    ensures !tooLarge ==> made == ToSet(coins)
  {
    tooLarge, made := false, {};
    for i := 0 to |coins|
      invariant made == ToSet(coins[..i]) && forall c :: c in coins[..i] ==> c.amount <= k.maxCoinAmount
    {
      assert coins[..i + 1] == coins[..i] + [coins[i]];
      made := made + {coins[i]};
      if coins[i].amount > k.maxCoinAmount {
        return true, made;
      }
    }
    assert coins[..|coins|] == coins;
  }

  /** The sum over the values of the record dictionary. */
  method SumOfRecords(records: Ledger) returns (sum: nat)
    requires forall c :: c in records ==> records[c].coin == c
    ensures sum == SetTotal(records.Keys)
  {
    sum := 0;
    var rest := records.Keys;
    while rest != {}
      invariant rest <= records.Keys && sum + SetTotal(rest) == SetTotal(records.Keys)
      decreases rest
    {
      var c :| c in rest;
      SetTotalRemove(rest, c);
      sum := sum + records[c].coin.amount;
      rest := rest - {c};
    }
  }

  method SumOfCoins(coins: seq<Coin>) returns (sum: nat)
    ensures sum == Total(coins)
  {
    sum := 0;
    for i := 0 to |coins|
      invariant sum == Total(coins[..i])
    {
      assert coins[..i + 1][..i] == coins[..i];
      sum := sum + coins[i].amount;
    }
    assert coins[..|coins|] == coins;
  }

  /** Check 20's loop over the records. */
  method PuzzlesMatch(b: Block, records: Ledger, puzzles: map<Coin, Hash>) returns (ok: bool)
    requires NoDuplicates(Removed(Spends(b))) && records.Keys == ToSet(Removed(Spends(b)))
    requires PuzzlesOf(Spends(b), puzzles)
    requires forall c :: c in records ==> records[c].coin == c
    ensures ok <==> PuzzlesOk(b)
  {
    ok := forall c :: c in records ==> records[c].coin.puzzleHash == puzzles[c];
    if !ok {
      var c :| c in records && records[c].coin.puzzleHash != puzzles[c];
      assert c in Removed(Spends(b));
      ghost var i :| 0 <= i < |Spends(b)| && Removed(Spends(b))[i] == c;
      assert Spends(b)[i].coin == c;
    }
  }

  /** Checks 16 to 20. */
  method CheckFees(k: Constants, b: Block, records: Ledger, additions: seq<Coin>, puzzles: map<Coin, Hash>)
      returns (err: Option<Err>)
    requires b.txInfo.Some? && additions == Created(Spends(b)) && NoDuplicates(Removed(Spends(b)))
    requires records.Keys == ToSet(Removed(Spends(b))) && PuzzlesOf(Spends(b), puzzles)
    requires forall c :: c in records ==> records[c].coin == c
    ensures err == FeeError(k, b)
  {
    var removed := SumOfRecords(records);
    SetTotalOfList(Removed(Spends(b)));
    var added := SumOfCoins(additions);
    if removed < added {
      return Some(MintingCoin);
    }
    var fees := removed - added;
    var assertFeeSum := if b.generator.Some? then b.generator.value.reserveFee else 0;
    if fees < assertFeeSum {
      return Some(ReserveFeeConditionFailed);
    }
    if fees + FarmerReward(b.height) > k.maxCoinAmount {
      return Some(CoinAmountExceedsMaximum);
    }
    if b.txInfo.value.fees != fees {
      return Some(InvalidBlockFeeAmount);
    }
    var ok := PuzzlesMatch(b, records, puzzles);
    return if ok then None else Some(WrongPuzzleHash);
  }

  // ---- the whole body -----------------------------------------------------------------------------

  /** All checks of a transaction block after its rewards are known to be right. */
  method ValidateTransactions(k: Constants, coinStore: CoinStore, forkInfo: ForkInfo, b: Block, rewards: set<Coin>,
                              ghost main: seq<Block>, ghost chain: seq<Block>)
      returns (err: Option<Err>)
    requires Overlay(k, main, chain, coinStore, forkInfo)
    requires b.foliageTx.Some? && b.txInfo.Some? && PrevTimestampOk(chain) && ClaimsOk(chain, b)
    requires rewards == ToSet(Claims(b))
    ensures err == TxBodyError(k, chain, forkInfo.forkHeight, b)
  {
    hide Overlay, PrevTimestampOk, ClaimsOk, LedgerAt, SpendError, FeeError, Answers, NoDuplicates, Created, Removed;
    hide PuzzlesOf;
    hide AdditionsRoot, RemovalsRoot;
    assert NoDuplicates(Claims(b)) by { ClaimsAreDistinct(chain, b); }
    var coinbase := Listed(rewards);
    var removals, additions, puzzles := ReadSpends(Spends(b));
    SameTail(additions, coinbase, Claims(b));
    var tooLarge, made := CheckAmounts(k, additions + coinbase);
    assert forall c :: c in additions + coinbase <==> c in ToSet(additions + coinbase);
    assert forall c :: c in additions + Claims(b) <==> c in ToSet(additions + Claims(b));
    if tooLarge {
      return Some(CoinAmountExceedsMaximum);
    }
    assert made == EffectsOf(b).Added() by { AddedIs(b); }
    ListedRoot(additions, Claims(b), coinbase);
    var rootError := ValidateBlockMerkleRoots(b.foliageTx.value, additions + coinbase, removals);
    if rootError.Some? {
      return Some(BadRoots(rootError.value));
    }
    var dup := HasDuplicates(additions + coinbase);
    if dup {
      return Some(DuplicateOutput);
    }
    dup := HasDuplicates(removals);
    if dup {
      return Some(DoubleSpend);
    }
    var records;
    err, records := ValidateRemovals(k, coinStore, forkInfo, b, removals, made, main, chain);
    if err.None? {
      err := CheckFees(k, b, records, additions, puzzles);
    }
  }

  lemma ClaimsAreDistinct(chain: seq<Block>, b: Block)
    requires ClaimsOk(chain, b)
    ensures NoDuplicates(Claims(b))
  {
  }

  lemma AddedIs(b: Block)
    ensures ToSet(Created(Spends(b)) + Claims(b)) == EffectsOf(b).Added()
  {
  }

  /** validate_block_body: the error is the one the replayed branch calls for. */
  method ValidateBlockBody(k: Constants, store: Store, coinStore: CoinStore, forkInfo: ForkInfo, b: Block,
                           ghost main: seq<Block>, ghost chain: seq<Block>)
      returns (err: Option<Err>)
    requires Linked(store) && (b.height == 0 || b.prevHash in store) && chain == Ancestors(store, b)
    requires HeaderAccepted(k, chain, b) && k.maxCoinAmount <= UINT64_MAX
    requires Overlay(k, main, chain, coinStore, forkInfo)
    ensures err == BodyError(k, chain, forkInfo.forkHeight, b)
    ensures err.None? <==> BodyAccepted(k, chain, b)
  {
    hide ValidChain, LedgerAt, SpendError, FeeError, Answers, NoDuplicates, Created, Removed, ExpectedClaims, Linked;
    hide BodyAccepted, EffectsOf;
    hide IterRule, SlotRule, BlockCountRule, InfusionRule, DeficitRule;
    NoErrorIsAccepted(k, chain, forkInfo.forkHeight, b);
    if !b.hasFoliageTxHash {
      if b.foliageTx.Some? || b.txInfo.Some? || b.generator.Some? {
        return Some(NotBlockButHasData);
      }
      ValidHeaders(k, chain);
      Grounded(k, chain);
      var prevTb := WalkToTx(store, b.prevHash);
      assert prevTb.foliageTx.Some?;
      if |b.generatorRefs| > 0 {
        return Some(NotBlockButHasData);
      }
      assert forkInfo.peakHeight == b.height - 1;
      return None;
    }
    if b.foliageTx.None? || b.txInfo.None? {
      return Some(IsTransactionBlockButNoData);
    }
    var raised, expected := ExpectedRewardCoins(k, store, b, chain);
    if raised {
      return Some(RaisedPrevTimestampZero);
    }
    var claims := b.txInfo.value.rewardClaims;
    if ToSet(claims) != expected {
      return Some(InvalidRewardCoins);
    }
    SetSize(claims);
    if |claims| != |expected| {
      return Some(InvalidRewardCoins);
    }
    assert forkInfo.forkHeight < b.height && forkInfo.peakHeight == b.height - 1;
    err := ValidateTransactions(k, coinStore, forkInfo, b, expected, main, chain);
  }
}
