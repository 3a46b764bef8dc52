/**
 The coin set as a function of what blocks do to it.

 `Effects` is all a block does to coins.  `Replay` folds a sequence of effects, the
 one at index h being the block at height h, into the coin table exactly as
 CoinStore.new_block does.  `LedgerOf` says, without any folding, which table that
 is; it determines the table uniquely, and the rest of the project reasons with it.
 */
module CoinLedger {
  import opened Types

  datatype Effects = Effects(rewards: set<Coin>, created: set<Coin>, spent: set<Coin>, timestamp: nat) {
    function Added(): set<Coin> { rewards + created }
  }

  /** The record a coin gets when the block at height h adds it. */
  function NewRecord(c: Coin, h: nat, e: Effects): CoinRecord {
    CoinRecord(c, h, 0, c in e.rewards, e.timestamp)
  }

  function MarkSpent(r: CoinRecord, spent: bool, h: nat): CoinRecord {
    if spent && r.spent == 0 then r.(spent := h) else r
  }

  function Apply(l: Ledger, h: nat, e: Effects): Ledger {
    map c | c in l.Keys + e.Added() ::
      MarkSpent(if c in e.Added() then NewRecord(c, h, e) else l[c], c in e.spent, h)
  }

  function Replay(es: seq<Effects>): Ledger {
    if es == [] then map[]
    else Apply(Replay(es[..|es| - 1]), |es| - 1, es[|es| - 1])
  }

  predicate Unspent(l: Ledger, c: Coin) { c in l && l[c].spent == 0 }

  // ---- the table, characterised ------------------------------------------------

  /** Every coin a block adds is in the table, confirmed at that height and no other. */
  ghost predicate AdditionsRecorded(es: seq<Effects>, l: Ledger) {
    forall h, c {:trigger c in es[h].Added()} :: 0 <= h < |es| && c in es[h].Added() ==>
      c in l && l[c].(spent := 0) == NewRecord(c, h, es[h])
  }

  /** Every coin a block spends is in the table, spent at that height and no other. */
  ghost predicate SpendsRecorded(es: seq<Effects>, l: Ledger) {
    forall h, c {:trigger c in es[h].spent} :: 0 <= h < |es| && c in es[h].spent ==>
      0 < h && c in l && l[c].spent == h
  }

  /** Nothing else is in the table, and no coin is spent before it is created. */
  ghost predicate NothingElse(es: seq<Effects>, l: Ledger) {
    forall c :: c in l ==>
      && l[c].confirmed < |es|
      && c in es[l[c].confirmed].Added()
      && (l[c].spent == 0 ||
          (l[c].confirmed <= l[c].spent < |es| && c in es[l[c].spent].spent))
  }

  ghost predicate LedgerOf(es: seq<Effects>, l: Ledger) {
    AdditionsRecorded(es, l) && SpendsRecorded(es, l) && NothingElse(es, l)
  }

  /** A coin's parent is a known coin, spent in the very block that created the child. */
  ghost predicate ParentsSpent(l: Ledger) {
    forall c :: c in l && c.parent.Spent? ==>
      c.parent.coin in l && 0 < l[c].confirmed == l[c.parent.coin].spent
  }

  // ---- one block -----------------------------------------------------------------

  /** What the body checks establish about a block on top of table l, in terms of its effects. */
  ghost predicate StepOk(l: Ledger, h: nat, e: Effects) {
    && (forall c :: c in e.spent ==> c in e.Added() || Unspent(l, c))
    && (forall c :: c in e.created ==> c.parent.Spent? && c.parent.coin in e.spent)
    && (forall c :: c in e.rewards ==> c.parent.Reward? && c !in l)
    && (h == 0 ==> e.rewards == {})
  }

  /** The freshness argument: a coin the block adds was never added before. */
  lemma {:induction false} AddedIsFresh(es: seq<Effects>, l: Ledger, e: Effects, c: Coin)
    requires LedgerOf(es, l) && ParentsSpent(l) && StepOk(l, |es|, e)
    requires c in e.Added()
    ensures c !in l
    decreases c
  {
    if c in e.created && c in l {
      var p := c.parent.coin;
      if p in e.Added() {
        AddedIsFresh(es, l, e, p);
      }
    }
  }

  /** Nothing can be spent in the first block: an ephemeral coin needs an ancestor that is a reward. */
  lemma {:induction false} GenesisAddsNothing(e: Effects, c: Coin)
    requires StepOk(map[], 0, e)
    ensures c !in e.spent && c !in e.Added()
    decreases c
  {
    if c in e.spent || c in e.Added() {
      assert c in e.created;
      GenesisAddsNothing(e, c.parent.coin);
    }
  }

  /** Everything the block adds is new, and the first block does nothing. */
  ghost predicate Fresh(l: Ledger, h: nat, e: Effects) {
    && (forall c :: c in e.Added() ==> c !in l)
    && (h == 0 ==> e.Added() == {} && e.spent == {})
  }

  lemma StepIsFresh(es: seq<Effects>, l: Ledger, e: Effects)
    requires LedgerOf(es, l) && ParentsSpent(l) && StepOk(l, |es|, e)
    ensures Fresh(l, |es|, e)
  {
    forall c | c in e.Added() ensures c !in l {
      AddedIsFresh(es, l, e, c);
    }
    if |es| == 0 {
      assert l == map[];
      forall c ensures c !in e.spent && c !in e.Added() {
        GenesisAddsNothing(e, c);
      }
    }
  }

  /** What Apply does to a coin, by cases. */
  lemma ApplyAt(l: Ledger, h: nat, e: Effects, c: Coin)
    requires Fresh(l, h, e)
    ensures c in Apply(l, h, e) <==> c in l || c in e.Added()
    ensures c in l ==> Apply(l, h, e)[c] == MarkSpent(l[c], c in e.spent, h)
    ensures c in e.Added() ==> Apply(l, h, e)[c] == MarkSpent(NewRecord(c, h, e), c in e.spent, h)
  {
  }

  lemma StepKeepsAdditions(es: seq<Effects>, l: Ledger, e: Effects)
    requires AdditionsRecorded(es, l) && Fresh(l, |es|, e)
    ensures AdditionsRecorded(es + [e], Apply(l, |es|, e))
  {
    var es', l' := es + [e], Apply(l, |es|, e);
    forall h, c | 0 <= h < |es'| && c in es'[h].Added()
      ensures c in l' && l'[c].(spent := 0) == NewRecord(c, h, es'[h])
    {
      ApplyAt(l, |es|, e, c);
      if h < |es| {
        assert c in es[h].Added();
      }
    }
  }

  lemma StepKeepsSpends(es: seq<Effects>, l: Ledger, e: Effects)
    requires SpendsRecorded(es, l) && Fresh(l, |es|, e) && StepOk(l, |es|, e)
    ensures SpendsRecorded(es + [e], Apply(l, |es|, e))
  {
    var es', l' := es + [e], Apply(l, |es|, e);
    forall h, c | 0 <= h < |es'| && c in es'[h].spent
      ensures 0 < h && c in l' && l'[c].spent == h
    {
      ApplyAt(l, |es|, e, c);
      if h < |es| {
        assert c in es[h].spent;
      }
    }
  }

  lemma StepAddsNothingElse(es: seq<Effects>, l: Ledger, e: Effects)
    requires NothingElse(es, l) && Fresh(l, |es|, e)
    ensures NothingElse(es + [e], Apply(l, |es|, e))
  {
    var es', l' := es + [e], Apply(l, |es|, e);
    forall c | c in l'
      ensures l'[c].confirmed < |es'| && c in es'[l'[c].confirmed].Added()
      ensures l'[c].spent == 0 ||
              (l'[c].confirmed <= l'[c].spent < |es'| && c in es'[l'[c].spent].spent)
    {
      ApplyAt(l, |es|, e, c);
    }
  }

  lemma StepKeepsParents(l: Ledger, h: nat, e: Effects)
    requires ParentsSpent(l) && Fresh(l, h, e) && StepOk(l, h, e)
    ensures ParentsSpent(Apply(l, h, e))
  {
    var l' := Apply(l, h, e);
    forall c | c in l' && c.parent.Spent?
      ensures c.parent.coin in l' && 0 < l'[c].confirmed == l'[c.parent.coin].spent
    {
      ApplyAt(l, h, e, c);
      ApplyAt(l, h, e, c.parent.coin);
    }
  }

  /** One accepted block keeps the characterisation and the parent rule. */
  lemma StepKeepsLedger(es: seq<Effects>, l: Ledger, e: Effects)
    requires LedgerOf(es, l) && ParentsSpent(l) && StepOk(l, |es|, e)
    ensures LedgerOf(es + [e], Apply(l, |es|, e)) && ParentsSpent(Apply(l, |es|, e))
  {
    StepIsFresh(es, l, e);
    StepKeepsAdditions(es, l, e);
    StepKeepsSpends(es, l, e);
    StepAddsNothingElse(es, l, e);
    StepKeepsParents(l, |es|, e);
  }

  /** Every block's effects pass the checks against the table of the blocks before it. */
  ghost predicate Sound(es: seq<Effects>) {
    forall h {:trigger StepOk(Replay(es[..h]), h, es[h])} :: 0 <= h < |es| ==> StepOk(Replay(es[..h]), h, es[h])
  }

  lemma SoundPrefix(es: seq<Effects>, n: nat)
    requires Sound(es) && n <= |es|
    ensures Sound(es[..n])
  {
    hide StepOk, Replay;
    forall h | 0 <= h < n ensures StepOk(Replay(es[..n][..h]), h, es[..n][h]) {
      assert es[..n][..h] == es[..h];
      assert StepOk(Replay(es[..h]), h, es[h]);
    }
  }

  lemma SoundSnoc(es: seq<Effects>, e: Effects)
    requires Sound(es) && StepOk(Replay(es), |es|, e)
    ensures Sound(es + [e])
  {
    hide StepOk, Replay;
    var es' := es + [e];
    forall h | 0 <= h < |es'| ensures StepOk(Replay(es'[..h]), h, es'[h]) {
      assert es'[..h] == es[..h];
      if h < |es| {
        assert StepOk(Replay(es[..h]), h, es[h]);
      } else {
        assert es[..h] == es;
      }
    }
  }

  /** Replaying gives the table that the characterisation describes. */
  lemma {:induction false} ReplayIsLedger(es: seq<Effects>)
    requires Sound(es)
    ensures LedgerOf(es, Replay(es)) && ParentsSpent(Replay(es))
  {
    if es != [] {
      hide StepOk, Apply, LedgerOf, ParentsSpent;
      var n := |es| - 1;
      SoundPrefix(es, n);
      ReplayIsLedger(es[..n]);
      assert StepOk(Replay(es[..n]), n, es[n]);
      StepKeepsLedger(es[..n], Replay(es[..n]), es[n]);
      assert es[..n] + [es[n]] == es;
    }
  }

  /** The characterisation leaves no choice. */
  lemma LedgerIsUnique(es: seq<Effects>, l1: Ledger, l2: Ledger)
    requires LedgerOf(es, l1) && LedgerOf(es, l2)
    ensures l1 == l2
  {
    forall c | c in l1 ensures c in l2 && l1[c] == l2[c] {
      assert c in es[l1[c].confirmed].Added();
      assert l1[c].spent == l2[c].spent;
    }
    forall c | c in l2 ensures c in l1 {
      assert c in es[l2[c].confirmed].Added();
    }
  }

  // ---- whole runs -------------------------------------------------------------------

  /** Over a whole chain: no coin is created twice or spent twice, and none is spent before it exists. */
  lemma CreatedOnceSpentOnce(es: seq<Effects>, h1: nat, h2: nat, c: Coin)
    requires Sound(es) && h1 < |es| && h2 < |es|
    ensures c in es[h1].Added() && c in es[h2].Added() ==> h1 == h2
    ensures c in es[h1].spent && c in es[h2].spent ==> h1 == h2
    ensures c in es[h2].spent ==> exists h :: 0 <= h <= h2 && c in es[h].Added()
  {
    ReplayIsLedger(es);
    if c in es[h2].spent {
      assert c in es[Replay(es)[c].confirmed].Added();
    }
  }

  // ---- rolling back -------------------------------------------------------------------

  /** The table cut off after a height: later coins dropped, later spends undone. */
  function RolledBack(l: Ledger, height: int): Ledger {
    map c | c in l && l[c].confirmed <= height ::
      if l[c].spent > height then l[c].(spent := 0) else l[c]
  }

  lemma RolledBackIsLedger(es: seq<Effects>, l: Ledger, height: int)
    requires LedgerOf(es, l) && -1 <= height < |es|
    ensures LedgerOf(es[..height + 1], RolledBack(l, height))
  {
    var short, cut := es[..height + 1], RolledBack(l, height);
    forall h, c | 0 <= h < |short| && c in short[h].spent
      ensures 0 < h && c in cut && cut[c].spent == h
    {
      assert c in es[h].spent;
    }
    forall h, c | 0 <= h < |short| && c in short[h].Added()
      ensures c in cut && cut[c].(spent := 0) == NewRecord(c, h, short[h])
    {
      assert c in es[h].Added();
    }
  }

  /** Cutting the table of a chain off at a height gives the table of the shorter chain. */
  lemma RollBackIsReplay(es: seq<Effects>, height: int)
    requires Sound(es) && -1 <= height < |es|
    ensures RolledBack(Replay(es), height) == Replay(es[..height + 1])
  {
    ReplayIsLedger(es);
    RolledBackIsLedger(es, Replay(es), height);
    SoundPrefix(es, height + 1);
    ReplayIsLedger(es[..height + 1]);
    LedgerIsUnique(es[..height + 1], RolledBack(Replay(es), height), Replay(es[..height + 1]));
  }
}
