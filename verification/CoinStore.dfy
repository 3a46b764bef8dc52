/** The coin table of the main chain (coin_store.py); the SQL statements are map updates. */
module CoinStores {
  import opened Types
  import opened CoinLedger

  /** INSERT INTO coin_record, for the created and for the reward coins. */
  function Inserted(l: Ledger, h: nat, e: Effects): Ledger {
    l + (map c | c in e.created :: CoinRecord(c, h, 0, false, e.timestamp))
      + (map c | c in e.rewards :: CoinRecord(c, h, 0, true, e.timestamp))
  }

  /** UPDATE coin_record SET spent_index = h WHERE spent_index = 0 AND coin_name IN names */
  function SetSpent(l: Ledger, h: nat, names: set<Coin>): Ledger {
    map c | c in l :: if c in names && l[c].spent == 0 then l[c].(spent := h) else l[c]
  }

  lemma InsertAndSpendIsApply(l: Ledger, h: nat, e: Effects)
    requires forall c :: c in e.Added() ==> c !in l
    ensures SetSpent(Inserted(l, h, e), h, e.spent) == Apply(l, h, e)
  {
    var both := SetSpent(Inserted(l, h, e), h, e.spent);
    assert both.Keys == l.Keys + e.Added();
    forall c | c in both ensures both[c] == Apply(l, h, e)[c] {
      assert c in e.Added() ==> Inserted(l, h, e)[c] == NewRecord(c, h, e);
    }
  }

  /** What the inserts and the update of new_block need in order not to raise. */
  ghost predicate CanApplyTo(l: Ledger, height: nat, e: Effects) {
    && (if height == 0 then e.rewards == {} else |e.rewards| >= 2)
    && e.rewards !! e.created
    && (forall c :: c in e.Added() ==> c !in l)
    && (e.spent == {} || height > 0)
    && (forall c :: c in e.spent ==> c in e.Added() || Unspent(l, c))
  }

  /** The list of changed coins that a rollback reports; a removed coin is reported as never confirmed. */
  function Changes(l: Ledger, height: int): Ledger {
    map c | c in l && (l[c].confirmed > height || l[c].spent > height) ::
      if l[c].confirmed > height then l[c].(confirmed := 0, timestamp := 0) else l[c].(spent := 0)
  }

  /** It reports exactly the coins whose record is removed or changed, with the record they have now. */
  lemma ChangesAreReported(l: Ledger, height: int, c: Coin)
    requires height >= -1
    ensures var after := RolledBack(l, height);
            && (c in Changes(l, height) <==> c in l && (c !in after || after[c] != l[c]))
            && (c in Changes(l, height) && c in after ==> Changes(l, height)[c] == after[c])
            && (c in Changes(l, height) && c !in after ==>
                  Changes(l, height)[c] == CoinRecord(l[c].coin, 0, l[c].spent, l[c].coinbase, 0))
  {
  }

  class CoinStore {
    var records: Ledger

    constructor ()
      ensures records == map[]
    {
      records := map[];
    }

    /** Every record is stored under its coin's name. */
    ghost predicate Keyed()
      reads this
    {
      forall c :: c in records ==> records[c].coin == c
    }

    /** One row per known name; unknown names are skipped. */
    method GetCoinRecords(names: seq<Coin>) returns (found: seq<CoinRecord>)
      requires Keyed() && NoDuplicates(names)
      ensures forall i :: 0 <= i < |found| ==> found[i].coin in names && found[i].coin in records
                                               && found[i] == records[found[i].coin]
      ensures forall c :: c in names && c in records ==> records[c] in found
      ensures |found| == |names| ==> forall c :: c in names ==> c in records
      ensures NoDuplicates(found)
    {
      found := [];
      for i := 0 to |names|
        invariant |found| <= i
        invariant forall j :: 0 <= j < |found| ==> found[j].coin in names[..i]
        invariant NoDuplicates(found)
        invariant forall j :: 0 <= j < |found| ==> found[j].coin in names && found[j].coin in records
                                                   && found[j] == records[found[j].coin]
        invariant forall j :: 0 <= j < i && names[j] in records ==> records[names[j]] in found
        invariant |found| == i ==> forall j :: 0 <= j < i ==> names[j] in records
      {
        assert names[..i + 1] == names[..i] + [names[i]];
        assert names[i] !in names[..i];
        if names[i] in records {
          found := found + [records[names[i]]];
        }
      }
    }

    /** Adds a transaction block's coins and marks its spends; never raises when CanApplyTo. */
    method NewBlock(height: nat, timestamp: nat, rewards: set<Coin>, created: set<Coin>, spent: set<Coin>)
      requires CanApplyTo(records, height, Effects(rewards, created, spent, timestamp))
      modifies this
      ensures records == Apply(old(records), height, Effects(rewards, created, spent, timestamp))
    {
      hide Apply;
      ghost var before := records;
      var e := Effects(rewards, created, spent, timestamp);
      records := Inserted(records, height, e);
      assert forall c :: c in spent ==> c in records && records[c].spent == 0;
      records := SetSpent(records, height, spent);
      InsertAndSpendIsApply(before, height, e);
    }

    /** Undoes everything after a height, which is -1 when nothing is kept, and hands back the records it changed. */
    method RollbackToBlock(height: int) returns (changes: Ledger)
      modifies this
      ensures records == RolledBack(old(records), height)
      ensures changes == Changes(old(records), height)
    {
      changes := map c | c in records && records[c].confirmed > height :: records[c].(confirmed := 0, timestamp := 0);
      // DELETE FROM coin_record WHERE confirmed_index > height
      records := map c | c in records && records[c].confirmed <= height :: records[c];
      changes := changes + (map c | c in records && records[c].spent > height :: records[c].(spent := 0));
      // UPDATE coin_record SET spent_index = 0 WHERE spent_index > height
      records := map c | c in records :: if records[c].spent > height then records[c].(spent := 0) else records[c];
    }
  }
}
