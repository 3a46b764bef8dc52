/** The block table that a node keeps, as validate_v2 sees it. */
module NodeDatabase {
  import opened Types
  import opened Headers
  import opened Bodies
  import opened BlockStore
  import opened Blockchains
  import opened DbValidate

  function RowOf(b: Block, inMainChain: set<Hash>): Row {
    Row(b.hash, b.prevHash, b.height, b.hash in inMainChain,
        Blob(b.hash, b.prevHash, b.height, b.totalIters, b.hash, b.prevHash, b.totalIters))
  }

  /** A cursor over the stored blocks, highest first. */
  ghost predicate Lists(cursor: seq<Row>, store: Store, inMainChain: set<Hash>) {
    && SortedDescending(cursor)
    && PrimaryKey(cursor)
    && (forall j {:trigger IsStored(cursor[j], store, inMainChain)} :: 0 <= j < |cursor| ==>
          IsStored(cursor[j], store, inMainChain))
    && (forall h :: h in store ==> RowOf(store[h], inMainChain) in cursor)
  }

  ghost predicate IsStored(r: Row, store: Store, inMainChain: set<Hash>) {
    r.hash in store && r == RowOf(store[r.hash], inMainChain)
  }

  /** The main chain's rows, highest first. */
  function MainRows(main: seq<Block>, inMainChain: set<Hash>): seq<Row> {
    seq(|main|, i requires 0 <= i < |main| => RowOf(main[|main| - 1 - i], inMainChain))
  }

  lemma MainRowsLinked(k: Constants, store: Store, peak: Hash, inMainChain: set<Hash>)
    requires Linked(store) && AllValid(k, store) && peak in store
    ensures LinkedDown(MainRows(ChainTo(store, peak), inMainChain))
  {
    hide AllValid, Linked, ChainTo;
    var main := ChainTo(store, peak);
    var rows := MainRows(main, inMainChain);
    StoredBlocks(k, store, peak);
    forall i | 0 <= i < |rows| - 1 ensures LinkAt(rows, i) {
      var n := |main| - 1 - i;
      StepBack(store, peak, n);
      assert rows[i] == RowOf(main[n], inMainChain) && rows[i + 1] == RowOf(main[n - 1], inMainChain);
    }
  }

  /** A stored block is flagged exactly when its row is one of the main chain's rows. */
  lemma FlaggedIsMain(k: Constants, store: Store, peak: Hash, inMainChain: set<Hash>, r: Row)
    requires Linked(store) && AllValid(k, store) && peak in store && inMainChain == Hashes(ChainTo(store, peak))
    requires IsStored(r, store, inMainChain)
    ensures r.inMainChain <==> r in MainRows(ChainTo(store, peak), inMainChain)
  {
    hide AllValid, Linked, ChainTo, StoredAt;
    StoredBlocks(k, store, peak);
    FlaggedRowOf(store, ChainTo(store, peak), inMainChain, r);
  }

  lemma FlaggedRowOf(store: Store, main: seq<Block>, inMainChain: set<Hash>, r: Row)
    requires StoredAt(store, main) && inMainChain == Hashes(main) && IsStored(r, store, inMainChain)
    ensures r.inMainChain <==> r in MainRows(main, inMainChain)
  {
    var rows := MainRows(main, inMainChain);
    if r.inMainChain {
      var i :| 0 <= i < |main| && main[i].hash == r.hash;
      assert rows[|main| - 1 - i] == r;
    }
    if r in rows {
      var i :| 0 <= i < |rows| && rows[i] == r;
      assert rows[i] == RowOf(main[|main| - 1 - i], inMainChain);
    }
  }

  lemma MainRowsMarked(k: Constants, store: Store, peak: Hash, inMainChain: set<Hash>, cursor: seq<Row>)
    requires Linked(store) && AllValid(k, store) && peak in store && inMainChain == Hashes(ChainTo(store, peak))
    requires Lists(cursor, store, inMainChain)
    ensures Marked(cursor, store[peak].height, MainRows(ChainTo(store, peak), inMainChain))
  {
    hide AllValid, Linked, ChainTo;
    var main, top := ChainTo(store, peak), store[peak].height;
    var rows := MainRows(main, inMainChain);
    StoredBlocks(k, store, peak);
    forall j | 0 <= j < |cursor| ensures RowOk(cursor[j], top, rows) {
      assert IsStored(cursor[j], store, inMainChain);
      FlaggedIsMain(k, store, peak, inMainChain, cursor[j]);
      if cursor[j].height <= top {
        assert rows[top - cursor[j].height].height == cursor[j].height;
      }
    }
    forall i | 0 <= i < |rows| ensures InTable(cursor, rows[i]) && rows[i].height <= top {
      assert main[|main| - 1 - i].hash in store;
    }
  }

  lemma MainRowsAreChain(k: Constants, store: Store, peak: Hash, inMainChain: set<Hash>, cursor: seq<Row>)
    requires Linked(store) && AllValid(k, store) && peak in store && inMainChain == Hashes(ChainTo(store, peak))
    requires Lists(cursor, store, inMainChain)
    ensures IsMainChain(cursor, peak, store[peak].height, k.genesisChallenge,
                        MainRows(ChainTo(store, peak), inMainChain))
  {
    hide AllValid, Linked, ChainTo, Marked, LinkedDown, Hashes, Lists;
    var main := ChainTo(store, peak);
    var rows := MainRows(main, inMainChain);
    assert rows[0] == RowOf(main[|main| - 1], inMainChain) && rows[|main| - 1] == RowOf(main[0], inMainChain);
    StoredBlocks(k, store, peak);
    GenesisLink(k, store, peak);
    MainRowsLinked(k, store, peak, inMainChain);
    MainRowsMarked(k, store, peak, inMainChain, cursor);
    StoredUnderHash(store, peak);
  }

  lemma BlobsAreOk(cursor: seq<Row>, store: Store, main: seq<Block>, top: nat, inMainChain: set<Hash>)
    requires Lists(cursor, store, inMainChain)
    ensures BlobsOk(cursor, top, MainRows(main, inMainChain))
  {
    forall j | 0 <= j < |cursor| ensures BlobOk(cursor[j]) {
      assert IsStored(cursor[j], store, inMainChain);
    }
    var rows := MainRows(main, inMainChain);
    assert forall i :: 0 <= i < |rows| ==> rows[i] == RowOf(main[|main| - 1 - i], inMainChain);
  }

  /** Whatever main chain the table is read as having, it ends at the node's genesis block. */
  lemma EndsAtGenesis(k: Constants, store: Store, peak: Hash, inMainChain: set<Hash>, cursor: seq<Row>, genesis: Hash,
                      chain: seq<Row>)
    requires Linked(store) && AllValid(k, store) && peak in store && inMainChain == Hashes(ChainTo(store, peak))
    requires Lists(cursor, store, inMainChain)
    requires IsMainChain(cursor, peak, store[peak].height, genesis, chain)
    ensures genesis == k.genesisChallenge
  {
    hide AllValid, Linked, ChainTo, Marked, LinkedDown, Hashes;
    var main, top, n := ChainTo(store, peak), store[peak].height, |chain| - 1;
    var j := ChainRow(cursor, peak, top, genesis, chain, n);
    assert IsStored(cursor[j], store, inMainChain);
    FlaggedIsMain(k, store, peak, inMainChain, cursor[j]);
    FlaggedRow(cursor, peak, top, genesis, chain, j);
    var rows := MainRows(main, inMainChain);
    var i :| 0 <= i < |rows| && rows[i] == cursor[j];
    assert rows[i] == RowOf(main[|main| - 1 - i], inMainChain);
    StoredBlocks(k, store, peak);
    GenesisLink(k, store, peak);
  }

  /**
   After any sequence of added blocks, with whatever reorganisations, the node's own block
   table is a valid database for validate_v2, decoding the blocks or not, exactly when the
   chain's genesis challenge is the one validate_v2 expects.
   */
  lemma NodeTableIsValid(k: Constants, store: Store, peak: Hash, inMainChain: set<Hash>, cursor: seq<Row>,
                         genesis: Hash, blocks: bool)
    requires Linked(store) && AllValid(k, store) && peak in store && inMainChain == Hashes(ChainTo(store, peak))
    requires Lists(cursor, store, inMainChain)
    ensures ValidTable(cursor, peak, store[peak].height, genesis, blocks) <==> k.genesisChallenge == genesis
  {
    hide AllValid, Linked, ChainTo, Hashes, Lists, IsMainChain, BlobsOk, MainRows;
    var main, top := ChainTo(store, peak), store[peak].height;
    MainRowsAreChain(k, store, peak, inMainChain, cursor);
    BlobsAreOk(cursor, store, main, top, inMainChain);
    if ValidTable(cursor, peak, top, genesis, blocks) {
      var chain :| IsMainChain(cursor, peak, top, genesis, chain);
      EndsAtGenesis(k, store, peak, inMainChain, cursor, genesis, chain);
    }
  }

  lemma FlaggedRow(rows: seq<Row>, peak: Hash, peakHeight: nat, genesis: Hash, chain: seq<Row>, j: nat)
    requires IsMainChain(rows, peak, peakHeight, genesis, chain) && j < |rows| && rows[j] == chain[|chain| - 1]
    ensures rows[j].inMainChain
  {
    assert RowOk(rows[j], peakHeight, chain);
    assert InTable(rows, chain[|chain| - 1]);
  }

  lemma GenesisLink(k: Constants, store: Store, peak: Hash)
    requires Linked(store) && AllValid(k, store) && peak in store
    ensures ChainTo(store, peak)[0].prevHash == k.genesisChallenge && ChainTo(store, peak)[0].height == 0
  {
    hide AllValid, Linked, ChainTo, ValidChain, BodyAccepted, WeightRule, IterRule, SlotRule, BlockCountRule;
    hide InfusionRule, DeficitRule, TxRule, TxLinkRule;
    BlockOnBranch(k, store, peak, 0);
    assert ChainTo(store, peak)[..0] == [];
  }
}
