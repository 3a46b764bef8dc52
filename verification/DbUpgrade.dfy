/** convert_v1_to_v2 of db_upgrade_func.py: the block walk over two cursors, and the coin snapshot. */
module DbUpgrade {
  import opened Types
  import opened CoinLedger
  import opened Bodies
  import opened BodyTheorems
  import opened DbValidate

  /** A row of the v1 table block_records, with what its stored record decodes to. */
  datatype RecordRow = RecordRow(hash: Hash, prevHash: Hash, height: nat, isPeak: bool,
                                 recordHash: Hash, recordPrevHash: Hash, recordTotalIters: nat)

  /** A row of the v1 table full_blocks, with what its stored block decodes to. */
  datatype BlockRow = BlockRow(hash: Hash, height: nat,
                               blockHash: Hash, blockPrevHash: Hash, blockHeight: nat, blockTotalIters: nat)

  predicate RecordsSorted(rows: seq<RecordRow>) {
    forall i, j :: 0 <= i < j < |rows| ==> rows[i].height >= rows[j].height
  }

  predicate BlocksSorted(rows: seq<BlockRow>) {
    forall i, j :: 0 <= i < j < |rows| ==> rows[i].height >= rows[j].height
  }

  predicate RecordsKeyed(rows: seq<RecordRow>) { forall i, j :: 0 <= i < j < |rows| ==> rows[i].hash != rows[j].hash }
  predicate BlocksKeyed(rows: seq<BlockRow>) { forall i, j :: 0 <= i < j < |rows| ==> rows[i].hash != rows[j].hash }

  /** The v2 row written for a record and its block: always flagged as main chain. */
  function V2Row(r: RecordRow, b: BlockRow): Row {
    Row(r.hash, r.prevHash, b.height, true,
        Blob(b.blockHash, b.blockPrevHash, b.blockHeight, b.blockTotalIters,
             r.recordHash, r.recordPrevHash, r.recordTotalIters))
  }

  datatype Outcome =
    | Rows(rows: seq<Row>)
    | NoPeak                     // there is no blockchain to convert
    | BlockNotFound              // the second cursor ran out
    | HeightAssertion            // the block is not one below the previous one
    | DivisionByZero             // the progress line at peak height 0

  function Prepend(r: Row, o: Outcome): Outcome { if o.Rows? then Rows([r] + o.rows) else o }

  /** The first position of a hash, or the length. */
  function Find(blocks: seq<BlockRow>, h: Hash): (j: nat)
    ensures j <= |blocks| && (j < |blocks| ==> blocks[j].hash == h)
    ensures forall i :: 0 <= i < j ==> blocks[i].hash != h
  {
    if blocks == [] || blocks[0].hash == h then 0 else 1 + Find(blocks[1..], h)
  }

  /** What the walk does from here on: the rows it writes, or how it stops. */
  function Follow(records: seq<RecordRow>, blocks: seq<BlockRow>, hh: Hash, height: int, peakHeight: nat): Outcome {
    if records == [] then Rows([])
    else if records[0].hash != hh then Follow(records[1..], blocks, hh, height, peakHeight)
    else
      var j := Find(blocks, hh);
      if j == |blocks| then BlockNotFound
      else if blocks[j].height != height - 1 then HeightAssertion
      else if blocks[j].height % 1000 == 0 && peakHeight == 0 then DivisionByZero
      else Prepend(V2Row(records[0], blocks[j]),
                   Follow(records[1..], blocks[j + 1..], records[0].prevHash, height - 1, peakHeight))
  }

  // ---- whatever is written is a chain ---------------------------------------------------------

  ghost predicate LinksAt(rows: seq<Row>, i: nat)
    requires i + 1 < |rows|
  {
    rows[i].prevHash == rows[i + 1].hash
  }

  /** Linked rows at heights height - 1, height - 2, ..., all flagged, starting at a hash. */
  ghost predicate ChainFrom(rows: seq<Row>, hh: Hash, height: int) {
    && (rows != [] ==> rows[0].hash == hh)
    && (forall i :: 0 <= i < |rows| ==> rows[i].height == height - 1 - i && rows[i].inMainChain)
    && (forall i {:trigger LinksAt(rows, i)} :: 0 <= i < |rows| - 1 ==> LinksAt(rows, i))
  }

  lemma {:induction false} FollowIsChain(records: seq<RecordRow>, blocks: seq<BlockRow>, hh: Hash, height: int,
                                         peakHeight: nat)
    requires Follow(records, blocks, hh, height, peakHeight).Rows?
    ensures ChainFrom(Follow(records, blocks, hh, height, peakHeight).rows, hh, height)
  {
    if records != [] {
      if records[0].hash != hh {
        FollowIsChain(records[1..], blocks, hh, height, peakHeight);
      } else {
        var j := Find(blocks, hh);
        FollowIsChain(records[1..], blocks[j + 1..], records[0].prevHash, height - 1, peakHeight);
        var rest := Follow(records[1..], blocks[j + 1..], records[0].prevHash, height - 1, peakHeight).rows;
        var rows := [V2Row(records[0], blocks[j])] + rest;
        forall i | 0 <= i < |rows| - 1 ensures LinksAt(rows, i) {
          assert i > 0 ==> LinksAt(rest, i - 1);
        }
      }
    }
  }

  /** The peak's row is written, since its record is in the table. */
  lemma {:induction false} FollowStarts(records: seq<RecordRow>, blocks: seq<BlockRow>, hh: Hash, height: int,
                                        peakHeight: nat)
    requires Follow(records, blocks, hh, height, peakHeight).Rows?
    requires exists i :: 0 <= i < |records| && records[i].hash == hh
    ensures Follow(records, blocks, hh, height, peakHeight).rows != []
  {
    if records[0].hash != hh {
      var i :| 0 <= i < |records| && records[i].hash == hh;
      assert records[1..][i - 1].hash == hh;
      FollowStarts(records[1..], blocks, hh, height, peakHeight);
    }
  }

  // ---- what the v1 tables must hold -----------------------------------------------------------------

  /** Both cursors are ordered by height, and hashes are primary keys. */
  predicate TablesOk(records: seq<RecordRow>, blocks: seq<BlockRow>) {
    RecordsSorted(records) && RecordsKeyed(records) && BlocksSorted(blocks) && BlocksKeyed(blocks)
  }

  /** A record and a block with the same hash were stored with the same height. */
  predicate HeightsAgree(records: seq<RecordRow>, blocks: seq<BlockRow>) {
    forall i, j :: 0 <= i < |records| && 0 <= j < |blocks| && records[i].hash == blocks[j].hash ==>
      records[i].height == blocks[j].height
  }

  ghost predicate HasBlock(blocks: seq<BlockRow>, h: Hash, height: nat) {
    exists j :: 0 <= j < |blocks| && blocks[j].hash == h && blocks[j].height == height
  }

  /** One record of the chain: in both tables at its height, and linked to the next. */
  ghost predicate ChainRecordOk(records: seq<RecordRow>, blocks: seq<BlockRow>, height: int, chain: seq<RecordRow>,
                                i: nat)
    requires i < |chain|
  {
    && chain[i] in records && chain[i].height == height - 1 - i
    && HasBlock(blocks, chain[i].hash, chain[i].height)
    && (i + 1 < |chain| ==> chain[i].prevHash == chain[i + 1].hash)
  }

  /** No record after the chain's last one continues it. */
  ghost predicate EndsThere(records: seq<RecordRow>, hh: Hash, chain: seq<RecordRow>) {
    if chain == [] then forall j :: 0 <= j < |records| ==> records[j].hash != hh
    else
      var last := chain[|chain| - 1];
      forall i, j :: 0 <= i < j < |records| && records[i] == last ==> records[j].hash != last.prevHash
  }

  /** From a hash downwards: linked records, one per height, blocks for all of them, and nothing that continues them. */
  ghost predicate Traced(records: seq<RecordRow>, blocks: seq<BlockRow>, hh: Hash, height: int, chain: seq<RecordRow>) {
    && (chain != [] ==> chain[0].hash == hh)
    && (forall i {:trigger ChainRecordOk(records, blocks, height, chain, i)} :: 0 <= i < |chain| ==>
          ChainRecordOk(records, blocks, height, chain, i))
    && EndsThere(records, hh, chain)
  }

  /** The same, down to height 0. */
  ghost predicate WellFormed(records: seq<RecordRow>, blocks: seq<BlockRow>, hh: Hash, height: int,
                             chain: seq<RecordRow>) {
    Traced(records, blocks, hh, height, chain) && |chain| == height
  }

  // ---- a traced chain is written --------------------------------------------------------------------

  lemma PassOverRecord(records: seq<RecordRow>, blocks: seq<BlockRow>, height: int, chain: seq<RecordRow>, i: nat)
    requires RecordsSorted(records) && RecordsKeyed(records) && records != [] && i < |chain|
    requires records[0].hash != chain[0].hash && ChainRecordOk(records, blocks, height, chain, i)
    requires ChainRecordOk(records, blocks, height, chain, 0)
    ensures ChainRecordOk(records[1..], blocks, height, chain, i)
  {
    var m :| 0 <= m < |records| && records[m] == chain[i];
    var m0 :| 0 <= m0 < |records| && records[m0] == chain[0];
    assert m > 0;
    assert records[1..][m - 1] == chain[i];
  }

  /** A record that is not the next of the chain can be passed over. */
  lemma PassOver(records: seq<RecordRow>, blocks: seq<BlockRow>, hh: Hash, height: int, chain: seq<RecordRow>)
    requires TablesOk(records, blocks) && Traced(records, blocks, hh, height, chain)
    requires records != [] && records[0].hash != hh
    ensures TablesOk(records[1..], blocks) && Traced(records[1..], blocks, hh, height, chain)
  {
    hide ChainRecordOk;
    forall i | 0 <= i < |chain| ensures ChainRecordOk(records[1..], blocks, height, chain, i) {
      assert ChainRecordOk(records, blocks, height, chain, i) && ChainRecordOk(records, blocks, height, chain, 0);
      PassOverRecord(records, blocks, height, chain, i);
    }
    assert forall m :: 0 <= m < |records| - 1 ==> records[1..][m] == records[m + 1];
  }

  lemma FirstTaken(records: seq<RecordRow>, blocks: seq<BlockRow>, hh: Hash, height: int, chain: seq<RecordRow>)
    requires TablesOk(records, blocks) && Traced(records, blocks, hh, height, chain)
    requires records != [] && records[0].hash == hh
    ensures chain != [] && records[0] == chain[0] && chain[0].height == height - 1
    ensures |chain| > 1 ==> chain[0].prevHash == chain[1].hash
    ensures Find(blocks, hh) < |blocks| && blocks[Find(blocks, hh)].height == height - 1
  {
    assert chain != [];
    assert ChainRecordOk(records, blocks, height, chain, 0);
    var m :| 0 <= m < |records| && records[m] == chain[0];
    var n :| 0 <= n < |blocks| && blocks[n].hash == hh && blocks[n].height == height - 1;
  }

  lemma RestOk(records: seq<RecordRow>, blocks: seq<BlockRow>, height: int, chain: seq<RecordRow>, j: nat, i: nat)
    requires RecordsSorted(records) && BlocksSorted(blocks) && records != []
    requires 0 < i < |chain| && ChainRecordOk(records, blocks, height, chain, i)
    requires records[0].height == height - 1 && j < |blocks| && blocks[j].height == height - 1
    ensures ChainRecordOk(records[1..], blocks[j + 1..], height - 1, chain[1..], i - 1)
  {
    var m :| 0 <= m < |records| && records[m] == chain[i];
    assert records[1..][m - 1] == chain[1..][i - 1];
    var n :| 0 <= n < |blocks| && blocks[n].hash == chain[i].hash && blocks[n].height == chain[i].height;
    assert n > j;
    assert blocks[j + 1..][n - j - 1] == blocks[n];
  }

  /** The end of the chain stays its end when the first record is taken. */
  lemma StillEndsThere(records: seq<RecordRow>, hh: Hash, chain: seq<RecordRow>)
    requires records != [] && chain != [] && records[0] == chain[0] && EndsThere(records, hh, chain)
    ensures EndsThere(records[1..], records[0].prevHash, chain[1..])
  {
    var rest, tail := records[1..], chain[1..];
    assert forall m :: 0 <= m < |rest| ==> rest[m] == records[m + 1];
    assert tail != [] ==> tail[|tail| - 1] == chain[|chain| - 1];
  }

  /** The next record of the chain is taken with its block; the rest is found further on in both cursors. */
  lemma TakeNext(records: seq<RecordRow>, blocks: seq<BlockRow>, hh: Hash, height: int, chain: seq<RecordRow>)
    requires TablesOk(records, blocks) && Traced(records, blocks, hh, height, chain)
    requires records != [] && records[0].hash == hh
    ensures chain != [] && records[0] == chain[0]
    ensures Find(blocks, hh) < |blocks| && blocks[Find(blocks, hh)].height == height - 1
    ensures TablesOk(records[1..], blocks[Find(blocks, hh) + 1..])
    ensures Traced(records[1..], blocks[Find(blocks, hh) + 1..], records[0].prevHash, height - 1, chain[1..])
  {
    hide ChainRecordOk, EndsThere;
    FirstTaken(records, blocks, hh, height, chain);
    StillEndsThere(records, hh, chain);
    var j := Find(blocks, hh);
    var rest, later, tail, below := records[1..], blocks[j + 1..], chain[1..], height - 1;
    forall i | 0 <= i < |tail| ensures ChainRecordOk(rest, later, below, tail, i) {
      assert ChainRecordOk(records, blocks, height, chain, i + 1);
      RestOk(records, blocks, height, chain, j, i + 1);
    }
  }

  /** The v2 row of a record and the block with its hash. */
  ghost predicate WrittenFrom(blocks: seq<BlockRow>, r: RecordRow, row: Row) {
    exists j :: 0 <= j < |blocks| && blocks[j].hash == r.hash && row == V2Row(r, blocks[j])
  }

  ghost predicate AllWritten(blocks: seq<BlockRow>, chain: seq<RecordRow>, rows: seq<Row>) {
    |rows| == |chain| && forall i :: 0 <= i < |chain| ==> WrittenFrom(blocks, chain[i], rows[i])
  }

  lemma WrittenFirst(blocks: seq<BlockRow>, j: nat, r: RecordRow, chain: seq<RecordRow>, rows: seq<Row>)
    requires j < |blocks| && blocks[j].hash == r.hash && chain != [] && chain[0] == r
    requires AllWritten(blocks[j + 1..], chain[1..], rows)
    ensures AllWritten(blocks, chain, [V2Row(r, blocks[j])] + rows)
  {
    var all, later := [V2Row(r, blocks[j])] + rows, blocks[j + 1..];
    forall i | 0 <= i < |chain| ensures WrittenFrom(blocks, chain[i], all[i]) {
      if i > 0 {
        assert WrittenFrom(later, chain[1..][i - 1], rows[i - 1]);
        var m :| 0 <= m < |later| && later[m].hash == chain[i].hash && rows[i - 1] == V2Row(chain[i], later[m]);
        assert blocks[j + 1 + m] == later[m];
      }
    }
  }

  /** Whatever chain the tables trace, the walk writes it, and no more. */
  lemma {:induction false} FollowWritesChain(records: seq<RecordRow>, blocks: seq<BlockRow>, hh: Hash, height: int,
                                             peakHeight: nat, chain: seq<RecordRow>)
    requires TablesOk(records, blocks) && Traced(records, blocks, hh, height, chain) && peakHeight > 0
    ensures Follow(records, blocks, hh, height, peakHeight).Rows?
    ensures AllWritten(blocks, chain, Follow(records, blocks, hh, height, peakHeight).rows)
  {
    hide Traced, TablesOk, AllWritten;
    if records == [] {
      NothingLeft(blocks, hh, height, chain);
    } else if records[0].hash != hh {
      PassOver(records, blocks, hh, height, chain);
      FollowWritesChain(records[1..], blocks, hh, height, peakHeight, chain);
    } else {
      TakeNext(records, blocks, hh, height, chain);
      var j := Find(blocks, hh);
      FollowWritesChain(records[1..], blocks[j + 1..], records[0].prevHash, height - 1, peakHeight, chain[1..]);
      var rest := Follow(records[1..], blocks[j + 1..], records[0].prevHash, height - 1, peakHeight).rows;
      WrittenFirst(blocks, j, records[0], chain, rest);
    }
  }

  lemma NothingLeft(blocks: seq<BlockRow>, hh: Hash, height: int, chain: seq<RecordRow>)
    requires Traced([], blocks, hh, height, chain)
    ensures chain == [] && AllWritten(blocks, chain, [])
  {
    assert chain != [] ==> ChainRecordOk([], blocks, height, chain, 0);
  }

  // ---- whatever is written was traced ------------------------------------------------------------------

  lemma TracedLater(records: seq<RecordRow>, blocks: seq<BlockRow>, hh: Hash, height: int, chain: seq<RecordRow>)
    requires records != [] && records[0].hash != hh && RecordsKeyed(records)
    requires Traced(records[1..], blocks, hh, height, chain)
    ensures Traced(records, blocks, hh, height, chain)
  {
    var rest := records[1..];
    forall i | 0 <= i < |chain| ensures ChainRecordOk(records, blocks, height, chain, i) {
      assert ChainRecordOk(rest, blocks, height, chain, i);
      var m :| 0 <= m < |rest| && rest[m] == chain[i];
      assert records[m + 1] == chain[i];
    }
    assert chain != [] ==> ChainRecordOk(rest, blocks, height, chain, |chain| - 1);
    LaterEnd(records, hh, chain);
  }

  lemma LaterEnd(records: seq<RecordRow>, hh: Hash, chain: seq<RecordRow>)
    requires records != [] && records[0].hash != hh && RecordsKeyed(records)
    requires chain != [] ==> chain[|chain| - 1] in records[1..]
    requires EndsThere(records[1..], hh, chain)
    ensures EndsThere(records, hh, chain)
  {
    assert forall m :: 0 < m < |records| ==> records[m] == records[1..][m - 1];
    if chain != [] {
      var m :| 0 <= m < |records| - 1 && records[1..][m] == chain[|chain| - 1];
      assert records[0].hash != records[m + 1].hash;
    }
  }

  lemma TracedFirst(records: seq<RecordRow>, blocks: seq<BlockRow>, height: int, j: nat, tail: seq<RecordRow>)
    requires records != [] && j < |blocks| && RecordsKeyed(records)
    requires blocks[j].hash == records[0].hash && blocks[j].height == records[0].height == height - 1
    requires Traced(records[1..], blocks[j + 1..], records[0].prevHash, height - 1, tail)
    ensures Traced(records, blocks, records[0].hash, height, [records[0]] + tail)
  {
    var rest, later, chain := records[1..], blocks[j + 1..], [records[0]] + tail;
    assert records[0] in records;
    forall i | 0 <= i < |chain| ensures ChainRecordOk(records, blocks, height, chain, i) {
      if i > 0 {
        assert ChainRecordOk(rest, later, height - 1, tail, i - 1);
        var m :| 0 <= m < |rest| && rest[m] == tail[i - 1];
        assert records[m + 1] == chain[i];
        var n :| 0 <= n < |later| && later[n].hash == chain[i].hash && later[n].height == chain[i].height;
        assert blocks[j + 1 + n] == later[n];
      }
    }
    assert tail != [] ==> ChainRecordOk(rest, later, height - 1, tail, |tail| - 1);
    FirstEnd(records, tail);
  }

  lemma FirstEnd(records: seq<RecordRow>, tail: seq<RecordRow>)
    requires records != [] && RecordsKeyed(records) && EndsThere(records[1..], records[0].prevHash, tail)
    requires tail != [] ==> tail[|tail| - 1] in records[1..]
    ensures EndsThere(records, records[0].hash, [records[0]] + tail)
  {
    assert forall m :: 0 < m < |records| ==> records[m] == records[1..][m - 1];
    var chain := [records[0]] + tail;
    if tail != [] {
      assert chain[|chain| - 1] == tail[|tail| - 1];
      var m :| 0 <= m < |records| - 1 && records[1..][m] == tail[|tail| - 1];
      assert records[0].hash != records[m + 1].hash;
    }
  }

  /** The records that the walk took. */
  lemma {:induction false} TraceOf(records: seq<RecordRow>, blocks: seq<BlockRow>, hh: Hash, height: int,
                                   peakHeight: nat)
      returns (chain: seq<RecordRow>)
    requires TablesOk(records, blocks) && HeightsAgree(records, blocks)
    requires Follow(records, blocks, hh, height, peakHeight).Rows?
    ensures Traced(records, blocks, hh, height, chain)
    ensures |chain| == |Follow(records, blocks, hh, height, peakHeight).rows|
  {
    hide Traced;
    if records == [] {
      chain := [];
      NothingTraced(blocks, hh, height);
    } else if records[0].hash != hh {
      chain := TraceOf(records[1..], blocks, hh, height, peakHeight);
      TracedLater(records, blocks, hh, height, chain);
    } else {
      var j := Find(blocks, hh);
      var tail := TraceOf(records[1..], blocks[j + 1..], records[0].prevHash, height - 1, peakHeight);
      TracedFirst(records, blocks, height, j, tail);
      chain := [records[0]] + tail;
    }
  }

  lemma NothingTraced(blocks: seq<BlockRow>, hh: Hash, height: int)
    ensures Traced([], blocks, hh, height, [])
  {
  }

  /**
   Exactly when the walk ends without an error, and after how many rows, in terms of the v1
   tables: when they trace a chain of that many records.
   */
  lemma FollowExactlyWhen(records: seq<RecordRow>, blocks: seq<BlockRow>, hh: Hash, height: int, peakHeight: nat,
                          n: nat)
    requires TablesOk(records, blocks) && HeightsAgree(records, blocks) && peakHeight > 0
    ensures var o := Follow(records, blocks, hh, height, peakHeight);
            (o.Rows? && |o.rows| == n) <==> exists chain :: Traced(records, blocks, hh, height, chain) && |chain| == n
  {
    hide Traced, TablesOk, HeightsAgree, Follow;
    if Follow(records, blocks, hh, height, peakHeight).Rows? {
      var chain := TraceOf(records, blocks, hh, height, peakHeight);
    }
    if chain :| Traced(records, blocks, hh, height, chain) && |chain| == n {
      FollowWritesChain(records, blocks, hh, height, peakHeight, chain);
    }
  }

  /**
   The converter does not notice a missing record: here genesis has a block but no record, the
   walk ends after the peak without an error, and the tables hold no chain down to height 0.
   */
  lemma MissingRecordUnnoticed(r: RecordRow, b: BlockRow, genesis: BlockRow)
    requires r.hash == b.hash == 2 && r.prevHash == genesis.hash == 1
    requires r.height == b.height == 1 && genesis.height == 0
    ensures Follow([r], [b, genesis], 2, 2, 1) == Rows([V2Row(r, b)])
    ensures !exists chain :: WellFormed([r], [b, genesis], 2, 2, chain)
  {
    var records, blocks := [r], [b, genesis];
    assert Find(blocks, 2) == 0;
    assert records[1..] == [];
    forall chain ensures !WellFormed(records, blocks, 2, 2, chain) {
      assert |chain| == 2 ==> !ChainRecordOk(records, blocks, 2, chain, 1);
    }
  }

  /** A chain of one block: the progress line divides by the peak height. */
  lemma {:induction false} GenesisOnlyFails(records: seq<RecordRow>, blocks: seq<BlockRow>, hh: Hash,
                                            chain: seq<RecordRow>)
    requires TablesOk(records, blocks) && WellFormed(records, blocks, hh, 1, chain)
    ensures Follow(records, blocks, hh, 1, 0) == DivisionByZero
  {
    hide Traced, TablesOk;
    if records == [] {
      NothingLeft(blocks, hh, 1, chain);
    } else if records[0].hash != hh {
      PassOver(records, blocks, hh, 1, chain);
      GenesisOnlyFails(records[1..], blocks, hh, chain);
    } else {
      TakeNext(records, blocks, hh, 1, chain);
    }
  }

  /** With a peak at height 0 nothing is ever written. */
  lemma {:induction false} NothingAtHeightZero(records: seq<RecordRow>, blocks: seq<BlockRow>, hh: Hash)
    requires Follow(records, blocks, hh, 1, 0).Rows?
    ensures Follow(records, blocks, hh, 1, 0).rows == []
  {
    if records != [] && records[0].hash != hh {
      NothingAtHeightZero(records[1..], blocks, hh);
    }
  }

  // ---- the written table passes validate_v2 ------------------------------------------------------------

  /** A cursor over a table: the given rows, each once, highest first. */
  ghost predicate CursorOver(rows: seq<Row>, cursor: seq<Row>) {
    && SortedDescending(cursor)
    && (forall r :: r in cursor <==> r in rows)
    && (forall i, j :: 0 <= i < j < |cursor| ==> cursor[i] != cursor[j])
  }

  lemma WrittenAt(rows: seq<Row>, cursor: seq<Row>, peak: Hash, height: int, j: nat) returns (i: nat)
    requires ChainFrom(rows, peak, height) && CursorOver(rows, cursor) && j < |cursor|
    ensures i < |rows| && rows[i] == cursor[j] && i == height - 1 - cursor[j].height
    ensures cursor[j].inMainChain && cursor[j] in rows
  {
    assert cursor[j] in rows;
    i :| 0 <= i < |rows| && rows[i] == cursor[j];
  }

  lemma WrittenMarked(rows: seq<Row>, cursor: seq<Row>, peak: Hash, peakHeight: nat)
    requires ChainFrom(rows, peak, peakHeight + 1) && CursorOver(rows, cursor)
    ensures Marked(cursor, peakHeight, rows)
  {
    forall j | 0 <= j < |cursor| ensures RowOk(cursor[j], peakHeight, rows) {
      var i := WrittenAt(rows, cursor, peak, peakHeight + 1, j);
      assert rows[i].height == cursor[j].height;
    }
    forall i | 0 <= i < |rows| ensures InTable(cursor, rows[i]) && rows[i].height <= peakHeight {
      assert rows[i] in rows;
    }
    forall i, j, j' | 0 <= i < |rows| && 0 <= j < j' < |cursor| && SameBlock(cursor[j], rows[i])
      ensures !SameBlock(cursor[j'], rows[i])
    {
      var m := WrittenAt(rows, cursor, peak, peakHeight + 1, j);
      var m' := WrittenAt(rows, cursor, peak, peakHeight + 1, j');
    }
  }

  /** The written chain is the main chain of the written table. */
  lemma WrittenIsMainChain(rows: seq<Row>, cursor: seq<Row>, peak: Hash, peakHeight: nat, genesis: Hash)
    requires ChainFrom(rows, peak, peakHeight + 1) && CursorOver(rows, cursor)
    requires |rows| == peakHeight + 1 && rows[peakHeight].prevHash == genesis
    ensures IsMainChain(cursor, peak, peakHeight, genesis, rows)
  {
    hide Marked, CursorOver;
    WrittenMarked(rows, cursor, peak, peakHeight);
    forall i | 0 <= i < |rows| - 1 ensures LinkAt(rows, i) {
      assert LinksAt(rows, i);
    }
  }

  /** A row's blob and record agree with it. */
  predicate RowMatches(r: Row) { BlobOk(r) && r.blob.prevHash == r.prevHash }

  ghost predicate BlobsMatch(rows: seq<Row>) {
    forall r :: r in rows ==> RowMatches(r)
  }

  /**
   Whatever the converter wrote without raising, validate_v2 accepts it exactly when it
   reached height 0 and the last row points at the expected genesis challenge (and, with block
   validation, the blobs match): a record that was missing from the v1 store makes the walk
   stop early, and only the validator notices.
   */
  lemma AcceptedExactlyWhen(rows: seq<Row>, cursor: seq<Row>, peak: Hash, peakHeight: nat, genesis: Hash, blocks: bool)
    requires ChainFrom(rows, peak, peakHeight + 1) && rows != [] && CursorOver(rows, cursor)
    ensures ValidTable(cursor, peak, peakHeight, genesis, blocks) <==>
            |rows| == peakHeight + 1 && rows[peakHeight].prevHash == genesis && (blocks ==> BlobsMatch(rows))
  {
    hide IsMainChain;
    if ValidTable(cursor, peak, peakHeight, genesis, blocks) {
      var chain :|
        IsMainChain(cursor, peak, peakHeight, genesis, chain) && (blocks ==> BlobsOk(cursor, peakHeight, chain));
      EndsAtGenesis(cursor, peak, peakHeight, genesis, chain);
      var j := ChainRow(cursor, peak, peakHeight, genesis, chain, |chain| - 1);
      var i := WrittenAt(rows, cursor, peak, peakHeight + 1, j);
      assert rows[|rows| - 1].height == peakHeight - (|rows| - 1);
      WrittenIsMainChain(rows, cursor, peak, peakHeight, genesis);
      forall r | blocks && r in rows ensures RowMatches(r) {
        var n :| 0 <= n < |rows| && rows[n] == r;
        ChainIsUnique(cursor, peak, peakHeight, genesis, rows, chain, n);
        var m := ChainRow(cursor, peak, peakHeight, genesis, rows, n);
      }
    }
    if |rows| == peakHeight + 1 && rows[peakHeight].prevHash == genesis && (blocks ==> BlobsMatch(rows)) {
      WrittenIsMainChain(rows, cursor, peak, peakHeight, genesis);
      assert forall i :: 0 <= i < |cursor| ==> cursor[i] in cursor && cursor[i] in rows;
      assert forall i :: 0 <= i < |rows| ==> rows[i] in rows;
    }
  }

  lemma EndsAtGenesis(rows: seq<Row>, peak: Hash, peakHeight: nat, genesis: Hash, chain: seq<Row>)
    requires IsMainChain(rows, peak, peakHeight, genesis, chain)
    ensures chain != [] && chain[|chain| - 1].height == 0 && chain[|chain| - 1].prevHash == genesis
  {
  }

  /** A stored record and a stored block decode to what the two v1 rows say about them, and to the same block. */
  predicate V1Match(r: RecordRow, b: BlockRow) {
    && r.recordHash == r.hash && r.recordPrevHash == r.prevHash
    && b.blockHash == b.hash && b.blockHeight == b.height
    && b.blockPrevHash == r.prevHash && b.blockTotalIters == r.recordTotalIters
  }

  /** The row written for them passes the comparisons of validate_v2 exactly then. */
  lemma RowMatchesExactlyWhen(r: RecordRow, b: BlockRow)
    requires r.hash == b.hash
    ensures RowMatches(V2Row(r, b)) <==> V1Match(r, b)
    ensures V2Row(r, b).hash == r.hash && V2Row(r, b).prevHash == r.prevHash
    ensures V2Row(r, b).height == b.height && V2Row(r, b).inMainChain
  {
  }

  /** Every block of the chain, and its record, decode to what the tables say about them. */
  ghost predicate StoredMatch(blocks: seq<BlockRow>, chain: seq<RecordRow>) {
    forall i, j :: 0 <= i < |chain| && 0 <= j < |blocks| && chain[i].hash == blocks[j].hash ==>
      V1Match(chain[i], blocks[j])
  }

  lemma MatchIsStored(blocks: seq<BlockRow>, chain: seq<RecordRow>, rows: seq<Row>)
    requires BlocksKeyed(blocks) && AllWritten(blocks, chain, rows)
    ensures BlobsMatch(rows) <==> StoredMatch(blocks, chain)
  {
    hide RowMatches, V2Row, V1Match;
    if BlobsMatch(rows) {
      forall i, j | 0 <= i < |chain| && 0 <= j < |blocks| && chain[i].hash == blocks[j].hash
        ensures V1Match(chain[i], blocks[j])
      {
        RowMatchesExactlyWhen(chain[i], blocks[j]);
        assert WrittenFrom(blocks, chain[i], rows[i]);
        var m :| 0 <= m < |blocks| && blocks[m].hash == chain[i].hash && rows[i] == V2Row(chain[i], blocks[m]);
        assert m == j;
        assert rows[i] in rows;
      }
    }
    if StoredMatch(blocks, chain) {
      forall r | r in rows ensures RowMatches(r) {
        var i :| 0 <= i < |rows| && rows[i] == r;
        assert WrittenFrom(blocks, chain[i], rows[i]);
        var m :| 0 <= m < |blocks| && blocks[m].hash == chain[i].hash && rows[i] == V2Row(chain[i], blocks[m]);
        RowMatchesExactlyWhen(chain[i], blocks[m]);
      }
    }
  }

  /**
   The v1 tables hold a whole chain from the peak down to height 0 that starts at the expected
   challenge (and, with block validation, decodes to what it should).
   */
  ghost predicate Convertible(records: seq<RecordRow>, blocks: seq<BlockRow>, peak: Hash, peakHeight: nat,
                              genesis: Hash, check: bool) {
    exists chain: seq<RecordRow> ::
      && WellFormed(records, blocks, peak, peakHeight + 1, chain)
      && chain[peakHeight].prevHash == genesis
      && (check ==> StoredMatch(blocks, chain))
  }

  lemma WrittenLinks(blocks: seq<BlockRow>, chain: seq<RecordRow>, rows: seq<Row>, i: nat)
    requires AllWritten(blocks, chain, rows) && i < |chain|
    ensures |rows| == |chain| && rows[i].prevHash == chain[i].prevHash
  {
    assert WrittenFrom(blocks, chain[i], rows[i]);
  }

  /**
   Converter and validator agree: when the converter ends without an error, validate_v2 accepts
   what it wrote exactly when the v1 tables held a whole chain.
   */
  lemma ConvertedExactlyWhen(records: seq<RecordRow>, blocks: seq<BlockRow>, peak: Hash, peakHeight: nat,
                             cursor: seq<Row>, genesis: Hash, check: bool)
    requires TablesOk(records, blocks) && HeightsAgree(records, blocks) && peakHeight > 0
    requires exists i :: 0 <= i < |records| && records[i].hash == peak
    requires Follow(records, blocks, peak, peakHeight + 1, peakHeight).Rows?
    requires CursorOver(Follow(records, blocks, peak, peakHeight + 1, peakHeight).rows, cursor)
    ensures ValidTable(cursor, peak, peakHeight, genesis, check) <==>
            Convertible(records, blocks, peak, peakHeight, genesis, check)
  {
    hide Traced, Follow, ValidTable, AllWritten, BlobsMatch, StoredMatch, HeightsAgree, CursorOver, ChainFrom;
    var rows := Follow(records, blocks, peak, peakHeight + 1, peakHeight).rows;
    FollowStarts(records, blocks, peak, peakHeight + 1, peakHeight);
    FollowIsChain(records, blocks, peak, peakHeight + 1, peakHeight);
    AcceptedExactlyWhen(rows, cursor, peak, peakHeight, genesis, check);
    var traced := TraceOf(records, blocks, peak, peakHeight + 1, peakHeight);
    FollowWritesChain(records, blocks, peak, peakHeight + 1, peakHeight, traced);
    MatchIsStored(blocks, traced, rows);
    if |rows| == peakHeight + 1 {
      WrittenLinks(blocks, traced, rows, peakHeight);
    }
    if Convertible(records, blocks, peak, peakHeight, genesis, check) {
      var chain: seq<RecordRow> :|
        WellFormed(records, blocks, peak, peakHeight + 1, chain) && chain[peakHeight].prevHash == genesis &&
        (check ==> StoredMatch(blocks, chain));
      FollowWritesChain(records, blocks, peak, peakHeight + 1, peakHeight, chain);
      MatchIsStored(blocks, chain, rows);
      WrittenLinks(blocks, chain, rows, peakHeight);
    }
  }

  // ---- the conversion itself -----------------------------------------------------------------------------

  /** INSERT OR REPLACE INTO full_blocks, row by row. */
  function InsertAll(table: map<Hash, Row>, rows: seq<Row>): map<Hash, Row> {
    if rows == [] then table
    else InsertAll(table, rows[..|rows| - 1])[rows[|rows| - 1].hash := rows[|rows| - 1]]
  }

  lemma {:induction false} InsertAppend(table: map<Hash, Row>, a: seq<Row>, b: seq<Row>)
    ensures InsertAll(InsertAll(table, a), b) == InsertAll(table, a + b)
  {
    if b == [] {
      assert a + b == a;
    } else {
      InsertAppend(table, a, b[..|b| - 1]);
      assert (a + b)[..|a + b| - 1] == a + b[..|b| - 1];
    }
  }

  /** What remains to be done, behind what has been written. */
  function After(done: seq<Row>, rest: Outcome): Outcome { if rest.Rows? then Rows(done + rest.rows) else rest }

  lemma {:induction false} FindIs(blocks: seq<BlockRow>, h: Hash, j: nat)
    requires j <= |blocks| && (j < |blocks| ==> blocks[j].hash == h)
    requires forall i :: 0 <= i < j ==> blocks[i].hash != h
    ensures Find(blocks, h) == j
  {
  }

  /** One record of the first cursor, as one unfolding of Follow. */
  lemma FollowStep(records: seq<RecordRow>, i: nat, blocks: seq<BlockRow>, j0: nat, j: nat, hh: Hash, height: int,
                   peakHeight: nat, done: seq<Row>)
    requires i < |records| && j0 <= j < |blocks| && records[i].hash == hh && blocks[j].hash == hh
    requires Find(blocks[j0..], hh) == j - j0
    requires blocks[j].height == height - 1 && !(blocks[j].height % 1000 == 0 && peakHeight == 0)
    ensures After(done, Follow(records[i..], blocks[j0..], hh, height, peakHeight))
            == After(done + [V2Row(records[i], blocks[j])],
                     Follow(records[i + 1..], blocks[j + 1..], records[i].prevHash, height - 1, peakHeight))
  {
    assert records[i..][1..] == records[i + 1..];
    assert blocks[j0..][j - j0 + 1..] == blocks[j + 1..];
    var row := V2Row(records[i], blocks[j]);
    var rest := Follow(records[i + 1..], blocks[j + 1..], records[i].prevHash, height - 1, peakHeight);
    if rest.Rows? {
      assert done + ([row] + rest.rows) == done + [row] + rest.rows;
    }
  }

  /** The two-cursor walk with its batches: the table written does not depend on the commit rate. */
  method ConvertBlocks(records: seq<RecordRow>, blocks: seq<BlockRow>, peakHash: Hash, peakHeight: nat, commitRate: nat)
      returns (outcome: Outcome, table: map<Hash, Row>)
    requires commitRate >= 1
    ensures outcome == Follow(records, blocks, peakHash, peakHeight + 1, peakHeight)
    ensures outcome.Rows? ==> table == InsertAll(map[], outcome.rows)
  {
    hide Follow, V2Row;
    table := map[];
    var height: int, hh, commitIn, values, j := peakHeight + 1, peakHash, commitRate, [], 0;
    ghost var total := Follow(records, blocks, peakHash, peakHeight + 1, peakHeight);
    var done: seq<Row> := [];
    assert records[0..] == records && blocks[0..] == blocks;
    for i := 0 to |records|
      invariant j <= |blocks| && 1 <= commitIn <= commitRate
      invariant total == After(done, Follow(records[i..], blocks[j..], hh, height, peakHeight))
      invariant InsertAll(table, values) == InsertAll(map[], done)
    {
      var row := records[i];
      if row.hash != hh {
        SkipStep(records, i, blocks[j..], hh, height, peakHeight);
        continue;
      }
      ghost var j0 := j;
      while j < |blocks| && blocks[j].hash != hh
        invariant j0 <= j <= |blocks|
        invariant forall m :: j0 <= m < j ==> blocks[m].hash != hh
      {
        j := j + 1;
      }
      FindIs(blocks[j0..], hh, j - j0);
      StopStep(records, i, blocks[j0..], hh, height, peakHeight);
      if j == |blocks| {
        return BlockNotFound, table;
      }
      if blocks[j].height != height - 1 {
        return HeightAssertion, table;
      }
      if blocks[j].height % 1000 == 0 && peakHeight == 0 {
        return DivisionByZero, table;
      }
      FollowStep(records, i, blocks, j0, j, hh, height, peakHeight, done);
      var newRow := V2Row(row, blocks[j]);
      values := values + [newRow];
      done := done + [newRow];
      height := blocks[j].height;
      hh := row.prevHash;
      j := j + 1;
      commitIn := commitIn - 1;
      if commitIn == 0 {
        commitIn := commitRate;
        table := InsertAll(table, values);
        values := [];
      }
    }
    EndStep(blocks[j..], hh, height, peakHeight);
    assert records[|records|..] == [];
    assert done + [] == done;
    table := InsertAll(table, values);
    outcome := Rows(done);
  }

  lemma SkipStep(records: seq<RecordRow>, i: nat, blocks: seq<BlockRow>, hh: Hash, height: int, peakHeight: nat)
    requires i < |records| && records[i].hash != hh
    ensures Follow(records[i..], blocks, hh, height, peakHeight)
            == Follow(records[i + 1..], blocks, hh, height, peakHeight)
  {
    assert records[i..][1..] == records[i + 1..];
  }

  lemma StopStep(records: seq<RecordRow>, i: nat, blocks: seq<BlockRow>, hh: Hash, height: int, peakHeight: nat)
    requires i < |records| && records[i].hash == hh
    ensures var j := Find(blocks, hh);
            var o := Follow(records[i..], blocks, hh, height, peakHeight);
            && (j == |blocks| ==> o == BlockNotFound)
            && (j < |blocks| && blocks[j].height != height - 1 ==> o == HeightAssertion)
            && (j < |blocks| && blocks[j].height == height - 1 && blocks[j].height % 1000 == 0 && peakHeight == 0 ==>
                  o == DivisionByZero)
  {
  }

  lemma EndStep(blocks: seq<BlockRow>, hh: Hash, height: int, peakHeight: nat)
    ensures Follow([], blocks, hh, height, peakHeight) == Rows([])
  {
  }

  /** Finds the peak and converts. */
  method ConvertV1(records: seq<RecordRow>, blocks: seq<BlockRow>, commitRate: nat)
      returns (outcome: Outcome, peak: Hash, peakHeight: nat, table: map<Hash, Row>)
    requires commitRate >= 1
    ensures outcome.NoPeak? <==> forall r :: r in records ==> !r.isPeak
    ensures !outcome.NoPeak? ==> outcome == Follow(records, blocks, peak, peakHeight + 1, peakHeight)
    ensures !outcome.NoPeak? ==> exists r :: r in records && r.isPeak && r.hash == peak && r.height == peakHeight
    ensures outcome.Rows? ==> table == InsertAll(map[], outcome.rows)
  {
    hide Follow;
    var i := 0;
    while i < |records| && !records[i].isPeak
      invariant 0 <= i <= |records| && forall m :: 0 <= m < i ==> !records[m].isPeak
    {
      i := i + 1;
    }
    if i == |records| {
      return NoPeak, 0, 0, map[];
    }
    peak, peakHeight := records[i].hash, records[i].height;
    assert records[i] in records;
    FollowHasPeak(records, blocks, peak, peakHeight + 1, peakHeight);
    outcome, table := ConvertBlocks(records, blocks, peak, peakHeight, commitRate);
  }

  lemma {:induction false} FollowHasPeak(records: seq<RecordRow>, blocks: seq<BlockRow>, hh: Hash, height: int,
                                         peakHeight: nat)
    ensures !Follow(records, blocks, hh, height, peakHeight).NoPeak?
  {
    if records != [] {
      FollowHasPeak(records[1..], blocks, hh, height, peakHeight);
      var j := Find(blocks, hh);
      var later := blocks[if j < |blocks| then j + 1 else 0..];
      FollowHasPeak(records[1..], later, records[0].prevHash, height - 1, peakHeight);
    }
  }

  /** No hash is written twice, since hashes are the key of the v1 record table. */
  lemma {:induction false} FollowKeyed(records: seq<RecordRow>, blocks: seq<BlockRow>, hh: Hash, height: int,
                                       peakHeight: nat)
    requires RecordsKeyed(records) && Follow(records, blocks, hh, height, peakHeight).Rows?
    ensures var rows := Follow(records, blocks, hh, height, peakHeight).rows;
            && (forall r :: r in rows ==> exists m :: 0 <= m < |records| && records[m].hash == r.hash)
            && (forall i, j :: 0 <= i < j < |rows| ==> rows[i].hash != rows[j].hash)
  {
    if records != [] {
      var rest := records[1..];
      if records[0].hash != hh {
        FollowKeyed(rest, blocks, hh, height, peakHeight);
        var rows := Follow(rest, blocks, hh, height, peakHeight).rows;
        forall r | r in rows ensures exists m :: 0 <= m < |records| && records[m].hash == r.hash {
          var m :| 0 <= m < |rest| && rest[m].hash == r.hash;
          assert records[m + 1].hash == r.hash;
        }
      } else {
        var later := blocks[Find(blocks, hh) + 1..];
        FollowKeyed(rest, later, records[0].prevHash, height - 1, peakHeight);
        var rows := Follow(rest, later, records[0].prevHash, height - 1, peakHeight).rows;
        forall r | r in rows
          ensures r.hash != records[0].hash && exists m :: 0 <= m < |records| && records[m].hash == r.hash
        {
          var m :| 0 <= m < |rest| && rest[m].hash == r.hash;
          assert records[m + 1].hash == r.hash;
        }
      }
    }
  }

  lemma {:induction false} InsertedRows(rows: seq<Row>, r: Row)
    requires forall i, j :: 0 <= i < j < |rows| ==> rows[i].hash != rows[j].hash
    ensures r in rows <==> r.hash in InsertAll(map[], rows) && InsertAll(map[], rows)[r.hash] == r
  {
    if rows != [] {
      var n := |rows| - 1;
      InsertedRows(rows[..n], r);
      InsertedRows(rows[..n], rows[n]);
      assert r in rows <==> r in rows[..n] || r == rows[n];
      if r in rows[..n] {
        var i :| 0 <= i < n && rows[i] == r;
        assert r.hash != rows[n].hash;
      }
    }
  }

  /** The table that ConvertBlocks returns holds exactly the rows of the walk. */
  lemma TableHoldsRows(records: seq<RecordRow>, blocks: seq<BlockRow>, hh: Hash, height: int, peakHeight: nat, r: Row)
    requires RecordsKeyed(records) && Follow(records, blocks, hh, height, peakHeight).Rows?
    ensures var rows := Follow(records, blocks, hh, height, peakHeight).rows;
            r in rows <==> r.hash in InsertAll(map[], rows) && InsertAll(map[], rows)[r.hash] == r
  {
    FollowKeyed(records, blocks, hh, height, peakHeight);
    InsertedRows(Follow(records, blocks, hh, height, peakHeight).rows, r);
  }

  // ---- converting, then validating ----------------------------------------------------------------------

  /** A row's place in a cursor ordered by height. */
  function InsertSorted(rows: seq<Row>, r: Row): seq<Row> {
    if rows == [] || rows[0].height <= r.height then [r] + rows
    else [rows[0]] + InsertSorted(rows[1..], r)
  }

  ghost predicate Listing(cursor: seq<Row>) { SortedDescending(cursor) && PrimaryKey(cursor) }

  lemma {:induction false} InsertSortedOk(rows: seq<Row>, r: Row)
    requires Listing(rows) && forall x :: x in rows ==> x.hash != r.hash
    ensures Listing(InsertSorted(rows, r))
    ensures forall x :: x in InsertSorted(rows, r) <==> x in rows || x == r
  {
    if rows == [] || rows[0].height <= r.height {
      assert forall i :: 0 <= i < |rows| ==> rows[i] in rows;
    } else {
      var first, rest := rows[0], rows[1..];
      assert forall i :: 0 <= i < |rest| ==> rest[i] == rows[i + 1];
      assert forall x :: x in rows <==> x == first || x in rest;
      InsertSortedOk(rest, r);
      var t := InsertSorted(rest, r);
      forall x | x in t ensures x.height <= first.height && x.hash != first.hash {
      }
      assert forall i :: 0 <= i < |t| ==> t[i] in t;
    }
  }

  /** SELECT ... FROM full_blocks ORDER BY height DESC */
  method OrderedByHeight(table: map<Hash, Row>) returns (cursor: seq<Row>)
    requires forall h :: h in table ==> table[h].hash == h
    ensures SortedDescending(cursor) && PrimaryKey(cursor)
    ensures forall r :: r in cursor <==> r.hash in table && table[r.hash] == r
  {
    hide InsertSorted;
    cursor := [];
    var rest := table.Keys;
    while rest != {}
      invariant rest <= table.Keys && Listing(cursor)
      invariant forall r :: r in cursor <==> r.hash in table && table[r.hash] == r && r.hash !in rest
      decreases rest
    {
      var h :| h in rest;
      InsertSortedOk(cursor, table[h]);
      cursor := InsertSorted(cursor, table[h]);
      rest := rest - {h};
    }
  }

  lemma {:induction false} InsertedUnderHash(rows: seq<Row>, h: Hash)
    ensures h in InsertAll(map[], rows) ==> InsertAll(map[], rows)[h].hash == h
  {
    if rows != [] {
      InsertedUnderHash(rows[..|rows| - 1], h);
    }
  }

  /** The written table, listed highest first, is a cursor over the rows of the walk. */
  lemma ListedIsCursor(records: seq<RecordRow>, blocks: seq<BlockRow>, hh: Hash, height: int, peakHeight: nat,
                       cursor: seq<Row>)
    requires RecordsKeyed(records) && Follow(records, blocks, hh, height, peakHeight).Rows?
    requires SortedDescending(cursor) && PrimaryKey(cursor)
    requires var table := InsertAll(map[], Follow(records, blocks, hh, height, peakHeight).rows);
             forall r :: r in cursor <==> r.hash in table && table[r.hash] == r
    ensures CursorOver(Follow(records, blocks, hh, height, peakHeight).rows, cursor)
  {
    hide Follow;
    var rows := Follow(records, blocks, hh, height, peakHeight).rows;
    forall r ensures r in cursor <==> r in rows {
      TableHoldsRows(records, blocks, hh, height, peakHeight, r);
    }
  }

  /** The peak of the written database is the row at the peak's height. */
  lemma PeakRow(rows: seq<Row>, cursor: seq<Row>, peak: Hash, peakHeight: nat, genesis: Hash, check: bool)
    requires ChainFrom(rows, peak, peakHeight + 1) && rows != [] && CursorOver(rows, cursor) && PrimaryKey(cursor)
    ensures ValidDatabase(Database(Some(2), Some(peak), cursor), genesis, check) <==>
            ValidTable(cursor, peak, peakHeight, genesis, check)
  {
    hide ValidTable;
    assert rows[0] in rows;
    var j :| 0 <= j < |cursor| && cursor[j] == rows[0];
  }

  /**
   convert_v1_to_v2 and then validate_v2 on its result: both succeed exactly when there is a
   peak above height 0 and the v1 tables hold its whole chain, from the expected challenge on.
   */
  method ConvertAndValidate(records: seq<RecordRow>, blocks: seq<BlockRow>, commitRate: nat, genesis: Hash, check: bool)
      returns (outcome: Outcome, peak: Hash, peakHeight: nat, failure: Option<Failure>)
    requires TablesOk(records, blocks) && HeightsAgree(records, blocks) && commitRate >= 1
    ensures outcome.NoPeak? <==> forall r :: r in records ==> !r.isPeak
    ensures !outcome.NoPeak? ==> exists r :: r in records && r.isPeak && r.hash == peak && r.height == peakHeight
    ensures outcome.Rows? && failure.None? <==>
            !outcome.NoPeak? && peakHeight > 0 && Convertible(records, blocks, peak, peakHeight, genesis, check)
  {
    hide Follow, Convertible, HeightsAgree, ValidTable, ValidDatabase, CursorOver, ChainFrom, InsertAll;
    var table;
    outcome, peak, peakHeight, table := ConvertV1(records, blocks, commitRate);
    failure := None;
    if outcome.NoPeak? {
      return;
    }
    if peakHeight > 0 {
      RowsWhenConvertible(records, blocks, peak, peakHeight, genesis, check);
    }
    if !outcome.Rows? {
      return;
    }
    ghost var rows := outcome.rows;
    forall h ensures h in InsertAll(map[], rows) ==> InsertAll(map[], rows)[h].hash == h {
      InsertedUnderHash(rows, h);
    }
    var cursor := OrderedByHeight(table);
    WrittenRows(records, blocks, peak, peakHeight);
    ListedIsCursor(records, blocks, peak, peakHeight + 1, peakHeight, cursor);
    PeakRow(rows, cursor, peak, peakHeight, genesis, check);
    ConvertedExactlyWhen(records, blocks, peak, peakHeight, cursor, genesis, check);
    failure := ValidateV2(Database(Some(2), Some(peak), cursor), genesis, check);
  }

  lemma RowsWhenConvertible(records: seq<RecordRow>, blocks: seq<BlockRow>, peak: Hash, peakHeight: nat, genesis: Hash,
                            check: bool)
    requires TablesOk(records, blocks) && peakHeight > 0
    ensures Convertible(records, blocks, peak, peakHeight, genesis, check) ==>
              Follow(records, blocks, peak, peakHeight + 1, peakHeight).Rows?
  {
    hide Follow, StoredMatch;
    if Convertible(records, blocks, peak, peakHeight, genesis, check) {
      var chain: seq<RecordRow> :|
        WellFormed(records, blocks, peak, peakHeight + 1, chain) && chain[peakHeight].prevHash == genesis &&
        (check ==> StoredMatch(blocks, chain));
      FollowWritesChain(records, blocks, peak, peakHeight + 1, peakHeight, chain);
    }
  }

  /** What the walk from a stored peak has written when it has written anything. */
  lemma WrittenRows(records: seq<RecordRow>, blocks: seq<BlockRow>, peak: Hash, peakHeight: nat)
    requires Follow(records, blocks, peak, peakHeight + 1, peakHeight).Rows?
    requires exists r :: r in records && r.hash == peak
    ensures var rows := Follow(records, blocks, peak, peakHeight + 1, peakHeight).rows;
            peakHeight > 0 && rows != [] && ChainFrom(rows, peak, peakHeight + 1)
    ensures exists i :: 0 <= i < |records| && records[i].hash == peak
  {
    hide Follow, ChainFrom;
    var r :| r in records && r.hash == peak;
    var i :| 0 <= i < |records| && records[i] == r;
    FollowStarts(records, blocks, peak, peakHeight + 1, peakHeight);
    FollowIsChain(records, blocks, peak, peakHeight + 1, peakHeight);
    if peakHeight == 0 {
      NothingAtHeightZero(records, blocks, peak);
    }
  }

  // ---- the coin snapshot ------------------------------------------------------------------------------------

  /** The rows of the v1 coin table. */
  ghost predicate ListsCoins(rows: seq<CoinRecord>, l: Ledger) {
    && (forall i :: 0 <= i < |rows| ==> rows[i].coin in l && l[rows[i].coin] == rows[i])
    && (forall c :: c in l ==> l[c] in rows)
    && (forall i, j :: 0 <= i < j < |rows| ==> rows[i].coin != rows[j].coin)
  }

  function CutOff(r: CoinRecord, peakHeight: nat): CoinRecord { if r.spent > peakHeight then r.(spent := 0) else r }

  /** Inserting the rows that pass the filter, one by one. */
  function Snapshot(rows: seq<CoinRecord>, peakHeight: nat): Ledger {
    if rows == [] then map[]
    else
      var last, before := rows[|rows| - 1], Snapshot(rows[..|rows| - 1], peakHeight);
      if last.confirmed <= peakHeight then before[last.coin := CutOff(last, peakHeight)] else before
  }

  lemma {:induction false} SnapshotAt(rows: seq<CoinRecord>, l: Ledger, peakHeight: nat, n: nat, c: Coin)
    requires ListsCoins(rows, l) && n <= |rows|
    ensures c in Snapshot(rows[..n], peakHeight) <==>
            exists j :: 0 <= j < n && rows[j].coin == c && rows[j].confirmed <= peakHeight
    ensures c in Snapshot(rows[..n], peakHeight) ==>
              c in l && Snapshot(rows[..n], peakHeight)[c] == CutOff(l[c], peakHeight)
  {
    if n > 0 {
      assert rows[..n][..n - 1] == rows[..n - 1];
      SnapshotAt(rows, l, peakHeight, n - 1, c);
    }
  }

  lemma SnapshotIsRolledBack(rows: seq<CoinRecord>, l: Ledger, peakHeight: nat)
    requires ListsCoins(rows, l) && forall c :: c in l ==> l[c].coin == c
    ensures Snapshot(rows, peakHeight) == RolledBack(l, peakHeight)
  {
    assert rows[..|rows|] == rows;
    forall c ensures c in Snapshot(rows, peakHeight) <==> c in RolledBack(l, peakHeight) {
      SnapshotAt(rows, l, peakHeight, |rows|, c);
      if c in RolledBack(l, peakHeight) {
        assert l[c] in rows;
      }
    }
    forall c | c in Snapshot(rows, peakHeight) ensures Snapshot(rows, peakHeight)[c] == RolledBack(l, peakHeight)[c] {
      SnapshotAt(rows, l, peakHeight, |rows|, c);
    }
  }

  /** The coin rows up to the peak, with later spends undone, in batches of any size. */
  method ConvertCoins(rows: seq<CoinRecord>, ghost l: Ledger, peakHeight: nat, commitRate: nat) returns (table: Ledger)
    requires ListsCoins(rows, l) && commitRate >= 1 && forall c :: c in l ==> l[c].coin == c
    ensures table == RolledBack(l, peakHeight)
  {
    hide ListsCoins, RolledBack;
    table := map[];
    var commitIn, values: Ledger := commitRate, map[];
    for i := 0 to |rows|
      invariant 1 <= commitIn <= commitRate
      invariant table + values == Snapshot(rows[..i], peakHeight)
    {
      var row := rows[i];
      assert rows[..i + 1][..i] == rows[..i];
      if row.confirmed <= peakHeight {
        var spentIndex := row.spent;
        if spentIndex > peakHeight {
          spentIndex := 0;
        }
        var newRow := row.(spent := spentIndex);
        assert table + values[row.coin := newRow] == (table + values)[row.coin := newRow];
        values := values[row.coin := newRow];
        commitIn := commitIn - 1;
        if commitIn == 0 {
          commitIn := commitRate;
          table := table + values;
          values := map[];
        }
      }
    }
    table := table + values;
    assert rows[..|rows|] == rows;
    SnapshotIsRolledBack(rows, l, peakHeight);
  }

  /**
   If the v1 coin table belongs to an accepted chain that reaches the peak, the snapshot is the
   peak's own coin table.
   */
  lemma SnapshotIsReplay(k: Constants, chain: seq<Block>, peakHeight: nat)
    requires ValidChain(k, chain) && peakHeight < |chain|
    ensures RolledBack(LedgerAt(chain), peakHeight) == LedgerAt(chain[..peakHeight + 1])
  {
    hide ValidChain, Sound, RolledBack, Replay, RewardsExact;
    ChainIsSound(k, chain);
    RollBackIsReplay(AllEffects(chain), peakHeight);
    EffectsPrefix(chain, peakHeight + 1);
  }
}
