/** validate_v2 of db_validate_func.py: one pass over the block table, highest blocks first. */
module DbValidate {
  import opened Types

  /** What the stored blob of a block, and the stored record, decode to. */
  datatype Blob = Blob(hash: Hash, prevHash: Hash, height: nat, totalIters: nat,
                       recordHash: Hash, recordPrevHash: Hash, recordTotalIters: nat)

  datatype Row = Row(hash: Hash, prevHash: Hash, height: nat, inMainChain: bool, blob: Blob)

  datatype Failure =
    | MissingVersion | WrongVersion | MissingPeak | MissingPeakBlock
    | BlobMismatch | MissingBlock | MultipleBlocks | FlagNotSet | FlagSetOnOrphan
    | MissingBlocksBelow | InvalidGenesis

  predicate SortedDescending(rows: seq<Row>) {
    forall i, j :: 0 <= i < j < |rows| ==> rows[i].height >= rows[j].height
  }

  // ---- what is accepted, stated without a pass over the rows ------------------------------

  /** The blob and the record agree with the row and with each other. */
  predicate BlobOk(r: Row) {
    && r.blob.hash == r.hash && r.blob.recordHash == r.hash
    && r.blob.recordTotalIters == r.blob.totalIters
    && r.blob.recordPrevHash == r.blob.prevHash
    && r.blob.height == r.height
  }

  /** The rows are linked, highest first: each row's prev hash is the next row's hash. */
  predicate LinkedDown(chain: seq<Row>) {
    forall i {:trigger LinkAt(chain, i)} :: 0 <= i < |chain| - 1 ==> LinkAt(chain, i)
  }

  predicate LinkAt(chain: seq<Row>, i: nat)
    requires i + 1 < |chain|
  {
    chain[i].prevHash == chain[i + 1].hash && chain[i].height > chain[i + 1].height
  }

  ghost predicate Covered(chain: seq<Row>, height: nat) { exists i :: 0 <= i < |chain| && chain[i].height == height }

  ghost predicate InTable(rows: seq<Row>, r: Row) { r in rows }

  /** A row up to the peak is flagged exactly when it is on the chain, and the chain has a row of its height. */
  ghost predicate RowOk(r: Row, peakHeight: nat, chain: seq<Row>) {
    r.height <= peakHeight ==> (r.inMainChain <==> r in chain) && Covered(chain, r.height)
  }

  /** The chain takes exactly one row of every height that has rows, and those rows carry the flag. */
  ghost predicate Marked(rows: seq<Row>, peakHeight: nat, chain: seq<Row>) {
    && (forall j {:trigger RowOk(rows[j], peakHeight, chain)} :: 0 <= j < |rows| ==> RowOk(rows[j], peakHeight, chain))
    && (forall i {:trigger InTable(rows, chain[i])} :: 0 <= i < |chain| ==>
          InTable(rows, chain[i]) && chain[i].height <= peakHeight)
    && (forall i, j, j' {:trigger SameBlock(rows[j], chain[i]), SameBlock(rows[j'], chain[i])} ::
          0 <= i < |chain| && 0 <= j < j' < |rows| && SameBlock(rows[j], chain[i]) ==> !SameBlock(rows[j'], chain[i]))
  }

  predicate SameBlock(r: Row, s: Row) { r.hash == s.hash && r.height == s.height }

  ghost predicate IsMainChain(rows: seq<Row>, peak: Hash, peakHeight: nat, genesis: Hash, chain: seq<Row>) {
    && chain != []
    && chain[0].hash == peak && chain[0].height == peakHeight
    && LinkedDown(chain)
    && chain[|chain| - 1].height == 0 && chain[|chain| - 1].prevHash == genesis
    && Marked(rows, peakHeight, chain)
  }

  ghost predicate BlobsOk(rows: seq<Row>, peakHeight: nat, chain: seq<Row>) {
    && (forall j :: 0 <= j < |rows| && rows[j].height <= peakHeight ==> BlobOk(rows[j]))
    && (forall i :: 0 <= i < |chain| ==> chain[i].blob.prevHash == chain[i].prevHash)
  }

  /** The table is valid: there is a main chain (and with block validation, the blobs are right). */
  ghost predicate ValidTable(rows: seq<Row>, peak: Hash, peakHeight: nat, genesis: Hash, blocks: bool) {
    exists chain :: IsMainChain(rows, peak, peakHeight, genesis, chain) && (blocks ==> BlobsOk(rows, peakHeight, chain))
  }

  lemma {:induction false} Descends(chain: seq<Row>, i: nat, j: nat)
    requires LinkedDown(chain) && i < j < |chain|
    ensures chain[i].height > chain[j].height
  {
    if i + 1 < j {
      Descends(chain, i, j - 1);
    }
    assert LinkAt(chain, j - 1);
  }

  // ---- the pass ----------------------------------------------------------------------------------

  /** What the pass has collected: the chain rows of the finished levels, and the one found at this level. */
  datatype Pass = Pass(done: seq<Row>, level: nat, found: Option<Row>) {
    function Expect(peak: Hash): Hash { if done == [] then peak else done[|done| - 1].prevHash }
    function Chain(): seq<Row> { if found.Some? then done + [found.value] else done }
  }

  /** The collected rows are a linked chain from the peak down to this level. */
  ghost predicate Linking(peak: Hash, peakHeight: nat, p: Pass) {
    && p.level <= peakHeight
    && (p.done == [] ==> p.level == peakHeight)
    && (p.done != [] ==>
          p.done[0].hash == peak && p.done[0].height == peakHeight && p.done[|p.done| - 1].height > p.level)
    && LinkedDown(p.done)
    && (p.found.Some? ==> p.found.value.hash == p.Expect(peak) && p.found.value.height == p.level)
  }

  /** A row that was seen: flagged exactly when collected, and at this level or at a finished one. */
  ghost predicate SeenOk(r: Row, peakHeight: nat, p: Pass) {
    r.height <= peakHeight ==>
      && p.level <= r.height
      && (r.inMainChain <==> r in p.Chain())
      && (r.height == p.level || Covered(p.done, r.height))
  }

  ghost predicate AllSeen(rows: seq<Row>, i: nat, peakHeight: nat, p: Pass)
    requires i <= |rows|
  {
    forall j {:trigger SeenOk(rows[j], peakHeight, p)} :: 0 <= j < i ==> SeenOk(rows[j], peakHeight, p)
  }

  /** The collected rows are among those seen, each once. */
  ghost predicate Collected(rows: seq<Row>, i: nat, peakHeight: nat, p: Pass)
    requires i <= |rows|
  {
    && (forall r :: r in p.Chain() ==> r in rows[..i] && r.height <= peakHeight)
    && (forall r, j, j' {:trigger SameBlock(rows[j], r), SameBlock(rows[j'], r)} ::
          r in p.Chain() && 0 <= j < j' < i && SameBlock(rows[j], r) ==> !SameBlock(rows[j'], r))
  }

  /** While nothing is found at this level, no row seen has its height and the expected hash. */
  ghost predicate NotYet(rows: seq<Row>, i: nat, peak: Hash, p: Pass)
    requires i <= |rows|
  {
    p.found.None? ==> forall j :: 0 <= j < i ==> !(rows[j].height == p.level && rows[j].hash == p.Expect(peak))
  }

  /** The first i rows, against what has been collected from them. */
  ghost predicate SeenAtLevel(rows: seq<Row>, i: nat, peak: Hash, peakHeight: nat, p: Pass)
    requires i <= |rows|
  {
    AllSeen(rows, i, peakHeight, p) && Collected(rows, i, peakHeight, p) && NotYet(rows, i, peak, p)
  }

  /** ... when the row before was the last one looked at. */
  ghost predicate Seen(rows: seq<Row>, i: nat, peak: Hash, peakHeight: nat, p: Pass)
    requires i <= |rows|
  {
    && SeenAtLevel(rows, i, peak, peakHeight, p)
    && (i == 0 ==> p.done == [])
    && (i > 0 && rows[i - 1].height <= peakHeight ==> rows[i - 1].height == p.level)
    && (i > 0 && rows[i - 1].height > peakHeight ==> p.level == peakHeight)
  }

  /** A main chain, if there is one, starts with what has been collected. */
  ghost predicate Follows(chain: seq<Row>, p: Pass) {
    && |p.done| < |chain| && p.done == chain[..|p.done|]
    && chain[|p.done|].height == p.level
    && (p.found.Some? ==> chain[|p.done|] == p.found.value)
  }

  lemma FollowsExpect(rows: seq<Row>, peak: Hash, peakHeight: nat, genesis: Hash, chain: seq<Row>, p: Pass)
    requires IsMainChain(rows, peak, peakHeight, genesis, chain) && Follows(chain, p)
    ensures chain[|p.done|].hash == p.Expect(peak)
  {
    var n := |p.done|;
    if n > 0 {
      assert p.done[n - 1] == chain[..n][n - 1] == chain[n - 1];
      assert LinkAt(chain, n - 1);
    }
  }

  /** A row at this level with the expected hash is the chain's row. */
  lemma ExpectedIsChain(rows: seq<Row>, i: nat, peak: Hash, peakHeight: nat, genesis: Hash, chain: seq<Row>, p: Pass)
    requires IsMainChain(rows, peak, peakHeight, genesis, chain) && Follows(chain, p)
    requires i < |rows| && rows[i].height == p.level <= peakHeight
    ensures rows[i].hash == p.Expect(peak) ==> rows[i] == chain[|p.done|] && rows[i].inMainChain
    ensures rows[i].hash != p.Expect(peak) ==> !rows[i].inMainChain
  {
    FollowsExpect(rows, peak, peakHeight, genesis, chain, p);
    var n := |p.done|;
    assert RowOk(rows[i], peakHeight, chain) && InTable(rows, chain[n]);
    if rows[i].hash == p.Expect(peak) {
      var j :| 0 <= j < |rows| && rows[j] == chain[n];
      assert SameBlock(rows[i], chain[n]) && SameBlock(rows[j], chain[n]);
    } else if rows[i] in chain {
      var m :| 0 <= m < |chain| && chain[m] == rows[i];
      if m < n {
        Descends(chain, m, n);
      } else if n < m {
        Descends(chain, n, m);
      }
    }
  }

  /** Every chain row is in the table. */
  lemma ChainRow(rows: seq<Row>, peak: Hash, peakHeight: nat, genesis: Hash, chain: seq<Row>, n: nat) returns (j: nat)
    requires IsMainChain(rows, peak, peakHeight, genesis, chain) && n < |chain|
    ensures j < |rows| && rows[j] == chain[n] && rows[j].height <= peakHeight
  {
    assert InTable(rows, chain[n]);
    j :| 0 <= j < |rows| && rows[j] == chain[n];
  }

  /** Every level has a chain row, further down the chain for lower levels. */
  lemma LevelRow(rows: seq<Row>, peak: Hash, peakHeight: nat, genesis: Hash, chain: seq<Row>, i: nat, n: nat)
      returns (m: nat)
    requires IsMainChain(rows, peak, peakHeight, genesis, chain) && n < |chain|
    requires i < |rows| && rows[i].height < chain[n].height
    ensures n < m < |chain| && chain[m].height == rows[i].height <= chain[n + 1].height < chain[n].height
  {
    assert InTable(rows, chain[n]) && RowOk(rows[i], peakHeight, chain);
    m :| 0 <= m < |chain| && chain[m].height == rows[i].height;
    if m < n {
      Descends(chain, m, n);
    } else if n + 1 < m {
      Descends(chain, n + 1, m);
    }
    if n < m {
      Descends(chain, n, n + 1);
    }
  }

  /** Leaving a level without having found its row: there is no main chain. */
  lemma MustBeFound(rows: seq<Row>, i: nat, peak: Hash, peakHeight: nat, genesis: Hash, chain: seq<Row>, p: Pass)
    requires SortedDescending(rows) && i <= |rows| && Seen(rows, i, peak, peakHeight, p)
    requires IsMainChain(rows, peak, peakHeight, genesis, chain) && Follows(chain, p)
    requires i < |rows| ==> rows[i].height < p.level
    ensures p.found.Some?
  {
    hide IsMainChain;
    FollowsExpect(rows, peak, peakHeight, genesis, chain, p);
    var j := ChainRow(rows, peak, peakHeight, genesis, chain, |p.done|);
    assert j < i;
  }

  /** Moving to the next level. */
  lemma NextLevelFollows(rows: seq<Row>, i: nat, peak: Hash, peakHeight: nat, genesis: Hash, chain: seq<Row>, p: Pass)
    requires SortedDescending(rows) && i < |rows| && rows[i].height < p.level <= peakHeight && p.found.Some?
    requires AllSeen(rows, i, peakHeight, p)
    requires IsMainChain(rows, peak, peakHeight, genesis, chain) && Follows(chain, p)
    ensures Follows(chain, Pass(p.Chain(), rows[i].height, None))
  {
    hide IsMainChain;
    var n := |p.done|;
    var m := LevelRow(rows, peak, peakHeight, genesis, chain, i, n);
    assert p.Chain() == chain[..n + 1];
    var j := ChainRow(rows, peak, peakHeight, genesis, chain, n + 1);
    assert j < i ==> SeenOk(chain[n + 1], peakHeight, p);
  }

  lemma NextLevelSeen(rows: seq<Row>, i: nat, peak: Hash, peakHeight: nat, p: Pass)
    requires SortedDescending(rows) && i < |rows| && rows[i].height < p.level && p.found.Some?
    requires Linking(peak, peakHeight, p)
    requires AllSeen(rows, i, peakHeight, p)
    ensures Linking(peak, peakHeight, Pass(p.Chain(), rows[i].height, None))
    ensures AllSeen(rows, i, peakHeight, Pass(p.Chain(), rows[i].height, None))
  {
    var q := Pass(p.Chain(), rows[i].height, None);
    assert forall m :: 0 <= m < |p.done| ==> q.done[m] == p.done[m];
    assert q.done[|p.done|] == p.found.value;
    forall m | 0 <= m < |q.done| - 1 ensures LinkAt(q.done, m) {
      assert m < |p.done| - 1 ==> LinkAt(p.done, m);
    }
    forall j | 0 <= j < i ensures SeenOk(rows[j], peakHeight, q) {
      assert SeenOk(rows[j], peakHeight, p);
    }
  }

  lemma LevelChange(rows: seq<Row>, i: nat, peak: Hash, peakHeight: nat, p: Pass)
    requires SortedDescending(rows) && i < |rows| && rows[i].height < p.level && p.found.Some?
    requires Linking(peak, peakHeight, p) && Seen(rows, i, peak, peakHeight, p)
    ensures Linking(peak, peakHeight, Pass(p.Chain(), rows[i].height, None))
    ensures SeenAtLevel(rows, i, peak, peakHeight, Pass(p.Chain(), rows[i].height, None))
  {
    NextLevelSeen(rows, i, peak, peakHeight, p);
    var q := Pass(p.Chain(), rows[i].height, None);
    assert q.Chain() == p.Chain();
    forall j | 0 <= j < i ensures rows[j].height > q.level || rows[j].height > peakHeight {
      assert SeenOk(rows[j], peakHeight, p);
    }
  }

  /** Rows of finished levels are higher than this level. */
  lemma DoneIsHigher(peak: Hash, peakHeight: nat, p: Pass, r: Row)
    requires Linking(peak, peakHeight, p) && r in p.done
    ensures r.height > p.level
  {
    var m :| 0 <= m < |p.done| && p.done[m] == r;
    if m < |p.done| - 1 {
      Descends(p.done, m, |p.done| - 1);
    }
  }

  lemma FoundRow(rows: seq<Row>, i: nat, peak: Hash, peakHeight: nat, p: Pass)
    requires i < |rows| && rows[i].height == p.level && p.found.None?
    requires rows[i].hash == p.Expect(peak) && rows[i].inMainChain
    requires Linking(peak, peakHeight, p) && SeenAtLevel(rows, i, peak, peakHeight, p)
    ensures Linking(peak, peakHeight, p.(found := Some(rows[i])))
    ensures Seen(rows, i + 1, peak, peakHeight, p.(found := Some(rows[i])))
  {
    hide LinkedDown;
    var row, q := rows[i], p.(found := Some(rows[i]));
    assert rows[..i + 1] == rows[..i] + [row];
    forall r | r in p.done ensures r.height > p.level {
      DoneIsHigher(peak, peakHeight, p, r);
    }
    assert forall r :: r in q.Chain() <==> r in p.done || r == row;
    forall j | 0 <= j < i + 1 ensures SeenOk(rows[j], peakHeight, q) {
      assert j < i ==> SeenOk(rows[j], peakHeight, p) && rows[j] != row;
    }
    forall r, j, j' | r in q.Chain() && 0 <= j < j' < i + 1 && SameBlock(rows[j], r) ensures !SameBlock(rows[j'], r) {
      if j' < i && r != row {
        assert r in p.Chain();
      }
    }
  }

  lemma OrphanRow(rows: seq<Row>, i: nat, peak: Hash, peakHeight: nat, p: Pass)
    requires i < |rows| && rows[i].height == p.level
    requires rows[i].hash != p.Expect(peak) && !rows[i].inMainChain
    requires Linking(peak, peakHeight, p) && SeenAtLevel(rows, i, peak, peakHeight, p)
    ensures Seen(rows, i + 1, peak, peakHeight, p)
  {
    hide LinkedDown;
    assert rows[..i + 1] == rows[..i] + [rows[i]];
    forall r | r in p.Chain() ensures !SameBlock(rows[i], r) && r != rows[i] {
      if r in p.done {
        DoneIsHigher(peak, peakHeight, p, r);
      }
    }
    forall j | 0 <= j < i + 1 ensures SeenOk(rows[j], peakHeight, p) {
      assert j < i ==> SeenOk(rows[j], peakHeight, p);
    }
  }

  lemma LaterRow(rows: seq<Row>, i: nat, peak: Hash, peakHeight: nat, p: Pass)
    requires SortedDescending(rows) && i < |rows| && rows[i].height > peakHeight
    requires Linking(peak, peakHeight, p) && Seen(rows, i, peak, peakHeight, p)
    ensures Seen(rows, i + 1, peak, peakHeight, p)
  {
    assert rows[..i + 1] == rows[..i] + [rows[i]];
    forall j | 0 <= j < i + 1 ensures SeenOk(rows[j], peakHeight, p) {
      assert j < i ==> SeenOk(rows[j], peakHeight, p);
    }
    if i > 0 {
      assert rows[i - 1].height >= rows[i].height;
    }
  }

  lemma ChainIsLinked(peak: Hash, peakHeight: nat, p: Pass)
    requires Linking(peak, peakHeight, p) && p.found.Some?
    ensures LinkedDown(p.Chain()) && p.Chain()[0].hash == peak && p.Chain()[0].height == peakHeight
    ensures p.Chain()[|p.Chain()| - 1] == p.found.value
  {
    var chain := p.Chain();
    assert forall m :: 0 <= m < |p.done| ==> chain[m] == p.done[m];
    forall m | 0 <= m < |chain| - 1 ensures LinkAt(chain, m) {
      assert m < |p.done| - 1 ==> LinkAt(p.done, m);
    }
  }

  lemma CollectedCovers(r: Row, peakHeight: nat, p: Pass)
    requires SeenOk(r, peakHeight, p) && p.found.Some? && p.found.value.height == p.level
    ensures RowOk(r, peakHeight, p.Chain())
  {
    if r.height <= peakHeight {
      if r.height == p.level {
        assert p.Chain()[|p.done|].height == r.height;
      } else {
        var m :| 0 <= m < |p.done| && p.done[m].height == r.height;
        assert p.Chain()[m].height == r.height;
      }
    }
  }

  /** The pass ended at level 0 on a row that points at the genesis challenge: the collected rows are the main chain. */
  lemma PassAccepts(rows: seq<Row>, peak: Hash, peakHeight: nat, genesis: Hash, p: Pass)
    requires Linking(peak, peakHeight, p) && Seen(rows, |rows|, peak, peakHeight, p)
    requires p.level == 0 && p.found.Some? && p.found.value.prevHash == genesis
    ensures IsMainChain(rows, peak, peakHeight, genesis, p.Chain())
  {
    hide LinkedDown, RowOk, SeenOk, SameBlock;
    var chain := p.Chain();
    assert rows[..|rows|] == rows;
    ChainIsLinked(peak, peakHeight, p);
    forall j | 0 <= j < |rows| ensures RowOk(rows[j], peakHeight, chain) {
      assert SeenOk(rows[j], peakHeight, p);
      CollectedCovers(rows[j], peakHeight, p);
    }
    forall m | 0 <= m < |chain| ensures InTable(rows, chain[m]) && chain[m].height <= peakHeight {
      assert chain[m] in chain;
    }
  }

  /** At the end, a main chain that follows the pass forces level 0, a found row, and the genesis link. */
  lemma PassMustAccept(rows: seq<Row>, peak: Hash, peakHeight: nat, genesis: Hash, chain: seq<Row>, p: Pass)
    requires SortedDescending(rows) && Seen(rows, |rows|, peak, peakHeight, p)
    requires IsMainChain(rows, peak, peakHeight, genesis, chain) && Follows(chain, p)
    ensures p.level == 0 && p.found.Some? && p.found.value.prevHash == genesis
  {
    MustBeFound(rows, |rows|, peak, peakHeight, genesis, chain, p);
    var last := |chain| - 1;
    var j := ChainRow(rows, peak, peakHeight, genesis, chain, last);
    assert SeenOk(chain[last], peakHeight, p);
    if |p.done| < last {
      Descends(chain, |p.done|, last);
    }
  }

  /** What a failure of the walk says about the table. */
  ghost predicate Shows(rows: seq<Row>, peakHeight: nat, blocks: bool, failure: Failure) {
    match failure
    case BlobMismatch =>
      blocks && exists r :: r in rows && r.height <= peakHeight && !(BlobOk(r) && r.blob.prevHash == r.prevHash)
    case MultipleBlocks => exists i, j :: 0 <= i < j < |rows| && SameBlock(rows[i], rows[j])
    case FlagNotSet => exists r :: r in rows && r.height <= peakHeight && !r.inMainChain
    case FlagSetOnOrphan => exists r :: r in rows && r.height <= peakHeight && r.inMainChain
    case MissingBlocksBelow => forall r :: r in rows ==> r.height > 0
    case MissingBlock | InvalidGenesis => true
    case _ => false
  }

  lemma FoundTwice(rows: seq<Row>, i: nat, peak: Hash, peakHeight: nat, p: Pass)
    requires i < |rows| && rows[i].height == p.level && rows[i].hash == p.Expect(peak) && p.found.Some?
    requires Linking(peak, peakHeight, p) && SeenAtLevel(rows, i, peak, peakHeight, p)
    ensures exists j :: 0 <= j < i && SameBlock(rows[j], rows[i])
  {
    assert p.found.value in p.Chain() by { assert p.Chain()[|p.done|] == p.found.value; }
    var j :| 0 <= j < i && rows[..i][j] == p.found.value;
    assert SameBlock(rows[j], rows[i]);
  }

  lemma NothingBelow(rows: seq<Row>, peak: Hash, peakHeight: nat, p: Pass)
    requires Seen(rows, |rows|, peak, peakHeight, p) && p.level > 0
    ensures forall r :: r in rows ==> r.height > 0
  {
    forall j | 0 <= j < |rows| ensures rows[j].height > 0 {
      assert SeenOk(rows[j], peakHeight, p);
    }
  }

  /** The walk itself.  A failure is an exception, and there is one exactly when the table is not valid. */
  method Walk(rows: seq<Row>, peak: Hash, peakHeight: nat, genesis: Hash, validateBlocks: bool)
      returns (failure: Option<Failure>)
    requires SortedDescending(rows)
    ensures failure.None? <==> ValidTable(rows, peak, peakHeight, genesis, validateBlocks)
    ensures failure.Some? ==> Shows(rows, peakHeight, validateBlocks, failure.value)
  {
    hide IsMainChain, Seen, SeenAtLevel, Linking, Follows, BlobOk;
    ghost var valid := ValidTable(rows, peak, peakHeight, genesis, validateBlocks);
    ghost var chain: seq<Row> := [];
    if valid {
      chain :|
        IsMainChain(rows, peak, peakHeight, genesis, chain) && (validateBlocks ==> BlobsOk(rows, peakHeight, chain));
      StartFollows(rows, peak, peakHeight, genesis, chain);
    }
    var currentHeight, expectHash, nextHash: Option<Hash> := peakHeight, peak, None;
    ghost var p := Pass([], peakHeight, None);
    StartSeen(rows, peak, peakHeight);
    for i := 0 to |rows|
      invariant currentHeight == p.level && expectHash == p.Expect(peak)
      invariant nextHash == if p.found.Some? then Some(p.found.value.prevHash) else None
      invariant Linking(peak, peakHeight, p) && Seen(rows, i, peak, peakHeight, p)
      invariant valid ==> Follows(chain, p)
      invariant validateBlocks ==> forall j :: 0 <= j < i && rows[j].height <= peakHeight ==> BlobOk(rows[j])
      invariant validateBlocks ==> forall r :: r in p.Chain() ==> r.blob.prevHash == r.prevHash
    {
      var row := rows[i];
      if row.height > peakHeight {
        LaterRow(rows, i, peak, peakHeight, p);
        continue;
      }
      if validateBlocks && !BlobOk(row) {
        return Some(BlobMismatch);
      }
      LevelBound(rows, i, peak, peakHeight, p);
      if row.height != currentHeight {
        if nextHash.None? {
          if valid { MustBeFound(rows, i, peak, peakHeight, genesis, chain, p); }
          return Some(MissingBlock);
        }
        if valid { FollowOn(rows, i, peak, peakHeight, genesis, chain, p); }
        LevelChange(rows, i, peak, peakHeight, p);
        p := Pass(p.Chain(), row.height, None);
        expectHash, nextHash, currentHeight := nextHash.value, None, row.height;
      } else {
        AtLevel(rows, i, peak, peakHeight, p);
      }
      if valid { ExpectedRow(rows, i, peak, peakHeight, genesis, chain, p); }
      if row.hash == expectHash {
        if nextHash.Some? {
          FoundTwice(rows, i, peak, peakHeight, p);
          if valid { OnlyOnce(rows, i, peak, peakHeight, genesis, chain, p); }
          return Some(MultipleBlocks);
        }
        if !row.inMainChain {
          return Some(FlagNotSet);
        }
        if validateBlocks && row.blob.prevHash != row.prevHash {
          assert valid ==> row in chain;
          return Some(BlobMismatch);
        }
        FoundRow(rows, i, peak, peakHeight, p);
        if valid { FollowFound(chain, p, row); }
        p := p.(found := Some(row));
        nextHash := Some(row.prevHash);
      } else {
        if row.inMainChain {
          return Some(FlagSetOnOrphan);
        }
        OrphanRow(rows, i, peak, peakHeight, p);
      }
    }
    if valid { PassMustAccept(rows, peak, peakHeight, genesis, chain, p); }
    if currentHeight != 0 {
      NothingBelow(rows, peak, peakHeight, p);
      return Some(MissingBlocksBelow);
    }
    if nextHash != Some(genesis) {
      return Some(InvalidGenesis);
    }
    PassAccepts(rows, peak, peakHeight, genesis, p);
    return None;
  }

  lemma StartFollows(rows: seq<Row>, peak: Hash, peakHeight: nat, genesis: Hash, chain: seq<Row>)
    requires IsMainChain(rows, peak, peakHeight, genesis, chain)
    ensures Follows(chain, Pass([], peakHeight, None))
  {
  }

  lemma StartSeen(rows: seq<Row>, peak: Hash, peakHeight: nat)
    ensures Seen(rows, 0, peak, peakHeight, Pass([], peakHeight, None))
    ensures Linking(peak, peakHeight, Pass([], peakHeight, None))
  {
  }

  lemma LevelBound(rows: seq<Row>, i: nat, peak: Hash, peakHeight: nat, p: Pass)
    requires SortedDescending(rows) && i < |rows| && rows[i].height <= peakHeight
    requires Linking(peak, peakHeight, p) && Seen(rows, i, peak, peakHeight, p)
    ensures rows[i].height <= p.level <= peakHeight
  {
    if i > 0 {
      assert rows[i - 1].height >= rows[i].height;
    }
  }

  lemma AtLevel(rows: seq<Row>, i: nat, peak: Hash, peakHeight: nat, p: Pass)
    requires i <= |rows| && Seen(rows, i, peak, peakHeight, p)
    ensures SeenAtLevel(rows, i, peak, peakHeight, p)
  {
  }

  lemma FollowOn(rows: seq<Row>, i: nat, peak: Hash, peakHeight: nat, genesis: Hash, chain: seq<Row>, p: Pass)
    requires SortedDescending(rows) && i < |rows| && rows[i].height < p.level <= peakHeight && p.found.Some?
    requires Seen(rows, i, peak, peakHeight, p)
    requires IsMainChain(rows, peak, peakHeight, genesis, chain) && Follows(chain, p)
    ensures Follows(chain, Pass(p.Chain(), rows[i].height, None))
  {
    NextLevelFollows(rows, i, peak, peakHeight, genesis, chain, p);
  }

  lemma ExpectedRow(rows: seq<Row>, i: nat, peak: Hash, peakHeight: nat, genesis: Hash, chain: seq<Row>, p: Pass)
    requires IsMainChain(rows, peak, peakHeight, genesis, chain) && Follows(chain, p)
    requires i < |rows| && rows[i].height == p.level <= peakHeight
    ensures rows[i].hash == p.Expect(peak) ==>
              |p.done| < |chain| && rows[i] == chain[|p.done|] && rows[i] in chain && rows[i].inMainChain
    ensures rows[i].hash != p.Expect(peak) ==> !rows[i].inMainChain
  {
    ExpectedIsChain(rows, i, peak, peakHeight, genesis, chain, p);
  }

  /** A second row with the expected hash at this level. */
  lemma OnlyOnce(rows: seq<Row>, i: nat, peak: Hash, peakHeight: nat, genesis: Hash, chain: seq<Row>, p: Pass)
    requires IsMainChain(rows, peak, peakHeight, genesis, chain) && Follows(chain, p)
    requires i < |rows| && rows[i].height == p.level && p.found.Some? && SeenAtLevel(rows, i, peak, peakHeight, p)
    requires Linking(peak, peakHeight, p)
    ensures rows[i].hash != p.Expect(peak)
  {
    assert p.found.value in p.Chain() by { assert p.Chain()[|p.done|] == p.found.value; }
    var j :| 0 <= j < i && rows[..i][j] == p.found.value;
    assert rows[j] == chain[|p.done|];
    assert SameBlock(rows[j], chain[|p.done|]);
    assert rows[i].hash == p.Expect(peak) ==> SameBlock(rows[i], chain[|p.done|]);
  }

  lemma FollowFound(chain: seq<Row>, p: Pass, row: Row)
    requires Follows(chain, p) && chain[|p.done|] == row
    ensures Follows(chain, p.(found := Some(row)))
  {
  }

  // ---- the whole validation --------------------------------------------------------------------

  datatype Database = Database(version: Option<nat>, peak: Option<Hash>, rows: seq<Row>)

  /** SELECT height FROM full_blocks WHERE header_hash = peak */
  method PeakHeight(rows: seq<Row>, peak: Hash) returns (height: Option<nat>)
    ensures height.None? <==> forall r :: r in rows ==> r.hash != peak
    ensures height.Some? ==> exists r :: r in rows && r.hash == peak && r.height == height.value
  {
    for i := 0 to |rows|
      invariant forall r :: r in rows[..i] ==> r.hash != peak
    {
      assert rows[..i + 1] == rows[..i] + [rows[i]];
      if rows[i].hash == peak {
        return Some(rows[i].height);
      }
    }
    assert rows[..|rows|] == rows;
    return None;
  }

  /** Hashes are the table's primary key. */
  predicate PrimaryKey(rows: seq<Row>) {
    forall i, j :: 0 <= i < j < |rows| ==> rows[i].hash != rows[j].hash
  }

  ghost predicate ValidDatabase(db: Database, genesis: Hash, blocks: bool) {
    && db.version == Some(2) && db.peak.Some?
    && exists r ::
         r in db.rows && r.hash == db.peak.value && ValidTable(db.rows, db.peak.value, r.height, genesis, blocks)
  }

  /** validate_v2: it returns without raising exactly on the valid databases. */
  method ValidateV2(db: Database, genesis: Hash, validateBlocks: bool) returns (failure: Option<Failure>)
    requires SortedDescending(db.rows) && PrimaryKey(db.rows)
    ensures failure.None? <==> ValidDatabase(db, genesis, validateBlocks)
    ensures failure == Some(MissingVersion) <==> db.version.None?
    ensures failure == Some(WrongVersion) <==> db.version.Some? && db.version.value != 2
    ensures failure == Some(MissingPeak) <==> db.version == Some(2) && db.peak.None?
    ensures failure == Some(MissingPeakBlock) <==>
            db.version == Some(2) && db.peak.Some? && forall r :: r in db.rows ==> r.hash != db.peak.value
  {
    hide ValidTable, SortedDescending;
    if db.version.None? {
      return Some(MissingVersion);
    }
    if db.version.value != 2 {
      return Some(WrongVersion);
    }
    if db.peak.None? {
      return Some(MissingPeak);
    }
    var peakHeight := PeakHeight(db.rows, db.peak.value);
    if peakHeight.None? {
      return Some(MissingPeakBlock);
    }
    failure := Walk(db.rows, db.peak.value, peakHeight.value, genesis, validateBlocks);
  }

  // ---- what acceptance does and does not give ------------------------------------------------------

  /** There is only one main chain to find. */
  lemma {:induction false} ChainIsUnique(rows: seq<Row>, peak: Hash, peakHeight: nat, genesis: Hash, c: seq<Row>,
                                         d: seq<Row>, n: nat)
    requires IsMainChain(rows, peak, peakHeight, genesis, c) && IsMainChain(rows, peak, peakHeight, genesis, d)
    requires n < |c|
    ensures n < |d| && c[n] == d[n]
  {
    hide Marked;
    if n > 0 {
      ChainIsUnique(rows, peak, peakHeight, genesis, c, d, n - 1);
      assert LinkAt(c, n - 1);
      if n == |d| {
        Descends(c, n - 1, n);
      }
      SameHeightBelow(rows, peak, peakHeight, genesis, c, d, n);
      SameHeightBelow(rows, peak, peakHeight, genesis, d, c, n);
      assert LinkAt(d, n - 1);
    }
    SameRow(rows, peak, peakHeight, genesis, c, d, n);
  }

  /** Below a shared row, the second chain does not skip the height the first one takes. */
  lemma SameHeightBelow(rows: seq<Row>, peak: Hash, peakHeight: nat, genesis: Hash, c: seq<Row>, d: seq<Row>, n: nat)
    requires IsMainChain(rows, peak, peakHeight, genesis, c) && IsMainChain(rows, peak, peakHeight, genesis, d)
    requires 0 < n < |c| && n < |d| && c[n - 1] == d[n - 1]
    ensures c[n].height <= d[n].height
  {
    hide Marked;
    Descends(c, n - 1, n);
    var j := ChainRow(rows, peak, peakHeight, genesis, c, n);
    var m := LevelRow(rows, peak, peakHeight, genesis, d, j, n - 1);
  }

  lemma SameRow(rows: seq<Row>, peak: Hash, peakHeight: nat, genesis: Hash, c: seq<Row>, d: seq<Row>, n: nat)
    requires IsMainChain(rows, peak, peakHeight, genesis, c) && IsMainChain(rows, peak, peakHeight, genesis, d)
    requires n < |c| && n < |d| && SameBlock(c[n], d[n])
    ensures c[n] == d[n]
  {
    var j := ChainRow(rows, peak, peakHeight, genesis, c, n);
    var j' := ChainRow(rows, peak, peakHeight, genesis, d, n);
    assert SameBlock(rows[j], c[n]) && SameBlock(rows[j'], c[n]);
  }

  ghost predicate EveryHeight(rows: seq<Row>, peakHeight: nat) {
    forall h: nat {:trigger Covered(rows, h)} :: h <= peakHeight ==> Covered(rows, h)
  }

  predicate Contiguous(chain: seq<Row>, peakHeight: nat) {
    |chain| == peakHeight + 1 && forall i :: 0 <= i < |chain| ==> chain[i].height == peakHeight - i
  }

  /** The accepted chain has no gaps exactly when every height has a row: a missing height is not noticed. */
  lemma ContiguousExactlyWhen(rows: seq<Row>, peak: Hash, peakHeight: nat, genesis: Hash, chain: seq<Row>)
    requires IsMainChain(rows, peak, peakHeight, genesis, chain)
    ensures Contiguous(chain, peakHeight) <==> EveryHeight(rows, peakHeight)
  {
    if Contiguous(chain, peakHeight) {
      forall h: nat | h <= peakHeight ensures Covered(rows, h) {
        var j := ChainRow(rows, peak, peakHeight, genesis, chain, peakHeight - h);
      }
    }
    if EveryHeight(rows, peakHeight) {
      NoGaps(rows, peak, peakHeight, genesis, chain, |chain| - 1);
      forall i | 0 <= i < |chain| ensures chain[i].height == peakHeight - i {
        NoGaps(rows, peak, peakHeight, genesis, chain, i);
      }
    }
  }

  lemma {:induction false} NoGaps(rows: seq<Row>, peak: Hash, peakHeight: nat, genesis: Hash, chain: seq<Row>, n: nat)
    requires IsMainChain(rows, peak, peakHeight, genesis, chain) && n < |chain|
    requires EveryHeight(rows, peakHeight)
    ensures chain[n].height == peakHeight - n
  {
    hide IsMainChain, Marked;
    if n == 0 {
      StartFollows(rows, peak, peakHeight, genesis, chain);
    } else {
      NoGaps(rows, peak, peakHeight, genesis, chain, n - 1);
      var below := ChainBelow(rows, peak, peakHeight, genesis, chain, n);
      assert below == chain[n].height < chain[n - 1].height;
      assert Covered(rows, chain[n - 1].height - 1);
      var i :| 0 <= i < |rows| && rows[i].height == chain[n - 1].height - 1;
      var m := LevelRow(rows, peak, peakHeight, genesis, chain, i, n - 1);
    }
  }

  lemma ChainBelow(rows: seq<Row>, peak: Hash, peakHeight: nat, genesis: Hash, chain: seq<Row>, n: nat) returns (h: nat)
    requires IsMainChain(rows, peak, peakHeight, genesis, chain) && 0 < n < |chain|
    ensures h == chain[n].height < chain[n - 1].height
  {
    Descends(chain, n - 1, n);
    h := chain[n].height;
  }

  /** Two rows, at heights 2 and 0, linked directly: a gap that is accepted. */
  lemma GapIsAccepted(blob: Blob)
    ensures ValidTable([Row(7, 6, 2, true, blob), Row(6, 5, 0, true, blob)], 7, 2, 5, false)
  {
    var rows := [Row(7, 6, 2, true, blob), Row(6, 5, 0, true, blob)];
    assert rows[0].height == 2 && rows[1].height == 0;
    assert IsMainChain(rows, 7, 2, 5, rows);
  }
}
