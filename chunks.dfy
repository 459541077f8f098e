/**
 * The buffering and part-file rotation of the two table dumpers
 * (common/dumper.go), stated as a fold over the sequence of encoded rows.
 * `SqlStep` and `DorisStep` are one iteration of the cursor loop of
 * dumpTable and dumpDorisTable; `SqlFinish` and `DorisFinish` are what
 * follows the loop. The methods in module Dumper are proved to compute
 * exactly these folds, and the lemmas here say what the folds guarantee.
 */
module DumpChunks {
  import opened Text

  /** The two thresholds: StmtSize (bytes) and ChunksizeInMB. */
  datatype Limits = Limits(stmtSize: int, chunksizeInMB: int)

  /** `chunkbytes/1024/1024 >= ChunksizeInMB`: the part file is full. */
  predicate Rotates(lim: Limits, chunkbytes: nat)
  {
    chunkbytes / 1024 / 1024 >= lim.chunksizeInMB
  }

  function Flatten(bs: seq<seq<string>>): (rows: seq<string>)
  {
    if bs == [] then [] else Flatten(bs[..|bs| - 1]) + bs[|bs| - 1]
  }

  lemma FlattenAppend(bs: seq<seq<string>>, b: seq<string>)
    ensures Flatten(bs + [b]) == Flatten(bs) + b
  {
    assert (bs + [b])[..|bs|] == bs;
  }

  /** A batch is closed by the first row that brings it to StmtSize bytes. */
  predicate FullBatch(lim: Limits, b: seq<string>)
  {
    && b != []
    && SumLen(b) >= lim.stmtSize
    && (|b| == 1 || SumLen(b[..|b| - 1]) < lim.stmtSize)
  }

  // ================================================================ SQL mode

  /** One part file of SQL mode: its number and its INSERT batches. */
  datatype SqlPart = SqlPart(no: nat, batches: seq<seq<string>>)

  /** The loop variables of dumpTable: fileNo, stmtsize, chunkbytes, the
      pending `rows`, the `inserts` (as the batches they were built from),
      and the parts written so far. */
  datatype SqlState = SqlState(
    fileNo: nat,
    stmtsize: nat,
    chunkbytes: nat,
    pending: seq<string>,
    batches: seq<seq<string>>,
    parts: seq<SqlPart>)

  const SqlStart := SqlState(1, 0, 0, [], [], [])

  /** Buffer one row of the cursor: add its bytes to both counters and
      close the INSERT when the statement size is reached. */
  function SqlBuffer(lim: Limits, st: SqlState, r: string): SqlState
  {
    var a := st.(stmtsize := st.stmtsize + ByteLen(r),
                 chunkbytes := st.chunkbytes + ByteLen(r),
                 pending := st.pending + [r]);
    if a.stmtsize >= lim.stmtSize
    then a.(batches := a.batches + [a.pending], pending := [], stmtsize := 0)
    else a
  }

  /** Close the part when the chunk size is reached. A rotation clears the
      INSERTs and chunkbytes, not the rows of the unfinished INSERT. */
  function SqlRotate(lim: Limits, st: SqlState): SqlState
  {
    if Rotates(lim, st.chunkbytes)
    then st.(parts := st.parts + [SqlPart(st.fileNo, st.batches)], batches := [],
             chunkbytes := 0, fileNo := st.fileNo + 1)
    else st
  }

  /** One iteration of the cursor loop. */
  function SqlStep(lim: Limits, st: SqlState, r: string): SqlState
  {
    SqlRotate(lim, SqlBuffer(lim, st, r))
  }

  function SqlRun(lim: Limits, rs: seq<string>): SqlState
  {
    if rs == [] then SqlStart else SqlStep(lim, SqlRun(lim, rs[..|rs| - 1]), rs[|rs| - 1])
  }

  /** What is still buffered, as the final part would hold it. */
  function SqlTail(st: SqlState): seq<seq<string>>
  {
    st.batches + (if st.pending != [] then [st.pending] else [])
  }

  /** After the loop, as written: a final part only when chunkbytes > 0. */
  function SqlFinishAsWritten(st: SqlState): seq<SqlPart>
  {
    if st.chunkbytes > 0 then st.parts + [SqlPart(st.fileNo, SqlTail(st))] else st.parts
  }

  /** After the loop, corrected: a final part whenever rows are buffered. */
  function SqlFinish(st: SqlState): seq<SqlPart>
  {
    if st.pending != [] || st.batches != [] then st.parts + [SqlPart(st.fileNo, SqlTail(st))]
    else st.parts
  }

  function SqlPartsAsWritten(lim: Limits, rs: seq<string>): seq<SqlPart>
  {
    SqlFinishAsWritten(SqlRun(lim, rs))
  }

  function SqlParts(lim: Limits, rs: seq<string>): seq<SqlPart>
  {
    SqlFinish(SqlRun(lim, rs))
  }

  /** The rows of a sequence of parts, in part order. */
  function SqlRows(parts: seq<SqlPart>): seq<string>
  {
    if parts == [] then [] else SqlRows(parts[..|parts| - 1]) + Flatten(parts[|parts| - 1].batches)
  }

  lemma SqlRowsAppend(parts: seq<SqlPart>, p: SqlPart)
    ensures SqlRows(parts + [p]) == SqlRows(parts) + Flatten(p.batches)
  {
    assert (parts + [p])[..|parts|] == parts;
  }

  /** The rows seen so far are the rows of the parts, of the closed
      INSERTs and of the unfinished INSERT, in that order. */
  ghost predicate SqlConserves(rs: seq<string>, st: SqlState)
  {
    SqlRows(st.parts) + Flatten(st.batches) + st.pending == rs
  }

  ghost predicate SqlNumbered(st: SqlState)
  {
    && st.fileNo == |st.parts| + 1
    && (forall k | 0 <= k < |st.parts| :: st.parts[k].no == k + 1)
  }

  ghost predicate SqlCounters(lim: Limits, st: SqlState)
  {
    && st.stmtsize == SumLen(st.pending)
    && (st.pending == [] || st.stmtsize < lim.stmtSize)
    && st.chunkbytes <= SumLen(Flatten(st.batches)) + SumLen(st.pending)
  }

  ghost predicate SqlBatchesFull(lim: Limits, st: SqlState)
  {
    && (forall b | b in st.batches :: FullBatch(lim, b))
    && (forall p | p in st.parts :: forall b | b in p.batches :: FullBatch(lim, b))
  }

  /** What holds of the loop variables after any prefix of the cursor. */
  ghost predicate SqlInv(lim: Limits, rs: seq<string>, st: SqlState)
  {
    SqlConserves(rs, st) && SqlNumbered(st) && SqlCounters(lim, st) && SqlBatchesFull(lim, st)
  }

  lemma SqlBufferInv(lim: Limits, rs: seq<string>, st: SqlState, r: string)
    requires SqlInv(lim, rs, st)
    ensures SqlInv(lim, rs + [r], SqlBuffer(lim, st, r))
  {
    var a := st.(stmtsize := st.stmtsize + ByteLen(r),
                 chunkbytes := st.chunkbytes + ByteLen(r),
                 pending := st.pending + [r]);
    SumLenAppend(st.pending, [r]);
    SumLenSingleton(r);
    assert a.stmtsize == SumLen(a.pending);
    assert SqlConserves(rs + [r], a);
    if a.stmtsize >= lim.stmtSize {
      assert a.pending[..|a.pending| - 1] == st.pending;
      assert FullBatch(lim, a.pending);
      SqlFlushInv(lim, rs + [r], a);
    }
  }

  /** Closing a full INSERT moves its rows from the pending list to the
      batches. */
  lemma SqlFlushInv(lim: Limits, rs: seq<string>, a: SqlState)
    requires SqlConserves(rs, a) && SqlNumbered(a) && SqlBatchesFull(lim, a)
    requires a.chunkbytes <= SumLen(Flatten(a.batches)) + SumLen(a.pending)
    requires FullBatch(lim, a.pending)
    ensures SqlInv(lim, rs, a.(batches := a.batches + [a.pending], pending := [], stmtsize := 0))
  {
    var b := a.(batches := a.batches + [a.pending], pending := [], stmtsize := 0);
    FlushConserves(rs, a);
    FlushCounters(lim, a);
    assert SqlNumbered(b) by {
      assert b.parts == a.parts && b.fileNo == a.fileNo;
    }
    FullBatchesAppend(lim, a.batches, a.pending);
    assert SqlBatchesFull(lim, b);
  }

  lemma FlushConserves(rs: seq<string>, a: SqlState)
    requires SqlConserves(rs, a)
    ensures SqlConserves(rs, a.(batches := a.batches + [a.pending], pending := [], stmtsize := 0))
  {
    FlattenAppend(a.batches, a.pending);
  }

  lemma FlushCounters(lim: Limits, a: SqlState)
    requires a.chunkbytes <= SumLen(Flatten(a.batches)) + SumLen(a.pending)
    ensures SqlCounters(lim, a.(batches := a.batches + [a.pending], pending := [], stmtsize := 0))
  {
    FlattenAppend(a.batches, a.pending);
    SumLenAppend(Flatten(a.batches), a.pending);
  }

  lemma FullBatchesAppend(lim: Limits, bs: seq<seq<string>>, b: seq<string>)
    requires forall x | x in bs :: FullBatch(lim, x)
    requires FullBatch(lim, b)
    ensures forall x | x in bs + [b] :: FullBatch(lim, x)
  {
    forall x | x in bs + [b] ensures FullBatch(lim, x) {
      if x != b {
        assert x in bs;
      }
    }
  }

  lemma SqlRotateInv(lim: Limits, rs: seq<string>, st: SqlState)
    requires SqlInv(lim, rs, st)
    ensures SqlInv(lim, rs, SqlRotate(lim, st))
  {
    if Rotates(lim, st.chunkbytes) {
      var p := SqlPart(st.fileNo, st.batches);
      SqlRowsAppend(st.parts, p);
      var b := SqlRotate(lim, st);
      assert SqlConserves(rs, b);
      assert SqlNumbered(b);
      assert SqlBatchesFull(lim, b);
    }
  }

  lemma {:induction false} SqlRunInv(lim: Limits, rs: seq<string>)
    ensures SqlInv(lim, rs, SqlRun(lim, rs))
    decreases |rs|
  {
    if rs != [] {
      var init, r := rs[..|rs| - 1], rs[|rs| - 1];
      assert init + [r] == rs;
      var prev := SqlRun(lim, init);
      SqlRunInv(lim, init);
      SqlBufferInv(lim, init, prev, r);
      SqlRotateInv(lim, rs, SqlBuffer(lim, prev, r));
    }
  }

  /** Nothing is lost or reordered: the part files, read in part order, hold
      every row of the cursor exactly once, in cursor order. */
  lemma SqlPartsKeepRows(lim: Limits, rs: seq<string>)
    ensures SqlRows(SqlParts(lim, rs)) == rs
  {
    var st := SqlRun(lim, rs);
    SqlRunInv(lim, rs);
    if st.pending != [] || st.batches != [] {
      SqlRowsAppend(st.parts, SqlPart(st.fileNo, SqlTail(st)));
      if st.pending != [] {
        FlattenAppend(st.batches, st.pending);
      } else {
        assert SqlTail(st) == st.batches;
      }
    } else {
      assert Flatten(st.batches) == [];
    }
  }

  /** Parts are numbered 1, 2, 3, ... with no gap, the last one included;
      every INSERT but possibly the final one was closed exactly when it
      reached StmtSize bytes, and the final one holds fewer bytes. */
  lemma SqlPartsShape(lim: Limits, rs: seq<string>)
    ensures var ps := SqlParts(lim, rs);
      && (forall k | 0 <= k < |ps| :: ps[k].no == k + 1)
      && (forall k | 0 <= k < |ps| :: forall j | 0 <= j < |ps[k].batches| ::
            FullBatch(lim, ps[k].batches[j]) ||
            (k == |ps| - 1 && j == |ps[k].batches| - 1 && SumLen(ps[k].batches[j]) < lim.stmtSize))
  {
    var st := SqlRun(lim, rs);
    SqlRunInv(lim, rs);
    var ps := SqlParts(lim, rs);
    forall k, j | 0 <= k < |ps| && 0 <= j < |ps[k].batches|
      ensures FullBatch(lim, ps[k].batches[j]) ||
              (k == |ps| - 1 && j == |ps[k].batches| - 1 && SumLen(ps[k].batches[j]) < lim.stmtSize)
    {
      if k < |st.parts| {
        assert ps[k] == st.parts[k];
        assert ps[k] in st.parts;
        assert ps[k].batches[j] in ps[k].batches;
      } else if j < |st.batches| {
        assert ps[k].batches[j] == st.batches[j];
        assert st.batches[j] in st.batches;
      }
    }
  }

  /** The code as written loses exactly the rows still buffered when the
      rotation triggered by the last row left chunkbytes at zero. */
  lemma SqlPartsAsWrittenRows(lim: Limits, rs: seq<string>)
    ensures var st := SqlRun(lim, rs);
      SqlRows(SqlPartsAsWritten(lim, rs))
        + (if st.chunkbytes == 0 then Flatten(st.batches) + st.pending else []) == rs
    ensures var st := SqlRun(lim, rs);
      st.chunkbytes > 0 || (st.pending == [] && st.batches == []) ==>
        SqlPartsAsWritten(lim, rs) == SqlParts(lim, rs)
  {
    var st := SqlRun(lim, rs);
    SqlRunInv(lim, rs);
    SqlPartsKeepRows(lim, rs);
  }

  /** When the last row closes a part without closing its INSERT, that row
      is in no part file of the code as written. */
  lemma SqlLastRowLost(lim: Limits, rs: seq<string>)
    requires rs != []
    requires var prev := SqlRun(lim, rs[..|rs| - 1]);
      && prev.stmtsize + ByteLen(rs[|rs| - 1]) < lim.stmtSize
      && Rotates(lim, prev.chunkbytes + ByteLen(rs[|rs| - 1]))
    ensures |SqlRows(SqlPartsAsWritten(lim, rs))| < |rs|
  {
    var st := SqlRun(lim, rs);
    assert st.chunkbytes == 0 && st.pending != [];
    SqlPartsAsWrittenRows(lim, rs);
  }

  /** A one-row table with ChunksizeInMB = 0 and StmtSize = 100 yields one
      part file that holds no INSERT at all. */
  lemma SqlRowLostExample()
    ensures SqlPartsAsWritten(Limits(100, 0), ["(1)"]) == [SqlPart(1, [])]
    ensures SqlRows(SqlParts(Limits(100, 0), ["(1)"])) == ["(1)"]
  {
    var lim, rs := Limits(100, 0), ["(1)"];
    assert ByteLen("(1)") == 3 by {
      assert "(1)"[1..] == "1)" && "1)"[1..] == ")" && ")"[1..] == "";
    }
    assert rs[..0] == [] && rs[0] == "(1)";
    var buffered := SqlBuffer(lim, SqlStart, "(1)");
    assert buffered == SqlState(1, 3, 3, ["(1)"], [], []);
    var st := SqlRotate(lim, buffered);
    assert st == SqlState(2, 3, 0, ["(1)"], [], [SqlPart(1, [])]);
    assert SqlRun(lim, rs) == st;
    SqlPartsKeepRows(lim, rs);
  }

  // ============================================================== Doris mode

  /** One part file of Doris mode: its number and its rows. */
  datatype DorisPart = DorisPart(no: nat, rows: seq<string>)

  /** The loop variables of dumpDorisTable. */
  datatype DorisState = DorisState(
    fileNo: nat,
    chunkbytes: nat,
    pending: seq<string>,
    parts: seq<DorisPart>)

  const DorisStart := DorisState(1, 0, [], [])

  /** One row: buffer it; when the chunk size is reached write all buffered
      rows to the next part and clear the buffer. */
  function DorisStep(lim: Limits, st: DorisState, r: string): DorisState
  {
    var pending := st.pending + [r];
    var chunkbytes := st.chunkbytes + ByteLen(r);
    if Rotates(lim, chunkbytes)
    then DorisState(st.fileNo + 1, 0, [], st.parts + [DorisPart(st.fileNo, pending)])
    else DorisState(st.fileNo, chunkbytes, pending, st.parts)
  }

  function DorisRun(lim: Limits, rs: seq<string>): DorisState
  {
    if rs == [] then DorisStart else DorisStep(lim, DorisRun(lim, rs[..|rs| - 1]), rs[|rs| - 1])
  }

  /** After the loop: a final part only when chunkbytes > 0. */
  function DorisFinish(st: DorisState): seq<DorisPart>
  {
    if st.chunkbytes > 0 then st.parts + [DorisPart(st.fileNo, st.pending)] else st.parts
  }

  function DorisParts(lim: Limits, rs: seq<string>): seq<DorisPart>
  {
    DorisFinish(DorisRun(lim, rs))
  }

  function DorisRows(parts: seq<DorisPart>): seq<string>
  {
    if parts == [] then [] else DorisRows(parts[..|parts| - 1]) + parts[|parts| - 1].rows
  }

  lemma DorisRowsAppend(parts: seq<DorisPart>, p: DorisPart)
    ensures DorisRows(parts + [p]) == DorisRows(parts) + p.rows
  {
    assert (parts + [p])[..|parts|] == parts;
  }

  /** A part is closed by the first row that makes it reach the chunk size. */
  predicate ClosedByLastRow(lim: Limits, rows: seq<string>)
  {
    && rows != []
    && Rotates(lim, SumLen(rows))
    && (|rows| == 1 || !Rotates(lim, SumLen(rows[..|rows| - 1])))
  }

  ghost predicate DorisInv(lim: Limits, rs: seq<string>, st: DorisState)
  {
    && DorisRows(st.parts) + st.pending == rs
    && DorisNumbered(st)
    && st.chunkbytes == SumLen(st.pending)
    && (st.pending == [] || !Rotates(lim, SumLen(st.pending)))
    && DorisPartsClosed(lim, st)
  }

  ghost predicate DorisNumbered(st: DorisState)
  {
    && st.fileNo == |st.parts| + 1
    && (forall k | 0 <= k < |st.parts| :: st.parts[k].no == k + 1)
  }

  ghost predicate DorisPartsClosed(lim: Limits, st: DorisState)
  {
    forall p | p in st.parts :: ClosedByLastRow(lim, p.rows)
  }

  lemma DorisStepInv(lim: Limits, rs: seq<string>, st: DorisState, r: string)
    requires DorisInv(lim, rs, st)
    ensures DorisInv(lim, rs + [r], DorisStep(lim, st, r))
  {
    var pending := st.pending + [r];
    SumLenAppend(st.pending, [r]);
    SumLenSingleton(r);
    if Rotates(lim, st.chunkbytes + ByteLen(r)) {
      DorisRotateInv(lim, rs, st, r);
    } else {
      assert DorisRows(st.parts) + pending == rs + [r];
    }
  }

  /** The row that reaches the chunk size closes the part it joins. */
  lemma DorisRotateInv(lim: Limits, rs: seq<string>, st: DorisState, r: string)
    requires DorisInv(lim, rs, st)
    requires SumLen(st.pending + [r]) == st.chunkbytes + ByteLen(r)
    requires Rotates(lim, st.chunkbytes + ByteLen(r))
    ensures var pending := st.pending + [r];
      DorisInv(lim, rs + [r], DorisState(st.fileNo + 1, 0, [], st.parts + [DorisPart(st.fileNo, pending)]))
  {
    var pending := st.pending + [r];
    var part := DorisPart(st.fileNo, pending);
    assert pending[..|pending| - 1] == st.pending;
    assert ClosedByLastRow(lim, pending);
    DorisRowsAppend(st.parts, part);
    DorisCloseNumbered(lim, st, part);
    var next := DorisState(st.fileNo + 1, 0, [], st.parts + [part]);
    assert DorisRows(next.parts) + next.pending == rs + [r] by {
      assert DorisRows(next.parts) == DorisRows(st.parts) + st.pending + [r];
    }
    assert next.chunkbytes == SumLen(next.pending);
  }

  lemma DorisCloseNumbered(lim: Limits, st: DorisState, part: DorisPart)
    requires DorisNumbered(st) && DorisPartsClosed(lim, st)
    requires part.no == st.fileNo && ClosedByLastRow(lim, part.rows)
    ensures var next := DorisState(st.fileNo + 1, 0, [], st.parts + [part]);
      DorisNumbered(next) && DorisPartsClosed(lim, next)
  {
    var parts := st.parts + [part];
    forall k | 0 <= k < |parts| ensures parts[k].no == k + 1 {
      if k < |st.parts| {
        assert parts[k] == st.parts[k];
      }
    }
    forall p | p in parts ensures ClosedByLastRow(lim, p.rows) {
      if p != part {
        assert p in st.parts;
      }
    }
  }

  lemma {:induction false} DorisRunInv(lim: Limits, rs: seq<string>)
    ensures DorisInv(lim, rs, DorisRun(lim, rs))
    decreases |rs|
  {
    if rs != [] {
      var init, r := rs[..|rs| - 1], rs[|rs| - 1];
      assert init + [r] == rs;
      DorisRunInv(lim, init);
      DorisStepInv(lim, init, DorisRun(lim, init), r);
    }
  }

  /** Each encoded row is in exactly one Doris part, in cursor order, unless
      the rows after the last rotation all take zero bytes. */
  lemma DorisPartsRows(lim: Limits, rs: seq<string>)
    ensures var st := DorisRun(lim, rs);
      DorisRows(DorisParts(lim, rs)) + (if st.chunkbytes == 0 then st.pending else []) == rs
  {
    var st := DorisRun(lim, rs);
    DorisRunInv(lim, rs);
    if st.chunkbytes > 0 {
      DorisRowsAppend(st.parts, DorisPart(st.fileNo, st.pending));
    }
  }

  lemma {:induction false} SumLenPositive(rows: seq<string>)
    requires rows != [] && ByteLen(rows[|rows| - 1]) > 0
    ensures SumLen(rows) > 0
  {
  }

  /** When every encoded row takes at least one byte (any table with two or
      more columns, or without empty texts), the Doris parts hold exactly
      the cursor's rows, in order. */
  lemma DorisPartsKeepRows(lim: Limits, rs: seq<string>)
    requires forall k | 0 <= k < |rs| :: ByteLen(rs[k]) > 0
    ensures DorisRows(DorisParts(lim, rs)) == rs
  {
    var st := DorisRun(lim, rs);
    DorisRunInv(lim, rs);
    DorisPartsRows(lim, rs);
    if st.pending != [] {
      var n := |rs| - 1;
      assert st.pending[|st.pending| - 1] == rs[n] by {
        assert DorisRows(st.parts) + st.pending == rs;
      }
      SumLenPositive(st.pending);
    }
  }

  /** Parts are numbered 1, 2, 3, ...; every part but the last is closed
      by the row that first takes it to the chunk size (so it holds less
      than ChunksizeInMB megabytes before that row); the last part holds
      at least one row and, unless it was closed the same way, fewer bytes
      than would close it. */
  lemma DorisPartsShape(lim: Limits, rs: seq<string>)
    ensures var ps := DorisParts(lim, rs);
      && (forall k | 0 <= k < |ps| :: ps[k].no == k + 1)
      && (forall k | 0 <= k < |ps| :: ps[k].rows != [])
      && (forall k | 0 <= k < |ps| - 1 :: ClosedByLastRow(lim, ps[k].rows))
      && (ps != [] ==> ClosedByLastRow(lim, ps[|ps| - 1].rows) || !Rotates(lim, SumLen(ps[|ps| - 1].rows)))
  {
    var st := DorisRun(lim, rs);
    DorisRunInv(lim, rs);
    var ps := DorisParts(lim, rs);
    forall k | 0 <= k < |ps| && k < |st.parts|
      ensures ps[k].rows != [] && ClosedByLastRow(lim, ps[k].rows)
    {
      assert ps[k] == st.parts[k] && st.parts[k] in st.parts;
    }
    if st.chunkbytes > 0 {
      assert st.pending != [];
    }
  }
}
