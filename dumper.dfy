/**
 * The dumper of common/dumper.go: the schema files, the two table dumpers
 * (SQL INSERT part files and Doris tab-separated part files) and the choice
 * of databases and tables. The database is reached only through values
 * handed in: the column names of the probe cursor, the rows of the data
 * cursor, the answer of SHOW CREATE TABLE and the database list.
 */
module Dumper {
  import opened Text
  import opened DumpEncoding
  import opened DumpChunks
  import opened DumpQuery

  /** The part of the dumper's arguments that shapes its output. */
  datatype Args = Args(
    outdir: string,
    database: string,
    databaseRegexp: string,
    databaseInvertRegexp: bool,
    table: string,
    doris: bool,
    lim: Limits,
    filters: Filters,
    selects: Selects,
    wheres: map<string, string>)

  /** A file written by the dump: its path and its contents. */
  datatype DataFile = DataFile(name: string, content: string)

  // ================================================================ schemas

  function UseStatement(db: string): string
  {
    "USE " + Quote(db)
  }

  function DatabaseSchemaName(outdir: string, db: string): string
  {
    outdir + "/" + db + "-schema-create.sql"
  }

  function DatabaseSchemaFile(outdir: string, db: string): (f: DataFile)
  {
    DataFile(DatabaseSchemaName(outdir, db), "CREATE DATABASE IF NOT EXISTS " + Quote(db) + ";")
  }

  function TableSchemaName(outdir: string, db: string, table: string): string
  {
    outdir + "/" + db + "." + table + "-schema.sql"
  }

  /** The Doris rewrite: drop every REPLACE from a UNIQUE KEY table, and
      widen every varchar(255) to varchar(512). */
  function DorisSchema(schema: string): string
  {
    var s := if Index(schema, "UNIQUE KEY") != -1 then ReplaceAll(schema, "REPLACE", "") else schema;
    if Index(s, "varchar(255)") != -1 then ReplaceAll(s, "varchar(255)", "varchar(512)") else s
  }

  /** The schema file's text from the CREATE TABLE the server answers. */
  function TableSchema(create: string, doris: bool): string
  {
    var s := create + ";\n";
    if doris then DorisSchema(s) else s
  }

  /** The guard on varchar(255) changes nothing (replacing an absent text
      is the identity); only the UNIQUE KEY test decides whether REPLACE is
      removed; a schema with neither is written as the server gave it. */
  lemma DorisSchemaRewrite(schema: string)
    ensures Free(schema, "UNIQUE KEY") ==>
      DorisSchema(schema) == ReplaceAll(schema, "varchar(255)", "varchar(512)")
    ensures !Free(schema, "UNIQUE KEY") ==>
      DorisSchema(schema) == ReplaceAll(ReplaceAll(schema, "REPLACE", ""), "varchar(255)", "varchar(512)")
    ensures Free(schema, "UNIQUE KEY") && Free(schema, "varchar(255)") ==> DorisSchema(schema) == schema
  {
  }

  /** The widened schema holds no varchar(255) at all: a varchar(512) can
      never combine with its neighbours into one. */
  lemma DorisSchemaWidens(schema: string)
    ensures Free(DorisSchema(schema), "varchar(255)")
  {
    var p, r := "varchar(255)", "varchar(512)";
    var s := if Index(schema, "UNIQUE KEY") != -1 then ReplaceAll(schema, "REPLACE", "") else schema;
    assert p[0] !in p[1..];
    assert p[0] !in r[1..];
    assert Free(r, p) by {
      forall i: nat | i <= |r| ensures !OccursAt(r, p, i) {
        if i == 0 {
          assert r[0..|p|][8] != p[8];
        }
      }
    }
    ReplaceAllFree(s, p, r);
  }

  /** REPLACE is removed exactly from UNIQUE KEY schemas: the widening
      keeps the length, so the file is shorter than the server's statement
      only when a UNIQUE KEY schema mentions REPLACE. */
  lemma DorisSchemaLength(schema: string)
    ensures |DorisSchema(schema)| <= |schema|
    ensures Free(schema, "UNIQUE KEY") ==> |DorisSchema(schema)| == |schema|
    ensures !Free(schema, "UNIQUE KEY") ==>
      (|DorisSchema(schema)| < |schema| <==> !Free(schema, "REPLACE"))
  {
    var s := if Index(schema, "UNIQUE KEY") != -1 then ReplaceAll(schema, "REPLACE", "") else schema;
    ReplaceAllLength(schema, "REPLACE", "");
    ReplaceAllLength(s, "varchar(255)", "varchar(512)");
  }

  /** Outside Doris mode the schema file is the server's CREATE statement
      terminated by `;\n`. */
  lemma TableSchemaPlain(create: string)
    ensures TableSchema(create, false) == create + ";\n"
    ensures HasSuffix(TableSchema(create, false), ";\n")
  {
    var s := create + ";\n";
    assert s[|s| - 2..] == ";\n";
  }

  // ============================================================== SQL mode

  /** One INSERT statement for a batch of encoded rows. */
  function InsertStmt(table: string, fields: seq<string>, batch: seq<string>): string
  {
    "INSERT INTO " + Quote(table) + "(" + Join(fields, ",") + ") VALUES\n" + Join(batch, ",\n")
  }

  function Inserts(table: string, fields: seq<string>, batches: seq<seq<string>>): (ins: seq<string>)
    ensures |ins| == |batches|
    ensures forall k | 0 <= k < |batches| :: ins[k] == InsertStmt(table, fields, batches[k])
  {
    seq(|batches|, k requires 0 <= k < |batches| => InsertStmt(table, fields, batches[k]))
  }

  /** The text of a SQL part file: its INSERTs, each terminated by `;\n`. */
  function SqlPartText(inserts: seq<string>): string
  {
    Join(inserts, ";\n") + ";\n"
  }

  function SqlDataName(outdir: string, db: string, table: string, no: nat): string
  {
    outdir + "/" + db + "." + table + "." + Pad5(no) + ".sql"
  }

  function SqlFile(outdir: string, db: string, table: string, fields: seq<string>, p: SqlPart): DataFile
  {
    DataFile(SqlDataName(outdir, db, table, p.no), SqlPartText(Inserts(table, fields, p.batches)))
  }

  function SqlFiles(outdir: string, db: string, table: string, fields: seq<string>, parts: seq<SqlPart>)
    : (fs: seq<DataFile>)
    ensures |fs| == |parts|
    ensures forall k | 0 <= k < |parts| :: fs[k] == SqlFile(outdir, db, table, fields, parts[k])
  {
    seq(|parts|, k requires 0 <= k < |parts| => SqlFile(outdir, db, table, fields, parts[k]))
  }

  /** The encoded rows of a cursor. */
  function SqlLines(rows: seq<Row>, esc: string -> string): (ls: seq<string>)
    ensures |ls| == |rows| && forall k | 0 <= k < |rows| :: ls[k] == SqlRow(rows[k], esc)
  {
    seq(|rows|, k requires 0 <= k < |rows| => SqlRow(rows[k], esc))
  }

  lemma SqlLinesSnoc(lim: Limits, rows: seq<Row>, i: nat, esc: string -> string)
    requires i < |rows|
    ensures var pre, r := SqlLines(rows[..i], esc), SqlRow(rows[i], esc);
      && SqlRun(lim, SqlLines(rows[..i + 1], esc)) == SqlStep(lim, SqlRun(lim, pre), r)
      && SumLen(SqlLines(rows[..i + 1], esc)) == SumLen(pre) + ByteLen(r)
  {
    var pre, r := SqlLines(rows[..i], esc), SqlRow(rows[i], esc);
    var ls := SqlLines(rows[..i + 1], esc);
    assert ls == pre + [r];
    assert ls[..|ls| - 1] == pre;
    SumLenAppend(pre, [r]);
    SumLenSingleton(r);
  }

  /** dumpTable: the projection, the data query, and the part files,
      which are exactly the rendering of the corrected fold `SqlParts` over
      the encoded rows; the counters count those rows and their bytes. */
  method DumpTable(args: Args, db: string, table: string, cols: seq<string>,
                   rows: seq<Row>, esc: string -> string)
    returns (query: string, files: seq<DataFile>, allRows: nat, allBytes: nat)
    ensures var kept := Kept(cols, args.filters, table);
      && query == SelectQuery(db, table, ExtFields(args.selects, table, kept), args.wheres)
      && files == SqlFiles(args.outdir, db, table, Fields(kept), SqlParts(args.lim, SqlLines(rows, esc)))
    ensures allRows == |rows| && allBytes == SumLen(SqlLines(rows, esc))
  {
    var lim := args.lim;
    var fields, ext := BuildProjection(cols, table, args.filters, args.selects);
    query := SelectQuery(db, table, ext, args.wheres);

    var fileNo: nat, stmtsize: nat, chunkbytes: nat := 1, 0, 0;
    var pending: seq<string> := [];
    var inserts: seq<string> := [];
    ghost var st := SqlStart;
    files, allRows, allBytes := [], 0, 0;
    for i := 0 to |rows|
      invariant st == SqlRun(lim, SqlLines(rows[..i], esc))
      invariant st.fileNo == fileNo && st.stmtsize == stmtsize && st.chunkbytes == chunkbytes
      invariant st.pending == pending
      invariant inserts == Inserts(table, fields, st.batches)
      invariant files == SqlFiles(args.outdir, db, table, fields, st.parts)
      invariant allRows == i && allBytes == SumLen(SqlLines(rows[..i], esc))
    {
      SqlLinesSnoc(lim, rows, i, esc);
      var r := EncodeSqlRow(rows[i], esc);
      allRows := allRows + 1;
      allBytes := allBytes + ByteLen(r);
      fileNo, stmtsize, chunkbytes, pending, inserts, files :=
        SqlRowStep(lim, args.outdir, db, table, fields, st, fileNo, stmtsize, chunkbytes, pending, inserts, files, r);
      st := SqlStep(lim, st, r);
    }
    assert rows[..|rows|] == rows;

    // The corrected final flush: whatever is still buffered is written.
    if pending != [] || inserts != [] {
      if pending != [] {
        InsertsAppend(table, fields, st.batches, pending);
        inserts := inserts + [InsertStmt(table, fields, pending)];
      }
      assert inserts == Inserts(table, fields, SqlTail(st));
      SqlFilesAppend(args.outdir, db, table, fields, st.parts, SqlPart(fileNo, SqlTail(st)));
      files := files + [DataFile(SqlDataName(args.outdir, db, table, fileNo), SqlPartText(inserts))];
    }
  }

  /** The buffering and rotation of one encoded row in dumpTable's cursor
      loop: the loop variables before and after are the state `st` and
      `SqlStep(lim, st, r)`, rendered as INSERT texts and part files. */
  method SqlRowStep(lim: Limits, outdir: string, db: string, table: string, fields: seq<string>,
                    ghost st: SqlState, fileNo: nat, stmtsize: nat, chunkbytes: nat,
                    pending: seq<string>, inserts: seq<string>, files: seq<DataFile>, r: string)
    returns (fileNo': nat, stmtsize': nat, chunkbytes': nat,
             pending': seq<string>, inserts': seq<string>, files': seq<DataFile>)
    requires st.fileNo == fileNo && st.stmtsize == stmtsize && st.chunkbytes == chunkbytes
    requires st.pending == pending
    requires inserts == Inserts(table, fields, st.batches)
    requires files == SqlFiles(outdir, db, table, fields, st.parts)
    ensures var next := SqlStep(lim, st, r);
      && next.fileNo == fileNo' && next.stmtsize == stmtsize' && next.chunkbytes == chunkbytes'
      && next.pending == pending'
      && inserts' == Inserts(table, fields, next.batches)
      && files' == SqlFiles(outdir, db, table, fields, next.parts)
  {
    ghost var buffered := SqlBuffer(lim, st, r);
    fileNo', pending', inserts', files' := fileNo, pending + [r], inserts, files;
    stmtsize' := stmtsize + ByteLen(r);
    chunkbytes' := chunkbytes + ByteLen(r);

    if stmtsize' >= lim.stmtSize {
      InsertsAppend(table, fields, st.batches, pending');
      inserts' := inserts' + [InsertStmt(table, fields, pending')];
      pending' := [];
      stmtsize' := 0;
    }
    assert inserts' == Inserts(table, fields, buffered.batches);

    if chunkbytes' / 1024 / 1024 >= lim.chunksizeInMB {
      SqlFilesAppend(outdir, db, table, fields, buffered.parts, SqlPart(fileNo', buffered.batches));
      files' := files' + [DataFile(SqlDataName(outdir, db, table, fileNo'), SqlPartText(inserts'))];
      inserts' := [];
      chunkbytes' := 0;
      fileNo' := fileNo' + 1;
    }
  }

  lemma InsertsAppend(table: string, fields: seq<string>, batches: seq<seq<string>>, b: seq<string>)
    ensures Inserts(table, fields, batches + [b]) == Inserts(table, fields, batches) + [InsertStmt(table, fields, b)]
  {
  }

  lemma SqlFilesAppend(outdir: string, db: string, table: string, fields: seq<string>,
                       parts: seq<SqlPart>, p: SqlPart)
    ensures SqlFiles(outdir, db, table, fields, parts + [p])
      == SqlFiles(outdir, db, table, fields, parts) + [SqlFile(outdir, db, table, fields, p)]
  {
  }

  // ============================================================ Doris mode

  /** The text of a Doris part: the header line, then one line per row. */
  function DorisText(fields: seq<string>, rows: seq<string>): string
  {
    Join(fields, ",") + "\n" + Join(rows, "\n")
  }

  function DorisDataName(outdir: string, db: string, table: string, no: nat): string
  {
    outdir + "/" + db + "." + table + "." + Pad5(no) + ".csv"
  }

  function DorisFile(outdir: string, db: string, table: string, fields: seq<string>, p: DorisPart): DataFile
  {
    DataFile(DorisDataName(outdir, db, table, p.no), DorisText(fields, p.rows))
  }

  function DorisFiles(outdir: string, db: string, table: string, fields: seq<string>, parts: seq<DorisPart>)
    : (fs: seq<DataFile>)
    ensures |fs| == |parts|
    ensures forall k | 0 <= k < |parts| :: fs[k] == DorisFile(outdir, db, table, fields, parts[k])
  {
    seq(|parts|, k requires 0 <= k < |parts| => DorisFile(outdir, db, table, fields, parts[k]))
  }

  function DorisLines(rows: seq<Row>, esc: string -> string): (ls: seq<string>)
    ensures |ls| == |rows| && forall k | 0 <= k < |rows| :: ls[k] == DorisRow(rows[k], esc)
  {
    seq(|rows|, k requires 0 <= k < |rows| => DorisRow(rows[k], esc))
  }

  lemma DorisLinesSnoc(lim: Limits, rows: seq<Row>, i: nat, esc: string -> string)
    requires i < |rows|
    ensures var pre, r := DorisLines(rows[..i], esc), DorisRow(rows[i], esc);
      && DorisRun(lim, DorisLines(rows[..i + 1], esc)) == DorisStep(lim, DorisRun(lim, pre), r)
      && SumLen(DorisLines(rows[..i + 1], esc)) == SumLen(pre) + ByteLen(r)
  {
    var pre, r := DorisLines(rows[..i], esc), DorisRow(rows[i], esc);
    var ls := DorisLines(rows[..i + 1], esc);
    assert ls == pre + [r];
    assert ls[..|ls| - 1] == pre;
    SumLenAppend(pre, [r]);
    SumLenSingleton(r);
  }

  lemma JoinTwo(a: string, b: string, sep: string)
    ensures Join([a, b], sep) == a + sep + b
  {
    assert [a, b][1..] == [b];
  }

  /** dumpDorisTable: the projection, the data query, and the part files,
      which are exactly the rendering of the fold `DorisParts` over the
      encoded rows; the counters count those rows and their bytes. */
  method DumpDorisTable(args: Args, db: string, table: string, cols: seq<string>,
                        rows: seq<Row>, esc: string -> string)
    returns (query: string, files: seq<DataFile>, allRows: nat, allBytes: nat)
    ensures var kept := Kept(cols, args.filters, table);
      && query == SelectQuery(db, table, ExtFields(args.selects, table, kept), args.wheres)
      && files == DorisFiles(args.outdir, db, table, Fields(kept), DorisParts(args.lim, DorisLines(rows, esc)))
    ensures allRows == |rows| && allBytes == SumLen(DorisLines(rows, esc))
  {
    var lim := args.lim;
    var fields, ext := BuildProjection(cols, table, args.filters, args.selects);
    query := SelectQuery(db, table, ext, args.wheres);

    var fileNo: nat, chunkbytes: nat := 1, 0;
    var pending: seq<string> := [];
    ghost var st := DorisStart;
    files, allRows, allBytes := [], 0, 0;
    for i := 0 to |rows|
      invariant st == DorisRun(lim, DorisLines(rows[..i], esc))
      invariant st.fileNo == fileNo && st.chunkbytes == chunkbytes && st.pending == pending
      invariant files == DorisFiles(args.outdir, db, table, fields, st.parts)
      invariant allRows == i && allBytes == SumLen(DorisLines(rows[..i], esc))
    {
      DorisLinesSnoc(lim, rows, i, esc);
      var r := EncodeDorisRow(rows[i], esc);
      allRows := allRows + 1;
      allBytes := allBytes + ByteLen(r);
      fileNo, chunkbytes, pending, files :=
        DorisRowStep(lim, args.outdir, db, table, fields, st, fileNo, chunkbytes, pending, files, r);
      st := DorisStep(lim, st, r);
    }
    assert rows[..|rows|] == rows;

    if chunkbytes > 0 {
      DorisRunInv(lim, DorisLines(rows, esc));
      var inserts: seq<string> := [];
      if pending != [] {
        inserts := [Join(fields, ","), Join(pending, "\n")];
        JoinTwo(inserts[0], inserts[1], "\n");
      }
      DorisFilesAppend(args.outdir, db, table, fields, st.parts, DorisPart(fileNo, pending));
      files := files + [DataFile(DorisDataName(args.outdir, db, table, fileNo), Join(inserts, "\n"))];
    }
  }

  /** The buffering and rotation of one encoded row in dumpDorisTable's
      cursor loop: the loop variables before and after are the state `st`
      and `DorisStep(lim, st, r)`, rendered as part files. */
  method DorisRowStep(lim: Limits, outdir: string, db: string, table: string, fields: seq<string>,
                      ghost st: DorisState, fileNo: nat, chunkbytes: nat,
                      pending: seq<string>, files: seq<DataFile>, r: string)
    returns (fileNo': nat, chunkbytes': nat, pending': seq<string>, files': seq<DataFile>)
    requires st.fileNo == fileNo && st.chunkbytes == chunkbytes && st.pending == pending
    requires files == DorisFiles(outdir, db, table, fields, st.parts)
    ensures var next := DorisStep(lim, st, r);
      && next.fileNo == fileNo' && next.chunkbytes == chunkbytes' && next.pending == pending'
      && files' == DorisFiles(outdir, db, table, fields, next.parts)
  {
    fileNo', files' := fileNo, files;
    pending' := pending + [r];
    chunkbytes' := chunkbytes + ByteLen(r);

    if chunkbytes' / 1024 / 1024 >= lim.chunksizeInMB {
      var inserts := [Join(fields, ","), Join(pending', "\n")];
      JoinTwo(inserts[0], inserts[1], "\n");
      DorisFilesAppend(outdir, db, table, fields, st.parts, DorisPart(fileNo', pending'));
      files' := files' + [DataFile(DorisDataName(outdir, db, table, fileNo'), Join(inserts, "\n"))];
      pending' := [];
      chunkbytes' := 0;
      fileNo' := fileNo' + 1;
    }
  }

  lemma DorisFilesAppend(outdir: string, db: string, table: string, fields: seq<string>,
                         parts: seq<DorisPart>, p: DorisPart)
    ensures DorisFiles(outdir, db, table, fields, parts + [p])
      == DorisFiles(outdir, db, table, fields, parts) + [DorisFile(outdir, db, table, fields, p)]
  {
  }

  // ==================================================== choosing the work

  /** The names a regular expression selects: those whose match result
      differs from the invert flag, in the server's order. */
  function Selected(names: seq<string>, matches: string -> bool, invert: bool): seq<string>
  {
    if names == [] then []
    else
      var init, n := names[..|names| - 1], names[|names| - 1];
      Selected(init, matches, invert) + (if matches(n) != invert then [n] else [])
  }

  /** filterDatabases: the append loop over the server's databases. */
  method FilterDatabases(names: seq<string>, matches: string -> bool, invert: bool)
    returns (dbs: seq<string>)
    ensures dbs == Selected(names, matches, invert)
  {
    dbs := [];
    for k := 0 to |names|
      invariant dbs == Selected(names[..k], matches, invert)
    {
      assert names[..k + 1][..k] == names[..k];
      var n := names[k];
      if (!invert && matches(n)) || (invert && !matches(n)) {
        dbs := dbs + [n];
      }
    }
    assert names[..|names|] == names;
  }

  /** A name is selected exactly when it is on the server and its match
      result differs from the invert flag. */
  lemma {:induction false} SelectedMembers(names: seq<string>, matches: string -> bool, invert: bool)
    ensures forall x :: x in Selected(names, matches, invert) <==> x in names && matches(x) != invert
    decreases |names|
  {
    if names != [] {
      var init, n := names[..|names| - 1], names[|names| - 1];
      SelectedMembers(init, matches, invert);
      assert names == init + [n];
    }
  }

  /** The plain and the inverted selection split the server's list: every
      database is in exactly one of them, as often as on the server. */
  lemma {:induction false} SelectedPartition(names: seq<string>, matches: string -> bool)
    ensures multiset(Selected(names, matches, false)) + multiset(Selected(names, matches, true))
      == multiset(names)
    decreases |names|
  {
    if names != [] {
      var init, n := names[..|names| - 1], names[|names| - 1];
      SelectedPartition(init, matches);
      assert names == init + [n];
    }
  }

  /** With the system schemas as the pattern and the invert flag set, only
      the user databases are dumped. */
  lemma SelectedSystemSchemasInverted(matches: string -> bool)
    requires forall x :: matches(x) <==> x in ["mysql", "sys", "information_schema", "performance_schema"]
    ensures Selected(["test1", "test2", "mysql", "sys", "information_schema", "performance_schema"],
                     matches, true) == ["test1", "test2"]
  {
    var names := ["test1", "test2", "mysql", "sys", "information_schema", "performance_schema"];
    assert !matches("test1") && !matches("test2");
    assert matches("mysql") && matches("sys");
    assert matches("information_schema") && matches("performance_schema");
    var want := ["test1", "test2"];
    assert names[..1][..0] == [];
    assert Selected(names[..1], matches, true) == want[..1];
    assert names[..2][..1] == names[..1];
    assert Selected(names[..2], matches, true) == want;
    assert names[..3][..2] == names[..2];
    assert Selected(names[..3], matches, true) == want;
    assert names[..4][..3] == names[..3];
    assert Selected(names[..4], matches, true) == want;
    assert names[..5][..4] == names[..4];
    assert Selected(names[..5], matches, true) == want;
    assert names[..6][..5] == names[..5];
    assert names[..6] == names;
  }

  /** The databases to dump: a non-empty regexp wins, then the explicit
      comma-separated list, then every database on the server. */
  function SelectDatabases(args: Args, matches: string -> bool, server: seq<string>): seq<string>
  {
    if args.databaseRegexp != "" then Selected(server, matches, args.databaseInvertRegexp)
    else if args.database != "" then Split(args.database, ",")
    else server
  }

  lemma SelectDatabasesSpec(args: Args, matches: string -> bool, server: seq<string>)
    ensures var dbs := SelectDatabases(args, matches, server);
      && (args.databaseRegexp != "" ==>
            forall x :: x in dbs <==> x in server && matches(x) != args.databaseInvertRegexp)
      && (args.databaseRegexp == "" && args.database != "" ==>
            Join(dbs, ",") == args.database && forall x | x in dbs :: ',' !in x)
      && (args.databaseRegexp == "" && args.database == "" ==> dbs == server)
  {
    if args.databaseRegexp != "" {
      SelectedMembers(server, matches, args.databaseInvertRegexp);
    } else if args.database != "" {
      var dbs := Split(args.database, ",");
      JoinSplit(args.database, ",");
      SplitPiecesFree(args.database, ",");
      forall x | x in dbs ensures ',' !in x {
        FreeChar(x, ',');
      }
    }
  }

  /** The tables of one database: the explicit list or the server's, kept
      in Doris mode only when the server reports a Doris or InnoDB engine. */
  function TablesFor(args: Args, server: seq<string>, dorisEngine: string -> bool): seq<string>
  {
    var ts := if args.table != "" then Split(args.table, ",") else server;
    if args.doris then Selected(ts, dorisEngine, false) else ts
  }

  /** Outside Doris mode the list is taken as it is; in Doris mode a table
      stays exactly when it is listed and has a Doris or InnoDB engine. */
  lemma TablesForSpec(args: Args, server: seq<string>, dorisEngine: string -> bool)
    ensures var base := if args.table != "" then Split(args.table, ",") else server;
      && (!args.doris ==> TablesFor(args, server, dorisEngine) == base)
      && (args.doris ==> forall x :: x in TablesFor(args, server, dorisEngine) <==> x in base && dorisEngine(x))
      && |TablesFor(args, server, dorisEngine)| <= |base|
  {
    var base := if args.table != "" then Split(args.table, ",") else server;
    if args.doris {
      SelectedMembers(base, dorisEngine, false);
      SelectedPartition(base, dorisEngine);
      assert |multiset(Selected(base, dorisEngine, false))| <= |multiset(base)|;
    }
  }

  /** One table's job: its schema file (none, and no data, when SHOW
      CREATE TABLE fails), then its data parts in the mode's format. */
  method DumpTableJob(args: Args, db: string, table: string, create: Option<string>,
                      cols: seq<string>, rows: seq<Row>, esc: string -> string)
    returns (files: seq<DataFile>)
    ensures create.None? ==> files == []
    ensures create.Some? ==>
      var fields := Fields(Kept(cols, args.filters, table));
      && |files| >= 1
      && files[0] == DataFile(TableSchemaName(args.outdir, db, table), TableSchema(create.value, args.doris))
      && files[1..] == (if args.doris
                        then DorisFiles(args.outdir, db, table, fields, DorisParts(args.lim, DorisLines(rows, esc)))
                        else SqlFiles(args.outdir, db, table, fields, SqlParts(args.lim, SqlLines(rows, esc))))
  {
    if create.None? {
      return [];
    }
    var schema := DataFile(TableSchemaName(args.outdir, db, table), TableSchema(create.value, args.doris));
    var data: seq<DataFile>;
    if args.doris {
      var _, fs, _, _ := DumpDorisTable(args, db, table, cols, rows, esc);
      data := fs;
    } else {
      var _, fs, _, _ := DumpTable(args, db, table, cols, rows, esc);
      data := fs;
    }
    files := [schema] + data;
  }
}
