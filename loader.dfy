/**
 * The loader of common/loader.go: it classifies the files of a dump by
 * suffix, replays database and table schemas, and restores each data part
 * either by executing its statements (SQL mode) or by a Doris stream-load
 * request (Doris mode). File contents are read through the function `read`,
 * statements are recorded in the order they are executed, and the HTTP
 * exchange is reduced to the outcome of each attempt.
 */
module Loader {
  import opened Text
  import opened DumpQuery
  import opened Dumper
  import opened Shuffling

  const DbSuffix := "-schema-create.sql"
  const SchemaSuffix := "-schema.sql"
  const TableSuffix := ".sql"
  const CsvSuffix := ".csv"

  // ======================================================= classification

  datatype Category = DatabaseSchema | TableSchemaFile | TableData | Ignored

  /** The first matching suffix decides, in this order. */
  function Classify(path: string): Category
  {
    if HasSuffix(path, DbSuffix) then DatabaseSchema
    else if HasSuffix(path, SchemaSuffix) then TableSchemaFile
    else if HasSuffix(path, TableSuffix) || HasSuffix(path, CsvSuffix) then TableData
    else Ignored
  }

  /** The three lists of loadFiles. */
  datatype Files = Files(databases: seq<string>, schemas: seq<string>, tables: seq<string>)

  /** The paths of one category, in walk order. */
  function Of(paths: seq<string>, c: Category): seq<string>
  {
    if paths == [] then []
    else
      var init, p := paths[..|paths| - 1], paths[|paths| - 1];
      Of(init, c) + (if Classify(p) == c then [p] else [])
  }

  /** loadFiles over the walked paths: each path is appended to the list
      of its category. */
  method LoadFiles(paths: seq<string>) returns (files: Files)
    ensures files.databases == Of(paths, DatabaseSchema)
    ensures files.schemas == Of(paths, TableSchemaFile)
    ensures files.tables == Of(paths, TableData)
  {
    files := Files([], [], []);
    for k := 0 to |paths|
      invariant files.databases == Of(paths[..k], DatabaseSchema)
      invariant files.schemas == Of(paths[..k], TableSchemaFile)
      invariant files.tables == Of(paths[..k], TableData)
    {
      assert paths[..k + 1][..k] == paths[..k];
      var p := paths[k];
      if HasSuffix(p, DbSuffix) {
        files := files.(databases := files.databases + [p]);
      } else if HasSuffix(p, SchemaSuffix) {
        files := files.(schemas := files.schemas + [p]);
      } else if HasSuffix(p, TableSuffix) || HasSuffix(p, CsvSuffix) {
        files := files.(tables := files.tables + [p]);
      }
    }
    assert paths[..|paths|] == paths;
  }

  /** A path is in a list exactly when it has that list's category. */
  lemma {:induction false} OfMembers(paths: seq<string>, c: Category)
    ensures forall p :: p in Of(paths, c) <==> p in paths && Classify(p) == c
    decreases |paths|
  {
    if paths != [] {
      var init, p := paths[..|paths| - 1], paths[|paths| - 1];
      OfMembers(init, c);
      assert paths == init + [p];
    }
  }

  /** Every walked path lands in exactly one list or is ignored: the lists
      and the ignored paths together are the walk, counted with repetition. */
  lemma {:induction false} OfPartition(paths: seq<string>)
    ensures multiset(Of(paths, DatabaseSchema)) + multiset(Of(paths, TableSchemaFile))
          + multiset(Of(paths, TableData)) + multiset(Of(paths, Ignored)) == multiset(paths)
    decreases |paths|
  {
    if paths != [] {
      OfPartition(paths[..|paths| - 1]);
      OfPartitionSnoc(paths);
    }
  }

  /** One path more keeps the four lists a partition of the walk. */
  lemma OfPartitionSnoc(paths: seq<string>)
    requires paths != []
    requires var init := paths[..|paths| - 1];
      multiset(Of(init, DatabaseSchema)) + multiset(Of(init, TableSchemaFile))
      + multiset(Of(init, TableData)) + multiset(Of(init, Ignored)) == multiset(init)
    ensures multiset(Of(paths, DatabaseSchema)) + multiset(Of(paths, TableSchemaFile))
          + multiset(Of(paths, TableData)) + multiset(Of(paths, Ignored)) == multiset(paths)
  {
    var init, p := paths[..|paths| - 1], paths[|paths| - 1];
    assert paths == init + [p];
    assert multiset(paths) == multiset(init) + multiset{p};
    PartitionStep(multiset(Of(init, DatabaseSchema)), multiset(Of(init, TableSchemaFile)),
                  multiset(Of(init, TableData)), multiset(Of(init, Ignored)),
                  multiset(Of(paths, DatabaseSchema)), multiset(Of(paths, TableSchemaFile)),
                  multiset(Of(paths, TableData)), multiset(Of(paths, Ignored)),
                  multiset(init), multiset{p}, Classify(p));
  }

  lemma PartitionStep(d: multiset<string>, s: multiset<string>, t: multiset<string>, i: multiset<string>,
                      d': multiset<string>, s': multiset<string>, t': multiset<string>, i': multiset<string>,
                      q: multiset<string>, m: multiset<string>, c: Category)
    requires d + s + t + i == q
    requires d' == d + (if c == DatabaseSchema then m else multiset{})
    requires s' == s + (if c == TableSchemaFile then m else multiset{})
    requires t' == t + (if c == TableData then m else multiset{})
    requires i' == i + (if c == Ignored then m else multiset{})
    ensures d' + s' + t' + i' == q + m
  {
  }

  lemma OfSnoc(paths: seq<string>, c: Category)
    requires paths != []
    ensures var init, p := paths[..|paths| - 1], paths[|paths| - 1];
      multiset(Of(paths, c)) == multiset(Of(init, c)) + (if Classify(p) == c then multiset{p} else multiset{})
  {
  }

  lemma SuffixOfJoin(a: string, b: string)
    ensures HasSuffix(a + b, b)
  {
    assert (a + b)[|a|..] == b;
  }

  /** The files the dumper writes are classified as what they are. */
  lemma ClassifyDatabaseSchemaName(outdir: string, db: string)
    ensures Classify(DatabaseSchemaName(outdir, db)) == DatabaseSchema
  {
    SuffixOfJoin(outdir + "/" + db, DbSuffix);
  }

  lemma ClassifyTableSchemaName(outdir: string, db: string, table: string)
    ensures Classify(TableSchemaName(outdir, db, table)) == TableSchemaFile
  {
    var s := TableSchemaName(outdir, db, table);
    var stem := outdir + "/" + db + "." + table;
    assert s == stem + SchemaSuffix;
    SuffixOfJoin(stem, SchemaSuffix);
    assert s[|s| - 10] == 's';
  }

  lemma ClassifySqlDataName(outdir: string, db: string, table: string, no: nat)
    ensures Classify(SqlDataName(outdir, db, table, no)) == TableData
  {
    var d := SqlDataName(outdir, db, table, no);
    var p5 := Pad5(no);
    Pad5Value(no);
    var stem := outdir + "/" + db + "." + table + "." + p5;
    assert d == stem + TableSuffix;
    SuffixOfJoin(stem, TableSuffix);
    assert d[|d| - 5] == p5[|p5| - 1];
  }

  lemma ClassifyDorisDataName(outdir: string, db: string, table: string, no: nat)
    ensures Classify(DorisDataName(outdir, db, table, no)) == TableData
  {
    var c := DorisDataName(outdir, db, table, no);
    var stem := outdir + "/" + db + "." + table + "." + Pad5(no);
    assert c == stem + CsvSuffix;
    SuffixOfJoin(stem, CsvSuffix);
    assert c[|c| - 1] == 'v';
  }

  // ====================================================== name parsing

  datatype DataName = DataName(db: string, table: string, part: string)

  /** The table and part of a data file: `.sql` is stripped from the base
      name (`.csv` is not), the rest is split on dots; fewer than two
      pieces is a panic (None). */
  function ParseDataName(path: string): Option<DataName>
  {
    var name := TrimSuffix(Base(path), TableSuffix);
    var splits := Split(name, ".");
    if |splits| < 2 then None
    else Some(DataName(splits[0], splits[1], if |splits| > 2 then splits[2] else "0"))
  }

  /** A plain name: no dot and no slash. */
  predicate Plain(s: string)
  {
    '.' !in s && '/' !in s
  }

  lemma PadPlain(no: nat)
    ensures Plain(Pad5(no)) && Pad5(no) != []
  {
    Pad5Value(no);
  }

  lemma JoinThree(a: string, b: string, c: string, sep: string)
    ensures Join([a, b, c], sep) == a + sep + b + sep + c
  {
    assert [a, b, c][1..] == [b, c];
    JoinTwo(b, c, sep);
  }

  lemma JoinFour(a: string, b: string, c: string, d: string, sep: string)
    ensures Join([a, b, c, d], sep) == a + sep + b + sep + c + sep + d
  {
    assert [a, b, c, d][1..] == [b, c, d];
    JoinThree(b, c, d, sep);
  }

  /** Reading a data file's name back, given what its base name is. */
  lemma ParseDataNameOf(path: string, name: string, stem: string, pieces: seq<string>)
    requires Base(path) == name && TrimSuffix(name, TableSuffix) == stem
    requires Split(stem, ".") == pieces && |pieces| >= 3
    ensures ParseDataName(path) == Some(DataName(pieces[0], pieces[1], pieces[2]))
  {
  }

  lemma SplitTwo(a: string, b: string)
    requires '.' !in a && '.' !in b
    ensures Split(a + "." + b, ".") == [a, b]
  {
    JoinTwo(a, b, ".");
    SplitJoin([a, b], '.');
  }

  lemma SplitThree(a: string, b: string, c: string)
    requires '.' !in a && '.' !in b && '.' !in c
    ensures Split(a + "." + b + "." + c, ".") == [a, b, c]
  {
    JoinThree(a, b, c, ".");
    SplitJoin([a, b, c], '.');
  }

  lemma SplitFour(a: string, b: string, c: string, d: string)
    requires '.' !in a && '.' !in b && '.' !in c && '.' !in d
    ensures Split(a + "." + b + "." + c + "." + d, ".") == [a, b, c, d]
  {
    JoinFour(a, b, c, d, ".");
    SplitJoin([a, b, c, d], '.');
  }

  /** The name of every SQL part the dumper writes parses back to its
      database, table and zero-padded part number. */
  lemma ParseSqlDataName(outdir: string, db: string, table: string, no: nat)
    requires Plain(db) && Plain(table)
    ensures ParseDataName(SqlDataName(outdir, db, table, no)) == Some(DataName(db, table, Pad5(no)))
  {
    var p5 := Pad5(no);
    PadPlain(no);
    var stem := db + "." + table + "." + p5;
    var name := stem + TableSuffix;
    SqlDataBase(outdir, db, table, no);
    SuffixOfJoin(stem, TableSuffix);
    assert TrimSuffix(name, TableSuffix) == stem;
    SplitThree(db, table, p5);
    ParseDataNameOf(SqlDataName(outdir, db, table, no), name, stem, [db, table, p5]);
  }

  lemma SqlDataBase(outdir: string, db: string, table: string, no: nat)
    requires Plain(db) && Plain(table)
    ensures Base(SqlDataName(outdir, db, table, no)) == db + "." + table + "." + Pad5(no) + TableSuffix
  {
    PadPlain(no);
    var name := db + "." + table + "." + Pad5(no) + TableSuffix;
    assert SqlDataName(outdir, db, table, no) == outdir + "/" + name;
    assert '/' !in name;
    BaseOfJoin(outdir, name);
  }

  /** The same for a Doris part: the `.csv` stays on, as a fourth piece. */
  lemma ParseDorisDataName(outdir: string, db: string, table: string, no: nat)
    requires Plain(db) && Plain(table)
    ensures ParseDataName(DorisDataName(outdir, db, table, no)) == Some(DataName(db, table, Pad5(no)))
  {
    var p5 := Pad5(no);
    PadPlain(no);
    var name := db + "." + table + "." + p5 + "." + "csv";
    DorisDataBase(outdir, db, table, no);
    assert name[|name| - 1] == 'v';
    assert TrimSuffix(name, TableSuffix) == name;
    SplitFour(db, table, p5, "csv");
    ParseDataNameOf(DorisDataName(outdir, db, table, no), name, name, [db, table, p5, "csv"]);
  }

  lemma DorisDataBase(outdir: string, db: string, table: string, no: nat)
    requires Plain(db) && Plain(table)
    ensures Base(DorisDataName(outdir, db, table, no)) == db + "." + table + "." + Pad5(no) + "." + "csv"
  {
    PadPlain(no);
    var name := db + "." + table + "." + Pad5(no) + "." + "csv";
    assert DorisDataName(outdir, db, table, no) == outdir + "/" + name;
    assert '/' !in name;
    BaseOfJoin(outdir, name);
  }

  /** A table name for restoreTableSchema: `-schema.sql` stripped, then the
      first two dot-separated pieces (a panic, None, when there is one). */
  function ParseSchemaName(path: string): Option<(string, string)>
  {
    var splits := Split(TrimSuffix(Base(path), SchemaSuffix), ".");
    if |splits| < 2 then None else Some((splits[0], splits[1]))
  }

  lemma ParseSchemaNameOf(path: string, name: string, stem: string, pieces: seq<string>)
    requires Base(path) == name && TrimSuffix(name, SchemaSuffix) == stem
    requires Split(stem, ".") == pieces && |pieces| >= 2
    ensures ParseSchemaName(path) == Some((pieces[0], pieces[1]))
  {
  }

  lemma ParseTableSchemaName(outdir: string, db: string, table: string)
    requires Plain(db) && Plain(table)
    ensures ParseSchemaName(TableSchemaName(outdir, db, table)) == Some((db, table))
  {
    var stem := db + "." + table;
    var name := stem + SchemaSuffix;
    assert TableSchemaName(outdir, db, table) == outdir + "/" + name;
    assert '/' !in name;
    BaseOfJoin(outdir, name);
    SuffixOfJoin(stem, SchemaSuffix);
    assert TrimSuffix(name, SchemaSuffix) == stem;
    SplitTwo(db, table);
    ParseSchemaNameOf(TableSchemaName(outdir, db, table), name, stem, [db, table]);
  }

  /** The database name restoreDatabaseSchema logs. */
  function DatabaseName(path: string): string
  {
    TrimSuffix(Base(path), DbSuffix)
  }

  lemma ParseDatabaseSchemaName(outdir: string, db: string)
    requires '/' !in db
    ensures DatabaseName(DatabaseSchemaName(outdir, db)) == db
  {
    var name := db + DbSuffix;
    assert DatabaseSchemaName(outdir, db) == outdir + "/" + name;
    assert '/' !in name;
    BaseOfJoin(outdir, name);
    SuffixOfJoin(db, DbSuffix);
  }

  /** The file dumpDatabaseSchema writes is found by the loader as a
      database schema, holds the CREATE DATABASE statement restoring it
      executes, and names its database. */
  lemma DumpedDatabaseSchema(outdir: string, db: string)
    requires '/' !in db
    ensures var f := DatabaseSchemaFile(outdir, db);
      && Classify(f.name) == DatabaseSchema
      && DatabaseName(f.name) == db
      && f.content == "CREATE DATABASE IF NOT EXISTS " + Quote(db) + ";"
  {
    ClassifyDatabaseSchemaName(outdir, db);
    ParseDatabaseSchemaName(outdir, db);
  }

  // ================================================== statement replay

  /** Pieces that are empty or start with a comment are skipped. */
  predicate Executable(q: string)
  {
    !HasPrefix(q, "/*") && q != ""
  }

  function KeepExecutable(pieces: seq<string>): seq<string>
  {
    if pieces == [] then []
    else
      var init, q := pieces[..|pieces| - 1], pieces[|pieces| - 1];
      KeepExecutable(init) + (if Executable(q) then [q] else [])
  }

  lemma KeepExecutablePrefix(pieces: seq<string>, k: nat)
    requires k < |pieces|
    ensures KeepExecutable(pieces[..k + 1])
         == KeepExecutable(pieces[..k]) + (if Executable(pieces[k]) then [pieces[k]] else [])
  {
    assert pieces[..k + 1][..k] == pieces[..k];
  }

  /** The statements a file replays, in file order. */
  function Statements(text: string): (qs: seq<string>)
  {
    KeepExecutable(Split(text, ";\n"))
  }

  lemma {:induction false} KeepExecutableAll(pieces: seq<string>)
    requires forall k | 0 <= k < |pieces| :: Executable(pieces[k])
    ensures KeepExecutable(pieces) == pieces
    decreases |pieces|
  {
    if pieces != [] {
      KeepExecutableAll(pieces[..|pieces| - 1]);
    }
  }

  /** Every replayed statement is one of the file's `;\n` pieces, none is
      empty or a comment, and none contains `;\n`. */
  lemma {:induction false} KeepExecutableSound(pieces: seq<string>)
    ensures forall q | q in KeepExecutable(pieces) :: q in pieces && Executable(q)
    decreases |pieces|
  {
    if pieces != [] {
      KeepExecutableSound(pieces[..|pieces| - 1]);
    }
  }

  lemma StatementsSound(text: string)
    ensures forall q | q in Statements(text) :: Executable(q) && Free(q, ";\n")
  {
    KeepExecutableSound(Split(text, ";\n"));
    SplitPiecesFree(text, ";\n");
  }

  /** restoreTable's result: what it executes and the bytes it reports. */
  datatype Restored = Restored(issued: seq<string>, bytes: nat)

  /** restoreTable: parse the name, `USE` its database, then execute the
      kept pieces in order; the byte count is the whole file's length. A
      name with fewer than two pieces panics (None). */
  method RestoreTable(path: string, read: string -> string) returns (r: Option<Restored>)
    ensures ParseDataName(path).None? ==> r.None?
    ensures ParseDataName(path).Some? ==>
      r == Some(Restored([UseStatement(ParseDataName(path).value.db)] + Statements(read(path)),
                         ByteLen(read(path))))
  {
    var parsed := ParseDataName(path);
    if parsed.None? {
      return None;
    }
    var text := read(path);
    var kept := ExecutedPieces(text);
    var issued := [UseStatement(parsed.value.db)] + kept;
    r := Some(Restored(issued, ByteLen(text)));
  }

  /** The loop of restoreTable over the file's `;\n` pieces: comments and
      empty pieces are skipped, the rest executed in order. */
  method ExecutedPieces(text: string) returns (issued: seq<string>)
    ensures issued == Statements(text)
  {
    issued := [];
    var pieces := Split(text, ";\n");
    for k := 0 to |pieces|
      invariant issued == KeepExecutable(pieces[..k])
    {
      KeepExecutablePrefix(pieces, k);
      if !HasPrefix(pieces[k], "/*") && pieces[k] != "" {
        issued := issued + [pieces[k]];
      }
    }
    assert pieces[..|pieces|] == pieces;
  }

  /** Restoring a SQL part the dumper wrote executes exactly its INSERT
      statements, in order, provided no encoded row contains `;\n`. */
  lemma ReplayDumpedPart(table: string, fields: seq<string>, batches: seq<seq<string>>)
    requires forall k | 0 <= k < |batches| :: Free(InsertStmt(table, fields, batches[k]), ";\n")
    ensures Statements(SqlPartText(Inserts(table, fields, batches))) == Inserts(table, fields, batches)
  {
    var ins := Inserts(table, fields, batches);
    var parts := PartPieces(ins);
    PartTextJoin(ins);
    forall k | 0 <= k < |parts| ensures Free(parts[k], ";\n") {
      if k < |ins| {
        assert parts[k] == ins[k];
      } else {
        assert parts[k] == "";
      }
    }
    SplitJoinSep(parts, ";\n");
    assert Statements(SqlPartText(ins)) == KeepExecutable(parts);
    if ins == [] {
      assert parts[..1] == [""];
      assert [""][..0] == [];
    } else {
      assert parts[..|parts| - 1] == ins;
      assert !Executable(parts[|parts| - 1]);
      assert KeepExecutable(parts) == KeepExecutable(ins);
      forall k | 0 <= k < |ins| ensures Executable(ins[k]) {
        InsertExecutable(table, fields, batches[k]);
      }
      KeepExecutableAll(ins);
    }
  }

  /** The `;\n`-separated pieces of a part file: its statements and the
      empty piece after the last terminator (two empty pieces when the
      file holds no statement). */
  function PartPieces(ins: seq<string>): seq<string>
  {
    if ins == [] then ["", ""] else ins + [""]
  }

  lemma PartTextJoin(ins: seq<string>)
    ensures SqlPartText(ins) == Join(PartPieces(ins), ";\n")
  {
    if ins == [] {
      JoinTwo("", "", ";\n");
    } else {
      JoinAppend(ins, "", ";\n");
    }
  }

  lemma InsertExecutable(table: string, fields: seq<string>, batch: seq<string>)
    ensures Executable(InsertStmt(table, fields, batch))
  {
    var s := InsertStmt(table, fields, batch);
    assert s[0] == 'I';
  }

  // ====================================================== schema replay

  function DropStatement(db: string, table: string): string
  {
    "DROP TABLE IF EXISTS " + Quote(db) + "." + Quote(table)
  }

  /** Each statement directly preceded by its own DROP. */
  function WithDrops(drop: string, qs: seq<string>): (out: seq<string>)
    ensures |out| == 2 * |qs|
  {
    if qs == [] then [] else WithDrops(drop, qs[..|qs| - 1]) + [drop, qs[|qs| - 1]]
  }

  /** One more piece adds its DROP and itself when it is executable. */
  lemma DropStep(drop: string, pieces: seq<string>, j: nat)
    requires j < |pieces|
    ensures WithDrops(drop, KeepExecutable(pieces[..j + 1]))
         == WithDrops(drop, KeepExecutable(pieces[..j]))
            + (if Executable(pieces[j]) then [drop, pieces[j]] else [])
  {
    var qs := KeepExecutable(pieces[..j]);
    assert pieces[..j + 1][..j] == pieces[..j];
    if Executable(pieces[j]) {
      assert KeepExecutable(pieces[..j + 1]) == qs + [pieces[j]];
      assert (qs + [pieces[j]])[..|qs|] == qs;
    } else {
      assert KeepExecutable(pieces[..j + 1]) == qs + [];
      assert qs + [] == qs;
    }
  }

  /** DROPs and statements strictly alternate, the statements in order. */
  lemma {:induction false} WithDropsAlternate(drop: string, qs: seq<string>)
    ensures forall k | 0 <= k < |qs| ::
      WithDrops(drop, qs)[2 * k] == drop && WithDrops(drop, qs)[2 * k + 1] == qs[k]
    decreases |qs|
  {
    if qs != [] {
      WithDropsAlternate(drop, qs[..|qs| - 1]);
    }
  }

  /** What restoring one schema file executes. */
  function SchemaReplay(db: string, table: string, text: string): seq<string>
  {
    [UseStatement(db)] + WithDrops(DropStatement(db, table), Statements(text))
  }

  /** What restoreTableSchema executed, and whether it panicked. A panic
      keeps what the files before the bad one executed. */
  datatype Replayed = Replayed(issued: seq<string>, panicked: bool)

  /** restoreTableSchema: nothing at all unless overwrite is set; otherwise
      each file in turn, and a name that does not parse panics before the
      file's `USE`. */
  method RestoreTableSchema(overwrite: bool, paths: seq<string>, read: string -> string)
    returns (r: Replayed)
    ensures !overwrite ==> r == Replayed([], false)
    ensures overwrite ==> r == SchemaReplays(paths, read)
  {
    if !overwrite {
      return Replayed([], false);
    }
    var out: seq<string> := [];
    for k := 0 to |paths|
      invariant SchemaReplays(paths[..k], read) == Replayed(out, false)
    {
      var parsed := ParseSchemaName(paths[k]);
      if parsed.None? {
        SchemaReplaysFirstBad(paths, k, read);
        return Replayed(out, true);
      }
      var (db, tbl) := parsed.value;
      var replay := ReplaySchemaFile(db, tbl, read(paths[k]));
      SchemaParseStep(paths, k, read, db, tbl);
      out := out + replay;
    }
    assert paths[..|paths|] == paths;
    r := Replayed(out, false);
  }

  /** The statements restoreTableSchema executes for one file: `USE` its
      database, then a DROP before each kept piece. */
  method ReplaySchemaFile(db: string, table: string, text: string) returns (out: seq<string>)
    ensures out == SchemaReplay(db, table, text)
  {
    out := [UseStatement(db)];
    var pieces := Split(text, ";\n");
    var drop := DropStatement(db, table);
    assert pieces[..0] == [];
    for j := 0 to |pieces|
      invariant out == [UseStatement(db)] + WithDrops(drop, KeepExecutable(pieces[..j]))
    {
      DropStep(drop, pieces, j);
      ghost var w := WithDrops(drop, KeepExecutable(pieces[..j]));
      if !HasPrefix(pieces[j], "/*") && pieces[j] != "" {
        assert ([UseStatement(db)] + w) + [drop, pieces[j]] == [UseStatement(db)] + (w + [drop, pieces[j]]);
        out := out + [drop, pieces[j]];
      } else {
        assert w + [] == w;
      }
    }
    assert pieces[..|pieces|] == pieces;
  }

  /** The replays of a list of schema files, in order; the first name that
      fails stops the list. */
  function SchemaReplays(paths: seq<string>, read: string -> string): Replayed
  {
    if paths == [] then Replayed([], false)
    else
      var init, p := paths[..|paths| - 1], paths[|paths| - 1];
      var before := SchemaReplays(init, read);
      var parsed := ParseSchemaName(p);
      if before.panicked then before
      else if parsed.None? then Replayed(before.issued, true)
      else Replayed(before.issued + SchemaReplay(parsed.value.0, parsed.value.1, read(p)), false)
  }

  /** After a panic nothing more is executed. */
  lemma {:induction false} PanicSticks(paths: seq<string>, k: nat, read: string -> string)
    requires 0 < k <= |paths| && SchemaReplays(paths[..k], read).panicked
    ensures SchemaReplays(paths, read) == SchemaReplays(paths[..k], read)
    decreases |paths| - k
  {
    if k < |paths| {
      assert paths[..k + 1][..k] == paths[..k];
      PanicSticks(paths, k + 1, read);
    } else {
      assert paths[..k] == paths;
    }
  }

  /** Every name parses. */
  predicate AllParse(paths: seq<string>)
  {
    forall k | 0 <= k < |paths| :: ParseSchemaName(paths[k]).Some?
  }

  lemma AllParseSnoc(paths: seq<string>, n: nat)
    requires n + 1 == |paths|
    ensures AllParse(paths) <==> AllParse(paths[..n]) && ParseSchemaName(paths[n]).Some?
  {
    if AllParse(paths[..n]) && ParseSchemaName(paths[n]).Some? {
      AllParseGrow(paths, n);
    }
    if AllParse(paths) {
      AllParseShrink(paths, n);
    }
  }

  lemma AllParseGrow(paths: seq<string>, n: nat)
    requires n + 1 == |paths| && AllParse(paths[..n]) && ParseSchemaName(paths[n]).Some?
    ensures AllParse(paths)
  {
    forall k | 0 <= k < |paths| ensures ParseSchemaName(paths[k]).Some? {
      if k < n {
        assert paths[..n][k] == paths[k];
      } else {
        assert k == n;
      }
    }
  }

  lemma AllParseShrink(paths: seq<string>, n: nat)
    requires n <= |paths| && AllParse(paths)
    ensures AllParse(paths[..n])
  {
    forall k | 0 <= k < n ensures ParseSchemaName(paths[..n][k]).Some? {
      assert paths[..n][k] == paths[k];
    }
  }

  /** The replay panics exactly when some name fails to parse. */
  lemma {:induction false} SchemaReplaysPanic(paths: seq<string>, read: string -> string)
    ensures SchemaReplays(paths, read).panicked <==> !AllParse(paths)
    decreases |paths|
  {
    if paths != [] {
      var n := |paths| - 1;
      SchemaReplaysPanic(paths[..n], read);
      AllParseSnoc(paths, n);
    }
  }

  /** A panic keeps exactly what the files before the first bad name
      executed (by SchemaReplaysPanic, the files before `k` replay without
      a panic exactly when all their names parse). */
  lemma SchemaReplaysFirstBad(paths: seq<string>, k: nat, read: string -> string)
    requires k < |paths| && ParseSchemaName(paths[k]).None? && !SchemaReplays(paths[..k], read).panicked
    ensures SchemaReplays(paths, read) == Replayed(SchemaReplays(paths[..k], read).issued, true)
  {
    SchemaPanicStep(paths, k, read);
    PanicKeeps(paths, k, read);
  }

  /** Once the prefix through file k has panicked with the issued list of the prefix before it, so has the whole run. */
  lemma PanicKeeps(paths: seq<string>, k: nat, read: string -> string)
    requires k < |paths|
    requires SchemaReplays(paths[..k + 1], read) == Replayed(SchemaReplays(paths[..k], read).issued, true)
    ensures SchemaReplays(paths, read) == Replayed(SchemaReplays(paths[..k], read).issued, true)
  {
    PanicSticks(paths, k + 1, read);
  }

  lemma SchemaPanicStep(paths: seq<string>, k: nat, read: string -> string)
    requires k < |paths| && !SchemaReplays(paths[..k], read).panicked && ParseSchemaName(paths[k]).None?
    ensures SchemaReplays(paths[..k + 1], read) == Replayed(SchemaReplays(paths[..k], read).issued, true)
  {
    var pre := paths[..k + 1];
    assert pre[..|pre| - 1] == paths[..k] && pre[|pre| - 1] == paths[k];
  }

  lemma SchemaParseStep(paths: seq<string>, k: nat, read: string -> string, db: string, table: string)
    requires k < |paths| && !SchemaReplays(paths[..k], read).panicked && ParseSchemaName(paths[k]) == Some((db, table))
    ensures SchemaReplays(paths[..k + 1], read)
         == Replayed(SchemaReplays(paths[..k], read).issued + SchemaReplay(db, table, read(paths[k])), false)
  {
    var pre := paths[..k + 1];
    assert pre[..|pre| - 1] == paths[..k] && pre[|pre| - 1] == paths[k];
  }

  /** Replaying the schema file of a table whose CREATE statement holds
      no `;\n` drops the table and creates it again, after selecting its
      database. */
  lemma ReplayDumpedSchema(outdir: string, db: string, table: string, create: string,
                           read: string -> string)
    requires Plain(db) && Plain(table)
    requires Free(create, ";\n") && Executable(create)
    requires read(TableSchemaName(outdir, db, table)) == TableSchema(create, false)
    ensures SchemaReplays([TableSchemaName(outdir, db, table)], read)
         == Replayed([UseStatement(db), DropStatement(db, table), create], false)
  {
    var p := TableSchemaName(outdir, db, table);
    ParseTableSchemaName(outdir, db, table);
    SchemaReplaysOne(p, read);
    StatementsOfSchema(create);
    SchemaReplaySingle(db, table, read(p), create);
  }

  /** A schema text of one statement replays its database, its DROP and it. */
  lemma SchemaReplaySingle(db: string, table: string, text: string, create: string)
    requires Statements(text) == [create]
    ensures SchemaReplay(db, table, text) == [UseStatement(db), DropStatement(db, table), create]
  {
    var drop := DropStatement(db, table);
    assert WithDrops(drop, [create]) == [drop, create] by {
      assert [create][..0] == [];
    }
  }

  /** The replay of a single schema file. */
  lemma SchemaReplaysOne(p: string, read: string -> string)
    ensures ParseSchemaName(p).None? ==> SchemaReplays([p], read) == Replayed([], true)
    ensures ParseSchemaName(p).Some? ==>
      SchemaReplays([p], read)
        == Replayed(SchemaReplay(ParseSchemaName(p).value.0, ParseSchemaName(p).value.1, read(p)), false)
  {
    var ps := [p];
    assert ps[..|ps| - 1] == [] && ps[|ps| - 1] == p;
    var parsed := ParseSchemaName(p);
    if parsed.Some? {
      var x := SchemaReplay(parsed.value.0, parsed.value.1, read(p));
      assert SchemaReplays(ps, read) == Replayed([] + x, false);
      assert [] + x == x;
    }
  }

  /** A schema file holding one statement free of `;\n` replays just it. */
  lemma StatementsOfSchema(create: string)
    requires Free(create, ";\n") && Executable(create)
    ensures Statements(TableSchema(create, false)) == [create]
  {
    var parts := [create, ""];
    JoinTwo(create, "", ";\n");
    assert TableSchema(create, false) == Join(parts, ";\n");
    assert Free("", ";\n");
    SplitJoinSep(parts, ";\n");
    assert Split(TableSchema(create, false), ";\n") == parts;
    assert parts[..1] == [create];
    assert [create][..0] == [];
    assert KeepExecutable([create]) == [create];
    assert !Executable("");
    assert KeepExecutable(parts) == KeepExecutable([create]);
  }

  // ==================================================== database replay

  /** restoreDatabaseSchema: each file's text is executed as it is. */
  method RestoreDatabaseSchema(paths: seq<string>, read: string -> string)
    returns (issued: seq<string>)
    ensures |issued| == |paths| && forall k | 0 <= k < |paths| :: issued[k] == read(paths[k])
  {
    issued := [];
    for k := 0 to |paths|
      invariant |issued| == k && forall j | 0 <= j < k :: issued[j] == read(paths[j])
    {
      issued := issued + [read(paths[k])];
    }
  }

  // ========================================================== Doris mode

  /** The text before the first newline and the text after it; a file
      without a newline is a slice panic (None). */
  function HeaderBody(text: string): (hb: Option<(string, string)>)
    ensures hb.Some? ==> hb.value.0 + "\n" + hb.value.1 == text && '\n' !in hb.value.0
    ensures hb.None? <==> '\n' !in text
  {
    var pos := Index(text, "\n");
    FreeChar(text, '\n');
    if pos < 0 then None
    else
      HeadBeforeIndex(text, '\n');
      assert text == text[..pos] + "\n" + text[pos + 1..] by {
        assert text[pos..pos + 1] == "\n";
      }
      Some((text[..pos], text[pos + 1..]))
  }

  /** The header and body recovered from a Doris part are the dumper's
      column list and its rows, when no column name holds a newline. */
  lemma HeaderBodyOfDorisText(fields: seq<string>, rows: seq<string>)
    requires '\n' !in Join(fields, ",")
    ensures HeaderBody(DorisText(fields, rows)) == Some((Join(fields, ","), Join(rows, "\n")))
  {
    var h, b := Join(fields, ","), Join(rows, "\n");
    var text := h + "\n" + b;
    FreeChar(h, '\n');
    IndexAfterFreePart(h, "\n", b);
    assert text[..|h|] == h;
    assert text[|h| + 1..] == b;
  }

  /** The stream-load endpoint of a table. */
  function LoadUrl(addr: string, db: string, table: string): string
  {
    "http://" + addr + "/api/" + db + "/" + table + "/_stream_load"
  }

  datatype Request = Request(
    verb: string,
    url: string,
    headers: seq<(string, string)>,
    body: string,
    user: string,
    password: string)

  /** _newDorisLoadRequest. */
  function LoadRequest(url: string, header: string, body: string, user: string, password: string)
    : (req: Request)
    ensures req.verb == "PUT" && req.url == url && req.body == body
    ensures |req.headers| == 3 && req.headers[1] == ("columns", header)
    ensures req.headers[2] == ("strict_mode", "true")
    ensures req.headers[0].0 == "Content-Length" && IsDigits(req.headers[0].1)
  {
    Request("PUT", url,
            [("Content-Length", NatToString(ByteLen(body))), ("columns", header), ("strict_mode", "true")],
            body, user, password)
  }

  /** The announced length is the body's length in bytes. */
  lemma ContentLengthIsBodyBytes(url: string, header: string, body: string, user: string, password: string)
    ensures DigitsValue(LoadRequest(url, header, body, user, password).headers[0].1) == ByteLen(body)
  {
    NatToStringValue(ByteLen(body));
  }

  /** The decoded JSON of a 200 answer. */
  datatype LoadResponse = LoadResponse(status: string, message: string, total: int, loaded: int, errorUrl: string)

  /** How one submission ends: the request could not be built, the
      transport failed, or the server answered (with a body that may not
      decode as JSON). Redirects are not followed, so a 307 is an answer. */
  datatype Attempt = RequestInvalid | TransportFailed | Responded(code: int, json: Option<LoadResponse>)

  datatype Outcome = Done(warned: bool) | Retry

  /** submitDorisTask's verdict. */
  function Judge(a: Attempt): Outcome
  {
    match a
    case Responded(200, Some(resp)) =>
      if resp.status == "Fail" then Done(true) else Done(resp.total != resp.loaded)
    case _ => Retry
  }

  /** Done exactly for a decodable 200; a warning exactly when the load
      failed or rows were filtered; every other answer, a redirect
      included, is retried. */
  lemma JudgeSpec(a: Attempt)
    ensures Judge(a).Done? <==> a.Responded? && a.code == 200 && a.json.Some?
    ensures Judge(a).Done? ==>
      (Judge(a).warned <==> a.json.value.status == "Fail" || a.json.value.total != a.json.value.loaded)
    ensures a.Responded? && a.code == 307 ==> Judge(a) == Retry
  {
  }

  /** The retry loop over a script of attempts: the index of the first
      attempt judged done, or None when the script runs out (the loader
      itself would go on retrying). */
  method SubmitUntilDone(attempts: seq<Attempt>) returns (done: Option<nat>)
    ensures done.Some? ==> done.value < |attempts| && Judge(attempts[done.value]).Done?
    ensures done.Some? ==> forall j | 0 <= j < done.value :: Judge(attempts[j]) == Retry
    ensures done.None? ==> forall j | 0 <= j < |attempts| :: Judge(attempts[j]) == Retry
  {
    var k := 0;
    while k < |attempts|
      invariant k <= |attempts|
      invariant forall j | 0 <= j < k :: Judge(attempts[j]) == Retry
    {
      if Judge(attempts[k]).Done? {
        return Some(k);
      }
      k := k + 1;
    }
    return None;
  }

  /** The index of the first attempt judged done, None when every attempt
      is retried. */
  function FirstDone(attempts: seq<Attempt>): (d: Option<nat>)
    ensures d.Some? ==> d.value < |attempts| && Judge(attempts[d.value]).Done?
    ensures d.Some? ==> forall j | 0 <= j < d.value :: Judge(attempts[j]) == Retry
    ensures d.None? ==> forall j | 0 <= j < |attempts| :: Judge(attempts[j]) == Retry
    decreases |attempts|
  {
    if attempts == [] then None
    else if Judge(attempts[0]).Done? then Some(0)
    else
      var rest := FirstDone(attempts[1..]);
      if rest.None? then None else Some(rest.value + 1)
  }

  /** The three properties of the retry loop single out one answer. */
  lemma FirstDoneUnique(attempts: seq<Attempt>, d: Option<nat>)
    requires d.Some? ==> d.value < |attempts| && Judge(attempts[d.value]).Done?
    requires d.Some? ==> forall j | 0 <= j < d.value :: Judge(attempts[j]) == Retry
    requires d.None? ==> forall j | 0 <= j < |attempts| :: Judge(attempts[j]) == Retry
    ensures d == FirstDone(attempts)
  {
  }

  /** restoreDorisTable's result: the request, which attempt completed it
      (None: still retrying), and the file's byte count. */
  datatype DorisRestored = DorisRestored(request: Request, done: Option<nat>, bytes: nat)

  /** restoreDorisTable: parse the name, split the file into header and
      body, build the request for the endpoint, and retry it. None is one
      of the two panics (a bad name or a file without a newline). */
  method RestoreDorisTable(path: string, addr: string, read: string -> string,
                           user: string, password: string, attempts: seq<Attempt>)
    returns (r: Option<DorisRestored>)
    ensures ParseDataName(path).None? || '\n' !in read(path) ==> r.None?
    ensures ParseDataName(path).Some? && '\n' in read(path) ==>
      var n, hb := ParseDataName(path).value, HeaderBody(read(path)).value;
      && r.Some?
      && r.value.request == LoadRequest(LoadUrl(addr, n.db, n.table), hb.0, hb.1, user, password)
      && r.value.bytes == ByteLen(read(path))
      && (r.value.done.Some? ==>
            && r.value.done.value < |attempts| && Judge(attempts[r.value.done.value]).Done?
            && forall j | 0 <= j < r.value.done.value :: Judge(attempts[j]) == Retry)
      && (r.value.done.None? ==> forall j | 0 <= j < |attempts| :: Judge(attempts[j]) == Retry)
  {
    var parsed := ParseDataName(path);
    if parsed.None? {
      return None;
    }
    var text := read(path);
    var split := HeaderBody(text);
    if split.None? {
      return None;
    }
    var (header, body) := split.value;
    var url := LoadUrl(addr, parsed.value.db, parsed.value.table);
    var req := LoadRequest(url, header, body, user, password);
    var done := SubmitUntilDone(attempts);
    r := Some(DorisRestored(req, done, ByteLen(text)));
  }

  // ============================================================= Loader

  /** The endpoint the k-th dispatched file is sent to. */
  function Endpoint(addrs: seq<string>, k: nat): string
    requires |addrs| > 0
  {
    addrs[k % |addrs|]
  }

  lemma EndpointRoundRobin(addrs: seq<string>, k: nat)
    requires |addrs| > 0
    ensures Endpoint(addrs, k + |addrs|) == Endpoint(addrs, k)
    ensures k < |addrs| ==> Endpoint(addrs, k) == addrs[k]
  {
    ModAddPeriod(k, |addrs|);
  }

  lemma ModAddPeriod(k: nat, n: nat)
    requires n > 0
    ensures (k + n) % n == k % n
  {
    var q, r := k / n, k % n;
    var q2, r2 := (k + n) / n, (k + n) % n;
    assert q2 * n + r2 == q * n + r + n;
    var d := q2 - q - 1;
    assert d * n == r - r2 by {
      assert q2 * n == (q + 1 + d) * n;
      assert (q + 1 + d) * n == q * n + n + d * n;
    }
  }

  /** The address list always has an element: it comes from a split. */
  lemma SplitAddressesNonEmpty(config: string)
    ensures |Split(config, ",")| > 0
  {
  }

  /** One dispatched data file and the endpoint it is loaded through. */
  datatype Job = Job(path: string, addr: string)

  // ============================================================ the run

  /** The stage of the run a statement belongs to. */
  datatype Phase = DatabasePhase | SchemaPhase | DataPhase

  /** What the loader does to the server: execute a statement, or submit a
      stream-load request. */
  datatype Action = Exec(phase: Phase, stmt: string) | Submit(request: Request)

  /** The stage of an action, as a number: submissions are data. */
  function Rank(a: Action): (n: nat)
    ensures n <= 2
    ensures n == 2 <==> a.Submit? || a.phase == DataPhase
  {
    match a
    case Submit(_) => 2
    case Exec(DatabasePhase, _) => 0
    case Exec(SchemaPhase, _) => 1
    case Exec(DataPhase, _) => 2
  }

  /** Every action of an earlier stage comes before every action of a
      later one. */
  predicate PhaseOrdered(trace: seq<Action>)
  {
    forall i, j | 0 <= i <= j < |trace| :: Rank(trace[i]) <= Rank(trace[j])
  }

  function Execs(phase: Phase, qs: seq<string>): (t: seq<Action>)
    ensures |t| == |qs| && forall k | 0 <= k < |qs| :: t[k] == Exec(phase, qs[k])
  {
    seq(|qs|, k requires 0 <= k < |qs| => Exec(phase, qs[k]))
  }

  function Submits(req: Request, n: nat): (t: seq<Action>)
    ensures |t| == n && forall k | 0 <= k < n :: t[k] == Submit(req)
  {
    seq(n, k => Submit(req))
  }

  /** How one data file's goroutine ends: its byte count, a panic, or
      retrying for ever. */
  datatype FileEnd = Loaded(bytes: nat) | FilePanicked | FileStalled

  datatype JobRun = JobRun(actions: seq<Action>, end: FileEnd)

  /** One data file: in SQL mode `USE` and its statements, in Doris mode
      one submission per attempt made. A panic comes before any action. */
  function RunOf(job: Job, doris: bool, read: string -> string, user: string, password: string,
                 attempts: seq<Attempt>): JobRun
  {
    var parsed := ParseDataName(job.path);
    var text := read(job.path);
    if parsed.None? then JobRun([], FilePanicked)
    else if !doris then
      JobRun(Execs(DataPhase, [UseStatement(parsed.value.db)] + Statements(text)), Loaded(ByteLen(text)))
    else if '\n' !in text then JobRun([], FilePanicked)
    else
      var hb := HeaderBody(text).value;
      var req := LoadRequest(LoadUrl(job.addr, parsed.value.db, parsed.value.table), hb.0, hb.1, user, password);
      var done := FirstDone(attempts);
      if done.None? then JobRun(Submits(req, |attempts|), FileStalled)
      else JobRun(Submits(req, done.value + 1), Loaded(ByteLen(text)))
  }

  /** The fact the run's total needs: a loaded file reports its length. */
  lemma RunOfBytes(job: Job, doris: bool, read: string -> string, user: string, password: string,
                   attempts: seq<Attempt>)
    ensures var one := RunOf(job, doris, read, user, password, attempts);
      one.end.Loaded? ==> one.end.bytes == ByteLen(read(job.path))
    ensures forall a | a in RunOf(job, doris, read, user, password, attempts).actions :: Rank(a) == 2
  {
  }

  /** Each dispatched file's run, the k-th with the k-th script of attempts. */
  function RunsOf(jobs: seq<Job>, doris: bool, read: string -> string, user: string, password: string,
                  attempts: seq<seq<Attempt>>): seq<JobRun>
    requires |attempts| == |jobs|
  {
    seq(|jobs|, k requires 0 <= k < |jobs| => RunOf(jobs[k], doris, read, user, password, attempts[k]))
  }

  lemma CombineNext(runs: seq<JobRun>, k: nat, one: JobRun)
    requires k < |runs| && one == runs[k]
    ensures Combine(runs[..k + 1]) == Step(Combine(runs[..k]), one)
  {
    TakeSnoc(runs, k);
    CombineAppend(runs[..k], one);
  }

  lemma TakeSnoc<T>(s: seq<T>, k: nat)
    requires k < |s|
    ensures s[..k + 1] == s[..k] + [s[k]]
  {
  }

  /** How the whole run ends: the total byte count, a panic, or waiting
      for ever on a file that is still being retried. */
  datatype LoadEnd = Finished(bytes: nat) | Panicked | Stalled

  datatype Run = Run(actions: seq<Action>, end: LoadEnd)

  /** The run so far followed by one more file's run. */
  function Step(before: Run, last: JobRun): Run
  {
    if before.end.Panicked? then before
    else if last.end.FilePanicked? then Run(before.actions, Panicked)
    else if before.end.Stalled? || last.end.FileStalled? then Run(before.actions + last.actions, Stalled)
    else Run(before.actions + last.actions, Finished(before.end.bytes + last.end.bytes))
  }

  /** The files' runs in dispatch order; the first panic ends the run. */
  function Combine(runs: seq<JobRun>): Run
  {
    if runs == [] then Run([], Finished(0))
    else Step(Combine(runs[..|runs| - 1]), runs[|runs| - 1])
  }

  lemma CombineAppend(runs: seq<JobRun>, last: JobRun)
    ensures Combine(runs + [last]) == Step(Combine(runs), last)
  {
    assert (runs + [last])[..|runs|] == runs;
  }

  /** The data loop: each job restored in turn, stopping at a panic. */
  method RunJobs(jobs: seq<Job>, doris: bool, read: string -> string, user: string, password: string,
                 attempts: seq<seq<Attempt>>)
    returns (run: Run)
    requires |attempts| == |jobs|
    ensures run == Combine(RunsOf(jobs, doris, read, user, password, attempts))
  {
    ghost var runs := RunsOf(jobs, doris, read, user, password, attempts);
    run := Run([], Finished(0));
    for k := 0 to |jobs|
      invariant run == Combine(runs[..k]) && !run.end.Panicked?
    {
      var one := RunJob(jobs[k], doris, read, user, password, attempts[k]);
      CombineNext(runs, k, one);
      run := Step(run, one);
      if run.end.Panicked? {
        CombineSticks(runs, k + 1);
        return;
      }
    }
    assert runs[..|jobs|] == runs;
  }

  /** One goroutine of the data loop. */
  method RunJob(job: Job, doris: bool, read: string -> string, user: string, password: string,
                attempts: seq<Attempt>)
    returns (one: JobRun)
    ensures one == RunOf(job, doris, read, user, password, attempts)
  {
    if !doris {
      var r := RestoreTable(job.path, read);
      if r.None? {
        return JobRun([], FilePanicked);
      }
      return JobRun(Execs(DataPhase, r.value.issued), Loaded(r.value.bytes));
    }
    var r := RestoreDorisTable(job.path, job.addr, read, user, password, attempts);
    if r.None? {
      return JobRun([], FilePanicked);
    }
    FirstDoneUnique(attempts, r.value.done);
    if r.value.done.None? {
      return JobRun(Submits(r.value.request, |attempts|), FileStalled);
    }
    return JobRun(Submits(r.value.request, r.value.done.value + 1), Loaded(r.value.bytes));
  }

  /** After a panic nothing more happens. */
  lemma {:induction false} CombineSticks(runs: seq<JobRun>, k: nat)
    requires 0 < k <= |runs| && Combine(runs[..k]).end.Panicked?
    ensures Combine(runs) == Combine(runs[..k])
    decreases |runs| - k
  {
    if k < |runs| {
      assert runs[..k + 1][..k] == runs[..k];
      CombineSticks(runs, k + 1);
    } else {
      assert runs[..k] == runs;
    }
  }

  /** A run that finishes reports the sum of the files' byte counts. */
  lemma {:induction false} CombineBytes(runs: seq<JobRun>, texts: seq<string>)
    requires |runs| == |texts|
    requires forall k | 0 <= k < |runs| && runs[k].end.Loaded? :: runs[k].end.bytes == ByteLen(texts[k])
    ensures Combine(runs).end.Finished? ==> Combine(runs).end.bytes == SumLen(texts)
    decreases |runs|
  {
    if runs != [] {
      var n := |runs| - 1;
      CombineBytes(runs[..n], texts[..n]);
      assert texts == texts[..n] + [texts[n]];
      SumLenAppend(texts[..n], [texts[n]]);
      SumLenSingleton(texts[n]);
    }
  }

  /** The run panics exactly when some file's goroutine panics, and stalls
      exactly when none panics and some file is never judged done. */
  lemma {:induction false} CombineEnds(runs: seq<JobRun>)
    ensures Combine(runs).end.Panicked? <==> exists k | 0 <= k < |runs| :: runs[k].end.FilePanicked?
    ensures Combine(runs).end.Stalled? <==>
      !Combine(runs).end.Panicked? && exists k | 0 <= k < |runs| :: runs[k].end.FileStalled?
    decreases |runs|
  {
    if runs != [] {
      var n := |runs| - 1;
      CombineEnds(runs[..n]);
      assert forall k | 0 <= k < n :: runs[..n][k] == runs[k];
    }
  }

  /** The run's actions come from the files' runs. */
  lemma {:induction false} CombineData(runs: seq<JobRun>)
    requires forall k | 0 <= k < |runs| :: forall a | a in runs[k].actions :: Rank(a) == 2
    ensures forall a | a in Combine(runs).actions :: Rank(a) == 2
    decreases |runs|
  {
    if runs != [] {
      var n := |runs| - 1;
      assert forall k | 0 <= k < n :: runs[..n][k] == runs[k];
      CombineData(runs[..n]);
    }
  }

  /** Every action of the data loop belongs to the data stage. */
  lemma DataStage(jobs: seq<Job>, doris: bool, read: string -> string, user: string, password: string,
                  attempts: seq<seq<Attempt>>)
    requires |attempts| == |jobs|
    ensures forall a | a in Combine(RunsOf(jobs, doris, read, user, password, attempts)).actions :: Rank(a) == 2
  {
    var runs := RunsOf(jobs, doris, read, user, password, attempts);
    forall k | 0 <= k < |runs| ensures forall a | a in runs[k].actions :: Rank(a) == 2 {
      RunOfBytes(jobs[k], doris, read, user, password, attempts[k]);
    }
    CombineData(runs);
  }

  /** The loader's total: the sum of the files' byte counts, when every
      file is loaded. */
  lemma LoadBytes(jobs: seq<Job>, doris: bool, read: string -> string, user: string, password: string,
                  attempts: seq<seq<Attempt>>)
    requires |attempts| == |jobs|
    ensures var end := Combine(RunsOf(jobs, doris, read, user, password, attempts)).end;
      end.Finished? ==> end.bytes == SumLen(ReadAll(JobPaths(jobs), read))
  {
    var runs := RunsOf(jobs, doris, read, user, password, attempts);
    forall k | 0 <= k < |runs| && runs[k].end.Loaded?
      ensures runs[k].end.bytes == ByteLen(ReadAll(JobPaths(jobs), read)[k])
    {
      RunOfBytes(jobs[k], doris, read, user, password, attempts[k]);
    }
    CombineBytes(runs, ReadAll(JobPaths(jobs), read));
  }

  /** The loader panics exactly when one of its data files' goroutines
      panics, and waits for ever exactly when none panics and some file's
      load is never judged done. */
  lemma LoadEnds(jobs: seq<Job>, doris: bool, read: string -> string, user: string, password: string,
                 attempts: seq<seq<Attempt>>)
    requires |attempts| == |jobs|
    ensures var end := Combine(RunsOf(jobs, doris, read, user, password, attempts)).end;
      && (end.Panicked? <==>
            exists k | 0 <= k < |jobs| :: RunOf(jobs[k], doris, read, user, password, attempts[k]).end.FilePanicked?)
      && (end.Stalled? <==>
            !end.Panicked? &&
            exists k | 0 <= k < |jobs| :: RunOf(jobs[k], doris, read, user, password, attempts[k]).end.FileStalled?)
  {
    var runs := RunsOf(jobs, doris, read, user, password, attempts);
    CombineEnds(runs);
    assert forall k | 0 <= k < |jobs| :: runs[k] == RunOf(jobs[k], doris, read, user, password, attempts[k]);
  }

  /** Three stages laid end to end keep their order. */
  lemma StagesOrdered(a: seq<Action>, b: seq<Action>, c: seq<Action>)
    requires forall x | x in a :: Rank(x) == 0
    requires forall x | x in b :: Rank(x) == 1
    requires forall x | x in c :: Rank(x) == 2
    ensures PhaseOrdered(a + b + c)
  {
    var t := a + b + c;
    forall i, j | 0 <= i <= j < |t| ensures Rank(t[i]) <= Rank(t[j]) {
      if i < |a| {
        assert t[i] in a;
      } else if i < |a| + |b| {
        assert t[i] == b[i - |a|];
        if j < |a| + |b| {
          assert t[j] == b[j - |a|];
        }
      } else {
        assert t[i] == c[i - |a| - |b|] && t[j] == c[j - |a| - |b|];
      }
    }
  }

  /** Loader: the database schemas, then (with overwrite) the table
      schemas, then every data file once, in shuffled order, round-robin
      over the endpoints. A panic while replaying the table schemas ends
      the run before any data file is dispatched. */
  method Load(paths: seq<string>, read: string -> string, overwrite: bool, doris: bool,
              picks: seq<nat>, addrs: seq<string>, user: string, password: string,
              attempts: seq<seq<Attempt>>)
    returns (trace: seq<Action>, jobs: seq<Job>, end: LoadEnd)
    requires |picks| == |Of(paths, TableData)| && |attempts| == |Of(paths, TableData)|
    requires forall i | 0 <= i < |picks| :: picks[i] <= i
    requires |addrs| > 0
    ensures PhaseOrdered(trace)
    ensures var schemas := if overwrite then SchemaReplays(Of(paths, TableSchemaFile), read) else Replayed([], false);
      var head := Execs(DatabasePhase, ReadAll(Of(paths, DatabaseSchema), read)) + Execs(SchemaPhase, schemas.issued);
      && (schemas.panicked ==> trace == head && jobs == [] && end == Panicked)
      && (!schemas.panicked ==>
            && |jobs| == |Of(paths, TableData)|
            && multiset(JobPaths(jobs)) == multiset(Of(paths, TableData))
            && (forall k | 0 <= k < |jobs| :: jobs[k].addr == Endpoint(addrs, k))
            && trace == head + Combine(RunsOf(jobs, doris, read, user, password, attempts)).actions
            && end == Combine(RunsOf(jobs, doris, read, user, password, attempts)).end)
  {
    var files := LoadFiles(paths);
    var dbIssued := RestoreDatabaseSchema(files.databases, read);
    assert dbIssued == ReadAll(files.databases, read);
    var schemas := RestoreTableSchema(overwrite, files.schemas, read);
    var head := Execs(DatabasePhase, dbIssued) + Execs(SchemaPhase, schemas.issued);
    if schemas.panicked {
      StagesOrdered(Execs(DatabasePhase, dbIssued), Execs(SchemaPhase, schemas.issued), []);
      assert head + [] == head;
      return head, [], Panicked;
    }

    var run;
    jobs, run := LoadData(files.tables, picks, addrs, doris, read, user, password, attempts);
    DataStage(jobs, doris, read, user, password, attempts);
    StagesOrdered(Execs(DatabasePhase, dbIssued), Execs(SchemaPhase, schemas.issued), run.actions);
    trace, end := head + run.actions, run.end;
  }

  /** The data stage: shuffle the data files, dispatch them round-robin,
      and restore each. */
  method LoadData(tables: seq<string>, picks: seq<nat>, addrs: seq<string>, doris: bool,
                  read: string -> string, user: string, password: string, attempts: seq<seq<Attempt>>)
    returns (jobs: seq<Job>, run: Run)
    requires |picks| == |tables| && |attempts| == |tables|
    requires forall i | 0 <= i < |picks| :: picks[i] <= i
    requires |addrs| > 0
    ensures |jobs| == |tables| && multiset(JobPaths(jobs)) == multiset(tables)
    ensures forall k | 0 <= k < |jobs| :: jobs[k].addr == Endpoint(addrs, k)
    ensures run == Combine(RunsOf(jobs, doris, read, user, password, attempts))
  {
    var a := new string[|tables|](i requires 0 <= i < |tables| => tables[i]);
    assert a[..] == tables;
    Shuffle(a, picks);
    jobs := Dispatch(a[..], addrs);
    run := RunJobs(jobs, doris, read, user, password, attempts);
  }

  /** The dispatch loop: the k-th file goes to endpoint k modulo the
      number of endpoints. */
  method Dispatch(tables: seq<string>, addrs: seq<string>)
    returns (jobs: seq<Job>)
    requires |addrs| > 0
    ensures JobPaths(jobs) == tables
    ensures forall k | 0 <= k < |jobs| :: jobs[k].addr == Endpoint(addrs, k)
  {
    jobs := [];
    var idx := 0;
    for k := 0 to |tables|
      invariant idx == k && |jobs| == k
      invariant JobPaths(jobs) == tables[..k]
      invariant forall j | 0 <= j < k :: jobs[j].addr == Endpoint(addrs, j)
    {
      var addr := addrs[idx % |addrs|];
      idx := idx + 1;
      JobPathsAppend(jobs, Job(tables[k], addr));
      jobs := jobs + [Job(tables[k], addr)];
      assert tables[..k + 1] == tables[..k] + [tables[k]];
    }
    assert tables[..|tables|] == tables;
  }

  lemma JobPathsAppend(jobs: seq<Job>, job: Job)
    ensures JobPaths(jobs + [job]) == JobPaths(jobs) + [job.path]
  {
  }

  function JobPaths(jobs: seq<Job>): (ps: seq<string>)
    ensures |ps| == |jobs| && forall k | 0 <= k < |jobs| :: ps[k] == jobs[k].path
  {
    seq(|jobs|, k requires 0 <= k < |jobs| => jobs[k].path)
  }

  function ReadAll(paths: seq<string>, read: string -> string): (texts: seq<string>)
    ensures |texts| == |paths| && forall k | 0 <= k < |paths| :: texts[k] == read(paths[k])
  {
    seq(|paths|, k requires 0 <= k < |paths| => read(paths[k]))
  }

  lemma ReadAllAppend(paths: seq<string>, p: string, read: string -> string)
    ensures ReadAll(paths + [p], read) == ReadAll(paths, read) + [read(p)]
  {
  }
}
