/**
 * The column projection and the SELECT statement shared by dumpTable and
 * dumpDorisTable (common/dumper.go): filtered columns are dropped, the
 * others are quoted, and a configured replacement expression is selected
 * under the column's own name.
 */
module DumpQuery {
  import opened Text

  /** Per table, the columns to leave out (only the keys matter). */
  type Filters = map<string, map<string, string>>
  /** Per table, a replacement expression per column. */
  type Selects = map<string, map<string, string>>

  /** The back-quoted identifier. */
  function Quote(name: string): (q: string)
    ensures |q| == |name| + 2 && q[0] == '`' && q[|q| - 1] == '`'
    ensures q[1..|q| - 1] == name
  {
    "`" + name + "`"
  }

  /** A lookup in a missing table's map finds nothing. */
  predicate Filtered(filters: Filters, table: string, col: string)
  {
    table in filters && col in filters[table]
  }

  /** The columns that survive the filter, in cursor order. */
  function Kept(cols: seq<string>, filters: Filters, table: string): seq<string>
  {
    if cols == [] then []
    else
      var init, c := cols[..|cols| - 1], cols[|cols| - 1];
      Kept(init, filters, table) + (if Filtered(filters, table, c) then [] else [c])
  }

  /** A column is kept if and only if it is a column of the table that the
      filter does not name; the kept list is never longer than the input. */
  lemma {:induction false} KeptMembers(cols: seq<string>, filters: Filters, table: string)
    ensures |Kept(cols, filters, table)| <= |cols|
    ensures forall c :: c in Kept(cols, filters, table) <==> c in cols && !Filtered(filters, table, c)
    decreases |cols|
  {
    if cols != [] {
      var init, c := cols[..|cols| - 1], cols[|cols| - 1];
      KeptMembers(init, filters, table);
      assert cols == init + [c];
    }
  }

  /** Without a filter for the table every column is kept, in order. */
  lemma {:induction false} KeptUnfiltered(cols: seq<string>, filters: Filters, table: string)
    requires table !in filters
    ensures Kept(cols, filters, table) == cols
    decreases |cols|
  {
    if cols != [] {
      KeptUnfiltered(cols[..|cols| - 1], filters, table);
      assert cols == cols[..|cols| - 1] + [cols[|cols| - 1]];
    }
  }

  /** The select-list item of a kept column. */
  function ExtField(selects: Selects, table: string, col: string): (e: string)
    ensures HasSuffix(e, Quote(col))
    ensures (e == Quote(col)) <==> !(table in selects && col in selects[table])
  {
    if table in selects && col in selects[table]
    then selects[table][col] + " AS " + Quote(col)
    else Quote(col)
  }

  function Fields(kept: seq<string>): (fs: seq<string>)
    ensures |fs| == |kept| && forall i | 0 <= i < |kept| :: fs[i] == Quote(kept[i])
  {
    seq(|kept|, i requires 0 <= i < |kept| => Quote(kept[i]))
  }

  function ExtFields(selects: Selects, table: string, kept: seq<string>): (es: seq<string>)
    ensures |es| == |kept|
    ensures forall i | 0 <= i < |kept| :: es[i] == ExtField(selects, table, kept[i])
  {
    seq(|kept|, i requires 0 <= i < |kept| => ExtField(selects, table, kept[i]))
  }

  /** The loop over the probe cursor's fields: `fields` is the quoted kept
      columns, `ext` their select-list items, pairwise aligned. */
  method BuildProjection(cols: seq<string>, table: string, filters: Filters, selects: Selects)
    returns (fields: seq<string>, ext: seq<string>)
    ensures fields == Fields(Kept(cols, filters, table))
    ensures ext == ExtFields(selects, table, Kept(cols, filters, table))
  {
    fields, ext := [], [];
    for k := 0 to |cols|
      invariant fields == Fields(Kept(cols[..k], filters, table))
      invariant ext == ExtFields(selects, table, Kept(cols[..k], filters, table))
    {
      var c := cols[k];
      KeptPrefix(cols, k, filters, table);
      if Filtered(filters, table, c) {
        continue;
      }
      ProjectionAppend(Kept(cols[..k], filters, table), c, selects, table);
      fields := fields + [Quote(c)];
      ext := ext + [ExtField(selects, table, c)];
    }
    assert cols[..|cols|] == cols;
  }

  lemma KeptPrefix(cols: seq<string>, k: nat, filters: Filters, table: string)
    requires k < |cols|
    ensures Kept(cols[..k + 1], filters, table)
         == Kept(cols[..k], filters, table) + (if Filtered(filters, table, cols[k]) then [] else [cols[k]])
  {
    assert cols[..k + 1][..k] == cols[..k];
  }

  lemma ProjectionAppend(kept: seq<string>, c: string, selects: Selects, table: string)
    ensures Fields(kept + [c]) == Fields(kept) + [Quote(c)]
    ensures ExtFields(selects, table, kept + [c]) == ExtFields(selects, table, kept) + [ExtField(selects, table, c)]
  {
  }

  /** Every select-list item selects into the column at the same position
      of the header, and only a configured replacement differs from it. */
  lemma ProjectionAligned(cols: seq<string>, table: string, filters: Filters, selects: Selects)
    ensures var kept := Kept(cols, filters, table);
      var fs, es := Fields(kept), ExtFields(selects, table, kept);
      |fs| == |es| &&
      forall i | 0 <= i < |fs| ::
        HasSuffix(es[i], fs[i]) &&
        (es[i] != fs[i] <==> table in selects && kept[i] in selects[table])
  {
  }

  /** `" WHERE <cond>"` when the table has a condition, else empty. */
  function WhereClause(wheres: map<string, string>, table: string): string
  {
    if table in wheres then " WHERE " + wheres[table] else ""
  }

  /** The data query; a space always precedes the (possibly empty) WHERE. */
  function SelectQuery(db: string, table: string, ext: seq<string>, wheres: map<string, string>): string
  {
    "SELECT " + Join(ext, ", ") + " FROM " + Quote(db) + "." + Quote(table) + " " + WhereClause(wheres, table)
  }

  /** The data query reads every projected item from the named table and
      ends with the table's condition exactly when one is configured. */
  lemma SelectQueryShape(db: string, table: string, ext: seq<string>, wheres: map<string, string>)
    ensures var q := SelectQuery(db, table, ext, wheres);
      && HasPrefix(q, "SELECT " + Join(ext, ", ") + " FROM ")
      && (table in wheres ==> HasSuffix(q, Quote(table) + "  WHERE " + wheres[table]))
      && (table !in wheres ==> HasSuffix(q, Quote(table) + " "))
  {
    var head := "SELECT " + Join(ext, ", ") + " FROM ";
    var w := WhereClause(wheres, table);
    var tail := Quote(table) + " " + w;
    assert SelectQuery(db, table, ext, wheres) == head + (Quote(db) + "." + tail);
    PrefixOfConcat(head, Quote(db) + "." + tail);
    SuffixOfConcat(head + Quote(db) + ".", tail);
    if table in wheres {
      assert tail == Quote(table) + "  WHERE " + wheres[table];
    }
  }

  lemma PrefixOfConcat(a: string, b: string)
    ensures HasPrefix(a + b, a)
  {
    assert (a + b)[..|a|] == a;
  }

  lemma SuffixOfConcat(a: string, b: string)
    ensures HasSuffix(a + b, b)
  {
    assert (a + b)[|a|..] == b;
  }
}
