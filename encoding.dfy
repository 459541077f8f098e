/**
 * How one column value of a dumped row becomes text (common/dumper.go).
 *
 * The driver's value introspection (`IsSigned`, `IsUnsigned`, `IsFloat`,
 * `IsIntegral`, `IsTemporal`, the DECIMAL type tag) is recorded per value as
 * a `Kind`, which the driver is free to fill in any way; `EscapeBytes` is a
 * parameter `esc`, an arbitrary function on texts.
 */
module DumpEncoding {
  import opened Text

  /** What the driver reports about the type of one value. */
  datatype Kind = Kind(
    signed: bool,
    unsigned: bool,
    float: bool,
    integral: bool,
    decimal: bool,
    temporal: bool)

  /** The raw bytes of a value, or nil for SQL NULL. */
  datatype Raw = Null | Bytes(text: string)

  datatype Value = Value(kind: Kind, raw: Raw)

  type Row = seq<Value>

  /** Values written without quotes in SQL-insert mode. */
  predicate IsNumeric(k: Kind)
  {
    k.signed || k.unsigned || k.float || k.integral || k.decimal
  }

  // ------------------------------------------------------- SQL-insert mode

  function SqlValue(v: Value, esc: string -> string): (t: string)
  {
    match v.raw
    case Null => "NULL"
    case Bytes(raw) => if IsNumeric(v.kind) then raw else "\"" + esc(raw) + "\""
  }

  /** All values of a row, in column order, comma-joined in parentheses. */
  function SqlRow(row: Row, esc: string -> string): (r: string)
  {
    "(" + Join(SqlValues(row, esc), ",") + ")"
  }

  function SqlValues(row: Row, esc: string -> string): (ts: seq<string>)
    ensures |ts| == |row| && forall k | 0 <= k < |row| :: ts[k] == SqlValue(row[k], esc)
  {
    seq(|row|, k requires 0 <= k < |row| => SqlValue(row[k], esc))
  }

  /** The inner loop of dumpTable: encodes the values one by one. */
  method EncodeSqlRow(row: Row, esc: string -> string) returns (r: string)
    ensures r == SqlRow(row, esc)
  {
    var values: seq<string> := [];
    for k := 0 to |row|
      invariant values == SqlValues(row[..k], esc)
    {
      var v := row[k];
      var t;
      match v.raw {
        case Null => t := "NULL";
        case Bytes(raw) =>
          if IsNumeric(v.kind) {
            t := raw;
          } else {
            t := "\"" + esc(raw) + "\"";
          }
      }
      assert row[..k + 1] == row[..k] + [v];
      values := values + [t];
    }
    assert row[..|row|] == row;
    r := "(" + Join(values, ",") + ")";
  }

  /** Reads one SQL-mode value back: `NULL`, a quoted escaped text, or an
      unquoted literal. `unesc` stands for the inverse of the escaping. */
  function ParseSqlValue(t: string, unesc: string -> string): (raw: Raw)
  {
    if t == "NULL" then Null
    else if |t| >= 2 && t[0] == '"' && t[|t| - 1] == '"' then Bytes(unesc(t[1..|t| - 1]))
    else Bytes(t)
  }

  /** SQL-mode value encoding loses nothing: when `unesc` undoes `esc`, and a
      numeric value's raw text is neither the word NULL nor quoted (as no
      number is), reading the text back gives the raw value. */
  lemma SqlValueRoundTrip(v: Value, esc: string -> string, unesc: string -> string)
    requires forall x :: unesc(esc(x)) == x
    requires v.raw.Bytes? && IsNumeric(v.kind) ==>
               v.raw.text != "NULL" && (v.raw.text == [] || v.raw.text[0] != '"')
    ensures ParseSqlValue(SqlValue(v, esc), unesc) == v.raw
  {
    match v.raw
    case Null =>
    case Bytes(raw) =>
      if !IsNumeric(v.kind) {
        var t := "\"" + esc(raw) + "\"";
        assert t != "NULL" by { assert t[0] == '"'; }
        assert t[1..|t| - 1] == esc(raw);
      }
  }

  /** Every SQL-mode row is parenthesised, so it takes at least two bytes. */
  lemma SqlRowShape(row: Row, esc: string -> string)
    ensures HasPrefix(SqlRow(row, esc), "(") && HasSuffix(SqlRow(row, esc), ")")
    ensures ByteLen(SqlRow(row, esc)) >= 2
  {
    var r := SqlRow(row, esc);
    assert r[0] == '(' && r[|r| - 1] == ')';
    assert r[..1] == "(" && r[|r| - 1..] == ")";
  }

  /** The row the dumper test expects in the first part file, written as
      its six value texts joined by commas inside parentheses. */
  lemma SqlRowExample(esc: string -> string)
    requires esc("11\"xx\"") == "11\\\"xx\\\"" && esc("") == ""
    ensures SqlRow([
      Value(Kind(true, false, false, true, false, false), Bytes("11")),
      Value(Kind(false, false, false, false, false, false), Bytes("11\"xx\"")),
      Value(Kind(false, false, false, false, false, false), Bytes("")),
      Value(Kind(false, false, false, false, false, false), Null),
      Value(Kind(false, false, false, false, true, false), Bytes("210.01")),
      Value(Kind(false, false, false, false, false, false), Null)], esc)
      == "(" + ("11" + "," + "\"11\\\"xx\\\"\"" + "," + "\"\"" + "," + "NULL" + "," + "210.01" + "," + "NULL") + ")"
  {
    var row := [
      Value(Kind(true, false, false, true, false, false), Bytes("11")),
      Value(Kind(false, false, false, false, false, false), Bytes("11\"xx\"")),
      Value(Kind(false, false, false, false, false, false), Bytes("")),
      Value(Kind(false, false, false, false, false, false), Null),
      Value(Kind(false, false, false, false, true, false), Bytes("210.01")),
      Value(Kind(false, false, false, false, false, false), Null)];
    var vs := SqlValues(row, esc);
    var a, b, c, d, e, f := "11", "\"11\\\"xx\\\"\"", "\"\"", "NULL", "210.01", "NULL";
    assert vs[0] == a && vs[1] == b && vs[2] == c;
    assert vs[3] == d && vs[4] == e && vs[5] == f;
    assert vs == [a, b, c, d, e, f];
    JoinSix(a, b, c, d, e, f, ",");
  }

  lemma JoinSix(a: string, b: string, c: string, d: string, e: string, f: string, sep: string)
    ensures Join([a, b, c, d, e, f], sep) == a + sep + b + sep + c + sep + d + sep + e + sep + f
  {
    assert Join([e, f], sep) == e + sep + f by {
      assert [e, f][1..] == [f];
    }
    assert Join([d, e, f], sep) == d + sep + Join([e, f], sep) by {
      assert [d, e, f][1..] == [e, f];
    }
    assert Join([c, d, e, f], sep) == c + sep + Join([d, e, f], sep) by {
      assert [c, d, e, f][1..] == [d, e, f];
    }
    assert Join([b, c, d, e, f], sep) == b + sep + Join([c, d, e, f], sep) by {
      assert [b, c, d, e, f][1..] == [c, d, e, f];
    }
    assert Join([a, b, c, d, e, f], sep) == a + sep + Join([b, c, d, e, f], sep) by {
      assert [a, b, c, d, e, f][1..] == [b, c, d, e, f];
    }
  }

  // -------------------------------------------------------- Doris CSV mode

  /** Doris column limit; the truncation counts in runes, then in bytes. */
  const DorisLimit := 512

  /** Drops characters from the end until the text fits in 512 bytes. */
  function FitBytes(t: string): (r: string)
    ensures r <= t && ByteLen(r) <= DorisLimit
    ensures r == t || ByteLen(t[..|r| + 1]) > DorisLimit
    decreases |t|
  {
    if ByteLen(t) <= DorisLimit then t
    else
      var r := FitBytes(t[..|t| - 1]);
      assert r == t[..|t| - 1] ==> t[..|r| + 1] == t;
      assert r != t[..|t| - 1] ==> t[..|t| - 1][..|r| + 1] == t[..|r| + 1];
      r
  }

  /** The Doris truncation: a text of more than 512 characters is cut to its
      first 512 characters, then shortened one character at a time while its
      UTF-8 form exceeds 512 bytes; a shorter text is left as it is. */
  function Truncated(s: string): (r: string)
  {
    if |s| > DorisLimit then FitBytes(s[..DorisLimit]) else s
  }

  /** What the truncation guarantees. A long text becomes the longest prefix
      of its first 512 characters that fits in 512 bytes, which keeps at
      least 128 characters; a text of at most 512 characters is unchanged. */
  lemma TruncatedSpec(s: string)
    ensures |s| <= DorisLimit ==> Truncated(s) == s
    ensures |s| > DorisLimit ==>
      var r := Truncated(s);
      && r <= s
      && ByteLen(r) <= DorisLimit
      && 128 <= |r| <= DorisLimit
      && (|r| == DorisLimit || ByteLen(s[..|r| + 1]) > DorisLimit)
  {
    if |s| > DorisLimit {
      var t := s[..DorisLimit];
      var r := FitBytes(t);
      if r != t {
        assert t[..|r| + 1] == s[..|r| + 1];
        assert ByteLen(s[..|r| + 1]) <= 4 * (|r| + 1);
      }
    }
  }

  /** The truncation bounds bytes only for long texts: 200 three-byte
      characters (600 bytes) pass through untouched. */
  lemma TruncatedShortTextKeepsBytes()
    ensures var s := seq(200, _ => '中');
            Truncated(s) == s && ByteLen(Truncated(s)) == 600
  {
    var s := seq(200, _ => '中');
    ByteLenConst(200, '中');
  }

  lemma {:induction false} ByteLenConst(n: nat, c: char)
    ensures ByteLen(seq(n, _ => c)) == n * Utf8Width(c)
  {
    if n > 0 {
      var s := seq(n, _ => c);
      assert s[1..] == seq(n - 1, _ => c);
      ByteLenConst(n - 1, c);
    }
  }

  /** The loop of dumpDorisTable over the rune slice, proved to compute
      `Truncated`. */
  method TruncateRunes(val: string) returns (r: string)
    ensures r == Truncated(val)
  {
    r := val;
    if |r| > DorisLimit {
      r := r[..DorisLimit];
      while ByteLen(r) > DorisLimit
        invariant FitBytes(r) == Truncated(val)
        decreases |r|
      {
        r := r[..|r| - 1];
      }
    }
  }

  /** Escaped text with the field and record delimiters removed. */
  function Cleaned(raw: string, esc: string -> string): (c: string)
  {
    ReplaceAll(ReplaceAll(esc(raw), "\t", ""), "\n", "")
  }

  lemma CleanedHasNoDelimiters(raw: string, esc: string -> string)
    ensures '\t' !in Cleaned(raw, esc) && '\n' !in Cleaned(raw, esc)
    ensures Cleaned(raw, esc) == Without(Without(esc(raw), '\t'), '\n')
  {
    var a := ReplaceAll(esc(raw), "\t", "");
    ReplaceCharIsWithout(esc(raw), '\t');
    WithoutRemoves(esc(raw), '\t');
    ReplaceCharIsWithout(a, '\n');
    WithoutRemoves(a, '\n');
    WithoutKeepsAbsent(a, '\n', '\t');
  }

  lemma {:induction false} WithoutKeepsAbsent(s: string, c: char, d: char)
    requires d !in s
    ensures d !in Without(s, c)
  {
    if s != [] {
      assert s[0] in s;
      assert forall x | x in s[1..] :: x in s;
      WithoutKeepsAbsent(s[1..], c, d);
    }
  }

  /** Values written as they are in Doris mode. */
  predicate IsDorisVerbatim(k: Kind)
  {
    IsNumeric(k) || k.temporal
  }

  function DorisValue(v: Value, esc: string -> string): (t: string)
  {
    match v.raw
    case Null => "\\N"
    case Bytes(raw) => if IsDorisVerbatim(v.kind) then raw else Truncated(Cleaned(raw, esc))
  }

  /** All values of a row, tab-separated. */
  function DorisRow(row: Row, esc: string -> string): (r: string)
  {
    Join(DorisValues(row, esc), "\t")
  }

  function DorisValues(row: Row, esc: string -> string): (ts: seq<string>)
    ensures |ts| == |row| && forall k | 0 <= k < |row| :: ts[k] == DorisValue(row[k], esc)
  {
    seq(|row|, k requires 0 <= k < |row| => DorisValue(row[k], esc))
  }

  /** The inner loop of dumpDorisTable. */
  method EncodeDorisRow(row: Row, esc: string -> string) returns (r: string)
    ensures r == DorisRow(row, esc)
  {
    var values: seq<string> := [];
    for k := 0 to |row|
      invariant values == DorisValues(row[..k], esc)
    {
      var v := row[k];
      var t;
      match v.raw {
        case Null => t := "\\N";
        case Bytes(raw) =>
          if IsDorisVerbatim(v.kind) {
            t := raw;
          } else {
            var val := ReplaceAll(ReplaceAll(esc(raw), "\t", ""), "\n", "");
            t := TruncateRunes(val);
          }
      }
      assert row[..k + 1] == row[..k] + [v];
      values := values + [t];
    }
    assert row[..|row|] == row;
    r := Join(values, "\t");
  }

  /** Encoded text values never contain a tab or a newline. */
  lemma DorisTextHasNoDelimiters(v: Value, esc: string -> string)
    requires v.raw.Bytes? && !IsDorisVerbatim(v.kind)
    ensures '\t' !in DorisValue(v, esc) && '\n' !in DorisValue(v, esc)
  {
    var c := Cleaned(v.raw.text, esc);
    CleanedHasNoDelimiters(v.raw.text, esc);
    var r := Truncated(c);
    assert r <= c by {
      if |c| > DorisLimit {
        TruncatedSpec(c);
      }
    }
    assert forall x | x in r :: x in c;
  }

  /** Splitting a Doris row on tabs gives back its fields, one per column,
      provided the values written verbatim hold no tab (no number or date
      does). */
  lemma DorisRowSplits(row: Row, esc: string -> string)
    requires |row| >= 1
    requires forall k | 0 <= k < |row| ::
               row[k].raw.Bytes? && IsDorisVerbatim(row[k].kind) ==> '\t' !in row[k].raw.text
    ensures Split(DorisRow(row, esc), "\t") == DorisValues(row, esc)
  {
    var ts := DorisValues(row, esc);
    forall k | 0 <= k < |ts| ensures '\t' !in ts[k] {
      match row[k].raw
      case Null =>
      case Bytes(raw) =>
        if !IsDorisVerbatim(row[k].kind) {
          DorisTextHasNoDelimiters(row[k], esc);
        }
    }
    SplitJoin(ts, '\t');
  }
}
