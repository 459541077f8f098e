/**
 * The string primitives the dump/restore engine is built from, stated with
 * the meaning Go's `strings`, `strconv`, `fmt` and `path/filepath` packages
 * give them. A Go string is a sequence of bytes; here it is the sequence of
 * Unicode scalar values those bytes encode as UTF-8 (so only valid UTF-8 is
 * modelled), and Go's `len(s)` is `ByteLen(s)`.
 */
module Text {

  /** A value that may be absent (a Go panic or a missing key). */
  datatype Option<T> = None | Some(value: T)

  // ---------------------------------------------------------------- lengths

  /** Number of bytes the UTF-8 encoding of `c` takes. */
  function Utf8Width(c: char): (w: nat)
    ensures 1 <= w <= 4
    ensures (c as int < 0x80) <==> w == 1
  {
    if c as int < 0x80 then 1
    else if c as int < 0x800 then 2
    else if c as int < 0x10000 then 3
    else 4
  }

  /** Go's `len(s)`: the length in bytes of the UTF-8 encoding of `s`. */
  function ByteLen(s: string): (n: nat)
    ensures |s| <= n <= 4 * |s|
  {
    if s == [] then 0 else Utf8Width(s[0]) + ByteLen(s[1..])
  }

  lemma {:induction false} ByteLenAppend(a: string, b: string)
    ensures ByteLen(a + b) == ByteLen(a) + ByteLen(b)
  {
    if a == [] {
      assert a + b == b;
    } else {
      assert (a + b)[0] == a[0];
      assert (a + b)[1..] == a[1..] + b;
      ByteLenAppend(a[1..], b);
    }
  }

  /** Cutting the last character off removes exactly its width. */
  lemma ByteLenDropLast(s: string)
    requires s != []
    ensures ByteLen(s) == ByteLen(s[..|s| - 1]) + Utf8Width(s[|s| - 1])
  {
    var init, c := s[..|s| - 1], s[|s| - 1];
    assert s == init + [c];
    ByteLenAppend(init, [c]);
    ByteLenOne(c);
  }

  lemma ByteLenOne(c: char)
    ensures ByteLen([c]) == Utf8Width(c)
  {
    assert [c][1..] == [];
  }

  /** A prefix never takes more bytes than the whole string. */
  lemma ByteLenPrefix(s: string, k: nat)
    requires k <= |s|
    ensures ByteLen(s[..k]) <= ByteLen(s)
  {
    assert s == s[..k] + s[k..];
    ByteLenAppend(s[..k], s[k..]);
  }

  /** The byte length of a sum of strings. */
  function SumLen(parts: seq<string>): (n: nat)
  {
    if parts == [] then 0 else SumLen(parts[..|parts| - 1]) + ByteLen(parts[|parts| - 1])
  }

  lemma {:induction false} SumLenAppend(a: seq<string>, b: seq<string>)
    ensures SumLen(a + b) == SumLen(a) + SumLen(b)
    decreases |b|
  {
    if b == [] {
      assert a + b == a;
    } else {
      assert (a + b)[..|a + b| - 1] == a + b[..|b| - 1];
      SumLenAppend(a, b[..|b| - 1]);
    }
  }

  lemma SumLenSingleton(r: string)
    ensures SumLen([r]) == ByteLen(r)
  {
    assert [r][..0] == [];
  }

  // -------------------------------------------------------------- prefixes

  predicate HasPrefix(s: string, p: string)
  {
    |p| <= |s| && s[..|p|] == p
  }

  predicate HasSuffix(s: string, p: string)
  {
    |p| <= |s| && s[|s| - |p|..] == p
  }

  /** `strings.TrimSuffix`: drops `p` from the end of `s` when it is there. */
  function TrimSuffix(s: string, p: string): (r: string)
    ensures HasSuffix(s, p) ==> r + p == s
    ensures !HasSuffix(s, p) ==> r == s
  {
    if HasSuffix(s, p) then s[..|s| - |p|] else s
  }

  // ------------------------------------------------------------- searching

  predicate OccursAt(s: string, sub: string, i: nat)
  {
    i + |sub| <= |s| && s[i..i + |sub|] == sub
  }

  /** `sub` occurs nowhere in `s`. */
  predicate Free(s: string, sub: string)
  {
    forall i: nat | i <= |s| :: !OccursAt(s, sub, i)
  }

  /** A one-character string is free in `s` exactly when that character is
      not in `s`. */
  lemma FreeChar(s: string, c: char)
    ensures Free(s, [c]) <==> c !in s
  {
    if c in s {
      var k :| 0 <= k < |s| && s[k] == c;
      assert OccursAt(s, [c], k);
    } else {
      forall i: nat | i <= |s| ensures !OccursAt(s, [c], i) {
        if i + 1 <= |s| {
          assert s[i..i + 1] == [s[i]];
        }
      }
    }
  }

  function IndexFrom(s: string, sub: string, from: nat): (r: int)
    requires from <= |s|
    ensures r == -1 || (from <= r && OccursAt(s, sub, r))
    ensures forall i: nat :: from <= i && (r == -1 || i < r) ==> !OccursAt(s, sub, i)
    decreases |s| - from
  {
    if from + |sub| > |s| then -1
    else if s[from..from + |sub|] == sub then from
    else IndexFrom(s, sub, from + 1)
  }

  /** `strings.Index`: the first position where `sub` occurs in `s`, or -1. */
  function Index(s: string, sub: string): (r: int)
    ensures r == -1 <==> Free(s, sub)
    ensures r != -1 ==> 0 <= r && OccursAt(s, sub, r)
    ensures forall i: nat :: (r == -1 || i < r) ==> !OccursAt(s, sub, i)
  {
    IndexFrom(s, sub, 0)
  }

  // ---------------------------------------------------- join, split, replace

  /** `strings.Join`. */
  function Join(parts: seq<string>, sep: string): string
  {
    if |parts| == 0 then ""
    else if |parts| == 1 then parts[0]
    else parts[0] + sep + Join(parts[1..], sep)
  }

  lemma JoinAppend(parts: seq<string>, p: string, sep: string)
    requires parts != []
    ensures Join(parts + [p], sep) == Join(parts, sep) + sep + p
  {
    if |parts| > 1 {
      assert (parts + [p])[1..] == parts[1..] + [p];
      JoinAppend(parts[1..], p, sep);
    }
  }

  /** `strings.Split` for a non-empty separator: the pieces between
      successive leftmost non-overlapping occurrences of `sep`. */
  function Split(s: string, sep: string): (pieces: seq<string>)
    requires |sep| > 0
    ensures |pieces| >= 1
    decreases |s|
  {
    var i := Index(s, sep);
    if i < 0 then [s] else [s[..i]] + Split(s[i + |sep|..], sep)
  }

  /** Splitting and joining back with the same separator gives the input. */
  lemma {:induction false} JoinSplit(s: string, sep: string)
    requires |sep| > 0
    ensures Join(Split(s, sep), sep) == s
    decreases |s|
  {
    var i := Index(s, sep);
    if i >= 0 {
      var rest := s[i + |sep|..];
      var tail := Split(rest, sep);
      assert Split(s, sep) == [s[..i]] + tail;
      JoinSplit(rest, sep);
      JoinCons(s[..i], tail, sep);
      assert s == s[..i] + sep + rest;
    }
  }

  lemma JoinCons(head: string, tail: seq<string>, sep: string)
    requires tail != []
    ensures Join([head] + tail, sep) == head + sep + Join(tail, sep)
  {
    assert ([head] + tail)[1..] == tail;
  }

  /** No piece of a split contains the separator. */
  lemma {:induction false} SplitPiecesFree(s: string, sep: string)
    requires |sep| > 0
    ensures forall p | p in Split(s, sep) :: Free(p, sep)
    decreases |s|
  {
    var i := Index(s, sep);
    if i >= 0 {
      SplitPiecesFree(s[i + |sep|..], sep);
      forall j: nat | j <= i ensures !OccursAt(s[..i], sep, j) {
        if j + |sep| <= i {
          assert !OccursAt(s, sep, j);
          assert s[..i][j..j + |sep|] == s[j..j + |sep|];
        }
      }
    }
  }

  /** For a separator whose first character does not recur in it (such as
      `;\n` or a single character) and parts that do not contain it,
      splitting the joined text gives the parts back. */
  lemma {:induction false} SplitJoinSep(parts: seq<string>, sep: string)
    requires |parts| >= 1 && |sep| > 0
    requires forall k | 0 < k < |sep| :: sep[k] != sep[0]
    requires forall k | 0 <= k < |parts| :: Free(parts[k], sep)
    ensures Split(Join(parts, sep), sep) == parts
    decreases |parts|
  {
    var s := Join(parts, sep);
    if |parts| == 1 {
      assert s == parts[0];
    } else {
      var p, tail := parts[0], parts[1..];
      var rest := Join(tail, sep);
      assert s == p + sep + rest;
      IndexAfterFreePart(p, sep, rest);
      SplitCons(p, sep, rest);
      assert forall k | 0 <= k < |tail| :: tail[k] == parts[k + 1];
      SplitJoinSep(tail, sep);
      assert parts == [p] + tail;
    }
  }

  /** Split peels off the text before the first separator. */
  lemma SplitCons(p: string, sep: string, rest: string)
    requires |sep| > 0 && Index(p + sep + rest, sep) == |p|
    ensures Split(p + sep + rest, sep) == [p] + Split(rest, sep)
  {
    var s := p + sep + rest;
    assert s[..|p|] == p;
    assert s[|p| + |sep|..] == rest;
  }

  /** The first occurrence of such a separator after a part free of it is
      the one that directly follows the part. */
  lemma IndexAfterFreePart(p: string, sep: string, rest: string)
    requires |sep| > 0 && Free(p, sep)
    requires forall k | 0 < k < |sep| :: sep[k] != sep[0]
    ensures Index(p + sep + rest, sep) == |p|
  {
    var s, n := p + sep + rest, |p|;
    assert s[n..n + |sep|] == sep;
    assert OccursAt(s, sep, n);
    forall i: nat | i < n ensures !OccursAt(s, sep, i) {
      if i + |sep| <= n {
        assert s[i..i + |sep|] == p[i..i + |sep|];
        assert !OccursAt(p, sep, i);
      } else if i + |sep| <= |s| {
        assert s[n] == sep[0];
        assert s[i..i + |sep|][n - i] == s[n];
      }
    }
  }

  /** The one-character case, with membership in place of freedom. */
  lemma SplitJoin(parts: seq<string>, c: char)
    requires |parts| >= 1
    requires forall k | 0 <= k < |parts| :: c !in parts[k]
    ensures Split(Join(parts, [c]), [c]) == parts
  {
    forall k | 0 <= k < |parts| ensures Free(parts[k], [c]) {
      FreeChar(parts[k], c);
    }
    SplitJoinSep(parts, [c]);
  }

  /** `strings.ReplaceAll` for a non-empty pattern. */
  function ReplaceAll(s: string, pat: string, rep: string): (r: string)
    requires |pat| > 0
    ensures Free(s, pat) ==> r == s
    decreases |s|
  {
    var i := Index(s, pat);
    if i < 0 then s else s[..i] + rep + ReplaceAll(s[i + |pat|..], pat, rep)
  }

  /** Replacing by a text as long as the pattern keeps the length; by a
      shorter one never grows it, and shrinks it when the pattern occurs. */
  lemma {:induction false} ReplaceAllLength(s: string, pat: string, rep: string)
    requires |pat| > 0
    ensures |rep| == |pat| ==> |ReplaceAll(s, pat, rep)| == |s|
    ensures |rep| <= |pat| ==> |ReplaceAll(s, pat, rep)| <= |s|
    ensures |rep| < |pat| && !Free(s, pat) ==> |ReplaceAll(s, pat, rep)| < |s|
    decreases |s|
  {
    var i := Index(s, pat);
    if i >= 0 {
      ReplaceAllLength(s[i + |pat|..], pat, rep);
    }
  }

  /** No copy of `pat` is left when its first character occurs nowhere
      else in it, and the replacement starts with that character, has it
      nowhere else, is at least as long and does not contain `pat`. */
  lemma {:induction false} ReplaceAllFree(s: string, pat: string, rep: string)
    requires |pat| > 0 && pat[0] !in pat[1..]
    requires |rep| >= |pat| && rep[0] == pat[0] && pat[0] !in rep[1..] && Free(rep, pat)
    ensures Free(ReplaceAll(s, pat, rep), pat)
    decreases |s|
  {
    var i := Index(s, pat);
    if i >= 0 {
      var head, rest := s[..i], s[i + |pat|..];
      ReplaceAllFree(rest, pat, rep);
      FreeBeforeIndex(s, pat, i);
      ConcatFree(head, rep, ReplaceAll(rest, pat, rep), pat);
      assert Free(s[..i] + rep + ReplaceAll(s[i + |pat|..], pat, rep), pat);
    } else {
      assert Free(s, pat);
    }
  }

  /** The text before the first copy of `pat` holds none. */
  lemma FreeBeforeIndex(s: string, pat: string, i: nat)
    requires |pat| > 0 && Index(s, pat) == i
    ensures Free(s[..i], pat)
  {
    var head := s[..i];
    forall j: nat | j <= |head| ensures !OccursAt(head, pat, j) {
      if j + |pat| <= |head| {
        assert !OccursAt(s, pat, j);
        assert head[j..j + |pat|] == s[j..j + |pat|];
      }
    }
  }

  /** The joins of a replacement: no copy of `pat` straddles a seam. */
  lemma ConcatFree(h: string, r: string, t: string, pat: string)
    requires |pat| > 0 && pat[0] !in pat[1..]
    requires |r| >= |pat| && r[0] == pat[0] && pat[0] !in r[1..]
    requires Free(h, pat) && Free(r, pat) && Free(t, pat)
    ensures Free(h + r + t, pat)
  {
    var u := h + r + t;
    forall x: nat | x <= |u| ensures !OccursAt(u, pat, x) {
      if x + |pat| <= |u| {
        var w := u[x..x + |pat|];
        if x + |pat| <= |h| {
          assert w == h[x..x + |pat|];
          assert !OccursAt(h, pat, x);
        } else if x < |h| {
          var d := |h| - x;
          assert w[d] == r[0];
          assert pat[d] == pat[1..][d - 1];
          assert w[d] != pat[d];
        } else if x == |h| {
          assert w == r[..|pat|];
          assert !OccursAt(r, pat, 0);
        } else if x < |h| + |r| {
          assert w[0] == r[1..][x - |h| - 1];
          assert w[0] != pat[0];
        } else {
          var y := x - |h| - |r|;
          assert w == t[y..y + |pat|];
          assert !OccursAt(t, pat, y);
        }
      }
    }
  }

  /** Removing every copy of one character keeps the others in order. */
  function Without(s: string, c: char): (r: string)
  {
    if s == [] then [] else (if s[0] == c then [] else [s[0]]) + Without(s[1..], c)
  }

  lemma {:induction false} WithoutAppend(a: string, b: string, c: char)
    ensures Without(a + b, c) == Without(a, c) + Without(b, c)
  {
    if a == [] {
      assert a + b == b;
    } else {
      assert (a + b)[0] == a[0];
      assert (a + b)[1..] == a[1..] + b;
      WithoutAppend(a[1..], b, c);
    }
  }

  lemma {:induction false} WithoutAbsent(s: string, c: char)
    requires c !in s
    ensures Without(s, c) == s
  {
    if s != [] {
      assert s[0] in s;
      assert forall x | x in s[1..] :: x in s;
      WithoutAbsent(s[1..], c);
    }
  }

  /** No copy of `c` is left in `Without(s, c)`. */
  lemma {:induction false} WithoutRemoves(s: string, c: char)
    ensures c !in Without(s, c)
  {
    if s != [] {
      WithoutRemoves(s[1..], c);
    }
  }

  /** Replacing a one-character pattern by nothing deletes that character. */
  lemma {:induction false} ReplaceCharIsWithout(s: string, c: char)
    ensures ReplaceAll(s, [c], "") == Without(s, c)
    decreases |s|
  {
    var i := Index(s, [c]);
    FreeChar(s, c);
    if i < 0 {
      WithoutAbsent(s, c);
    } else {
      var head, rest := s[..i], s[i + 1..];
      ReplaceCharIsWithout(rest, c);
      HeadBeforeIndex(s, c);
      WithoutAbsent(head, c);
      assert s == head + [c] + rest;
      WithoutAppend(head + [c], rest, c);
      WithoutAppend(head, [c], c);
      assert Without([c], c) == [] + Without([], c);
    }
  }

  lemma HeadBeforeIndex(s: string, c: char)
    requires Index(s, [c]) >= 0
    ensures c !in s[..Index(s, [c])]
  {
    var i := Index(s, [c]);
    forall j | 0 <= j < i ensures s[..i][j] != c {
      assert !OccursAt(s, [c], j);
      assert s[j..j + 1] == [s[..i][j]];
    }
  }

  // --------------------------------------------------------------- numbers

  function DigitChar(d: nat): (c: char)
    requires d < 10
    ensures '0' <= c <= '9'
  {
    "0123456789"[d]
  }

  predicate IsDigits(s: string)
  {
    forall k | 0 <= k < |s| :: '0' <= s[k] <= '9'
  }

  /** `strconv.Itoa` for a non-negative number. */
  function NatToString(n: nat): (s: string)
    ensures |s| >= 1 && IsDigits(s)
  {
    if n < 10 then [DigitChar(n)] else NatToString(n / 10) + [DigitChar(n % 10)]
  }

  /** Value of a string of decimal digits. */
  function DigitsValue(s: string): (n: nat)
    requires IsDigits(s)
  {
    if s == [] then 0 else 10 * DigitsValue(s[..|s| - 1]) + (s[|s| - 1] as int - '0' as int)
  }

  lemma {:induction false} NatToStringValue(n: nat)
    ensures DigitsValue(NatToString(n)) == n
  {
    if n >= 10 {
      NatToStringValue(n / 10);
      var s := NatToString(n);
      assert s[..|s| - 1] == NatToString(n / 10);
    }
  }

  function Zeros(k: nat): (s: string)
    ensures |s| == k && forall i | 0 <= i < k :: s[i] == '0'
  {
    if k == 0 then "" else Zeros(k - 1) + "0"
  }

  /** `fmt.Sprintf("%05d", n)`: at least five digits, zero-padded on the left. */
  function Pad5(n: nat): (s: string)
  {
    var d := NatToString(n);
    if |d| < 5 then Zeros(5 - |d|) + d else d
  }

  lemma {:induction false} DigitsValueLeadingZeros(k: nat, d: string)
    requires IsDigits(d)
    ensures IsDigits(Zeros(k) + d) && DigitsValue(Zeros(k) + d) == DigitsValue(d)
    decreases |d|, k
  {
    if d == [] {
      if k > 0 {
        assert Zeros(k) + d == Zeros(k - 1) + "0";
        DigitsValueLeadingZeros(k - 1, d);
        assert Zeros(k - 1) + d == Zeros(k - 1);
      }
    } else {
      var z := Zeros(k) + d;
      assert z[..|z| - 1] == Zeros(k) + d[..|d| - 1];
      DigitsValueLeadingZeros(k, d[..|d| - 1]);
    }
  }

  /** A part number printed with `%05d` is at least five digits and reads back
      as the same number. */
  lemma Pad5Value(n: nat)
    ensures |Pad5(n)| >= 5 && IsDigits(Pad5(n)) && DigitsValue(Pad5(n)) == n
  {
    var d := NatToString(n);
    NatToStringValue(n);
    if |d| < 5 {
      DigitsValueLeadingZeros(5 - |d|, d);
    }
  }

  // ----------------------------------------------------------------- paths

  function StripTrailingSlashes(p: string): (r: string)
    ensures r <= p
    ensures r == [] || r[|r| - 1] != '/'
  {
    if p != [] && p[|p| - 1] == '/' then StripTrailingSlashes(p[..|p| - 1]) else p
  }

  /** The part of `p` after its last `/` (all of `p` when it has none). */
  function AfterLastSlash(p: string): (r: string)
    ensures '/' !in r
    ensures HasSuffix(p, r)
    ensures r == p || (|r| < |p| && p[|p| - |r| - 1] == '/')
  {
    if p == [] then p
    else if p[|p| - 1] == '/' then []
    else AfterLastSlash(p[..|p| - 1]) + [p[|p| - 1]]
  }

  /** `filepath.Base` on a slash-separated path. */
  function Base(path: string): (r: string)
    ensures r != []
  {
    if path == [] then "."
    else
      var t := AfterLastSlash(StripTrailingSlashes(path));
      if t == [] then "/" else t
  }

  /** The base name of `dir + "/" + name` is `name` when `name` is a plain
      non-empty file name. */
  lemma BaseOfJoin(dir: string, name: string)
    requires name != [] && '/' !in name
    ensures Base(dir + "/" + name) == name
  {
    var p := dir + "/" + name;
    assert p[|p| - 1] == name[|name| - 1];
    assert StripTrailingSlashes(p) == p;
    AfterLastSlashOfJoin(dir + "/", name);
  }

  lemma {:induction false} AfterLastSlashOfJoin(dir: string, name: string)
    requires dir != [] && dir[|dir| - 1] == '/' && '/' !in name
    ensures AfterLastSlash(dir + name) == name
    decreases |name|
  {
    if name == [] {
      assert dir + name == dir;
    } else {
      var p := dir + name;
      assert p[..|p| - 1] == dir + name[..|name| - 1];
      assert name[|name| - 1] in name;
      AfterLastSlashOfJoin(dir, name[..|name| - 1]);
    }
  }
}
