/** The Kotlin standard-library string operations the app relies on, as pure
    functions over `string` (a `seq<char>` of Unicode scalar values). */
module Text {

  /** Kotlin's `Char.isWhitespace()`: Java's `Character.isWhitespace` or
      `Character.isSpaceChar`. The set is finite and is written out in full. */
  predicate IsWhitespace(c: char) {
    || c == '\t' || c == '\n' || c == '\U{000B}' || c == '\U{000C}' || c == '\r'
    || ('\U{001C}' <= c <= '\U{001F}')
    || c == ' ' || c == '\U{00A0}' || c == '\U{1680}'
    || ('\U{2000}' <= c <= '\U{200A}')
    || c == '\U{2028}' || c == '\U{2029}' || c == '\U{202F}' || c == '\U{205F}' || c == '\U{3000}'
  }

  /** Kotlin's `isBlank()`: empty or whitespace only. */
  predicate IsBlank(s: string) {
    forall i :: 0 <= i < |s| ==> IsWhitespace(s[i])
  }

  /** Drops the leading whitespace: what is left is a suffix of `s`. */
  function TrimStart(s: string): (r: string)
    ensures |r| <= |s| && r == s[|s| - |r|..]
    ensures forall k :: 0 <= k < |s| - |r| ==> IsWhitespace(s[k])
    ensures r != [] ==> !IsWhitespace(r[0])
    decreases |s|
  {
    if |s| > 0 && IsWhitespace(s[0]) then TrimStart(s[1..]) else s
  }

  /** Drops the trailing whitespace: what is left is a prefix of `s`. */
  function TrimEnd(s: string): (r: string)
    ensures |r| <= |s| && r == s[..|r|]
    ensures forall k :: |r| <= k < |s| ==> IsWhitespace(s[k])
    ensures r != [] ==> !IsWhitespace(r[|r| - 1])
    decreases |s|
  {
    if |s| > 0 && IsWhitespace(s[|s| - 1]) then TrimEnd(s[..|s| - 1]) else s
  }

  /** Kotlin's `trim()`. The result is empty exactly when `s` is blank, never
      begins or ends with whitespace, and is `s` itself when `s` already has
      non-whitespace ends. */
  function Trim(s: string): (r: string)
    ensures |r| <= |s|
    ensures exists i :: TrimmedAt(s, r, i)
    ensures r != [] ==> !IsWhitespace(r[0]) && !IsWhitespace(r[|r| - 1])
    ensures r == [] <==> IsBlank(s)
    ensures (s == [] || (!IsWhitespace(s[0]) && !IsWhitespace(s[|s| - 1]))) ==> r == s
  {
    var t := TrimStart(s);
    var r := TrimEnd(t);
    TrimmedAtParts(s, t, r);
    r
  }

  /** Leading whitespace cut off `s` leaves `t`; trailing whitespace cut off
      `t` leaves `r`. */
  lemma TrimmedAtParts(s: string, t: string, r: string)
    requires |t| <= |s| && t == s[|s| - |t|..]
    requires forall k :: 0 <= k < |s| - |t| ==> IsWhitespace(s[k])
    requires |r| <= |t| && r == t[..|r|]
    requires forall k :: |r| <= k < |t| ==> IsWhitespace(t[k])
    ensures TrimmedAt(s, r, |s| - |t|)
  {
    var i := |s| - |t|;
    assert r == s[i..i + |r|];
    forall k | i + |r| <= k < |s| ensures IsWhitespace(s[k]) {
      assert s[k] == t[k - i];
    }
  }

  /** `r` is the part of `s` starting at `i`, with only whitespace before and
      after it. */
  predicate TrimmedAt(s: string, r: string, i: int) {
    && 0 <= i <= |s| - |r| && r == s[i..i + |r|]
    && (forall k :: 0 <= k < i ==> IsWhitespace(s[k]))
    && (forall k :: i + |r| <= k < |s| ==> IsWhitespace(s[k]))
  }

  /** Kotlin's `startsWith` / `endsWith` for string arguments. */
  predicate StartsWith(s: string, prefix: string) {
    |prefix| <= |s| && s[..|prefix|] == prefix
  }

  predicate EndsWith(s: string, suffix: string) {
    |suffix| <= |s| && s[|s| - |suffix|..] == suffix
  }

  /** Kotlin's `removeSurrounding(delimiter)`: strips one copy of `d` from each
      end, but only when both are present and do not overlap. */
  function RemoveSurrounding(s: string, d: string): (r: string)
    ensures |r| == |s| || |r| == |s| - 2 * |d|
    ensures |s| >= 2 * |d| && StartsWith(s, d) && EndsWith(s, d) ==> s == d + r + d
    ensures !(|s| >= 2 * |d| && StartsWith(s, d) && EndsWith(s, d)) ==> r == s
  {
    if |s| >= 2 * |d| && StartsWith(s, d) && EndsWith(s, d) then
      var r := s[|d|..|s| - |d|];
      assert s == s[..|d|] + r + s[|s| - |d|..];
      r
    else s
  }

  /** Kotlin's `split(d)` with a single-character delimiter: one piece more than
      there are delimiters, none of the pieces containing the delimiter. */
  function Split(s: string, d: char): (r: seq<string>)
    ensures |r| == multiset(s)[d] + 1
    ensures forall k :: 0 <= k < |r| ==> d !in r[k]
    decreases |s|
  {
    if |s| == 0 then [""]
    else
      var rest := Split(s[1..], d);
      assert s == [s[0]] + s[1..];
      if s[0] == d then [""] + rest
      else [[s[0]] + rest[0]] + rest[1..]
  }

  /** Kotlin's `joinToString(sep)`. */
  function Join(parts: seq<string>, sep: string): string
    decreases |parts|
  {
    if |parts| == 0 then ""
    else if |parts| == 1 then parts[0]
    else parts[0] + sep + Join(parts[1..], sep)
  }

  lemma {:induction false} SplitOfDelimiterFree(a: string, d: char)
    requires d !in a
    ensures Split(a, d) == [a]
    decreases |a|
  {
    if |a| > 0 {
      SplitOfDelimiterFree(a[1..], d);
      assert [a[0]] + a[1..] == a;
    }
  }

  lemma {:induction false} SplitOfConcat(a: string, d: char, b: string)
    requires d !in a
    ensures Split(a + [d] + b, d) == [a] + Split(b, d)
    decreases |a|
  {
    var s := a + [d] + b;
    if |a| == 0 {
      assert s[1..] == b;
    } else {
      assert s[1..] == a[1..] + [d] + b;
      SplitOfConcat(a[1..], d, b);
      assert [a[0]] + a[1..] == a;
    }
  }

  /** Joining undoes splitting: a line is its pieces put back together with
      the delimiter between them. */
  lemma {:induction false} JoinSplit(s: string, d: char)
    ensures Join(Split(s, d), [d]) == s
    decreases |s|
  {
    if |s| > 0 {
      var rest := Split(s[1..], d);
      JoinSplit(s[1..], d);
      var ps := Split(s, d);
      assert ps == if s[0] == d then [""] + rest else [[s[0]] + rest[0]] + rest[1..];
      JoinOneMore(s[0], s[1..], rest, ps, d);
      assert [s[0]] + s[1..] == s;
    }
  }

  /** The step of `JoinSplit`: one more leading character either starts a new
      empty piece (the delimiter) or grows the first piece. */
  lemma JoinOneMore(c: char, t: string, rest: seq<string>, ps: seq<string>, d: char)
    requires |rest| > 0 && Join(rest, [d]) == t
    requires ps == if c == d then [""] + rest else [[c] + rest[0]] + rest[1..]
    ensures Join(ps, [d]) == [c] + t
  {
    if c == d {
      assert ps[1..] == rest;
    } else if |rest| > 1 {
      assert ps[1..] == rest[1..];
    }
  }

  /** Splitting undoes joining, as long as no piece contains the delimiter. */
  lemma {:induction false} SplitJoin(parts: seq<string>, d: char)
    requires |parts| > 0
    requires forall k :: 0 <= k < |parts| ==> d !in parts[k]
    ensures Split(Join(parts, [d]), d) == parts
    decreases |parts|
  {
    if |parts| == 1 {
      SplitOfDelimiterFree(parts[0], d);
    } else {
      SplitJoin(parts[1..], d);
      assert Join(parts, [d]) == parts[0] + [d] + Join(parts[1..], [d]);
      SplitOfConcat(parts[0], d, Join(parts[1..], [d]));
      assert [parts[0]] + parts[1..] == parts;
    }
  }

  /** Kotlin's `substringBeforeLast(c)`: the text before the last `c`, or the
      whole string when there is no `c`. */
  function SubstringBeforeLast(s: string, c: char): (r: string)
    ensures c !in s ==> r == s
    ensures c in s ==> |r| < |s| && s[|r|] == c && s[..|r|] == r && c !in s[|r| + 1..]
    decreases |s|
  {
    if c !in s then s
    else if s[|s| - 1] == c then s[..|s| - 1]
    else
      var k :| 0 <= k < |s| && s[k] == c;
      assert s[..|s| - 1][k] == c;
      var r := SubstringBeforeLast(s[..|s| - 1], c);
      assert s[|r| + 1..] == s[..|s| - 1][|r| + 1..] + [s[|s| - 1]];
      r
  }

  /** Position of the first `c` in `s`. */
  function IndexOf(s: string, c: char): (i: nat)
    requires c in s
    ensures i < |s| && s[i] == c && c !in s[..i]
  {
    if s[0] == c then 0
    else
      var i := 1 + IndexOf(s[1..], c);
      assert s[..i] == [s[0]] + s[1..][..i - 1];
      i
  }

  /** Case folding used for Kotlin's `ignoreCase = true` comparisons against the
      ASCII header keywords: ASCII upper case to lower case, and U+017F LATIN
      SMALL LETTER LONG S, whose upper case is 'S', to 's'. For a keyword made of
      ASCII letters other than 'i' and 'k' this is exactly Kotlin's rule. */
  function FoldCase(c: char): char {
    if 'A' <= c <= 'Z' then (c as int + 32) as char
    else if c == '\U{017F}' then 's'
    else c
  }

  predicate EqualsIgnoreCase(a: string, b: string) {
    |a| == |b| && forall i :: 0 <= i < |a| ==> FoldCase(a[i]) == FoldCase(b[i])
  }

  /** Kotlin's `contains(w, ignoreCase = true)`. */
  predicate ContainsIgnoreCase(s: string, w: string) {
    exists i :: 0 <= i <= |s| - |w| && MatchesAt(s, w, i)
  }

  /** `w` occurs, ignoring case, in `s` starting at index `i`. */
  predicate MatchesAt(s: string, w: string, i: int) {
    0 <= i <= |s| - |w| && EqualsIgnoreCase(s[i..i + |w|], w)
  }

  /** Kotlin's `lowercase()`, restricted to ASCII letters. */
  function LowercaseAscii(s: string): (r: string)
    ensures |r| == |s|
    ensures forall i :: 0 <= i < |s| ==> !('A' <= r[i] <= 'Z')
    ensures forall i :: 0 <= i < |s| ==> 'A' <= s[i] <= 'Z' ==> r[i] as int == s[i] as int + 32
    ensures forall i :: 0 <= i < |s| ==> !('A' <= s[i] <= 'Z') ==> r[i] == s[i]
  {
    seq(|s|, i requires 0 <= i < |s| => if 'A' <= s[i] <= 'Z' then (s[i] as int + 32) as char else s[i])
  }

  /** Kotlin's `replace(old, new)` for single-character strings. */
  function ReplaceChar(s: string, from: char, to: char): (r: string)
    ensures |r| == |s|
    ensures from != to ==> from !in r
    ensures forall i :: 0 <= i < |s| ==> s[i] == from ==> r[i] == to
    ensures forall i :: 0 <= i < |s| ==> s[i] != from ==> r[i] == s[i]
  {
    seq(|s|, i requires 0 <= i < |s| => if s[i] == from then to else s[i])
  }

  predicate IsDecimalDigit(c: char) {
    '0' <= c <= '9'
  }

  /** Decimal digits of a natural number, without leading zeros. */
  function NatToString(n: nat): (r: string)
    ensures |r| > 0
    ensures forall i :: 0 <= i < |r| ==> IsDecimalDigit(r[i])
  {
    var last := ['0' + (n % 10) as char];
    if n < 10 then last else NatToString(n / 10) + last
  }

  /** Kotlin's `Long.toString()`: a '-' sign then the digits of the magnitude. */
  function IntToString(n: int): (r: string)
    ensures |r| > 0
    ensures forall i :: 0 <= i < |r| ==> IsDecimalDigit(r[i]) || r[i] == '-'
  {
    if n < 0 then "-" + NatToString(-n) else NatToString(n)
  }

  /** SQLite's BINARY collation on UTF-8 text: lexicographic order on code
      points, a proper prefix before its extensions. */
  predicate StrLess(a: string, b: string)
    decreases |a|
  {
    |b| > 0 && (|a| == 0 || a[0] < b[0] || (a[0] == b[0] && StrLess(a[1..], b[1..])))
  }

  lemma {:induction false} StrLessIrreflexive(a: string)
    ensures !StrLess(a, a)
    decreases |a|
  {
    if |a| > 0 {
      StrLessIrreflexive(a[1..]);
    }
  }

  lemma {:induction false} StrLessTransitive(a: string, b: string, c: string)
    requires StrLess(a, b) && StrLess(b, c)
    ensures StrLess(a, c)
    decreases |a|
  {
    if |a| > 0 && a[0] == b[0] && b[0] == c[0] {
      StrLessTransitive(a[1..], b[1..], c[1..]);
    }
  }

  lemma {:induction false} StrLessTotal(a: string, b: string)
    ensures a == b || StrLess(a, b) || StrLess(b, a)
    decreases |a|
  {
    if |a| > 0 && |b| > 0 && a[0] == b[0] {
      StrLessTotal(a[1..], b[1..]);
      if a[1..] == b[1..] {
        assert a == [a[0]] + a[1..] && b == [b[0]] + b[1..];
      }
    }
  }
}
