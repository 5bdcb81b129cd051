/** The CSV writer of `PasswordsViewModel.exportPasswordsToFile`. `showDouble`
    stands for Kotlin's `Double.toString()`. */
module CsvExport {
  import opened Wrappers
  import opened Text
  import opened Lines
  import opened DomainModel

  const ExportHeader := "Value,Entropy,Symbols,FolderName,CreatedAt"

  /** `replace("\"", "\"\"")`: every double quote doubled, every other
      character kept in place. */
  function EscapeQuotes(s: string): (r: string)
    ensures |r| == |s| + multiset(s)['"']
    ensures '"' !in s ==> r == s
    decreases |s|
  {
    if |s| == 0 then ""
    else
      assert s == [s[0]] + s[1..];
      (if s[0] == '"' then "\"\"" else [s[0]]) + EscapeQuotes(s[1..])
  }

  /** Escaping doubles the count of '"' and keeps the count of every other
      character. */
  lemma {:induction false} EscapeCounts(s: string, c: char)
    ensures c == '"' ==> multiset(EscapeQuotes(s))[c] == 2 * multiset(s)[c]
    ensures c != '"' ==> multiset(EscapeQuotes(s))[c] == multiset(s)[c]
    decreases |s|
  {
    if |s| > 0 {
      var t := s[1..];
      EscapeCounts(t, c);
      var h := if s[0] == '"' then "\"\"" else [s[0]];
      assert EscapeQuotes(s) == h + EscapeQuotes(t);
      assert s == [s[0]] + t;
      CountStep(s[0], t, s, h, EscapeQuotes(t), EscapeQuotes(s), c);
    }
  }

  /** The inductive step of `EscapeCounts`: escaping one more leading
      character adds its count (twice for '"') to the counts of the rest. */
  lemma CountStep(a: char, t: string, s: string, h: string, et: string, es: string, c: char)
    requires s == [a] + t && h == (if a == '"' then "\"\"" else [a]) && es == h + et
    requires c == '"' ==> multiset(et)[c] == 2 * multiset(t)[c]
    requires c != '"' ==> multiset(et)[c] == multiset(t)[c]
    ensures c == '"' ==> multiset(es)[c] == 2 * multiset(s)[c]
    ensures c != '"' ==> multiset(es)[c] == multiset(s)[c]
  {
    assert multiset(es)[c] == multiset(h)[c] + multiset(et)[c];
    assert multiset(s)[c] == multiset([a])[c] + multiset(t)[c];
  }

  /** Escaping works character by character: escaping a concatenation
      concatenates the escaped parts. */
  lemma {:induction false} EscapeConcat(a: string, b: string)
    ensures EscapeQuotes(a + b) == EscapeQuotes(a) + EscapeQuotes(b)
    decreases |a|
  {
    var ab := a + b;
    if |a| > 0 {
      var t := a[1..];
      var h := if a[0] == '"' then "\"\"" else [a[0]];
      assert EscapeQuotes(ab) == h + EscapeQuotes(t + b) by {
        assert ab[0] == a[0] && ab[1..] == t + b;
        EscapeHead(ab);
      }
      EscapeConcat(t, b);
      EscapeHead(a);
      Glue(EscapeQuotes(ab), h, EscapeQuotes(t + b), EscapeQuotes(t), EscapeQuotes(b), EscapeQuotes(a));
    } else {
      assert ab == b;
    }
  }

  /** A lone '"' is doubled; any other character stays as it is. */
  lemma EscapeOneChar(c: char)
    ensures EscapeQuotes([c]) == if c == '"' then "\"\"" else [c]
  {
    assert [c][1..] == [];
  }

  /** The regrouping step of `EscapeConcat`: the escaped head followed by the
      escaped `t + b` is the escaped `a` followed by the escaped `b`. */
  lemma Glue(eab: string, h: string, etb: string, et: string, eb: string, ea: string)
    requires eab == h + etb && etb == et + eb && ea == h + et
    ensures eab == ea + eb
  {
  }

  /** One unfolding of `EscapeQuotes`, used by `EscapeConcat` and
      `EscapeCounts`: the escaped first character, then the escaped rest. */
  lemma EscapeHead(s: string)
    requires |s| > 0
    ensures EscapeQuotes(s) == (if s[0] == '"' then "\"\"" else [s[0]]) + EscapeQuotes(s[1..])
  {
  }

  /** Reading `""` back as one `"`, left to right; every other character is
      kept. */
  function Unescape(s: string): string
    decreases |s|
  {
    if |s| == 0 then ""
    else if |s| >= 2 && s[0] == '"' && s[1] == '"' then "\"" + Unescape(s[2..])
    else [s[0]] + Unescape(s[1..])
  }

  /** Escaping loses nothing: collapsing the doubled quotes gives the text back. */
  lemma {:induction false} UnescapeEscape(s: string)
    ensures Unescape(EscapeQuotes(s)) == s
    decreases |s|
  {
    if |s| > 0 {
      var t := s[1..];
      var e := EscapeQuotes(s);
      UnescapeEscape(t);
      if s[0] == '"' {
        assert e == "\"\"" + EscapeQuotes(t);
        assert e[2..] == EscapeQuotes(t);
        assert Unescape(e) == "\"" + Unescape(e[2..]);
      } else {
        assert e == [s[0]] + EscapeQuotes(t);
        assert e[1..] == EscapeQuotes(t);
        assert Unescape(e) == [s[0]] + Unescape(e[1..]);
      }
      assert s == [s[0]] + t;
    }
  }

  /** A text field as the writer emits it: escaped, between double quotes. */
  function Quote(s: string): (r: string)
    ensures |r| == |s| + 2 + multiset(s)['"']
    ensures r[0] == '"' && r[|r| - 1] == '"'
    ensures r[1..|r| - 1] == EscapeQuotes(s)
  {
    "\"" + EscapeQuotes(s) + "\""
  }

  /** A quoted field reads back as the text that was quoted. */
  lemma QuoteReadsBack(s: string)
    ensures QuotedAs(Quote(s), s)
  {
    UnescapeEscape(s);
  }

  /** `f` is a quoted field that reads back as `s`: a '"' at each end, and
      between them text whose doubled quotes collapse to `s`. */
  predicate QuotedAs(f: string, s: string) {
    |f| >= 2 && f[0] == '"' && f[|f| - 1] == '"' && Unescape(f[1..|f| - 1]) == s
  }

  /** The five fields of one record's line: value, symbols and folder quoted
      (no folder as ""), entropy and creation time as bare numbers. */
  function ExportFields(p: Password, showDouble: real -> string): (fs: seq<string>)
    ensures |fs| == 5
  {
    [Quote(p.value), showDouble(p.entropy), Quote(p.symbols), Quote(p.folderName.GetOr("")), IntToString(p.createdAt)]
  }

  /** What each field of a record's line holds: the value, the symbols and the
      folder quoted so that they read back as written (no folder as an empty
      pair of quotes), the entropy as `Double.toString` prints it, the creation
      time in decimal. */
  lemma ExportFieldsReadBack(p: Password, showDouble: real -> string)
    ensures var fs := ExportFields(p, showDouble);
      && QuotedAs(fs[0], p.value) && QuotedAs(fs[2], p.symbols)
      && (p.folderName.Some? ==> QuotedAs(fs[3], p.folderName.value))
      && (p.folderName.None? ==> fs[3] == "\"\"")
      && fs[1] == showDouble(p.entropy)
      && fs[4] == IntToString(p.createdAt)
  {
    var fs := ExportFields(p, showDouble);
    var folder := p.folderName.GetOr("");
    assert fs[0] == Quote(p.value) && fs[2] == Quote(p.symbols) && fs[3] == Quote(folder);
    QuoteReadsBack(p.value);
    QuoteReadsBack(p.symbols);
    QuoteReadsBack(folder);
    if p.folderName.None? {
      QuoteOfEmpty();
    }
  }

  lemma QuoteOfEmpty()
    ensures Quote("") == "\"\""
  {
    assert EscapeQuotes("") == "";
  }

  function ExportLine(p: Password, showDouble: real -> string): string {
    Join(ExportFields(p, showDouble), ",")
  }

  /** The lines written: the header, then one line per record, in list order. */
  function ExportLines(ps: seq<Password>, showDouble: real -> string): (ls: seq<string>)
    ensures |ls| == |ps| + 1 && ls[0] == ExportHeader
    ensures forall i :: 0 < i < |ls| ==> ls[i] == ExportLine(ps[i - 1], showDouble)
  {
    seq(|ps| + 1, i requires 0 <= i <= |ps| => if i == 0 then ExportHeader else ExportLine(ps[i - 1], showDouble))
  }

  /** The file content: each line written with `appendLine`. */
  function ExportText(ps: seq<Password>, showDouble: real -> string): string {
    WriteLines(ExportLines(ps, showDouble))
  }

  /** The file opens with the header line and ends with a line break. */
  lemma ExportTextFraming(ps: seq<Password>, showDouble: real -> string)
    ensures var t := ExportText(ps, showDouble);
      && |t| > |ExportHeader| && t[..|ExportHeader| + 1] == ExportHeader + "\n"
      && t[|t| - 1] == '\n'
  {
    var ls := ExportLines(ps, showDouble);
    assert ls[0] == ExportHeader;
    WriteLinesFraming(ls);
  }
}
