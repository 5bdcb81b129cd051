/** What the importer makes of a file the exporter wrote. The writer quotes
    the text fields and doubles their quotes; the reader splits on every ','
    and strips one pair of surrounding quotes, without undoing the doubling. So
    a record comes back unchanged only when its text fields hold neither ','
    nor '"', and even then it is filed under the import file's folder and
    stamped with the import time. */
module CsvRoundTrip {
  import opened Wrappers
  import opened Text
  import opened Lines
  import opened DomainModel
  import opened GeneratePassword
  import opened ImportPasswords
  import opened CsvExport

  /** Quoting and then normalising leaves the escaped text: the surrounding
      quotes go, the doubled quotes stay. */
  lemma NormalizeQuote(s: string)
    ensures Normalize(Quote(s)) == EscapeQuotes(s)
  {
    var q := Quote(s);
    var r := Normalize(q);
    assert Trim(q) == q;
    NormalizeMeaning(q);
    assert q == "\"" + r + "\"";
    assert r == q[1..|q| - 1];
  }

  /** A quoted field reads back as itself exactly when it holds no '"'. */
  lemma QuotedFieldRoundTrip(s: string)
    ensures Normalize(Quote(s)) == s <==> '"' !in s
  {
    NormalizeQuote(s);
    if '"' in s {
      assert multiset(s)['"'] > 0;
      assert |EscapeQuotes(s)| > |s|;
    }
  }

  /** A text field the writer and the reader agree on: no separator, no quote,
      no line break. */
  predicate PlainField(s: string) {
    ',' !in s && '"' !in s && HasNoLineBreak(s)
  }

  /** The conditions under which a record's line splits into its five fields
      and stays on one line. */
  predicate Exportable(p: Password, showDouble: real -> string) {
    && ',' !in p.value && ',' !in p.symbols && ',' !in p.folderName.GetOr("")
    && ',' !in showDouble(p.entropy)
    && HasNoLineBreak(p.value) && HasNoLineBreak(p.symbols) && HasNoLineBreak(p.folderName.GetOr(""))
    && HasNoLineBreak(showDouble(p.entropy))
  }

  lemma QuoteKeepsAbsent(s: string, c: char)
    requires c != '"' && c !in s
    ensures c !in Quote(s)
  {
    EscapeCounts(s, c);
    assert c !in EscapeQuotes(s);
  }

  /** Quoting a field without ',' or line break adds neither. */
  lemma QuotedPlain(s: string)
    requires ',' !in s && HasNoLineBreak(s)
    ensures ',' !in Quote(s) && HasNoLineBreak(Quote(s))
  {
    QuoteKeepsAbsent(s, ',');
    QuoteKeepsAbsent(s, '\n');
    QuoteKeepsAbsent(s, '\r');
  }

  lemma NumberPlain(c: int)
    ensures ',' !in IntToString(c) && HasNoLineBreak(IntToString(c))
  {
    var n := IntToString(c);
    assert forall i :: 0 <= i < |n| ==> IsDecimalDigit(n[i]) || n[i] == '-';
  }

  lemma {:induction false} JoinKeepsNoLineBreak(parts: seq<string>, sep: string)
    requires HasNoLineBreak(sep)
    requires forall k :: 0 <= k < |parts| ==> HasNoLineBreak(parts[k])
    ensures HasNoLineBreak(Join(parts, sep))
    decreases |parts|
  {
    if |parts| > 1 {
      JoinKeepsNoLineBreak(parts[1..], sep);
    }
  }

  /** The fields of an exportable record hold no ',' and no line break. */
  lemma ExportFieldsPlain(p: Password, showDouble: real -> string)
    requires Exportable(p, showDouble)
    ensures forall k :: 0 <= k < 5 ==> ',' !in ExportFields(p, showDouble)[k]
    ensures forall k :: 0 <= k < 5 ==> HasNoLineBreak(ExportFields(p, showDouble)[k])
  {
    var fs := ExportFields(p, showDouble);
    forall k | 0 <= k < 5
      ensures ',' !in fs[k] && HasNoLineBreak(fs[k])
    {
      if k == 0 {
        QuotedPlain(p.value);
      } else if k == 2 {
        QuotedPlain(p.symbols);
      } else if k == 3 {
        QuotedPlain(p.folderName.GetOr(""));
      } else if k == 4 {
        NumberPlain(p.createdAt);
      }
    }
  }

  /** An exportable record's line splits on ',' into exactly its five fields. */
  lemma ExportLineSplits(p: Password, showDouble: real -> string)
    requires Exportable(p, showDouble)
    ensures Split(ExportLine(p, showDouble), ',') == ExportFields(p, showDouble)
  {
    ExportFieldsPlain(p, showDouble);
    SplitJoin(ExportFields(p, showDouble), ',');
  }

  /** An exportable record's line is one line. */
  lemma ExportLineIsOneLine(p: Password, showDouble: real -> string)
    requires Exportable(p, showDouble)
    ensures HasNoLineBreak(ExportLine(p, showDouble))
  {
    ExportFieldsPlain(p, showDouble);
    JoinKeepsNoLineBreak(ExportFields(p, showDouble), ",");
  }

  /** Normalising a decimal number's text leaves it as it is. */
  lemma NormalizeNumber(c: int)
    ensures Normalize(IntToString(c)) == IntToString(c)
  {
    var n := IntToString(c);
    assert !IsWhitespace(n[0]) && !IsWhitespace(n[|n| - 1]);
    assert !StartsWith(n, "\"");
  }

  /** Parsing a line joined from comma-free fields gives back the fields,
      each normalised. */
  lemma ParseJoined(fs: seq<string>)
    requires |fs| > 0
    requires forall k :: 0 <= k < |fs| ==> ',' !in fs[k]
    ensures |ParseFields(Join(fs, ","))| == |fs|
    ensures forall k :: 0 <= k < |fs| ==> ParseFields(Join(fs, ","))[k] == Normalize(fs[k])
  {
    SplitJoin(fs, ',');
  }

  /** The importer's fields for an exportable record's line: the escaped text
      fields, the normalised entropy text, and the creation time. */
  lemma ParseExportedLine(p: Password, showDouble: real -> string)
    requires Exportable(p, showDouble)
    ensures var parts := ParseFields(ExportLine(p, showDouble));
      && |parts| == 5
      && parts[0] == EscapeQuotes(p.value)
      && parts[1] == Normalize(showDouble(p.entropy))
      && parts[2] == EscapeQuotes(p.symbols)
      && parts[3] == EscapeQuotes(p.folderName.GetOr(""))
      && parts[4] == IntToString(p.createdAt)
  {
    ExportedLineFields(p, showDouble);
    NormalizeQuote(p.value);
    NormalizeQuote(p.symbols);
    NormalizeQuote(p.folderName.GetOr(""));
    NormalizeNumber(p.createdAt);
  }

  lemma ExportedLineFields(p: Password, showDouble: real -> string)
    requires Exportable(p, showDouble)
    ensures var parts := ParseFields(ExportLine(p, showDouble));
      && |parts| == 5
      && parts[0] == Normalize(Quote(p.value))
      && parts[1] == Normalize(showDouble(p.entropy))
      && parts[2] == Normalize(Quote(p.symbols))
      && parts[3] == Normalize(Quote(p.folderName.GetOr("")))
      && parts[4] == Normalize(IntToString(p.createdAt))
  {
    var fs := ExportFields(p, showDouble);
    ExportFieldsPlain(p, showDouble);
    ParseJoined(fs);
    var parts := ParseFields(Join(fs, ","));
    assert ExportLine(p, showDouble) == Join(fs, ",");
    assert parts[0] == Normalize(fs[0]) && parts[1] == Normalize(fs[1]) && parts[2] == Normalize(fs[2]);
    assert parts[3] == Normalize(fs[3]) && parts[4] == Normalize(fs[4]);
  }

  const HeaderFields: seq<string> := ["Value", "Entropy", "Symbols", "FolderName", "CreatedAt"]

  /** A non-empty word of ASCII letters. */
  predicate LetterWord(w: string) {
    |w| > 0 && forall i :: 0 <= i < |w| ==> 'A' <= w[i] <= 'Z' || 'a' <= w[i] <= 'z'
  }

  lemma LetterWordPlain(w: string)
    requires LetterWord(w)
    ensures ',' !in w && HasNoLineBreak(w) && Normalize(w) == w
  {
    assert !IsWhitespace(w[0]) && !IsWhitespace(w[|w| - 1]);
    assert !StartsWith(w, "\"");
  }

  lemma HeaderIsJoin()
    ensures ExportHeader == Join(HeaderFields, ",")
  {
  }

  lemma HeaderFieldsPlain()
    ensures forall k :: 0 <= k < |HeaderFields| ==> ',' !in HeaderFields[k]
    ensures forall k :: 0 <= k < |HeaderFields| ==> HasNoLineBreak(HeaderFields[k])
    ensures forall k :: 0 <= k < |HeaderFields| ==> Normalize(HeaderFields[k]) == HeaderFields[k]
  {
    forall k | 0 <= k < |HeaderFields|
      ensures ',' !in HeaderFields[k] && HasNoLineBreak(HeaderFields[k]) && Normalize(HeaderFields[k]) == HeaderFields[k]
    {
      assert LetterWord(HeaderFields[k]);
      LetterWordPlain(HeaderFields[k]);
    }
  }

  lemma ParseHeader()
    ensures ParseFields(ExportHeader) == HeaderFields
  {
    HeaderIsJoin();
    HeaderFieldsPlain();
    ParseJoinedPlain(HeaderFields);
  }

  /** Comma-free fields that normalise to themselves parse back as they are. */
  lemma ParseJoinedPlain(fs: seq<string>)
    requires |fs| > 0
    requires forall k :: 0 <= k < |fs| ==> ',' !in fs[k] && Normalize(fs[k]) == fs[k]
    ensures ParseFields(Join(fs, ",")) == fs
  {
    ParseJoined(fs);
    var ps := ParseFields(Join(fs, ","));
    forall k | 0 <= k < |fs|
      ensures ps[k] == fs[k]
    {
    }
  }

  lemma HeaderNamesValue()
    ensures HasNoLineBreak(ExportHeader)
    ensures ContainsIgnoreCase(ExportHeader, "Value")
  {
    HeaderHasNoLineBreak();
    HeaderContainsValue();
  }

  lemma HeaderHasNoLineBreak()
    ensures HasNoLineBreak(ExportHeader)
  {
    HeaderIsJoin();
    HeaderFieldsPlain();
    JoinKeepsNoLineBreak(HeaderFields, ",");
  }

  lemma HeaderContainsValue()
    ensures ContainsIgnoreCase(ExportHeader, "Value")
  {
    var h := ExportHeader;
    assert h[0] == 'V' && h[1] == 'a' && h[2] == 'l' && h[3] == 'u' && h[4] == 'e';
    assert h[..5] == "Value";
    assert MatchesAt(h, "Value", 0);
  }

  lemma HeaderColumns()
    ensures ResolveColumns(HeaderFields) == Some(Columns(0, Some(1), Some(2)))
  {
    var fs := HeaderFields;
    assert IndexOfKeyword(fs, "Value") == Some(0);
    assert !EqualsIgnoreCase(fs[0], "Entropy");
    assert IndexOfKeyword(fs[1..], "Entropy") == Some(0);
    assert !EqualsIgnoreCase(fs[0], "Symbols");
    assert FoldCase(fs[1][0]) != FoldCase("Symbols"[0]);
    assert !EqualsIgnoreCase(fs[1], "Symbols");
    assert fs[1..][1..] == fs[2..];
    assert IndexOfKeyword(fs[2..], "Symbols") == Some(0);
    assert IndexOfKeyword(fs[1..], "Symbols") == Some(1);
  }

  /** The exporter's header is one the importer accepts: it names "Value",
      and its columns are value, entropy and symbols, in that order. */
  lemma HeaderResolves(h: string)
    requires h == ExportHeader
    ensures HasNoLineBreak(h)
    ensures ContainsIgnoreCase(h, "Value")
    ensures ResolveColumns(ParseFields(h)) == Some(Columns(0, Some(1), Some(2)))
  {
    HeaderNamesValue();
    ParseHeader();
    HeaderColumns();
  }

  /** Escaping doubles quotes only, so it cannot make a field blank or
      non-blank. */
  lemma EscapeKeepsBlankness(s: string)
    ensures IsBlank(EscapeQuotes(s)) <==> IsBlank(s)
  {
    if IsBlank(s) {
      assert '"' !in s;
    }
    if IsBlank(EscapeQuotes(s)) {
      assert '"' !in EscapeQuotes(s);
      EscapeCounts(s, '"');
      assert '"' !in s;
    }
  }

  /** The record the importer builds from an exported record's line, for the
      import file's folder and the import's clock reading. */
  function Reimported(p: Password, folder: Option<string>, createdAt: int,
                      parse: string -> Option<real>, showDouble: real -> string): (r: Password)
    ensures r.id == 0 && r.folderName == folder && r.createdAt == createdAt
    ensures r.value == EscapeQuotes(p.value)
    ensures r.value == p.value <==> '"' !in p.value
    ensures '"' !in p.symbols && !IsBlank(p.symbols) ==> r.symbols == p.symbols
    ensures IsBlank(p.symbols) ==> r.symbols == DeriveSymbols(r.value)
  {
    QuotedFieldRoundTrip(p.value);
    NormalizeQuote(p.value);
    EscapeKeepsBlankness(p.symbols);
    var value := EscapeQuotes(p.value);
    var symbols := EscapeQuotes(p.symbols);
    Password(0, value, parse(Normalize(showDouble(p.entropy))).GetOr(0.0),
             if IsBlank(symbols) then DeriveSymbols(value) else symbols, folder, createdAt)
  }

  /** One exported line read back: rejected when the value is blank, otherwise
      the reimported record. */
  lemma RowRoundTrip(p: Password, showDouble: real -> string, folder: Option<string>, createdAt: int,
                     parse: string -> Option<real>)
    requires Exportable(p, showDouble)
    ensures var line := ExportLine(p, showDouble);
      ProcessRow(line, Columns(0, Some(1), Some(2)), folder, createdAt, parse)
        == if IsBlank(p.value) then Rejected(BlankValueMessage(line))
           else Accepted(Reimported(p, folder, createdAt, parse, showDouble))
  {
    var line := ExportLine(p, showDouble);
    var cols := Columns(0, Some(1), Some(2));
    ParseExportedLine(p, showDouble);
    var parts := ParseFields(line);
    assert FieldAt(parts, cols.entropy) == Some(parts[1]);
    assert FieldAt(parts, cols.symbols) == Some(parts[2]);
    EscapeKeepsBlankness(p.value);
    EscapeKeepsBlankness(p.symbols);
    if !IsBlank(p.value) {
      var o := ProcessRow(line, cols, folder, createdAt, parse);
      var r := Reimported(p, folder, createdAt, parse, showDouble);
      assert o.Accepted?;
      assert o.password.value == r.value && o.password.entropy == r.entropy;
      assert o.password.symbols == r.symbols;
      assert o.password == r;
    }
  }

  /** Exporting records and importing the file gives one reimported record per
      exported one, in order, with no errors and the success summary. */
  lemma ExportImportRoundTrip(ps: seq<Password>, showDouble: real -> string, fileName: Option<string>,
                              parse: string -> Option<real>, clock: nat -> int)
    requires forall i :: 0 <= i < |ps| ==> Exportable(ps[i], showDouble) && !IsBlank(ps[i].value)
    ensures var folder := FolderNameFromFile(fileName);
      Import(Opened(ReadLines(ExportText(ps, showDouble)), None), fileName, parse, clock) ==
        ImportOutcome(ImportResult(|ps|, 0, Summary(|ps|, 0), folder),
                      seq(|ps|, i requires 0 <= i < |ps| => Reimported(ps[i], folder, clock(i), parse, showDouble)))
  {
    var folder := FolderNameFromFile(fileName);
    var lines := ExportLines(ps, showDouble);
    ExportedTextReadsBack(ps, showDouble);
    ExportedRowsAccepted(lines, ps, showDouble, folder, parse, clock);
    var expected := seq(|ps|, i requires 0 <= i < |ps| => Reimported(ps[i], folder, clock(i), parse, showDouble));
    assert AcceptedAs(Outcomes(lines[1..], Columns(0, Some(1), Some(2)), folder, parse, clock), expected);
    ImportExportedLines(lines, expected, fileName, parse, clock);
  }

  /** The file the exporter writes is read back line by line as written. */
  lemma ExportedTextReadsBack(ps: seq<Password>, showDouble: real -> string)
    requires forall i :: 0 <= i < |ps| ==> Exportable(ps[i], showDouble)
    ensures ReadLines(ExportText(ps, showDouble)) == ExportLines(ps, showDouble)
  {
    var lines := ExportLines(ps, showDouble);
    forall k | 0 <= k < |lines| ensures HasNoLineBreak(lines[k]) {
      if k == 0 {
        HeaderResolves(lines[0]);
      } else {
        ExportLineIsOneLine(ps[k - 1], showDouble);
      }
    }
    ReadWriteLines(lines);
  }

  /** Each exported data line is accepted as the reimported record. */
  lemma ExportedRowsAccepted(lines: seq<string>, ps: seq<Password>, showDouble: real -> string,
                             folder: Option<string>, parse: string -> Option<real>, clock: nat -> int)
    requires ExportedAs(lines, ps, showDouble)
    requires forall i :: 0 <= i < |ps| ==> Exportable(ps[i], showDouble) && !IsBlank(ps[i].value)
    ensures var os := Outcomes(lines[1..], Columns(0, Some(1), Some(2)), folder, parse, clock);
      |os| == |ps| &&
      forall i :: 0 <= i < |ps| ==> os[i] == Accepted(Reimported(ps[i], folder, clock(i), parse, showDouble))
  {
    var rows := lines[1..];
    forall i | 0 <= i < |ps|
      ensures ProcessRow(rows[i], Columns(0, Some(1), Some(2)), folder, clock(i), parse)
              == Accepted(Reimported(ps[i], folder, clock(i), parse, showDouble))
    {
      assert rows[i] == ExportLine(ps[i], showDouble);
      RowRoundTrip(ps[i], showDouble, folder, clock(i), parse);
    }
  }

  /** `lines` are the header followed by one exported line per record. */
  predicate ExportedAs(lines: seq<string>, ps: seq<Password>, showDouble: real -> string) {
    && |lines| == |ps| + 1 && lines[0] == ExportHeader
    && forall i :: 0 < i < |lines| ==> lines[i] == ExportLine(ps[i - 1], showDouble)
  }

  /** A file with the exporter's header whose data lines are all accepted. */
  lemma ImportExportedLines(lines: seq<string>, expected: seq<Password>, fileName: Option<string>,
                            parse: string -> Option<real>, clock: nat -> int)
    requires |lines| == |expected| + 1 && lines[0] == ExportHeader
    requires AcceptedAs(Outcomes(lines[1..], Columns(0, Some(1), Some(2)), FolderNameFromFile(fileName), parse, clock), expected)
    ensures Import(Opened(lines, None), fileName, parse, clock) ==
      ImportOutcome(ImportResult(|expected|, 0, Summary(|expected|, 0), FolderNameFromFile(fileName)), expected)
  {
    HeaderResolves(lines[0]);
    CleanImport(lines, Columns(0, Some(1), Some(2)), fileName, parse, clock, expected);
  }

  /** Outcome `i` accepts record `expected[i]`, for every record. */
  predicate AcceptedAs(os: seq<RowOutcome>, expected: seq<Password>) {
    |os| == |expected| && forall i :: 0 <= i < |expected| ==> os[i] == Accepted(expected[i])
  }

  /** Outcomes that accept the expected records one by one collect exactly
      those records and no message. */
  lemma {:induction false} AcceptedAsCollects(os: seq<RowOutcome>, expected: seq<Password>)
    requires AcceptedAs(os, expected)
    ensures AcceptedPasswords(os) == expected && RejectionMessages(os) == []
    decreases |os|
  {
    if |os| > 0 {
      assert AcceptedAs(os[1..], expected[1..]) by {
        forall i | 0 <= i < |expected[1..]| ensures os[1..][i] == Accepted(expected[1..][i]) {
          assert os[1..][i] == os[i + 1];
        }
      }
      AcceptedAsCollects(os[1..], expected[1..]);
      assert os[0] == Accepted(expected[0]);
      assert AcceptedPasswords(os) == [expected[0]] + expected[1..];
    }
  }

  /** A file with a valid header whose data lines are all accepted imports
      every line, with no error and the success summary. */
  lemma CleanImport(lines: seq<string>, cols: Columns, fileName: Option<string>,
                    parse: string -> Option<real>, clock: nat -> int, expected: seq<Password>)
    requires |lines| == |expected| + 1 && ContainsIgnoreCase(lines[0], "Value")
    requires ResolveColumns(ParseFields(lines[0])) == Some(cols)
    requires AcceptedAs(Outcomes(lines[1..], cols, FolderNameFromFile(fileName), parse, clock), expected)
    ensures Import(Opened(lines, None), fileName, parse, clock) ==
      ImportOutcome(ImportResult(|expected|, 0, Summary(|expected|, 0), FolderNameFromFile(fileName)), expected)
  {
    var folder := FolderNameFromFile(fileName);
    var os := Outcomes(lines[1..], cols, folder, parse, clock);
    var o := Import(Opened(lines, None), fileName, parse, clock);
    AcceptedAsCollects(os, expected);
    assert o.inserted == expected;
    assert o.result.successCount == |expected| && o.result.errorCount == 0;
    assert o.result.messages == Summary(|expected|, 0) + [];
    assert o.result == ImportResult(|expected|, 0, Summary(|expected|, 0), folder);
  }

  /** A record whose text fields are plain, whose symbols are not blank, and
      whose entropy text reads back as the same number, comes back unchanged
      except for its id, folder and creation time. */
  lemma PlainRecordSurvives(p: Password, showDouble: real -> string, folder: Option<string>, createdAt: int,
                            parse: string -> Option<real>)
    requires PlainField(p.value) && PlainField(p.symbols) && !IsBlank(p.symbols)
    requires parse(Normalize(showDouble(p.entropy))) == Some(p.entropy)
    ensures Reimported(p, folder, createdAt, parse, showDouble) == p.(id := 0, folderName := folder, createdAt := createdAt)
  {
  }

  lemma EscapeSample()
    ensures EscapeQuotes("a\"b") == "a\"\"b"
  {
    var s1, s2, s3 := "b", "\"b", "a\"b";
    assert s1[1..] == [];
    assert EscapeQuotes(s1) == [s1[0]] + EscapeQuotes(s1[1..]);
    assert s2[1..] == s1;
    assert EscapeQuotes(s2) == "\"\"" + EscapeQuotes(s1);
    assert s3[1..] == s2;
    assert EscapeQuotes(s3) == [s3[0]] + EscapeQuotes(s2);
  }

  /** An illustration of `QuotedFieldRoundTrip` and `Reimported` on one
      value: `a"b` comes back with its quote doubled. */
  lemma QuoteNotUndone(showDouble: real -> string, parse: string -> Option<real>)
    ensures Reimported(Password(1, "a\"b", 0.0, "LS", None, 0), None, 0, parse, showDouble).value == "a\"\"b"
  {
    EscapeSample();
  }

  /** A value with a ',' never comes back: the line splits inside the value. */
  lemma CommaValueLost(p: Password, showDouble: real -> string, cols: Columns, folder: Option<string>,
                       createdAt: int, parse: string -> Option<real>)
    requires ',' in p.value
    ensures var o := ProcessRow(ExportLine(p, showDouble), cols, folder, createdAt, parse);
      o.Accepted? ==> o.password.value != p.value
  {
  }

  /** With symbols enabled the generator can produce a password that the
      exporter writes and the importer cannot read back. */
  lemma GeneratedPasswordMayNotSurvive(settings: PasswordGenerationSettings, log2: int -> real)
    requires settings.includeSymbols && settings.length > 0
    ensures exists random: nat -> nat :: ',' in Generate(settings, random, log2).value
    ensures forall random: nat -> nat, p: Password, showDouble, cols, folder, createdAt, parse ::
      p.value == Generate(settings, random, log2).value && ',' in p.value ==>
      var o := ProcessRow(ExportLine(p, showDouble), cols, folder, createdAt, parse);
      o.Accepted? ==> o.password.value != p.value
  {
    CommaReachable(settings, log2);
  }
}
