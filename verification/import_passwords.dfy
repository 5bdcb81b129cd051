/** The CSV importer (`ImportPasswords.invoke`). The file is the sequence of
    lines `readLine` returned, optionally followed by a read failure; the
    repository is the sequence of records handed to `insertPassword`, in call
    order. `parse` stands for Kotlin's `toDoubleOrNull`, and `clock(i)` for the
    `currentTimeMillis()` read while building the record of data row `i`. */
module ImportPasswords {
  import opened Wrappers
  import opened Text
  import opened CharClasses
  import opened DomainModel

  const MsgEmptyFile := "Файл пуст или некорректный заголовок."
  const MsgBadHeader := "Некорректный формат CSV заголовка (ожидается 'Value')."
  const MsgNoValueColumn := "Обязательное поле 'Value' не найдено в заголовке CSV."
  const MsgCannotOpen := "Не удалось открыть файл для чтения."
  const SummaryOk := "Импорт успешно завершен."
  const SummaryPartial := "Импорт завершен с ошибками."
  const SummaryFailed := "Импорт не удался."

  function TooFewColumnsMessage(line: string): string {
    "Недостаточно столбцов для поля 'Value' в строке: " + line
  }

  function BlankValueMessage(line: string): string {
    "Пустое значение пароля в строке: " + line
  }

  function RowExceptionMessage(line: string, message: string): string {
    "Ошибка парсинга строки '" + line + "': " + message
  }

  /** An exception thrown by `readLine`: an `IOException` or some other kind. */
  datatype ReadFailure = ReadFailure(isIo: bool, message: string)

  function ReadFailureMessage(f: ReadFailure): string {
    if f.isIo then "Ошибка чтения файла: " + f.message
    else "Непредвиденная ошибка импорта: " + f.message
  }

  /** The file handed to the importer. `Unopened`: the content resolver gave no
      stream. `Opened(lines, failure)`: `readLine` returns `lines` one by one;
      then, with no failure, it returns `null`, and with a failure every further
      call throws it. */
  datatype ImportSource = Unopened | Opened(lines: seq<string>, failure: Option<ReadFailure>)

  /** What one import produces: the result the caller sees, and the records
      inserted into the repository, in insertion order. */
  datatype ImportOutcome = ImportOutcome(result: ImportResult, inserted: seq<Password>)

  /** The folder of the imported rows: the file name without its last
      extension, trimmed; none for a missing name or a blank stem. */
  function FolderNameFromFile(fileName: Option<string>): (r: Option<string>)
    ensures fileName.None? ==> r.None?
    ensures r.Some? ==> !IsBlank(r.value) && Trim(r.value) == r.value
    ensures fileName.Some? && '.' !in fileName.value ==>
      r == (if IsBlank(fileName.value) then None else Some(Trim(fileName.value)))
  {
    match fileName
    case None => None
    case Some(name) =>
      var stem := Trim(SubstringBeforeLast(name, '.'));
      if IsBlank(stem) then None else Some(stem)
  }

  /** Only the last extension is removed, and the stem before it is trimmed. */
  lemma FolderNameDropsLastExtension(stem: string, ext: string)
    requires '.' !in ext
    ensures FolderNameFromFile(Some(stem + "." + ext)) == (if IsBlank(stem) then None else Some(Trim(stem)))
  {
    var name := stem + "." + ext;
    assert name[|stem|] == '.';
    var before := SubstringBeforeLast(name, '.');
    assert before == stem;
    assert IsBlank(Trim(stem)) <==> IsBlank(stem);
  }

  /** A field as the importer sees it: trimmed, then stripped of one pair of
      surrounding double quotes. */
  function Normalize(field: string): string {
    RemoveSurrounding(Trim(field), "\"")
  }

  /** Normalising trims the field and then removes one pair of enclosing
      double quotes, when the trimmed text is at least two long and starts and
      ends with one; a blank field becomes empty and nothing grows. */
  lemma NormalizeMeaning(field: string)
    ensures |Normalize(field)| <= |field|
    ensures IsBlank(field) ==> Normalize(field) == ""
    ensures var t := Trim(field);
      |t| >= 2 && t[0] == '"' && t[|t| - 1] == '"' ==> t == "\"" + Normalize(field) + "\""
    ensures var t := Trim(field);
      !(|t| >= 2 && t[0] == '"' && t[|t| - 1] == '"') ==> Normalize(field) == t
  {
    var t := Trim(field);
    QuotedEnds(t);
    StripQuotes(t, Normalize(field));
  }

  /** `startsWith("\"")` and `endsWith("\"")` look at the first and last character. */
  lemma QuotedEnds(t: string)
    ensures StartsWith(t, "\"") && EndsWith(t, "\"") <==> |t| >= 1 && t[0] == '"' && t[|t| - 1] == '"'
  {
    if |t| >= 1 {
      assert t[..1] == [t[0]] && t[|t| - 1..] == [t[|t| - 1]];
    }
  }

  lemma StripQuotes(t: string, r: string)
    requires StartsWith(t, "\"") && EndsWith(t, "\"") <==> |t| >= 1 && t[0] == '"' && t[|t| - 1] == '"'
    requires r == RemoveSurrounding(t, "\"")
    ensures |t| >= 2 && t[0] == '"' && t[|t| - 1] == '"' ==> t == "\"" + r + "\""
    ensures !(|t| >= 2 && t[0] == '"' && t[|t| - 1] == '"') ==> r == t
  {
  }

  /** A line split on every ',', each piece normalised. */
  function ParseFields(line: string): (parts: seq<string>)
    ensures |parts| == |Split(line, ',')| > 0
    ensures forall k :: 0 <= k < |parts| ==> parts[k] == Normalize(Split(line, ',')[k])
  {
    var pieces := Split(line, ',');
    seq(|pieces|, k requires 0 <= k < |pieces| => Normalize(pieces[k]))
  }

  /** Normalising never introduces a character that was not in the field. */
  lemma NormalizeAddsNothing(field: string, c: char)
    requires c !in field
    ensures c !in Normalize(field)
  {
    var t := TrimStart(field);
    SliceLacks(field, |field| - |t|, |field|, c);
    var u := TrimEnd(t);
    SliceLacks(t, 0, |u|, c);
    assert Trim(field) == u;
    var r := RemoveSurrounding(u, "\"");
    if r != u {
      assert r == u[1..|u| - 1];
      SliceLacks(u, 1, |u| - 1, c);
    }
  }

  lemma SliceLacks(s: string, i: nat, j: nat, c: char)
    requires i <= j <= |s| && c !in s
    ensures c !in s[i..j]
  {
    forall k | 0 <= k < j - i ensures s[i..j][k] != c {
      assert s[i..j][k] == s[i + k];
    }
  }

  /** No parsed field ever contains ',': the split takes every comma. */
  lemma ParsedFieldsHaveNoComma(line: string)
    ensures forall k :: 0 <= k < |ParseFields(line)| ==> ',' !in ParseFields(line)[k]
  {
    var pieces := Split(line, ',');
    forall k | 0 <= k < |pieces| ensures ',' !in ParseFields(line)[k] {
      NormalizeAddsNothing(pieces[k], ',');
    }
  }

  /** `i` is the position of the first field equal to `keyword` ignoring case,
      or `None` when no field is. */
  predicate FirstMatch(fields: seq<string>, keyword: string, i: Option<nat>) {
    match i
    case None => forall j :: 0 <= j < |fields| ==> !EqualsIgnoreCase(fields[j], keyword)
    case Some(k) =>
      && k < |fields| && EqualsIgnoreCase(fields[k], keyword)
      && forall j :: 0 <= j < k ==> !EqualsIgnoreCase(fields[j], keyword)
  }

  /** At most one answer is the first match. */
  lemma FirstMatchUnique(fields: seq<string>, keyword: string, i: Option<nat>, i': Option<nat>)
    requires FirstMatch(fields, keyword, i) && FirstMatch(fields, keyword, i')
    ensures i == i'
  {
    if i.Some? && i'.Some? {
      assert !(i.value < i'.value) && !(i'.value < i.value);
    }
  }

  /** `indexOfFirst { it.equals(keyword, ignoreCase = true) }`, `None` for -1. */
  function IndexOfKeyword(fields: seq<string>, keyword: string): (r: Option<nat>)
    ensures FirstMatch(fields, keyword, r)
    decreases |fields|
  {
    if |fields| == 0 then None
    else if EqualsIgnoreCase(fields[0], keyword) then Some(0)
    else match IndexOfKeyword(fields[1..], keyword)
      case None => None
      case Some(i) => Some(i + 1)
  }

  /** The header's column positions; entropy and symbols are optional. */
  datatype Columns = Columns(value: nat, entropy: Option<nat>, symbols: Option<nat>)

  /** The columns named by the header, or none when no field is "Value": the
      first field equal to "Value", "Entropy" and "Symbols" ignoring case. */
  function ResolveColumns(header: seq<string>): (r: Option<Columns>)
    ensures r.None? <==> forall j :: 0 <= j < |header| ==> !EqualsIgnoreCase(header[j], "Value")
    ensures r.Some? ==>
      && FirstMatch(header, "Value", Some(r.value.value))
      && FirstMatch(header, "Entropy", r.value.entropy)
      && FirstMatch(header, "Symbols", r.value.symbols)
  {
    match IndexOfKeyword(header, "Value")
    case None => None
    case Some(v) => Some(Columns(v, IndexOfKeyword(header, "Entropy"), IndexOfKeyword(header, "Symbols")))
  }

  /** `parts.getOrNull(i)` for a column that may be absent. */
  function FieldAt(parts: seq<string>, column: Option<nat>): (r: Option<string>)
    ensures r.Some? <==> column.Some? && column.value < |parts|
    ensures r.Some? ==> r.value == parts[column.value]
  {
    if column.Some? && column.value < |parts| then Some(parts[column.value]) else None
  }

  /** `determineSymbolsFromValue`: the class tag of the characters in `value`. */
  function DeriveSymbols(value: string): (r: string)
    ensures IsSubsequence(r, "ULDS")
    ensures 'U' in r <==> exists i :: 0 <= i < |value| && IsUpperCase(value[i])
    ensures 'L' in r <==> exists i :: 0 <= i < |value| && IsLowerCase(value[i])
    ensures 'D' in r <==> exists i :: 0 <= i < |value| && IsDigit(value[i])
    ensures 'S' in r <==> exists i :: 0 <= i < |value| && !IsLetterOrDigit(value[i])
  {
    ClassTag(
      exists i :: 0 <= i < |value| && IsUpperCase(value[i]),
      exists i :: 0 <= i < |value| && IsLowerCase(value[i]),
      exists i :: 0 <= i < |value| && IsDigit(value[i]),
      exists i :: 0 <= i < |value| && !IsLetterOrDigit(value[i]))
  }

  /** What happens to one data line. */
  datatype RowOutcome = Accepted(password: Password) | Rejected(message: string)

  /** One data line: rejected when the value column is missing or blank,
      otherwise the record to insert, with entropy 0.0 unless the entropy field
      parses, and the symbols field unless it is missing or blank. */
  function ProcessRow(line: string, cols: Columns, folder: Option<string>, createdAt: int,
                      parse: string -> Option<real>): (o: RowOutcome)
    ensures var parts := ParseFields(line);
      o.Accepted? <==> |parts| > cols.value && !IsBlank(parts[cols.value])
    ensures var parts := ParseFields(line);
      |parts| <= cols.value ==> o == Rejected(TooFewColumnsMessage(line))
    ensures var parts := ParseFields(line);
      |parts| > cols.value && IsBlank(parts[cols.value]) ==> o == Rejected(BlankValueMessage(line))
    ensures o.Accepted? ==> ',' !in o.password.value
    ensures o.Accepted? ==>
      var parts := ParseFields(line);
      var p := o.password;
      && p.id == 0
      && p.value == parts[cols.value]
      && p.folderName == folder
      && p.createdAt == createdAt
      && (FieldAt(parts, cols.entropy).None? ==> p.entropy == 0.0)
      && (FieldAt(parts, cols.entropy).Some? ==> p.entropy == parse(FieldAt(parts, cols.entropy).value).GetOr(0.0))
      && (FieldAt(parts, cols.symbols).Some? && !IsBlank(FieldAt(parts, cols.symbols).value) ==>
            p.symbols == FieldAt(parts, cols.symbols).value)
      && (FieldAt(parts, cols.symbols).None? || IsBlank(FieldAt(parts, cols.symbols).value) ==>
            p.symbols == DeriveSymbols(p.value))
  {
    var parts := ParseFields(line);
    ParsedFieldsHaveNoComma(line);
    if |parts| <= cols.value then Rejected(TooFewColumnsMessage(line))
    else
      var value := parts[cols.value];
      if IsBlank(value) then Rejected(BlankValueMessage(line))
      else
        var entropy := match FieldAt(parts, cols.entropy)
          case None => 0.0
          case Some(s) => parse(s).GetOr(0.0);
        var symbols := match FieldAt(parts, cols.symbols)
          case Some(s) => if IsBlank(s) then DeriveSymbols(value) else s
          case None => DeriveSymbols(value);
        Accepted(Password(0, value, entropy, symbols, folder, createdAt))
  }

  /** The loop's running state: counts, messages so far, records inserted so far. */
  datatype Tally = Tally(successCount: nat, errorCount: nat, messages: seq<string>, inserted: seq<Password>)

  /** One loop iteration's effect on the running state. */
  function Record(t: Tally, o: RowOutcome): Tally {
    match o
    case Accepted(p) => t.(successCount := t.successCount + 1, inserted := t.inserted + [p])
    case Rejected(m) => t.(errorCount := t.errorCount + 1, messages := t.messages + [m])
  }

  /** The outcome of each data line, in file order. */
  function Outcomes(rows: seq<string>, cols: Columns, folder: Option<string>,
                    parse: string -> Option<real>, clock: nat -> int): (os: seq<RowOutcome>)
    ensures |os| == |rows|
    ensures forall i :: 0 <= i < |rows| ==> os[i] == ProcessRow(rows[i], cols, folder, clock(i), parse)
  {
    seq(|rows|, i requires 0 <= i < |rows| => ProcessRow(rows[i], cols, folder, clock(i), parse))
  }

  /** The `while` loop over the data lines: the state after processing `rows`,
      each line's outcome recorded in file order. Every line adds to exactly
      one count; each rejection adds one message. */
  function ProcessRows(rows: seq<string>, cols: Columns, folder: Option<string>,
                       parse: string -> Option<real>, clock: nat -> int): (t: Tally)
    ensures t.successCount + t.errorCount == |rows|
    ensures t.successCount == |t.inserted|
    ensures t.errorCount == |t.messages|
  {
    Fold(Outcomes(rows, cols, folder, parse, clock))
  }

  /** The records of the accepted outcomes, in order. */
  function AcceptedPasswords(os: seq<RowOutcome>): seq<Password>
    decreases |os|
  {
    if |os| == 0 then []
    else (if os[0].Accepted? then [os[0].password] else []) + AcceptedPasswords(os[1..])
  }

  /** The messages of the rejected outcomes, in order. */
  function RejectionMessages(os: seq<RowOutcome>): seq<string>
    decreases |os|
  {
    if |os| == 0 then []
    else (if os[0].Rejected? then [os[0].message] else []) + RejectionMessages(os[1..])
  }

  lemma {:induction false} AcceptedPasswordsSnoc(os: seq<RowOutcome>, o: RowOutcome)
    ensures AcceptedPasswords(os + [o]) == AcceptedPasswords(os) + (if o.Accepted? then [o.password] else [])
    decreases |os|
  {
    if |os| == 0 {
      assert AcceptedPasswords([o][1..]) == [];
    } else {
      var head := if os[0].Accepted? then [os[0].password] else [];
      assert (os + [o])[0] == os[0];
      assert (os + [o])[1..] == os[1..] + [o];
      calc {
        AcceptedPasswords(os + [o]);
        head + AcceptedPasswords(os[1..] + [o]);
        { AcceptedPasswordsSnoc(os[1..], o); }
        head + (AcceptedPasswords(os[1..]) + (if o.Accepted? then [o.password] else []));
      }
    }
  }

  lemma {:induction false} RejectionMessagesSnoc(os: seq<RowOutcome>, o: RowOutcome)
    ensures RejectionMessages(os + [o]) == RejectionMessages(os) + (if o.Rejected? then [o.message] else [])
    decreases |os|
  {
    if |os| == 0 {
      assert RejectionMessages([o][1..]) == [];
    } else {
      var head := if os[0].Rejected? then [os[0].message] else [];
      assert (os + [o])[0] == os[0];
      assert (os + [o])[1..] == os[1..] + [o];
      calc {
        RejectionMessages(os + [o]);
        head + RejectionMessages(os[1..] + [o]);
        { RejectionMessagesSnoc(os[1..], o); }
        head + (RejectionMessages(os[1..]) + (if o.Rejected? then [o.message] else []));
      }
    }
  }

  /** The loop inserts exactly the accepted rows, in file order, and collects
      exactly the rejections' messages, in file order. */
  lemma RowsProcessedInFileOrder(rows: seq<string>, cols: Columns, folder: Option<string>,
                                 parse: string -> Option<real>, clock: nat -> int)
    ensures ProcessRows(rows, cols, folder, parse, clock).inserted == AcceptedPasswords(Outcomes(rows, cols, folder, parse, clock))
    ensures ProcessRows(rows, cols, folder, parse, clock).messages == RejectionMessages(Outcomes(rows, cols, folder, parse, clock))
  {
    FoldInOrder(Outcomes(rows, cols, folder, parse, clock));
  }

  /** The loop's state after a sequence of outcomes, recorded one by one. */
  function Fold(os: seq<RowOutcome>): (t: Tally)
    ensures t.successCount + t.errorCount == |os|
    ensures t.successCount == |t.inserted|
    ensures t.errorCount == |t.messages|
    decreases |os|
  {
    if |os| == 0 then Tally(0, 0, [], [])
    else Record(Fold(os[..|os| - 1]), os[|os| - 1])
  }

  /** Recording outcomes inserts the accepted records and collects the
      rejection messages, both in order. */
  lemma {:induction false} FoldInOrder(os: seq<RowOutcome>)
    ensures Fold(os).inserted == AcceptedPasswords(os) && Fold(os).messages == RejectionMessages(os)
    decreases |os|
  {
    if |os| > 0 {
      var n := |os| - 1;
      FoldInOrder(os[..n]);
      LastSplit(os);
      RecordSnoc(Fold(os[..n]), os[..n], os[n]);
    }
  }

  /** One more iteration extends both lists by that line's outcome. */
  lemma RecordSnoc(t: Tally, os: seq<RowOutcome>, o: RowOutcome)
    requires t.inserted == AcceptedPasswords(os) && t.messages == RejectionMessages(os)
    ensures Record(t, o).inserted == AcceptedPasswords(os + [o])
    ensures Record(t, o).messages == RejectionMessages(os + [o])
  {
    AcceptedPasswordsSnoc(os, o);
    RejectionMessagesSnoc(os, o);
  }

  lemma LastSplit<T>(s: seq<T>)
    requires |s| > 0
    ensures s == s[..|s| - 1] + [s[|s| - 1]]
  {
  }

  /** The status line prepended to the messages of a completed import. */
  function Summary(successCount: nat, errorCount: nat): (r: seq<string>)
    ensures successCount > 0 && errorCount == 0 ==> r == [SummaryOk]
    ensures successCount > 0 && errorCount > 0 ==> r == [SummaryPartial]
    ensures successCount == 0 && errorCount > 0 ==> r == [SummaryFailed]
    ensures successCount == 0 && errorCount == 0 ==> r == []
  {
    if successCount > 0 && errorCount == 0 then [SummaryOk]
    else if successCount > 0 && errorCount > 0 then [SummaryPartial]
    else if errorCount > 0 then [SummaryFailed]
    else []
  }

  /** The code after the `try`: the summary goes in front of the messages. */
  function Finish(t: Tally, folder: Option<string>): ImportOutcome {
    ImportOutcome(ImportResult(t.successCount, t.errorCount, Summary(t.successCount, t.errorCount) + t.messages, folder), t.inserted)
  }

  /** An early `return` from inside the `try`: one message, no summary. */
  function Reject(message: string, folder: Option<string>): ImportOutcome {
    ImportOutcome(ImportResult(0, 1, [message], folder), [])
  }

  /** The last data line was rejected, so the `readLine` after it ran inside
      the per-line `try`. */
  predicate LastRejected(rows: seq<string>, cols: Columns, folder: Option<string>,
                         parse: string -> Option<real>, clock: nat -> int) {
    |rows| > 0 && ProcessRow(rows[|rows| - 1], cols, folder, clock(|rows| - 1), parse).Rejected?
  }

  /** The effect of a read failure after the last data line. When that line was
      rejected, the failing `readLine` ran inside the per-line `try`, so the
      failure is first reported against that line; the next `readLine` then
      fails outside it and ends the import. */
  function AfterRows(t: Tally, rows: seq<string>, cols: Columns, folder: Option<string>,
                     parse: string -> Option<real>, clock: nat -> int, failure: Option<ReadFailure>): (r: Tally)
    ensures failure.None? ==> r == t
    ensures failure.Some? ==> r.successCount == t.successCount && r.inserted == t.inserted
    ensures failure.Some? ==> t.errorCount + 1 <= r.errorCount <= t.errorCount + 2
    ensures failure.Some? ==> |r.messages| > 0 && r.messages[|r.messages| - 1] == ReadFailureMessage(failure.value)
    ensures failure.Some? ==>
      && |r.messages| == |t.messages| + (r.errorCount - t.errorCount)
      && r.messages[..|t.messages|] == t.messages
    ensures failure.Some? ==>
      (r.errorCount == t.errorCount + 2 <==> LastRejected(rows, cols, folder, parse, clock))
    ensures failure.Some? && LastRejected(rows, cols, folder, parse, clock) ==>
      r.messages[|t.messages|] == RowExceptionMessage(rows[|rows| - 1], failure.value.message)
  {
    match failure
    case None => t
    case Some(f) =>
      var n := |rows| - 1;
      var t' := if |rows| > 0 && ProcessRow(rows[n], cols, folder, clock(n), parse).Rejected? then
        t.(errorCount := t.errorCount + 1, messages := t.messages + [RowExceptionMessage(rows[n], f.message)])
      else t;
      t'.(errorCount := t'.errorCount + 1, messages := t'.messages + [ReadFailureMessage(f)])
  }

  /** `ImportPasswords.invoke`. */
  function Import(source: ImportSource, fileName: Option<string>,
                  parse: string -> Option<real>, clock: nat -> int): (o: ImportOutcome)
    ensures o.result.importedToFolderName == FolderNameFromFile(fileName)
    ensures o.result.successCount == |o.inserted|
    ensures forall k :: 0 <= k < |o.inserted| ==>
      && o.inserted[k].id == 0 && !IsBlank(o.inserted[k].value) && ',' !in o.inserted[k].value
      && o.inserted[k].folderName == FolderNameFromFile(fileName)
    // a stream that cannot be opened
    ensures source.Unopened? ==>
      o.result == ImportResult(0, 1, [SummaryFailed, MsgCannotOpen], FolderNameFromFile(fileName)) && o.inserted == []
    // an empty file: one message and no summary
    ensures source == Opened([], None) ==>
      o.result == ImportResult(0, 1, [MsgEmptyFile], FolderNameFromFile(fileName)) && o.inserted == []
    // a header without "value" anywhere in it
    ensures source.Opened? && |source.lines| > 0 && !ContainsIgnoreCase(source.lines[0], "Value") ==>
      o.result == ImportResult(0, 1, [MsgBadHeader], FolderNameFromFile(fileName)) && o.inserted == []
    // a header with "value" in it but no field equal to it
    ensures source.Opened? && |source.lines| > 0 && ContainsIgnoreCase(source.lines[0], "Value")
            && ResolveColumns(ParseFields(source.lines[0])).None? ==>
      o.result == ImportResult(0, 1, [MsgNoValueColumn], FolderNameFromFile(fileName)) && o.inserted == []
    // a valid header read to the end: every data line counted once, the summary in front
    ensures source.Opened? && source.failure.None? && |source.lines| > 0
            && ContainsIgnoreCase(source.lines[0], "Value") && ResolveColumns(ParseFields(source.lines[0])).Some? ==>
      && o.result.successCount + o.result.errorCount == |source.lines| - 1
      && o.result.messages == Summary(o.result.successCount, o.result.errorCount)
                              + RejectionMessages(Outcomes(source.lines[1..], ResolveColumns(ParseFields(source.lines[0])).value,
                                                           FolderNameFromFile(fileName), parse, clock))
      && o.inserted == AcceptedPasswords(Outcomes(source.lines[1..], ResolveColumns(ParseFields(source.lines[0])).value,
                                                  FolderNameFromFile(fileName), parse, clock))
    // a read failure before the header
    ensures source.Opened? && source.lines == [] && source.failure.Some? ==>
      o.result == ImportResult(0, 1, [SummaryFailed, ReadFailureMessage(source.failure.value)], FolderNameFromFile(fileName))
      && o.inserted == []
  {
    var folder := FolderNameFromFile(fileName);
    match source
    case Unopened => Finish(Tally(0, 1, [MsgCannotOpen], []), folder)
    case Opened(lines, failure) =>
      if |lines| == 0 then
        match failure
        case None => Reject(MsgEmptyFile, folder)
        case Some(f) => Finish(Tally(0, 1, [ReadFailureMessage(f)], []), folder)
      else if !ContainsIgnoreCase(lines[0], "Value") then Reject(MsgBadHeader, folder)
      else
        match ResolveColumns(ParseFields(lines[0]))
        case None => Reject(MsgNoValueColumn, folder)
        case Some(cols) =>
          var rows := lines[1..];
          var t := ProcessRows(rows, cols, folder, parse, clock);
          RowsProcessedInFileOrder(rows, cols, folder, parse, clock);
          AcceptedAreWellFormed(Outcomes(rows, cols, folder, parse, clock), folder);
          Finish(AfterRows(t, rows, cols, folder, parse, clock, failure), folder)
  }

  /** A valid header followed by a read failure: the data lines read before
      it are imported as usual, then the failure is reported, twice when it hit
      right after a rejected line. */
  lemma ImportReadFailure(source: ImportSource, fileName: Option<string>,
                          parse: string -> Option<real>, clock: nat -> int)
    requires source.Opened? && source.failure.Some? && |source.lines| > 0
    requires ContainsIgnoreCase(source.lines[0], "Value") && ResolveColumns(ParseFields(source.lines[0])).Some?
    ensures
      var o := Import(source, fileName, parse, clock);
      var rows := source.lines[1..];
      var cols := ResolveColumns(ParseFields(source.lines[0])).value;
      var folder := FolderNameFromFile(fileName);
      var os := Outcomes(rows, cols, folder, parse, clock);
      var f := source.failure.value;
      var twice := LastRejected(rows, cols, folder, parse, clock);
      && o.inserted == AcceptedPasswords(os)
      && o.result.successCount + o.result.errorCount == |rows| + (if twice then 2 else 1)
      && o.result.messages == Summary(o.result.successCount, o.result.errorCount) + RejectionMessages(os)
                              + (if twice then [RowExceptionMessage(rows[|rows| - 1], f.message)] else [])
                              + [ReadFailureMessage(f)]
  {
    var rows := source.lines[1..];
    var cols := ResolveColumns(ParseFields(source.lines[0])).value;
    var folder := FolderNameFromFile(fileName);
    assert Import(source, fileName, parse, clock)
        == Finish(AfterRows(ProcessRows(rows, cols, folder, parse, clock), rows, cols, folder, parse, clock, source.failure), folder);
    RowsFailingAfter(rows, cols, folder, parse, clock, source.failure.value);
  }

  /** The body of `ImportReadFailure` once the header has been dealt with. */
  lemma RowsFailingAfter(rows: seq<string>, cols: Columns, folder: Option<string>,
                         parse: string -> Option<real>, clock: nat -> int, f: ReadFailure)
    ensures
      var o := Finish(AfterRows(ProcessRows(rows, cols, folder, parse, clock), rows, cols, folder, parse, clock, Some(f)), folder);
      var os := Outcomes(rows, cols, folder, parse, clock);
      var twice := LastRejected(rows, cols, folder, parse, clock);
      && o.inserted == AcceptedPasswords(os)
      && o.result.successCount + o.result.errorCount == |rows| + (if twice then 2 else 1)
      && o.result.messages == Summary(o.result.successCount, o.result.errorCount) + RejectionMessages(os)
                              + (if twice then [RowExceptionMessage(rows[|rows| - 1], f.message)] else [])
                              + [ReadFailureMessage(f)]
  {
    var t := ProcessRows(rows, cols, folder, parse, clock);
    var r := AfterRows(t, rows, cols, folder, parse, clock, Some(f));
    RowsProcessedInFileOrder(rows, cols, folder, parse, clock);
    var twice := LastRejected(rows, cols, folder, parse, clock);
    var x := if twice then RowExceptionMessage(rows[|rows| - 1], f.message) else "";
    FinishAfterRows(t, r, Outcomes(rows, cols, folder, parse, clock), folder, |rows|, twice, x, ReadFailureMessage(f));
  }

  /** The final step of `ImportReadFailure`, stated over plain tallies: the
      import summary goes in front of the row loop's messages and of what the
      read failure added after them (`x` when the last line was rejected,
      then `last`). */
  lemma FinishAfterRows(t: Tally, r: Tally, os: seq<RowOutcome>, folder: Option<string>,
                        n: nat, twice: bool, x: string, last: string)
    requires t.inserted == AcceptedPasswords(os) && t.messages == RejectionMessages(os)
    requires t.successCount + t.errorCount == n
    requires r.successCount == t.successCount && r.inserted == t.inserted
    requires twice ==> r.errorCount == t.errorCount + 2 && r.messages == t.messages + [x] + [last]
    requires !twice ==> r.errorCount == t.errorCount + 1 && r.messages == t.messages + [last]
    ensures
      var o := Finish(r, folder);
      && o.inserted == AcceptedPasswords(os)
      && o.result.successCount + o.result.errorCount == n + (if twice then 2 else 1)
      && o.result.messages == Summary(o.result.successCount, o.result.errorCount) + RejectionMessages(os)
                              + (if twice then [x] else []) + [last]
  {
    var a := Summary(r.successCount, r.errorCount);
    var tail := if twice then [x] else [];
    assert r.messages == t.messages + tail + [last];
    assert a + (t.messages + tail + [last]) == a + t.messages + tail + [last];
  }

  /** Every record the rows yield is unnumbered, has a non-blank value without
      ',' and goes to the file's folder. */
  lemma {:induction false} AcceptedAreWellFormed(os: seq<RowOutcome>, folder: Option<string>)
    requires forall i :: 0 <= i < |os| ==> os[i].Accepted? ==>
      os[i].password.id == 0 && !IsBlank(os[i].password.value) && ',' !in os[i].password.value
      && os[i].password.folderName == folder
    ensures forall k :: 0 <= k < |AcceptedPasswords(os)| ==>
      && AcceptedPasswords(os)[k].id == 0 && !IsBlank(AcceptedPasswords(os)[k].value)
      && ',' !in AcceptedPasswords(os)[k].value && AcceptedPasswords(os)[k].folderName == folder
    decreases |os|
  {
    if |os| > 0 {
      AcceptedAreWellFormed(os[1..], folder);
    }
  }
}
