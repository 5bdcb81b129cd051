# telros password vault — a Dafny model of its core logic

telros is an Android app. It generates passwords, keeps them in a Room
database grouped into folders, imports them from CSV files and exports a
folder (or the unfiled records) back to CSV. This project models the
logic behind those features as pure functions over immutable values, and
proves what that logic guarantees. The features modelled are:

- the CSV importer (`ImportPasswords`): the folder name taken from the file
  name, header validation, column lookup, field normalisation, accepting
  and rejecting rows, the derived class tag, counting, and the summary line;
- the CSV writer in `PasswordsViewModel.exportPasswordsToFile`, and its
  round trip with the importer;
- the generator (`GeneratePassword`) and the class tag
  `PasswordGenerationSettings.toSymbolsString`;
- the `passwords` table behind `PasswordDao`: insert-or-replace with an
  AUTOINCREMENT key, delete, delete by folder, and the four queries;
  `SavePassword`'s blank-value guard; the row/record mapper;
- the two view models, `GeneratePasswordViewModel` and `PasswordsViewModel`,
  as state-transition functions.

Floating-point operations are parameters: `log2`, `Double.toString`
(`showDouble`) and `String.toDoubleOrNull` (`parse`). So are the random
source (`random: nat -> nat`, whose i-th value picks the i-th character) and
the clock (`clock`, one reading per data line, or `now`). A file being read
is an `ImportSource`:

- `Unopened`: the content resolver gave no stream;
- `Opened(lines, failure)`: the lines read, plus an optional failure of the
  read that follows them.

Files, one module each:

- `wrappers.dfy` (module `Wrappers`): `Option` for Kotlin's `T?`, `Result` for a call that may throw
- `text.dfy` (module `Text`): the Kotlin string functions the app uses
- `lines.dfy` (module `Lines`): `readLine` up to end of input, `appendLine`
- `char_classes.dfy` (module `CharClasses`): `isUpperCase`, `isLowerCase`, `isDigit`, `isLetterOrDigit` (ASCII)
- `domain_model.dfy` (module `DomainModel`): `Password`, `GeneratedPasswordResult`, `ImportResult`, `PasswordGenerationSettings`, `toSymbolsString`
- `password_mapper.dfy` (module `PasswordMapper`): `PasswordEntity`, `toDomain`, `toEntity`
- `import_passwords.dfy` (module `ImportPasswords`): `ImportPasswords.invoke`, `determineSymbolsFromValue`
- `generate_password.dfy` (module `GeneratePassword`): `GeneratePassword.invoke`, `buildCharset`, `calculateEntropy`
- `csv_export.dfy` (module `CsvExport`): the CSV writer of `exportPasswordsToFile`
- `csv_round_trip.dfy` (module `CsvRoundTrip`): what the importer makes of an exported file
- `password_dao.dfy` (module `PasswordDao`): the table, the DAO operations, the repository's mapping
- `save_password.dfy` (module `SavePassword`): `SavePassword.invoke`
- `generate_view_model.dfy` (module `GenerateViewModel`): `GeneratePasswordViewModel`
- `passwords_view_model.dfy` (module `PasswordsViewModel`): `PasswordsViewModel`

## Model

Source paths are relative to the repository root.

| member | source | states |
|---|---|---|
| Text.Trim | app/src/main/java/com/blackfoxis/telros/domain/usecase/ImportPasswords.kt:57 | the result is a slice of the field with only whitespace before and after it; it is empty exactly when the field is blank, has no whitespace at either end, and is the field itself when its ends are not whitespace |
| Text.RemoveSurrounding | app/src/main/java/com/blackfoxis/telros/domain/usecase/ImportPasswords.kt:57 | one `"` comes off each end only when both ends carry one and they do not overlap (so a lone `"` stays and `""` becomes empty); otherwise the field is unchanged |
| Text.Split | app/src/main/java/com/blackfoxis/telros/domain/usecase/ImportPasswords.kt:57 | a line splits into one more piece than it has commas, and no piece holds a comma |
| Text.SplitJoin | app/src/main/java/com/blackfoxis/telros/domain/usecase/ImportPasswords.kt:42 | splitting a joined line on the separator gives back the pieces, when no piece holds the separator |
| Text.JoinSplit | app/src/main/java/com/blackfoxis/telros/domain/usecase/ImportPasswords.kt:57 | joining a line's comma-split pieces with the comma gives back the line, for every line |
| Text.SubstringBeforeLast | app/src/main/java/com/blackfoxis/telros/domain/usecase/ImportPasswords.kt:25 | the text before the last `.`, which holds everything up to that `.`; the whole name when it has no `.` |
| Text.LowercaseAscii | app/src/main/java/com/blackfoxis/telros/presentation/screens/dictionary/PasswordsViewModel.kt:231 | same length, every upper-case ASCII letter becomes its own lower-case letter (32 code points up), no upper-case ASCII letter left, every other character kept |
| Text.ReplaceChar | app/src/main/java/com/blackfoxis/telros/presentation/screens/dictionary/PasswordsViewModel.kt:231 | same length, every space becomes `_`, no space left, every other character kept |
| Text.StrLessIrreflexive | app/src/main/java/com/blackfoxis/telros/data/local/PasswordDao.kt:28 | the text order used for `ORDER BY folderName` never puts a name before itself |
| Text.StrLessTransitive | app/src/main/java/com/blackfoxis/telros/data/local/PasswordDao.kt:28 | that order is transitive |
| Text.StrLessTotal | app/src/main/java/com/blackfoxis/telros/data/local/PasswordDao.kt:28 | any two different names are ordered one way or the other |
| Lines.ReadWriteLines | app/src/main/java/com/blackfoxis/telros/presentation/screens/dictionary/PasswordsViewModel.kt:276-285 | reading back what `appendLine` wrote gives the lines written, when none holds a line break |
| Lines.ReadLines | app/src/main/java/com/blackfoxis/telros/domain/usecase/ImportPasswords.kt:29-30 | `readLine` called until it returns null, as the importer does here and at lines 53, 62, 70 and 94: a final line without a terminator still counts; no line returned holds a line break; no text gives no lines and every other text at least one; a text without line breaks is one line; there are never more lines than characters |
| Lines.ReadLinesTerminated | app/src/main/java/com/blackfoxis/telros/domain/usecase/ImportPasswords.kt:29-30 | `\n`, `\r` not followed by `\n`, and `\r\n` each end exactly one line, and the rest of the input is read on its own |
| Lines.WriteLinesFraming | app/src/main/java/com/blackfoxis/telros/presentation/screens/dictionary/PasswordsViewModel.kt:276-285 | the text `appendLine` writes is empty only for no lines; otherwise it starts with the first line and its line break and ends with a line break |
| DomainModel.ToSymbolsString | app/src/main/java/com/blackfoxis/telros/domain/model/PasswordGenerationSettings.kt:11-16 | the tag is a subsequence of "ULDS" of at most 4 letters; it holds U, L, D, S exactly when the matching class is on; it is empty exactly when every class is off |
| DomainModel.ToSymbolsStringIgnoresLength | app/src/main/java/com/blackfoxis/telros/domain/model/PasswordGenerationSettings.kt:11-16 | the tag does not depend on the length |
| DomainModel.DefaultSettingsTag | app/src/main/java/com/blackfoxis/telros/domain/model/PasswordGenerationSettings.kt:3-9 | the default settings ask for 12 characters and give the tag "ULDS" |
| PasswordMapper.DomainRoundTrip | app/src/main/java/com/blackfoxis/telros/data/local/mapper/PasswordMapper.kt:7-27 | converting a record to a row and back gives the record |
| PasswordMapper.EntityRoundTrip | app/src/main/java/com/blackfoxis/telros/data/local/mapper/PasswordMapper.kt:7-27 | converting a row to a record and back gives the row |
| PasswordMapper.MapperKeepsIdAndFolder | app/src/main/java/com/blackfoxis/telros/data/local/mapper/PasswordMapper.kt:9-24 | the id is kept, 0 included, and a missing folder stays missing rather than becoming "" |
| PasswordMapper.ToDomain | app/src/main/java/com/blackfoxis/telros/data/local/mapper/PasswordMapper.kt:7-16 | every column goes to the record field of the same name, the key and a missing folder included |
| PasswordMapper.ToEntity | app/src/main/java/com/blackfoxis/telros/data/local/mapper/PasswordMapper.kt:18-27 | the row loses nothing: converting it back gives the record |
| ImportPasswords.FolderNameFromFile | app/src/main/java/com/blackfoxis/telros/domain/usecase/ImportPasswords.kt:25 | no name gives no folder; a folder is never blank and is already trimmed; a name without `.` is used whole, trimmed |
| ImportPasswords.FolderNameDropsLastExtension | app/src/main/java/com/blackfoxis/telros/domain/usecase/ImportPasswords.kt:25 | only the last extension is dropped, then the stem is trimmed, and a blank stem gives no folder |
| ImportPasswords.NormalizeMeaning | app/src/main/java/com/blackfoxis/telros/domain/usecase/ImportPasswords.kt:57 | a field is trimmed and then loses one pair of enclosing `"` when its trimmed text starts and ends with one and is at least two long; otherwise it is the trimmed text; a blank field becomes empty and nothing grows |
| ImportPasswords.ParseFields | app/src/main/java/com/blackfoxis/telros/domain/usecase/ImportPasswords.kt:57 | one field per comma-separated piece, each trimmed and stripped of one surrounding pair of `"` |
| ImportPasswords.ParsedFieldsHaveNoComma | app/src/main/java/com/blackfoxis/telros/domain/usecase/ImportPasswords.kt:57 | no parsed field holds a comma |
| ImportPasswords.IndexOfKeyword | app/src/main/java/com/blackfoxis/telros/domain/usecase/ImportPasswords.kt:43-45 | the first field equal to the keyword ignoring case; none exactly when no field is |
| ImportPasswords.FirstMatchUnique | app/src/main/java/com/blackfoxis/telros/domain/usecase/ImportPasswords.kt:43-45 | the first matching field is determined uniquely, so the column found is the one `indexOfFirst` returns |
| ImportPasswords.ResolveColumns | app/src/main/java/com/blackfoxis/telros/domain/usecase/ImportPasswords.kt:42-51 | the header is refused exactly when no field equals "Value" ignoring case; otherwise the value, entropy and symbols columns are the first fields equal to "Value", "Entropy" and "Symbols" ignoring case, and entropy or symbols is absent exactly when no field names it |
| ImportPasswords.FieldAt | app/src/main/java/com/blackfoxis/telros/domain/usecase/ImportPasswords.kt:74-77 | a field is read only when the column exists and the line is long enough |
| ImportPasswords.DeriveSymbols | app/src/main/java/com/blackfoxis/telros/domain/usecase/ImportPasswords.kt:122-133 | the tag is a subsequence of "ULDS"; U, L, D appear exactly when some character is upper case, lower case, a digit; S exactly when some character is neither letter nor digit |
| ImportPasswords.ProcessRow | app/src/main/java/com/blackfoxis/telros/domain/usecase/ImportPasswords.kt:57-89 | a line is accepted exactly when its value field exists and is not blank; a short line and a blank value are rejected with their own messages; an accepted record has id 0, the parsed value, the file's folder, the clock reading, the parsed entropy or 0.0, and the Symbols field unless that is missing or blank, in which case the derived tag |
| ImportPasswords.ProcessRows | app/src/main/java/com/blackfoxis/telros/domain/usecase/ImportPasswords.kt:53-95 | every data line adds to exactly one of the two counts; one record per success and one message per error |
| ImportPasswords.RowsProcessedInFileOrder | app/src/main/java/com/blackfoxis/telros/domain/usecase/ImportPasswords.kt:53-95 | the records inserted and the messages added are the accepted and rejected lines' results, in file order |
| ImportPasswords.FoldInOrder | app/src/main/java/com/blackfoxis/telros/domain/usecase/ImportPasswords.kt:53-95 | recording outcomes one by one inserts exactly the accepted records and collects exactly the rejection messages, each in order |
| ImportPasswords.Summary | app/src/main/java/com/blackfoxis/telros/domain/usecase/ImportPasswords.kt:109-115 | the status line for each combination of counts, and none when both are zero |
| ImportPasswords.AfterRows | app/src/main/java/com/blackfoxis/telros/domain/usecase/ImportPasswords.kt:58-103 | a read failure after the last line keeps every success and the messages so far, in front; it adds two errors exactly when the last line was rejected, then the first added message is that line's parse error with the failure's text, and in every case the read-error message comes last |
| ImportPasswords.Import | app/src/main/java/com/blackfoxis/telros/domain/usecase/ImportPasswords.kt:20-118 | the folder comes from the file name; the success count is the number of records inserted, each unnumbered, non-blank, comma-free and in that folder. An unopened file gives (0, 1) with the failure summary and the cannot-open message; an empty file, a header without "value" and a header without a Value column each give (0, 1) with their one message and no summary; none of these inserts anything. A file read to the end with a valid header counts every data line once, puts the summary before the rejection messages, and inserts the accepted lines' records in file order. A read failure before the header gives (0, 1) with the failure summary and the read-error message and inserts nothing |
| ImportPasswords.ImportReadFailure | app/src/main/java/com/blackfoxis/telros/domain/usecase/ImportPasswords.kt:53-118 | a valid header followed by a read failure: the accepted lines' records are inserted in file order, every line read is counted once and the failure once more (twice after a rejected last line), and the messages are the summary, the rejection messages in order, the extra parse error when the last line was rejected, then the read error |
| ImportPasswords.FinishAfterRows | app/src/main/java/com/blackfoxis/telros/domain/usecase/ImportPasswords.kt:101-115 | the summary goes in front of the loop's messages and what the failure added after them |
| ImportPasswords.AcceptedAreWellFormed | app/src/main/java/com/blackfoxis/telros/domain/usecase/ImportPasswords.kt:66-88 | every accepted record is unnumbered, non-blank, comma-free and in the file's folder |
| GeneratePassword.UppercaseFacts | app/src/main/java/com/blackfoxis/telros/domain/usecase/GeneratePassword.kt:26 | 26 distinct upper-case letters |
| GeneratePassword.LowercaseFacts | app/src/main/java/com/blackfoxis/telros/domain/usecase/GeneratePassword.kt:27 | 26 distinct lower-case letters |
| GeneratePassword.DigitFacts | app/src/main/java/com/blackfoxis/telros/domain/usecase/GeneratePassword.kt:28 | 10 distinct digits |
| GeneratePassword.SymbolFacts | app/src/main/java/com/blackfoxis/telros/domain/usecase/GeneratePassword.kt:29 | 28 distinct non-alphanumeric symbols, `,` among them and `"` not |
| GeneratePassword.BuildCharset | app/src/main/java/com/blackfoxis/telros/domain/usecase/GeneratePassword.kt:24-31 | the alphabet holds exactly the characters of the enabled classes, without duplicates; its size is the sum of the enabled classes' sizes, at most 90; it is empty exactly when the tag is; it never holds `"` and holds `,` exactly when symbols are on |
| GeneratePassword.CalculateEntropy | app/src/main/java/com/blackfoxis/telros/domain/usecase/GeneratePassword.kt:33-36 | 0 for an alphabet of at most one character or an empty password |
| GeneratePassword.EntropyDependsOnLengthAndSize | app/src/main/java/com/blackfoxis/telros/domain/usecase/GeneratePassword.kt:33-36 | two passwords of the same length get the same entropy |
| GeneratePassword.Generate | app/src/main/java/com/blackfoxis/telros/domain/usecase/GeneratePassword.kt:10-22 | an empty alphabet or a non-positive length gives ("", 0.0, 0); otherwise the password has the requested length, every character is in the alphabet, and the size reported is the alphabet's; never a `"`, and a `,` only with symbols on |
| GeneratePassword.Draw | app/src/main/java/com/blackfoxis/telros/domain/usecase/GeneratePassword.kt:16-18 | each drawn character comes from the alphabet, and is the character at the drawn index when that index is in range |
| GeneratePassword.ShapeIndependentOfDraws | app/src/main/java/com/blackfoxis/telros/domain/usecase/GeneratePassword.kt:16-21 | length, alphabet size and entropy are the same whatever the draws |
| GeneratePassword.EveryPasswordReachable | app/src/main/java/com/blackfoxis/telros/domain/usecase/GeneratePassword.kt:16-18 | every password of the requested length over the alphabet is produced by some draws |
| GeneratePassword.CommaReachable | app/src/main/java/com/blackfoxis/telros/domain/usecase/GeneratePassword.kt:29 | with symbols on, some draws give a password containing `,` |
| GeneratePassword.CharsetIsVisibleAscii | app/src/main/java/com/blackfoxis/telros/domain/usecase/GeneratePassword.kt:26-29 | every alphabet character lies in '!'..'~' |
| GeneratePassword.GeneratedIsVisible | app/src/main/java/com/blackfoxis/telros/domain/usecase/GeneratePassword.kt:16-18 | a non-empty generated password is not blank and starts with a visible ASCII character |
| CsvExport.EscapeQuotes | app/src/main/java/com/blackfoxis/telros/presentation/screens/dictionary/PasswordsViewModel.kt:279 | the text grows by one character per `"`, and text without `"` is unchanged; where the doubled quotes go is stated by CsvExport.EscapeConcat, CsvExport.EscapeOneChar and CsvExport.UnescapeEscape |
| CsvExport.EscapeConcat | app/src/main/java/com/blackfoxis/telros/presentation/screens/dictionary/PasswordsViewModel.kt:279 | escaping works character by character: escaping a concatenation concatenates the escaped parts |
| CsvExport.EscapeOneChar | app/src/main/java/com/blackfoxis/telros/presentation/screens/dictionary/PasswordsViewModel.kt:279 | a lone `"` becomes `""`; any other character stays as it is |
| CsvExport.UnescapeEscape | app/src/main/java/com/blackfoxis/telros/presentation/screens/dictionary/PasswordsViewModel.kt:279 | collapsing every `""` back to `"` recovers the original text, so escaping loses nothing |
| CsvExport.Quote | app/src/main/java/com/blackfoxis/telros/presentation/screens/dictionary/PasswordsViewModel.kt:279-282 | the quoted field starts and ends with `"`, has length `|s| + 2 + count(s, '"')`, and holds the escaped text in between |
| CsvExport.QuoteReadsBack | app/src/main/java/com/blackfoxis/telros/presentation/screens/dictionary/PasswordsViewModel.kt:279-282 | a quoted field has a `"` at each end and, between them, text that unescapes to the original |
| CsvExport.ExportFieldsReadBack | app/src/main/java/com/blackfoxis/telros/presentation/screens/dictionary/PasswordsViewModel.kt:279-283 | the five fields of a record's line: value, symbols and folder quoted so that each reads back as written (no folder as `""`), the entropy as `Double.toString` prints it, the creation time in decimal |
| CsvExport.ExportLines | app/src/main/java/com/blackfoxis/telros/presentation/screens/dictionary/PasswordsViewModel.kt:277-285 | the header first, then exactly one line per record, in list order |
| CsvExport.ExportTextFraming | app/src/main/java/com/blackfoxis/telros/presentation/screens/dictionary/PasswordsViewModel.kt:276-285 | the written text opens with the header line and its line break and ends with a line break |
| CsvRoundTrip.NormalizeQuote | app/src/main/java/com/blackfoxis/telros/domain/usecase/ImportPasswords.kt:57 | the importer's normalisation of a quoted field gives the escaped text: the quotes go, the doubling stays |
| CsvRoundTrip.QuotedFieldRoundTrip | app/src/main/java/com/blackfoxis/telros/presentation/screens/dictionary/PasswordsViewModel.kt:279 | a quoted field reads back as itself exactly when it holds no `"` |
| CsvRoundTrip.EscapeKeepsBlankness | app/src/main/java/com/blackfoxis/telros/presentation/screens/dictionary/PasswordsViewModel.kt:279 | escaping cannot make a field blank or non-blank |
| CsvExport.EscapeCounts | app/src/main/java/com/blackfoxis/telros/presentation/screens/dictionary/PasswordsViewModel.kt:279 | escaping exactly doubles the number of `"` and keeps the number of every other character |
| CsvRoundTrip.ExportLineIsOneLine | app/src/main/java/com/blackfoxis/telros/presentation/screens/dictionary/PasswordsViewModel.kt:279-284 | a record whose fields have no line break is written as one line |
| CsvRoundTrip.ExportLineSplits | app/src/main/java/com/blackfoxis/telros/presentation/screens/dictionary/PasswordsViewModel.kt:284 | the line of a record with no `,` in its fields splits on `,` into exactly its five fields |
| CsvRoundTrip.ParseJoined | app/src/main/java/com/blackfoxis/telros/domain/usecase/ImportPasswords.kt:57 | a line joined from comma-free fields parses into those fields, each normalised |
| CsvRoundTrip.ParseExportedLine | app/src/main/java/com/blackfoxis/telros/presentation/screens/dictionary/PasswordsViewModel.kt:279-284 | the importer reads an exported line as five fields: escaped value, entropy text, escaped symbols, escaped folder, creation time |
| CsvRoundTrip.HeaderResolves | app/src/main/java/com/blackfoxis/telros/presentation/screens/dictionary/PasswordsViewModel.kt:277 | the exported header is one line, names "Value", and resolves to value, entropy and symbols in columns 0, 1, 2 |
| CsvRoundTrip.Reimported | app/src/main/java/com/blackfoxis/telros/domain/usecase/ImportPasswords.kt:57-87 | the record an exported line becomes: unnumbered, in the import's folder, stamped at import time; its value is the original exactly when that has no `"`; non-blank quote-free symbols survive and blank symbols are derived again |
| CsvRoundTrip.RowRoundTrip | app/src/main/java/com/blackfoxis/telros/domain/usecase/ImportPasswords.kt:57-89 | an exported line is rejected when its value is blank and otherwise accepted as the reimported record |
| CsvRoundTrip.ExportedTextReadsBack | app/src/main/java/com/blackfoxis/telros/presentation/screens/dictionary/PasswordsViewModel.kt:276-285 | the exported text is read back as exactly the lines written |
| CsvRoundTrip.ExportedRowsAccepted | app/src/main/java/com/blackfoxis/telros/domain/usecase/ImportPasswords.kt:53-89 | every data line of an export of non-blank, comma-free records is accepted as that record's reimported form, one outcome per record |
| CsvRoundTrip.ExportImportRoundTrip | app/src/main/java/com/blackfoxis/telros/presentation/screens/dictionary/PasswordsViewModel.kt:277-285 | importing an exported file of comma-free, non-blank records gives one reimported record per exported one, in order, no error and the success summary |
| CsvRoundTrip.CleanImport | app/src/main/java/com/blackfoxis/telros/domain/usecase/ImportPasswords.kt:53-118 | a file with a valid header whose every data line is accepted imports every line, with no error and the success summary |
| CsvRoundTrip.PlainRecordSurvives | app/src/main/java/com/blackfoxis/telros/presentation/screens/dictionary/PasswordsViewModel.kt:279-284 | a record with plain text fields, non-blank symbols and an entropy text that parses back comes back equal but for id, folder and creation time |
| CsvRoundTrip.QuoteNotUndone | app/src/main/java/com/blackfoxis/telros/domain/usecase/ImportPasswords.kt:57 | an illustration of QuotedFieldRoundTrip and Reimported: the value `a"b` comes back as `a""b` |
| CsvRoundTrip.CommaValueLost | app/src/main/java/com/blackfoxis/telros/domain/usecase/ImportPasswords.kt:57 | a value with `,` never comes back: the line splits inside it |
| CsvRoundTrip.GeneratedPasswordMayNotSurvive | app/src/main/java/com/blackfoxis/telros/domain/usecase/GeneratePassword.kt:29 | with symbols on, the generator can produce a password that does not survive export and import |
| PasswordDao.NextId | app/src/main/java/com/blackfoxis/telros/data/local/PasswordDao.kt:13-14 | a fresh key is above the table's last key and every row's key |
| PasswordDao.AssignedId | app/src/main/java/com/blackfoxis/telros/data/local/PasswordDao.kt:13-14 | a non-zero id is kept; id 0 gets a key no row has |
| PasswordDao.Select | app/src/main/java/com/blackfoxis/telros/data/local/PasswordDao.kt:19-20 | a kept row keeps its multiplicity, a dropped one disappears |
| PasswordDao.Insert | app/src/main/java/com/blackfoxis/telros/data/local/PasswordDao.kt:13-14 | the record is stored under its assigned key, the table's last key never goes down, unique keys stay unique, and an unnumbered record is appended after the existing rows |
| PasswordDao.InsertReplacesKey | app/src/main/java/com/blackfoxis/telros/data/local/PasswordDao.kt:13-14 | the inserted row is the only one under its key, and a row under another key is stored after the insert exactly when it was before |
| PasswordDao.Delete | app/src/main/java/com/blackfoxis/telros/data/local/PasswordDao.kt:16-17 | exactly the row with the record's key goes |
| PasswordDao.DeleteByFolder | app/src/main/java/com/blackfoxis/telros/data/local/PasswordDao.kt:19-20 | exactly the rows filed under the name go; rows with no folder or another folder keep their multiplicity |
| PasswordDao.SortNewestFirst | app/src/main/java/com/blackfoxis/telros/data/local/PasswordDao.kt:22-23 | a permutation of the rows ordered by creation time, newest first |
| PasswordDao.All | app/src/main/java/com/blackfoxis/telros/data/local/PasswordDao.kt:22-23 | every row, newest first |
| PasswordDao.UnfiledRows | app/src/main/java/com/blackfoxis/telros/data/local/PasswordDao.kt:25-26 | exactly the rows with no folder or folder "", newest first |
| PasswordDao.InsertName | app/src/main/java/com/blackfoxis/telros/data/local/PasswordDao.kt:28-29 | adding a name to an ascending duplicate-free list keeps it so |
| PasswordDao.Folders | app/src/main/java/com/blackfoxis/telros/data/local/PasswordDao.kt:28-29 | the distinct non-empty folder names, strictly ascending: a name is listed exactly when some row is filed under it |
| PasswordDao.ByFolder | app/src/main/java/com/blackfoxis/telros/data/local/PasswordDao.kt:31-32 | exactly the rows of that folder, newest first |
| PasswordDao.UnfiledOrInListedFolder | app/src/main/java/com/blackfoxis/telros/data/local/PasswordDao.kt:25-29 | every row is either listed as unfiled or filed under a listed folder, never both |
| PasswordDao.DeletedFolderIsGone | app/src/main/java/com/blackfoxis/telros/data/local/PasswordDao.kt:19-32 | after deleting a folder it is no longer listed and has no rows |
| PasswordDao.DeleteByFolderKeepsOtherRows | app/src/main/java/com/blackfoxis/telros/data/local/PasswordDao.kt:19-32 | deleting a folder does not change another folder's listing |
| PasswordDao.DeleteByFolderKeepsOtherFolders | app/src/main/java/com/blackfoxis/telros/data/local/PasswordDao.kt:19-29 | deleting a folder does not change whether another folder is listed |
| PasswordDao.InsertedRowIsListed | app/src/main/java/com/blackfoxis/telros/data/local/PasswordDao.kt:13-32 | an inserted row shows up in its folder's listing, with the folder listed, or among the unfiled rows |
| PasswordDao.InsertUnnumbered | app/src/main/java/com/blackfoxis/telros/data/local/PasswordDao.kt:13-14 | inserting an unnumbered record keeps every row in front, in order, and stores the record in one new last row |
| PasswordDao.InsertAll | app/src/main/java/com/blackfoxis/telros/domain/usecase/ImportPasswords.kt:88 | inserting unnumbered records one after another keeps the earlier rows in front, in order, and adds one row per record; unique keys stay unique |
| PasswordDao.InsertAllStoresEach | app/src/main/java/com/blackfoxis/telros/domain/usecase/ImportPasswords.kt:88 | the rows an unnumbered batch adds hold its records, one row per record, in the batch's order |
| PasswordDao.RowsOfAt | app/src/main/java/com/blackfoxis/telros/domain/usecase/ImportPasswords.kt:88 | when rows hold a batch's records in order, row k holds record k |
| PasswordDao.ToDomainAll | app/src/main/java/com/blackfoxis/telros/data/repository/PasswordRepositoryImpl.kt:33-42 | each listed row is converted to a record, in order |
| PasswordDao.InsertPassword | app/src/main/java/com/blackfoxis/telros/data/repository/PasswordRepositoryImpl.kt:17-19 | the record's row is stored under its assigned key, unique keys stay unique, and an unnumbered record is appended after the existing rows |
| PasswordDao.DeletePassword | app/src/main/java/com/blackfoxis/telros/data/repository/PasswordRepositoryImpl.kt:21-23 | exactly the rows with the record's key go, and unique keys stay unique |
| PasswordDao.PasswordsWithoutFolder | app/src/main/java/com/blackfoxis/telros/data/repository/PasswordRepositoryImpl.kt:33-37 | the records of exactly the rows with no folder or folder "": each listed one is such a row, each such row is listed, newest first |
| PasswordDao.PasswordsByFolder | app/src/main/java/com/blackfoxis/telros/data/repository/PasswordRepositoryImpl.kt:39-43 | the records of exactly the rows filed under the name: each listed one is such a row, each such row is listed, newest first |
| PasswordDao.ListedExactly | app/src/main/java/com/blackfoxis/telros/data/local/PasswordDao.kt:25-32 | a newest-first listing of the rows a filter keeps, converted to records, lists exactly those rows' records, newest first |
| SavePassword.Save | app/src/main/java/com/blackfoxis/telros/domain/usecase/SavePassword.kt:10-15 | a blank value fails with "Password value cannot be blank." and the store is untouched; any other record is stored unchanged but for its key, and an unnumbered one adds exactly one row |
| SavePassword.OnlyValueIsValidated | app/src/main/java/com/blackfoxis/telros/domain/usecase/SavePassword.kt:10-15 | folder, entropy, symbols and creation time never decide whether a save succeeds |
| SavePassword.SavedRecordIsListed | app/src/main/java/com/blackfoxis/telros/domain/usecase/SavePassword.kt:14 | a saved record reads back from its folder's list, or from the unfiled list |
| GenerateViewModel.UpdateOptions | app/src/main/java/com/blackfoxis/telros/presentation/screens/generate/GeneratePasswordViewModel.kt:102-104 | the settings are replaced and no other field changes |
| GenerateViewModel.FolderNameChanged | app/src/main/java/com/blackfoxis/telros/presentation/screens/generate/GeneratePasswordViewModel.kt:116-121 | the input becomes the name; the name is selected exactly when it is a known folder, and nothing is selected otherwise; nothing else changes |
| GenerateViewModel.FolderSelected | app/src/main/java/com/blackfoxis/telros/presentation/screens/generate/GeneratePasswordViewModel.kt:123-128 | the selection becomes the argument; the input becomes a chosen folder's name and is kept when the choice is cleared |
| GenerateViewModel.GenerateNewPassword | app/src/main/java/com/blackfoxis/telros/presentation/screens/generate/GeneratePasswordViewModel.kt:130-146 | the screen shows a password of the requested length over the settings' alphabet with that alphabet's size, or the empty sentinel; generation ends; nothing else changes |
| GenerateViewModel.SaveFolder | app/src/main/java/com/blackfoxis/telros/presentation/screens/generate/GeneratePasswordViewModel.kt:176 | the selection if any; else the trimmed input when it is not blank; else no folder |
| GenerateViewModel.RecordToSave | app/src/main/java/com/blackfoxis/telros/presentation/screens/generate/GeneratePasswordViewModel.kt:176-184 | the record a save stores is unnumbered, stamped with the save time, carries the password and entropy on screen and the tag of the settings in force, and goes to the selected folder or else the trimmed, non-blank input |
| GenerateViewModel.GuardAfterGenerate | app/src/main/java/com/blackfoxis/telros/presentation/screens/generate/GeneratePasswordViewModel.kt:169-172 | after generating, the "nothing to save" guard refuses exactly when the settings give an empty alphabet or a non-positive length |
| GenerateViewModel.SaveGeneratedPassword | app/src/main/java/com/blackfoxis/telros/presentation/screens/generate/GeneratePasswordViewModel.kt:167-203 | an empty or "Ошибка…" value only sets the refusal message and stores nothing; otherwise one row is stored with the shown value and entropy, the tag of the current settings, the save folder and the clock reading, and the password and folder fields are cleared; a blank value reports the save error and stores nothing |
| GenerateViewModel.Report | app/src/main/java/com/blackfoxis/telros/presentation/screens/generate/GeneratePasswordViewModel.kt:221-224 | the messages joined by "\n", flagged as an error exactly when there are errors and no successes |
| GenerateViewModel.ImportFileSelected | app/src/main/java/com/blackfoxis/telros/presentation/screens/generate/GeneratePasswordViewModel.kt:212-229 | the importer's report is shown, its records are added after the existing rows, which stay in front in order, and the new rows hold the imported records one by one, in import order; the folder list is reloaded from the store when something was imported or the file named a folder |
| GenerateViewModel.FoldersLoaded | app/src/main/java/com/blackfoxis/telros/presentation/screens/generate/GeneratePasswordViewModel.kt:94-96 | the folder list is replaced and loading ends |
| GenerateViewModel.FoldersFailed | app/src/main/java/com/blackfoxis/telros/presentation/screens/generate/GeneratePasswordViewModel.kt:90-93 | only the loading flag drops |
| GenerateViewModel.ClearSaveMessage | app/src/main/java/com/blackfoxis/telros/presentation/screens/generate/GeneratePasswordViewModel.kt:111 | only the save message is cleared |
| GenerateViewModel.ClearImportResult | app/src/main/java/com/blackfoxis/telros/presentation/screens/generate/GeneratePasswordViewModel.kt:112 | only the import report is cleared |
| GenerateViewModel.SelectionMatchesInputKept | app/src/main/java/com/blackfoxis/telros/presentation/screens/generate/GeneratePasswordViewModel.kt:100-128 | no handler breaks "a selected folder is the text in the folder field" |
| GenerateViewModel.SelectionMatchesInputKeptBySave | app/src/main/java/com/blackfoxis/telros/presentation/screens/generate/GeneratePasswordViewModel.kt:167-203 | saving keeps that agreement |
| GenerateViewModel.SelectionMatchesInputKeptByImport | app/src/main/java/com/blackfoxis/telros/presentation/screens/generate/GeneratePasswordViewModel.kt:212-229 | importing keeps that agreement |
| GenerateViewModel.SelectedFolderIsUsedAsIs | app/src/main/java/com/blackfoxis/telros/presentation/screens/generate/GeneratePasswordViewModel.kt:116-128 | a folder picked from the list, or typed exactly, is saved to under its own name, untrimmed |
| GenerateViewModel.TypedFolderIsTrimmed | app/src/main/java/com/blackfoxis/telros/presentation/screens/generate/GeneratePasswordViewModel.kt:176 | a typed name that is no known folder is saved to trimmed, and a blank one means no folder |
| GenerateViewModel.SymbolsFollowSettingsAtSaveTime | app/src/main/java/com/blackfoxis/telros/presentation/screens/generate/GeneratePasswordViewModel.kt:178-184 | changing the settings between generating and saving stores the new settings' tag with characters drawn from the old alphabet |
| GenerateViewModel.GeneratedPasswordIsStored | app/src/main/java/com/blackfoxis/telros/presentation/screens/generate/GeneratePasswordViewModel.kt:169-188 | a freshly generated password always passes the guard and adds one row |
| GenerateViewModel.ErrorReportStoresNothing | app/src/main/java/com/blackfoxis/telros/presentation/screens/generate/GeneratePasswordViewModel.kt:221-224 | an import reported as an error stored nothing |
| GenerateViewModel.ImportedFolderIsOffered | app/src/main/java/com/blackfoxis/telros/presentation/screens/generate/GeneratePasswordViewModel.kt:227-229 | after importing rows into a named folder, the folder list offers that folder |
| GenerateViewModel.UnopenedFileIsAnError | app/src/main/java/com/blackfoxis/telros/presentation/screens/generate/GeneratePasswordViewModel.kt:216-224 | a file that cannot be opened is reported as an error, with the summary line and the reason, and changes nothing |
| PasswordsViewModel.FolderClicked | app/src/main/java/com/blackfoxis/telros/presentation/screens/dictionary/PasswordsViewModel.kt:147-168 | clicking the open folder closes it (no folder, empty list, not loading, no folder error); clicking another opens it empty and loading; nothing else changes |
| PasswordsViewModel.FolderContentArrived | app/src/main/java/com/blackfoxis/telros/presentation/screens/dictionary/PasswordsViewModel.kt:181-189 | a folder's contents are shown, and loading ends, only while that folder is open |
| PasswordsViewModel.FolderContentFailed | app/src/main/java/com/blackfoxis/telros/presentation/screens/dictionary/PasswordsViewModel.kt:170-180 | a folder's load error is shown, and loading ends, only while that folder is open |
| PasswordsViewModel.ListsArrived | app/src/main/java/com/blackfoxis/telros/presentation/screens/dictionary/PasswordsViewModel.kt:91-125 | the new lists are shown and loading ends without error; an open folder that is no longer listed is closed and emptied; a listed one keeps its contents and loading flag; with no folder open the contents are empty; an open folder is always a listed one |
| PasswordsViewModel.ListsFailed | app/src/main/java/com/blackfoxis/telros/presentation/screens/dictionary/PasswordsViewModel.kt:126-128 | the load error is shown and loading ends; nothing else changes |
| PasswordsViewModel.Refresh | app/src/main/java/com/blackfoxis/telros/presentation/screens/dictionary/PasswordsViewModel.kt:92-93 | the lists shown are the store's folder list and unfiled list |
| PasswordsViewModel.DeletePasswordClicked | app/src/main/java/com/blackfoxis/telros/presentation/screens/dictionary/PasswordsViewModel.kt:195-199 | exactly the row with the record's key goes, and the delete error is cleared |
| PasswordsViewModel.DeleteFolderClicked | app/src/main/java/com/blackfoxis/telros/presentation/screens/dictionary/PasswordsViewModel.kt:137 | only the folder awaiting confirmation is set |
| PasswordsViewModel.ConfirmDeleteFolder | app/src/main/java/com/blackfoxis/telros/presentation/screens/dictionary/PasswordsViewModel.kt:206-212 | without a folder awaiting confirmation nothing happens; otherwise exactly that folder's rows go and the dialog closes |
| PasswordsViewModel.CancelDeleteFolder | app/src/main/java/com/blackfoxis/telros/presentation/screens/dictionary/PasswordsViewModel.kt:139 | the dialog closes and the delete error is cleared; nothing else changes |
| PasswordsViewModel.ClearError | app/src/main/java/com/blackfoxis/telros/presentation/screens/dictionary/PasswordsViewModel.kt:142 | all three error texts are cleared and nothing else changes |
| PasswordsViewModel.ClearExportMessage | app/src/main/java/com/blackfoxis/telros/presentation/screens/dictionary/PasswordsViewModel.kt:143 | only the export message is cleared |
| PasswordsViewModel.ExportSelection | app/src/main/java/com/blackfoxis/telros/presentation/screens/dictionary/PasswordsViewModel.kt:229-235 | the open folder's records, else the unfiled records |
| PasswordsViewModel.DefaultFileName | app/src/main/java/com/blackfoxis/telros/presentation/screens/dictionary/PasswordsViewModel.kt:229-235 | "passwords_unfiled.csv" with no folder open; otherwise "passwords_" + the folder name with spaces as underscores, lower-cased, + ".csv", a name without spaces |
| PasswordsViewModel.InitiateExport | app/src/main/java/com/blackfoxis/telros/presentation/screens/dictionary/PasswordsViewModel.kt:224-245 | an empty selection sets "Нет паролей для экспорта." and requests no file; otherwise a CSV file is requested under the default name and the state is unchanged |
| PasswordsViewModel.ExportToFile | app/src/main/java/com/blackfoxis/telros/presentation/screens/dictionary/PasswordsViewModel.kt:250-296 | text reaches the file exactly when the selection is not empty and the stream takes it, and then it is the CSV text of the selection; each other outcome has its own message; exporting always ends |
| PasswordsViewModel.RequestIffSomethingToWrite | app/src/main/java/com/blackfoxis/telros/presentation/screens/dictionary/PasswordsViewModel.kt:237-264 | a file is requested exactly when the export would write to it |
| PasswordsViewModel.ExportWritesOneLinePerRecord | app/src/main/java/com/blackfoxis/telros/presentation/screens/dictionary/PasswordsViewModel.kt:276-285 | an export writes the header and one line per selected record |
| PasswordsViewModel.CollapsedIsEmptyKept | app/src/main/java/com/blackfoxis/telros/presentation/screens/dictionary/PasswordsViewModel.kt:91-193 | no handler leaves contents or a loading flag behind while no folder is open |
| PasswordsViewModel.ClickTwiceTogglesBack | app/src/main/java/com/blackfoxis/telros/presentation/screens/dictionary/PasswordsViewModel.kt:151-168 | a second click on the same folder undoes the first: the folder ends open exactly when it started open |
| PasswordsViewModel.StaleContentIgnored | app/src/main/java/com/blackfoxis/telros/presentation/screens/dictionary/PasswordsViewModel.kt:181-189 | contents arriving for a folder the user has left change nothing |
| PasswordsViewModel.DeletingOpenFolderClosesIt | app/src/main/java/com/blackfoxis/telros/presentation/screens/dictionary/PasswordsViewModel.kt:94-112 | deleting the open folder closes and empties it once the store's new lists arrive |
| PasswordsViewModel.DeletingAnotherFolderKeepsOpenOne | app/src/main/java/com/blackfoxis/telros/presentation/screens/dictionary/PasswordsViewModel.kt:94-112 | deleting another folder leaves the open folder open with its contents |
| PasswordsViewModel.UnfiledExportIsStoreListing | app/src/main/java/com/blackfoxis/telros/presentation/screens/dictionary/PasswordsViewModel.kt:229-285 | with no folder open, the export requests "passwords_unfiled.csv" and writes exactly the store's unfiled records |

## Left out

- Kotlin's `Int` and `Long` widths: ids and creation times are unbounded integers, and SQLite's failure once the largest rowid is in use is not modelled.
- Floating-point numbers: entropy is a `real`, and `log2`, `Double.toString` and `toDoubleOrNull` are uninterpreted parameters.
- `charset.random()` and `System.currentTimeMillis()` are parameters: an oracle of indices and a clock.
- Coroutines, Flows, `viewModelScope`, job cancellation and the action SharedFlows. Each handler is one atomic step, and each flow emission is its own step.
- The folder reload after an import is folded into the import step, which shows the new list at once. In the app, `loadExistingFolders()` starts a new collector. That collector first sets `isLoadingFolders` and then delivers the list. The model skips that intermediate loading state. It also skips the collector started in `init` delivering the same list again, which happens only when rows were inserted.
- Android I/O: the content resolver, `Uri` (a string in the export-error message) and the reader/writer streams. An export that fails part-way may leave part of the text in the file; the model records only that no complete text was written.
- Database exceptions in `insert`, `delete` and `deletePasswordsByFolderName`, and the handlers' `catch` branches for them: the delete errors, `Ошибка сохранения` for anything but the blank-value error, and the per-row `Ошибка парсинга строки` for an insert that throws.
- GenerateViewModel.GenerateNewPassword: the two `catch` branches are not modelled, because the generator never throws.
- GenerateViewModel.ImportFileSelected: its `catch` branches are not modelled, because the importer catches every exception itself.
- `InitiateImport` only emits a UI action, so it is not modelled.
- The order SQLite gives rows with equal `createdAt` is unspecified. PasswordDao.SortNewestFirst fixes one order, a stable sort.
- ImportPasswords.DeriveSymbols: the character classes are ASCII only. Kotlin's `isUpperCase`, `isLowerCase`, `isDigit` and `isLetterOrDigit` also accept non-ASCII letters and digits.
- ImportPasswords.IndexOfKeyword: case-insensitive comparison folds only ASCII letters and U+017F. That is exact for the keywords "Value", "Entropy" and "Symbols", but not for arbitrary text.
- Text.LowercaseAscii: `lowercase()` in the export file name lowers ASCII letters only. Kotlin lowers every cased Unicode letter.
- PasswordsViewModel.DefaultFileName: a folder name in Cyrillic (or any other non-ASCII capitals) keeps its capitals in the suggested file name, because only ASCII letters are lowered; the app would lower them.
- A read failure in the importer is taken to persist: every `readLine` after the lines given fails the same way.
- UI, navigation, dependency injection, the database singleton and the splash screen hold no modelled logic.

## Notes

- `ImportPasswords.invoke` prepends no summary line when it returns early (an empty file, a bad header). An unopened file does go through the summary code, so it yields two messages.
- A rejected last data line followed by a read failure is counted twice. The failing `readLine` runs inside the per-line `try`, so the line is first reported as unparsable; the next `readLine` then ends the import with the read error.
- The exporter doubles quotes inside quoted fields, but the importer neither undoes the doubling nor respects quotes when splitting. So a record comes back unchanged only when its text fields hold neither `,` nor `"`. The generator's symbol alphabet contains `,`. The model states this as behaviour (CsvRoundTrip.QuoteNotUndone, CsvRoundTrip.CommaValueLost, CsvRoundTrip.GeneratedPasswordMayNotSurvive).
