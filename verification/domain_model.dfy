/** The app's domain records: a stored password, the generator's settings and
    result, and the outcome of an import. */
module DomainModel {
  import opened Wrappers

  /** A saved password. `id` 0 marks a record the store has not numbered yet;
      `folderName` `None` means the record belongs to no folder. */
  datatype Password = Password(
    id: int,
    value: string,
    entropy: real,
    symbols: string,
    folderName: Option<string>,
    createdAt: int)

  /** What the generator returns; `charsetSize` is the size of the alphabet drawn from. */
  datatype GeneratedPasswordResult = GeneratedPasswordResult(value: string, entropy: real, charsetSize: int)

  /** The outcome of one import: counts, messages (summary first) and the
      folder the rows went to. */
  datatype ImportResult = ImportResult(
    successCount: nat,
    errorCount: nat,
    messages: seq<string>,
    importedToFolderName: Option<string>)

  /** Which character classes the generator draws from, and how many characters. */
  datatype PasswordGenerationSettings = PasswordGenerationSettings(
    includeUppercase: bool,
    includeLowercase: bool,
    includeDigits: bool,
    includeSymbols: bool,
    length: int)

  /** The settings a fresh generator screen starts with. */
  const DefaultSettings := PasswordGenerationSettings(true, true, true, true, 12)

  /** `a` can be obtained from `b` by deleting characters. */
  predicate IsSubsequence(a: string, b: string)
    decreases |b|
  {
    |a| == 0 || (|b| > 0 && ((a[0] == b[0] && IsSubsequence(a[1..], b[1..])) || IsSubsequence(a, b[1..])))
  }

  /** The "ULDS" class tag: one flag letter per character class present, in
      the fixed order upper, lower, digit, symbol. */
  function ClassTag(upper: bool, lower: bool, digit: bool, symbol: bool): (r: string)
    ensures IsSubsequence(r, "ULDS")
    ensures ('U' in r <==> upper) && ('L' in r <==> lower) && ('D' in r <==> digit) && ('S' in r <==> symbol)
    ensures |r| == (if upper then 1 else 0) + (if lower then 1 else 0) + (if digit then 1 else 0) + (if symbol then 1 else 0)
  {
    var r := Flag(upper, 'U') + (Flag(lower, 'L') + (Flag(digit, 'D') + Flag(symbol, 'S')));
    assert IsSubsequence(r, "ULDS") by {
      FlagInOrder(symbol, 'S', [], []);
      FlagInOrder(digit, 'D', Flag(symbol, 'S'), "S");
      FlagInOrder(lower, 'L', Flag(digit, 'D') + Flag(symbol, 'S'), "DS");
      FlagInOrder(upper, 'U', Flag(lower, 'L') + (Flag(digit, 'D') + Flag(symbol, 'S')), "LDS");
    }
    r
  }

  /** The letter `c` when `b` holds, nothing otherwise. */
  function Flag(b: bool, c: char): (r: string)
    ensures c in r <==> b
    ensures |r| == if b then 1 else 0
  {
    if b then [c] else []
  }

  lemma FlagInOrder(b: bool, c: char, rest: string, order: string)
    requires IsSubsequence(rest, order)
    ensures IsSubsequence(Flag(b, c) + rest, [c] + order)
  {
    var r := Flag(b, c) + rest;
    if b {
      assert r[0] == c && r[1..] == rest;
    } else {
      assert r == rest;
      assert ([c] + order)[1..] == order;
    }
  }

  /** `PasswordGenerationSettings.toSymbolsString()`: the tag of the enabled classes. */
  function ToSymbolsString(settings: PasswordGenerationSettings): (r: string)
    ensures IsSubsequence(r, "ULDS") && |r| <= 4
    ensures 'U' in r <==> settings.includeUppercase
    ensures 'L' in r <==> settings.includeLowercase
    ensures 'D' in r <==> settings.includeDigits
    ensures 'S' in r <==> settings.includeSymbols
    ensures r == [] <==> !(settings.includeUppercase || settings.includeLowercase || settings.includeDigits || settings.includeSymbols)
  {
    ClassTag(settings.includeUppercase, settings.includeLowercase, settings.includeDigits, settings.includeSymbols)
  }

  /** The tag does not depend on the requested length. */
  lemma ToSymbolsStringIgnoresLength(settings: PasswordGenerationSettings, length: int)
    ensures ToSymbolsString(settings.(length := length)) == ToSymbolsString(settings)
  {
  }

  /** The default settings enable every class and ask for twelve characters. */
  lemma DefaultSettingsTag()
    ensures DefaultSettings.length == 12
    ensures ToSymbolsString(DefaultSettings) == "ULDS"
  {
  }
}
