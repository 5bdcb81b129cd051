/** The password generator: the alphabet built from the enabled classes, the
    draws, and the entropy estimate. Randomness is an oracle `random`, whose
    i-th value picks the i-th character; `log2` is left uninterpreted. */
module GeneratePassword {
  import opened Text
  import opened CharClasses
  import opened DomainModel

  const UppercaseChars := "ABCDEFGHIJKLMNOPQRSTUVWXYZ"
  const LowercaseChars := "abcdefghijklmnopqrstuvwxyz"
  const DigitChars := "0123456789"
  const SymbolChars := "!@#$%^&*()-_=+[]{};:,.<>?/\\|"

  predicate NoDuplicates(s: string) {
    forall i, j :: 0 <= i < j < |s| ==> s[i] != s[j]
  }

  /** Each class string holds its own ASCII class only, each character once;
      the symbols are non-alphanumeric, include ',' and exclude '"'. */
  lemma UppercaseFacts()
    ensures |UppercaseChars| == 26 && NoDuplicates(UppercaseChars)
    ensures forall i :: 0 <= i < |UppercaseChars| ==> IsUpperCase(UppercaseChars[i])
  {
    UppercaseDistinct();
  }

  lemma UppercaseDistinct()
    ensures NoDuplicates(UppercaseChars)
  {
    UppercaseRanks();
  }

  /** The class string is the alphabet in code-point order. */
  lemma UppercaseRanks()
    ensures forall i :: 0 <= i < |UppercaseChars| ==> UppercaseChars[i] as int == 'A' as int + i
  {
  }

  lemma LowercaseFacts()
    ensures |LowercaseChars| == 26 && NoDuplicates(LowercaseChars)
    ensures forall i :: 0 <= i < |LowercaseChars| ==> IsLowerCase(LowercaseChars[i])
  {
    LowercaseDistinct();
  }

  lemma LowercaseDistinct()
    ensures NoDuplicates(LowercaseChars)
  {
    LowercaseRanks();
  }

  /** The class string is the alphabet in code-point order. */
  lemma LowercaseRanks()
    ensures forall i :: 0 <= i < |LowercaseChars| ==> LowercaseChars[i] as int == 'a' as int + i
  {
  }

  lemma DigitFacts()
    ensures |DigitChars| == 10 && NoDuplicates(DigitChars)
    ensures forall i :: 0 <= i < |DigitChars| ==> IsDigit(DigitChars[i])
  {
  }

  lemma SymbolFacts()
    ensures |SymbolChars| == 28 && NoDuplicates(SymbolChars)
    ensures forall i :: 0 <= i < |SymbolChars| ==> !IsLetterOrDigit(SymbolChars[i])
    ensures '"' !in SymbolChars && ',' in SymbolChars
  {
    SymbolsDistinct();
    SymbolsNotAlphanumeric();
  }

  lemma SymbolsDistinct()
    ensures NoDuplicates(SymbolChars)
  {
    var a, b := "!@#$%^&*()-_=+", "[]{};:,.<>?/\\|";
    assert SymbolChars == a + b;
    assert NoDuplicates(a);
    assert NoDuplicates(b);
    forall i, j | 0 <= i < |a| && 0 <= j < |b| ensures a[i] != b[j] {
      assert a[i] !in b;
    }
    NoDuplicatesConcat(a, b);
  }

  lemma SymbolsNotAlphanumeric()
    ensures forall i :: 0 <= i < |SymbolChars| ==> !IsLetterOrDigit(SymbolChars[i])
  {
  }

  lemma {:induction false} NoDuplicatesConcat(a: string, b: string)
    requires NoDuplicates(a) && NoDuplicates(b)
    requires forall i, j :: 0 <= i < |a| && 0 <= j < |b| ==> a[i] != b[j]
    ensures NoDuplicates(a + b)
  {
    var s := a + b;
    forall i, j | 0 <= i < j < |s| ensures s[i] != s[j] {
      if j < |a| {
        assert s[i] == a[i] && s[j] == a[j];
      } else if i >= |a| {
        assert s[i] == b[i - |a|] && s[j] == b[j - |a|];
      } else {
        assert s[i] == a[i] && s[j] == b[j - |a|];
      }
    }
  }

  /** `buildCharset`: the class strings of the enabled flags, concatenated in
      the fixed order upper, lower, digits, symbols. */
  function BuildCharset(settings: PasswordGenerationSettings): (cs: string)
    ensures |cs| == (if settings.includeUppercase then 26 else 0) + (if settings.includeLowercase then 26 else 0)
                  + (if settings.includeDigits then 10 else 0) + (if settings.includeSymbols then 28 else 0)
    ensures |cs| <= 90
    ensures cs == [] <==> ToSymbolsString(settings) == []
    ensures forall c :: c in cs <==>
      || (settings.includeUppercase && c in UppercaseChars)
      || (settings.includeLowercase && c in LowercaseChars)
      || (settings.includeDigits && c in DigitChars)
      || (settings.includeSymbols && c in SymbolChars)
    ensures NoDuplicates(cs)
    ensures '"' !in cs
    ensures ',' in cs <==> settings.includeSymbols
  {
    UppercaseFacts(); LowercaseFacts(); DigitFacts(); SymbolFacts();
    var u := if settings.includeUppercase then UppercaseChars else "";
    var l := if settings.includeLowercase then LowercaseChars else "";
    var d := if settings.includeDigits then DigitChars else "";
    var s := if settings.includeSymbols then SymbolChars else "";
    ClassesDistinct(u, l, d, s);
    u + l + d + s
  }

  /** Enabled classes concatenated repeat no character: each class repeats
      none, and no two classes share one. */
  lemma ClassesDistinct(u: string, l: string, d: string, s: string)
    requires u == UppercaseChars || u == ""
    requires l == LowercaseChars || l == ""
    requires d == DigitChars || d == ""
    requires s == SymbolChars || s == ""
    ensures NoDuplicates(u + l + d + s)
  {
    UppercaseFacts(); LowercaseFacts(); DigitFacts(); SymbolFacts();
    assert forall i :: 0 <= i < |u| ==> IsUpperCase(u[i]);
    assert forall i :: 0 <= i < |l| ==> IsLowerCase(l[i]);
    assert forall i :: 0 <= i < |d| ==> IsDigit(d[i]);
    assert forall i :: 0 <= i < |s| ==> !IsLetterOrDigit(s[i]);
    NoDuplicatesConcat(u, l);
    var ul := u + l;
    assert forall i :: 0 <= i < |ul| ==> IsUpperCase(ul[i]) || IsLowerCase(ul[i]);
    NoDuplicatesConcat(ul, d);
    var uld := ul + d;
    assert forall i :: 0 <= i < |uld| ==> IsLetterOrDigit(uld[i]);
    NoDuplicatesConcat(uld, s);
  }

  /** `calculateEntropy`: bits of a password drawn uniformly from an alphabet
      of `charsetSize` characters. */
  function CalculateEntropy(password: string, charsetSize: int, log2: int -> real): (e: real)
    ensures charsetSize <= 1 || password == [] ==> e == 0.0
  {
    if charsetSize <= 1 || |password| == 0 then 0.0 else |password| as real * log2(charsetSize)
  }

  /** Entropy depends on the password only through its length. */
  lemma EntropyDependsOnLengthAndSize(p: string, q: string, charsetSize: int, log2: int -> real)
    requires |p| == |q|
    ensures CalculateEntropy(p, charsetSize, log2) == CalculateEntropy(q, charsetSize, log2)
  {
  }

  /** `GeneratePassword.invoke`. An empty alphabet or a non-positive length
      gives the sentinel ("", 0.0, 0); otherwise the value has the requested
      length, every character comes from the alphabet, and the reported size is
      the alphabet's. */
  function Generate(settings: PasswordGenerationSettings, random: nat -> nat, log2: int -> real): (r: GeneratedPasswordResult)
    ensures BuildCharset(settings) == [] || settings.length <= 0 ==> r == GeneratedPasswordResult("", 0.0, 0)
    ensures BuildCharset(settings) != [] && settings.length > 0 ==>
      && |r.value| == settings.length
      && r.charsetSize == |BuildCharset(settings)|
      && forall i :: 0 <= i < |r.value| ==> r.value[i] in BuildCharset(settings)
    ensures r.entropy == CalculateEntropy(r.value, r.charsetSize, log2)
    ensures '"' !in r.value
    ensures ',' in r.value ==> settings.includeSymbols
  {
    var charset := BuildCharset(settings);
    if |charset| == 0 || settings.length <= 0 then
      GeneratedPasswordResult("", 0.0, 0)
    else
      var password := seq(settings.length, i requires 0 <= i < settings.length => Draw(charset, random, i));
      GeneratedPasswordResult(password, CalculateEntropy(password, |charset|, log2), |charset|)
  }

  /** The draws decide the characters only: length, alphabet size and entropy
      are the same for every oracle. */
  lemma ShapeIndependentOfDraws(settings: PasswordGenerationSettings, r1: nat -> nat, r2: nat -> nat, log2: int -> real)
    ensures |Generate(settings, r1, log2).value| == |Generate(settings, r2, log2).value|
    ensures Generate(settings, r1, log2).charsetSize == Generate(settings, r2, log2).charsetSize
    ensures Generate(settings, r1, log2).entropy == Generate(settings, r2, log2).entropy
  {
    var g1, g2 := Generate(settings, r1, log2), Generate(settings, r2, log2);
    EntropyDependsOnLengthAndSize(g1.value, g2.value, g1.charsetSize, log2);
  }

  predicate AllVisible(h: string) {
    forall i :: 0 <= i < |h| ==> '!' <= h[i] <= '~'
  }

  lemma SymbolsVisible()
    ensures AllVisible(SymbolChars)
  {
  }

  /** Every alphabet character is a visible ASCII character: none is
      whitespace and none lies outside '!'..'~'. */
  lemma CharsetIsVisibleAscii(settings: PasswordGenerationSettings, c: char)
    requires c in BuildCharset(settings)
    ensures '!' <= c <= '~'
  {
    UppercaseFacts(); LowercaseFacts(); DigitFacts(); SymbolsVisible();
    var cs := BuildCharset(settings);
    if settings.includeUppercase && c in UppercaseChars {
      var i :| 0 <= i < |UppercaseChars| && UppercaseChars[i] == c;
    } else if settings.includeLowercase && c in LowercaseChars {
      var i :| 0 <= i < |LowercaseChars| && LowercaseChars[i] == c;
    } else if settings.includeDigits && c in DigitChars {
      var i :| 0 <= i < |DigitChars| && DigitChars[i] == c;
    } else {
      var i :| 0 <= i < |SymbolChars| && SymbolChars[i] == c;
    }
  }

  /** A generated password is never blank and never begins with a non-ASCII
      character. */
  lemma GeneratedIsVisible(settings: PasswordGenerationSettings, random: nat -> nat, log2: int -> real)
    requires Generate(settings, random, log2).value != []
    ensures var v := Generate(settings, random, log2).value;
      !IsBlank(v) && '!' <= v[0] <= '~'
  {
    var g := Generate(settings, random, log2);
    assert g.value[0] in BuildCharset(settings);
    VisibleIsNotBlank(settings, g.value);
  }

  lemma VisibleIsNotBlank(settings: PasswordGenerationSettings, v: string)
    requires v != [] && v[0] in BuildCharset(settings)
    ensures !IsBlank(v) && '!' <= v[0] <= '~'
  {
    CharsetIsVisibleAscii(settings, v[0]);
  }

  /** The i-th character `Generate` draws from `charset` with oracle `random`. */
  function Draw(charset: string, random: nat -> nat, i: nat): (c: char)
    requires |charset| > 0
    ensures c in charset
    ensures random(i) < |charset| ==> c == charset[random(i)]
  {
    charset[random(i) % |charset|]
  }

  lemma SmallModulo(k: nat, n: nat)
    requires k < n
    ensures k % n == k
  {
  }

  /** Draws that pick the characters of `w` one by one from `charset`. */
  lemma {:induction false} DrawsSpelling(charset: string, w: string) returns (random: nat -> nat)
    requires forall i :: 0 <= i < |w| ==> w[i] in charset
    requires |charset| > 0
    ensures forall i :: 0 <= i < |w| ==> Draw(charset, random, i) == w[i]
  {
    random := (i: nat) => if i < |w| then IndexOf(charset, w[i]) else 0;
    forall i | 0 <= i < |w| ensures Draw(charset, random, i) == w[i] {
      var k := IndexOf(charset, w[i]);
      assert random(i) == k;
      SmallModulo(k, |charset|);
    }
  }

  /** Every password of the requested length over the alphabet is produced by
      some sequence of draws. */
  lemma EveryPasswordReachable(settings: PasswordGenerationSettings, w: string, log2: int -> real)
    requires BuildCharset(settings) != [] && |w| == settings.length
    requires forall i :: 0 <= i < |w| ==> w[i] in BuildCharset(settings)
    ensures exists random: nat -> nat :: Generate(settings, random, log2).value == w
  {
    var random := DrawsSpelling(BuildCharset(settings), w);
    assert Generate(settings, random, log2).value == w;
  }

  /** With symbols enabled a generated password can contain ','. */
  lemma CommaReachable(settings: PasswordGenerationSettings, log2: int -> real)
    requires settings.includeSymbols && settings.length > 0
    ensures exists random: nat -> nat :: ',' in Generate(settings, random, log2).value
  {
    var w := seq(settings.length, i => ',');
    EveryPasswordReachable(settings, w, log2);
    var random: nat -> nat :| Generate(settings, random, log2).value == w;
    assert Generate(settings, random, log2).value[0] == ',';
  }
}
