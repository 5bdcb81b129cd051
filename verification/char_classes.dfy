/** Kotlin's character-class tests, restricted to ASCII. */
module CharClasses {

  predicate IsUpperCase(c: char) {
    'A' <= c <= 'Z'
  }

  predicate IsLowerCase(c: char) {
    'a' <= c <= 'z'
  }

  predicate IsDigit(c: char) {
    '0' <= c <= '9'
  }

  predicate IsLetterOrDigit(c: char) {
    IsUpperCase(c) || IsLowerCase(c) || IsDigit(c)
  }
}
