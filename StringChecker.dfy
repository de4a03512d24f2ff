/** Character classes used to validate command names and labels. */
module StringChecker {
  import opened Text

  predicate IsLatinLetter(c: char) {
    ('a' <= c <= 'z') || ('A' <= c <= 'Z')
  }

  predicate IsDigit(c: char) {
    '0' <= c <= '9'
  }

  predicate IsLatinLetterOrDigitOrUnderscore(c: char) {
    IsLatinLetter(c) || IsDigit(c) || c == '_'
  }

  /** A non-empty string of Latin letters and decimal digits. */
  predicate IsValidName(name: string) {
    |name| > 0 && forall i | 0 <= i < |name| :: IsLatinLetter(name[i]) || IsDigit(name[i])
  }

  /** The Latin letters are exactly the characters that upper-case into `A`..`Z`. */
  lemma LatinLetterFolds(c: char)
    ensures IsLatinLetter(c) <==> 'A' <= UpperChar(c) <= 'Z'
    ensures IsLatinLetter(c) <==> IsLatinLetter(UpperChar(c))
    ensures IsDigit(UpperChar(c)) <==> IsDigit(c)
    ensures UpperChar(c) == '_' <==> c == '_'
  {
  }

  /** A valid (command) name is also made of label characters, and stays valid when upper-cased. */
  lemma ValidNameIsLabelAlphabet(name: string)
    requires IsValidName(name)
    ensures forall i | 0 <= i < |name| :: IsLatinLetterOrDigitOrUnderscore(name[i]) && name[i] != '_'
    ensures IsValidName(Upper(name))
  {
    forall i | 0 <= i < |name| ensures IsLatinLetter(Upper(name)[i]) || IsDigit(Upper(name)[i]) {
      LatinLetterFolds(name[i]);
    }
  }

  /** The decimal digits are the characters `DecDigit` produces. */
  lemma DigitsAreDecimal(c: char)
    ensures IsDigit(c) <==> IsDigitChar(c)
    ensures IsDigit(c) ==> DecDigit(c as int - '0' as int) == c
  {
  }
}
