/** ASCII character classes shared by the validator and the salt generators. */
module Ascii {

  /** `[a-zA-Z]` */
  predicate IsLetter(c: char) {
    'a' <= c <= 'z' || 'A' <= c <= 'Z'
  }

  /** `[0-9]` */
  predicate IsDigit(c: char) {
    '0' <= c <= '9'
  }

  predicate IsAlphanumeric(c: char) {
    IsLetter(c) || IsDigit(c)
  }

  predicate AllLetters(s: string) {
    forall k :: 0 <= k < |s| ==> IsLetter(s[k])
  }

  predicate AllAlphanumeric(s: string) {
    forall k :: 0 <= k < |s| ==> IsAlphanumeric(s[k])
  }

  lemma LettersAppend(a: string, b: string)
    requires AllLetters(a) && AllLetters(b)
    ensures AllLetters(a + b)
  {
  }

  lemma AlphanumericAppend(a: string, b: string)
    requires AllAlphanumeric(a) && AllAlphanumeric(b)
    ensures AllAlphanumeric(a + b)
  {
  }

  /** The 52 ASCII letters, lower case first. */
  const AsciiLetters: string := "abcdefghijklmnopqrstuvwxyzABCDEFGHIJKLMNOPQRSTUVWXYZ"

  /** The 52 letters in four 13-character pieces, each small enough for the solver. */
  const Lower1: string := "abcdefghijklm"
  const Lower2: string := "nopqrstuvwxyz"
  const Upper1: string := "ABCDEFGHIJKLM"
  const Upper2: string := "NOPQRSTUVWXYZ"

  lemma PiecesAreLetters()
    ensures AllLetters(Lower1) && AllLetters(Lower2) && AllLetters(Upper1) && AllLetters(Upper2)
  {
  }

  lemma PiecesMakeAsciiLetters()
    ensures AsciiLetters == (Lower1 + Lower2) + (Upper1 + Upper2)
  {
  }

  /** The literal holds only letters. */
  lemma AsciiLettersAreLetters()
    ensures AllLetters(AsciiLetters)
  {
    PiecesAreLetters();
    LettersAppend(Lower1, Lower2);
    LettersAppend(Upper1, Upper2);
    LettersAppend(Lower1 + Lower2, Upper1 + Upper2);
    PiecesMakeAsciiLetters();
  }
}
