/**
 * The letters-only salt service: its `/generate-salt` handler fills a
 * 12-slot rune buffer from `letterRunes` and answers 201 with the map
 * {"salt": <buffer as a string>}.
 *
 * The random source is the sequence `draws`: slot i takes the index
 * `draws[i]`, which by the contract of `rand.Intn(52)` lies in [0, 52).
 */
module LetterSaltService {
  import opened Ascii

  /** letterRunes: the 52 ASCII letters, lower case first. */
  const LetterRunes: string := AsciiLetters

  /** The length of the rune buffer `b`. */
  const SaltLength: nat := 12

  const StatusCreated := 201

  /** The zero rune Go stores in every slot of a freshly made buffer. */
  const ZeroRune: char := 0 as char

  /** The alphabet has 52 entries, every one a letter: no digit, no zero rune. */
  lemma LetterRunesAreLetters()
    ensures |LetterRunes| == 52
    ensures AllLetters(LetterRunes)
  {
    AsciiLettersAreLetters();
  }

  /**
   * generate: status 201 and a response map whose only key is "salt", bound
   * to the 12 runes drawn in order from letterRunes.
   */
  method Generate(draws: seq<int>) returns (status: int, resp: map<string, string>)
    requires |draws| >= SaltLength
    requires forall i :: 0 <= i < |draws| ==> 0 <= draws[i] < |LetterRunes|
    ensures status == StatusCreated
    ensures resp.Keys == {"salt"}
    ensures |resp["salt"]| == SaltLength
    ensures forall i :: 0 <= i < SaltLength ==> resp["salt"][i] == LetterRunes[draws[i]]
    ensures forall i :: 0 <= i < SaltLength ==> resp["salt"][i] in LetterRunes
    ensures forall i :: 0 <= i < SaltLength ==>
      resp["salt"][i] != ZeroRune && IsLetter(resp["salt"][i]) && !IsDigit(resp["salt"][i])
  {
    var b := new char[SaltLength](_ => ZeroRune);
    for i := 0 to b.Length
      invariant forall k :: 0 <= k < i ==> b[k] == LetterRunes[draws[k]]
    {
      b[i] := LetterRunes[draws[i]];
    }
    LetterRunesAreLetters();
    resp := map["salt" := b[..]];
    status := StatusCreated;
  }
}
