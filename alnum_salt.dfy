/**
 * The alphanumeric salt service, the one the user service calls: its
 * `generateSalt` fills a 12-slot rune slice from `chars`, and its
 * `/generate-salt` handler answers with the map {"salt": generateSalt()}.
 *
 * The random source is the sequence `draws`: slot i takes the index
 * `draws[i]`, which by the contract of `rand.Intn(62)` lies in [0, 62).
 */
module AlnumSaltService {
  import opened Ascii

  /** chars: the 52 ASCII letters, lower case first, then the ten digits. */
  const Chars: string := "abcdefghijklmnopqrstuvwxyzABCDEFGHIJKLMNOPQRSTUVWXYZ0123456789"

  /** The length of the rune slice `salt`. */
  const SaltLength: nat := 12

  /** The status the handler leaves in place: it never calls WriteHeader. */
  const StatusOK := 200

  /** The zero rune Go stores in every slot of a freshly made slice. */
  const ZeroRune: char := 0 as char

  /** The alphabet has 62 entries, every one a letter or a digit. */
  lemma CharsAreAlphanumeric()
    ensures |Chars| == 62
    ensures AllAlphanumeric(Chars)
  {
    AsciiLettersAreLetters();
    assert AllAlphanumeric(AsciiLetters);
    assert AllAlphanumeric("0123456789");
    AlphanumericAppend(AsciiLetters, "0123456789");
    assert Chars == AsciiLetters + "0123456789";
  }

  /** generateSalt: the 12 runes drawn in order from chars. */
  method GenerateSalt(draws: seq<int>) returns (salt: string)
    requires |draws| >= SaltLength
    requires forall i :: 0 <= i < |draws| ==> 0 <= draws[i] < |Chars|
    ensures |salt| == SaltLength
    ensures forall i :: 0 <= i < SaltLength ==> salt[i] == Chars[draws[i]]
    ensures forall i :: 0 <= i < SaltLength ==> salt[i] in Chars
    ensures forall i :: 0 <= i < SaltLength ==>
      salt[i] != ZeroRune && IsAlphanumeric(salt[i])
  {
    var b := new char[SaltLength](_ => ZeroRune);
    for i := 0 to b.Length
      invariant forall k :: 0 <= k < i ==> b[k] == Chars[draws[k]]
    {
      b[i] := Chars[draws[i]];
    }
    CharsAreAlphanumeric();
    salt := b[..];
  }

  /** The handler: status 200 and a map whose only key is "salt", bound to generateSalt's result. */
  method HandleGenerateSalt(draws: seq<int>) returns (status: int, resp: map<string, string>)
    requires |draws| >= SaltLength
    requires forall i :: 0 <= i < |draws| ==> 0 <= draws[i] < |Chars|
    ensures status == StatusOK
    ensures resp.Keys == {"salt"}
    ensures |resp["salt"]| == SaltLength
    ensures forall i :: 0 <= i < SaltLength ==> resp["salt"][i] == Chars[draws[i]]
  {
    var salt := GenerateSalt(draws);
    resp := map["salt" := salt];
    status := StatusOK;
  }
}
