/** Text clean-up and hashing of normalised text
    (voicebots/text_utils.py). */
module TextUtils {
  import opened PyStr
  import opened ByteStrings

  /** `normalize_text`: `text.lstrip().rstrip().lower()`. */
  function NormalizeText(text: string): (r: string)
    ensures Trimmed(r)
    ensures NoUpper(r)
    ensures |r| <= |text|
  {
    var stripped := RStrip(LStrip(text));
    RStripIsPrefix(LStrip(text));
    LowerTrimmed(stripped);
    Lower(stripped)
  }

  /** `hash_normalized_text`: the hex SHA-256 digest of the UTF-8 encoding of
      the text, normalised first unless `normalize` is false.  The digest
      function itself is a parameter. */
  function HashNormalizedText(text: string, sha256: Bytes -> string, normalize: bool := true): (digest: string)
    ensures !normalize ==> digest == sha256(Utf8Encode(text))
    ensures normalize ==> exists t :: |t| <= |text| && Trimmed(t) && NoUpper(t) && digest == sha256(Utf8Encode(t))
  {
    var t := if normalize then NormalizeText(text) else text;
    sha256(Utf8Encode(t))
  }

  /** Normalising twice is normalising once. */
  lemma {:induction false} NormalizeIdempotent(text: string)
    ensures NormalizeText(NormalizeText(text)) == NormalizeText(text)
  {
    var n := NormalizeText(text);
    StripTrimmed(n);
    assert RStrip(LStrip(n)) == n;
    LowerOfLower(n);
  }

  /** The early-exit case: a padded, capitalised command normalises to the
      plain lower-case phrase. */
  lemma NormalizeExitCommand()
    ensures NormalizeText(" Exit ") == "exit"
  {
    var padded := " Exit ";
    assert padded[1..] == "Exit ";
    assert LStrip(padded) == "Exit ";
    var unpadded := "Exit ";
    assert unpadded[..4] == "Exit";
    assert RStrip(unpadded) == "Exit";
    var l := Lower("Exit");
    assert l[0] == 'e' && l[1] == 'x' && l[2] == 'i' && l[3] == 't';
    assert l == "exit";
  }

  /** Texts with the same normalisation have the same hash. */
  lemma HashRespectsNormalization(a: string, b: string, sha256: Bytes -> string)
    requires NormalizeText(a) == NormalizeText(b)
    ensures HashNormalizedText(a, sha256) == HashNormalizedText(b, sha256)
  {
  }

  /** Hashing with normalisation is hashing the normalised text as it is,
      and hashing an already normalised text changes nothing. */
  lemma {:induction false} HashOfNormalized(text: string, sha256: Bytes -> string)
    ensures HashNormalizedText(text, sha256) == HashNormalizedText(NormalizeText(text), sha256, false)
    ensures HashNormalizedText(NormalizeText(text), sha256) == HashNormalizedText(text, sha256)
  {
    NormalizeIdempotent(text);
  }
}
