/**
 SHA-256 is an arbitrary function from text to 64 lower-case hex characters.  Nothing
 assumes that it has no collisions, which no such function can lack: where a result
 needs two texts to hash apart, the alternative it states is a collision between
 those two texts.
 */
module Hashing {
  import opened Wrappers
  import opened JsText
  import opened Decimal
  import opened Json
  import opened CanonicalText

  type Sha = string -> string

  predicate IsHex(s: string) {
    forall i :: 0 <= i < |s| ==> IsDigit(s[i]) || 'a' <= s[i] <= 'f'
  }

  /** `sha256:` and 64 lower-case hex characters */
  predicate IsDigest(s: string) {
    |s| == 71 && StartsWith(s, "sha256:") && IsHex(s[7..])
  }

  ghost predicate HexOutput(sha: Sha) {
    forall text :: |sha(text)| == 64 && IsHex(sha(text))
  }

  function Digest(sha: Sha, text: string): string {
    "sha256:" + sha(text)
  }

  /** Two different texts with one hash. */
  predicate Collision(sha: Sha, s: string, t: string) {
    s != t && sha(s) == sha(t)
  }

  /** `hashValue`: None where normalizing throws. */
  function HashValue(sha: Sha, j: Json): Option<string> {
    if Hashable(j) then Some(Digest(sha, StableText(j))) else None
  }

  lemma DigestIsDigest(sha: Sha, text: string)
    requires HexOutput(sha)
    ensures IsDigest(Digest(sha, text))
  {
    assert Digest(sha, text)[7..] == sha(text);
  }

  lemma SameDigest(sha: Sha, s: string, t: string)
    requires Digest(sha, s) == Digest(sha, t)
    ensures s == t || Collision(sha, s, t)
  {
    assert Digest(sha, s)[7..] == sha(s) && Digest(sha, t)[7..] == sha(t);
  }

  /** Hashes agree exactly on values of one meaning, or a collision is exhibited. */
  lemma SameHashSameMeaning(sha: Sha, a: Json, b: Json)
    requires Canonical(a) && Canonical(b) && (a.JUndefined? <==> b.JUndefined?)
    ensures Denote(a) == Denote(b) ==> HashValue(sha, a) == HashValue(sha, b)
    ensures HashValue(sha, a) == HashValue(sha, b)
        ==> Denote(a) == Denote(b) || Collision(sha, StableText(a), StableText(b))
  {
    StableTextIffMeaning(a, b);
    if HashValue(sha, a) == HashValue(sha, b) {
      SameDigest(sha, StableText(a), StableText(b));
    }
  }
}
