/** The e-mail field the staff, patient and administrator schemas share:
    `z.string().email().max(150).toLowerCase().trim()`. The `.email()`
    pattern is given as a predicate. */
module AccountFields {
  import opened Text

  predicate NoCapitals(s: string) {
    forall i :: 0 <= i < |s| ==> !('A' <= s[i] <= 'Z')
  }

  /** What is stored for an accepted address: lower-cased, then trimmed. */
  function NormalizedEmail(raw: string): (r: string)
    ensures |r| <= |raw|
  {
    Trim(Lower(raw))
  }

  /** Trimming keeps a slice of the string, so it adds no capital. */
  lemma TrimKeepsNoCapitals(s: string)
    requires NoCapitals(s)
    ensures NoCapitals(Trim(s))
  {
    var t := TrimStart(s);
    var r := TrimEnd(t);
    var a := |s| - |t|;
    assert t == s[a..];
    assert r == t[..|r|];
    forall i | 0 <= i < |r|
      ensures !('A' <= r[i] <= 'Z')
    {
      assert r[i] == s[a + i];
    }
  }

  lemma NormalizedHasNoCapitals(raw: string)
    ensures NoCapitals(NormalizedEmail(raw))
  {
    TrimKeepsNoCapitals(Lower(raw));
  }

  /** Normalizing a stored address changes nothing, so re-saving a record
      with its own e-mail writes the same e-mail back. */
  lemma NormalizationIdempotent(raw: string)
    ensures NormalizedEmail(NormalizedEmail(raw)) == NormalizedEmail(raw)
  {
    var n := NormalizedEmail(raw);
    NormalizedHasNoCapitals(raw);
    assert Lower(n) == n;
    if n != [] {
      TrimKeeps(n);
    }
  }

  /** Addresses that differ only in the case of ASCII letters are stored
      alike, so they collide in the uniqueness checks. */
  lemma NormalizationIgnoresCase(raw: string)
    ensures NormalizedEmail(Lower(raw)) == NormalizedEmail(raw)
  {
    LowerIdempotent(raw);
  }

  /** What the `.email()` pattern guarantees about an accepted address: it
      is not blank once lower-cased and trimmed (it holds an `@`). */
  ghost predicate EmailsNotBlank(isEmail: string -> bool) {
    forall s :: isEmail(s) ==> NormalizedEmail(s) != ""
  }
}
