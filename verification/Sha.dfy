/** The two ways the program recognises a commit SHA. */
module Sha {

  predicate IsLowerHex(c: char) { '0' <= c <= '9' || 'a' <= c <= 'f' }

  /** [0-9a-f]{40}, by fullmatch: the rule of the rejection lifecycle and of every ref update. */
  predicate Canonical(s: string)
  {
    |s| == 40 && forall k | 0 <= k < 40 :: IsLowerHex(s[k])
  }

  /** ^[0-9a-f]{40}$, by match: the rule of the acceptance verifier, where $ also stands before
      a final newline. */
  predicate CanonicalLine(s: string)
  {
    Canonical(s) || (|s| == 41 && s[40] == '\n' && Canonical(s[..40]))
  }
}
