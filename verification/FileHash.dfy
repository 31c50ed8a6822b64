/** The hash check of pkg/utils/hash.go, over a hash function that is a parameter. */
module FileHash {
  import opened Files

  function Lower(s: string): string {
    if s == "" then "" else [if 'A' <= s[0] <= 'Z' then (s[0] as int + 32) as char else s[0]] + Lower(s[1..])
  }

  /** An expected hash, lower-cased and without its optional "sha256:" prefix. */
  function Normal(expected: string): string {
    if "sha256:" <= Lower(expected) then Lower(expected)[7..] else Lower(expected)
  }

  predicate Matches(hash: Bytes -> string, file: Bytes, expected: string) { hash(file) == Normal(expected) }

  lemma {:induction false} LowerAt(s: string, k: nat)
    requires k < |s|
    ensures |Lower(s)| == |s|
    ensures Lower(s)[k] == if 'A' <= s[k] <= 'Z' then (s[k] as int + 32) as char else s[k]
  {
    if |s| > 1 { LowerAt(s[1..], if k == 0 then 0 else k - 1); }
  }

  lemma {:induction false} LowerOfBoth(s: string, t: string)
    ensures Lower(s + t) == Lower(s) + Lower(t)
  {
    if s == "" {
      assert s + t == t;
    } else {
      assert (s + t)[1..] == s[1..] + t;
      LowerOfBoth(s[1..], t);
    }
  }

  /** A hash is compared without regard to the case of its letters, and the prefix is optional in any
      case. */
  lemma PrefixIsOptional(prefix: string, expected: string)
    requires Lower(prefix) == "sha256:"
    ensures Normal(prefix + expected) == Lower(expected)
    ensures !("sha256:" <= Lower(expected)) ==> Normal(expected) == Lower(expected)
  {
    LowerOfBoth(prefix, expected);
  }
}
