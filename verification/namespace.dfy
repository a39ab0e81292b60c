/**
 * The store's key space. A keyword `k` is kept in the store under
 * `"sl::" + k`; code that lists store keys recovers the keyword by dropping
 * the first four characters.
 */
module Namespace {

  const Prefix: string := "sl::"

  /** Whether a store key lies in the shortlink namespace (matches the pattern `sl::*`). */
  predicate HasPrefix(key: string)
  {
    |key| >= |Prefix| && key[..|Prefix|] == Prefix
  }

  /** `&key[4..]`; slicing a shorter key panics in the source, hence the requirement. */
  function StripPrefix(key: string): string
    requires |key| >= |Prefix|
  {
    key[|Prefix|..]
  }

  /** `format!("sl::{keyword}")`: a key in the namespace from which stripping gives the keyword back. */
  function NamespacedKey(keyword: string): (key: string)
    ensures HasPrefix(key)
    ensures StripPrefix(key) == keyword
  {
    Prefix + keyword
  }

  /** Stripping then prefixing is the identity on the namespace. */
  lemma PrefixStripped(key: string)
    requires HasPrefix(key)
    ensures NamespacedKey(StripPrefix(key)) == key
  {
    assert key == key[..|Prefix|] + key[|Prefix|..];
  }

  /** Distinct keywords never share a store key. */
  lemma NamespacedKeyInjective(a: string, b: string)
    requires NamespacedKey(a) == NamespacedKey(b)
    ensures a == b
  {
    assert a == StripPrefix(NamespacedKey(a));
  }
}
