/** Values and small facts shared by the modules of this project. */
module Wrappers {

  datatype Option<+T> = None | Some(value: T)

  const INT64_MAX: nat := 0x7fff_ffff_ffff_ffff

  /** True when `text` ends with `tail` and is longer than it. */
  predicate ProperSuffix(text: string, tail: string) {
    |text| > |tail| && text[|text| - |tail|..] == tail
  }

  lemma {:induction false} TwiceInMultiset<T>(s: seq<T>, i: nat, j: nat)
    requires i < j < |s| && s[i] == s[j]
    ensures multiset(s)[s[i]] >= 2
  {
    assert s == s[..i] + [s[i]] + s[i + 1..j] + [s[j]] + s[j + 1..];
  }

  lemma {:induction false} OnceInMultiset<T>(s: seq<T>, i: nat)
    requires i < |s| && forall k :: 0 <= k < |s| && k != i ==> s[k] != s[i]
    ensures multiset(s)[s[i]] == 1
  {
    assert s == s[..i] + [s[i]] + s[i + 1..];
    assert s[i] !in multiset(s[..i]) && s[i] !in multiset(s[i + 1..]);
  }
}
