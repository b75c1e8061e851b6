/** String operations of the host and path code, on ASCII text. */
module Text {
  predicate StartsWith(s: string, prefix: string) {
    |prefix| <= |s| && s[..|prefix|] == prefix
  }

  predicate EndsWith(s: string, suffix: string) {
    |suffix| <= |s| && s[|s| - |suffix|..] == suffix
  }

  /** The part of `s` before a suffix it has. */
  function Without(s: string, suffix: string): string
    requires EndsWith(s, suffix)
  {
    s[..|s| - |suffix|]
  }

  function LowerChar(c: char): char {
    if 'A' <= c <= 'Z' then c - 'A' + 'a' else c
  }

  function Lower(s: string): (r: string)
    ensures |r| == |s|
    ensures forall i | 0 <= i < |s| :: r[i] == LowerChar(s[i])
  {
    seq(|s|, i requires 0 <= i < |s| => LowerChar(s[i]))
  }

  predicate IsLower(s: string) {
    forall c <- s :: !('A' <= c <= 'Z')
  }

  lemma {:induction false} LowerIsIdentity(s: string)
    requires IsLower(s)
    ensures Lower(s) == s
  {
    assert forall i | 0 <= i < |s| :: s[i] in s;
  }

  /** A suffix in lower case survives lower-casing. */
  lemma {:induction false} LowerKeepsSuffix(s: string, suffix: string)
    requires EndsWith(s, suffix) && IsLower(suffix)
    ensures EndsWith(Lower(s), suffix)
  {
    var n := |s| - |suffix|;
    var lower, tail := Lower(s), s[n..];
    forall i | 0 <= i < |suffix|
      ensures lower[n + i] == suffix[i]
    {
      assert suffix[i] in suffix && tail[i] == suffix[i];
    }
    assert lower[n..] == suffix;
  }

  /** The index of the first `c`, or the length if there is none. */
  function IndexOf(s: string, c: char): (i: nat)
    ensures i <= |s|
    ensures c !in s[..i]
    ensures i < |s| ==> s[i] == c
  {
    if s == [] || s[0] == c then 0 else 1 + IndexOf(s[1..], c)
  }

  lemma {:induction false} IndexOfIs(s: string, c: char, i: nat)
    requires i <= |s| && c !in s[..i] && (i < |s| ==> s[i] == c)
    ensures IndexOf(s, c) == i
  {
    assert forall j | 0 <= j < i :: s[j] in s[..i];
    var k := IndexOf(s, c);
    assert forall j | 0 <= j < k :: s[j] in s[..k];
  }

  lemma {:induction false} SuffixOfConcat(a: string, b: string)
    ensures EndsWith(a + b, b) && Without(a + b, b) == a
  {
  }

  lemma {:induction false} PrefixAndSuffix(s: string, suffix: string)
    requires EndsWith(s, suffix)
    ensures s == Without(s, suffix) + suffix
  {
  }
}
