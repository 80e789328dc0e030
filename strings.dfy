/**
 * The .NET string primitives the core relies on: `IndexOf` under a
 * `StringComparison`, and `String.Contains(string)` (ordinal).
 *
 * `InvariantCultureIgnoreCase` is modelled by folding ASCII upper-case letters
 * to lower case; culture-specific folding and ignorable characters are not.
 */
module Strings {

  datatype StringComparison = Ordinal | InvariantCultureIgnoreCase

  /** ASCII case folding. */
  function FoldAscii(c: char): char
  {
    if 'A' <= c <= 'Z' then (c as int + 32) as char else c
  }

  /** Two characters are equal under the comparison. */
  predicate CharEquals(a: char, b: char, cmp: StringComparison)
  {
    match cmp
    case Ordinal => a == b
    case InvariantCultureIgnoreCase => FoldAscii(a) == FoldAscii(b)
  }

  /** `target` occurs in `source` at position `i` under the comparison. */
  predicate MatchesAt(source: string, target: string, i: nat, cmp: StringComparison)
  {
    i + |target| <= |source| &&
    forall j :: 0 <= j < |target| ==> CharEquals(source[i + j], target[j], cmp)
  }

  /** The first occurrence of `target` in `source` at or after `from`, or -1. */
  function IndexOfFrom(source: string, target: string, cmp: StringComparison, from: nat): (r: int)
    ensures r == -1 || (from <= r && MatchesAt(source, target, r, cmp))
    ensures r >= 0 ==> forall i :: from <= i < r ==> !MatchesAt(source, target, i, cmp)
    ensures r == -1 ==> forall i :: from <= i ==> !MatchesAt(source, target, i, cmp)
    decreases |source| - from
  {
    if from + |target| > |source| then -1
    else if MatchesAt(source, target, from, cmp) then from
    else IndexOfFrom(source, target, cmp, from + 1)
  }

  /** `source.IndexOf(target, cmp)`: the first position `target` occurs at, or -1. */
  function IndexOf(source: string, target: string, cmp: StringComparison): (r: int)
    ensures r >= -1
    ensures r >= 0 ==> MatchesAt(source, target, r, cmp)
    ensures r >= 0 ==> forall i :: 0 <= i < r ==> !MatchesAt(source, target, i, cmp)
    ensures r == -1 <==> forall i :: !MatchesAt(source, target, i, cmp)
  {
    IndexOfFrom(source, target, cmp, 0)
  }

  /** `source.Contains(target)`: an ordinal, case-sensitive substring test. */
  predicate OrdinalContains(source: string, target: string)
  {
    IndexOf(source, target, Ordinal) >= 0
  }

  /** Under the ordinal comparison a match at `i` is exactly an equal slice. */
  lemma OrdinalMatchIsSlice(source: string, target: string, i: nat)
    ensures MatchesAt(source, target, i, Ordinal) <==>
      i + |target| <= |source| && source[i..i + |target|] == target
  {
    if i + |target| <= |source| && source[i..i + |target|] == target {
      forall j | 0 <= j < |target| ensures source[i + j] == target[j] {
        assert source[i..i + |target|][j] == source[i + j];
      }
    }
  }
}
