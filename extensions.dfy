/** The static class `Extensions` of Extensions.cs: string helpers. */
module Extensions {
  import opened Wrappers
  import opened Strings
  import opened Numbers

  /**
   * `source.Contains(target, comparison)`: `IndexOf` finds the target, which
   * holds exactly when the target occurs somewhere in the source.
   */
  predicate Contains(source: string, target: string, comparison: StringComparison)
    ensures Contains(source, target, comparison) <==>
      exists i :: MatchesAt(source, target, i, comparison)
  {
    var found := IndexOf(source, target, comparison);
    assert found >= 0 ==> MatchesAt(source, target, found, comparison);
    found >= 0
  }

  /** Every string contains the empty string; a longer target is never contained. */
  lemma ContainsBounds(source: string, target: string, comparison: StringComparison)
    ensures target == [] ==> Contains(source, target, comparison)
    ensures |target| > |source| ==> !Contains(source, target, comparison)
  {
    if target == [] {
      assert MatchesAt(source, target, 0, comparison);
    }
  }

  /** `source.ToInt()`: 0 for a null or empty string, otherwise `int.Parse(source)`. */
  function ToInt(source: Option<string>): (r: Result<int, ParseError>)
    ensures source == None || source == Some("") ==> r == Success(0)
    ensures source.Some? && source.value != "" ==> r == ParseInt32(source.value)
    ensures r.Success? ==> IsInt32(r.value)
  {
    if source.None? || source.value == "" then Success(0) else ParseInt32(source.value)
  }

  /** `ToInt` reads back every 32-bit number printed with `ToString()`. */
  lemma ToIntRoundTrip(n: int)
    requires IsInt32(n)
    ensures ToInt(Some(FormatInt(n))) == Success(n)
  {
    ParseFormatRoundTrip(n);
  }
}
