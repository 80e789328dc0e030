/**
 * The `WebElement` builder of ElementExtensions.cs: its search fields, the
 * `By*` calls that fill them, and the `ForEach` family that walks the
 * elements a search found.
 *
 * Each builder call changes the fields exactly as the matching step of
 * `SearchCriteria` changes the criteria, and returns the builder itself.
 * Resolving the criteria against a page is not part of this model, so the
 * elements a walk visits are given as a parameter (what `FindIWebElements`
 * returned when the result was cached), and a callback is given by what it
 * yields for each position the builder is moved to.
 */
module WebElements {
  import opened Wrappers
  import opened Elements
  import opened SearchCriteria
  import Tags
  import Numbers

  /** The positions `lo, lo + 1, ..., hi - 1`: `Enumerable.Range(lo, hi - lo)`. */
  function Range(lo: nat, hi: nat): (r: seq<nat>)
    requires lo <= hi
    ensures |r| == hi - lo
    ensures forall k :: 0 <= k < |r| ==> r[k] == lo + k
    decreases hi - lo
  {
    if lo == hi then [] else [lo] + Range(lo + 1, hi)
  }

  /** The positions from `lo` on, below `hi`, whose test passes, in order. */
  function Matches(lo: nat, hi: nat, test: nat -> bool): seq<nat>
    requires lo <= hi
    decreases hi - lo
  {
    if lo == hi then [] else (if test(lo) then [lo] else []) + Matches(lo + 1, hi, test)
  }

  /** The matching positions are what `Enumerable.Where` keeps of the range. */
  lemma {:induction false} MatchesAreWhere(lo: nat, hi: nat, test: nat -> bool)
    requires lo <= hi
    ensures Matches(lo, hi, test) == Elements.Where(Range(lo, hi), test)
    decreases hi - lo
  {
    if lo < hi {
      var s := Range(lo, hi);
      assert s[0] == lo && s[1..] == Range(lo + 1, hi);
      MatchesAreWhere(lo + 1, hi, test);
    }
  }

  /** `Single()`: the sequence has no element or more than one. */
  datatype SingleError = NoElements | MoreThanOneElement

  class WebElement {
    var firstSelector: Option<By>
    var searchProperties: seq<SearchProperty>
    var searchTags: seq<Tags.TagName>
    var searchHidden: bool
    var index: int
    var xPath: Option<string>
    var textSearchData: Option<TextSearchData>
    /** `_searchCache`: the elements found, while a walk holds them. */
    var searchCache: Option<seq<Element>>

    /** The search fields as one value. */
    function Snapshot(): Criteria
      reads this
    {
      Criteria(firstSelector, searchProperties, searchTags, searchHidden, index, xPath, textSearchData)
    }

    constructor ()
      ensures Snapshot() == Empty && searchCache == None
    {
      firstSelector, searchProperties, searchTags := None, [], [];
      searchHidden, index, xPath, textSearchData := false, 0, None, None;
      searchCache := None;
    }

    /** The private `ByAttribute(string, string, bool)`, which every attribute criterion goes through. */
    method ByAttributeNamed(name: string, value: string, exact: bool) returns (r: WebElement)
      modifies this
      ensures r == this && searchCache == old(searchCache)
      ensures Snapshot() == AddAttribute(old(Snapshot()), name, value, exact)
    {
      firstSelector := KeepFirst(firstSelector, XPath(AttributeXPath(name, value, exact)));
      searchProperties := searchProperties + [SearchProperty(name, value, exact)];
      return this;
    }

    method ByAttribute(a: Tags.TagAttribute, value: string, exact: bool) returns (r: WebElement)
      modifies this
      ensures r == this && searchCache == old(searchCache)
      ensures Snapshot() == AddAttribute(old(Snapshot()), Tags.AttributeName(a), value, exact)
    {
      r := ByAttributeNamed(Tags.AttributeName(a), value, exact);
    }

    /** `ByAttribute(tagAttribute, int attributeValue, exact)`: the number in decimal. */
    method ByAttributeInt(a: Tags.TagAttribute, value: int, exact: bool) returns (r: WebElement)
      modifies this
      ensures r == this && searchCache == old(searchCache)
      ensures Snapshot() == AddAttribute(old(Snapshot()), Tags.AttributeName(a), Numbers.FormatInt(value), exact)
    {
      r := ByAttributeNamed(Tags.AttributeName(a), Numbers.FormatInt(value), exact);
    }

    method ById(id: string, exact: bool) returns (r: WebElement)
      modifies this
      ensures r == this && searchCache == old(searchCache)
      ensures Snapshot() == AddAttribute(old(Snapshot()), "id", id, exact)
    {
      Tags.AttributeNamesListed();
      r := ByAttribute(Tags.Id, id, exact);
    }

    method ByIdInt(id: int, exact: bool) returns (r: WebElement)
      modifies this
      ensures r == this && searchCache == old(searchCache)
      ensures Snapshot() == AddAttribute(old(Snapshot()), "id", Numbers.FormatInt(id), exact)
    {
      Tags.AttributeNamesListed();
      r := ByAttribute(Tags.Id, Numbers.FormatInt(id), exact);
    }

    method ByName(name: string, exact: bool) returns (r: WebElement)
      modifies this
      ensures r == this && searchCache == old(searchCache)
      ensures Snapshot() == AddAttribute(old(Snapshot()), "name", name, exact)
    {
      Tags.AttributeNamesListed();
      r := ByAttribute(Tags.Name, name, exact);
    }

    method ByClass(className: string, exact: bool) returns (r: WebElement)
      modifies this
      ensures r == this && searchCache == old(searchCache)
      ensures Snapshot() == AddAttribute(old(Snapshot()), "class", className, exact)
    {
      Tags.AttributeNamesListed();
      r := ByAttribute(Tags.Class, className, exact);
    }

    method ByTitle(title: string, exact: bool) returns (r: WebElement)
      modifies this
      ensures r == this && searchCache == old(searchCache)
      ensures Snapshot() == AddAttribute(old(Snapshot()), "title", title, exact)
    {
      Tags.AttributeNamesListed();
      r := ByAttribute(Tags.Title, title, exact);
    }

    method ByHref(href: string, exact: bool) returns (r: WebElement)
      modifies this
      ensures r == this && searchCache == old(searchCache)
      ensures Snapshot() == AddAttribute(old(Snapshot()), "href", href, exact)
    {
      Tags.AttributeNamesListed();
      r := ByAttribute(Tags.Href, href, exact);
    }

    method ByType(typeName: string, exact: bool) returns (r: WebElement)
      modifies this
      ensures r == this && searchCache == old(searchCache)
      ensures Snapshot() == AddAttribute(old(Snapshot()), "type", typeName, exact)
    {
      Tags.AttributeNamesListed();
      r := ByAttribute(Tags.Type, typeName, exact);
    }

    method ByTagName(tag: Tags.TagName) returns (r: WebElement)
      modifies this
      ensures r == this && searchCache == old(searchCache)
      ensures Snapshot() == AddTag(old(Snapshot()), tag)
    {
      firstSelector := KeepFirst(firstSelector, TagName(Tags.ElementName(tag)));
      searchTags := searchTags + [tag];
      return this;
    }

    /** `ByXPath(xPath)`: refused, with nothing changed, once a selector was chosen. */
    method ByXPath(x: string) returns (r: Result<WebElement, BuildError>)
      modifies this
      ensures searchCache == old(searchCache)
      ensures r.Success? ==> r.value == this
      ensures match SetXPath(old(Snapshot()), x)
        case Success(c) => r.Success? && Snapshot() == c
        case Failure(e) => r == Failure(e) && Snapshot() == old(Snapshot())
    {
      if firstSelector.Some? {
        return Failure(XPathNotFirst);
      }
      firstSelector := Some(XPath(x));
      xPath := Some(x);
      return Success(this);
    }

    method ByIndex(i: int) returns (r: WebElement)
      modifies this
      ensures r == this && searchCache == old(searchCache)
      ensures Snapshot() == SetIndex(old(Snapshot()), i)
    {
      index := i;
      return this;
    }

    method First() returns (r: WebElement)
      modifies this
      ensures r == this && searchCache == old(searchCache)
      ensures Snapshot() == SetIndex(old(Snapshot()), 0)
    {
      r := ByIndex(0);
    }

    method Last() returns (r: WebElement)
      modifies this
      ensures r == this && searchCache == old(searchCache)
      ensures Snapshot() == SetIndex(old(Snapshot()), -1)
    {
      r := ByIndex(-1);
    }

    method IncludeHidden() returns (r: WebElement)
      modifies this
      ensures r == this && searchCache == old(searchCache)
      ensures Snapshot() == SetIncludeHidden(old(Snapshot()))
    {
      searchHidden := true;
      return this;
    }

    method ByText(text: string, exact: bool) returns (r: WebElement)
      modifies this
      ensures r == this && searchCache == old(searchCache)
      ensures Snapshot() == SetText(old(Snapshot()), text, exact)
    {
      firstSelector := KeepFirst(firstSelector, XPath(TextXPath(text, exact)));
      textSearchData := Some(TextSearchData(text, exact));
      return this;
    }

    /** Runs one builder step on the fields. */
    method Step(step: SearchCriteria.Step) returns (r: Result<WebElement, BuildError>)
      modifies this
      ensures searchCache == old(searchCache)
      ensures match ApplyStep(old(Snapshot()), step)
        case Success(c) => r == Success(this) && Snapshot() == c
        case Failure(e) => r == Failure(e) && Snapshot() == old(Snapshot())
    {
      match step
      case AttributeStep(name, value, exact) =>
        var w := ByAttributeNamed(name, value, exact);
        r := Success(w);
      case TagStep(tag) =>
        var w := ByTagName(tag);
        r := Success(w);
      case XPathStep(x) =>
        r := ByXPath(x);
      case IndexStep(i) =>
        var w := ByIndex(i);
        r := Success(w);
      case IncludeHiddenStep =>
        var w := IncludeHidden();
        r := Success(w);
      case TextStep(text, exact) =>
        var w := ByText(text, exact);
        r := Success(w);
    }

    /** A chain of builder calls, stopping at the first refused one. */
    method Chain(steps: seq<SearchCriteria.Step>) returns (r: Result<WebElement, BuildError>)
      modifies this
      ensures searchCache == old(searchCache)
      ensures r.Success? <==> Apply(old(Snapshot()), steps).Success?
      ensures r.Success? ==> r.value == this && Snapshot() == Apply(old(Snapshot()), steps).value
    {
      ghost var start := Snapshot();
      var i := 0;
      while i < |steps|
        invariant 0 <= i <= |steps|
        invariant searchCache == old(searchCache)
        invariant Apply(start, steps) == Apply(Snapshot(), steps[i..])
      {
        ghost var before := Snapshot();
        var s := Step(steps[i]);
        if s.Failure? {
          assert Apply(before, steps[i..]) == Failure(s.error);
          return s;
        }
        assert steps[i..][1..] == steps[i + 1..];
        i := i + 1;
      }
      return Success(this);
    }

    /** `CacheSearchResult()`, with `found` the elements the search finds now. */
    method CacheSearchResult(found: seq<Element>)
      modifies this
      ensures searchCache == Some(found) && Snapshot() == old(Snapshot())
    {
      searchCache := Some(found);
    }

    method ClearSearchResultCache()
      modifies this
      ensures searchCache == None && Snapshot() == old(Snapshot())
    {
      searchCache := None;
    }

    /**
     * `ForEach(action)`: cache the elements, move the builder to each
     * position in turn (`ByIndex(i)`) and hand it to the action, then drop
     * the cache.  The result is the positions visited; the builder is left at
     * the last one.
     */
    method ForEach(found: seq<Element>) returns (visited: seq<nat>)
      modifies this
      ensures visited == Range(0, |found|)
      ensures searchCache == None
      ensures Snapshot() == if found == [] then old(Snapshot()) else SetIndex(old(Snapshot()), |found| - 1)
    {
      CacheSearchResult(found);
      visited := [];
      var i := 0;
      while i < |found|
        invariant 0 <= i <= |found|
        invariant |visited| == i && forall k :: 0 <= k < i ==> visited[k] == k
        invariant Snapshot() == if i == 0 then old(Snapshot()) else SetIndex(old(Snapshot()), i - 1)
      {
        var _ := ByIndex(i);
        visited := visited + [i];
        i := i + 1;
      }
      ClearSearchResultCache();
    }

    /**
     * `Select(action)`: what the action yields for each position, in order.
     * `transform(i)` is the action's result on the builder moved to `i`.
     */
    method Select<T>(found: seq<Element>, transform: nat -> T) returns (result: seq<T>)
      modifies this
      ensures |result| == |found|
      ensures forall i :: 0 <= i < |found| ==> result[i] == transform(i)
      ensures searchCache == None
      ensures Snapshot() == if found == [] then old(Snapshot()) else SetIndex(old(Snapshot()), |found| - 1)
    {
      CacheSearchResult(found);
      result := [];
      var i := 0;
      while i < |found|
        invariant 0 <= i <= |found|
        invariant |result| == i && forall j :: 0 <= j < i ==> result[j] == transform(j)
        invariant Snapshot() == if i == 0 then old(Snapshot()) else SetIndex(old(Snapshot()), i - 1)
      {
        var e := ByIndex(i);
        result := result + [transform(i)];
        i := i + 1;
      }
      ClearSearchResultCache();
    }

    /**
     * `Where(action)` as written: for each position whose test passes it adds
     * the element the action was handed, which is the builder itself.  The
     * list is as long as the number of matches, but every entry is this
     * builder, and when it returns the builder is at the last position.
     */
    method Where(found: seq<Element>, test: nat -> bool) returns (result: seq<WebElement>)
      modifies this
      ensures |result| == |Matches(0, |found|, test)|
      ensures forall j :: 0 <= j < |result| ==> result[j] == this
      ensures searchCache == None
      ensures Snapshot() == if found == [] then old(Snapshot()) else SetIndex(old(Snapshot()), |found| - 1)
    {
      CacheSearchResult(found);
      result := [];
      var i := 0;
      while i < |found|
        invariant 0 <= i <= |found|
        invariant |result| + |Matches(i, |found|, test)| == |Matches(0, |found|, test)|
        invariant forall j :: 0 <= j < |result| ==> result[j] == this
        invariant Snapshot() == if i == 0 then old(Snapshot()) else SetIndex(old(Snapshot()), i - 1)
      {
        var e := ByIndex(i);
        if test(i) {
          result := result + [e];
        }
        i := i + 1;
      }
      ClearSearchResultCache();
    }

    /**
     * `Where` as evidently intended: the positions whose test passes, in
     * order, each of which addresses the matching element.
     */
    method WhereMatches(found: seq<Element>, test: nat -> bool) returns (result: seq<nat>)
      modifies this
      ensures result == Matches(0, |found|, test)
      ensures Selects(result, Range(0, |found|), test)
      ensures searchCache == None
      ensures Snapshot() == if found == [] then old(Snapshot()) else SetIndex(old(Snapshot()), |found| - 1)
    {
      CacheSearchResult(found);
      result := [];
      var i := 0;
      while i < |found|
        invariant 0 <= i <= |found|
        invariant result + Matches(i, |found|, test) == Matches(0, |found|, test)
        invariant Snapshot() == if i == 0 then old(Snapshot()) else SetIndex(old(Snapshot()), i - 1)
      {
        var _ := ByIndex(i);
        if test(i) {
          result := result + [i];
        }
        i := i + 1;
      }
      assert result == Matches(0, |found|, test) by {
        assert Matches(|found|, |found|, test) == [];
        assert result + [] == result;
      }
      MatchesAreWhere(0, |found|, test);
      ClearSearchResultCache();
    }

    /**
     * `Single(action)`: `Where(action).Single()`, on the corrected `Where`:
     * when exactly one position matches, the builder is moved to it.
     */
    method Single(found: seq<Element>, test: nat -> bool) returns (r: Result<WebElement, SingleError>)
      modifies this
      ensures var m := Matches(0, |found|, test);
        && (r.Success? <==> |m| == 1)
        && (|m| == 0 ==> r == Failure(NoElements))
        && (|m| > 1 ==> r == Failure(MoreThanOneElement))
        && (r.Success? ==> r.value == this && Snapshot() == SetIndex(old(Snapshot()), m[0]))
      ensures r.Failure? ==>
        Snapshot() == if found == [] then old(Snapshot()) else SetIndex(old(Snapshot()), |found| - 1)
      ensures searchCache == None
    {
      var matches := WhereMatches(found, test);
      if |matches| == 0 {
        return Failure(NoElements);
      } else if |matches| > 1 {
        return Failure(MoreThanOneElement);
      }
      var w := ByIndex(matches[0]);
      return Success(w);
    }
  }

  /**
   * `Where` hands back the builder, not the matches: with two elements of
   * which only the first passes, the one entry returned is positioned at the
   * second element.
   */
  method WhereAliasingExample() returns (w: WebElement, result: seq<WebElement>)
    ensures result == [w]
    ensures w.index == 1
  {
    w := new WebElement();
    var a := Element("div", "a", true, true, false, map[]);
    var b := Element("div", "b", true, true, false, map[]);
    var test := (i: nat) => i == 0;
    assert Matches(0, 2, test) == [0];
    result := w.Where([a, b], test);
    assert |result| == 1;
  }
}
