/**
 * The `WebElementFilters` region of ElementExtensions.cs: the selections a
 * search applies to the elements the first selector found.
 *
 * Each filter is stated on its own.  How the search composes them, and
 * where `_index` is applied, is not part of this model.
 */
module Filters {
  import opened Wrappers
  import opened Elements
  import opened SearchCriteria
  import Tags
  import Strings
  import Extensions

  // ---------------------------------------------------------------- visibility

  predicate IsDisplayed(e: Element)
  {
    e.displayed
  }

  /** `FilterByVisibility`: hidden elements are dropped unless `IncludeHidden` was called. */
  function FilterByVisibility(searchHidden: bool, elements: seq<Element>): (r: seq<Element>)
    ensures searchHidden ==> r == elements
    ensures !searchHidden ==> Selects(r, elements, IsDisplayed)
  {
    if searchHidden then elements else Where(elements, IsDisplayed)
  }

  // ---------------------------------------------------------------- tags

  /** The element's tag is the element name of `tag`. */
  predicate HasTag(tag: Tags.TagName, e: Element)
  {
    e.tagName == Tags.ElementName(tag)
  }

  predicate HasAllTags(tags: seq<Tags.TagName>, e: Element)
  {
    forall i :: 0 <= i < |tags| ==> HasTag(tags[i], e)
  }

  /**
   * `FilterByTagNames`: `Aggregate` over the tag list, each step keeping the
   * elements with that tag, so an element must carry every listed tag.
   */
  function FilterByTagNames(tags: seq<Tags.TagName>, elements: seq<Element>): (r: seq<Element>)
    ensures tags == [] ==> r == elements
    ensures Selects(r, elements, e => HasAllTags(tags, e))
    decreases |tags|
  {
    if tags == [] then
      SelectsAll(elements, e => HasAllTags(tags, e));
      elements
    else
      var current := Where(elements, e => HasTag(tags[0], e));
      var r := FilterByTagNames(tags[1..], current);
      forall e
        ensures HasAllTags(tags, e) == (HasTag(tags[0], e) && HasAllTags(tags[1..], e))
      {
        HasAllTagsSplit(tags, e);
      }
      SelectsCompose(r, current, elements, e => HasTag(tags[0], e),
        e => HasAllTags(tags[1..], e), e => HasAllTags(tags, e));
      r
  }

  lemma HasAllTagsSplit(tags: seq<Tags.TagName>, e: Element)
    requires tags != []
    ensures HasAllTags(tags, e) == (HasTag(tags[0], e) && HasAllTags(tags[1..], e))
  {
    if HasTag(tags[0], e) && HasAllTags(tags[1..], e) {
      forall i | 0 <= i < |tags| ensures HasTag(tags[i], e) {
        if i > 0 {
          assert tags[1..][i - 1] == tags[i];
        }
      }
    }
    if HasAllTags(tags, e) {
      forall i | 0 <= i < |tags[1..]| ensures HasTag(tags[1..][i], e) {
        assert tags[1..][i] == tags[i + 1];
      }
    }
  }

  /**
   * Tags are combined with AND: a list naming two different tags keeps
   * nothing, because no element has two tag names.
   */
  lemma ConflictingTagsSelectNothing(tags: seq<Tags.TagName>, elements: seq<Element>, i: nat, j: nat)
    requires i < |tags| && j < |tags| && tags[i] != tags[j]
    ensures FilterByTagNames(tags, elements) == []
  {
    Tags.ElementNameInjective(tags[i], tags[j]);
    SelectsNone(FilterByTagNames(tags, elements), elements, e => HasAllTags(tags, e));
  }

  /** `ByTagName` adds one more tag step to the filter. */
  lemma AddedTagFiltersOnce(tags: seq<Tags.TagName>, tag: Tags.TagName, elements: seq<Element>)
    ensures FilterByTagNames(tags + [tag], elements)
         == Where(FilterByTagNames(tags, elements), e => HasTag(tag, e))
  {
    var t := FilterByTagNames(tags, elements);
    var r := Where(t, e => HasTag(tag, e));
    var all := tags + [tag];
    forall e
      ensures HasAllTags(all, e) == (HasAllTags(tags, e) && HasTag(tag, e))
    {
      if HasAllTags(tags, e) && HasTag(tag, e) {
        forall i | 0 <= i < |all| ensures HasTag(all[i], e) {
          if i < |tags| {
            assert all[i] == tags[i];
          }
        }
      }
      if HasAllTags(all, e) {
        assert all[|tags|] == tag;
        forall i | 0 <= i < |tags| ensures HasTag(tags[i], e) {
          assert all[i] == tags[i];
        }
      }
    }
    SelectsCompose(r, t, elements, e => HasAllTags(tags, e), e => HasTag(tag, e), e => HasAllTags(all, e));
    SelectsUnique(r, FilterByTagNames(all, elements), elements, e => HasAllTags(all, e));
  }

  // ---------------------------------------------------------------- text

  predicate HasText(text: string, e: Element)
  {
    e.text == text
  }

  predicate ContainsText(text: string, e: Element)
  {
    Extensions.Contains(e.text, text, Strings.InvariantCultureIgnoreCase)
  }

  /**
   * `FilterByText`: no text criterion keeps everything; otherwise the text
   * must equal the criterion (exact) or contain it, ignoring case.
   */
  function FilterByText(textSearch: Option<TextSearchData>, elements: seq<Element>): (r: seq<Element>)
    ensures textSearch.None? ==> r == elements
    ensures textSearch.Some? && textSearch.value.exactMatch ==>
      Selects(r, elements, e => HasText(textSearch.value.text, e))
    ensures textSearch.Some? && !textSearch.value.exactMatch ==>
      Selects(r, elements, e => ContainsText(textSearch.value.text, e))
  {
    match textSearch
    case None => elements
    case Some(t) =>
      if t.exactMatch then Where(elements, e => HasText(t.text, e))
      else Where(elements, e => ContainsText(t.text, e))
  }

  /** Every string contains itself under any comparison. */
  lemma ContainsItself(s: string, cmp: Strings.StringComparison)
    ensures Extensions.Contains(s, s, cmp)
  {
    assert Strings.MatchesAt(s, s, 0, cmp);
  }

  /** An exact text match is also a "contains" match. */
  lemma ExactTextIsContained(text: string, e: Element)
    ensures HasText(text, e) ==> ContainsText(text, e)
  {
    ContainsItself(text, Strings.InvariantCultureIgnoreCase);
  }

  // ---------------------------------------------------------------- attributes

  /**
   * The element has the attribute (`GetAttribute` is not null) and its value
   * equals the criterion's (exact) or contains it, ordinally (otherwise).
   */
  predicate AttributeMatches(p: SearchProperty, e: Element)
  {
    match GetAttribute(e, p.attributeName)
    case None => false
    case Some(v) => if p.exactMatch then v == p.attributeValue else Strings.OrdinalContains(v, p.attributeValue)
  }

  /** `FilterByTagAttribute(elements, searchProperty)`. */
  function FilterByTagAttribute(elements: seq<Element>, p: SearchProperty): (r: seq<Element>)
    ensures Selects(r, elements, e => AttributeMatches(p, e))
  {
    Where(elements, e => AttributeMatches(p, e))
  }

  predicate MatchesAllProperties(ps: seq<SearchProperty>, e: Element)
  {
    forall i :: 0 <= i < |ps| ==> AttributeMatches(ps[i], e)
  }

  /**
   * `FilterByTagAttributes`: `Aggregate` over the attribute criteria, so an
   * element must match every one of them.
   */
  function FilterByTagAttributes(ps: seq<SearchProperty>, elements: seq<Element>): (r: seq<Element>)
    ensures ps == [] ==> r == elements
    ensures Selects(r, elements, e => MatchesAllProperties(ps, e))
    decreases |ps|
  {
    if ps == [] then
      SelectsAll(elements, e => MatchesAllProperties(ps, e));
      elements
    else
      var current := FilterByTagAttribute(elements, ps[0]);
      var r := FilterByTagAttributes(ps[1..], current);
      assert forall e :: MatchesAllProperties(ps, e) == (AttributeMatches(ps[0], e) && MatchesAllProperties(ps[1..], e)) by {
        forall e
          ensures MatchesAllProperties(ps, e) == (AttributeMatches(ps[0], e) && MatchesAllProperties(ps[1..], e))
        {
          if AttributeMatches(ps[0], e) && MatchesAllProperties(ps[1..], e) {
            forall i | 0 <= i < |ps| ensures AttributeMatches(ps[i], e) {
              if i > 0 {
                assert ps[1..][i - 1] == ps[i];
              }
            }
          }
          if MatchesAllProperties(ps, e) {
            forall i | 0 <= i < |ps[1..]| ensures AttributeMatches(ps[1..][i], e) {
              assert ps[1..][i] == ps[i + 1];
            }
          }
        }
      }
      SelectsCompose(r, current, elements, e => AttributeMatches(ps[0], e),
        e => MatchesAllProperties(ps[1..], e), e => MatchesAllProperties(ps, e));
      r
  }

  /** `ByAttribute` adds one more attribute step to the filter. */
  lemma AddedPropertyFiltersOnce(ps: seq<SearchProperty>, p: SearchProperty, elements: seq<Element>)
    ensures FilterByTagAttributes(ps + [p], elements)
         == FilterByTagAttribute(FilterByTagAttributes(ps, elements), p)
  {
    var t := FilterByTagAttributes(ps, elements);
    var r := FilterByTagAttribute(t, p);
    var all := ps + [p];
    forall e
      ensures MatchesAllProperties(all, e) == (MatchesAllProperties(ps, e) && AttributeMatches(p, e))
    {
      if MatchesAllProperties(ps, e) && AttributeMatches(p, e) {
        forall i | 0 <= i < |all| ensures AttributeMatches(all[i], e) {
          if i < |ps| {
            assert all[i] == ps[i];
          }
        }
      }
      if MatchesAllProperties(all, e) {
        assert all[|ps|] == p;
        forall i | 0 <= i < |ps| ensures AttributeMatches(ps[i], e) {
          assert all[i] == ps[i];
        }
      }
    }
    SelectsCompose(r, t, elements, e => MatchesAllProperties(ps, e), e => AttributeMatches(p, e),
      e => MatchesAllProperties(all, e));
    SelectsUnique(r, FilterByTagAttributes(all, elements), elements, e => MatchesAllProperties(all, e));
  }

  /**
   * An exact attribute match is also a "contains" match, so the exact filter
   * keeps a subsequence of what the inexact one keeps.
   */
  lemma ExactAttributeIsContained(name: string, value: string, elements: seq<Element>)
    ensures IsSubsequence(FilterByTagAttribute(elements, SearchProperty(name, value, true)),
                          FilterByTagAttribute(elements, SearchProperty(name, value, false)))
  {
    var exact := SearchProperty(name, value, true);
    var loose := SearchProperty(name, value, false);
    var r := FilterByTagAttribute(elements, exact);
    var t := FilterByTagAttribute(elements, loose);
    forall e | AttributeMatches(exact, e)
      ensures AttributeMatches(loose, e)
    {
      ContainsItself(value, Strings.Ordinal);
    }
    var u := Where(t, e => AttributeMatches(exact, e));
    SelectsCompose(u, t, elements, e => AttributeMatches(loose, e), e => AttributeMatches(exact, e),
      e => AttributeMatches(exact, e));
    SelectsUnique(u, r, elements, e => AttributeMatches(exact, e));
  }
}
