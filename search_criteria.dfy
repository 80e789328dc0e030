/**
 * The search criteria a `WebElement` collects (the `ByCriteria` region of
 * ElementExtensions.cs), as values.
 *
 * Every builder call of `WebElement` is one step below: it appends to the
 * attribute or tag list, sets a flag, or offers a selector that is kept only
 * when no selector was chosen before ("first selector wins").  `ByXPath`
 * insists that it chooses the first selector; here that demand is an error
 * result rather than a failed contract.
 */
module SearchCriteria {
  import opened Wrappers
  import Tags

  /** The Selenium locators the builder creates: `By.XPath` and `By.TagName`. */
  datatype By = XPath(expression: string) | TagName(name: string)

  /** `SearchProperty`: one attribute criterion. */
  datatype SearchProperty = SearchProperty(attributeName: string, attributeValue: string, exactMatch: bool)

  /** `TextSearchData`: the text criterion. */
  datatype TextSearchData = TextSearchData(text: string, exactMatch: bool)

  /**
   * The search fields of `WebElement`: `_firstSelector`, `_searchProperties`,
   * `_searchTags`, `_searchHidden`, `_index`, `_xPath` and `_textSearchData`.
   */
  datatype Criteria = Criteria(
    firstSelector: Option<By>,
    properties: seq<SearchProperty>,
    tags: seq<Tags.TagName>,
    searchHidden: bool,
    index: int,
    xPath: Option<string>,
    textSearch: Option<TextSearchData>)

  /** The criteria of a freshly constructed `WebElement`. */
  const Empty := Criteria(None, [], [], false, 0, None, None)

  /** `ByXPath` called after another criterion already chose the selector. */
  datatype BuildError = XPathNotFirst

  // ---------------------------------------------------------------- strings

  predicate StartsWith(s: string, prefix: string)
  {
    |prefix| <= |s| && s[..|prefix|] == prefix
  }

  predicate EndsWith(s: string, suffix: string)
  {
    |suffix| <= |s| && s[|s| - |suffix|..] == suffix
  }

  /** The part of `s` between `prefix` and `suffix`, when `s` has that shape. */
  function Between(s: string, prefix: string, suffix: string): (r: Option<string>)
    ensures r.Some? ==> s == prefix + r.value + suffix
  {
    if StartsWith(s, prefix) && |prefix| + |suffix| <= |s| && EndsWith(s, suffix) then
      var v := s[|prefix|..|s| - |suffix|];
      assert s == s[..|prefix|] + v + s[|s| - |suffix|..];
      Some(v)
    else None
  }

  lemma BetweenRoundTrip(prefix: string, v: string, suffix: string)
    ensures Between(prefix + v + suffix, prefix, suffix) == Some(v)
  {
    var s := prefix + v + suffix;
    assert s[..|prefix|] == prefix;
    assert s[|s| - |suffix|..] == suffix;
    assert s[|prefix|..|s| - |suffix|] == v;
  }

  /** The position of the first `c` in `s`, or `|s|` when there is none. */
  function FindChar(s: string, c: char): (r: nat)
    ensures r <= |s|
    ensures c !in s[..r]
    ensures r < |s| ==> s[r] == c
    decreases |s|
  {
    if s == [] then 0
    else if s[0] == c then 0
    else
      var r := FindChar(s[1..], c);
      assert s[..r + 1] == [s[0]] + s[1..][..r];
      r + 1
  }

  lemma {:induction false} FindCharAfter(a: string, c: char, b: string)
    requires c !in a && b != [] && b[0] == c
    ensures FindChar(a + b, c) == |a|
    decreases |a|
  {
    if a != [] {
      assert (a + b)[1..] == a[1..] + b;
      FindCharAfter(a[1..], c, b);
    }
  }

  // ---------------------------------------------------------------- XPath selectors

  const AttributeExactPrefix := "//*[@"
  const AttributeContainsPrefix := "//*[contains(@"

  /**
   * The XPath `ByAttribute` searches with: any element whose attribute `N`
   * equals `"V"` for an exact match, or contains it otherwise.
   */
  function AttributeXPath(name: string, value: string, exact: bool): (r: string)
    ensures |r| == |name| + |value| + if exact then 9 else 20
  {
    if exact then AttributeExactPrefix + name + "=\"" + value + "\"]"
    else AttributeContainsPrefix + name + ", \"" + value + "\")]"
  }

  /**
   * Reads `name`, `open`, `value`, `close` from what follows the prefix: the
   * name runs up to the first `separator`.
   */
  function ParseAttributeTail(rest: string, separator: char, open: string, close: string, exact: bool)
    : (r: Option<SearchProperty>)
    ensures r.Some? ==> r.value.exactMatch == exact
    ensures r.Some? ==> rest == r.value.attributeName + open + r.value.attributeValue + close
  {
    var i := FindChar(rest, separator);
    var name, tail := rest[..i], rest[i..];
    assert rest == name + tail;
    match Between(tail, open, close)
    case Some(v) => Some(SearchProperty(name, v, exact))
    case None => None
  }

  /** Putting a prefix in front of a four-part string. */
  lemma PrefixConcat(prefix: string, a: string, b: string, c: string, d: string)
    ensures prefix + (a + b + c + d) == prefix + a + b + c + d
  {
  }

  /** Reads the attribute criterion back out of an `AttributeXPath` string. */
  function ParseAttributeXPath(x: string): (r: Option<SearchProperty>)
    ensures r.Some? ==> x == AttributeXPath(r.value.attributeName, r.value.attributeValue, r.value.exactMatch)
  {
    if StartsWith(x, AttributeExactPrefix) then
      var rest := x[|AttributeExactPrefix|..];
      assert x == AttributeExactPrefix + rest;
      var r := ParseAttributeTail(rest, '=', "=\"", "\"]", true);
      if r.Some? then
        PrefixConcat(AttributeExactPrefix, r.value.attributeName, "=\"", r.value.attributeValue, "\"]");
        r
      else None
    else if StartsWith(x, AttributeContainsPrefix) then
      var rest := x[|AttributeContainsPrefix|..];
      assert x == AttributeContainsPrefix + rest;
      var r := ParseAttributeTail(rest, ',', ", \"", "\")]", false);
      if r.Some? then
        PrefixConcat(AttributeContainsPrefix, r.value.attributeName, ", \"", r.value.attributeValue, "\")]");
        r
      else None
    else None
  }

  /**
   * The selector determines the criterion: for an attribute name without
   * `=` and `,` (every name of `TagAttributes` qualifies) the name, the value
   * and the kind of match can be read back from the XPath.
   */
  lemma AttributeXPathRoundTrip(name: string, value: string, exact: bool)
    requires '=' !in name && ',' !in name
    ensures ParseAttributeXPath(AttributeXPath(name, value, exact)) == Some(SearchProperty(name, value, exact))
  {
    var x := AttributeXPath(name, value, exact);
    if exact {
      var tail := "=\"" + value + "\"]";
      assert x == AttributeExactPrefix + (name + tail);
      assert x[|AttributeExactPrefix|..] == name + tail;
      FindCharAfter(name, '=', tail);
      assert (name + tail)[..|name|] == name;
      assert (name + tail)[|name|..] == tail;
      BetweenRoundTrip("=\"", value, "\"]");
    } else {
      var tail := ", \"" + value + "\")]";
      assert x == AttributeContainsPrefix + (name + tail);
      assert x[|AttributeContainsPrefix|..] == name + tail;
      assert x[..5] != AttributeExactPrefix by {
        assert x[4] == 'c';
      }
      FindCharAfter(name, ',', tail);
      assert (name + tail)[..|name|] == name;
      assert (name + tail)[|name|..] == tail;
      BetweenRoundTrip(", \"", value, "\")]");
    }
  }

  /** Every attribute name of `TagAttributes` can be read back from its selector. */
  lemma TagAttributeXPathRoundTrip(a: Tags.TagAttribute, value: string, exact: bool)
    ensures var name := Tags.AttributeName(a);
      ParseAttributeXPath(AttributeXPath(name, value, exact)) == Some(SearchProperty(name, value, exact))
  {
    var name := Tags.AttributeName(a);
    Tags.AttributeNameIsMarkupName(a);
    assert '=' !in name && ',' !in name;
    AttributeXPathRoundTrip(name, value, exact);
  }

  const TextExactPrefix := "//*[text()=\""
  const TextContainsPrefix := "//*[contains(text(), \""

  /**
   * The XPath `ByText` searches with: any element whose text node equals
   * `"T"` for an exact match, or contains it otherwise.
   */
  function TextXPath(text: string, exact: bool): (r: string)
    ensures exact ==> Between(r, TextExactPrefix, "\"]") == Some(text)
    ensures !exact ==> Between(r, TextContainsPrefix, "\")]") == Some(text)
  {
    BetweenRoundTrip(TextExactPrefix, text, "\"]");
    BetweenRoundTrip(TextContainsPrefix, text, "\")]");
    if exact then TextExactPrefix + text + "\"]"
    else TextContainsPrefix + text + "\")]"
  }

  /** Reads the text criterion back out of a `TextXPath` string. */
  function ParseTextXPath(x: string): (r: Option<TextSearchData>)
    ensures r.Some? ==> x == TextXPath(r.value.text, r.value.exactMatch)
  {
    match Between(x, TextExactPrefix, "\"]")
    case Some(t) => Some(TextSearchData(t, true))
    case None =>
      match Between(x, TextContainsPrefix, "\")]")
      case Some(t) => Some(TextSearchData(t, false))
      case None => None
  }

  /** The text criterion can always be read back from its selector. */
  lemma TextXPathRoundTrip(text: string, exact: bool)
    ensures ParseTextXPath(TextXPath(text, exact)) == Some(TextSearchData(text, exact))
  {
    var x := TextXPath(text, exact);
    if !exact {
      assert x[..|TextExactPrefix|][4] == 'c';
    }
  }

  // ---------------------------------------------------------------- builder steps

  /** `_firstSelector = _firstSelector ?? selector`. */
  function KeepFirst(current: Option<By>, selector: By): (r: Option<By>)
    ensures current.Some? ==> r == current
    ensures current.None? ==> r == Some(selector)
  {
    if current.Some? then current else Some(selector)
  }

  /** `ByAttribute(name, value, exact)`. */
  function AddAttribute(c: Criteria, name: string, value: string, exact: bool): (r: Criteria)
    ensures r.properties == c.properties + [SearchProperty(name, value, exact)]
    ensures r.firstSelector == KeepFirst(c.firstSelector, XPath(AttributeXPath(name, value, exact)))
    ensures r.(firstSelector := c.firstSelector, properties := c.properties) == c
  {
    c.(firstSelector := KeepFirst(c.firstSelector, XPath(AttributeXPath(name, value, exact))),
       properties := c.properties + [SearchProperty(name, value, exact)])
  }

  /** `ByTagName(tag)`: the selector is `By.TagName` of the element name. */
  function AddTag(c: Criteria, tag: Tags.TagName): (r: Criteria)
    ensures r.tags == c.tags + [tag]
    ensures r.firstSelector == KeepFirst(c.firstSelector, TagName(Tags.ElementName(tag)))
    ensures r.(firstSelector := c.firstSelector, tags := c.tags) == c
  {
    c.(firstSelector := KeepFirst(c.firstSelector, TagName(Tags.ElementName(tag))),
       tags := c.tags + [tag])
  }

  /** `ByXPath(xPath)`: only allowed as the first selector. */
  function SetXPath(c: Criteria, xPath: string): (r: Result<Criteria, BuildError>)
    ensures r.Failure? <==> c.firstSelector.Some?
    ensures r.Success? ==> r.value.firstSelector == Some(XPath(xPath)) && r.value.xPath == Some(xPath)
    ensures r.Success? ==> r.value.(firstSelector := c.firstSelector, xPath := c.xPath) == c
  {
    if c.firstSelector.Some? then Failure(XPathNotFirst)
    else Success(c.(firstSelector := Some(XPath(xPath)), xPath := Some(xPath)))
  }

  /** `ByText(text, exact)`: the text criterion is replaced, the selector is first-wins. */
  function SetText(c: Criteria, text: string, exact: bool): (r: Criteria)
    ensures r.textSearch == Some(TextSearchData(text, exact))
    ensures r.firstSelector == KeepFirst(c.firstSelector, XPath(TextXPath(text, exact)))
    ensures r.(firstSelector := c.firstSelector, textSearch := c.textSearch) == c
  {
    c.(firstSelector := KeepFirst(c.firstSelector, XPath(TextXPath(text, exact))),
       textSearch := Some(TextSearchData(text, exact)))
  }

  /** `ByIndex(index)`; `First()` is index 0 and `Last()` index -1. */
  function SetIndex(c: Criteria, index: int): (r: Criteria)
    ensures r.index == index && r.(index := c.index) == c
  {
    c.(index := index)
  }

  /** `IncludeHidden()`. */
  function SetIncludeHidden(c: Criteria): (r: Criteria)
    ensures r.searchHidden && r.(searchHidden := c.searchHidden) == c
  {
    c.(searchHidden := true)
  }

  /** One builder call. */
  datatype Step =
    | AttributeStep(name: string, value: string, exact: bool)
    | TagStep(tag: Tags.TagName)
    | XPathStep(xPath: string)
    | IndexStep(index: int)
    | IncludeHiddenStep
    | TextStep(text: string, exact: bool)

  function ApplyStep(c: Criteria, step: Step): Result<Criteria, BuildError>
  {
    match step
    case AttributeStep(name, value, exact) => Success(AddAttribute(c, name, value, exact))
    case TagStep(tag) => Success(AddTag(c, tag))
    case XPathStep(xPath) => SetXPath(c, xPath)
    case IndexStep(index) => Success(SetIndex(c, index))
    case IncludeHiddenStep => Success(SetIncludeHidden(c))
    case TextStep(text, exact) => Success(SetText(c, text, exact))
  }

  /** A chain of builder calls, stopping at the first that fails. */
  function Apply(c: Criteria, steps: seq<Step>): Result<Criteria, BuildError>
    decreases |steps|
  {
    if steps == [] then Success(c)
    else
      match ApplyStep(c, steps[0])
      case Failure(e) => Failure(e)
      case Success(next) => Apply(next, steps[1..])
  }

  /** The selector a step offers, if any. */
  function SelectorOf(step: Step): Option<By>
  {
    match step
    case AttributeStep(name, value, exact) => Some(XPath(AttributeXPath(name, value, exact)))
    case TagStep(tag) => Some(TagName(Tags.ElementName(tag)))
    case XPathStep(xPath) => Some(XPath(xPath))
    case TextStep(text, exact) => Some(XPath(TextXPath(text, exact)))
    case _ => None
  }

  /** The selector offered first in a chain of steps. */
  function FirstSelectorIn(steps: seq<Step>): Option<By>
    decreases |steps|
  {
    if steps == [] then None
    else if SelectorOf(steps[0]).Some? then SelectorOf(steps[0])
    else FirstSelectorIn(steps[1..])
  }

  /** The attribute criterion a step adds, if any. */
  function PropertyOf(step: Step): seq<SearchProperty>
  {
    if step.AttributeStep? then [SearchProperty(step.name, step.value, step.exact)] else []
  }

  /** The tag criterion a step adds, if any. */
  function TagOf(step: Step): seq<Tags.TagName>
  {
    if step.TagStep? then [step.tag] else []
  }

  /** The attribute criteria of a chain, in call order. */
  function PropertiesIn(steps: seq<Step>): seq<SearchProperty>
    decreases |steps|
  {
    if steps == [] then [] else PropertyOf(steps[0]) + PropertiesIn(steps[1..])
  }

  /** The tag criteria of a chain, in call order. */
  function TagsIn(steps: seq<Step>): seq<Tags.TagName>
    decreases |steps|
  {
    if steps == [] then [] else TagOf(steps[0]) + TagsIn(steps[1..])
  }

  /** Every `ByXPath` of the chain comes before any other selector is chosen. */
  predicate XPathFirst(c: Criteria, steps: seq<Step>)
  {
    forall i :: 0 <= i < |steps| && steps[i].XPathStep? ==>
      c.firstSelector.None? && FirstSelectorIn(steps[..i]).None?
  }

  lemma XPathFirstTail(c: Criteria, steps: seq<Step>, next: Criteria)
    requires steps != [] && ApplyStep(c, steps[0]) == Success(next)
    ensures XPathFirst(c, steps) <==> XPathFirst(next, steps[1..])
  {
    var s0 := steps[0];
    assert next.firstSelector == (if c.firstSelector.Some? then c.firstSelector else SelectorOf(s0));
    forall i | 1 <= i < |steps|
      ensures FirstSelectorIn(steps[..i]) == (if SelectorOf(s0).Some? then SelectorOf(s0) else FirstSelectorIn(steps[1..][..i - 1]))
    {
      assert steps[..i][1..] == steps[1..][..i - 1];
    }
    if XPathFirst(c, steps) {
      forall j | 0 <= j < |steps[1..]| && steps[1..][j].XPathStep?
        ensures next.firstSelector.None? && FirstSelectorIn(steps[1..][..j]).None?
      {
        assert steps[j + 1].XPathStep?;
      }
    }
    if XPathFirst(next, steps[1..]) {
      forall i | 0 <= i < |steps| && steps[i].XPathStep?
        ensures c.firstSelector.None? && FirstSelectorIn(steps[..i]).None?
      {
        if i > 0 {
          assert steps[1..][i - 1].XPathStep?;
        }
      }
    }
  }

  /**
   * A chain of builder calls succeeds exactly when every `ByXPath` in it
   * comes before any selector was chosen.
   */
  lemma {:induction false} ApplySucceedsIff(c: Criteria, steps: seq<Step>)
    ensures Apply(c, steps).Success? <==> XPathFirst(c, steps)
    decreases |steps|
  {
    if steps != [] {
      match ApplyStep(c, steps[0])
      case Failure(_) =>
        assert steps[0].XPathStep? && c.firstSelector.Some?;
      case Success(next) =>
        XPathFirstTail(c, steps, next);
        ApplySucceedsIff(next, steps[1..]);
    }
  }

  /** What one successful builder call leaves. */
  lemma StepAccumulates(c: Criteria, step: Step)
    requires ApplyStep(c, step).Success?
    ensures var r := ApplyStep(c, step).value;
      && r.firstSelector == (if c.firstSelector.Some? then c.firstSelector else SelectorOf(step))
      && r.properties == c.properties + PropertyOf(step)
      && r.tags == c.tags + TagOf(step)
      && r.searchHidden == (c.searchHidden || step == IncludeHiddenStep)
      && (!step.IndexStep? ==> r.index == c.index)
  {
  }

  /**
   * After a successful chain of builder calls the selector is the one chosen
   * before the chain, or else the first one the chain offers.
   */
  lemma {:induction false} ApplyKeepsFirstSelector(c: Criteria, steps: seq<Step>)
    requires Apply(c, steps).Success?
    ensures Apply(c, steps).value.firstSelector
         == if c.firstSelector.Some? then c.firstSelector else FirstSelectorIn(steps)
    decreases |steps|
  {
    if steps != [] {
      var next := ApplyStep(c, steps[0]).value;
      assert Apply(c, steps) == Apply(next, steps[1..]);
      StepAccumulates(c, steps[0]);
      ApplyKeepsFirstSelector(next, steps[1..]);
    }
  }

  /** A successful chain appends its attribute criteria in call order. */
  lemma {:induction false} ApplyAppendsProperties(c: Criteria, steps: seq<Step>)
    ensures Apply(c, steps).Success? ==>
      Apply(c, steps).value.properties == c.properties + PropertiesIn(steps)
    decreases |steps|
  {
    if steps != [] {
      var first := ApplyStep(c, steps[0]);
      if first.Success? {
        StepAccumulates(c, steps[0]);
        ApplyAppendsProperties(first.value, steps[1..]);
      }
    }
  }

  /** A successful chain appends its tag criteria in call order. */
  lemma {:induction false} ApplyAppendsTags(c: Criteria, steps: seq<Step>)
    ensures Apply(c, steps).Success? ==>
      Apply(c, steps).value.tags == c.tags + TagsIn(steps)
    decreases |steps|
  {
    if steps != [] {
      var first := ApplyStep(c, steps[0]);
      if first.Success? {
        StepAccumulates(c, steps[0]);
        ApplyAppendsTags(first.value, steps[1..]);
      }
    }
  }

  /**
   * After a successful chain hidden elements are included once any call
   * asked for it, and the index is untouched unless a call set it.
   */
  lemma {:induction false} ApplySetsFlags(c: Criteria, steps: seq<Step>)
    requires Apply(c, steps).Success?
    ensures Apply(c, steps).value.searchHidden == (c.searchHidden || IncludeHiddenStep in steps)
    ensures (forall i :: 0 <= i < |steps| ==> !steps[i].IndexStep?) ==> Apply(c, steps).value.index == c.index
    decreases |steps|
  {
    if steps != [] {
      var step, more := steps[0], steps[1..];
      assert steps == [step] + more;
      var next := ApplyStep(c, step).value;
      assert Apply(c, steps) == Apply(next, more);
      StepAccumulates(c, step);
      ApplySetsFlags(next, more);
      assert IncludeHiddenStep in steps <==> step == IncludeHiddenStep || IncludeHiddenStep in more;
      assert (forall i :: 0 <= i < |steps| ==> !steps[i].IndexStep?) ==>
        !step.IndexStep? && forall i :: 0 <= i < |more| ==> !more[i].IndexStep?;
    }
  }

  // ---------------------------------------------------------------- SearchCriteriaToString

  function MatchKind(exact: bool): string
  {
    if exact then "exact" else "contains"
  }

  /** `"{name}: {value} ({exact|contains})"`. */
  function PropertyEntry(p: SearchProperty): string
  {
    p.attributeName + ": " + p.attributeValue + " (" + MatchKind(p.exactMatch) + ")"
  }

  /** `"tag: {tag}"` formats the enum member itself, that is its field name. */
  function TagEntry(t: Tags.TagName): string
  {
    "tag: " + Tags.TagFieldName(t)
  }

  function PropertyEntries(ps: seq<SearchProperty>): (r: seq<string>)
    ensures |r| == |ps|
    ensures forall i :: 0 <= i < |ps| ==> r[i] == PropertyEntry(ps[i])
    decreases |ps|
  {
    if ps == [] then [] else [PropertyEntry(ps[0])] + PropertyEntries(ps[1..])
  }

  function TagEntries(ts: seq<Tags.TagName>): (r: seq<string>)
    ensures |r| == |ts|
    ensures forall i :: 0 <= i < |ts| ==> r[i] == TagEntry(ts[i])
    decreases |ts|
  {
    if ts == [] then [] else [TagEntry(ts[0])] + TagEntries(ts[1..])
  }

  /**
   * The entries `SearchCriteriaToString` joins: attribute criteria, then tags,
   * then the XPath, then the text criterion.
   */
  function Entries(c: Criteria): (r: seq<string>)
    ensures |r| == |c.properties| + |c.tags| + (if c.xPath.Some? then 1 else 0) + (if c.textSearch.Some? then 1 else 0)
    ensures forall i :: 0 <= i < |c.properties| ==> r[i] == PropertyEntry(c.properties[i])
    ensures forall i :: 0 <= i < |c.tags| ==> r[|c.properties| + i] == TagEntry(c.tags[i])
    ensures c.xPath.Some? ==> r[|c.properties| + |c.tags|] == "XPath: " + c.xPath.value
    ensures c.textSearch.Some? ==>
      r[|r| - 1] == "text: " + c.textSearch.value.text + " (" + MatchKind(c.textSearch.value.exactMatch) + ")"
  {
    PropertyEntries(c.properties) + TagEntries(c.tags)
    + (match c.xPath case Some(x) => ["XPath: " + x] case None => [])
    + (match c.textSearch
       case Some(t) => ["text: " + t.text + " (" + MatchKind(t.exactMatch) + ")"]
       case None => [])
  }

  /** `string.Join(separator, items)`. */
  function Join(separator: string, items: seq<string>): (r: string)
    ensures items == [] ==> r == ""
    ensures |items| == 1 ==> r == items[0]
    ensures items != [] ==> StartsWith(r, items[0])
    decreases |items|
  {
    if items == [] then ""
    else if |items| == 1 then items[0]
    else items[0] + separator + Join(separator, items[1..])
  }

  /** Joining one more item appends the separator and the item. */
  lemma {:induction false} JoinAppend(separator: string, items: seq<string>, item: string)
    requires items != []
    ensures Join(separator, items + [item]) == Join(separator, items) + separator + item
    decreases |items|
  {
    if |items| > 1 {
      assert (items + [item])[1..] == items[1..] + [item];
      JoinAppend(separator, items[1..], item);
    }
  }

  /**
   * `SearchCriteriaToString()`: empty exactly when no criterion is set, and
   * otherwise led by the first attribute criterion when there is one.
   */
  function CriteriaToString(c: Criteria): (r: string)
    ensures r == "" <==> c.properties == [] && c.tags == [] && c.xPath.None? && c.textSearch.None?
    ensures c.properties != [] ==> StartsWith(r, PropertyEntry(c.properties[0]))
  {
    var entries := Entries(c);
    assert entries != [] ==> entries[0] != "" by {
      if c.properties == [] && c.tags == [] && c.xPath.Some? {
        assert entries[0] == "XPath: " + c.xPath.value;
      }
    }
    Join(", ", entries)
  }

  /** A builder with no criteria describes itself as the empty string. */
  lemma EmptyCriteriaString()
    ensures CriteriaToString(Empty) == ""
  {
  }

  /**
   * With only attribute criteria so far, `ByAttribute` appends `", "` and
   * the new entry (or the entry alone, for the first criterion).
   */
  lemma AddAttributeString(c: Criteria, name: string, value: string, exact: bool)
    requires c.tags == [] && c.xPath.None? && c.textSearch.None?
    ensures var s := CriteriaToString(AddAttribute(c, name, value, exact));
      var entry := name + ": " + value + " (" + MatchKind(exact) + ")";
      s == if c.properties == [] then entry else CriteriaToString(c) + ", " + entry
  {
    var r := AddAttribute(c, name, value, exact);
    var entry := PropertyEntry(SearchProperty(name, value, exact));
    assert Entries(r) == Entries(c) + [entry];
    if c.properties != [] {
      JoinAppend(", ", Entries(c), entry);
    }
  }

  lemma ConcatRegroup<T>(a: seq<T>, b: seq<T>, c: seq<T>, d: seq<T>)
    ensures a + b + c + d == a + (b + c + d)
  {
  }

  /**
   * `ByAttribute` on any builder: the new entry follows the earlier attribute
   * entries, and the tag, XPath and text entries are unchanged after it.
   */
  lemma AddAttributeEntries(c: Criteria, name: string, value: string, exact: bool)
    ensures var e := Entries(c);
      Entries(AddAttribute(c, name, value, exact))
        == e[..|c.properties|] + [PropertyEntry(SearchProperty(name, value, exact))] + e[|c.properties|..]
  {
    var r := AddAttribute(c, name, value, exact);
    var p := SearchProperty(name, value, exact);
    var before := PropertyEntries(c.properties);
    var after := PropertyEntries(r.properties);
    assert after == before + [PropertyEntry(p)];
    var tags := TagEntries(c.tags);
    var x: seq<string> := match c.xPath case Some(x) => ["XPath: " + x] case None => [];
    var t: seq<string> := match c.textSearch
      case Some(t) => ["text: " + t.text + " (" + MatchKind(t.exactMatch) + ")"]
      case None => [];
    var rest := tags + x + t;
    ConcatRegroup(before, tags, x, t);
    ConcatRegroup(after, tags, x, t);
    assert (before + rest)[..|before|] == before;
    assert (before + rest)[|before|..] == rest;
  }

  /**
   * The description lists attribute criteria before tags whatever order the
   * calls came in: adding an attribute and a tag in either order describes
   * the same search.
   */
  lemma CriteriaStringIgnoresCallOrder(c: Criteria, name: string, value: string, exact: bool, tag: Tags.TagName)
    ensures CriteriaToString(AddTag(AddAttribute(c, name, value, exact), tag))
         == CriteriaToString(AddAttribute(AddTag(c, tag), name, value, exact))
  {
    assert Entries(AddTag(AddAttribute(c, name, value, exact), tag))
        == Entries(AddAttribute(AddTag(c, tag), name, value, exact));
  }
}
