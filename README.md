# SeleniumExtensions, modelled in Dafny

SeleniumExtensions is a fluent layer over Selenium WebDriver. A `WebElement`
is built up from search criteria: attributes, tag names, an XPath, a text,
an index, and whether hidden elements count. The criteria are then resolved
against the page and filtered in memory. Around the builder are a few small
helpers:

- `WaitHelper` polls a condition until it holds or a timeout runs out.
- `Extensions` has string `Contains` and `ToInt`.
- `EnumHelper` reads an enum member's `[Description]`.
- `DirectoryHelper` clears file attribute bits.
- The `Tags` enums name HTML attributes and elements.

This project models these parts and proves what they promise:

| file | module | what it models |
|---|---|---|
| `wrappers.dfy` | `Wrappers` | `Option`, `Result`, `Outcome` |
| `enum_helper.dfy` | `EnumHelper` | `GetEnumDescription` as a table lookup; the `Browsers` enum |
| `tags.dfy` | `Tags` | the `TagAttributes` and `TagNames` enums and their description strings |
| `strings.dfy` | `Strings` | `string.IndexOf` under the ordinal and case-insensitive comparisons |
| `numbers.dfy` | `Numbers` | `int.Parse` for 32-bit integers and the decimal `ToString()` of an integer |
| `extensions.dfy` | `Extensions` | `Contains(string, string, StringComparison)` and `ToInt` |
| `directory_helper.dfy` | `DirectoryHelper` | `ResetAttributes` on a 32-bit `FileAttributes` mask |
| `wait_helper.dfy` | `Waiting` | `WaitHelper`: the polling loop, `EnsureSatisfied`, `SpinWait`, `Try`, `MakeTry`, `Min` |
| `elements.dfy` | `Elements` | the part of an `IWebElement` the filters read; LINQ `Where` |
| `search_criteria.dfy` | `SearchCriteria` | the search criteria as a value; the XPath strings the builder writes; each builder step; `SearchCriteriaToString` |
| `filters.dfy` | `Filters` | `FilterByVisibility`, `FilterByTagNames`, `FilterByText`, `FilterByTagAttribute(s)` |
| `web_actions.dfy` | `WebActions` | the `Text`/`TextInt` get and set logic; `Click`, `Set`, `SetCheck`; `JavaScriptEvents` |
| `web_element.dfy` | `WebElements` | the `WebElement` builder class; `CacheSearchResult`, `ForEach`, `Select`, `Where`, `Single` |

How the model is built:

- Time is integer milliseconds. Each `WaitFor` is given the condition's outcome for each evaluation and the time that passes before each stopwatch reading. The loop is the method `Waiting.PollLoop`. It is proved equal to the recursive function `Waiting.Poll`, and the lemmas about `Poll` state the source's promises.
- The builder class `WebElements.WebElement` keeps the source's fields. `Snapshot()` collects them into a `SearchCriteria.Criteria` value, and every builder method is proved to change that value exactly as the matching pure step in `SearchCriteria` does.
- The filters are pure functions over sequences of elements. They are specified with `Elements.Selects`: an order-preserving subsequence that keeps every element satisfying the predicate and nothing else. `Elements.SelectsUnique` shows that this fixes the result.

## Model

| member | source | states |
|---|---|---|
| EnumHelper.GetEnumDescription | SeleniumExtensions/Extensions.cs:23-30 | the first description when the member has one, otherwise the field name |
| EnumHelper.BrowserDescriptionsListed | SeleniumExtensions/Extensions.cs:12-19 | Firefox is "Mozilla Firefox" and Chrome is "Google Chrome"; neither falls back to its field name; the map is injective |
| Tags.AttributeName | SeleniumExtensions/Tags/Tags.cs:5-43 | the attribute's HTML name is its `[Description]`, never the fallback to the field name |
| Tags.AttributeNamesListed | SeleniumExtensions/Tags/Tags.cs:5-43 | each `TagAttributes` member maps to its listed string, from `Id` to "id" through `DataPolicyId` to "data-policy-id" |
| Tags.AttributeNameNeverFallsBack | SeleniumExtensions/Tags/Tags.cs:5-43 | every attribute member has exactly one description, the lookup returns it, and it differs from the field name |
| Tags.AttributeNameIsMarkupName | SeleniumExtensions/Tags/Tags.cs:5-43 | every attribute name is non-empty and made of lower-case ASCII letters and '-' |
| Tags.AttributeNameInjective | SeleniumExtensions/Tags/Tags.cs:5-43 | no two attribute members share a name |
| Tags.ElementName | SeleniumExtensions/Tags/Tags.cs:45-67 | the tag's element name is its `[Description]`, never the fallback to the field name |
| Tags.ElementNamesListed | SeleniumExtensions/Tags/Tags.cs:45-67 | each `TagNames` member maps to its listed element name, e.g. `Link` to "a", `InlineFrame` to "iframe" |
| Tags.ElementNameNeverFallsBack | SeleniumExtensions/Tags/Tags.cs:45-67 | every tag member has exactly one description, the lookup returns it, and it differs from the field name |
| Tags.ElementNameIsMarkupName | SeleniumExtensions/Tags/Tags.cs:45-67 | every element name is non-empty and made of lower-case ASCII letters and '-' |
| Tags.ElementNameInjective | SeleniumExtensions/Tags/Tags.cs:45-67 | no two tag members share an element name |
| Strings.IndexOfFrom | SeleniumExtensions/Extensions.cs:37 | from a start position: -1 exactly when no later position matches, otherwise the first matching position |
| Strings.IndexOf | SeleniumExtensions/Extensions.cs:37 | -1 exactly when the target occurs nowhere; otherwise a position where it occurs with no earlier occurrence |
| Strings.OrdinalMatchIsSlice | SeleniumExtensions/Extensions.cs:37 | an ordinal match at `i` means the target is the slice of the source starting at `i` |
| Extensions.Contains | SeleniumExtensions/Extensions.cs:35-38 | `Contains` holds exactly when the target occurs in the source at some position under the comparison |
| Extensions.ContainsBounds | SeleniumExtensions/Extensions.cs:35-38 | every string contains the empty string; no string contains a longer one |
| Extensions.ToInt | SeleniumExtensions/Extensions.cs:45-48 | `None` or "" gives 0; otherwise the result of `int.Parse`, which is a 32-bit integer or an error |
| Extensions.ToIntRoundTrip | SeleniumExtensions/Extensions.cs:45-48 | `ToInt` reads back every 32-bit integer from its decimal form |
| Numbers.DigitsRoundTrip | SeleniumExtensions/ElementExtensions.cs:78 | the decimal digits of a natural number evaluate back to it |
| Numbers.FormatInt | SeleniumExtensions/ElementExtensions.cs:78 | the invariant decimal form is non-empty, starts with '-' exactly for a negative number, and is otherwise digits |
| Numbers.ParseInt32 | SeleniumExtensions/Extensions.cs:47 | on success, the value is a 32-bit integer |
| Numbers.ParseFormatRoundTrip | SeleniumExtensions/Extensions.cs:47 | `int.Parse` of the decimal form of a 32-bit integer gives that integer |
| Numbers.ParseFormatErrorIff | SeleniumExtensions/Extensions.cs:47 | for every input: a format error exactly when the trimmed text is not an optional sign followed by one or more digits |
| Numbers.ParseRejectsNonNumbers | SeleniumExtensions/Extensions.cs:47 | examples: white space only, a lone sign and trailing letters are format errors; a leading '+' is accepted |
| Numbers.TrimUnchanged | SeleniumExtensions/Extensions.cs:47 | trimming leaves a string without surrounding white space alone |
| Numbers.ParseTrimmedDigits | SeleniumExtensions/Extensions.cs:47 | an optional '-' followed by digits parses to its value when that value fits in 32 bits |
| DirectoryHelper.ResetAttributes | SeleniumExtensions/Extensions.cs:213-216 | Archive, ReadOnly and Hidden are cleared; every other bit is kept |
| DirectoryHelper.ResetAttributesBits | SeleniumExtensions/Extensions.cs:213-216 | bit `i` is set in the result exactly when it was set before and is not one of the three cleared bits |
| DirectoryHelper.ResetAttributesIdempotent | SeleniumExtensions/Extensions.cs:213-216 | resetting twice is resetting once; a mask without those bits is unchanged |
| Waiting.Min | SeleniumExtensions/Extensions.cs:179-182 | the result is one of the two arguments and no greater than either |
| Waiting.Poll | SeleniumExtensions/Extensions.cs:99-110 | at least one evaluation; satisfied exactly when the last evaluation was true; when not satisfied, the stopwatch is past the timeout |
| Waiting.PollRounds | SeleniumExtensions/Extensions.cs:99-109 | every round before the last saw the condition false; its sleep is `Min(timeout - elapsed, interval)`, lies between 0 and the interval, and ends by the timeout |
| Waiting.PollLastRound | SeleniumExtensions/Extensions.cs:101-107 | the loop ends at its last reading; when it gives up, that round's sleep amount is negative |
| Waiting.PollFirstTrue | SeleniumExtensions/Extensions.cs:99 | a condition true on its first evaluation ends the loop satisfied, without sleeping |
| Waiting.PollEvaluationsBounded | SeleniumExtensions/Extensions.cs:99-110 | on the model's clock, where every stopwatch reading is at least one tick later than the one before, the loop evaluates the condition at most `timeout - elapsed + 1` times |
| Waiting.PollWithoutBudget | SeleniumExtensions/Extensions.cs:99-110 | with the timeout already reached, one evaluation decides the result |
| Waiting.PollLoop | SeleniumExtensions/Extensions.cs:99-110 | the `while` loop returns what `Poll` describes, and its sleeps are the `SleepAmount` of each round |
| Waiting.WaitHelper.WithTimeout | SeleniumExtensions/Extensions.cs:70-83 | the timeout and interval must not be negative; the fields are set; the helper starts satisfied |
| Waiting.WaitHelper.WithTimeoutEverySecond | SeleniumExtensions/Extensions.cs:66-68 | the same, with a 1000 ms interval |
| Waiting.WaitHelper.WaitFor | SeleniumExtensions/Extensions.cs:90-113 | an unsatisfied helper returns without evaluating anything; `isSatisfied` never becomes true again; otherwise the new state is the outcome of `Poll` |
| Waiting.WaitHelper.EnsureSatisfied | SeleniumExtensions/Extensions.cs:120-126 | fails with a `TimeoutException` exactly when the helper is not satisfied |
| Waiting.WaitHelper.EnsureSatisfiedWithMessage | SeleniumExtensions/Extensions.cs:128-136 | fails exactly when not satisfied, carrying the given message |
| Waiting.SpinWait | SeleniumExtensions/Extensions.cs:143-146 | the outcome of one `WaitFor` on a fresh helper; true when the condition holds at once; with timeout 0, the first outcome |
| Waiting.SpinWaitEverySecond | SeleniumExtensions/Extensions.cs:138-141 | `SpinWait` with a 1000 ms interval |
| Waiting.Try | SeleniumExtensions/Extensions.cs:155-172 | succeeds exactly when the action completes normally, and then the exception is null; otherwise it holds the thrown exception |
| Waiting.TrySucceeds | SeleniumExtensions/Extensions.cs:148-153 | `Try(action)` returns true exactly when the action completes without throwing |
| Waiting.MakeTry | SeleniumExtensions/Extensions.cs:174-177 | the condition holds exactly when that run of the action completes normally |
| Elements.GetAttribute | SeleniumExtensions/ElementExtensions.cs:540-541 | `Some` exactly when the element has the attribute, with its value |
| Elements.Where | SeleniumExtensions/ElementExtensions.cs:512 | the result selects the elements satisfying the predicate, in order, and is no longer than the input |
| Elements.SelectsUnique | SeleniumExtensions/ElementExtensions.cs:512 | two selections of the same predicate from the same sequence are equal |
| Elements.SelectsCompose | SeleniumExtensions/ElementExtensions.cs:517 | selecting by `p` and then by `q` selects by `p && q`, which is what chained `Where` calls do |
| Elements.SelectsMembers | SeleniumExtensions/ElementExtensions.cs:512 | a value is in the selection exactly when it is in the input and satisfies the predicate |
| Elements.SubsequenceTransitive | SeleniumExtensions/ElementExtensions.cs:517 | a subsequence of a subsequence is a subsequence |
| SearchCriteria.AttributeXPath | SeleniumExtensions/ElementExtensions.cs:430-432 | the length is the name and value lengths plus 9 when exact or 20 otherwise; `ParseAttributeXPath` reads the name, value and match kind back (`AttributeXPathRoundTrip`) |
| SearchCriteria.ParseAttributeXPath | SeleniumExtensions/ElementExtensions.cs:430-432 | whatever it reads back rebuilds the XPath it read |
| SearchCriteria.AttributeXPathRoundTrip | SeleniumExtensions/ElementExtensions.cs:430-432 | the attribute name, value and match kind can be read back from the XPath when the name has no '=' or ',' |
| SearchCriteria.TagAttributeXPathRoundTrip | SeleniumExtensions/ElementExtensions.cs:322-325 | for every `TagAttributes` member the XPath can be read back |
| SearchCriteria.TextXPath | SeleniumExtensions/ElementExtensions.cs:418-420 | `//*[text()="T"]` when exact, `//*[contains(text(), "T")]` otherwise |
| SearchCriteria.TextXPathRoundTrip | SeleniumExtensions/ElementExtensions.cs:418-420 | the text and match kind can be read back from the XPath |
| SearchCriteria.KeepFirst | SeleniumExtensions/ElementExtensions.cs:361 | `_firstSelector ?? selector`: an existing selector is kept, otherwise the new one is used |
| SearchCriteria.AddAttribute | SeleniumExtensions/ElementExtensions.cs:428-445 | appends exactly one search property; the first selector wins; nothing else changes |
| SearchCriteria.AddTag | SeleniumExtensions/ElementExtensions.cs:357-365 | appends the tag; the first selector wins with the element name; nothing else changes |
| SearchCriteria.SetXPath | SeleniumExtensions/ElementExtensions.cs:367-376 | fails exactly when a selector is already set; otherwise sets the selector and `_xPath` and nothing else |
| SearchCriteria.SetText | SeleniumExtensions/ElementExtensions.cs:416-426 | records the text criterion; the first selector wins with the text XPath; nothing else changes |
| SearchCriteria.SetIndex | SeleniumExtensions/ElementExtensions.cs:378-383 | sets the index and nothing else |
| SearchCriteria.SetIncludeHidden | SeleniumExtensions/ElementExtensions.cs:409-414 | sets `_searchHidden` and nothing else |
| SearchCriteria.XPathFirstTail | SeleniumExtensions/ElementExtensions.cs:367-376 | the "XPath only first" rule holds for a chain exactly when it holds for the rest after its first call |
| SearchCriteria.ApplySucceedsIff | SeleniumExtensions/ElementExtensions.cs:367-376 | a chain of builder calls succeeds exactly when no `ByXPath` comes after a selector was chosen |
| SearchCriteria.StepAccumulates | SeleniumExtensions/ElementExtensions.cs:357-445 | what one successful builder call adds to the criteria |
| SearchCriteria.ApplyKeepsFirstSelector | SeleniumExtensions/ElementExtensions.cs:361 | after a chain, the selector is the one set before it, or else the first one the chain offered |
| SearchCriteria.ApplyAppendsProperties | SeleniumExtensions/ElementExtensions.cs:437-442 | a chain appends its attribute criteria in call order |
| SearchCriteria.ApplyAppendsTags | SeleniumExtensions/ElementExtensions.cs:362 | a chain appends its tags in call order |
| SearchCriteria.ApplySetsFlags | SeleniumExtensions/ElementExtensions.cs:378-414 | hidden elements are included once any call asked for it; the index is unchanged unless a call set it |
| SearchCriteria.PropertyEntries | SeleniumExtensions/ElementExtensions.cs:471-475 | one "name: value (exact or contains)" entry per property, in order |
| SearchCriteria.TagEntries | SeleniumExtensions/ElementExtensions.cs:477-478 | one "tag: " entry per tag, in order |
| SearchCriteria.Entries | SeleniumExtensions/ElementExtensions.cs:469-491 | properties first, then tags, then the "XPath: " entry right after the tags, then the text criterion, which is last |
| SearchCriteria.Join | SeleniumExtensions/ElementExtensions.cs:492 | no items give "", one item gives itself |
| SearchCriteria.JoinAppend | SeleniumExtensions/ElementExtensions.cs:492 | joining one more item appends the separator and the item |
| SearchCriteria.CriteriaToString | SeleniumExtensions/ElementExtensions.cs:469-493 | the description is empty exactly when no attribute, tag, XPath or text criterion is set, and starts with the first attribute entry when there is one |
| SearchCriteria.EmptyCriteriaString | SeleniumExtensions/ElementExtensions.cs:469-493 | a builder without criteria describes itself as "" |
| SearchCriteria.AddAttributeEntries | SeleniumExtensions/ElementExtensions.cs:469-493 | on any builder, a new attribute's entry is inserted right after the earlier attribute entries; the tag, XPath and text entries follow unchanged |
| SearchCriteria.AddAttributeString | SeleniumExtensions/ElementExtensions.cs:469-493 | with only attribute criteria, a new one adds ", " and its entry |
| SearchCriteria.CriteriaStringIgnoresCallOrder | SeleniumExtensions/ElementExtensions.cs:469-493 | adding an attribute and a tag in either order gives the same description |
| Filters.FilterByVisibility | SeleniumExtensions/ElementExtensions.cs:510-513 | the input unchanged when hidden elements are included; otherwise exactly the displayed ones, in order |
| Filters.FilterByTagNames | SeleniumExtensions/ElementExtensions.cs:515-518 | the identity for no tags; otherwise exactly the elements carrying every listed tag, in order |
| Filters.HasAllTagsSplit | SeleniumExtensions/ElementExtensions.cs:517 | matching all tags means matching the first one and all the others |
| Filters.ConflictingTagsSelectNothing | SeleniumExtensions/ElementExtensions.cs:517 | two different tags in the list keep nothing |
| Filters.AddedTagFiltersOnce | SeleniumExtensions/ElementExtensions.cs:517 | one more tag filters the previous result once more |
| Filters.FilterByText | SeleniumExtensions/ElementExtensions.cs:520-530 | the identity with no text criterion; otherwise the elements whose text equals it (exact) or contains it ignoring case |
| Filters.ContainsItself | SeleniumExtensions/ElementExtensions.cs:526 | every string contains itself |
| Filters.ExactTextIsContained | SeleniumExtensions/ElementExtensions.cs:524-526 | an exact text match is also a contains match |
| Filters.FilterByTagAttribute | SeleniumExtensions/ElementExtensions.cs:537-542 | exactly the elements that have the attribute and whose value equals (exact) or ordinally contains the criterion, in order |
| Filters.FilterByTagAttributes | SeleniumExtensions/ElementExtensions.cs:532-535 | the identity for no criteria; otherwise exactly the elements matching every criterion, in order |
| Filters.AddedPropertyFiltersOnce | SeleniumExtensions/ElementExtensions.cs:534 | one more criterion filters the previous result once more |
| Filters.ExactAttributeIsContained | SeleniumExtensions/ElementExtensions.cs:539-541 | the exact filter keeps a subsequence of what the contains filter keeps |
| WebActions.EventName | SeleniumExtensions/ElementExtensions.cs:287-294 | the jQuery method name is the event's `[Description]`, never the fallback to the field name |
| WebActions.EventNamesListed | SeleniumExtensions/ElementExtensions.cs:287-294 | `KeyUp` is "keyup" and `Click` is "click"; the names are distinct and differ from the field names |
| WebActions.TextSetActions | SeleniumExtensions/ElementExtensions.cs:48-67 | input and textarea are cleared natively, other elements by Ctrl+A then Delete; an empty value stops there; otherwise the value is assigned and a keyup event is tried |
| WebActions.TextGet | SeleniumExtensions/ElementExtensions.cs:68-73 | the element's text when it is not empty, otherwise its `value` attribute |
| WebActions.TextIntGet | SeleniumExtensions/ElementExtensions.cs:79 | no value or "" reads as 0; any other text is `int.Parse`d, so a success is a 32-bit integer |
| WebActions.TextIntSetActions | SeleniumExtensions/ElementExtensions.cs:78 | the text setter with the decimal form of the number, which is then assigned |
| WebActions.PerformOne | SeleniumExtensions/ElementExtensions.cs:54-64 | the driver actions leave the element's text and tag name alone |
| WebActions.PerformAppend | SeleniumExtensions/ElementExtensions.cs:48-67 | performing two lists of actions is performing one after the other |
| WebActions.TextRoundTrip | SeleniumExtensions/ElementExtensions.cs:46-73 | on an element without text, reading `Text` after setting a non-empty value gives that value, for values without a double quote, backslash or line terminator |
| WebActions.TextIntRoundTrip | SeleniumExtensions/ElementExtensions.cs:76-80 | reading `TextInt` after setting a 32-bit integer gives that integer |
| WebActions.ClickPlan | SeleniumExtensions/ElementExtensions.cs:106-131 | a disabled element fails; otherwise a jQuery "click" event unless jQuery is off or the element is a link |
| WebActions.FirstRegistered | SeleniumExtensions/ElementExtensions.cs:146-156 | the first attempt from `from` whose click registers, or the bound when none does |
| WebActions.SetCheckRounds | SeleniumExtensions/ElementExtensions.cs:144-156 | between 1 and 10 rounds; every round before the last had a click that did not register |
| WebActions.SetCheckSucceedsIff | SeleniumExtensions/ElementExtensions.cs:146-158 | `SetCheck` reaches the value exactly when it already held or a click registers within 10 attempts |
| WebActions.LiveElement.Click | SeleniumExtensions/ElementExtensions.cs:106-131 | returns the click `ClickPlan` chooses for the element, so it fails exactly when the element is disabled, changing nothing; otherwise clicks once |
| WebActions.LiveElement.Set | SeleniumExtensions/ElementExtensions.cs:248-254 | clicks only when `Selected` differs from the value |
| WebActions.LiveElement.SetCheck | SeleniumExtensions/ElementExtensions.cs:138-159 | passes exactly when `Selected` equals the value at the end, after at most 10 rounds that stop at the first success; otherwise fails its final assertion |
| WebElements.Range | SeleniumExtensions/ElementExtensions.cs:209 | `Enumerable.Range`: the positions in order |
| WebElements.MatchesAreWhere | SeleniumExtensions/ElementExtensions.cs:225-237 | the positions `Where` admits are the LINQ `Where` of the range |
| WebElements.WebElement.constructor | SeleniumExtensions/ElementExtensions.cs:313-320 | a new builder has no criteria and no cache |
| WebElements.WebElement.ByAttributeNamed | SeleniumExtensions/ElementExtensions.cs:428-445 | the criteria become `AddAttribute` of the old ones; returns the builder |
| WebElements.WebElement.ByAttribute | SeleniumExtensions/ElementExtensions.cs:322-325 | `ByAttributeNamed` with the attribute's description |
| WebElements.WebElement.ByAttributeInt | SeleniumExtensions/ElementExtensions.cs:327-330 | the same with the decimal form of the number |
| WebElements.WebElement.ById | SeleniumExtensions/ElementExtensions.cs:332-335 | an attribute criterion on "id" |
| WebElements.WebElement.ByIdInt | SeleniumExtensions/ElementExtensions.cs:337-340 | an attribute criterion on "id" with the decimal form of the number |
| WebElements.WebElement.ByName | SeleniumExtensions/ElementExtensions.cs:342-345 | an attribute criterion on "name" |
| WebElements.WebElement.ByClass | SeleniumExtensions/ElementExtensions.cs:347-350 | an attribute criterion on "class" |
| WebElements.WebElement.ByTitle | SeleniumExtensions/ElementExtensions.cs:352-355 | an attribute criterion on "title" |
| WebElements.WebElement.ByHref | SeleniumExtensions/ElementExtensions.cs:385-388 | an attribute criterion on "href" |
| WebElements.WebElement.ByType | SeleniumExtensions/ElementExtensions.cs:390-393 | an attribute criterion on "type" |
| WebElements.WebElement.ByTagName | SeleniumExtensions/ElementExtensions.cs:357-365 | the criteria become `AddTag` of the old ones |
| WebElements.WebElement.ByXPath | SeleniumExtensions/ElementExtensions.cs:367-376 | refused, with nothing changed, when a selector is set; otherwise the criteria become `SetXPath` of the old ones |
| WebElements.WebElement.ByIndex | SeleniumExtensions/ElementExtensions.cs:378-383 | sets the index only |
| WebElements.WebElement.First | SeleniumExtensions/ElementExtensions.cs:395-400 | sets the index to 0 only |
| WebElements.WebElement.Last | SeleniumExtensions/ElementExtensions.cs:402-407 | sets the index to -1 only |
| WebElements.WebElement.IncludeHidden | SeleniumExtensions/ElementExtensions.cs:409-414 | sets `_searchHidden` only |
| WebElements.WebElement.ByText | SeleniumExtensions/ElementExtensions.cs:416-426 | the criteria become `SetText` of the old ones |
| WebElements.WebElement.Step | SeleniumExtensions/ElementExtensions.cs:357-445 | one builder call changes the fields as `ApplyStep` says |
| WebElements.WebElement.Chain | SeleniumExtensions/ElementExtensions.cs:357-445 | a chain of builder calls succeeds exactly when `Apply` does, with the criteria it gives |
| WebElements.WebElement.CacheSearchResult | SeleniumExtensions/ElementExtensions.cs:186-189 | stores the found elements; the criteria are unchanged |
| WebElements.WebElement.ClearSearchResultCache | SeleniumExtensions/ElementExtensions.cs:191-194 | drops the cache; the criteria are unchanged |
| WebElements.WebElement.ForEach | SeleniumExtensions/ElementExtensions.cs:203-212 | visits the positions 0 to Count-1 in order, leaves the index at the last one, and drops the cache |
| WebElements.WebElement.Select | SeleniumExtensions/ElementExtensions.cs:214-223 | one result per position, in order, each what the action gives on that position |
| WebElements.WebElement.Where | SeleniumExtensions/ElementExtensions.cs:225-237 | as written: one entry per matching position, and every entry is the builder itself |
| WebElements.WebElement.WhereMatches | SeleniumExtensions/ElementExtensions.cs:225-237 | as intended: exactly the matching positions, in order; the index is left at the last position and the cache is dropped |
| WebElements.WebElement.Single | SeleniumExtensions/ElementExtensions.cs:239-242 | on the corrected `Where`: succeeds exactly when one position matches, and then the builder is moved to that position; no match and several matches are distinct errors, after which the criteria are unchanged, the cache is cleared and the index is at the last found position (unchanged when nothing was found) |
| WebElements.WhereAliasingExample | SeleniumExtensions/ElementExtensions.cs:225-237 | with two elements of which only the first matches, the one entry `Where` returns is positioned at the second |

## Left out

- `SeleniumExtensions/browser.cs` is not part of this model. It is a singleton over the driver: navigation, scripts, windows, alerts and screenshots, all of it I/O.
- Resolving criteria against the page is not modelled: `FindIWebElements`, `FindSingle`, the `_firstSelector` and `_searchCache` declarations, and how `_index` is applied, including negative indices. Those declarations live in a file that is not part of this model. So each filter and each builder step is stated alone, with no claimed order of composition. `ForEach`, `Select`, `Where` and `Single` take the found elements as a parameter.
- `Count`, `Enabled`, `Displayed`, `Selected`, `Exists`, `InnerHtml`, `SendKeys`, `GetAttribute(TagAttributes)`, `FireJQueryEvent` and `Select`/`SelectByText`/`SelectCommon`: each only forwards to the resolved driver element or to JavaScript.
- Driver effects are abstract. Clearing and assigning the value are `WebActions.PerformOne` on the `value` attribute. Sending keys and firing events change nothing in the model. Whether a click registers is a parameter.
- The 2-second retry in `Click` after "Element is not clickable" is left out, because it is a real-time sleep and a second driver click. A native click that throws any other `InvalidOperationException` is silently swallowed (ElementExtensions.cs:122-129); the model covers that case and the retry only through the `registers` parameter, which says whether a click took effect.
- Real time (`Stopwatch`, `Thread.Sleep`) is replaced by integer milliseconds. The time before each stopwatch reading is a parameter of at least one tick, so the loop always ends.
- `Waiting.PollEvaluationsBounded`: the bound counts ticks of the model's clock, which advances at least one millisecond per reading. The source has no such bound: it accepts a zero check interval (Extensions.cs:73, 109), so its sleep can be zero, and nothing bounds how often the condition is evaluated per millisecond before the timeout.
- `Waiting.WaitHelper.WaitFor` (and `Waiting.SpinWait`, which calls it): the source calls `condition()` outside any `try` (Extensions.cs:99), so a condition that throws ends `WaitFor` and `SpinWait` with that exception. The helper is then left with `_isSatisfied` still true and its stopwatch still running. `Thread.Sleep` (Extensions.cs:109) also throws `ArgumentOutOfRangeException` for a sleep longer than `Int32.MaxValue` milliseconds, which needs both the check interval and the remaining timeout above about 24.8 days. The model's condition is a total function and its milliseconds are unbounded integers, so neither exception path is modelled.
- `Waiting.SpinWait`: it runs one `WaitFor` (Extensions.cs:138-146), so the same two exception paths, a throwing condition and an over-long sleep, are not modelled.
- `Waiting.WaitHelper.WaitFor` and `Waiting.PollLoop` return the evaluation count and the sleeps as ghost values. These exist only to state the contract.
- Culture-aware case folding in `InvariantCultureIgnoreCase` is modelled as ASCII folding.
- `GetEnumDescription` uses reflection to read the `[Description]` attributes. Here each enum has an explicit table of its descriptions, with the field name as fallback.
- `Numbers.ParseInt32` models `int.Parse` with the invariant culture: surrounding white space, one sign, then decimal digits. Trailing NUL characters and culture-specific signs are not modelled.
- `WebElements.WebElement.ByAttributeInt`, `WebElements.WebElement.ByIdInt` and `WebActions.TextIntSetActions`: `int.ToString()` uses the current culture in the first two and the invariant culture in the third. All three are modelled with the invariant decimal form.
- `WebActions.TextGet`: a null or empty element text is modelled as "".
- `WebActions.TextRoundTrip`: the setter splices the value unescaped into the script `arguments[0].value = "{0}";` (ElementExtensions.cs:64). A double quote, a line break, U+2028 or U+2029 makes the script fail, and a backslash starts an escape that changes the assigned value. `WebActions.PerformOne` assigns the value as given, so the round trip is stated only for values without those characters (`WebActions.IsLiteralSafe`). Every decimal number is such a value, so `WebActions.TextIntRoundTrip` holds for all 32-bit integers.
- `ByXPath`'s check that no selector is set yet is modelled as an error result, `XPathNotFirst`, with nothing changed.
- The assertions in `Click` and `SetCheck` are modelled as `Fail` outcomes.
- The code-contract checks in `ByXPath` (ElementExtensions.cs:369), `Click` (line 110) and `SetCheck` (lines 142, 158) are compiled only when contract checking is on (`DEBUG` or `CONTRACTS_FULL`). The model follows that checked build. In a build without it, `ByXPath` overwrites a selector that is already set, and `Click` and `SetCheck` go ahead on a disabled element or end without error when the value was not reached.
- `WebElements.WebElement.ForEach`: the source hands the action the builder itself (ElementExtensions.cs:209), so an action could change its criteria, index or cache. The model's actions are total functions of the position and cannot, so the final index, criteria and cache in the contract hold only for actions that leave the builder alone and do not throw. `ForEach` has no `try`/`finally` (ElementExtensions.cs:203-212): an action that throws leaves `_searchCache` holding the snapshot and `_index` at the failing position, so later terminal operations on that builder read the stale snapshot. That exception path is not modelled.
- `WebElements.WebElement.Select`: it runs through `ForEach` (ElementExtensions.cs:214-223), so the same two gaps apply: actions that change the builder, and an action that throws, which leaves the snapshot cached and the index at the failing position, are not modelled.
- `WebElements.WebElement.Where`: it runs through `ForEach` (ElementExtensions.cs:225-237), so actions that change the builder and actions that throw, leaving the snapshot cached and the index at the failing position, are not modelled.
- `WebElements.WebElement.Single`: it runs through `Where` and `ForEach` (ElementExtensions.cs:239-242); a throwing action's stale cache and index are not modelled, and neither are actions that change the builder.
- `BySpecialAttribute` builds the same XPath and search property as the private `ByAttribute`, so it is covered by `WebElements.WebElement.ByAttributeNamed`.
- `RandomHelper` (randomness), `Contains(Uri, Uri)` (depends on `Uri.ToString`) and the directory walk in `DirectoryHelper.ForceDelete` (file system) are left out.
- `Contract.Requires` null checks on arguments are left out: the model's values are never null.

## Findings

| source | as written | input that shows it | evidently intended | confidence | as-written member | corrected member |
|---|---|---|---|---|---|---|
| SeleniumExtensions/ElementExtensions.cs:225-237 | `Where` adds the element handed to the action, which is the builder itself (`ByIndex(i)` returns `this`). Each entry is the same object, and after the walk its index is Count-1. | two found elements of which only the first matches: the result is one entry, positioned at the second element | one entry per matching element, addressing that element | not executed | WebElements.WebElement.Where, WebElements.WhereAliasingExample | WebElements.WebElement.WhereMatches, WebElements.WebElement.Single |
