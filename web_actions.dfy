/**
 * The `WebActions` region of ElementExtensions.cs: what `WebElement` does to
 * the one element a search resolved to.
 *
 * The driver is not modelled; an action is the request the element would
 * receive.  `Text`, `TextInt` and `Click` are decisions on the element's
 * state.  `Set` and `SetCheck` run against a live element whose `selected`
 * flag changes when a click registers; whether the k-th click registers is a
 * parameter, since that is up to the browser.
 */
module WebActions {
  import opened Wrappers
  import opened Elements
  import Tags
  import EnumHelper
  import Numbers
  import Extensions

  // ---------------------------------------------------------------- JavaScriptEvents

  /** The jQuery events `FireJQueryEvent` triggers. */
  datatype JavaScriptEvent = KeyUp | Click

  function EventFieldName(e: JavaScriptEvent): string
  {
    match e
    case KeyUp => "KeyUp"
    case Click => "Click"
  }

  function EventDescriptions(e: JavaScriptEvent): seq<string>
  {
    match e
    case KeyUp => ["keyup"]
    case Click => ["click"]
  }

  /** `EnumHelper.GetEnumDescription(javaScriptEvent)`: the jQuery method name. */
  function EventName(e: JavaScriptEvent): (r: string)
    ensures |EventDescriptions(e)| > 0 && r == EventDescriptions(e)[0]
  {
    EnumHelper.GetEnumDescription(EventFieldName(e), EventDescriptions(e))
  }

  /** Both events have their listed jQuery names, which differ. */
  lemma EventNamesListed()
    ensures EventName(KeyUp) == "keyup" && EventName(Click) == "click"
    ensures forall e :: EventName(e) != EventFieldName(e)
    ensures forall e, f :: EventName(e) == EventName(f) ==> e == f
  {
  }

  // ---------------------------------------------------------------- Text

  /** `Keys.LeftControl` and `Keys.Delete` of the WebDriver protocol. */
  const LeftControl := "\U{E009}"
  const DeleteKey := "\U{E017}"

  /** A request sent to the element. */
  datatype DriverAction =
    | NativeClear                               // IWebElement.Clear()
    | SendKeys(keys: string)                    // IWebElement.SendKeys(keys)
    | AssignValue(value: string)                // script: arguments[0].value = "..."
    | TryFireEvent(event: JavaScriptEvent)      // WaitHelper.Try(() => FireJQueryEvent(event))

  /** The form fields `Clear()` works on: `input` and `textarea`. */
  predicate IsTextField(tagName: string)
  {
    tagName == Tags.ElementName(Tags.Input) || tagName == Tags.ElementName(Tags.TextArea)
  }

  /**
   * The value is spliced unescaped into `arguments[0].value = "{0}";`: a
   * double quote, a backslash or a line terminator would end the string
   * literal or change what it denotes.
   */
  predicate IsLiteralSafe(s: string)
  {
    forall i :: 0 <= i < |s| ==> s[i] !in {'"', '\\', '\r', '\n', '\U{2028}', '\U{2029}'}
  }

  /**
   * The `Text` setter: form fields are cleared natively, anything else by
   * select-all and delete; then a non-empty value is assigned by script and
   * a `keyup` event fired, ignoring failures.  A null value is the empty one.
   */
  function TextSetActions(tagName: string, value: string): (r: seq<DriverAction>)
    ensures var cleared := if IsTextField(tagName) then 1 else 2;
      && |r| == cleared + (if value == "" then 0 else 2)
      && r[..cleared] == (if IsTextField(tagName) then [NativeClear]
                          else [SendKeys(LeftControl + "a"), SendKeys(DeleteKey)])
      && (value != "" ==> r[cleared..] == [AssignValue(value), TryFireEvent(KeyUp)])
    ensures forall i :: 0 <= i < |r| && r[i].AssignValue? ==> r[i].value == value && value != ""
  {
    var clear := if IsTextField(tagName) then [NativeClear]
                 else [SendKeys(LeftControl + "a"), SendKeys(DeleteKey)];
    if value == "" then clear else clear + [AssignValue(value), TryFireEvent(KeyUp)]
  }

  /** The attribute the `Text` getter falls back to. */
  function ValueAttribute(): string
  {
    Tags.AttributeName(Tags.Value)
  }

  /**
   * The `Text` getter: the element's text when it is not empty, else its
   * `value` attribute (null when the element has none).
   */
  function TextGet(e: Element): (r: Option<string>)
    ensures e.text != "" ==> r == Some(e.text)
    ensures e.text == "" ==> r == GetAttribute(e, "value")
  {
    Tags.AttributeNamesListed();
    if e.text != "" then Some(e.text) else GetAttribute(e, ValueAttribute())
  }

  /** The `TextInt` getter: `Text.ToInt()`. */
  function TextIntGet(e: Element): (r: Result<int, Numbers.ParseError>)
    ensures TextGet(e) == None || TextGet(e) == Some("") ==> r == Success(0)
    ensures TextGet(e).Some? && TextGet(e).value != "" ==> r == Numbers.ParseInt32(TextGet(e).value)
    ensures r.Success? ==> Numbers.IsInt32(r.value)
  {
    Extensions.ToInt(TextGet(e))
  }

  /** The `TextInt` setter: `Text = value.ToString(CultureInfo.InvariantCulture)`. */
  function TextIntSetActions(tagName: string, value: int): (r: seq<DriverAction>)
    ensures r == TextSetActions(tagName, Numbers.FormatInt(value))
    ensures exists i :: 0 <= i < |r| && r[i] == AssignValue(Numbers.FormatInt(value))
  {
    var s := Numbers.FormatInt(value);
    assert s != "";
    var r := TextSetActions(tagName, s);
    assert r[|r| - 2] == AssignValue(s);
    r
  }

  /**
   * The element state one action leaves, as far as `Text` reads it: clearing
   * empties the `value` property and the script assignment sets it.  Keys and
   * events are not interpreted.
   */
  function PerformOne(e: Element, action: DriverAction): (r: Element)
    ensures r.text == e.text && r.tagName == e.tagName
  {
    match action
    case NativeClear => e.(attributes := e.attributes["value" := ""])
    case AssignValue(v) => e.(attributes := e.attributes["value" := v])
    case _ => e
  }

  /** The element state a sequence of actions leaves. */
  function Perform(e: Element, actions: seq<DriverAction>): (r: Element)
    ensures r.text == e.text && r.tagName == e.tagName
    decreases |actions|
  {
    if actions == [] then e else Perform(PerformOne(e, actions[0]), actions[1..])
  }

  lemma {:induction false} PerformAppend(e: Element, first: seq<DriverAction>, second: seq<DriverAction>)
    ensures Perform(e, first + second) == Perform(Perform(e, first), second)
    decreases |first|
  {
    if first != [] {
      assert (first + second)[0] == first[0];
      assert (first + second)[1..] == first[1..] + second;
      PerformAppend(PerformOne(e, first[0]), first[1..], second);
    } else {
      assert first + second == second;
    }
  }

  /**
   * On an element without text of its own (a form field), reading `Text`
   * back after setting it yields the assigned value, provided the value can sit
   * unescaped inside the script's double-quoted string literal.
   */
  lemma TextRoundTrip(e: Element, value: string)
    requires e.text == "" && value != "" && IsLiteralSafe(value)
    ensures TextGet(Perform(e, TextSetActions(e.tagName, value))) == Some(value)
  {
    var actions := TextSetActions(e.tagName, value);
    var cleared := if IsTextField(e.tagName) then 1 else 2;
    var tail := [AssignValue(value), TryFireEvent(KeyUp)];
    assert actions == actions[..cleared] + tail;
    PerformAppend(e, actions[..cleared], tail);
    var mid := Perform(e, actions[..cleared]);
    var afterAssign := PerformOne(mid, AssignValue(value));
    assert tail[1..] == [TryFireEvent(KeyUp)];
    assert Perform(mid, tail) == Perform(afterAssign, [TryFireEvent(KeyUp)]);
    assert [TryFireEvent(KeyUp)][1..] == [];
    assert Perform(afterAssign, [TryFireEvent(KeyUp)]) == afterAssign;
  }

  /** `TextInt` reads back every 32-bit number it sets. */
  lemma TextIntRoundTrip(e: Element, n: int)
    requires e.text == "" && Numbers.IsInt32(n)
    ensures TextIntGet(Perform(e, TextIntSetActions(e.tagName, n))) == Success(n)
  {
    var s := Numbers.FormatInt(n);
    assert IsLiteralSafe(s) by {
      forall i | 0 <= i < |s| ensures s[i] == '-' || Numbers.IsDigit(s[i]) { }
    }
    TextRoundTrip(e, s);
    Extensions.ToIntRoundTrip(n);
  }

  // ---------------------------------------------------------------- Click

  /** Why an element action fails its `Contract.Assert`. */
  datatype ActionError = ElementDisabled | SelectionNotReached

  /** How `Click` clicks: a jQuery `click` event, or the driver's native click. */
  datatype ClickMethod = JQueryEvent(eventName: string) | NativeClick

  /**
   * `Click(useJQuery)`: a disabled element fails the assertion; links (`a`)
   * are always clicked natively, anything else through jQuery when asked.
   */
  function ClickPlan(tagName: string, enabled: bool, useJQuery: bool): (r: Result<ClickMethod, ActionError>)
    ensures r.Failure? <==> !enabled
    ensures r.Failure? ==> r.error == ElementDisabled
    ensures r.Success? ==>
      (r.value.JQueryEvent? <==> useJQuery && tagName != "a")
    ensures r.Success? && r.value.JQueryEvent? ==> r.value.eventName == "click"
  {
    Tags.ElementNamesListed();
    EventNamesListed();
    if !enabled then Failure(ElementDisabled)
    else if useJQuery && tagName != Tags.ElementName(Tags.Link) then Success(JQueryEvent(EventName(Click)))
    else Success(NativeClick)
  }

  // ---------------------------------------------------------------- Set / SetCheck

  /** `const int tryCount = 10` of `SetCheck`. */
  const TryCount: nat := 10

  /** The first k in [from, bound) whose click registers, or `bound` when none does. */
  function FirstRegistered(registers: nat -> bool, from: nat, bound: nat): (r: nat)
    requires from <= bound
    ensures from <= r <= bound
    ensures forall k :: from <= k < r ==> !registers(k)
    ensures r < bound ==> registers(r)
    decreases bound - from
  {
    if from == bound then bound
    else if registers(from) then from
    else FirstRegistered(registers, from + 1, bound)
  }

  /**
   * How many rounds `SetCheck` runs: one when the element is already in the
   * wanted state, else up to and including the first click that registers,
   * at most `TryCount`.
   */
  function SetCheckRounds(selected: bool, value: bool, registers: nat -> bool): (r: nat)
    ensures 1 <= r <= TryCount
    ensures selected != value && r < TryCount ==> registers(r - 1)
    ensures selected != value ==> forall k :: 0 <= k < r - 1 ==> !registers(k)
  {
    if selected == value then 1
    else
      var k := FirstRegistered(registers, 0, TryCount);
      if k < TryCount then k + 1 else TryCount
  }

  /** `SetCheck` reaches the wanted state exactly when a click of its ten registers (or none is needed). */
  lemma SetCheckSucceedsIff(selected: bool, value: bool, registers: nat -> bool)
    ensures (selected == value || FirstRegistered(registers, 0, TryCount) < TryCount) <==>
      (selected == value || exists k :: 0 <= k < TryCount && registers(k))
  {
    if exists k :: 0 <= k < TryCount && registers(k) {
      var k :| 0 <= k < TryCount && registers(k);
      assert FirstRegistered(registers, 0, TryCount) <= k;
    }
  }

  /**
   * The element `Set` and `SetCheck` act on, as the browser shows it: its tag
   * and enabled flag are fixed, its `selected` flag flips when a click
   * registers.  `clicks` counts the clicks requested.
   */
  class LiveElement {
    const tagName: string
    const enabled: bool
    var selected: bool
    var clicks: nat

    constructor (tagName: string, enabled: bool, selected: bool)
      ensures this.tagName == tagName && this.enabled == enabled
      ensures this.selected == selected && clicks == 0
    {
      this.tagName := tagName;
      this.enabled := enabled;
      this.selected := selected;
      clicks := 0;
    }

    /**
     * `Click(useJQuery)`: the click `ClickPlan` chooses for this element;
     * `registers` says whether the browser acts on it.
     */
    method Click(useJQuery: bool, registers: bool) returns (r: Result<ClickMethod, ActionError>)
      modifies this
      ensures r == ClickPlan(tagName, enabled, useJQuery)
      ensures r.Failure? ==> selected == old(selected) && clicks == old(clicks)
      ensures r.Success? ==> selected == (old(selected) != registers) && clicks == old(clicks) + 1
    {
      r := ClickPlan(tagName, enabled, useJQuery);
      if r.Failure? {
        return;
      }
      clicks := clicks + 1;
      if registers {
        selected := !selected;
      }
    }

    /** `Set(value)`: click only when `Selected ^ value`. */
    method Set(value: bool, useJQuery: bool, registers: bool) returns (r: Outcome<ActionError>)
      modifies this
      ensures old(selected) == value ==> r.Pass? && selected == old(selected) && clicks == old(clicks)
      ensures old(selected) != value ==>
        && (r.Fail? <==> !enabled)
        && (r.Pass? ==> clicks == old(clicks) + 1 && (selected == value <==> registers))
        && (r.Fail? ==> selected == old(selected) && clicks == old(clicks))
    {
      if selected != value {
        var how := Click(useJQuery, registers);
        r := if how.Success? then Pass else Fail(how.error);
      } else {
        r := Pass;
      }
    }

    /**
     * `SetCheck(value)`: a disabled element fails at once; otherwise up to
     * `TryCount` rounds of `Set`, stopping as soon as the element is in the
     * wanted state, and failing the final assertion when it never gets there.
     */
    method SetCheck(value: bool, useJQuery: bool, registers: nat -> bool) returns (r: Outcome<ActionError>, rounds: nat)
      modifies this
      ensures !enabled ==> r == Fail(ElementDisabled) && rounds == 0 && selected == old(selected)
      ensures enabled ==> rounds == SetCheckRounds(old(selected), value, registers)
      ensures enabled ==> (r.Pass? <==> selected == value)
      ensures enabled ==> (r.Pass? <==> old(selected) == value || FirstRegistered(registers, 0, TryCount) < TryCount)
      ensures r.Fail? && enabled ==> r.error == SelectionNotReached && selected == old(selected)
      ensures clicks == old(clicks) + (if enabled && old(selected) != value then rounds else 0)
    {
      if !enabled {
        return Fail(ElementDisabled), 0;
      }
      var i: nat := 0;
      while i < TryCount
        invariant i <= TryCount
        invariant selected == old(selected)
        invariant old(selected) != value ==> FirstRegistered(registers, 0, TryCount) >= i
        invariant old(selected) == value ==> i == 0
        invariant clicks == old(clicks) + i
      {
        var done := Set(value, useJQuery, registers(i));
        if selected == value {
          return Pass, i + 1;
        }
        i := i + 1;
      }
      return Fail(SelectionNotReached), TryCount;
    }
  }
}
