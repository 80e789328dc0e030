/**
 * The `TagAttributes` and `TagNames` enums of Tags/Tags.cs: HTML attribute
 * names and element names, each enum member carrying one `[Description]`.
 */
module Tags {
  import EnumHelper

  /** HTML attributes the builder can search on. */
  datatype TagAttribute =
    | Id | Name | Class | Value | OnClick | Src | Title | Href | Type | Style | Rel | DataPolicyId

  /** HTML elements the builder can search for. */
  datatype TagName = TextArea | Input | Link | Span | InlineFrame | Div | Image

  /** A name as HTML spells it: non-empty, lower-case ASCII letters and dashes only. */
  predicate IsMarkupName(s: string)
  {
    |s| > 0 && forall i :: 0 <= i < |s| ==> ('a' <= s[i] <= 'z' || s[i] == '-')
  }

  // ---- TagAttributes ----

  /** `value.ToString()`: the member's identifier. */
  function AttributeFieldName(a: TagAttribute): string
  {
    match a
    case Id => "Id"
    case Name => "Name"
    case Class => "Class"
    case Value => "Value"
    case OnClick => "OnClick"
    case Src => "Src"
    case Title => "Title"
    case Href => "Href"
    case Type => "Type"
    case Style => "Style"
    case Rel => "Rel"
    case DataPolicyId => "DataPolicyId"
  }

  /** The `[Description]` attributes attached to each member. */
  function AttributeDescriptions(a: TagAttribute): seq<string>
  {
    match a
    case Id => ["id"]
    case Name => ["name"]
    case Class => ["class"]
    case Value => ["value"]
    case OnClick => ["onclick"]
    case Src => ["src"]
    case Title => ["title"]
    case Href => ["href"]
    case Type => ["type"]
    case Style => ["style"]
    case Rel => ["rel"]
    case DataPolicyId => ["data-policy-id"]
  }

  /** `EnumHelper.GetEnumDescription(tagAttribute)`. */
  function AttributeName(a: TagAttribute): (r: string)
    ensures |AttributeDescriptions(a)| > 0 && r == AttributeDescriptions(a)[0]
  {
    EnumHelper.GetEnumDescription(AttributeFieldName(a), AttributeDescriptions(a))
  }

  /** The lookup yields the listed HTML attribute name for every member. */
  lemma AttributeNamesListed()
    ensures AttributeName(Id) == "id" && AttributeName(Name) == "name"
    ensures AttributeName(Class) == "class" && AttributeName(Value) == "value"
    ensures AttributeName(OnClick) == "onclick" && AttributeName(Src) == "src"
    ensures AttributeName(Title) == "title" && AttributeName(Href) == "href"
    ensures AttributeName(Type) == "type" && AttributeName(Style) == "style"
    ensures AttributeName(Rel) == "rel" && AttributeName(DataPolicyId) == "data-policy-id"
  {
  }

  /** Every member has a description, so the lookup never falls back to the field name. */
  lemma AttributeNameNeverFallsBack(a: TagAttribute)
    ensures |AttributeDescriptions(a)| == 1
    ensures AttributeName(a) == AttributeDescriptions(a)[0]
    ensures AttributeName(a) != AttributeFieldName(a)
  {
  }

  /** Every attribute name is a lower-case markup name (no quote, `=` or `,`). */
  lemma AttributeNameIsMarkupName(a: TagAttribute)
    ensures IsMarkupName(AttributeName(a))
  {
    match a
    case Id => case Name => case Class => case Value => case OnClick => case Src =>
    case Title => case Href => case Type => case Style => case Rel => case DataPolicyId =>
  }

  /** No two members share an attribute name. */
  lemma AttributeNameInjective(a: TagAttribute, b: TagAttribute)
    ensures AttributeName(a) == AttributeName(b) ==> a == b
  {
  }

  // ---- TagNames ----

  /** `value.ToString()`: the member's identifier (what `string.Format` prints). */
  function TagFieldName(t: TagName): string
  {
    match t
    case TextArea => "TextArea"
    case Input => "Input"
    case Link => "Link"
    case Span => "Span"
    case InlineFrame => "InlineFrame"
    case Div => "Div"
    case Image => "Image"
  }

  /** The `[Description]` attributes attached to each member. */
  function TagDescriptions(t: TagName): seq<string>
  {
    match t
    case TextArea => ["textarea"]
    case Input => ["input"]
    case Link => ["a"]
    case Span => ["span"]
    case InlineFrame => ["iframe"]
    case Div => ["div"]
    case Image => ["img"]
  }

  /** `EnumHelper.GetEnumDescription(tagName)`: the HTML element name. */
  function ElementName(t: TagName): (r: string)
    ensures |TagDescriptions(t)| > 0 && r == TagDescriptions(t)[0]
  {
    EnumHelper.GetEnumDescription(TagFieldName(t), TagDescriptions(t))
  }

  /** The lookup yields the listed element name for every member. */
  lemma ElementNamesListed()
    ensures ElementName(TextArea) == "textarea" && ElementName(Input) == "input"
    ensures ElementName(Link) == "a" && ElementName(Span) == "span"
    ensures ElementName(InlineFrame) == "iframe" && ElementName(Div) == "div"
    ensures ElementName(Image) == "img"
  {
  }

  /** Every member has a description, so the lookup never falls back to the field name. */
  lemma ElementNameNeverFallsBack(t: TagName)
    ensures |TagDescriptions(t)| == 1
    ensures ElementName(t) == TagDescriptions(t)[0]
    ensures ElementName(t) != TagFieldName(t)
  {
  }

  /** Every element name is a lower-case markup name. */
  lemma ElementNameIsMarkupName(t: TagName)
    ensures IsMarkupName(ElementName(t))
  {
  }

  /** No two members share an element name. */
  lemma ElementNameInjective(t: TagName, u: TagName)
    ensures ElementName(t) == ElementName(u) ==> t == u
  {
  }
}
