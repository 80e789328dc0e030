/**
 * `EnumHelper.GetEnumDescription` and the `Browsers` enum of Extensions.cs.
 *
 * The source finds the field of an enum value by reflection and reads its
 * `[Description]` attributes.  Here every enum of the model supplies the two
 * things reflection would find: the field name (`value.ToString()`) and the
 * list of description strings attached to that field.
 */
module EnumHelper {

  /** The description of an enum field: its first `[Description]`, else the field name. */
  function GetEnumDescription(fieldName: string, descriptions: seq<string>): (r: string)
    ensures |descriptions| > 0 ==> r == descriptions[0]
    ensures |descriptions| == 0 ==> r == fieldName
  {
    if |descriptions| > 0 then descriptions[0] else fieldName
  }

  /** The browsers the session facade can start. */
  datatype Browsers = Firefox | Chrome

  function BrowserFieldName(b: Browsers): string
  {
    match b
    case Firefox => "Firefox"
    case Chrome => "Chrome"
  }

  function BrowserDescriptions(b: Browsers): seq<string>
  {
    match b
    case Firefox => ["Mozilla Firefox"]
    case Chrome => ["Google Chrome"]
  }

  function BrowserDescription(b: Browsers): string
  {
    GetEnumDescription(BrowserFieldName(b), BrowserDescriptions(b))
  }

  /** Each browser has a description, it is the listed one, and no two browsers share it. */
  lemma BrowserDescriptionsListed()
    ensures BrowserDescription(Firefox) == "Mozilla Firefox"
    ensures BrowserDescription(Chrome) == "Google Chrome"
    ensures forall b :: BrowserDescription(b) != BrowserFieldName(b)
    ensures forall b, c :: BrowserDescription(b) == BrowserDescription(c) ==> b == c
  {
  }
}
