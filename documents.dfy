/** JSON documents as values, and the text the writer gives them: no
    whitespace, `,` between list elements and between properties, `:`
    after a property name, strings and names quoted with `\` and `"`
    escaped by a backslash. */
module Documents {
  import opened Escapes
  import Toolbox

  datatype Json =
    | JNull
    | JBool(b: bool)
    | JNumber(d: Toolbox.Decimal)
    | JString(s: seq<char>)
    | JList(items: seq<Json>)
    | JObject(props: seq<Property>)

  datatype Property = Property(name: seq<char>, value: Json)

  /** The characters the writer escapes besides the backslash. */
  const Quote: seq<char> := "\""

  /** A string or a property name as written: quoted, with `\` and `"`
      escaped. */
  function Quoted(s: seq<char>): (r: seq<char>)
    ensures |r| >= |s| + 2 && r[0] == '"' && r[|r| - 1] == '"'
  {
    "\"" + Escape(s, '\\', Quote) + "\""
  }

  function Render(v: Json): (r: seq<char>)
    decreases v, 1
  {
    match v
    case JNull => "null"
    case JBool(b) => if b then "true" else "false"
    case JNumber(d) => Toolbox.ToString(d)
    case JString(s) => Quoted(s)
    case JList(items) => "[" + RenderItems(v, items) + "]"
    case JObject(props) => "{" + RenderProps(v, props) + "}"
  }

  /** The elements of the list `v`, separated by commas. */
  function RenderItems(ghost v: Json, items: seq<Json>): seq<char>
    requires forall i :: 0 <= i < |items| ==> items[i] < v
    decreases v, 0, |items|
  {
    if items == [] then ""
    else RenderItems(v, items[..|items| - 1]) + (if |items| > 1 then "," else "")
         + Render(items[|items| - 1])
  }

  /** The properties of the object `v`, separated by commas. */
  function RenderProps(ghost v: Json, props: seq<Property>): seq<char>
    requires forall i :: 0 <= i < |props| ==> props[i].value < v
    decreases v, 0, |props|
  {
    if props == [] then ""
    else RenderProps(v, props[..|props| - 1]) + (if |props| > 1 then "," else "")
         + Quoted(props[|props| - 1].name) + ":" + Render(props[|props| - 1].value)
  }
}
