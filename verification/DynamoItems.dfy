/** Table rows and decoded JSON as the restore verifier reads them. */
module DynamoItems {
  import opened Wrappers

  /** Decoded JSON. An object keeps its members in order; each name occurs once. */
  datatype Json =
    | JNull
    | JBool(b: bool)
    | JInt(n: int)
    | JFloat(r: real)
    | JString(s: string)
    | JArray(items: seq<Json>)
    | JObject(fields: seq<(string, Json)>)

  /** `dict.get`: a missing member reads as null. */
  function Lookup(fields: seq<(string, Json)>, name: string): Json {
    if fields == [] then JNull
    else if fields[0].0 == name then fields[0].1
    else Lookup(fields[1..], name)
  }

  function Names(fields: seq<(string, Json)>): set<string> {
    set f | f in fields :: f.0
  }

  /** `isinstance(j, int)`: booleans are integers. */
  function AsInt(j: Json): Option<int> {
    match j
    case JInt(n) => Some(n)
    case JBool(b) => Some(if b then 1 else 0)
    case _ => None
  }

  /** `j == n`: booleans and floats compare by value. */
  predicate EqualsInt(j: Json, n: int) {
    AsInt(j) == Some(n) || (j.JFloat? && j.r == n as real)
  }

  /** Python's truth of a decoded value. */
  predicate IsTrue(j: Json) {
    match j
    case JNull => false
    case JBool(b) => b
    case JInt(n) => n != 0
    case JFloat(r) => r != 0.0
    case JString(s) => s != ""
    case JArray(items) => items != []
    case JObject(fields) => fields != []
  }

  /** An entry of a list attribute: an object whose only name is "S", with any value, or not. */
  datatype Entry = Tagged(value: Json) | Untagged

  /** One attribute value of a table row; other kinds carry no data the verifier reads as text. */
  datatype Attr = S(s: string) | N(digits: string) | SS(members: seq<string>) | L(entries: seq<Entry>) | Other

  type Item = map<string, Attr>

  /** A read attribute: not there, there, or refused with an error. */
  datatype Fetched<+T> = Absent | Got(value: T) | Raises

  function AttrString(item: Item, name: string): Fetched<string> {
    if name !in item then Absent
    else match item[name]
      case S(s) => Got(s)
      case _ => Raises
  }

  /** `parseInt` stands for Python's integer parser. */
  function AttrNumber(item: Item, name: string, parseInt: string -> Option<int>): Fetched<int> {
    if name !in item then Absent
    else match item[name]
      case N(digits) => (match parseInt(digits) case Some(n) => Got(n) case None => Raises)
      case _ => Raises
  }

  function Values(entries: seq<Entry>): Option<seq<Json>> {
    if entries == [] then Some([])
    else match (entries[0], Values(entries[1..]))
      case (Tagged(v), Some(rest)) => Some([v] + rest)
      case _ => None
  }

  /** A string, a string set or a list; `None` when refused. The entries of a list are taken without
      asking whether they are texts. */
  function AttrStrings(item: Item, name: string): Option<seq<Json>> {
    if name !in item then Some([])
    else match item[name]
      case S(s) => Some([JString(s)])
      case SS(members) => Some(seq(|members|, i requires 0 <= i < |members| => JString(members[i])))
      case L(entries) => Values(entries)
      case _ => None
  }

  predicate NonEmpty(f: Fetched<string>) {
    f.Got? && f.value != ""
  }
}
