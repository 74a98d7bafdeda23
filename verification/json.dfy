/** Parsed JSON as the Python code sees it after `json.load`: strings, integers,
    booleans, `None`, lists and dicts, together with Python's truthiness and
    `str()` rendering of the scalar values. */
module Json {
  import opened Text

  datatype Value =
    | VStr(s: string)
    | VInt(i: int)
    | VBool(b: bool)
    | VNull
    | VList(items: seq<Value>)
    | VObj(fields: map<string, Value>)

  /** Python truthiness: empty strings, zero, False, None and empty
      containers are false. */
  predicate Truthy(v: Value) {
    match v
    case VStr(s) => s != ""
    case VInt(i) => i != 0
    case VBool(b) => b
    case VNull => false
    case VList(items) => items != []
    case VObj(fields) => fields != map[]
  }

  /** `str(v)` for scalar values. Containers are rendered by a fixed marker;
      their Python rendering is not part of this model. */
  function Str(v: Value): string {
    match v
    case VStr(s) => s
    case VInt(i) => IntToString(i)
    case VBool(b) => if b then "True" else "False"
    case VNull => "None"
    case VList(_) => "[...]"
    case VObj(_) => "{...}"
  }

  /** `d.get(key, default)` on a dict. */
  function Get(fields: map<string, Value>, key: string, default: Value): (r: Value)
    ensures key in fields ==> r == fields[key]
    ensures key !in fields ==> r == default
  {
    if key in fields then fields[key] else default
  }

  /** A dict carrying a document's whole text under `"full_text"`, the shape
      the loaders test for with `"full_text" in item`. */
  predicate HasFullText(v: Value) {
    v.VObj? && "full_text" in v.fields
  }
}
