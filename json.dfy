/** Parsed JSON values as the Python code sees them (`json.load` output), with
    Python's truthiness and `str()` conversion. */
module JsonValue {
  import opened Wrappers
  import opened Seqs
  import Text

  /** JSON numbers are modelled as integers; objects as maps from key to value. */
  datatype Json =
    | JNull
    | JBool(b: bool)
    | JNum(n: int)
    | JStr(s: string)
    | JArr(items: seq<Json>)
    | JObj(fields: map<string, Json>)

  /** Python truthiness of a parsed JSON value (`if value:`). */
  predicate Truthy(v: Json)
  {
    match v
    case JNull => false
    case JBool(b) => b
    case JNum(n) => n != 0
    case JStr(s) => s != ""
    case JArr(items) => |items| > 0
    case JObj(fields) => |fields| > 0
  }

  /** `obj.get(key)` is truthy. */
  predicate TruthyAt(obj: map<string, Json>, key: string)
  {
    key in obj && Truthy(obj[key])
  }

  /** Python's `str(v)`. Strings, integers, booleans and `None` are rendered as
      Python renders them; the text of a list or dict is given by `repr`. */
  function PyStr(v: Json, repr: Json -> string): (r: string)
    ensures v.JStr? ==> r == v.s
  {
    match v
    case JNull => "None"
    case JBool(b) => if b then "True" else "False"
    case JNum(n) => Text.IntToString(n)
    case JStr(s) => s
    case JArr(_) => repr(v)
    case JObj(_) => repr(v)
  }

  /** The first of `keys` whose value in `obj` is truthy: Python's
      `for k in keys: if obj.get(k): ...; break`. */
  function FirstTruthyKey(obj: map<string, Json>, keys: seq<string>): (r: Option<nat>)
    ensures r.Some? ==> r.value < |keys| && TruthyAt(obj, keys[r.value])
    ensures r.Some? ==> forall j :: 0 <= j < r.value ==> !TruthyAt(obj, keys[j])
    ensures r.None? <==> forall j :: 0 <= j < |keys| ==> !TruthyAt(obj, keys[j])
  {
    FirstWhere(keys, k => TruthyAt(obj, k))
  }

  /** `str(obj[key]).strip()`. */
  function KeyText(obj: map<string, Json>, key: string, repr: Json -> string): string
    requires key in obj
  {
    Text.Strip(PyStr(obj[key], repr))
  }

  /** `str(obj[k]).strip()` for the first key `k` of `keys` with a truthy value,
      or `None` when there is none. */
  function FirstTruthyText(obj: map<string, Json>, keys: seq<string>, repr: Json -> string): (r: Option<string>)
    ensures r.None? <==> forall j :: 0 <= j < |keys| ==> !TruthyAt(obj, keys[j])
    ensures forall k :: 0 <= k < |keys| && TruthyAt(obj, keys[k]) && (forall j :: 0 <= j < k ==> !TruthyAt(obj, keys[j]))
                        ==> r == Some(KeyText(obj, keys[k], repr))
  {
    var r := match FirstTruthyKey(obj, keys)
      case None => None
      case Some(k) => Some(KeyText(obj, keys[k], repr));
    assert forall k :: 0 <= k < |keys| && TruthyAt(obj, keys[k]) && (forall j :: 0 <= j < k ==> !TruthyAt(obj, keys[j]))
                       ==> r == Some(KeyText(obj, keys[k], repr)) by {
      forall k | 0 <= k < |keys| && TruthyAt(obj, keys[k]) && (forall j :: 0 <= j < k ==> !TruthyAt(obj, keys[j]))
        ensures r == Some(KeyText(obj, keys[k], repr))
      {
        FirstTruthyKeyUnique(obj, keys, k);
      }
    }
    r
  }

  /** A truthy key with no truthy key before it is the one `FirstTruthyKey` finds. */
  lemma FirstTruthyKeyUnique(obj: map<string, Json>, keys: seq<string>, k: nat)
    requires k < |keys| && TruthyAt(obj, keys[k])
    requires forall j :: 0 <= j < k ==> !TruthyAt(obj, keys[j])
    ensures FirstTruthyKey(obj, keys) == Some(k)
  {
  }
}
