/** Shared vocabulary of the bridge model: optional values, Python exceptions
    turned into results, JSON values as the portal returns them, and the
    (topic, payload) pairs the bridge hands to its MQTT client. */
module Base {

  /** A value that may be absent. */
  datatype Option<+T> = None | Some(value: T) {
    /** The value, or `default` when absent. */
    function GetOr(default: T): T {
      if Some? then value else default
    }
  }

  /** The Python exceptions the modelled code can raise. */
  datatype Error =
    | TypeError       // comparing or negating a value that is not a number
    | ValueError      // int() or float() on text that is not a number
    | TimestampError  // datetime.fromtimestamp on an out-of-range value
    | AttributeError  // `.get` on a value that is not a dict
    | KeyError        // indexing a dict with a key it lacks

  /** Either a value or the exception that replaced it. */
  datatype Result<+T> = Ok(value: T) | Err(error: Error)

  /** A JSON value as decoded by Python's json module. Objects keep their
      keys in insertion order, as Python dicts (and json.dumps) do. */
  datatype JsonValue =
    | JNull
    | JBool(b: bool)
    | JNum(n: real)
    | JStr(s: string)
    | JArr(items: seq<JsonValue>)
    | JObj(fields: seq<(string, JsonValue)>)

  /** A decoded JSON object used for lookups (a portal response body). */
  type JsonObject = map<string, JsonValue>

  /** The dict Python's json module builds from an object's fields: the
      keys are the field names, and a later field overrides an earlier one
      with the same key. */
  function ToDict(fields: seq<(string, JsonValue)>): (d: JsonObject)
    ensures forall i :: 0 <= i < |fields| ==> fields[i].0 in d
    ensures forall k :: k in d ==> exists i :: 0 <= i < |fields| && fields[i].0 == k
    ensures |fields| > 0 ==> d[fields[|fields| - 1].0] == fields[|fields| - 1].1
    decreases |fields|
  {
    if |fields| == 0 then map[]
    else
      var last := fields[|fields| - 1];
      ToDict(fields[..|fields| - 1])[last.0 := last.1]
  }

  /** The dict a JSON value stands for when it is an object; any other
      value has no `.get`. */
  function AsDict(v: JsonValue): (r: Option<JsonObject>)
    ensures r.Some? <==> v.JObj?
  {
    if v.JObj? then Some(ToDict(v.fields)) else None
  }

  /** One retained MQTT publication. The payload is read in two ways. For
      `announce_sensor` and `update_ha_menu`, which publish `json.dumps` of
      a dict or a list, a `JObj` or `JArr` payload stands for that
      serialised text. The telemetry loop hands its value to `publish`
      unserialised, so there a list or a dict is never sent: `Telemetry.Emit`
      raises TypeError for it instead. */
  datatype Message = Message(topic: string, payload: JsonValue)

  /** Python's `d.get(key)`: None both when the key is absent and when it
      maps to null. */
  function Get(obj: JsonObject, key: string): (v: JsonValue)
    ensures key !in obj ==> v == JNull
    ensures key in obj ==> v == obj[key]
  {
    if key in obj then obj[key] else JNull
  }

  /** Python truthiness of a JSON value. */
  predicate Truthy(v: JsonValue) {
    match v
    case JNull => false
    case JBool(b) => b
    case JNum(n) => n != 0.0
    case JStr(s) => s != ""
    case JArr(items) => items != []
    case JObj(fields) => fields != []
  }

  /** The numeric reading Python gives a value in arithmetic and ordering:
      numbers are themselves, booleans are 1 and 0, everything else makes
      `<`, `>` and unary minus raise TypeError. */
  function AsNumber(v: JsonValue): Option<real> {
    match v
    case JNum(n) => Some(n)
    case JBool(b) => Some(if b then 1.0 else 0.0)
    case _ => None
  }

  /** Python's `v == k` for an integer constant `k`. */
  predicate EqualsInt(v: JsonValue, k: int) {
    AsNumber(v) == Some(k as real)
  }

  /** Field `key` of a JSON object value, if present (first occurrence). */
  function Field(fields: seq<(string, JsonValue)>, key: string): Option<JsonValue> {
    if |fields| == 0 then None
    else if fields[0].0 == key then Some(fields[0].1)
    else Field(fields[1..], key)
  }

  /** A lookup finds the first field carrying the key. */
  lemma {:induction false} FieldAt(fields: seq<(string, JsonValue)>, key: string, i: int)
    requires 0 <= i < |fields| && fields[i].0 == key
    requires forall j :: 0 <= j < i ==> fields[j].0 != key
    ensures Field(fields, key) == Some(fields[i].1)
    decreases i
  {
    if i > 0 {
      FieldAt(fields[1..], key, i - 1);
    }
  }

  /** A lookup of a key no field carries finds nothing. */
  lemma {:induction false} FieldAbsent(fields: seq<(string, JsonValue)>, key: string)
    requires forall j :: 0 <= j < |fields| ==> fields[j].0 != key
    ensures Field(fields, key) == None
    decreases |fields|
  {
    if |fields| > 0 {
      FieldAbsent(fields[1..], key);
    }
  }
}
