/** How `fetch_data` in peimar_bridge/peimar.py refreshes the two values the
    rest of the bridge reads: `live`, the power-flow summary, and `raw`, the
    first record of the inverter's raw-data page. The HTTP requests are
    inputs: each is the body `r.json()` decoded, or None when the request or
    the decoding raised. */
module Fetch {
  import opened Base

  /** What the bridge holds between polls (`self.live`, `self.raw`). These
      are whatever the portal sent, not necessarily JSON objects. */
  datatype Held = Held(live: JsonValue, raw: JsonValue)

  /** Both values start as `{}`. */
  const Initial := Held(JObj([]), JObj([]))

  /** A decoded response body, or None when its request raised. */
  type Body = Option<JsonValue>

  /** A body that decoded to a JSON object, so that `.get` works on it. */
  predicate ObjectBody(b: Body) {
    b.Some? && b.value.JObj?
  }

  /** Python's `obj.get(key, default)` on a JSON object. */
  function Member(obj: JsonValue, key: string, default: JsonValue): (v: JsonValue)
    requires obj.JObj?
    ensures key in ToDict(obj.fields) ==> v == ToDict(obj.fields)[key]
    ensures key !in ToDict(obj.fields) ==> v == default
  {
    var d := AsDict(obj).value;
    if key in d then d[key] else default
  }

  /** `xs[0]` on a value `if xs:` let through: the first item of a list,
      the first character of a text. A dict has no key 0 and raises
      KeyError; a number or a boolean cannot be indexed and raises
      TypeError. */
  function First(v: JsonValue): (r: Result<JsonValue>)
    requires Truthy(v)
    ensures r.Ok? <==> v.JArr? || v.JStr?
    ensures v.JArr? ==> r == Ok(v.items[0])
    ensures v.JStr? ==> r == Ok(JStr([v.s[0]]))
    ensures v.JObj? ==> r == Err(KeyError)
  {
    match v
    case JArr(items) => Ok(items[0])
    case JStr(s) => Ok(JStr([s[0]]))
    case JObj(_) => Err(KeyError)
    case _ => Err(TypeError)
  }

  /** The default the raw page's "list" falls back on, as written: `[0]`. */
  const ListDefaultAsWritten := JArr([JNum(0.0)])

  /** The default that keeps `raw` a dict, as the `{}` defaults of the other
      requests do: `[{}]`. */
  const ListDefault := JArr([JObj([])])

  /** `fetch_data` with a given default for the raw page's "list". The
      plant, live and raw requests run in this order inside one `try`, so
      the first that raises (its request, its decoding, or `.get` on a body
      that is not an object) leaves the values not yet assigned as they
      were. A falsy "list" leaves `raw` as it was. The chart-bean request
      comes after the three and touches neither value. */
  function FetchWith(listDefault: JsonValue, held: Held, plant: Body, live: Body, raw: Body): (h: Held)
    ensures !ObjectBody(plant) || !ObjectBody(live) ==> h == held
    ensures ObjectBody(plant) && ObjectBody(live) ==>
      h.live == Member(live.value, "storeDevicePower", JObj([]))
    ensures !ObjectBody(plant) || !ObjectBody(live) || !ObjectBody(raw) ==> h.raw == held.raw
    ensures ObjectBody(plant) && ObjectBody(live) && ObjectBody(raw) ==>
      var list := Member(raw.value, "list", listDefault);
      && (!Truthy(list) ==> h.raw == held.raw)
      && (Truthy(list) && First(list).Ok? ==> h.raw == First(list).value)
      && (Truthy(list) && First(list).Err? ==> h.raw == held.raw)
  {
    if !ObjectBody(plant) || !ObjectBody(live) then held
    else
      var newLive := Member(live.value, "storeDevicePower", JObj([]));
      if !ObjectBody(raw) then Held(newLive, held.raw)
      else
        var list := Member(raw.value, "list", listDefault);
        if !Truthy(list) then Held(newLive, held.raw)
        else match First(list)
          case Err(_) => Held(newLive, held.raw)
          case Ok(first) => Held(newLive, first)
  }

  /** `fetch_data` as written. */
  function FetchDataAsWritten(held: Held, plant: Body, live: Body, raw: Body): Held {
    FetchWith(ListDefaultAsWritten, held, plant, live, raw)
  }

  /** `fetch_data` with the corrected default for "list". */
  function FetchData(held: Held, plant: Body, live: Body, raw: Body): Held {
    FetchWith(ListDefault, held, plant, live, raw)
  }

  /** A raw-data page whose "list", when present, is a list whose first
      item, if any, is a record: the shape the portal's pages have. A page
      without "list" has it trivially. */
  predicate RecordPage(b: Body) {
    ObjectBody(b) &&
    var d := AsDict(b.value).value;
    "list" in d ==>
      d["list"].JArr? && (|d["list"].items| > 0 ==> d["list"].items[0].JObj?)
  }

  /** Corrected: as long as the portal's raw page has the record shape (or
      the request fails), a `raw` that is a dict stays a dict, so the next
      cycle can read it. */
  lemma FetchKeepsRawDict(held: Held, plant: Body, live: Body, raw: Body)
    requires held.raw.JObj?
    requires raw.Some? && raw.value.JObj? ==> RecordPage(raw)
    ensures FetchData(held, plant, live, raw).raw.JObj?
  {
  }

  /** Corrected: a raw page without "list" leaves `raw` the empty dict. */
  lemma AbsentListEmptyRaw(held: Held, plant: Body, live: Body, raw: Body)
    requires ObjectBody(plant) && ObjectBody(live) && ObjectBody(raw)
    requires "list" !in AsDict(raw.value).value
    ensures FetchData(held, plant, live, raw).raw == JObj([])
  {
  }

  /** As written: a raw page without "list" is a record page, yet it makes
      `raw` the number 0, whatever `raw` was before. */
  lemma AbsentListZeroesRaw(held: Held, plant: Body, live: Body, raw: Body)
    requires ObjectBody(plant) && ObjectBody(live) && ObjectBody(raw)
    requires "list" !in AsDict(raw.value).value
    ensures RecordPage(raw)
    ensures FetchDataAsWritten(held, plant, live, raw).raw == JNum(0.0)
  {
  }

  /** A power-flow response whose "storeDevicePower" is null makes `live`
      null, which is not a dict. */
  lemma NullLive(held: Held, plant: Body, live: Body, raw: Body)
    requires ObjectBody(plant) && ObjectBody(live)
    requires "storeDevicePower" in AsDict(live.value).value
    requires AsDict(live.value).value["storeDevicePower"] == JNull
    ensures FetchData(held, plant, live, raw).live == JNull
    ensures FetchDataAsWritten(held, plant, live, raw).live == JNull
  {
  }
}
