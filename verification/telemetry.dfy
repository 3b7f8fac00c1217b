/** One publication cycle (`process_and_publish` in peimar_bridge/peimar.py):
    the topic -> value table built from a portal reading, and the loop that
    publishes every present value under the "peimar/" prefix. */
module Telemetry {
  import opened Base
  import opened Text
  import opened Normalize
  import opened Discovery
  import opened Fetch

  /** The two dicts a cycle reads once both held values are dicts (see
      `ProcessHeld`): the live flow summary and the inverter's raw
      measurements. */
  datatype Reading = Reading(live: JsonObject, raw: JsonObject)

  /** The numeric routines the cycle calls and the model leaves abstract:
      Python's `float()` on text (None when it raises ValueError),
      `round(x, 2)`, and the local "%H:%M:%S" rendering of a POSIX time in
      seconds (None when `datetime.fromtimestamp` rejects it). */
  datatype Numerics = Numerics(
    parse: string -> Option<real>,
    round2: real -> real,
    clock: real -> Option<string>)

  /** One publication cycle: the messages sent, in order, and the exception
      that ended the cycle early, if any. */
  datatype Outcome = Outcome(sent: seq<Message>, failure: Option<Error>)

  /** The status label for the last portal update: "N/D" when `updateDate`
      is missing, null or zero, otherwise the millisecond stamp rendered as
      a time of day; a stamp that is not a number raises TypeError. */
  function LastUpdateLabel(stamp: JsonValue, clock: real -> Option<string>): (r: Result<string>)
    ensures !Truthy(stamp) ==> r == Ok("N/D")
    ensures r.Err? <==>
      Truthy(stamp) && (AsNumber(stamp).None? || clock(AsNumber(stamp).value / 1000.0).None?)
    ensures r.Err? && AsNumber(stamp).None? ==> r.error == TypeError
    ensures r.Err? && AsNumber(stamp).Some? ==> r.error == TimestampError
    ensures Truthy(stamp) && r.Ok? ==> r.value == clock(AsNumber(stamp).value / 1000.0).value
  {
    if !Truthy(stamp) then Ok("N/D")
    else match AsNumber(stamp)
      case None => Err(TypeError)
      case Some(ms) =>
        match clock(ms / 1000.0)
        case Some(text) => Ok(text)
        case None => Err(TimestampError)
  }

  /** `keyword in topic`. */
  predicate Contains(s: string, pat: string) {
    exists i :: 0 <= i <= |s| - |pat| && OccursAt(s, pat, i)
  }

  /** The topics whose values are forced through `round(float(v), 2)`. */
  predicate RoundedTopic(topic: string) {
    Contains(topic, "volt") || Contains(topic, "current") || Contains(topic, "freq") || Contains(topic, "energy")
  }

  /** Python's `float(v)` on a JSON value; None when it raises. */
  function PyFloat(v: JsonValue, parse: string -> Option<real>): (r: Option<real>)
    ensures AsNumber(v).Some? ==> r == AsNumber(v)
    ensures v.JStr? ==> r == parse(v.s)
    ensures v.JNull? || v.JArr? || v.JObj? ==> r.None?
  {
    match v
    case JStr(s) => parse(s)
    case _ => AsNumber(v)
  }

  /** A percentage text with the sign dropped and a decimal comma made a
      point: what `float()` sees in the publication loop. */
  function PercentFree(s: string): (r: string)
    ensures '%' !in r && ',' !in r
  {
    ReplaceCharRemoves(s, '%', "");
    var t := ReplaceAll(s, "%", "");
    ReplaceCharRemoves(t, ',', ".");
    ReplaceKeepsOut(t, ",", ".", '%');
    ReplaceAll(t, ",", ".")
  }

  /** A value with one '%' anywhere is handed to `float()` with the sign
      dropped, everything else kept, and decimal commas made points. */
  lemma PercentFreeOfValue(a: string, b: string)
    requires '%' !in a && '%' !in b
    ensures PercentFree(a + "%" + b) == CommasToPoints(a + b)
  {
    ReplaceOneChar(a, '%', b, "");
    assert ReplaceAll(a + "%" + b, "%", "") == a + b;
    ReplaceCommas(a + b);
  }

  /** The value the loop publishes for a present entry: rounded to two
      places on the voltage, current, frequency and energy topics when
      `float()` accepts it, and a text still carrying '%' parsed as a
      number, which raises ValueError when it is not one. */
  function PublishedValue(topic: string, v: JsonValue, num: Numerics): (r: Result<JsonValue>)
    ensures r.Err? ==> r.error == ValueError && v.JStr? && '%' in v.s
    ensures RoundedTopic(topic) && PyFloat(v, num.parse).Some? ==>
      r == Ok(JNum(num.round2(PyFloat(v, num.parse).value)))
    ensures !RoundedTopic(topic) && !(v.JStr? && '%' in v.s) ==> r == Ok(v)
    ensures RoundedTopic(topic) && PyFloat(v, num.parse).None? && !(v.JStr? && '%' in v.s) ==> r == Ok(v)
    ensures v.JStr? && '%' in v.s && !(RoundedTopic(topic) && num.parse(v.s).Some?) ==>
      r == (match num.parse(PercentFree(v.s)) case Some(x) => Ok(JNum(x)) case None => Err(ValueError))
    ensures r.Ok? && r.value.JStr? ==> '%' !in r.value.s
  {
    var rounded :=
      if RoundedTopic(topic) && PyFloat(v, num.parse).Some? then JNum(num.round2(PyFloat(v, num.parse).value))
      else v;
    if rounded.JStr? && '%' in rounded.s then
      match num.parse(PercentFree(rounded.s))
      case Some(x) => Ok(JNum(x))
      case None => Err(ValueError)
    else Ok(rounded)
  }

  /** The entries the loop publishes: those whose value is not None, in
      table order. */
  function Present(entries: seq<(string, JsonValue)>): (r: seq<(string, JsonValue)>)
    ensures |r| <= |entries|
  {
    if |entries| == 0 then []
    else if entries[0].1 == JNull then Present(entries[1..])
    else [entries[0]] + Present(entries[1..])
  }

  /** The filter keeps exactly the entries whose value is not None. */
  lemma {:induction false} PresentMembers(entries: seq<(string, JsonValue)>)
    ensures forall e :: e in Present(entries) <==> e in entries && e.1 != JNull
    decreases |entries|
  {
    if |entries| > 0 {
      PresentMembers(entries[1..]);
      assert forall e :: e in entries <==> e == entries[0] || e in entries[1..];
    }
  }

  /** The payloads the MQTT client's `publish` accepts: text, numbers,
      booleans (Python ints) and None. A list or an object raises TypeError. */
  predicate MqttPayload(v: JsonValue) {
    !v.JArr? && !v.JObj?
  }

  /** What the loop does with one present entry: the message it sends, or
      the exception that stops it, raised either while the value is
      prepared or by `publish` on a payload it refuses. */
  function Emit(e: (string, JsonValue), num: Numerics): (r: Result<Message>)
    ensures r.Ok? <==> PublishedValue(e.0, e.1, num).Ok? && MqttPayload(PublishedValue(e.0, e.1, num).value)
    ensures r.Ok? ==> r.value.topic == StateTopic(e.0) && r.value.payload == PublishedValue(e.0, e.1, num).value
    ensures r.Err? && PublishedValue(e.0, e.1, num).Err? ==> r.error == PublishedValue(e.0, e.1, num).error
    ensures r.Err? && PublishedValue(e.0, e.1, num).Ok? ==> r.error == TypeError
    ensures r.Err? ==> r.error == ValueError || r.error == TypeError
  {
    match PublishedValue(e.0, e.1, num)
    case Ok(w) => if MqttPayload(w) then Ok(Message(StateTopic(e.0), w)) else Err(TypeError)
    case Err(x) => Err(x)
  }

  /** The publication loop: every present entry, in table order, goes out
      on "peimar/" + its topic with its published value, until the first
      value that raises; that exception ends the cycle and nothing after it
      is sent. Skipping the None entries first changes nothing, since the
      loop does nothing else with them. */
  function PublishAll(entries: seq<(string, JsonValue)>, num: Numerics): (out: Outcome)
    ensures |out.sent| <= |Present(entries)|
    ensures forall i :: 0 <= i < |out.sent| ==> Emit(Present(entries)[i], num) == Ok(out.sent[i])
    ensures out.failure.None? <==> |out.sent| == |Present(entries)|
    ensures out.failure.Some? ==> Emit(Present(entries)[|out.sent|], num) == Err(out.failure.value)
    ensures out.failure.Some? ==> out.failure.value == ValueError || out.failure.value == TypeError
  {
    SendAll(Present(entries), num)
  }

  /** The loop over the present entries. */
  function SendAll(present: seq<(string, JsonValue)>, num: Numerics): (out: Outcome)
    ensures |out.sent| <= |present|
    ensures forall i :: 0 <= i < |out.sent| ==> Emit(present[i], num) == Ok(out.sent[i])
    ensures out.failure.None? <==> |out.sent| == |present|
    ensures out.failure.Some? ==> Emit(present[|out.sent|], num) == Err(out.failure.value)
    ensures out.failure.Some? ==> out.failure.value == ValueError || out.failure.value == TypeError
    decreases |present|
  {
    if |present| == 0 then Outcome([], None)
    else match Emit(present[0], num)
      case Err(e) => Outcome([], Some(e))
      case Ok(msg) =>
        var rest := SendAll(present[1..], num);
        Outcome([msg] + rest.sent, rest.failure)
  }

  /** The table `process_and_publish` builds, in insertion order: the
      topics of `TableTopics`, each paired with its value. Grid and battery
      power and their labels come from the direction rules; household
      consumption goes through `clean_value`. */
  function Mapping(rd: Reading, parse: string -> Option<real>, lastUpdate: string): (m: seq<(string, JsonValue)>)
    ensures |m| == |TableTopics|
    ensures forall i :: 0 <= i < |m| ==> m[i].0 == TableTopics[i]
  {
    var live := rd.live;
    var raw := rd.raw;
    var grid := GridFlow(Get(live, "gridPower"), Get(live, "gridDirection"));
    var battery := BatteryFlow(Get(raw, "batPower"), Get(live, "batteryDirection"));
    var values := [
      Get(live, "solarPower"),                                  // pv/solar_power
      Get(raw, "nowPrower"),                                    // pv/power_now
      Get(raw, "pV1Power"),                                     // pv/pv1_power
      Get(raw, "pV2Power"),                                     // pv/pv2_power
      Get(raw, "pV1Volt"),                                      // pv/pv1_volt
      Get(raw, "pV2Volt"),                                      // pv/pv2_volt
      Get(raw, "pV1Curr"),                                      // pv/pv1_current
      Get(raw, "pV2Curr"),                                      // pv/pv2_current
      Get(raw, "todayPVEnergy"),                                // pv/energy_today
      Get(raw, "batCapicity"),                                  // battery/capacity
      Get(raw, "batEnergyPercent"),                             // battery/soc
      battery.power,                                            // battery/power_live
      Get(raw, "batVolt"),                                      // battery/volt
      Get(raw, "batCurr"),                                      // battery/current
      Get(raw, "todayBatChgEnergy"),                            // battery/today_charge_energy
      Get(raw, "todayBatDisEnergy"),                            // battery/today_discharge_energy
      Get(raw, "totalBatChgEnergy"),                            // battery/total_charge_energy
      Get(raw, "totalBatDisEnergy"),                            // battery/total_discharge_energy
      JStr(battery.status),                                     // battery/battery_status
      Get(raw, "totalLoadPowerWatt"),                           // house/load_live
      JNum(CleanValue(Get(raw, "todayLoadEnergyStr"), parse)),  // house/energy_consumption_today
      Get(raw, "todayFeedInEnergy"),                            // house/import_today
      Get(raw, "todaySellEnergy"),                              // house/export_today
      grid.power,                                               // grid/power
      Get(raw, "rGridVolt"),                                    // grid/grid_voltage
      Get(raw, "rGridCurr"),                                    // grid/grid_current
      Get(raw, "rGridFreq"),                                    // grid/grid_frequency
      JStr(grid.status),                                        // grid/grid_status
      Get(raw, "deviceTemp"),                                   // inverter/deviceTemp
      JStr(lastUpdate)                                          // status/last_update_time
    ];
    seq(|TableTopics|, i requires 0 <= i < |TableTopics| => (TableTopics[i], values[i]))
  }

  /** `process_and_publish` on one reading: the label of `updateDate` is
      built first, so a label that raises stops the cycle before anything
      is sent; otherwise the cycle is the loop over the table that carries
      that label, whether the loop completes or raises. */
  function ProcessAndPublish(rd: Reading, num: Numerics): (out: Outcome)
    ensures var text := LastUpdateLabel(Get(rd.live, "updateDate"), num.clock);
      text.Ok? ==> out == PublishAll(Mapping(rd, num.parse, text.value), num)
    ensures LastUpdateLabel(Get(rd.live, "updateDate"), num.clock).Err? ==>
      out.sent == [] && out.failure == Some(LastUpdateLabel(Get(rd.live, "updateDate"), num.clock).error)
    ensures out.failure != Some(AttributeError)
  {
    match LastUpdateLabel(Get(rd.live, "updateDate"), num.clock)
    case Err(e) => Outcome([], Some(e))
    case Ok(lastUpdate) => PublishAll(Mapping(rd, num.parse, lastUpdate), num)
  }

  /** `process_and_publish` on the values the bridge holds, which need not
      be dicts. `self.live.get` (line 402) raises AttributeError on a `live`
      that is not a dict, before anything is sent. `self.raw.get` (line 416)
      does the same on a `raw` that is not a dict, once the last-update
      label is built. With two dicts the cycle is `ProcessAndPublish`. */
  function ProcessHeld(held: Held, num: Numerics): (out: Outcome)
    ensures !held.live.JObj? ==> out == Outcome([], Some(AttributeError))
    ensures held.live.JObj? && held.raw.JObj? ==>
      out == ProcessAndPublish(Reading(AsDict(held.live).value, AsDict(held.raw).value), num)
    ensures held.live.JObj? && !held.raw.JObj? ==> out.sent == [] && out.failure.Some?
    ensures held.live.JObj? && !held.raw.JObj? ==>
      (out.failure == Some(AttributeError) <==>
       LastUpdateLabel(Get(AsDict(held.live).value, "updateDate"), num.clock).Ok?)
    ensures out.failure == Some(AttributeError) ==> !held.live.JObj? || !held.raw.JObj?
    ensures out.sent != [] ==> held.live.JObj? && held.raw.JObj?
  {
    match AsDict(held.live)
    case None => Outcome([], Some(AttributeError))
    case Some(live) =>
      match LastUpdateLabel(Get(live, "updateDate"), num.clock)
      case Err(e) => Outcome([], Some(e))
      case Ok(_) =>
        match AsDict(held.raw)
        case None => Outcome([], Some(AttributeError))
        case Some(raw) => ProcessAndPublish(Reading(live, raw), num)
  }

  /** As written: after a raw page without "list", a cycle whose
      last-update label renders raises AttributeError at line 416 and sends
      nothing. */
  lemma AbsentListCycleRaises(held: Held, plant: Body, live: Body, raw: Body, num: Numerics)
    requires ObjectBody(plant) && ObjectBody(live) && ObjectBody(raw)
    requires "list" !in AsDict(raw.value).value
    requires var fetched := FetchDataAsWritten(held, plant, live, raw).live;
      fetched.JObj? && LastUpdateLabel(Get(AsDict(fetched).value, "updateDate"), num.clock).Ok?
    ensures ProcessHeld(FetchDataAsWritten(held, plant, live, raw), num) == Outcome([], Some(AttributeError))
  {
    AbsentListZeroesRaw(held, plant, live, raw);
  }

  /** Corrected: after a raw page without "list", the cycle reads the raw
      measurements as an empty dict, so every raw value is absent, and it
      never raises AttributeError. */
  lemma AbsentListCycleReads(held: Held, plant: Body, live: Body, raw: Body, num: Numerics)
    requires ObjectBody(plant) && ObjectBody(live) && ObjectBody(raw)
    requires "list" !in AsDict(raw.value).value
    requires var fetched := FetchData(held, plant, live, raw).live;
      fetched.JObj? && LastUpdateLabel(Get(AsDict(fetched).value, "updateDate"), num.clock).Ok?
    ensures var fetched := FetchData(held, plant, live, raw).live;
      ProcessHeld(FetchData(held, plant, live, raw), num) == ProcessAndPublish(Reading(AsDict(fetched).value, map[]), num)
    ensures ProcessHeld(FetchData(held, plant, live, raw), num).failure != Some(AttributeError)
  {
    AbsentListEmptyRaw(held, plant, live, raw);
  }

  /** The table position of the k-th announced sensor: the two lifetime
      battery totals sit between the daily battery energies and the battery
      status. */
  function AnnouncedAt(k: int): int {
    if k < 16 then k else k + 2
  }

  /** Every sensor `setup_discovery` announces has its value in the table,
      so its state topic receives the published value. */
  lemma AnnouncedSensorsMapped(rd: Reading, parse: string -> Option<real>, lastUpdate: string)
    ensures forall k :: 0 <= k < |SensorTable| ==>
      0 <= AnnouncedAt(k) < |Mapping(rd, parse, lastUpdate)| &&
      Mapping(rd, parse, lastUpdate)[AnnouncedAt(k)].0 == SensorTable[k].topic
  {
    SensorTopics();
  }

  /** The topic column of the table, in its order. */
  const TableTopics: seq<string> := [
    "pv/solar_power", "pv/power_now", "pv/pv1_power", "pv/pv2_power",
    "pv/pv1_volt", "pv/pv2_volt", "pv/pv1_current", "pv/pv2_current",
    "pv/energy_today", "battery/capacity", "battery/soc", "battery/power_live",
    "battery/volt", "battery/current", "battery/today_charge_energy",
    "battery/today_discharge_energy", "battery/total_charge_energy",
    "battery/total_discharge_energy", "battery/battery_status",
    "house/load_live", "house/energy_consumption_today", "house/import_today",
    "house/export_today", "grid/power", "grid/grid_voltage",
    "grid/grid_current", "grid/grid_frequency", "grid/grid_status",
    "inverter/deviceTemp", "status/last_update_time"]

  /** The announced sensors follow the table, skipping the two lifetime
      battery totals. */
  lemma SensorTopics()
    ensures forall k :: 0 <= k < |SensorTable| ==> SensorTable[k].topic == TableTopics[AnnouncedAt(k)]
  {
  }

  /** Every row of the table publishes to a topic of its own. */
  lemma TableTopicsDistinct()
    ensures forall i, j :: 0 <= i < j < |TableTopics| ==> TableTopics[i] != TableTopics[j]
  {
  }

  /** The first level of the k-th table topic. */
  function TopicGroup(k: int): string {
    if k < 9 then "pv"
    else if k < 19 then "battery"
    else if k < 23 then "house"
    else if k < 28 then "grid"
    else if k < 29 then "inverter"
    else "status"
  }

  /** Every table topic is its group, a '/', and one more level, and no
      group contains '_'; so flattening keeps the table's topics apart. */
  lemma TableTopicsTwoLevels()
    ensures forall k :: 0 <= k < |TableTopics| ==> TwoLevels(TableTopics[k], |TopicGroup(k)|)
  {
    PvTwoLevels();
    BatteryLevelsTwoLevels();
    BatteryEnergyTwoLevels();
    BatteryTailTwoLevels();
    HouseTwoLevels();
    GridTwoLevels();
    LastTwoLevels();
  }

  // The two-level shape a block of rows at a time: the literal topics are
  // checked character by character, which is too much for one query.
  lemma PvTwoLevels()
    ensures forall k :: 0 <= k < 9 ==> TwoLevels(TableTopics[k], |TopicGroup(k)|)
  {
  }

  lemma BatteryLevelsTwoLevels()
    ensures forall k :: 9 <= k < 14 ==> TwoLevels(TableTopics[k], |TopicGroup(k)|)
  {
  }

  lemma BatteryEnergyTwoLevels()
    ensures forall k :: 14 <= k < 17 ==> TwoLevels(TableTopics[k], |TopicGroup(k)|)
  {
  }

  lemma BatteryTailTwoLevels()
    ensures forall k :: 17 <= k < 19 ==> TwoLevels(TableTopics[k], |TopicGroup(k)|)
  {
  }

  lemma HouseTwoLevels()
    ensures forall k :: 19 <= k < 23 ==> TwoLevels(TableTopics[k], |TopicGroup(k)|)
  {
  }

  lemma GridTwoLevels()
    ensures forall k :: 23 <= k < 28 ==> TwoLevels(TableTopics[k], |TopicGroup(k)|)
  {
  }

  lemma LastTwoLevels()
    ensures forall k :: 28 <= k < 30 ==> TwoLevels(TableTopics[k], |TopicGroup(k)|)
  {
  }

  /** Each message `setup_discovery` publishes points Home Assistant at the
      state topic on which the telemetry loop publishes that sensor's table
      value. */
  lemma DiscoveryStateTopics()
    ensures forall k :: 0 <= k < |SetupDiscovery()| ==>
      Field(SetupDiscovery()[k].payload.fields, "state_topic") ==
        Some(JStr(MqttPrefix + "/" + TableTopics[AnnouncedAt(k)]))
  {
    SensorTopics();
  }

  /** No two announced sensors share an object id: their topics are distinct
      two-level table topics, which flattening keeps apart. */
  lemma SensorObjectIdsDistinct()
    ensures forall i, j :: 0 <= i < j < |SensorTable| ==>
      ObjectId(SensorTable[i].topic) != ObjectId(SensorTable[j].topic)
  {
    SensorTopics();
    TableTopicsDistinct();
    TableTopicsTwoLevels();
    forall i, j | 0 <= i < j < |SensorTable|
      ensures ObjectId(SensorTable[i].topic) != ObjectId(SensorTable[j].topic)
    {
      ObjectIdInjective(SensorTable[i].topic, |TopicGroup(AnnouncedAt(i))|,
                        SensorTable[j].topic, |TopicGroup(AnnouncedAt(j))|);
    }
  }

  /** `setup_discovery` announces every sensor on a discovery topic of its
      own and under a unique id of its own. */
  lemma DiscoveryDistinct()
    ensures forall i, j :: 0 <= i < j < |SetupDiscovery()| ==>
      SetupDiscovery()[i].topic != SetupDiscovery()[j].topic
    ensures forall i, j :: 0 <= i < j < |SetupDiscovery()| ==>
      Field(SetupDiscovery()[i].payload.fields, "unique_id") !=
        Field(SetupDiscovery()[j].payload.fields, "unique_id")
  {
    var ms := SetupDiscovery();
    SensorObjectIdsDistinct();
    forall i, j | 0 <= i < j < |ms|
      ensures ms[i].topic != ms[j].topic
      ensures Field(ms[i].payload.fields, "unique_id") != Field(ms[j].payload.fields, "unique_id")
    {
      DiscoveryTopicInjective(SensorTable[i].topic, SensorTable[j].topic);
      UniqueIdInjective(SensorTable[i].topic, SensorTable[j].topic);
    }
  }

  /** The two lifetime battery totals are published but never announced,
      so Home Assistant gets no sensor for them. */
  lemma LifetimeTotalsUnannounced(rd: Reading, parse: string -> Option<real>, lastUpdate: string)
    ensures Mapping(rd, parse, lastUpdate)[16].0 == "battery/total_charge_energy"
    ensures Mapping(rd, parse, lastUpdate)[17].0 == "battery/total_discharge_energy"
    ensures forall k :: 0 <= k < |SensorTable| ==>
      SensorTable[k].topic != "battery/total_charge_energy" &&
      SensorTable[k].topic != "battery/total_discharge_energy"
  {
  }

  /** A topic is not rounded when it lacks a letter of each keyword. */
  lemma NotRounded(topic: string, kv: int, kc: int, kf: int, ke: int)
    requires 0 <= kv < 4 && "volt"[kv] !in topic
    requires 0 <= kc < 7 && "current"[kc] !in topic
    requires 0 <= kf < 4 && "freq"[kf] !in topic
    requires 0 <= ke < 6 && "energy"[ke] !in topic
    ensures !RoundedTopic(topic)
  {
    MissingCharNoOccurrence(topic, "volt", kv);
    MissingCharNoOccurrence(topic, "current", kc);
    MissingCharNoOccurrence(topic, "freq", kf);
    MissingCharNoOccurrence(topic, "energy", ke);
  }

  /** The three status topics are not rounded. */
  lemma StatusTopicsPlain()
    ensures !RoundedTopic("grid/grid_status")
    ensures !RoundedTopic("battery/battery_status")
    ensures !RoundedTopic("status/last_update_time")
  {
    NotRounded("grid/grid_status", 0, 0, 0, 0);
    NotRounded("battery/battery_status", 0, 0, 0, 1);
    NotRounded("status/last_update_time", 0, 0, 0, 1);
  }

  /** No status label contains '%', so none is altered on its way out. */
  lemma StatusLabelsPlain(text: string)
    requires text in {Feeding, Exporting, GridIdle, Charging, Discharging, BatteryIdle}
    ensures '%' !in text
  {
    assert '%' !in Feeding && '%' !in Exporting && '%' !in GridIdle;
    assert '%' !in Charging && '%' !in Discharging && '%' !in BatteryIdle;
  }

  /** A present entry of a cycle that ran to the end was published. */
  lemma CompletedCycleSends(entries: seq<(string, JsonValue)>, num: Numerics, i: int)
    requires 0 <= i < |entries| && entries[i].1 != JNull
    requires PublishAll(entries, num).failure.None?
    ensures Emit(entries[i], num).Ok?
    ensures Emit(entries[i], num).value in PublishAll(entries, num).sent
  {
    PresentMembers(entries);
    assert entries[i] in Present(entries);
    var k :| 0 <= k < |Present(entries)| && Present(entries)[k] == entries[i];
    assert PublishAll(entries, num).sent[k] == Emit(entries[i], num).value;
  }

  /** A status label in a cycle that ran to the end went out as the text
      itself on its state topic. */
  lemma StatusSent(entries: seq<(string, JsonValue)>, num: Numerics, i: int, topic: string, text: string)
    requires 0 <= i < |entries| && entries[i] == (topic, JStr(text))
    requires !RoundedTopic(topic) && '%' !in text
    requires PublishAll(entries, num).failure.None?
    ensures Message(StateTopic(topic), JStr(text)) in PublishAll(entries, num).sent
  {
    CompletedCycleSends(entries, num, i);
  }

  /** Where the three status entries sit in the table. */
  lemma MappingStatuses(rd: Reading, parse: string -> Option<real>, lastUpdate: string)
    ensures var m := Mapping(rd, parse, lastUpdate);
      && m[27] == ("grid/grid_status", JStr(GridFlow(Get(rd.live, "gridPower"), Get(rd.live, "gridDirection")).status))
      && m[18] == ("battery/battery_status", JStr(BatteryFlow(Get(rd.raw, "batPower"), Get(rd.live, "batteryDirection")).status))
      && m[29] == ("status/last_update_time", JStr(lastUpdate))
  {
  }

  /** In a loop over the table that runs to the end, the grid and battery
      labels are among the messages sent, and so is the last-update label
      when it holds no '%'. */
  lemma StatusesSent(rd: Reading, num: Numerics, lastUpdate: string)
    requires PublishAll(Mapping(rd, num.parse, lastUpdate), num).failure.None?
    ensures var sent := PublishAll(Mapping(rd, num.parse, lastUpdate), num).sent;
      && Message(StateTopic("grid/grid_status"),
                 JStr(GridFlow(Get(rd.live, "gridPower"), Get(rd.live, "gridDirection")).status)) in sent
      && Message(StateTopic("battery/battery_status"),
                 JStr(BatteryFlow(Get(rd.raw, "batPower"), Get(rd.live, "batteryDirection")).status)) in sent
      && ('%' !in lastUpdate ==> Message(StateTopic("status/last_update_time"), JStr(lastUpdate)) in sent)
  {
    var m := Mapping(rd, num.parse, lastUpdate);
    var grid := GridFlow(Get(rd.live, "gridPower"), Get(rd.live, "gridDirection")).status;
    var battery := BatteryFlow(Get(rd.raw, "batPower"), Get(rd.live, "batteryDirection")).status;
    StatusLabelsPlain(grid);
    StatusLabelsPlain(battery);
    MappingStatuses(rd, num.parse, lastUpdate);
    StatusTopicsPlain();
    StatusSent(m, num, 27, "grid/grid_status", grid);
    StatusSent(m, num, 18, "battery/battery_status", battery);
    if '%' !in lastUpdate {
      StatusSent(m, num, 29, "status/last_update_time", lastUpdate);
    }
  }

  /** The clock renders "%H:%M:%S", so its text never holds '%'. */
  ghost predicate PlainClock(clock: real -> Option<string>) {
    forall t :: clock(t).Some? ==> '%' !in clock(t).value
  }

  /** The label of `updateDate`, when it renders, holds no '%'. */
  lemma LabelPlain(stamp: JsonValue, clock: real -> Option<string>)
    requires PlainClock(clock)
    requires LastUpdateLabel(stamp, clock).Ok?
    ensures '%' !in LastUpdateLabel(stamp, clock).value
  {
    if Truthy(stamp) {
      var t := AsNumber(stamp).value / 1000.0;
      assert clock(t).Some?;
    } else {
      assert '%' !in "N/D";
    }
  }

  /** A cycle that runs to the end publishes both status labels, and the
      last-update label when it holds no '%', each as its text on its state
      topic. */
  lemma CycleStatusesSent(rd: Reading, num: Numerics)
    requires ProcessAndPublish(rd, num).failure.None?
    ensures LastUpdateLabel(Get(rd.live, "updateDate"), num.clock).Ok?
    ensures var sent := ProcessAndPublish(rd, num).sent;
      && Message(StateTopic("grid/grid_status"),
                 JStr(GridFlow(Get(rd.live, "gridPower"), Get(rd.live, "gridDirection")).status)) in sent
      && Message(StateTopic("battery/battery_status"),
                 JStr(BatteryFlow(Get(rd.raw, "batPower"), Get(rd.live, "batteryDirection")).status)) in sent
      && ('%' !in LastUpdateLabel(Get(rd.live, "updateDate"), num.clock).value ==>
          Message(StateTopic("status/last_update_time"),
                  JStr(LastUpdateLabel(Get(rd.live, "updateDate"), num.clock).value)) in sent)
  {
    var text := LastUpdateLabel(Get(rd.live, "updateDate"), num.clock);
    assert text.Ok?;
    StatusesSent(rd, num, text.value);
  }

  /** When a cycle runs to the end, the grid status is among the messages
      sent, as its text on "peimar/grid/grid_status". */
  lemma GridStatusPublished(rd: Reading, num: Numerics)
    requires ProcessAndPublish(rd, num).failure.None?
    ensures Message(StateTopic("grid/grid_status"),
                    JStr(GridFlow(Get(rd.live, "gridPower"), Get(rd.live, "gridDirection")).status))
      in ProcessAndPublish(rd, num).sent
  {
    CycleStatusesSent(rd, num);
  }

  /** When a cycle runs to the end, the battery status is among the
      messages sent, as its text on "peimar/battery/battery_status". */
  lemma BatteryStatusPublished(rd: Reading, num: Numerics)
    requires ProcessAndPublish(rd, num).failure.None?
    ensures Message(StateTopic("battery/battery_status"),
                    JStr(BatteryFlow(Get(rd.raw, "batPower"), Get(rd.live, "batteryDirection")).status))
      in ProcessAndPublish(rd, num).sent
  {
    CycleStatusesSent(rd, num);
  }

  /** When a cycle runs to the end, the label built from the reading's
      `updateDate` ("N/D" or the clock's rendering) is among the messages
      sent, on "peimar/status/last_update_time". */
  lemma LastUpdatePublished(rd: Reading, num: Numerics)
    requires PlainClock(num.clock)
    requires ProcessAndPublish(rd, num).failure.None?
    ensures LastUpdateLabel(Get(rd.live, "updateDate"), num.clock).Ok?
    ensures Message(StateTopic("status/last_update_time"),
                    JStr(LastUpdateLabel(Get(rd.live, "updateDate"), num.clock).value))
      in ProcessAndPublish(rd, num).sent
  {
    CycleStatusesSent(rd, num);
    LabelPlain(Get(rd.live, "updateDate"), num.clock);
  }
}
