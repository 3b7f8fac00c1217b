/** Home Assistant MQTT discovery: the document `announce_sensor` publishes
    for one sensor and the fixed sensor table `setup_discovery` announces
    (peimar_bridge/peimar.py). */
module Discovery {
  import opened Base
  import opened Text

  /** The topic prefix every telemetry topic lives under. */
  const MqttPrefix := "peimar"
  /** The inverter's serial number, part of every unique id. */
  const DeviceSerial := "H1S2602J2050E00358"

  /** One sensor as `announce_sensor` receives it; None stands for Python's
      None (the default device class). */
  datatype Sensor = Sensor(
    name: string,
    topic: string,
    unit: string,
    deviceClass: Option<string>,
    stateClass: Option<string>)

  /** Python truthiness of an optional string argument. */
  predicate Given(o: Option<string>) {
    o.Some? && o.value != ""
  }

  /** The topic with every '/' turned into '_': one topic level. */
  function ObjectId(topic: string): (r: string)
    ensures '/' !in r
    ensures |r| == |topic|
    ensures forall k :: 0 <= k < |topic| ==> r[k] == (if topic[k] == '/' then '_' else topic[k])
  {
    ReplaceCharRemoves(topic, '/', "_");
    ReplaceCharPointwise(topic, '/', '_');
    ReplaceAll(topic, "/", "_")
  }

  function DiscoveryTopic(topic: string): string {
    "homeassistant/sensor/" + MqttPrefix + "/" + ObjectId(topic) + "/config"
  }

  function UniqueId(topic: string): string {
    "peimar_" + DeviceSerial + "_" + ObjectId(topic)
  }

  function StateTopic(topic: string): string {
    MqttPrefix + "/" + topic
  }

  /** `t` is a first level of `n` characters, a '/', and a second level:
      no other '/' anywhere and no '_' in the first level. Flattening such
      a topic keeps the level boundary as its first '_'. */
  predicate TwoLevels(t: string, n: int) {
    0 <= n < |t| && t[n] == '/' &&
    (forall k :: 0 <= k < n ==> t[k] != '/' && t[k] != '_') &&
    (forall k :: n < k < |t| ==> t[k] != '/')
  }

  /** Flattening is one-to-one on two-level topics: two such topics share
      an object id exactly when they are the same topic. */
  lemma ObjectIdInjective(a: string, i: int, b: string, j: int)
    requires TwoLevels(a, i) && TwoLevels(b, j)
    ensures ObjectId(a) == ObjectId(b) <==> a == b
  {
    if ObjectId(a) == ObjectId(b) {
      forall k | 0 <= k < |a|
        ensures a[k] == b[k]
      {
        assert ObjectId(a)[k] == ObjectId(b)[k];
      }
    }
  }

  /** Without the two-level shape flattening merges topics: "a/b_c" and
      "a_b/c" get the same object id. */
  lemma ObjectIdMerges()
    ensures "a/b_c" != "a_b/c"
    ensures ObjectId("a/b_c") == ObjectId("a_b/c")
  {
    var a, b := "a/b_c", "a_b/c";
    assert a[1] != b[1];
    assert ObjectId(a) == "a_b_c";
    assert ObjectId(b) == "a_b_c";
  }

  /** The discovery topic determines the object id and the other way round. */
  lemma DiscoveryTopicInjective(a: string, b: string)
    ensures DiscoveryTopic(a) == DiscoveryTopic(b) <==> ObjectId(a) == ObjectId(b)
  {
    var head := "homeassistant/sensor/" + MqttPrefix + "/";
    if DiscoveryTopic(a) == DiscoveryTopic(b) {
      var ta, tb := DiscoveryTopic(a), DiscoveryTopic(b);
      assert ta == head + ObjectId(a) + "/config";
      assert tb == head + ObjectId(b) + "/config";
      assert ObjectId(a) == ta[|head|..|ta| - 7];
      assert ObjectId(b) == tb[|head|..|tb| - 7];
    }
  }

  /** The unique id determines the object id and the other way round. */
  lemma UniqueIdInjective(a: string, b: string)
    ensures UniqueId(a) == UniqueId(b) <==> ObjectId(a) == ObjectId(b)
  {
    var head := "peimar_" + DeviceSerial + "_";
    if UniqueId(a) == UniqueId(b) {
      assert UniqueId(a) == head + ObjectId(a);
      assert UniqueId(b) == head + ObjectId(b);
      assert ObjectId(a) == UniqueId(a)[|head|..];
      assert ObjectId(b) == UniqueId(b)[|head|..];
    }
  }

  /** The discovery topic has exactly five levels, the fourth being the
      flattened sensor topic. */
  lemma DiscoveryTopicLevels(topic: string)
    ensures Split(DiscoveryTopic(topic), '/') == ["homeassistant", "sensor", MqttPrefix, ObjectId(topic), "config"]
  {
    var id := ObjectId(topic);
    DiscoveryJoin(id);
    DiscoveryLevelsPlain(id);
    SplitJoin(["homeassistant", "sensor", MqttPrefix, id, "config"], '/');
  }

  /** The five levels joined by '/' spell the discovery topic. */
  lemma DiscoveryJoin(id: string)
    ensures Join(["homeassistant", "sensor", MqttPrefix, id, "config"], '/') ==
      "homeassistant/sensor/" + MqttPrefix + "/" + id + "/config"
  {
    var levels := ["homeassistant", "sensor", MqttPrefix, id, "config"];
    assert Join(levels[4..], '/') == "config";
    assert Join(levels[3..], '/') == id + "/config";
    assert Join(levels[2..], '/') == MqttPrefix + "/" + id + "/config";
    assert Join(levels[1..], '/') == "sensor/" + MqttPrefix + "/" + id + "/config";
  }

  /** No level of the discovery topic contains '/' when the object id
      does not. */
  lemma DiscoveryLevelsPlain(id: string)
    requires '/' !in id
    ensures forall i :: 0 <= i < 5 ==> '/' !in ["homeassistant", "sensor", MqttPrefix, id, "config"][i]
  {
  }

  /** The optional trailing key of the discovery document. */
  function OptionalField(key: string, o: Option<string>): seq<(string, JsonValue)> {
    if Given(o) then [(key, JStr(o.value))] else []
  }

  /** The device every sensor is attributed to. */
  const Device := JObj([
    ("identifiers", JArr([JStr("peimar_inverter_" + DeviceSerial)])),
    ("name", JStr("Inverter Peimar")),
    ("manufacturer", JStr("Peimar"))])

  /** The keys of the discovery document, in the order they are written. */
  function DocumentFields(s: Sensor): seq<(string, JsonValue)> {
    [ ("name", JStr(s.name)),
      ("state_topic", JStr(StateTopic(s.topic))),
      ("unique_id", JStr(UniqueId(s.topic))),
      ("unit_of_measurement", JStr(s.unit)),
      ("device", Device) ]
    + OptionalField("device_class", s.deviceClass)
    + OptionalField("state_class", s.stateClass)
  }

  lemma DocumentLookups(s: Sensor)
    ensures Field(DocumentFields(s), "name") == Some(JStr(s.name))
    ensures Field(DocumentFields(s), "state_topic") == Some(JStr(StateTopic(s.topic)))
    ensures Field(DocumentFields(s), "unique_id") == Some(JStr(UniqueId(s.topic)))
    ensures Field(DocumentFields(s), "unit_of_measurement") == Some(JStr(s.unit))
    ensures Field(DocumentFields(s), "device") == Some(Device)
    ensures Field(DocumentFields(s), "device_class") ==
      (if Given(s.deviceClass) then Some(JStr(s.deviceClass.value)) else None)
    ensures Field(DocumentFields(s), "state_class") ==
      (if Given(s.stateClass) then Some(JStr(s.stateClass.value)) else None)
  {
    var fields := DocumentFields(s);
    FieldAt(fields, "name", 0);
    FieldAt(fields, "state_topic", 1);
    FieldAt(fields, "unique_id", 2);
    FieldAt(fields, "unit_of_measurement", 3);
    FieldAt(fields, "device", 4);
    if Given(s.deviceClass) {
      FieldAt(fields, "device_class", 5);
    } else {
      FieldAbsent(fields, "device_class");
    }
    if Given(s.stateClass) {
      FieldAt(fields, "state_class", |fields| - 1);
    } else {
      FieldAbsent(fields, "state_class");
    }
  }

  /** The retained discovery message `announce_sensor` publishes: addressed
      to the sensor's own discovery topic (its topic flattened into a single
      level), naming the state topic the telemetry is published on and a
      unique id built from the serial number, with `device_class` and
      `state_class` present exactly when given. */
  function AnnounceSensor(s: Sensor): (m: Message)
    ensures Split(m.topic, '/') == ["homeassistant", "sensor", MqttPrefix, ObjectId(s.topic), "config"]
    ensures m.payload.JObj?
    ensures Field(m.payload.fields, "name") == Some(JStr(s.name))
    ensures Field(m.payload.fields, "state_topic") == Some(JStr(StateTopic(s.topic)))
    ensures Field(m.payload.fields, "unique_id") == Some(JStr(UniqueId(s.topic)))
    ensures Field(m.payload.fields, "unit_of_measurement") == Some(JStr(s.unit))
    ensures Field(m.payload.fields, "device") == Some(Device)
    ensures Field(m.payload.fields, "device_class").Some? <==> Given(s.deviceClass)
    ensures Given(s.deviceClass) ==> Field(m.payload.fields, "device_class") == Some(JStr(s.deviceClass.value))
    ensures Field(m.payload.fields, "state_class").Some? <==> Given(s.stateClass)
    ensures Given(s.stateClass) ==> Field(m.payload.fields, "state_class") == Some(JStr(s.stateClass.value))
  {
    DocumentLookups(s);
    DiscoveryTopicLevels(s.topic);
    Message(DiscoveryTopic(s.topic), JObj(DocumentFields(s)))
  }

  /** Shorthand for the table rows: `announce_sensor` with the given device
      class and state class. */
  function Measured(name: string, topic: string, unit: string, deviceClass: string, stateClass: string): Sensor {
    Sensor(name, topic, unit, Some(deviceClass), Some(stateClass))
  }

  /** The sensors `setup_discovery` announces, in order. */
  const SensorTable: seq<Sensor> := [
    Sensor("Potenza Impianto", "pv/solar_power", "KW", None, Some("measurement")),
    Measured("Potenza PV Live", "pv/power_now", "W", "power", "measurement"),
    Measured("Potenza S1 Live", "pv/pv1_power", "W", "power", "measurement"),
    Measured("Potenza S2 Live", "pv/pv2_power", "W", "power", "measurement"),
    Measured("Tensione S1 Live", "pv/pv1_volt", "V", "voltage", "measurement"),
    Measured("Tensione S2 Live", "pv/pv2_volt", "V", "voltage", "measurement"),
    Measured("Corrente S1 Live", "pv/pv1_current", "A", "current", "measurement"),
    Measured("Corrente S2 Live", "pv/pv2_current", "A", "current", "measurement"),
    Measured("Energia Prodotta Oggi", "pv/energy_today", "kWh", "energy", "total_increasing"),
    Sensor("Capacità Batteria", "battery/capacity", "Ah", None, Some("measurement")),
    Measured("SOC Batteria", "battery/soc", "%", "battery", "measurement"),
    Measured("Potenza Batteria Live", "battery/power_live", "W", "power", "measurement"),
    Measured("Tensione Batteria", "battery/volt", "V", "voltage", "measurement"),
    Measured("Corrente Batteria", "battery/current", "A", "current", "measurement"),
    Measured("Energia Caricata in Bat. Oggi", "battery/today_charge_energy", "kWh", "energy", "total_increasing"),
    Measured("Energia Scaricata da Bat. Oggi", "battery/today_discharge_energy", "kWh", "energy", "total_increasing"),
    Sensor("Stato Batteria", "battery/battery_status", "", None, None),
    Measured("Consumo Casa Live", "house/load_live", "W", "power", "measurement"),
    Measured("Consumo Casa oggi", "house/energy_consumption_today", "kWh", "energy", "total_increasing"),
    Measured("Energia Importata Oggi", "house/import_today", "kWh", "energy", "total_increasing"),
    Measured("Energia Esportata Oggi", "house/export_today", "kWh", "energy", "total_increasing"),
    Measured("Potenza Rete Live", "grid/power", "W", "power", "measurement"),
    Measured("Tensione Rete Live", "grid/grid_voltage", "V", "voltage", "measurement"),
    Measured("Corrente Rete Live", "grid/grid_current", "A", "current", "measurement"),
    Measured("Frequenza Rete Live", "grid/grid_frequency", "Hz", "frequency", "measurement"),
    Sensor("Stato Rete", "grid/grid_status", "", None, None),
    Measured("Temperatura Inverter", "inverter/deviceTemp", "°C", "temperature", "measurement"),
    Sensor("Ultimo Aggiornamento", "status/last_update_time", "", None, None)
  ]

  /** The messages `setup_discovery` publishes: one per table row, in order. */
  function SetupDiscovery(): (ms: seq<Message>)
    ensures |ms| == |SensorTable|
    ensures forall i :: 0 <= i < |ms| ==> ms[i] == AnnounceSensor(SensorTable[i])
  {
    seq(|SensorTable|, i requires 0 <= i < |SensorTable| => AnnounceSensor(SensorTable[i]))
  }
}
