/** Value normalisation (`clean_value`) and the direction-signed grid and
    battery power with their status labels (peimar_bridge/peimar.py). */
module Normalize {
  import opened Base
  import opened Text

  // ---------------------------------------------------------------------
  // clean_value
  // ---------------------------------------------------------------------

  /** The unit and comma rewriting of `clean_value`, before stripping:
      '%', "kWh" and 'W' removed in that order, commas turned into points. */
  function Unitless(s: string): string {
    ReplaceAll(ReplaceAll(ReplaceAll(ReplaceAll(s, "%", ""), "kWh", ""), "W", ""), ",", ".")
  }

  /** What survives the unit rewriting: no '%', 'W' or ',', and every other
      character either a point or a character of the input. */
  lemma UnitlessChars(s: string)
    ensures '%' !in Unitless(s) && 'W' !in Unitless(s) && ',' !in Unitless(s)
    ensures forall x :: x in Unitless(s) ==> x == '.' || (x in s && x !in "%W,")
  {
    var a := ReplaceAll(s, "%", "");
    var b := ReplaceAll(a, "kWh", "");
    var c := ReplaceAll(b, "W", "");
    var d := ReplaceAll(c, ",", ".");
    assert d == Unitless(s);
    ReplaceCharRemoves(s, '%', "");
    forall x | x in b
      ensures x != '%'
    {
      ReplaceChars(a, "kWh", "", x);
    }
    ReplaceCharRemoves(b, 'W', "");
    forall x | x in c
      ensures x != '%'
    {
      ReplaceChars(b, "W", "", x);
    }
    ReplaceCharRemoves(c, ',', ".");
    forall x | x in d
      ensures x == '.' || (x in s && x !in "%W,")
    {
      ReplaceChars(c, ",", ".", x);
      if x != '.' {
        ReplaceChars(b, "W", "", x);
        ReplaceChars(a, "kWh", "", x);
        ReplaceChars(s, "%", "", x);
      }
    }
  }

  /** The text `clean_value` hands to `float()`: units and commas rewritten,
      then surrounding whitespace stripped. */
  function CleanString(s: string): (r: string)
    ensures '%' !in r && 'W' !in r && ',' !in r
    ensures r == [] || (!IsSpace(r[0]) && !IsSpace(r[|r| - 1]))
    ensures forall c :: c in r ==> c == '.' || (c in s && c !in "%W,")
  {
    UnitlessChars(s);
    Strip(Unitless(s))
  }

  /** Cleaning is idempotent: already-clean text is handed to `float()`
      unchanged, so cleaning twice gives what cleaning once gives. */
  lemma CleanStringIdempotent(s: string)
    ensures CleanString(CleanString(s)) == CleanString(s)
  {
    var t := CleanString(s);
    MissingCharNoOccurrence(t, "%", 0);
    ReplaceAbsent(t, "%", "");
    MissingCharNoOccurrence(t, "kWh", 1);
    ReplaceAbsent(t, "kWh", "");
    MissingCharNoOccurrence(t, "W", 0);
    ReplaceAbsent(t, "W", "");
    MissingCharNoOccurrence(t, ",", 0);
    ReplaceAbsent(t, ",", ".");
    StripTrimmed(t);
  }

  /** A reading as the portal prints it: digits with a decimal comma or
      point. */
  predicate Numeral(d: string) {
    forall i :: 0 <= i < |d| ==> IsDigit(d[i]) || d[i] == ',' || d[i] == '.'
  }

  predicate Blank(w: string) {
    forall i :: 0 <= i < |w| ==> IsSpace(w[i])
  }

  /** A portal reading, padded with whitespace and followed by one of the
      units the portal prints (none, "%", "W" or "kWh"), is handed to
      `float()` as the bare number with its decimal comma made a point. */
  lemma CleanStringOfReading(lead: string, d: string, trail: string, unit: string)
    requires Blank(lead) && Numeral(d) && Blank(trail)
    requires unit == "" || unit == "%" || unit == "W" || unit == "kWh"
    ensures CleanString(lead + d + trail + unit) == CommasToPoints(d)
  {
    var x := lead + d + trail;
    PaddedNumeralChars(lead, d, trail);
    DropPercent(x, unit);
    DropKwh(x, if unit == "%" then "" else unit);
    DropWatt(x, if unit == "W" then "W" else "");
    ReplaceCommas(x);
    PaddedNumeralCommas(lead, d, trail);
    StripAmidSpace(lead, CommasToPoints(d), trail);
  }

  /** A padded reading holds no unit character. */
  lemma PaddedNumeralChars(lead: string, d: string, trail: string)
    requires Blank(lead) && Numeral(d) && Blank(trail)
    ensures '%' !in lead + d + trail && 'k' !in lead + d + trail && 'W' !in lead + d + trail
  {
    var x := lead + d + trail;
    forall i | 0 <= i < |x|
      ensures x[i] != '%' && x[i] != 'k' && x[i] != 'W'
    {
      if i < |lead| {
        assert x[i] == lead[i];
      } else if i < |lead| + |d| {
        assert x[i] == d[i - |lead|];
      } else {
        assert x[i] == trail[i - |lead| - |d|];
      }
    }
  }

  /** Only the number of a padded reading holds commas, and with its commas
      made points it neither starts nor ends with whitespace. */
  lemma PaddedNumeralCommas(lead: string, d: string, trail: string)
    requires Blank(lead) && Numeral(d) && Blank(trail)
    ensures CommasToPoints(lead + d + trail) == lead + CommasToPoints(d) + trail
    ensures var p := CommasToPoints(d); p == [] || (!IsSpace(p[0]) && !IsSpace(p[|p| - 1]))
  {
    var x := lead + d + trail;
    var y := lead + CommasToPoints(d) + trail;
    forall i | 0 <= i < |x|
      ensures CommasToPoints(x)[i] == y[i]
    {
      if i < |lead| {
        assert x[i] == lead[i] == y[i];
      } else if i < |lead| + |d| {
        assert x[i] == d[i - |lead|];
      } else {
        assert x[i] == trail[i - |lead| - |d|] == y[i];
      }
    }
  }

  // The unit removals of `clean_value` on a text whose only unit is the
  // trailing one, one replacement at a time.
  lemma DropPercent(x: string, unit: string)
    requires '%' !in x
    requires unit == "" || unit == "%" || unit == "W" || unit == "kWh"
    ensures ReplaceAll(x + unit, "%", "") == x + (if unit == "%" then "" else unit)
  {
    ReplacePastPrefix(x, unit, "%", "");
    if unit == "%" {
      ReplaceWhole("%", "");
    } else {
      ReplaceMissingChar(unit, '%', "");
    }
  }

  lemma DropKwh(x: string, unit: string)
    requires 'k' !in x && 'W' !in x
    requires unit == "" || unit == "W" || unit == "kWh"
    ensures ReplaceAll(x + unit, "kWh", "") == x + (if unit == "W" then "W" else "")
  {
    ReplacePastPrefix(x, unit, "kWh", "");
    if unit == "kWh" {
      ReplaceWhole("kWh", "");
    } else {
      MissingCharNoOccurrence(unit, "kWh", 0);
      ReplaceAbsent(unit, "kWh", "");
    }
  }

  lemma DropWatt(x: string, unit: string)
    requires 'W' !in x
    requires unit == "" || unit == "W"
    ensures ReplaceAll(x + unit, "W", "") == x
  {
    ReplacePastPrefix(x, unit, "W", "");
    if unit == "W" {
      ReplaceWhole("W", "");
    }
    assert x + "" == x;
  }

  /** `clean_value(value)`: None gives 0.0, a number is itself, a string
      is cleaned and parsed, and any parse failure gives 0.0. The float
      parser is the oracle `parse` (None when `float()` raises). */
  function CleanValue(v: JsonValue, parse: string -> Option<real>): (r: real)
    ensures v.JNull? ==> r == 0.0
    ensures v.JNum? ==> r == v.n
    ensures v.JBool? ==> r == (if v.b then 1.0 else 0.0)
    ensures v.JArr? || v.JObj? ==> r == 0.0
    ensures v.JStr? ==> r == parse(CleanString(v.s)).GetOr(0.0)
  {
    match v
    case JNull => 0.0
    case JStr(s) =>
      (match parse(CleanString(s))
       case Some(x) => x
       case None => 0.0)
    case JNum(n) => n
    case JBool(b) => if b then 1.0 else 0.0
    case _ => 0.0
  }

  /** Feeding a cleaned string back through `clean_value` changes nothing. */
  lemma CleanValueStable(s: string, parse: string -> Option<real>)
    ensures CleanValue(JStr(CleanString(s)), parse) == CleanValue(JStr(s), parse)
  {
    CleanStringIdempotent(s);
  }

  /** Text without a character is left alone by replacing that character. */
  lemma ReplaceMissingChar(s: string, c: char, rep: string)
    requires c !in s
    ensures ReplaceAll(s, [c], rep) == s
  {
    MissingCharNoOccurrence(s, [c], 0);
    ReplaceAbsent(s, [c], rep);
  }

  // The worked example "1,5 kWh", one rewriting step at a time.
  lemma CommaExamplePercent() ensures ReplaceAll("1,5 kWh", "%", "") == "1,5 kWh" {
    ReplaceMissingChar("1,5 kWh", '%', "");
  }
  lemma CommaExampleKwh() ensures ReplaceAll("1,5 kWh", "kWh", "") == "1,5 " {
    var pat := "kWh";
    assert ReplaceAll("kWh", pat, "") == "" by {
      assert ReplaceAll("", pat, "") == "";
    }
    ReplaceSkip(" kWh", pat, "");
    assert " kWh"[1..] == "kWh";
    ReplaceSkip("5 kWh", pat, "");
    assert "5 kWh"[1..] == " kWh";
    ReplaceSkip(",5 kWh", pat, "");
    assert ",5 kWh"[1..] == "5 kWh";
    ReplaceSkip("1,5 kWh", pat, "");
    assert "1,5 kWh"[1..] == ",5 kWh";
  }
  lemma CommaExampleWatt() ensures ReplaceAll("1,5 ", "W", "") == "1,5 " {
    ReplaceMissingChar("1,5 ", 'W', "");
  }
  lemma CommaExampleComma() ensures ReplaceAll("1,5 ", ",", ".") == "1.5 " { }
  lemma CommaExampleUnitless() ensures Unitless("1,5 kWh") == "1.5 " {
    CommaExamplePercent();
    CommaExampleKwh();
    CommaExampleWatt();
    CommaExampleComma();
  }
  lemma CommaExampleStrip() ensures Strip("1.5 ") == "1.5" {
    var s := "1.5 ";
    assert !IsSpace(s[0]);
    assert StripStart(s) == s;
    assert IsSpace(s[3]) && s[..3] == "1.5";
    assert !IsSpace("1.5"[2]);
    assert StripEnd("1.5") == "1.5";
    assert StripEnd(s) == "1.5";
  }

  /** The worked example: "1,5 kWh" is handed to `float()` as "1.5". */
  lemma CleanStringCommaExample()
    ensures CleanString("1,5 kWh") == "1.5"
  {
    CommaExampleUnitless();
    CommaExampleStrip();
  }

  /** A percentage: "85%" is handed to `float()` as "85". */
  lemma CleanStringPercentExample()
    ensures CleanString("85%") == "85"
  {
    assert ReplaceAll("85%", "%", "") == "85";
    MissingCharNoOccurrence("85", "kWh", 0);
    ReplaceAbsent("85", "kWh", "");
    ReplaceMissingChar("85", 'W', "");
    ReplaceMissingChar("85", ',', ".");
    assert Unitless("85%") == "85";
    assert !IsSpace('8') && !IsSpace('5');
    var t := "85";
    assert t[0] == '8' && t[|t| - 1] == '5';
    StripTrimmed(t);
  }

  // ---------------------------------------------------------------------
  // Grid and battery direction
  // ---------------------------------------------------------------------

  const Feeding := "Immissione"
  const Exporting := "Esportazione"
  const GridIdle := "Riposo"
  const Charging := "Batteria in carica"
  const Discharging := "Batteria in scarica"
  const BatteryIdle := "Batteria a riposo"

  /** A power value with the status label derived for it. */
  datatype Flow = Flow(power: JsonValue, status: string)

  /** Python's `v > 0`, which raises TypeError unless `v` is a number. */
  function Positive(v: JsonValue): (r: Result<bool>)
    ensures r.Ok? <==> AsNumber(v).Some?
    ensures r.Ok? ==> (r.value <==> AsNumber(v).value > 0.0)
  {
    match AsNumber(v)
    case Some(x) => Ok(x > 0.0)
    case None => Err(TypeError)
  }

  /** Python's `-v`, which raises TypeError unless `v` is a number. */
  function Negate(v: JsonValue): (r: Result<JsonValue>)
    ensures r.Ok? <==> AsNumber(v).Some?
    ensures r.Ok? ==> AsNumber(r.value) == Some(-AsNumber(v).value)
  {
    match AsNumber(v)
    case Some(x) => Ok(JNum(-x))
    case None => Err(TypeError)
  }

  /** The grid block of `process_and_publish` exactly as written: a missing
      power with direction -1 or 1 makes `grid_power > 0` raise. */
  function GridFlowAsWritten(power: JsonValue, direction: JsonValue): (r: Result<Flow>)
    ensures r.Err? <==> (EqualsInt(direction, -1) || EqualsInt(direction, 1)) && AsNumber(power).None?
    ensures r.Ok? && EqualsInt(direction, -1) && AsNumber(power).value > 0.0 ==>
      r.value == Flow(JNum(-AsNumber(power).value), Feeding)
    ensures r.Ok? && EqualsInt(direction, 1) && AsNumber(power).value > 0.0 ==>
      r.value == Flow(power, Exporting)
    ensures r.Ok? && !((EqualsInt(direction, -1) || EqualsInt(direction, 1)) && AsNumber(power).value > 0.0) ==>
      r.value == Flow(power, GridIdle)
  {
    if EqualsInt(direction, -1) then
      match Positive(power)
      case Err(e) => Err(e)
      case Ok(true) => Ok(Flow(Negate(power).value, Feeding))
      case Ok(false) => Ok(Flow(power, GridIdle))
    else if EqualsInt(direction, 1) then
      match Positive(power)
      case Err(e) => Err(e)
      case Ok(true) => Ok(Flow(power, Exporting))
      case Ok(false) => Ok(Flow(power, GridIdle))
    else Ok(Flow(power, GridIdle))
  }

  /** The battery block of `process_and_publish` exactly as written: a
      missing power with direction -1 makes `-battery_power` raise. */
  function BatteryFlowAsWritten(power: JsonValue, direction: JsonValue): (r: Result<Flow>)
    ensures r.Err? <==> EqualsInt(direction, -1) && AsNumber(power).None?
    ensures r.Ok? && EqualsInt(direction, -1) ==>
      r.value == Flow(JNum(-AsNumber(power).value), Charging)
    ensures EqualsInt(direction, 1) ==> r == Ok(Flow(power, Discharging))
    ensures !EqualsInt(direction, -1) && !EqualsInt(direction, 1) ==> r == Ok(Flow(power, BatteryIdle))
  {
    if EqualsInt(direction, -1) then
      match Negate(power)
      case Err(e) => Err(e)
      case Ok(p) => Ok(Flow(p, Charging))
    else if EqualsInt(direction, 1) then Ok(Flow(power, Discharging))
    else Ok(Flow(power, BatteryIdle))
  }

  /** The grid derivation with a missing (or non-numeric) power read as not
      positive, so it never raises; the power is signed negative exactly
      when energy is fed into the grid. */
  function GridFlow(power: JsonValue, direction: JsonValue): (r: Flow)
    ensures r.status == Feeding <==>
      EqualsInt(direction, -1) && AsNumber(power).Some? && AsNumber(power).value > 0.0
    ensures r.status == Exporting <==>
      EqualsInt(direction, 1) && AsNumber(power).Some? && AsNumber(power).value > 0.0
    ensures r.status in {Feeding, Exporting, GridIdle}
    ensures r.status == Feeding ==> AsNumber(power).Some? && r.power == JNum(-AsNumber(power).value)
    ensures r.status == Feeding ==> AsNumber(r.power).Some? && AsNumber(r.power).value < 0.0
    ensures r.status != Feeding ==> r.power == power
  {
    var positive := AsNumber(power).Some? && AsNumber(power).value > 0.0;
    if EqualsInt(direction, -1) && positive then Flow(JNum(-AsNumber(power).value), Feeding)
    else if EqualsInt(direction, 1) && positive then Flow(power, Exporting)
    else Flow(power, GridIdle)
  }

  /** The battery derivation with a missing power left missing (and so not
      published) instead of raising; the label still follows the direction.
      A power that is neither a number nor missing (a string, say) is not
      negated either: it is passed through as it came, labelled charging. */
  function BatteryFlow(power: JsonValue, direction: JsonValue): (r: Flow)
    ensures r.status == Charging <==> EqualsInt(direction, -1)
    ensures r.status == Discharging <==> EqualsInt(direction, 1)
    ensures r.status in {Charging, Discharging, BatteryIdle}
    ensures EqualsInt(direction, -1) && AsNumber(power).Some? ==>
      r.power == JNum(-AsNumber(power).value)
    ensures EqualsInt(direction, -1) && AsNumber(power).None? ==> r.power == power
    ensures r.power.JNull? <==> power.JNull?
    ensures !EqualsInt(direction, -1) ==> r.power == power
  {
    if EqualsInt(direction, -1) then
      Flow(if AsNumber(power).Some? then JNum(-AsNumber(power).value) else power, Charging)
    else if EqualsInt(direction, 1) then Flow(power, Discharging)
    else Flow(power, BatteryIdle)
  }

  /** Wherever the code as written does not raise, the corrected grid
      derivation gives the same power and label. */
  lemma GridFlowAgrees(power: JsonValue, direction: JsonValue)
    ensures GridFlowAsWritten(power, direction).Ok? ==>
      GridFlowAsWritten(power, direction).value == GridFlow(power, direction)
  {
  }

  /** Wherever the code as written does not raise, the corrected battery
      derivation gives the same power and label. */
  lemma BatteryFlowAgrees(power: JsonValue, direction: JsonValue)
    ensures BatteryFlowAsWritten(power, direction).Ok? ==>
      BatteryFlowAsWritten(power, direction).value == BatteryFlow(power, direction)
  {
  }

  /** A reading without `gridPower` while the direction is -1 (feed-in)
      raises TypeError as written; the corrected derivation reports idle and
      leaves the power unpublished. The battery block fails the same way
      without `batPower` while charging. */
  lemma MissingPowerRaises()
    ensures GridFlowAsWritten(JNull, JNum(-1.0)) == Err(TypeError)
    ensures GridFlow(JNull, JNum(-1.0)) == Flow(JNull, GridIdle)
    ensures BatteryFlowAsWritten(JNull, JNum(-1.0)) == Err(TypeError)
    ensures BatteryFlow(JNull, JNum(-1.0)) == Flow(JNull, Charging)
  {
  }

  /** The worked examples: (100, -1), (100, 1), (0, 0) on the grid and
      (50, -1), (50, 1) on the battery. */
  lemma FlowExamples()
    ensures GridFlow(JNum(100.0), JNum(-1.0)) == Flow(JNum(-100.0), Feeding)
    ensures GridFlow(JNum(100.0), JNum(1.0)) == Flow(JNum(100.0), Exporting)
    ensures GridFlow(JNum(0.0), JNum(0.0)) == Flow(JNum(0.0), GridIdle)
    ensures BatteryFlow(JNum(50.0), JNum(-1.0)) == Flow(JNum(-50.0), Charging)
    ensures BatteryFlow(JNum(50.0), JNum(1.0)) == Flow(JNum(50.0), Discharging)
  {
  }
}
