/**
 * The MQTT adapter of pkg/device/adapter.go: how a state message becomes an
 * on/off reading, how a host command becomes an MQTT payload plus a state
 * patch, and the guard that wires each entity at most once.
 */
module Adapter {
  import opened Wrappers
  import opened GoStrings
  import opened Json
  import opened HaPayload
  import LogicDiscovery
  import PluginIds

  // ---------------------------------------------------------------------
  // payloadToState

  /** Go's `(bool, string)` pair: the power flag and its label. */
  datatype Power = Power(on: bool, word: string)

  const On: Power := Power(true, "on")
  const Off: Power := Power(false, "off")

  /** The lower-cased words read as on. */
  predicate IsOnWord(s: string) {
    s == "on" || s == "true" || s == "1"
  }

  /** The lower-cased words read as off. */
  predicate IsOffWord(s: string) {
    s == "off" || s == "false" || s == "0"
  }

  /** The keyword switch on `strings.ToLower(s)`; None when `s` is no keyword. */
  function Keyword(s: string): (r: Option<Power>)
    ensures r.Some? ==> r.value == On || r.value == Off
  {
    var l := ToLower(s);
    if IsOnWord(l) then Some(On)
    else if IsOffWord(l) then Some(Off)
    else None
  }

  /** The first stage: the trimmed raw text, when it is the on-payload or a keyword. */
  function RawState(raw: string, payloadOn: string): (r: Option<Power>)
    ensures r.Some? ==> r.value == On || r.value == Off
  {
    var val := TrimSpace(raw);
    if val == "" then None
    else if payloadOn != "" && val == payloadOn then Some(On)
    else Keyword(val)
  }

  /**
   * What one value of the parsed state map decides: a bool or a number
   * always decides, a string only when it is the on-payload or a keyword,
   * anything else never.
   */
  function ValueState(v: Json, payloadOn: string): (r: Option<Power>)
    ensures r.Some? ==> r.value == On || r.value == Off
  {
    match v
    case JBool(x) => Some(if x then On else Off)
    case JString(x) =>
      if payloadOn != "" && x == payloadOn then Some(On) else Keyword(TrimSpace(x))
    case JNum(x) => Some(if x != 0 then On else Off)
    case _ => None
  }

  /** The keys scanned, in order. */
  const StateKeys: seq<string> := ["state", "power", "value"]

  /** Whether key `k` of `parsed` decides the state. */
  predicate Decides(parsed: map<string, Json>, k: string, payloadOn: string) {
    k in parsed && ValueState(parsed[k], payloadOn).Some?
  }

  /** The scan over `keys`: the reading of the first key that decides, if any. */
  function ScanKeys(keys: seq<string>, parsed: map<string, Json>, payloadOn: string): Option<Power> {
    if keys == [] then None
    else if Decides(parsed, keys[0], payloadOn) then ValueState(parsed[keys[0]], payloadOn)
    else ScanKeys(keys[1..], parsed, payloadOn)
  }

  /** payloadToState: the raw text first, then the key scan, else off. */
  function PayloadToState(raw: string, parsed: map<string, Json>, payloadOn: string): (r: Power)
    ensures r == On || r == Off
    ensures r.on <==> r.word == "on"
  {
    match RawState(raw, payloadOn)
    case Some(p) => p
    case None =>
      match ScanKeys(StateKeys, parsed, payloadOn)
      case Some(p) =>
        ScanKeysShape(StateKeys, parsed, payloadOn);
        p
      case None => Off
  }

  /** The scan only ever yields on or off. */
  lemma {:induction false} ScanKeysShape(keys: seq<string>, parsed: map<string, Json>, payloadOn: string)
    ensures var r := ScanKeys(keys, parsed, payloadOn); r.Some? ==> r.value == On || r.value == Off
  {
    if keys != [] && !Decides(parsed, keys[0], payloadOn) {
      ScanKeysShape(keys[1..], parsed, payloadOn);
    }
  }

  /**
   * The scan finds a reading exactly when some key decides, and then it is
   * the reading of the first such key: no earlier key decides.
   */
  lemma {:induction false} ScanKeysFirst(keys: seq<string>, parsed: map<string, Json>, payloadOn: string)
    ensures ScanKeys(keys, parsed, payloadOn).Some? <==> exists i :: 0 <= i < |keys| && Decides(parsed, keys[i], payloadOn)
    ensures ScanKeys(keys, parsed, payloadOn).Some? ==>
      exists i :: 0 <= i < |keys| && Decides(parsed, keys[i], payloadOn)
        && ScanKeys(keys, parsed, payloadOn) == ValueState(parsed[keys[i]], payloadOn)
        && forall j :: 0 <= j < i ==> !Decides(parsed, keys[j], payloadOn)
  {
    if keys != [] && !Decides(parsed, keys[0], payloadOn) {
      ScanKeysFirst(keys[1..], parsed, payloadOn);
      var tail := keys[1..];
      if ScanKeys(keys, parsed, payloadOn).Some? {
        var i :| 0 <= i < |tail| && Decides(parsed, tail[i], payloadOn)
          && ScanKeys(tail, parsed, payloadOn) == ValueState(parsed[tail[i]], payloadOn)
          && forall j :: 0 <= j < i ==> !Decides(parsed, tail[j], payloadOn);
        assert keys[i + 1] == tail[i];
        forall j | 0 <= j < i + 1 ensures !Decides(parsed, keys[j], payloadOn) {
          if j > 0 { assert keys[j] == tail[j - 1]; }
        }
      } else {
        forall i | 0 <= i < |keys| ensures !Decides(parsed, keys[i], payloadOn) {
          if i > 0 { assert keys[i] == tail[i - 1]; }
        }
      }
    }
  }

  /**
   * A trimmed raw text that is the (non-empty) on-payload reads as on,
   * whatever the parsed map holds; a raw keyword likewise decides alone.
   */
  lemma RawTextFirst(raw: string, parsed: map<string, Json>, parsed2: map<string, Json>, payloadOn: string)
    ensures payloadOn != "" && TrimSpace(raw) == payloadOn ==> PayloadToState(raw, parsed, payloadOn) == On
    ensures RawState(raw, payloadOn).Some? ==>
      PayloadToState(raw, parsed, payloadOn) == PayloadToState(raw, parsed2, payloadOn)
    ensures TrimSpace(raw) != "" && IsOnWord(ToLower(TrimSpace(raw))) ==> PayloadToState(raw, parsed, payloadOn) == On
    ensures TrimSpace(raw) != "" && IsOffWord(ToLower(TrimSpace(raw))) && TrimSpace(raw) != payloadOn ==>
      PayloadToState(raw, parsed, payloadOn) == Off
  {
  }

  /**
   * When the raw text decides nothing, the reading is that of the first of
   * `state`, `power`, `value` that decides, and off when none does.
   */
  lemma KeyScanDecides(raw: string, parsed: map<string, Json>, payloadOn: string)
    requires RawState(raw, payloadOn).None?
    ensures Decides(parsed, "state", payloadOn) ==>
      PayloadToState(raw, parsed, payloadOn) == ValueState(parsed["state"], payloadOn).value
    ensures !Decides(parsed, "state", payloadOn) && Decides(parsed, "power", payloadOn) ==>
      PayloadToState(raw, parsed, payloadOn) == ValueState(parsed["power"], payloadOn).value
    ensures !Decides(parsed, "state", payloadOn) && !Decides(parsed, "power", payloadOn) && Decides(parsed, "value", payloadOn) ==>
      PayloadToState(raw, parsed, payloadOn) == ValueState(parsed["value"], payloadOn).value
    ensures !Decides(parsed, "state", payloadOn) && !Decides(parsed, "power", payloadOn) && !Decides(parsed, "value", payloadOn) ==>
      PayloadToState(raw, parsed, payloadOn) == Off
  {
    var tail := ["power", "value"];
    assert StateKeys[1..] == tail && tail[1..] == ["value"] && ["value"][1..] == [];
    assert ScanKeys(StateKeys, parsed, payloadOn)
      == if Decides(parsed, "state", payloadOn) then ValueState(parsed["state"], payloadOn) else ScanKeys(tail, parsed, payloadOn);
    assert ScanKeys(tail, parsed, payloadOn)
      == if Decides(parsed, "power", payloadOn) then ValueState(parsed["power"], payloadOn) else ScanKeys(["value"], parsed, payloadOn);
    assert ScanKeys(["value"], parsed, payloadOn)
      == if Decides(parsed, "value", payloadOn) then ValueState(parsed["value"], payloadOn) else ScanKeys([], parsed, payloadOn);
  }

  /** A bool or a number in a deciding key reads as on exactly when it is true or non-zero. */
  lemma ScalarValues(x: bool, n: int, payloadOn: string)
    ensures ValueState(JBool(x), payloadOn) == Some(if x then On else Off)
    ensures ValueState(JNum(n), payloadOn).value.on <==> n != 0
    ensures ValueState(JNull, payloadOn).None?
  {
  }

  /**
   * A string in a deciding key reads as on when it is the on-payload or an
   * on word, as off when it is an off word and neither of those, and decides
   * nothing otherwise; the words are compared trimmed and lower-cased.
   */
  lemma StringValues(x: string, payloadOn: string)
    ensures var l := ToLower(TrimSpace(x));
      (ValueState(JString(x), payloadOn).Some? <==>
         (payloadOn != "" && x == payloadOn) || IsOnWord(l) || IsOffWord(l))
    ensures var l := ToLower(TrimSpace(x));
      (ValueState(JString(x), payloadOn) == Some(On) <==>
         (payloadOn != "" && x == payloadOn) || IsOnWord(l))
    ensures var l := ToLower(TrimSpace(x));
      (ValueState(JString(x), payloadOn) == Some(Off) <==>
         !(payloadOn != "" && x == payloadOn) && !IsOnWord(l) && IsOffWord(l))
  {
  }

  /** Zigbee2MQTT's "ON" reads on; "OFF" reads off unless it is itself the on-payload. */
  lemma StateWords(payloadOn: string)
    ensures ValueState(JString("ON"), payloadOn) == Some(On)
    ensures ValueState(JString("OFF"), payloadOn) == if payloadOn == "OFF" then Some(On) else Some(Off)
  {
    TrimSpaceKeeps("ON");
    TrimSpaceKeeps("OFF");
    assert ToLower("ON") == "on";
    assert ToLower("OFF") == "off";
  }

  // ---------------------------------------------------------------------
  // intFromAny and mapType

  /**
   * intFromAny on a decoded value: integers as they are, a string by reading
   * its trimmed text as a JSON number (truncated toward zero), 0 for blank or
   * unreadable strings and for every other kind.
   */
  function IntFromAny(v: Json): int {
    match v
    case JNum(n) => n
    case JString(x) =>
      var t := TrimSpace(x);
      if t == "" then 0
      else
        (match ParseNumber(t)
         case Some(f) => f
         case None => 0)
    case _ => 0
  }

  /** Numbers come back unchanged, and blank or unreadable strings and the other kinds give 0. */
  lemma IntFromAnyValues(n: int, b: bool, f: map<string, Json>, x: string)
    ensures IntFromAny(JNum(n)) == n
    ensures IntFromAny(JString("")) == 0
    ensures TrimSpace(x) == "" ==> IntFromAny(JString(x)) == 0
    ensures ParseNumber(TrimSpace(x)).None? ==> IntFromAny(JString(x)) == 0
    ensures TrimSpace(x) != "" && ParseNumber(TrimSpace(x)).Some? ==> IntFromAny(JString(x)) == ParseNumber(TrimSpace(x)).value
    ensures IntFromAny(JNull) == 0 && IntFromAny(JBool(b)) == 0 && IntFromAny(JObj(f)) == 0
  {
  }

  /** The decimal text of an integer is read back as that integer. */
  lemma IntFromAnyDecimal(n: int)
    ensures IntFromAny(JString(IntToDecimal(n))) == n
  {
    var d := IntToDecimal(n);
    DecimalEnds(n);
    TrimSpaceKeeps(d);
    ParseNumberDecimal(n);
  }

  /** A decimal text starts and ends with a digit or a sign, never with white space. */
  lemma DecimalEnds(n: int)
    ensures var d := IntToDecimal(n); |d| >= 1 && !IsSpace(d[0]) && !IsSpace(d[|d| - 1])
  {
    var m: nat := if n < 0 then -n else n;
    var d := NatToDecimal(m);
    assert IsDigit(d[0]) && IsDigit(d[|d| - 1]);
    if n < 0 {
      assert IntToDecimal(n) == ['-'] + d;
    }
  }

  /** The host's entity types. */
  datatype EntityType = TypeSwitch | TypeLight | TypeBinarySensor | TypeSensor | TypeCover

  /** mapType: a Home Assistant component to the host's entity type, sensor by default. */
  function MapType(haType: string): EntityType {
    if haType == "switch" then TypeSwitch
    else if haType == "light" then TypeLight
    else if haType == "binary_sensor" then TypeBinarySensor
    else if haType == "sensor" then TypeSensor
    else if haType == "cover" then TypeCover
    else TypeSensor
  }

  /**
   * mapType and the plugin's mapDomain sort components alike: two components
   * get the same entity type exactly when they get the same domain.
   */
  lemma MapTypeAgreesWithDomain(a: string, b: string)
    ensures MapType(a) == MapType(b) <==> PluginIds.MapDomain(a) == PluginIds.MapDomain(b)
    ensures MapType(a) == MapType(PluginIds.MapDomain(a))
    ensures !PluginIds.IsKnownDomain(a) ==> MapType(a) == TypeSensor
  {
    PluginIds.MapDomainProps(a);
    PluginIds.MapDomainProps(b);
  }

  // ---------------------------------------------------------------------
  // buildMQTTPayloadForCommand

  /**
   * The payload handed to the broker: none (Go's ""), a configured payload
   * sent verbatim, or an object that json.Marshal encodes.
   */
  datatype Wire = NoPayload | Literal(text: string) | Encoded(obj: map<string, Json>)

  /** The payload and the state patch a command produces. */
  datatype Built = Built(payload: Wire, patch: map<string, Json>)

  /** `int(math.Round(1e6 / kelvin))` for a positive kelvin, in integers. */
  function Mired(kelvin: int): (m: int)
    requires kelvin > 0
    ensures -kelvin <= 2 * (1_000_000 - m * kelvin) < kelvin
  {
    var n := 2_000_000 + kelvin;
    var q := n / (2 * kelvin);
    assert n == 2 * kelvin * q + n % (2 * kelvin);
    q
  }

  /** Only one integer lies that close to 1e6/kelvin, so Mired is the rounding. */
  lemma MiredUnique(kelvin: int, m: int)
    requires kelvin > 0
    requires -kelvin <= 2 * (1_000_000 - m * kelvin) < kelvin
    ensures m == Mired(kelvin)
  {
    var r := Mired(kelvin);
    var d := m - r;
    assert -kelvin < d * kelvin < kelvin by {
      assert d * kelvin == m * kelvin - r * kelvin;
    }
    if d >= 1 {
      AtLeastOnce(d, kelvin);
    } else if d <= -1 {
      AtLeastOnce(-d, kelvin);
    }
  }

  /** A positive multiple of a positive number is at least that number. */
  lemma {:induction false} AtLeastOnce(d: int, k: int)
    requires d >= 1 && k > 0
    ensures d * k >= k
  {
    if d > 1 {
      AtLeastOnce(d - 1, k);
      assert d * k == (d - 1) * k + k;
    }
  }

  /** buildMQTTPayloadForCommand. */
  function BuildPayload(cmd: string, p: map<string, Json>, payloadOn: string, payloadOff: string): Built {
    if cmd == "TurnOn" then
      var patch := map["state" := JString("ON"), "power" := JBool(true)];
      if payloadOn != "" then Built(Literal(payloadOn), patch)
      else Built(Encoded(map["state" := JString("ON")]), patch)
    else if cmd == "TurnOff" then
      var patch := map["state" := JString("OFF"), "power" := JBool(false)];
      if payloadOff != "" then Built(Literal(payloadOff), patch)
      else Built(Encoded(map["state" := JString("OFF")]), patch)
    else if cmd == "SetBrightness" then
      var level := IntFromAny(Lookup(p, "level"));
      Built(Encoded(map["state" := JString("ON"), "brightness" := JNum(level)]),
            map["state" := JString("ON"), "power" := JBool(true), "brightness" := JNum(level)])
    else if cmd == "SetTemperature" then
      var kelvin := IntFromAny(Lookup(p, "kelvin"));
      if kelvin <= 0 then Built(NoPayload, map[])
      else
        var mired := Mired(kelvin);
        Built(Encoded(map["state" := JString("ON"), "color_temp_kelvin" := JNum(kelvin), "color_temp" := JNum(mired)]),
              map["state" := JString("ON"), "power" := JBool(true), "kelvin" := JNum(kelvin),
                  "temperature" := JNum(kelvin), "color_temp" := JNum(mired)])
    else if cmd == "SetRGB" then
      var r := IntFromAny(Lookup(p, "r"));
      var g := IntFromAny(Lookup(p, "g"));
      var b := IntFromAny(Lookup(p, "b"));
      Built(Encoded(map["state" := JString("ON"), "color" := JObj(map["r" := JNum(r), "g" := JNum(g), "b" := JNum(b)])]),
            map["state" := JString("ON"), "power" := JBool(true), "r" := JNum(r), "g" := JNum(g), "b" := JNum(b)])
    else Built(NoPayload, map[])
  }

  /** The five commands the adapter understands. */
  predicate KnownCommand(cmd: string) {
    cmd == "TurnOn" || cmd == "TurnOff" || cmd == "SetBrightness" || cmd == "SetTemperature" || cmd == "SetRGB"
  }

  /**
   * A command yields no payload exactly when it is unknown or a temperature
   * without a positive kelvin, and then its patch is empty; every payload
   * comes with a patch whose `state` is the string ON, or OFF for TurnOff.
   */
  lemma BuildPayloadOutcome(cmd: string, p: map<string, Json>, payloadOn: string, payloadOff: string)
    ensures var b := BuildPayload(cmd, p, payloadOn, payloadOff);
      && (b.payload.NoPayload? <==>
            !KnownCommand(cmd) || (cmd == "SetTemperature" && IntFromAny(Lookup(p, "kelvin")) <= 0))
      && (b.payload.NoPayload? ==> b.patch == map[])
      && (!b.payload.NoPayload? ==>
            "state" in b.patch && b.patch["state"] == JString(if cmd == "TurnOff" then "OFF" else "ON"))
      && (b.payload.Literal? ==> b.payload.text != "")
  {
  }

  /**
   * On and off send the configured payload verbatim when there is one, and
   * the object `{"state":"ON"}` or `{"state":"OFF"}` otherwise; the patch
   * carries the matching power flag.
   */
  lemma OnOffPayloads(p: map<string, Json>, payloadOn: string, payloadOff: string)
    ensures BuildPayload("TurnOn", p, payloadOn, payloadOff).payload
      == if payloadOn != "" then Literal(payloadOn) else Encoded(map["state" := JString("ON")])
    ensures BuildPayload("TurnOff", p, payloadOn, payloadOff).payload
      == if payloadOff != "" then Literal(payloadOff) else Encoded(map["state" := JString("OFF")])
    ensures BuildPayload("TurnOn", p, payloadOn, payloadOff).patch["power"] == JBool(true)
    ensures BuildPayload("TurnOff", p, payloadOn, payloadOff).patch["power"] == JBool(false)
  {
  }

  /**
   * A temperature with a positive kelvin sends both the kelvin and its
   * rounded mired value; 3200 K is 313 mired.
   */
  lemma TemperaturePayload(p: map<string, Json>, payloadOn: string, payloadOff: string)
    requires IntFromAny(Lookup(p, "kelvin")) > 0
    ensures var k := IntFromAny(Lookup(p, "kelvin"));
      var w := BuildPayload("SetTemperature", p, payloadOn, payloadOff).payload;
      && w.Encoded? && "color_temp" in w.obj && "color_temp_kelvin" in w.obj
      && w.obj["color_temp_kelvin"] == JNum(k)
      && w.obj["color_temp"].JNum?
      && -k <= 2 * (1_000_000 - w.obj["color_temp"].n * k) < k
  {
  }

  lemma TemperatureExample()
    ensures BuildPayload("SetTemperature", map["kelvin" := JNum(3200)], "ON", "OFF").payload.obj["color_temp"] == JNum(313)
  {
    MiredUnique(3200, 313);
  }

  // ---------------------------------------------------------------------
  // The callbacks ensureWired installs

  /** What one entity is wired with. */
  datatype Wiring = Wiring(stateTopic: string, commandTopic: string, payloadOn: string, payloadOff: string)

  /** `fmt.Sprintf("%v", v)` for the string values the command handler formats. */
  function Formatted(v: Json): string {
    match v
    case JString(s) => s
    case JBool(b) => if b then "true" else "false"
    case JNum(n) => IntToDecimal(n)
    case JNull => "<nil>"
    case JObj(_) => ""
  }

  /** The patch with the reading written back: `power` gets the word and `state` the flag. */
  function WithReading(m: map<string, Json>, r: Power): map<string, Json> {
    m["power" := JString(r.word)]["state" := JBool(r.on)]
  }

  /**
   * The state callback: a message whose decoded object has fields is
   * republished with the reading written back; any other message publishes
   * nothing (it still marks the entity active).
   */
  function StateMessage(raw: string, parsed: map<string, Json>, payloadOn: string): Option<map<string, Json>> {
    if |parsed| > 0 then Some(WithReading(parsed, PayloadToState(raw, parsed, payloadOn))) else None
  }

  /** The republished state keeps every other field and carries a consistent reading. */
  lemma StateMessageKeeps(raw: string, parsed: map<string, Json>, payloadOn: string)
    ensures StateMessage(raw, parsed, payloadOn).Some? <==> parsed != map[]
    ensures StateMessage(raw, parsed, payloadOn).Some? ==>
      var m := StateMessage(raw, parsed, payloadOn).value;
      var r := PayloadToState(raw, parsed, payloadOn);
      && m.Keys == parsed.Keys + {"power", "state"}
      && m["power"] == JString(r.word) && m["state"] == JBool(r.on)
      && (m["state"] == JBool(true) <==> m["power"] == JString("on"))
      && forall k :: k in parsed && k != "power" && k != "state" ==> m[k] == parsed[k]
  {
    if parsed != map[] {
      var k :| k in parsed;
      assert |parsed| > 0;
    }
  }

  /** The example message `{"state":"ON","brightness":128}` with on-payload ON reads as on. */
  lemma StateMessageExample(raw: string)
    requires RawState(raw, "ON").None?
    ensures var parsed := map["state" := JString("ON"), "brightness" := JNum(128)];
      StateMessage(raw, parsed, "ON") == Some(map["state" := JBool(true), "brightness" := JNum(128), "power" := JString("on")])
  {
    var parsed := map["state" := JString("ON"), "brightness" := JNum(128)];
    KeyScanDecides(raw, parsed, "ON");
    assert PayloadToState(raw, parsed, "ON") == On;
    assert |parsed| > 0 by { assert "state" in parsed; }
    var m := WithReading(parsed, On);
    var want := map["state" := JBool(true), "brightness" := JNum(128), "power" := JString("on")];
    assert m.Keys == want.Keys;
    assert forall k :: k in m ==> m[k] == want[k];
    assert m == want;
    assert StateMessage(raw, parsed, "ON") == Some(m);
  }

  /** A publication the command handler makes, with the patch it then reports. */
  datatype Sent = Sent(topic: string, payload: Wire, patch: map<string, Json>)

  /** The command handler ensureWired installs for one entity. */
  function HandleCommand(w: Wiring, cmd: string, p: map<string, Json>): Option<Sent> {
    if w.commandTopic == "" then None
    else
      var b := BuildPayload(cmd, p, w.payloadOn, w.payloadOff);
      if b.payload.NoPayload? then None
      else
        var r := PayloadToState(Formatted(Lookup(b.patch, "state")), b.patch, w.payloadOn);
        Some(Sent(w.commandTopic, b.payload, WithReading(b.patch, r)))
  }

  /**
   * The handler publishes exactly when the entity has a command topic and
   * the command yields a payload; it publishes that payload to that topic.
   */
  lemma HandleCommandPublishes(w: Wiring, cmd: string, p: map<string, Json>)
    ensures HandleCommand(w, cmd, p).Some? <==>
      w.commandTopic != "" && !BuildPayload(cmd, p, w.payloadOn, w.payloadOff).payload.NoPayload?
    ensures HandleCommand(w, cmd, p).Some? ==>
      HandleCommand(w, cmd, p).value.topic == w.commandTopic
      && HandleCommand(w, cmd, p).value.payload == BuildPayload(cmd, p, w.payloadOn, w.payloadOff).payload
  {
  }

  /**
   * Every command that publishes, except TurnOff, reports on; TurnOff
   * reports off unless the on-payload is itself the text OFF.
   */
  lemma HandleCommandReading(w: Wiring, cmd: string, p: map<string, Json>)
    requires HandleCommand(w, cmd, p).Some?
    ensures cmd != "TurnOff" ==> HandleCommand(w, cmd, p).value.patch["power"] == JString("on")
    ensures cmd == "TurnOff" && w.payloadOn != "OFF" ==> HandleCommand(w, cmd, p).value.patch["power"] == JString("off")
  {
    var b := BuildPayload(cmd, p, w.payloadOn, w.payloadOff);
    BuildPayloadOutcome(cmd, p, w.payloadOn, w.payloadOff);
    if cmd == "TurnOff" {
      ReadsOff(b.patch, w.payloadOn);
    } else {
      ReadsOn(b.patch, w.payloadOn);
    }
  }

  /** The text ON reads as on, whatever the on-payload and the patch. */
  lemma ReadsOn(patch: map<string, Json>, payloadOn: string)
    ensures PayloadToState("ON", patch, payloadOn) == On
  {
    assert ToLower("ON") == "on";
    TrimSpaceKeeps("ON");
  }

  /** The text OFF reads as off, unless it is itself the on-payload. */
  lemma ReadsOff(patch: map<string, Json>, payloadOn: string)
    ensures PayloadToState("OFF", patch, payloadOn) == if payloadOn == "OFF" then On else Off
  {
    assert ToLower("OFF") == "off";
    TrimSpaceKeeps("OFF");
  }

  /** With payloads ON and OFF, TurnOff sends the text OFF to the command topic. */
  lemma TurnOffExample(p: map<string, Json>)
    ensures var w := Wiring("zigbee2mqtt/test_light", "zigbee2mqtt/test_light/set", "ON", "OFF");
      var s := HandleCommand(w, "TurnOff", p);
      s.Some? && s.value.topic == "zigbee2mqtt/test_light/set" && s.value.payload == Literal("OFF")
  {
  }

  // ---------------------------------------------------------------------
  // The adapter object

  /** A raw field read with `raw[k].(string)`: "" when absent or not a string. */
  function RawString(raw: map<string, Json>, k: string): string {
    if k in raw && raw[k].JString? then raw[k].s else ""
  }

  /** The wiring WireExistingEntity reads from an entity's raw fields. */
  function WiringOf(raw: map<string, Json>): Wiring {
    Wiring(RawString(raw, "state_topic"), RawString(raw, "command_topic"),
           RawString(raw, "payload_on"), RawString(raw, "payload_off"))
  }

  /** The wiring HandleDiscovery installs from a discovery payload. */
  function DiscoveryWiring(data: Payload): Wiring {
    Wiring(data.stateTopic, data.commandTopic,
           LogicDiscovery.PayloadToString(data.payloadOn), LogicDiscovery.PayloadToString(data.payloadOff))
  }

  /**
   * MQTTAdapter: the keys already wired and, standing in for the host
   * entities' registered callbacks, the wiring each key got.
   */
  class MqttAdapter {
    var wired: set<string>
    var handlers: map<string, Wiring>

    /** A key is wired exactly when it got a command handler. */
    ghost predicate Valid()
      reads this
    {
      handlers.Keys == wired
    }

    /** NewMQTTAdapter. */
    constructor ()
      ensures wired == {} && handlers == map[]
      ensures Valid()
    {
      wired := {};
      handlers := map[];
    }

    /**
     * ensureWired: the first call for a key marks it wired, installs the
     * command handler and, for a non-empty state topic, subscribes to it
     * (the returned topic); a later call for the same key does nothing.
     */
    method EnsureWired(entKey: string, w: Wiring) returns (subscribe: Option<string>)
      requires Valid()
      modifies this
      ensures wired == old(wired) + {entKey}
      ensures handlers == if entKey in old(wired) then old(handlers) else old(handlers)[entKey := w]
      ensures subscribe == if entKey !in old(wired) && w.stateTopic != "" then Some(w.stateTopic) else None
      ensures Valid()
    {
      if entKey in wired {
        return None;
      }
      wired := wired + {entKey};
      subscribe := if w.stateTopic != "" then Some(w.stateTopic) else None;
      handlers := handlers[entKey := w];
    }

    /** WireExistingEntity: wire an entity from its raw fields, unless it has neither topic. */
    method WireExistingEntity(entId: string, raw: map<string, Json>) returns (subscribe: Option<string>)
      requires Valid()
      modifies this
      ensures var w := WiringOf(raw);
        if w.stateTopic == "" && w.commandTopic == "" then
          wired == old(wired) && handlers == old(handlers) && subscribe == None
        else
          && wired == old(wired) + {entId}
          && handlers == (if entId in old(wired) then old(handlers) else old(handlers)[entId := w])
          && subscribe == (if entId !in old(wired) && w.stateTopic != "" then Some(w.stateTopic) else None)
      ensures Valid()
    {
      var w := WiringOf(raw);
      if w.stateTopic == "" && w.commandTopic == "" {
        return None;
      }
      subscribe := EnsureWired(entId, w);
    }

    /**
     * The wiring part of HandleDiscovery: a message the pkg/logic parser
     * accepts, whose device has an identifier, wires its unique ID.
     */
    method HandleDiscovery(topic: string, body: Decoded) returns (subscribe: Option<string>)
      requires Valid()
      modifies this
      ensures var r := LogicDiscovery.ParseDiscovery(topic, body);
        if r.Err? || r.value.data.device.identifiers == [] then
          wired == old(wired) && handlers == old(handlers) && subscribe == None
        else
          var key := r.value.data.uniqueId;
          var w := DiscoveryWiring(r.value.data);
          && wired == old(wired) + {key}
          && handlers == (if key in old(wired) then old(handlers) else old(handlers)[key := w])
          && subscribe == (if key !in old(wired) && w.stateTopic != "" then Some(w.stateTopic) else None)
      ensures Valid()
    {
      var r := LogicDiscovery.ParseDiscovery(topic, body);
      if r.Err? {
        return None;
      }
      if r.value.data.device.identifiers == [] {
        return None;
      }
      subscribe := EnsureWired(r.value.data.uniqueId, DiscoveryWiring(r.value.data));
    }
  }

  /** Wiring the same key twice subscribes once and keeps the first wiring. */
  method WireTwice(a: MqttAdapter, key: string, w1: Wiring, w2: Wiring) returns (s1: Option<string>, s2: Option<string>)
    requires a.Valid() && key !in a.wired
    modifies a
    ensures s1 == (if w1.stateTopic != "" then Some(w1.stateTopic) else None)
    ensures s2 == None
    ensures key in a.handlers && a.handlers[key] == w1
    ensures a.Valid()
  {
    s1 := a.EnsureWired(key, w1);
    s2 := a.EnsureWired(key, w2);
  }
}
