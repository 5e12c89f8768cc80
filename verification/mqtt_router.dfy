/**
 * Routing of one incoming MQTT message: ATEM switcher state, global configuration,
 * broadcast and per-device commands, and per-device configuration, tested in that
 * order. The router updates the configuration and tally state and reports the
 * command to run and the selected input to publish, if any.
 */
module MqttRouter {
  import opened CInts
  import opened Wrappers
  import opened ArduinoString
  import opened Config
  import opened Tally

  const TOPIC_ATEM_PREVIEW: string := "sanctuary/atem/preview"
  const TOPIC_ATEM_PROGRAM: string := "sanctuary/atem/program"
  const TOPIC_ATEM_INPUTS: string := "sanctuary/atem/inputs"
  const TOPIC_GLOBAL_CONFIG_ROOT: string := "sanctuary/tally/config"
  const TOPIC_ALL_CMD: string := "sanctuary/tally/all/cmd"

  /** Commands for higher-level code; `ResyncTime` exists but no message produces it. */
  datatype MqttCommandType = None | DeepSleep | Wakeup | Reboot | OtaUpdate | FactoryReset | ResyncTime

  // ---------- Keyword parsers ----------

  /**
   * The text a keyword test sees: the payload up to its first NUL, lower-cased. Lowering
   * stops at the NUL and `==` on a `String` is `strcmp`, so nothing after it counts.
   */
  function KeywordText(s: string): string {
    ToLower(CStr(s))
  }

  /** A `String` test against a keyword, applied to the lowered copy, compares the keyword text. */
  lemma LoweredEquals(s: string, literal: string)
    ensures StrEquals(ToLower(s), literal) <==> KeywordText(s) == literal
  {
    CStrOfToLower(s);
  }

  /** Wi-Fi sleep mode keyword, case-insensitive; anything unknown means modem sleep. */
  function ParseWifiSleep(s: string): (r: WifiSleepMode)
    ensures r == WifiSleepMode.None <==> KeywordText(s) == "none"
    ensures r == WifiSleepMode.Light <==> KeywordText(s) == "light"
    ensures r == WifiSleepMode.Modem <==> KeywordText(s) != "none" && KeywordText(s) != "light"
  {
    var v := ToLower(s);
    CStrOfToLower(s);
    if StrEquals(v, "none") then WifiSleepMode.None
    else if StrEquals(v, "light") then WifiSleepMode.Light
    else if StrEquals(v, "modem") then WifiSleepMode.Modem
    else WifiSleepMode.Modem
  }

  /** Log level keyword, case-insensitive; anything unknown means `Info`. */
  function ParseLogLevel(s: string): (r: LogLevel)
    ensures r == LogLevel.None <==> KeywordText(s) == "none"
    ensures r == LogLevel.Error <==> KeywordText(s) == "error"
    ensures r == LogLevel.Warn <==> KeywordText(s) == "warn"
    ensures r == LogLevel.Debug <==> KeywordText(s) == "debug"
    ensures r == LogLevel.Info <==> KeywordText(s) !in {"none", "error", "warn", "debug"}
  {
    var v := ToLower(s);
    CStrOfToLower(s);
    if StrEquals(v, "none") then LogLevel.None
    else if StrEquals(v, "error") then LogLevel.Error
    else if StrEquals(v, "warn") then LogLevel.Warn
    else if StrEquals(v, "info") then LogLevel.Info
    else if StrEquals(v, "debug") then LogLevel.Debug
    else LogLevel.Info
  }

  /** Command keyword, case-insensitive; anything unknown means no command. */
  function ParseCommand(payload: string): (r: MqttCommandType)
    ensures r != MqttCommandType.ResyncTime
    ensures r == MqttCommandType.DeepSleep <==> KeywordText(payload) == "deep_sleep"
    ensures r == MqttCommandType.Wakeup <==> KeywordText(payload) == "wakeup"
    ensures r == MqttCommandType.Reboot <==> KeywordText(payload) == "reboot"
    ensures r == MqttCommandType.OtaUpdate <==> KeywordText(payload) == "ota_update"
    ensures r == MqttCommandType.FactoryReset <==> KeywordText(payload) == "factory_reset"
    ensures r == MqttCommandType.None <==>
              KeywordText(payload) !in {"deep_sleep", "wakeup", "reboot", "ota_update", "factory_reset"}
  {
    var v := ToLower(payload);
    CStrOfToLower(payload);
    if StrEquals(v, "deep_sleep") then MqttCommandType.DeepSleep
    else if StrEquals(v, "wakeup") then MqttCommandType.Wakeup
    else if StrEquals(v, "reboot") then MqttCommandType.Reboot
    else if StrEquals(v, "ota_update") then MqttCommandType.OtaUpdate
    else if StrEquals(v, "factory_reset") then MqttCommandType.FactoryReset
    else MqttCommandType.None
  }

  /** The three parsers see only the lower-cased payload: case never matters. */
  lemma ParsersIgnoreCase(s: string)
    ensures ParseWifiSleep(ToLower(s)) == ParseWifiSleep(s)
    ensures ParseLogLevel(ToLower(s)) == ParseLogLevel(s)
    ensures ParseCommand(ToLower(s)) == ParseCommand(s)
  {
    CStrOfToLower(s);
    ToLowerIdempotent(CStr(s));
    assert KeywordText(ToLower(s)) == KeywordText(s);
  }

  /** The three parsers ignore everything from the first NUL on. */
  lemma ParsersStopAtNul(s: string)
    ensures ParseWifiSleep(CStr(s)) == ParseWifiSleep(s)
    ensures ParseLogLevel(CStr(s)) == ParseLogLevel(s)
    ensures ParseCommand(CStr(s)) == ParseCommand(s)
  {
    CStrIdempotent(s);
    assert KeywordText(CStr(s)) == KeywordText(s);
  }

  /** `reboot` followed by a NUL and anything else is still the reboot command: the comparison stops at the NUL. */
  lemma CommandBeforeNul(rest: string)
    ensures ParseCommand("reboot" + ['\0'] + rest) == MqttCommandType.Reboot
  {
    var r := "reboot" + ['\0'] + rest;
    CStrOfNoNul("reboot");
    CStrBeforeNul("reboot", rest);
    LowerCaseFixed("reboot");
    assert KeywordText(r) == "reboot";
  }

  /** `debug` followed by a NUL and anything else is still the debug level. */
  lemma LogLevelBeforeNul(rest: string)
    ensures ParseLogLevel("debug" + ['\0'] + rest) == LogLevel.Debug
  {
    var d := "debug" + ['\0'] + rest;
    CStrOfNoNul("debug");
    CStrBeforeNul("debug", rest);
    LowerCaseFixed("debug");
    assert KeywordText(d) == "debug";
  }

  /** The keyword each log level is published under. */
  function LogLevelKeyword(l: LogLevel): string {
    match l
    case None => "none"
    case Error => "error"
    case Warn => "warn"
    case Info => "info"
    case Debug => "debug"
  }

  /** The keyword each command is sent as; `None` and `ResyncTime` have none. */
  function CommandKeyword(c: MqttCommandType): Option<string> {
    match c
    case DeepSleep => Some("deep_sleep")
    case Wakeup => Some("wakeup")
    case Reboot => Some("reboot")
    case OtaUpdate => Some("ota_update")
    case FactoryReset => Some("factory_reset")
    case _ => Option.None
  }

  /** A keyword that is already lower case is its own lower-cased form. */
  lemma {:induction false} LowerCaseFixed(s: string)
    requires forall i :: 0 <= i < |s| ==> !('A' <= s[i] <= 'Z')
    ensures ToLower(s) == s
  {
    if s != [] {
      LowerCaseFixed(s[1..]);
    }
  }

  /** Every log level is recovered from its keyword. */
  lemma LogLevelRoundTrip(l: LogLevel)
    ensures ParseLogLevel(LogLevelKeyword(l)) == l
  {
    CStrOfNoNul(LogLevelKeyword(l));
    LowerCaseFixed(LogLevelKeyword(l));
  }

  /** Every command that has a keyword is recovered from it. */
  lemma CommandRoundTrip(c: MqttCommandType)
    requires CommandKeyword(c).Some?
    ensures ParseCommand(CommandKeyword(c).value) == c
  {
    var kw := CommandKeyword(c).value;
    KeywordIsItsText(kw);
    assert KeywordText(kw) == kw;
  }

  /** A lower-case keyword without a NUL is its own keyword text. */
  lemma KeywordIsItsText(kw: string)
    requires forall i :: 0 <= i < |kw| ==> kw[i] != '\0' && !('A' <= kw[i] <= 'Z')
    ensures KeywordText(kw) == kw
  {
    CStrOfNoNul(kw);
    LowerCaseFixed(kw);
  }

  // ---------- ATEM routing ----------

  /** One member of the ATEM inputs JSON object, as the JSON decoder yields it. */
  datatype RawInput = RawInput(key: string, shortName: string, longName: string, tallyEnabledText: string)

  /** The input id of a JSON member: its key through `atoi`, truncated to `uint8_t`. */
  function InputId(e: RawInput): Byte {
    ToU8(ToInt(e.key))
  }

  /** The map entry built from one JSON member; only the text "true" (any case) enables it. */
  function InputInfo(e: RawInput): (info: AtemInputInfo)
    ensures info.id == InputId(e)
    ensures info.tallyEnabled <==> KeywordText(e.tallyEnabledText) == "true"
  {
    LoweredEquals(e.tallyEnabledText, "true");
    AtemInputInfo(InputId(e), e.shortName, e.longName, StrEquals(ToLower(e.tallyEnabledText), "true"))
  }

  /** No later member of `entries` has the id of member `i`. */
  predicate LastWithId(entries: seq<RawInput>, i: int)
    requires 0 <= i < |entries|
  {
    forall j :: i < j < |entries| ==> InputId(entries[j]) != InputId(entries[i])
  }

  /** The inputs map rebuilt from the JSON members in order; a later member with the same id wins. */
  function LoadInputs(entries: seq<RawInput>): (m: map<Byte, AtemInputInfo>)
    ensures WellKeyed(m)
    ensures |entries| > 0 ==> InputId(entries[|entries| - 1]) in m
    ensures |entries| > 0 ==> m[InputId(entries[|entries| - 1])] == InputInfo(entries[|entries| - 1])
  {
    if entries == [] then map[]
    else
      var last := entries[|entries| - 1];
      var front := entries[..|entries| - 1];
      LoadInputs(front)[InputId(last) := InputInfo(last)]
  }

  /** One step of the rebuild: the last member is stored over the map of the members before it. */
  lemma LoadInputsStep(entries: seq<RawInput>)
    requires |entries| > 0
    ensures LoadInputs(entries) == LoadInputs(entries[..|entries| - 1])[InputId(entries[|entries| - 1]) := InputInfo(entries[|entries| - 1])]
  {
  }

  /** The rebuilt map holds exactly the ids of the JSON members: `clear()` leaves no stale input. */
  lemma {:induction false} LoadInputsKeys(entries: seq<RawInput>)
    ensures LoadInputs(entries).Keys == set e | e in entries :: InputId(e)
  {
    if entries != [] {
      var last := entries[|entries| - 1];
      var front := entries[..|entries| - 1];
      LoadInputsKeys(front);
      assert forall e :: e in entries <==> e in front || e == last;
    }
  }

  /** Every member's entry survives unless a later member has the same id: the members are stored in order. */
  lemma LoadInputsKeepsLastMembers(entries: seq<RawInput>)
    ensures forall i :: 0 <= i < |entries| && LastWithId(entries, i) ==>
              InputId(entries[i]) in LoadInputs(entries) &&
              LoadInputs(entries)[InputId(entries[i])] == InputInfo(entries[i])
  {
    forall i | 0 <= i < |entries| && LastWithId(entries, i)
      ensures InputId(entries[i]) in LoadInputs(entries) &&
              LoadInputs(entries)[InputId(entries[i])] == InputInfo(entries[i])
    {
      LoadInputsKeepsMember(entries, i);
    }
  }

  lemma {:induction false} LoadInputsKeepsMember(entries: seq<RawInput>, i: int)
    requires 0 <= i < |entries| && LastWithId(entries, i)
    ensures InputId(entries[i]) in LoadInputs(entries)
    ensures LoadInputs(entries)[InputId(entries[i])] == InputInfo(entries[i])
    decreases |entries|
  {
    var n := |entries| - 1;
    var id := InputId(entries[i]);
    if i == n {
      assert entries[i] == entries[|entries| - 1];
    } else {
      var front := entries[..n];
      assert front[i] == entries[i];
      forall j | i < j < |front| ensures InputId(front[j]) != InputId(front[i]) {
        assert front[j] == entries[j];
      }
      LoadInputsKeepsMember(front, i);
      var previous := LoadInputs(front);
      var later := InputId(entries[n]);
      assert later != id;
      LoadInputsStep(entries);
      assert id in previous && previous[id] == InputInfo(entries[i]);
    }
  }

  /**
   * `handleAtemMessage`: program and preview take the payload's integer truncated to a
   * byte; an inputs message replaces the map (when it decodes) and re-normalises the
   * selection. `decode` stands for the JSON library and yields the object's members,
   * or nothing when the payload does not parse.
   */
  function HandleAtemMessage(t: TallyState, topic: string, payload: string,
                             decode: string -> Option<seq<RawInput>>): (r: TallyState)
    ensures topic == TOPIC_ATEM_PROGRAM ==> r == t.(programInput := ToU8(ToInt(payload)))
    ensures topic == TOPIC_ATEM_PREVIEW ==> r == t.(previewInput := ToU8(ToInt(payload)))
    ensures topic == TOPIC_ATEM_INPUTS && decode(payload).None? ==> r == t
    ensures topic == TOPIC_ATEM_INPUTS && decode(payload).Some? ==>
              && r.programInput == t.programInput && r.previewInput == t.previewInput
              && r.inputs == LoadInputs(decode(payload).value)
              && WellKeyed(r.inputs)
              && (r.selectedInput == 0 || IsEnabled(r.inputs, r.selectedInput))
              && r == NormalizeSelected(t.(inputs := r.inputs))
              && (t.selectedInput != 0 && IsEnabled(r.inputs, t.selectedInput) ==> r.selectedInput == t.selectedInput)
    ensures topic !in {TOPIC_ATEM_PROGRAM, TOPIC_ATEM_PREVIEW, TOPIC_ATEM_INPUTS} ==> r == t
  {
    if topic == TOPIC_ATEM_PROGRAM then t.(programInput := ToU8(ToInt(payload)))
    else if topic == TOPIC_ATEM_PREVIEW then t.(previewInput := ToU8(ToInt(payload)))
    else if topic == TOPIC_ATEM_INPUTS then
      match decode(payload)
      case None => t
      case Some(entries) => NormalizeSelected(t.(inputs := LoadInputs(entries)))
    else t
  }

  /** A program message carrying the decimal text of an input id puts exactly that input on air. */
  lemma ProgramTopicTakesDecimalId(t: TallyState, n: Byte, decode: string -> Option<seq<RawInput>>)
    ensures HandleAtemMessage(t, TOPIC_ATEM_PROGRAM, Decimal(n), decode).programInput == n
    ensures HandleAtemMessage(t, TOPIC_ATEM_PREVIEW, Decimal(n), decode).previewInput == n
  {
    ToIntOfDecimal(n);
  }

  /**
   * After a program message with an input's decimal id, exactly that input is on program
   * (input 0 never is) and preview is unchanged; likewise for a preview message.
   */
  lemma ProgramMessageSetsOnAir(t: TallyState, n: Byte, k: Byte, decode: string -> Option<seq<RawInput>>)
    ensures var r := HandleAtemMessage(t, TOPIC_ATEM_PROGRAM, Decimal(n), decode);
            (IsProgram(r, k) <==> k != 0 && k == n) && IsPreview(r, k) == IsPreview(t, k)
    ensures var r := HandleAtemMessage(t, TOPIC_ATEM_PREVIEW, Decimal(n), decode);
            (IsPreview(r, k) <==> k != 0 && k == n) && IsProgram(r, k) == IsProgram(t, k)
  {
    ProgramTopicTakesDecimalId(t, n, decode);
  }

  // ---------- Global config routing ----------

  /** The keys `handleGlobalConfig` acts on (the two firmware keys are accepted and ignored). */
  const GLOBAL_KEYS: set<string> := {
    "mqtt_server", "mqtt_port", "mqtt_username", "mqtt_password", "ntp_server", "timezone",
    "brightness", "powersaver_brightness", "powersaver_battery_pct",
    "tally_color_program", "tally_color_preview",
    "wifi_tx_power", "wifi_sleep", "status_interval", "log_level"}

  /** A percentage setting accepts only payloads whose integer lies in 0..100. */
  function PercentOr(current: Byte, payload: string): (r: Byte)
    ensures 0 <= ToInt(payload) <= 100 ==> r == ToInt(payload)
    ensures !(0 <= ToInt(payload) <= 100) ==> r == current
  {
    var v := ToInt(payload);
    if 0 <= v <= 100 then v else current
  }

  /** The status interval: the integer truncated to 16 bits, where 0 means the default. */
  function StatusInterval(payload: string): (r: U16)
    ensures r != 0
    ensures ToU16(ToInt(payload)) != 0 ==> r == ToU16(ToInt(payload))
    ensures ToU16(ToInt(payload)) == 0 ==> r == DEFAULT_STATUS_INTERVAL_SEC
  {
    var v := ToU16(ToInt(payload));
    if v == 0 then DEFAULT_STATUS_INTERVAL_SEC else v
  }

  /** `handleGlobalConfig`: update the one setting named by `key`. */
  function HandleGlobalConfig(g: GlobalConfig, key: string, payload: string): (r: GlobalConfig)
    ensures key !in GLOBAL_KEYS ==> r == g
    ensures key == "mqtt_server" ==> r == g.(mqttServer := payload)
    ensures key == "mqtt_port" ==> r == g.(mqttPort := ToU16(ToInt(payload)))
    ensures key == "mqtt_username" ==> r == g.(mqttUsername := payload)
    ensures key == "mqtt_password" ==> r == g.(mqttPassword := payload)
    ensures key == "ntp_server" ==> r == g.(ntpServer := payload)
    ensures key == "timezone" ==> r == g.(timezone := payload)
    ensures key == "brightness" ==> r == g.(brightness := PercentOr(g.brightness, payload))
    ensures key == "powersaver_brightness" ==>
              r == g.(powersaverBrightness := PercentOr(g.powersaverBrightness, payload))
    ensures key == "powersaver_battery_pct" ==>
              r == g.(powersaverBatteryPct := PercentOr(g.powersaverBatteryPct, payload))
    ensures key == "tally_color_program" ==> r == g.(tallyColorProgram := payload)
    ensures key == "tally_color_preview" ==> r == g.(tallyColorPreview := payload)
    ensures key == "wifi_tx_power" ==> r == g.(wifiTxPowerDbm := ToI8(ToInt(payload)))
    ensures key == "wifi_sleep" ==> r == g.(wifiSleep := ParseWifiSleep(payload))
    ensures key == "status_interval" ==> r == g.(statusIntervalSec := StatusInterval(payload))
    ensures key == "log_level" ==> r == g.(logLevel := ParseLogLevel(payload))
  {
    if key == "mqtt_server" then g.(mqttServer := payload)
    else if key == "mqtt_port" then g.(mqttPort := ToU16(ToInt(payload)))
    else if key == "mqtt_username" then g.(mqttUsername := payload)
    else if key == "mqtt_password" then g.(mqttPassword := payload)
    else if key == "ntp_server" then g.(ntpServer := payload)
    else if key == "timezone" then g.(timezone := payload)
    else if key == "brightness" then g.(brightness := PercentOr(g.brightness, payload))
    else if key == "powersaver_brightness" then
      g.(powersaverBrightness := PercentOr(g.powersaverBrightness, payload))
    else if key == "powersaver_battery_pct" then
      g.(powersaverBatteryPct := PercentOr(g.powersaverBatteryPct, payload))
    else if key == "tally_color_program" then g.(tallyColorProgram := payload)
    else if key == "tally_color_preview" then g.(tallyColorPreview := payload)
    else if key == "wifi_tx_power" then g.(wifiTxPowerDbm := ToI8(ToInt(payload)))
    else if key == "wifi_sleep" then g.(wifiSleep := ParseWifiSleep(payload))
    else if key == "status_interval" then g.(statusIntervalSec := StatusInterval(payload))
    else if key == "log_level" then g.(logLevel := ParseLogLevel(payload))
    else g  // "firmware_url", "firmware_auto" and unknown keys
  }

  /** Every global update keeps the ranges the rest of the firmware relies on. */
  lemma HandleGlobalConfigKeepsRanges(g: GlobalConfig, key: string, payload: string)
    requires ValidGlobal(g)
    ensures ValidGlobal(HandleGlobalConfig(g, key, payload))
  {
    var r := HandleGlobalConfig(g, key, payload);
    assert r.brightness == g.brightness || r.brightness == PercentOr(g.brightness, payload);
    assert r.powersaverBrightness == g.powersaverBrightness
        || r.powersaverBrightness == PercentOr(g.powersaverBrightness, payload);
    assert r.powersaverBatteryPct == g.powersaverBatteryPct
        || r.powersaverBatteryPct == PercentOr(g.powersaverBatteryPct, payload);
    assert r.statusIntervalSec == g.statusIntervalSec || r.statusIntervalSec == StatusInterval(payload);
  }

  // ---------- Per-device config routing ----------

  /**
   * The battery-capacity update as the source writes it: 0 < v < 100000 is accepted
   * and then truncated to 16 bits, so values from 65536 up are stored wrapped.
   */
  function SetBatteryCapacityAsWritten(d: DeviceConfig, v: int): (r: DeviceConfig)
    ensures 0 < v < 100000 ==> r == d.(batteryCapacityMah := ToU16(v))
    ensures !(0 < v < 100000) ==> r == d
  {
    if 0 < v && v < 100000 then d.(batteryCapacityMah := ToU16(v)) else d
  }

  /** The payload "65536" passes the guard and stores a capacity of 0. */
  lemma BatteryCapacityWrapsToZero(d: DeviceConfig)
    ensures SetBatteryCapacityAsWritten(d, ToInt("65536")).batteryCapacityMah == 0
    ensures !ValidDevice(SetBatteryCapacityAsWritten(d, ToInt("65536")))
  {
    assert ToInt("65536") == 0x1_0000 by {
      assert Digits(6) == "6";
      assert Digits(65) == "65";
      assert Digits(655) == "655";
      assert Digits(6553) == "6553";
      assert Digits(65536) == "65536";
      ToIntOfDecimal(65536);
    }
  }

  /**
   * The battery-capacity update with the guard the truncation needs: only values that
   * fit in 16 bits are accepted, so the stored capacity is the requested one and positive.
   */
  function SetBatteryCapacity(d: DeviceConfig, v: int): (r: DeviceConfig)
    ensures 0 < v < 0x1_0000 ==> r == d.(batteryCapacityMah := v)
    ensures !(0 < v < 0x1_0000) ==> r == d
    ensures ValidDevice(d) ==> ValidDevice(r)
  {
    if 0 < v && v < 0x1_0000 then d.(batteryCapacityMah := v) else d
  }

  /** The corrected update agrees with the source wherever the source does not wrap. */
  lemma BatteryCapacityAgreesBelowWrap(d: DeviceConfig, v: int)
    requires v < 0x1_0000
    ensures SetBatteryCapacity(d, v) == SetBatteryCapacityAsWritten(d, v)
  {
  }

  /** The one update that leaves a positive capacity at 0: the payload's integer is 65536. */
  predicate ZeroesCapacity(key: string, payload: string) {
    key == "battery_capacity" && ToInt(payload) == 0x1_0000
  }

  /** `handleDeviceConfig`: friendly name, followed input (0..255) and battery capacity. */
  function HandleDeviceConfig(d: DeviceConfig, key: string, payload: string): (r: DeviceConfig)
    ensures key == "name" ==> r == d.(friendlyName := payload)
    ensures key == "input" && 0 <= ToInt(payload) <= 255 ==> r == d.(atemInput := ToInt(payload))
    ensures key == "input" && !(0 <= ToInt(payload) <= 255) ==> r == d
    ensures key == "battery_capacity" ==> r == SetBatteryCapacityAsWritten(d, ToInt(payload))
    ensures key !in {"name", "input", "battery_capacity"} ==> r == d
    ensures r.deviceId == d.deviceId && r.deviceName == d.deviceName
    ensures ValidDevice(d) ==> (ValidDevice(r) <==> !ZeroesCapacity(key, payload))
  {
    if key == "name" then d.(friendlyName := payload)
    else if key == "input" then
      var v := ToInt(payload);
      if 0 <= v <= 255 then d.(atemInput := v) else d
    else if key == "battery_capacity" then
      var v := ToInt(payload);
      assert 0 < v < 100000 ==> (ToU16(v) == 0 <==> v == 0x1_0000);
      SetBatteryCapacityAsWritten(d, v)
    else d
  }

  /**
   * `handleDeviceConfig` with the corrected capacity guard: a valid device stays valid,
   * and the result differs from the source's only on capacities of 65536 and above.
   */
  function HandleDeviceConfigCorrected(d: DeviceConfig, key: string, payload: string): (r: DeviceConfig)
    ensures key == "battery_capacity" ==> r == SetBatteryCapacity(d, ToInt(payload))
    ensures key != "battery_capacity" || ToInt(payload) < 0x1_0000 ==> r == HandleDeviceConfig(d, key, payload)
    ensures ValidDevice(d) ==> ValidDevice(r)
  {
    if key == "battery_capacity" then
      assert ToInt(payload) < 0x1_0000 ==> SetBatteryCapacity(d, ToInt(payload)) == HandleDeviceConfig(d, key, payload) by {
        if ToInt(payload) < 0x1_0000 {
          BatteryCapacityAgreesBelowWrap(d, ToInt(payload));
        }
      }
      SetBatteryCapacity(d, ToInt(payload))
    else HandleDeviceConfig(d, key, payload)
  }

  // ---------- Main router ----------

  function DeviceRoot(deviceId: string): string {
    "sanctuary/tally/" + deviceId
  }

  function DeviceCmdTopic(deviceId: string): string {
    DeviceRoot(deviceId) + "/cmd"
  }

  function DeviceConfigRoot(deviceId: string): string {
    DeviceRoot(deviceId) + "/config/"
  }

  function GlobalConfigRoot(): string {
    TOPIC_GLOBAL_CONFIG_ROOT + "/"
  }

  predicate IsAtemTopic(topic: string) {
    topic == TOPIC_ATEM_PREVIEW || topic == TOPIC_ATEM_PROGRAM || topic == TOPIC_ATEM_INPUTS
  }

  /** What one message did: the new state, the command to run, and the input to publish. */
  datatype RouteResult = RouteResult(
    cfg: ConfigState,
    tally: TallyState,
    command: MqttCommandType,
    published: Option<Byte>)

  /** `handleMqttMessage`. */
  function HandleMqttMessage(cfg: ConfigState, tally: TallyState, topic: string, payload: string,
                             decode: string -> Option<seq<RawInput>>): (r: RouteResult)
    // Only the two command topics can yield a command, and never ResyncTime.
    ensures r.command != MqttCommandType.None ==>
              topic == TOPIC_ALL_CMD || topic == DeviceCmdTopic(cfg.device.deviceId)
    ensures r.command != MqttCommandType.ResyncTime
    // 1) ATEM topics touch only the tally state.
    ensures IsAtemTopic(topic) ==>
              r == RouteResult(cfg, HandleAtemMessage(tally, topic, payload, decode), MqttCommandType.None, Option.None)
    // 2) Then the global config prefix touches only the global config.
    ensures !IsAtemTopic(topic) && StartsWith(topic, GlobalConfigRoot()) ==>
              r == RouteResult(
                     cfg.(global := HandleGlobalConfig(cfg.global, topic[|GlobalConfigRoot()|..], payload)),
                     tally, MqttCommandType.None, Option.None)
    // 3) Then the command topics yield a command and change nothing.
    ensures !IsAtemTopic(topic) && !StartsWith(topic, GlobalConfigRoot()) &&
            (topic == TOPIC_ALL_CMD || topic == DeviceCmdTopic(cfg.device.deviceId)) ==>
              r == RouteResult(cfg, tally, ParseCommand(payload), Option.None)
    // 4) Then the device config prefix touches the device config, and the tally selection for "input".
    ensures !IsAtemTopic(topic) && !StartsWith(topic, GlobalConfigRoot()) &&
            topic != TOPIC_ALL_CMD && topic != DeviceCmdTopic(cfg.device.deviceId) &&
            StartsWith(topic, DeviceConfigRoot(cfg.device.deviceId)) ==>
              var key := topic[|DeviceConfigRoot(cfg.device.deviceId)|..];
              && r.cfg == cfg.(device := HandleDeviceConfig(cfg.device, key, payload))
              && r.command == MqttCommandType.None
              && (key != "input" ==> r.tally == tally && r.published == Option.None)
              && (key == "input" ==>
                    && r.tally == NormalizeSelected(tally.(selectedInput := r.cfg.device.atemInput))
                    && (r.tally.selectedInput == 0 || IsEnabled(r.tally.inputs, r.tally.selectedInput))
                    && r.published == Some(r.cfg.device.atemInput))
    // 5) Any other topic changes nothing.
    ensures !IsAtemTopic(topic) && !StartsWith(topic, GlobalConfigRoot()) &&
            topic != TOPIC_ALL_CMD && topic != DeviceCmdTopic(cfg.device.deviceId) &&
            !StartsWith(topic, DeviceConfigRoot(cfg.device.deviceId)) ==>
              r == RouteResult(cfg, tally, MqttCommandType.None, Option.None)
    // The global ranges hold after every message; the device's only fail on a wrapped capacity.
    ensures ValidGlobal(cfg.global) ==> ValidGlobal(r.cfg.global)
    ensures ValidDevice(cfg.device) && !ValidDevice(r.cfg.device) ==>
              && StartsWith(topic, DeviceConfigRoot(cfg.device.deviceId))
              && ZeroesCapacity(topic[|DeviceConfigRoot(cfg.device.deviceId)|..], payload)
  {
    if IsAtemTopic(topic) then
      RouteResult(cfg, HandleAtemMessage(tally, topic, payload, decode), MqttCommandType.None, Option.None)
    else if StartsWith(topic, GlobalConfigRoot()) then
      var key := topic[|GlobalConfigRoot()|..];
      assert ValidGlobal(cfg.global) ==> ValidGlobal(HandleGlobalConfig(cfg.global, key, payload)) by {
        if ValidGlobal(cfg.global) {
          HandleGlobalConfigKeepsRanges(cfg.global, key, payload);
        }
      }
      RouteResult(cfg.(global := HandleGlobalConfig(cfg.global, key, payload)), tally, MqttCommandType.None, Option.None)
    else if topic == TOPIC_ALL_CMD then
      RouteResult(cfg, tally, ParseCommand(payload), Option.None)
    else if topic == DeviceCmdTopic(cfg.device.deviceId) then
      RouteResult(cfg, tally, ParseCommand(payload), Option.None)
    else if StartsWith(topic, DeviceConfigRoot(cfg.device.deviceId)) then
      var key := topic[|DeviceConfigRoot(cfg.device.deviceId)|..];
      var cfg' := cfg.(device := HandleDeviceConfig(cfg.device, key, payload));
      if key == "input" then
        var tally' := NormalizeSelected(tally.(selectedInput := cfg'.device.atemInput));
        RouteResult(cfg', tally', MqttCommandType.None, Some(cfg'.device.atemInput))
      else
        RouteResult(cfg', tally, MqttCommandType.None, Option.None)
    else
      RouteResult(cfg, tally, MqttCommandType.None, Option.None)
  }

  /** Through the router: the device's capacity topic with payload "65536" stores a capacity of 0. */
  lemma RouterCapacityWrapsToZero(cfg: ConfigState, tally: TallyState, decode: string -> Option<seq<RawInput>>)
    requires !StartsWith(DeviceConfigRoot(cfg.device.deviceId) + "battery_capacity", GlobalConfigRoot())
    ensures var topic := DeviceConfigRoot(cfg.device.deviceId) + "battery_capacity";
            HandleMqttMessage(cfg, tally, topic, "65536", decode).cfg.device.batteryCapacityMah == 0
  {
    var root := DeviceConfigRoot(cfg.device.deviceId);
    var topic := root + "battery_capacity";
    assert topic[..|root|] == root;
    assert topic[|root|..] == "battery_capacity";
    assert |topic| != |DeviceCmdTopic(cfg.device.deviceId)|;
    assert topic[10] == 't' && TOPIC_ATEM_PROGRAM[10] == 'a';
    assert !IsAtemTopic(topic);
    assert |topic| > |TOPIC_ALL_CMD|;
    BatteryCapacityWrapsToZero(cfg.device);
  }
}
