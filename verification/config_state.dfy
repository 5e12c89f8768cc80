/**
 * The firmware's configuration: settings shared by all tally lights (`GlobalConfig`),
 * settings of this one device (`DeviceConfig`), and the merged read-only view
 * (`EffectiveConfig`) the rest of the firmware consumes.
 */
module Config {
  import opened CInts

  /** How often status is published by default, in seconds. */
  const DEFAULT_STATUS_INTERVAL_SEC: U16 := 30

  datatype WifiSleepMode = None | Modem | Light

  datatype LogLevel = None | Error | Warn | Info | Debug

  datatype GlobalConfig = GlobalConfig(
    wifiSsid: string,
    wifiPassword: string,
    mqttServer: string,
    mqttPort: U16,
    mqttUsername: string,
    mqttPassword: string,
    ntpServer: string,
    timezone: string,
    brightness: Byte,
    powersaverBrightness: Byte,
    powersaverBatteryPct: Byte,
    tallyColorProgram: string,
    tallyColorPreview: string,
    wifiTxPowerDbm: I8,
    wifiSleep: WifiSleepMode,
    statusIntervalSec: U16,
    logLevel: LogLevel)

  datatype DeviceConfig = DeviceConfig(
    deviceId: string,
    deviceName: string,
    friendlyName: string,
    atemInput: Byte,
    mqttIsConnected: bool,
    batteryCapacityMah: U16)

  datatype EffectiveConfig = EffectiveConfig(
    deviceId: string,
    deviceName: string,
    friendlyName: string,
    wifiSsid: string,
    wifiPassword: string,
    mqttServer: string,
    mqttPort: U16,
    mqttUsername: string,
    mqttPassword: string,
    ntpServer: string,
    timezone: string,
    brightness: Byte,
    powersaverBrightness: Byte,
    powersaverBatteryPct: Byte,
    tallyColorProgram: string,
    tallyColorPreview: string,
    wifiTxPowerDbm: I8,
    wifiSleep: WifiSleepMode,
    statusIntervalSec: U16,
    atemInput: Byte,
    mqttIsConnected: bool,
    batteryCapacityMah: U16,
    logLevel: LogLevel)

  datatype ConfigState = ConfigState(global: GlobalConfig, device: DeviceConfig)

  /**
   * The ranges the MQTT router keeps the global settings in: percentages stay within
   * 0..100 and the status interval is never 0.
   */
  predicate ValidGlobal(g: GlobalConfig) {
    && g.brightness <= 100
    && g.powersaverBrightness <= 100
    && g.powersaverBatteryPct <= 100
    && g.statusIntervalSec != 0
  }

  /** A device's stored battery capacity is non-zero. */
  predicate ValidDevice(d: DeviceConfig) {
    d.batteryCapacityMah > 0
  }

  /** The member initialisers of `GlobalConfig`. */
  function DefaultGlobal(): (g: GlobalConfig)
    ensures ValidGlobal(g)
    ensures g.mqttPort == 1883 && g.statusIntervalSec == DEFAULT_STATUS_INTERVAL_SEC
    ensures g.brightness == 50 && g.powersaverBrightness == 20 && g.powersaverBatteryPct == 25
    ensures g.logLevel == LogLevel.Info && g.wifiSleep == WifiSleepMode.Modem
  {
    GlobalConfig(
      wifiSsid := "", wifiPassword := "", mqttServer := "", mqttPort := 1883,
      mqttUsername := "", mqttPassword := "", ntpServer := "", timezone := "",
      brightness := 50, powersaverBrightness := 20, powersaverBatteryPct := 25,
      tallyColorProgram := "#FF0000", tallyColorPreview := "#00FF00",
      wifiTxPowerDbm := 8, wifiSleep := WifiSleepMode.Modem,
      statusIntervalSec := DEFAULT_STATUS_INTERVAL_SEC, logLevel := LogLevel.Info)
  }

  /**
   * The member initialisers of `DeviceConfig`; identity is fixed per build and so is
   * a parameter. The connection flag has no initialiser and starts false in the
   * zero-initialised global instance.
   */
  function DefaultDevice(deviceId: string, deviceName: string): (d: DeviceConfig)
    ensures ValidDevice(d)
    ensures d.deviceId == deviceId && d.deviceName == deviceName && d.friendlyName == ""
    ensures d.atemInput == 0 && d.batteryCapacityMah == 2200
  {
    DeviceConfig(deviceId, deviceName, "", 0, false, 2200)
  }

  /**
   * `ConfigState::effective()`: identity and per-device values come from `device`,
   * everything else from `global`; an empty friendly name falls back to the device id.
   * A function of the state, so the state itself is unchanged by construction.
   */
  function Effective(c: ConfigState): (e: EffectiveConfig)
    ensures e.friendlyName == (if |c.device.friendlyName| > 0 then c.device.friendlyName else c.device.deviceId)
    ensures e.deviceId == c.device.deviceId && e.deviceName == c.device.deviceName
    ensures e.atemInput == c.device.atemInput && e.mqttIsConnected == c.device.mqttIsConnected
    ensures e.batteryCapacityMah == c.device.batteryCapacityMah
    ensures e.wifiSsid == c.global.wifiSsid && e.wifiPassword == c.global.wifiPassword
    ensures e.mqttServer == c.global.mqttServer && e.mqttPort == c.global.mqttPort
    ensures e.mqttUsername == c.global.mqttUsername && e.mqttPassword == c.global.mqttPassword
    ensures e.ntpServer == c.global.ntpServer && e.timezone == c.global.timezone
    ensures e.brightness == c.global.brightness
    ensures e.powersaverBrightness == c.global.powersaverBrightness
    ensures e.powersaverBatteryPct == c.global.powersaverBatteryPct
    ensures e.tallyColorProgram == c.global.tallyColorProgram
    ensures e.tallyColorPreview == c.global.tallyColorPreview
    ensures e.wifiTxPowerDbm == c.global.wifiTxPowerDbm && e.wifiSleep == c.global.wifiSleep
    ensures e.statusIntervalSec == c.global.statusIntervalSec && e.logLevel == c.global.logLevel
  {
    var g := c.global;
    var d := c.device;
    EffectiveConfig(
      deviceId := d.deviceId,
      deviceName := d.deviceName,
      friendlyName := if |d.friendlyName| > 0 then d.friendlyName else d.deviceId,
      wifiSsid := g.wifiSsid, wifiPassword := g.wifiPassword, mqttServer := g.mqttServer,
      mqttPort := g.mqttPort, mqttUsername := g.mqttUsername, mqttPassword := g.mqttPassword,
      ntpServer := g.ntpServer, timezone := g.timezone,
      brightness := g.brightness, powersaverBrightness := g.powersaverBrightness,
      powersaverBatteryPct := g.powersaverBatteryPct,
      tallyColorProgram := g.tallyColorProgram, tallyColorPreview := g.tallyColorPreview,
      wifiTxPowerDbm := g.wifiTxPowerDbm, wifiSleep := g.wifiSleep,
      statusIntervalSec := g.statusIntervalSec,
      atemInput := d.atemInput, mqttIsConnected := d.mqttIsConnected,
      batteryCapacityMah := d.batteryCapacityMah,
      logLevel := g.logLevel)
  }

  /**
   * The displayed name is never empty once the device has an id, and a device that has
   * been given a friendly name always shows it.
   */
  lemma EffectiveNameNeverEmpty(c: ConfigState)
    ensures |c.device.deviceId| > 0 ==> |Effective(c).friendlyName| > 0
    ensures |c.device.friendlyName| > 0 ==> Effective(c).friendlyName == c.device.friendlyName
  {
  }

  /** The merged view carries the router's range guarantees over unchanged. */
  lemma EffectiveKeepsRanges(c: ConfigState)
    requires ValidGlobal(c.global) && ValidDevice(c.device)
    ensures Effective(c).brightness <= 100 && Effective(c).powersaverBrightness <= 100
    ensures Effective(c).powersaverBatteryPct <= 100 && Effective(c).statusIntervalSec > 0
    ensures Effective(c).batteryCapacityMah > 0
  {
  }
}
