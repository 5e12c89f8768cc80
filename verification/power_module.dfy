/**
 * The battery and power-source logic of the power module: the state of charge estimated
 * from the battery voltage (a 21-point discharge curve) and from the coulomb counter, the
 * charge-current register codes, and the per-tick decision of the power mode, the
 * brightness ceiling and the charge register write.
 *
 * Voltages, currents and percentages are `real`: the firmware's `float` rounding is not
 * modelled. The PMIC readings, the running average of the battery voltage and the
 * charge-to-off countdown are inputs.
 */
module Power {
  import opened CInts
  import opened Wrappers
  import opened ArduinoString
  import Screen

  // ---------- Voltage curve ----------

  /** The table rows: voltages strictly decreasing from a full to an empty LiPo cell... */
  const VOLTS: seq<real> :=
    [4.20, 4.12, 4.04, 3.98, 3.92, 3.86, 3.80, 3.75, 3.71, 3.68, 3.66,
     3.64, 3.62, 3.61, 3.60, 3.56, 3.54, 3.50, 3.47, 3.40, 3.00]

  /** ...and the state of charge at each of them, 100 down to 0 in steps of 5. */
  const PERCENTS: seq<real> :=
    [100.0, 95.0, 90.0, 85.0, 80.0, 75.0, 70.0, 65.0, 60.0, 55.0, 50.0,
     45.0, 40.0, 35.0, 30.0, 25.0, 20.0, 15.0, 10.0, 5.0, 0.0]

  /** The number of rows; segment `i` runs from row `i + 1` up to row `i`. */
  const ROWS: nat := 21

  /** Both columns strictly decrease from one row to the next. */
  lemma RowStep(i: nat)
    requires i < ROWS - 1
    ensures |VOLTS| == ROWS && |PERCENTS| == ROWS
    ensures VOLTS[i + 1] < VOLTS[i] && PERCENTS[i + 1] < PERCENTS[i]
  {
    assert i == 0 || i == 1 || i == 2 || i == 3 || i == 4 || i == 5 || i == 6 || i == 7 ||
           i == 8 || i == 9 || i == 10 || i == 11 || i == 12 || i == 13 || i == 14 ||
           i == 15 || i == 16 || i == 17 || i == 18 || i == 19;
  }

  /** Further rows never have a higher voltage or percentage. */
  lemma {:induction false} RowOrder(i: nat, j: nat)
    requires i <= j < ROWS
    ensures |VOLTS| == ROWS && |PERCENTS| == ROWS
    ensures VOLTS[j] <= VOLTS[i] && PERCENTS[j] <= PERCENTS[i]
    decreases j - i
  {
    RowStep(0);
    if i < j {
      RowStep(i);
      RowOrder(i + 1, j);
    }
  }

  /** The line through rows `i` and `i + 1`, evaluated at `v`. */
  function Interp(i: nat, v: real): real
    requires i < ROWS - 1
  {
    RowStep(i);
    PERCENTS[i] + (v - VOLTS[i]) * (PERCENTS[i + 1] - PERCENTS[i]) / (VOLTS[i + 1] - VOLTS[i])
  }

  /** `v` lies in segment `i`: above row `i + 1`, at or below row `i`. */
  predicate InSegment(i: nat, v: real)
    requires i < ROWS - 1
  {
    RowStep(i);
    VOLTS[i + 1] < v <= VOLTS[i]
  }

  /** The loop of `getBatPercentageVoltage` from segment `k` on, with its fallback of 0. */
  function SearchFrom(v: real, k: nat): real
    requires k < ROWS
    decreases ROWS - k
  {
    if k == ROWS - 1 then 0.0
    else if InSegment(k, v) then Interp(k, v)
    else SearchFrom(v, k + 1)
  }

  /**
   * `getBatPercentageVoltage`: 100 at or above the top row, 0 at or below the bottom row,
   * otherwise the interpolation in the segment that holds the voltage.
   */
  function VoltagePercent(v: real): (r: real)
    ensures v >= 4.20 ==> r == 100.0
    ensures v <= 3.00 ==> r == 0.0
  {
    if v >= VOLTS[0] then 100.0
    else if v <= VOLTS[ROWS - 1] then 0.0
    else SearchFrom(v, 0)
  }

  /** The segment holding a voltage strictly inside the table, searching from `k`. */
  function SegmentFrom(v: real, k: nat): (s: nat)
    requires k < ROWS - 1
    requires VOLTS[ROWS - 1] < v <= VOLTS[k]
    ensures k <= s < ROWS - 1 && InSegment(s, v)
    decreases ROWS - k
  {
    RowStep(k);
    if v > VOLTS[k + 1] then k else SegmentFrom(v, k + 1)
  }

  /** The segment search returns the interpolation of the one segment that holds `v`. */
  lemma {:induction false} SearchFindsSegment(v: real, k: nat, s: nat)
    requires k <= s < ROWS - 1
    requires InSegment(s, v)
    ensures SearchFrom(v, k) == Interp(s, v)
    decreases s - k
  {
    if k < s {
      RowOrder(k + 1, s);
      assert !InSegment(k, v);
      SearchFindsSegment(v, k + 1, s);
    }
  }

  /** Inside a segment the line lies above the lower row's value and at most the upper row's. */
  lemma InterpBounds(i: nat, v: real)
    requires i < ROWS - 1
    requires InSegment(i, v)
    ensures PERCENTS[i + 1] < Interp(i, v) <= PERCENTS[i]
  {
    RowStep(i);
    var a, b, pa, pb := VOLTS[i], VOLTS[i + 1], PERCENTS[i], PERCENTS[i + 1];
    var t := (v - a) / (b - a);
    assert 0.0 <= t < 1.0;
    assert Interp(i, v) == pa + t * (pb - pa);
  }

  /** Inside a segment the line rises with the voltage. */
  lemma InterpMonotone(i: nat, v1: real, v2: real)
    requires i < ROWS - 1
    requires v1 <= v2
    ensures Interp(i, v1) <= Interp(i, v2)
  {
    RowStep(i);
    var a, b, pa, pb := VOLTS[i], VOLTS[i + 1], PERCENTS[i], PERCENTS[i + 1];
    var slope := (pb - pa) / (b - a);
    assert slope > 0.0;
    assert Interp(i, v1) == pa + (v1 - a) * slope;
    assert Interp(i, v2) == pa + (v2 - a) * slope;
  }

  /**
   * Strictly inside the table the result is the linear interpolation between the two
   * bracketing rows, and the fallback after the loop is never reached.
   */
  lemma VoltagePercentInterpolates(v: real)
    requires 3.00 < v < 4.20
    ensures var s := SegmentFrom(v, 0);
            && VOLTS[s + 1] < v <= VOLTS[s]
            && VoltagePercent(v) == Interp(s, v)
            && PERCENTS[s + 1] < VoltagePercent(v) <= PERCENTS[s]
  {
    var s := SegmentFrom(v, 0);
    SearchFindsSegment(v, 0, s);
    InterpBounds(s, v);
  }

  /** The estimate is a percentage. */
  lemma VoltagePercentBounds(v: real)
    ensures 0.0 <= VoltagePercent(v) <= 100.0
  {
    if 3.00 < v < 4.20 {
      var s := SegmentFrom(v, 0);
      VoltagePercentInterpolates(v);
      RowOrder(0, s);
      RowOrder(s + 1, ROWS - 1);
    }
  }

  /** At every row's voltage the estimate is exactly that row's percentage. */
  lemma VoltagePercentAtRows(i: nat)
    requires i < ROWS
    ensures VoltagePercent(VOLTS[i]) == PERCENTS[i]
  {
    RowStep(0);
    if 0 < i < ROWS - 1 {
      RowOrder(0, i);
      RowOrder(i, ROWS - 1);
      RowStep(i);
      RowStep(i - 1);
      RowOrder(i, ROWS - 2);
      assert InSegment(i, VOLTS[i]);
      SearchFindsSegment(VOLTS[i], 0, i);
    } else if i == ROWS - 1 {
      assert VOLTS[i] == 3.00;
    }
  }

  /** A higher voltage never gives a lower estimate. */
  lemma VoltagePercentMonotone(v1: real, v2: real)
    requires v1 <= v2
    ensures VoltagePercent(v1) <= VoltagePercent(v2)
  {
    VoltagePercentBounds(v1);
    VoltagePercentBounds(v2);
    if 3.00 < v1 && v2 < 4.20 {
      var s1, s2 := SegmentFrom(v1, 0), SegmentFrom(v2, 0);
      VoltagePercentInterpolates(v1);
      VoltagePercentInterpolates(v2);
      if s1 == s2 {
        InterpMonotone(s1, v1, v2);
      } else if s2 < s1 {
        RowOrder(s2 + 1, s1);
      } else {
        RowOrder(s1 + 1, s2);
        assert false;
      }
    }
  }

  // ---------- Coulomb counter ----------

  /**
   * `getBatPercentageCoulomb`: the charge left, as a share of the battery capacity, when
   * the counter holds the net charge in mAh since the counter was cleared at full charge;
   * clamped to 0..100. The firmware has no guard for a zero capacity.
   */
  function CoulombPercent(batteryCapacity: int, coulombCount: real): (r: real)
    requires batteryCapacity > 0
    ensures 0.0 <= r <= 100.0
    ensures coulombCount >= 0.0 ==> r == 100.0
    ensures -(batteryCapacity as real) <= coulombCount <= 0.0 ==>
              r == 100.0 + coulombCount * 100.0 / batteryCapacity as real
    ensures coulombCount <= -(batteryCapacity as real) ==> r == 0.0
  {
    var capacity := batteryCapacity as real;
    var bat := (capacity + coulombCount) / capacity * 100.0;
    assert capacity > 0.0;
    assert capacity / capacity == 1.0;
    assert (capacity + coulombCount) / capacity == capacity / capacity + coulombCount / capacity;
    assert coulombCount * 100.0 / capacity == coulombCount / capacity * 100.0;
    if bat > 100.0 then 100.0
    else if bat < 0.0 then 0.0
    else bat
  }

  /** More charge in the counter never gives a lower estimate. */
  lemma CoulombPercentMonotone(batteryCapacity: int, c1: real, c2: real)
    requires batteryCapacity > 0
    requires c1 <= c2
    ensures CoulombPercent(batteryCapacity, c1) <= CoulombPercent(batteryCapacity, c2)
  {
    var cap := batteryCapacity as real;
    assert (cap + c1) / cap <= (cap + c2) / cap;
  }

  // ---------- Charge current register ----------

  /** The charge-control codes of PMIC register 0x33 the firmware knows... */
  const CHARGE_CODES: seq<Byte> := [0xc0, 0xc1, 0xc2, 0xc3, 0xc4, 0xc5, 0xc6, 0xc7, 0xc8]

  /** ...and the charge current in mA each code selects. */
  const CHARGE_CURRENTS: seq<int> := [100, 190, 280, 360, 450, 550, 630, 700, 780]

  /** The register value the firmware writes for the lowest current, and for the highest. */
  const CODE_100MA: Byte := 0xc0
  const CODE_780MA: Byte := 0xc8

  /** The current a register code selects, or -1 for a code outside the table. */
  function ChargeCurrentOf(code: Byte): (mA: int)
    ensures mA == -1 || mA in CHARGE_CURRENTS
    ensures 0xc0 <= code <= 0xc8 ==> mA == CHARGE_CURRENTS[code - 0xc0]
    ensures !(0xc0 <= code <= 0xc8) ==> mA == -1
  {
    if 0xc0 <= code <= 0xc8 then CHARGE_CURRENTS[code - 0xc0] else -1
  }

  /** Code `k` of the table is 0xc0 + k. */
  lemma ChargeCodeAt(k: nat)
    requires k < |CHARGE_CODES|
    ensures CHARGE_CODES[k] as int == 0xc0 + k
  {
    assert k == 0 || k == 1 || k == 2 || k == 3 || k == 4 || k == 5 || k == 6 || k == 7 || k == 8;
  }

  /** `getChargeCurrent`: search the code table, answer the current at the matching position. */
  method GetChargeCurrent(code: Byte) returns (mA: int)
    ensures mA == ChargeCurrentOf(code)
  {
    var i := 0;
    while i < |CHARGE_CODES|
      invariant 0 <= i <= |CHARGE_CODES|
      invariant forall j :: 0 <= j < i ==> CHARGE_CODES[j] != code
    {
      if code == CHARGE_CODES[i] {
        ChargeCodeAt(i);
        return CHARGE_CURRENTS[i];
      }
      i := i + 1;
    }
    if 0xc0 <= code <= 0xc8 {
      ChargeCodeAt(code as int - 0xc0);
      assert false;
    }
    return -1;
  }

  /**
   * The two currents the mode decision compares against are each selected by exactly one
   * code, so "the current is not 780 mA" means "the register is not 0xc8", and likewise
   * for 100 mA and 0xc0.
   */
  lemma ChargeCurrentIdentifiesCode(code: Byte)
    ensures ChargeCurrentOf(code) == 780 <==> code == CODE_780MA
    ensures ChargeCurrentOf(code) == 100 <==> code == CODE_100MA
  {
    if 0xc0 <= code <= 0xc8 {
      var k := code - 0xc0;
      assert k == 0 || k == 1 || k == 2 || k == 3 || k == 4 || k == 5 || k == 6 || k == 7 || k == 8;
    }
  }

  // ---------- Power mode ----------

  /** Power sources above this voltage count as present. */
  const EXTERNAL_POWER_VOLTS: real := 3.8

  /** `maxBrightness` when nothing restricts it. */
  const FULL_BRIGHTNESS: int := 100

  /** The brightness above which a 5 V supply charges with the screen in use. */
  const CHARGE_TO_OFF_BRIGHTNESS: int := 20

  datatype PowerMode = FiveVoltCharge | ChargeToOff | UsbCharge | LowBattery | PowerSaver | Balanced

  /** What one tick of `doPowerManagement` decides from its readings. */
  datatype Decision = Decision(
    mode: PowerMode,
    maxBrightness: int,
    chargeWrite: Option<Byte>,  // a value written to register 0x33, if any
    brightness: int)            // the screen brightness after the tick

  /**
   * The mode decision: a 5 V input beats USB, which beats the battery. On a 5 V input
   * the fastest charge current is forced; on USB and battery the slowest. On battery the
   * PMIC's low-voltage warning caps the brightness first, then a state of charge at or
   * below the power-saver level caps it and lowers the screen to the cap.
   */
  function Decide(vinVoltage: real, vbusVoltage: real, isBatWarningLevel: bool,
                  batPercentageMin: real, maxChargeCurrent: int, brightness: int,
                  powerSaverBright: int, powerSaverBatt: int): (d: Decision)
    // Which mode.
    ensures vinVoltage > 3.8 ==> (d.mode == FiveVoltCharge <==> brightness > 20)
    ensures vinVoltage > 3.8 ==> (d.mode == ChargeToOff <==> brightness <= 20)
    ensures vinVoltage <= 3.8 && vbusVoltage > 3.8 ==> d.mode == UsbCharge
    ensures vinVoltage <= 3.8 && vbusVoltage <= 3.8 ==>
              && (d.mode == LowBattery <==> isBatWarningLevel)
              && (d.mode == PowerSaver <==> !isBatWarningLevel && batPercentageMin.Floor <= powerSaverBatt)
              && (d.mode == Balanced <==> !isBatWarningLevel && batPercentageMin.Floor > powerSaverBatt)
    // The brightness ceiling.
    ensures d.mode in {LowBattery, PowerSaver} ==> d.maxBrightness == powerSaverBright
    ensures d.mode !in {LowBattery, PowerSaver} ==> d.maxBrightness == 100
    // The charge register write.
    ensures vinVoltage > 3.8 ==> (d.chargeWrite.Some? <==> maxChargeCurrent != 780)
    ensures vinVoltage <= 3.8 ==> (d.chargeWrite.Some? <==> maxChargeCurrent != 100)
    ensures d.chargeWrite.Some? ==> d.chargeWrite.value == (if vinVoltage > 3.8 then CODE_780MA else CODE_100MA)
    // The screen: only the power saver changes it, and only down to the cap.
    ensures d.mode == PowerSaver && brightness > powerSaverBright ==> d.brightness == powerSaverBright
    ensures !(d.mode == PowerSaver && brightness > powerSaverBright) ==> d.brightness == brightness
  {
    if vinVoltage > EXTERNAL_POWER_VOLTS then
      var write := if maxChargeCurrent != 780 then Some(CODE_780MA) else None;
      var mode := if brightness > CHARGE_TO_OFF_BRIGHTNESS then FiveVoltCharge else ChargeToOff;
      Decision(mode, FULL_BRIGHTNESS, write, brightness)
    else if vbusVoltage > EXTERNAL_POWER_VOLTS then
      Decision(UsbCharge, FULL_BRIGHTNESS, if maxChargeCurrent != 100 then Some(CODE_100MA) else None, brightness)
    else
      var write := if maxChargeCurrent != 100 then Some(CODE_100MA) else None;
      if isBatWarningLevel then
        Decision(LowBattery, powerSaverBright, write, brightness)
      else if batPercentageMin.Floor <= powerSaverBatt then
        var newBrightness :=
          if brightness > powerSaverBright then Screen.SetBrightness(powerSaverBright, powerSaverBright)
          else brightness;
        Decision(PowerSaver, powerSaverBright, write, newBrightness)
      else
        Decision(Balanced, FULL_BRIGHTNESS, write, brightness)
  }

  /**
   * After the power saver's tick the screen is within the cap, and the screen's own
   * ceiling check then accepts every brightness up to the cap.
   */
  lemma PowerSaverRespectsCap(vinVoltage: real, vbusVoltage: real, batPercentageMin: real,
                              maxChargeCurrent: int, brightness: int,
                              powerSaverBright: int, powerSaverBatt: int)
    requires vinVoltage <= 3.8 && vbusVoltage <= 3.8
    requires batPercentageMin.Floor <= powerSaverBatt
    ensures var d := Decide(vinVoltage, vbusVoltage, false, batPercentageMin, maxChargeCurrent,
                            brightness, powerSaverBright, powerSaverBatt);
            && d.brightness <= d.maxBrightness
            && Screen.SetBrightness(d.brightness, d.maxBrightness) == d.brightness
  {
  }

  /**
   * The register write settles in one tick: once the written code is read back, a tick
   * on the same supply writes nothing.
   */
  lemma ChargeWriteSettles(vinVoltage: real, vbusVoltage: real, isBatWarningLevel: bool,
                           batPercentageMin: real, code: Byte, brightness: int,
                           powerSaverBright: int, powerSaverBatt: int)
    ensures var d := Decide(vinVoltage, vbusVoltage, isBatWarningLevel, batPercentageMin,
                            ChargeCurrentOf(code), brightness, powerSaverBright, powerSaverBatt);
            var after := if d.chargeWrite.Some? then d.chargeWrite.value else code;
            Decide(vinVoltage, vbusVoltage, isBatWarningLevel, batPercentageMin,
                   ChargeCurrentOf(after), d.brightness, powerSaverBright, powerSaverBatt).chargeWrite.None?
  {
    var d := Decide(vinVoltage, vbusVoltage, isBatWarningLevel, batPercentageMin,
                    ChargeCurrentOf(code), brightness, powerSaverBright, powerSaverBatt);
    var after := if d.chargeWrite.Some? then d.chargeWrite.value else code;
    ChargeCurrentIdentifiesCode(code);
    ChargeCurrentIdentifiesCode(after);
  }

  // ---------- Mode labels ----------

  /** The capacity of `power::powerMode` in characters, not counting the terminator. */
  const POWER_MODE_MAX_LEN: nat := 16

  const LOW_BATTERY_WARNING: string := "LOW BATTERY"

  /** The label of every mode except a running charge-to-off countdown. */
  function ModeName(mode: PowerMode): (s: string)
    ensures |s| <= POWER_MODE_MAX_LEN
  {
    match mode
    case FiveVoltCharge => "5v Charge"
    case ChargeToOff => "Charge to Off"
    case UsbCharge => "USB Charge"
    case LowBattery => "Low Battery"
    case PowerSaver => "Power Saver"
    case Balanced => "Balanced"
  }

  /** The local buffer the countdown label is formatted into, terminator included. */
  const COUNTDOWN_BUFFER_LEN: nat := 20

  /**
   * The label copied into `powerMode` as written: during a charge-to-off countdown,
   * "Charge to Off (<seconds left>)" as `snprintf` leaves it in the 20-byte local buffer,
   * which is then copied whole.
   */
  function ModeLabelAsWritten(mode: PowerMode, countdownMs: Option<nat>): (s: string)
    ensures |s| < COUNTDOWN_BUFFER_LEN
    ensures mode != ChargeToOff || countdownMs.None? ==> s == ModeName(mode)
    ensures mode == ChargeToOff && countdownMs.Some? ==>
              s <= "Charge to Off (" + Digits(countdownMs.value / 1000) + ")"
  {
    if mode == ChargeToOff && countdownMs.Some? then
      Take("Charge to Off (" + Digits(countdownMs.value / 1000) + ")", COUNTDOWN_BUFFER_LEN - 1)
    else ModeName(mode)
  }

  /** A countdown under 10000 s is formatted whole: "Charge to Off (59)" for 59 s left. */
  lemma CountdownLabelExample()
    ensures ModeLabelAsWritten(ChargeToOff, Some(59000)) == "Charge to Off (59)"
  {
    assert Digits(59) == "59";
  }

  /** Every countdown label is longer than the field it is copied into. */
  lemma CountdownLabelOverflows(countdownMs: nat)
    ensures |ModeLabelAsWritten(ChargeToOff, Some(countdownMs))| > POWER_MODE_MAX_LEN
  {
  }

  function Take(s: string, n: nat): (r: string)
    ensures |r| <= n && r <= s
    ensures |s| <= n ==> r == s
  {
    if |s| <= n then s else s[..n]
  }

  /** The label bounded to the field, as a bounded copy into `powerMode` would leave it. */
  function ModeLabel(mode: PowerMode, countdownMs: Option<nat>): (s: string)
    ensures |s| <= POWER_MODE_MAX_LEN
    ensures s <= ModeLabelAsWritten(mode, countdownMs)
    ensures mode != ChargeToOff || countdownMs.None? ==> s == ModeName(mode)
  {
    Take(ModeLabelAsWritten(mode, countdownMs), POWER_MODE_MAX_LEN)
  }

  /** A countdown label keeps the fixed text and the opening parenthesis. */
  lemma CountdownLabelKeepsPrefix(countdownMs: nat)
    ensures ModeLabel(ChargeToOff, Some(countdownMs))[..15] == "Charge to Off ("
  {
  }

  // ---------- One tick ----------

  /** What the PMIC and the voltage running average report at one tick. */
  datatype Readings = Readings(
    isBatWarningLevel: bool,
    batVoltage: real,
    minBatVoltage: real,   // the smallest battery voltage in the running-average buffer
    maxBatVoltage: real,   // the largest
    chargeControl: Byte,   // register 0x33
    vinVoltage: real,
    vbusVoltage: real,
    coulombCount: real)

  /** The fields of `power` this model computes. */
  datatype PowerState = PowerState(
    batWarningLevel: string,
    batVoltage: real,
    coulombCount: real,
    batPercentage: real,
    batPercentageMin: real,
    batPercentageMax: real,
    maxChargeCurrent: int,
    vinVoltage: real,
    vbusVoltage: real,
    maxBrightness: int,
    powerMode: string)

  datatype TickResult = TickResult(power: PowerState, mode: PowerMode, chargeWrite: Option<Byte>, brightness: int)

  /**
   * `doPowerManagement` without its timers. The coulomb estimate is taken before the
   * counter is read, so it uses the previous tick's count. `countdownMs` is the time left
   * on the charge-to-off timer when it is running.
   */
  function Tick(previous: PowerState, r: Readings, batteryCapacity: int, brightness: int,
                powerSaverBright: int, powerSaverBatt: int, countdownMs: Option<nat>): (t: TickResult)
    requires batteryCapacity > 0
    ensures 0.0 <= t.power.batPercentage <= 100.0
    ensures t.power.batPercentage == CoulombPercent(batteryCapacity, previous.coulombCount)
    ensures t.power.coulombCount == r.coulombCount
    ensures t.power.batPercentageMin <= t.power.batPercentageMax || r.minBatVoltage > r.maxBatVoltage
    ensures t.power.batWarningLevel == (if r.isBatWarningLevel then LOW_BATTERY_WARNING else "")
    ensures t.power.maxChargeCurrent == ChargeCurrentOf(r.chargeControl)
    ensures |t.power.powerMode| < COUNTDOWN_BUFFER_LEN
    ensures !(t.mode == ChargeToOff && countdownMs.Some?) ==> |t.power.powerMode| <= POWER_MODE_MAX_LEN
    ensures Take(t.power.powerMode, POWER_MODE_MAX_LEN) == ModeLabel(t.mode, if t.mode == ChargeToOff then countdownMs else None)
    ensures t.chargeWrite.Some? <==> r.chargeControl != (if r.vinVoltage > 3.8 then CODE_780MA else CODE_100MA)
    ensures var d := Decide(r.vinVoltage, r.vbusVoltage, r.isBatWarningLevel, t.power.batPercentageMin,
                            t.power.maxChargeCurrent, brightness, powerSaverBright, powerSaverBatt);
            && t.mode == d.mode && t.power.maxBrightness == d.maxBrightness
            && t.chargeWrite == d.chargeWrite && t.brightness == d.brightness
  {
    var pctMin := VoltagePercent(r.minBatVoltage);
    var pctMax := VoltagePercent(r.maxBatVoltage);
    assert r.minBatVoltage <= r.maxBatVoltage ==> pctMin <= pctMax by {
      if r.minBatVoltage <= r.maxBatVoltage {
        VoltagePercentMonotone(r.minBatVoltage, r.maxBatVoltage);
      }
    }
    ChargeCurrentIdentifiesCode(r.chargeControl);
    var maxChargeCurrent := ChargeCurrentOf(r.chargeControl);
    var d := Decide(r.vinVoltage, r.vbusVoltage, r.isBatWarningLevel, pctMin,
                    maxChargeCurrent, brightness, powerSaverBright, powerSaverBatt);
    var power := PowerState(
      if r.isBatWarningLevel then LOW_BATTERY_WARNING else "",
      r.batVoltage,
      r.coulombCount,
      CoulombPercent(batteryCapacity, previous.coulombCount),
      pctMin,
      pctMax,
      maxChargeCurrent,
      r.vinVoltage,
      r.vbusVoltage,
      d.maxBrightness,
      ModeLabelAsWritten(d.mode, if d.mode == ChargeToOff then countdownMs else None));
    TickResult(power, d.mode, d.chargeWrite, d.brightness)
  }
}
