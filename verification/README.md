# M5StickC Plus tally light: a Dafny model of its decision logic

The firmware turns an M5StickC Plus into a tally light for an ATEM video switcher. It
follows one switcher input and lights red when that input is on program, green when it
is on preview. The switcher state and the configuration arrive over MQTT. Two front
buttons let the operator choose the input, change the screen and step the brightness. A
power module watches the battery and the supply and picks a power mode.

This project models the parts of the firmware that are pure decisions, as immutable
datatypes and functions:

- `Tally` (`tally_state.dfy`): the switcher state and the followed input. It covers
  normalising the selection and cycling to the next tally-enabled input. Cycling is a
  method that mirrors the `std::map` iterator loop, and it is proved equal to a
  key-based reference definition.
- `MqttRouter` (`mqtt_router.dfy`): routing one MQTT message.
  - Topics are tested in precedence order.
  - The keyword parsers ignore case.
  - Configuration updates are range-checked.
  - A device `input` setting carries over into the tally selection.
- `Buttons` (`button_manager.dfy`): the per-button press detector, with short and long
  presses and wrapping 32-bit millisecond time. `ButtonRouter` (`button_router.dfy`) maps
  button events to state changes and to requested actions.
- `Screen` (`screen_module.dfy`) and `Display` (`display_module.dfy`):
  - screen switching;
  - the brightness ceiling check;
  - the program/preview indicator and its change-only report;
  - the bounded startup log;
  - brightness level cycling.
- `Power` (`power_module.dfy`):
  - the 21-point LiPo discharge curve;
  - the coulomb-counter estimate;
  - the charge-current register codes;
  - one tick of the power-mode decision.
- `Config` (`config_state.dfy`): the configuration defaults and the merged effective
  view.
- Helpers: `CInts` (`cints.dfy`) holds the C++ fixed-width integers and casts.
  `ArduinoString` (`arduino_string.dfy`) holds `toLowerCase`, `startsWith`, `toInt`
  and the C string behind a `String`. `toLowerCase` stops at the first NUL, and a `String`
  compared with a literal is compared by `strcmp`, so only the part before the first NUL
  counts.
  `Wrappers` holds `Option`.

Arduino `String::toInt` is modelled as base-10 `strtol`, as the ESP32 C library
implements it:

- leading white space is skipped;
- one sign is allowed, then the longest run of digits is read;
- the value saturates to the 32-bit `long` range.

Every `static_cast` to a narrower type is written out as the modular reduction it performs.

Where the code and the design description of the firmware disagree, the model follows the
code:

- The power module has no hybrid or learned state-of-charge estimate and no debounced
  charge controller. It uses the coulomb estimate for the displayed percentage and the
  voltage curve for the power-saver decision. The register is written to the slowest or
  the fastest charge current, depending on the supply.
- Inputs carry `shortName` and `longName`, as `src/MqttRouter.cpp` fills them, not the
  `label` and `type` of the stale `include/TallyState.h`. The selection field exists only
  in the `.cpp` view of the class.
- A device `input` setting publishes the device's `atemInput` after the update (unchanged
  when the value is rejected), not the selection after normalising. The two differ when
  the requested input is not enabled.
- `handleGlobalConfig` assigns `timeZone` while `GlobalConfig` declares `timezone`. The
  model uses the declared field.
- The Low Battery mode lowers the brightness ceiling but leaves the current brightness
  alone. Only Power Saver lowers it.

## Model

| member | source | states |
|---|---|---|
| CInts.ToU8 | src/MqttRouter.cpp:54 | `static_cast<uint8_t>` keeps the value modulo 256; values already in range are unchanged |
| CInts.ToU16 | src/MqttRouter.cpp:166 | `static_cast<uint16_t>` keeps the value modulo 65536; values already in range are unchanged |
| CInts.ToI8 | src/MqttRouter.cpp:162 | `static_cast<int8_t>` wraps to the two's-complement range -128..127 and keeps the value modulo 256 |
| CInts.SubU32 | src/ButtonManager.cpp:45 | `uint32_t` subtraction: adding back the subtrahend modulo 2^32 gives the minuend; it is plain subtraction when no wrap occurs |
| ArduinoString.CStr | src/MqttRouter.cpp:16-20 | the C string a `String` holds is the longest NUL-free prefix of its characters |
| ArduinoString.CStrOfNoNul | src/MqttRouter.cpp:16-20 | text without a NUL is its own C string |
| ArduinoString.CStrBeforeNul | src/MqttRouter.cpp:16-20 | a NUL ends the C string whatever follows it |
| ArduinoString.CStrIdempotent | src/MqttRouter.cpp:16-20 | cutting at the first NUL twice is cutting once |
| ArduinoString.ToLower | src/MqttRouter.cpp:16-20 | the copy has the same length, lowers exactly the letters A..Z before the first NUL and leaves the NUL and everything after it unchanged |
| ArduinoString.CStrOfToLower | src/MqttRouter.cpp:16-20 | lower-casing and then cutting at the first NUL is cutting and then lower-casing |
| ArduinoString.ToLowerIdempotent | src/MqttRouter.cpp:16-20 | lower-casing twice is the same as lower-casing once |
| ArduinoString.ToInt | src/MqttRouter.cpp:142 | `toInt` always lies in the 32-bit `long` range |
| ArduinoString.ToIntOfDecimal | src/MqttRouter.cpp:54 | `toInt` of the decimal text of any 32-bit integer gives that integer back |
| ArduinoString.ToIntReadsLeadingNumber | src/MqttRouter.cpp:142 | a 32-bit integer's decimal text followed by anything not starting with a digit reads as that integer: trailing text is ignored |
| ArduinoString.ToIntOfDigits | src/MqttRouter.cpp:142 | a digit run followed by a non-digit reads as the run's value, saturated to the `long` range |
| ArduinoString.ToIntOfNegativeDigits | src/MqttRouter.cpp:142 | a minus sign then a digit run reads as the negated value, saturated to the `long` range |
| ArduinoString.ToIntOfNonNumber | src/MqttRouter.cpp:142 | when the text after the white space and the optional sign does not start with a digit ("", "abc", "-"), `toInt` gives 0 |
| ArduinoString.ToIntSkipsLeadingSpace | src/MqttRouter.cpp:142 | white space before the number does not change the value read |
| Config.DefaultGlobal | include/ConfigState.h:26-53 | default port 1883 and status interval 30; brightness 50, power-saver brightness 20, power-saver battery 25; log level Info and modem sleep; the defaults satisfy the router's ranges |
| Config.DefaultDevice | include/ConfigState.h:57-69 | default followed input 0 and battery capacity 2200 mAh with an empty friendly name; the identity is as built |
| Config.Effective | include/ConfigState.h:116-149 | each effective field is the device's or the global field of the same name; the friendly name falls back to the device id when it is empty |
| Config.EffectiveNameNeverEmpty | include/ConfigState.h:121 | a device with an id always shows a non-empty name; a device with a friendly name shows that name |
| Config.EffectiveKeepsRanges | include/ConfigState.h:116-149 | the merged view keeps percentages at most 100, a non-zero status interval and a non-zero capacity |
| Tally.InitialTally | src/main.cpp:32 | the global tally state starts, through the member defaults of `include/TallyState.h`, with nothing on program or preview, no inputs and no selection |
| Tally.IsProgram | src/TallyState.cpp:4-6 | true exactly for a non-zero input equal to the program input; input 0 is never on program |
| Tally.IsPreview | src/TallyState.cpp:8-10 | true exactly for a non-zero input equal to the preview input; input 0 is never on preview |
| Tally.FindInput | src/TallyState.cpp:12-15 | the entry is found exactly when the key is present, and it is that key's entry |
| Tally.CurrentSelected | src/TallyState.cpp:80-82 | null when the selection is 0 or unknown; otherwise the entry of the selected input |
| Tally.LeastEnabledFrom | src/TallyState.cpp:28-33 | the first enabled input at or above a key: every key between is disabled, and none at all when the answer is none |
| Tally.NormalizeSelected | src/TallyState.cpp:18-37 | only the selection changes, and it ends as 0 or an enabled input; a valid non-zero selection is kept; otherwise the smallest enabled key is chosen, or 0 when none is enabled |
| Tally.NormalizeIdempotent | src/TallyState.cpp:18-37 | normalising a second time changes nothing |
| Tally.NextSelection | src/TallyState.cpp:40-77 | the next selection: 0 with no inputs or no enabled input; otherwise the smallest enabled key above the current selection, or after wrapping the smallest enabled key (possibly the current one) |
| Tally.UpperBound | src/TallyState.cpp:47-48 | `upper_bound` on the key sequence: keys before the position are at most the value, keys from it on are greater |
| Tally.NoEnabledBetween | src/TallyState.cpp:53-76 | when the iterator skipped positions a..b as disabled, no key in the value range those positions bracket is enabled |
| Tally.NextSelectionFound | src/TallyState.cpp:47-73 | the first enabled key met before the end of the map is the next selection |
| Tally.NextSelectionWrapped | src/TallyState.cpp:54-73 | with nothing enabled after the selection, the first enabled key after wrapping is the next selection |
| Tally.SelectNextInput | src/TallyState.cpp:40-77 | the iterator loop with its wrap flag and its stop at the start position terminates and changes only the selection, to the next selection |
| Tally.ScanFrom | src/TallyState.cpp:53-76 | the `while (true)` scan from the start iterator ends with the next selection, after one pass at most |
| Tally.NextSelectionKeepsNormalized | src/TallyState.cpp:40-77 | the selection after cycling is already normal: normalising it changes nothing |
| MqttRouter.ParseWifiSleep | src/MqttRouter.cpp:22-28 | "none" and "light" in any case, compared up to the first NUL as `strcmp` does, select those modes; every other text means modem sleep |
| MqttRouter.ParseLogLevel | src/MqttRouter.cpp:30-38 | each level keyword in any case, compared up to the first NUL, selects its level; every other text means Info |
| MqttRouter.ParseCommand | src/MqttRouter.cpp:40-48 | each command keyword in any case, compared up to the first NUL, selects its command; any other text means no command; ResyncTime is never produced |
| MqttRouter.ParsersIgnoreCase | src/MqttRouter.cpp:22-48 | each parser gives the same answer for a payload and for its lower-cased form |
| MqttRouter.LoweredEquals | src/MqttRouter.cpp:16-20 | comparing the lower-cased copy with a literal by `strcmp` is comparing the lower-cased C string with it |
| MqttRouter.ParsersStopAtNul | src/MqttRouter.cpp:22-48 | each parser gives the same answer for a payload and for the part before its first NUL |
| MqttRouter.CommandBeforeNul | src/MqttRouter.cpp:40-48 | "reboot" followed by a NUL and any other characters is still the reboot command |
| MqttRouter.LogLevelBeforeNul | src/MqttRouter.cpp:30-38 | "debug" followed by a NUL and any other characters is still the debug level |
| MqttRouter.KeywordIsItsText | src/MqttRouter.cpp:40-48 | a lower-case keyword without a NUL is compared as itself |
| MqttRouter.LogLevelRoundTrip | src/MqttRouter.cpp:30-38 | parsing the keyword of any log level gives that level back |
| MqttRouter.CommandRoundTrip | src/MqttRouter.cpp:40-48 | parsing the keyword of any command that has one gives that command back |
| MqttRouter.InputInfo | src/MqttRouter.cpp:76-88 | an entry's id is its JSON key through `atoi` truncated to a byte; it is tally-enabled exactly when the `tally_enabled` text, up to its first NUL, is "true" in any case |
| MqttRouter.LoadInputs | src/MqttRouter.cpp:72-90 | every entry of the rebuilt map is filed under its own id, and the last member is always stored under its id |
| MqttRouter.LoadInputsKeys | src/MqttRouter.cpp:72-90 | the rebuilt map holds exactly the ids of the JSON members, so `clear()` leaves no stale input |
| MqttRouter.LoadInputsKeepsLastMembers | src/MqttRouter.cpp:75-90 | every member is stored in order: each member's entry is in the map unless a later member has the same id |
| MqttRouter.LoadInputsKeepsMember | src/MqttRouter.cpp:75-90 | the same for one member, by induction on the members stored before it |
| MqttRouter.HandleAtemMessage | src/MqttRouter.cpp:52-120 | program and preview take the payload's integer modulo 256; an inputs message that decodes replaces the map, keeps program and preview, and re-normalises the selection: a selection still enabled in the new map is kept, else it becomes 0 or enabled; an inputs message that fails to decode and any other topic change nothing |
| MqttRouter.ProgramMessageSetsOnAir | src/TallyState.cpp:4-10 | after a program message with an input's decimal id, `isProgram` holds exactly for that non-zero input and `isPreview` is unchanged; symmetrically for preview |
| MqttRouter.ProgramTopicTakesDecimalId | src/MqttRouter.cpp:53-60 | a program or preview message carrying the decimal text of an input id selects exactly that id |
| MqttRouter.PercentOr | src/MqttRouter.cpp:141-153 | a percentage setting takes the payload's integer only when it lies in 0..100, and otherwise keeps the old value |
| MqttRouter.StatusInterval | src/MqttRouter.cpp:165-169 | the status interval is the integer modulo 65536, with 0 replaced by the default 30; it is never 0 |
| MqttRouter.HandleGlobalConfig | src/MqttRouter.cpp:124-183 | each known key updates exactly its own field, with that field's conversion or guard; the firmware keys and unknown keys change nothing |
| MqttRouter.HandleGlobalConfigKeepsRanges | src/MqttRouter.cpp:124-183 | every global update preserves the percentage ranges and the non-zero status interval |
| MqttRouter.SetBatteryCapacityAsWritten | src/MqttRouter.cpp:196-200 | the capacity guard as written: a value in 1..99999 is stored modulo 65536 |
| MqttRouter.BatteryCapacityWrapsToZero | src/MqttRouter.cpp:196-200 | the payload "65536" passes that guard and stores a capacity of 0 |
| MqttRouter.SetBatteryCapacity | src/MqttRouter.cpp:196-200 | the corrected update stores only capacities in 1..65535, unchanged; a positive capacity stays positive |
| MqttRouter.BatteryCapacityAgreesBelowWrap | src/MqttRouter.cpp:196-200 | the corrected update agrees with the code as written on every value below 65536 |
| MqttRouter.HandleDeviceConfig | src/MqttRouter.cpp:187-202 | "name" sets the friendly name; "input" accepts 0..255 only; "battery_capacity" goes through the capacity update as written (1..99999, stored modulo 65536); other keys and the identity are unchanged; a valid device stays valid exactly unless the payload's integer is 65536 |
| MqttRouter.HandleDeviceConfigCorrected | src/MqttRouter.cpp:187-202 | with the corrected capacity guard a valid device always stays valid, and the result equals the code as written except on capacities of 65536 and above |
| MqttRouter.HandleMqttMessage | src/MqttRouter.cpp:206-267 | ATEM topics, then the global config prefix, then the two command topics, then the device config prefix are tried in that order. Each touches only its own part of the state; any other topic changes nothing. Only the command topics yield a command, and never ResyncTime. Setting "input" normalises that selection and publishes the device's input after the update. The global ranges are preserved; the device's can only be lost through its "battery_capacity" key with the value 65536 |
| MqttRouter.RouterCapacityWrapsToZero | src/MqttRouter.cpp:196-200 | through the router, the payload "65536" on the device's capacity topic stores a capacity of 0 |
| Buttons.Begin | src/ButtonManager.cpp:5-13 | both buttons start released with cleared timestamps and flags, and the threshold is stored (600 ms when `begin` is called without one) |
| Buttons.Step | src/ButtonManager.cpp:34-75 | a press edge records the time, clears the flag and emits nothing. While held, a long press fires once, when the wrapped hold time reaches the threshold. A release after a long press is silent and clears the flag. Any other release is short or long by the hold time. Up-and-was-up changes nothing. Events carry their button's id |
| Buttons.BeginDefault | include/ButtonManager.h:29 | `begin` without an argument sets a 600 ms long-press threshold |
| Buttons.Poll | src/ButtonManager.cpp:15-32 | button A is stepped first; when A emits, its event is returned and B is not stepped; otherwise B's step gives the event; an emitted event always names a button |
| Buttons.PollDelaysB | src/ButtonManager.cpp:15-32 | a release of B in a tick where A reports is delayed, not lost: the next poll in which A is silent reports B's press, short exactly when B was held for less than the threshold |
| Buttons.FiredHoldIsSilent | src/ButtonManager.cpp:43-52 | once the long press has fired, holding the button on emits nothing |
| Buttons.HoldFiresLongPressOnce | src/ButtonManager.cpp:43-52 | a held button emits exactly one long press, at the first poll whose hold time reaches the threshold, and never a short press |
| ButtonRouter.SelectedId | src/ButtonRouter.cpp:31-47 | the announced id is 0 when nothing is selected; for a well-keyed map it is the selection itself |
| ButtonRouter.Handle | src/ButtonRouter.cpp:20-68 | a None event or id does nothing. A short press on A cycles the selection, stores the selected id (or 0) as the followed input and publishes that same value. A long press on A does nothing. A long press on B requests `changeScreen(-1)` and a short press on B requests `cycleBrightness`, each leaving state unchanged |
| Screen.ChangeScreen | src/ScreenModule.cpp:160-171 | numbers below -1 or above 3 are rejected; 0..3 select directly; -1 advances and goes from 3 back to 1; the screen stays in 0..3 and advancing never reaches 0 |
| Screen.ScreenCycleHasPeriodThree | src/ScreenModule.cpp:166-168 | advancing from any of screens 1..3 moves away and returns after three steps |
| Screen.SetBrightness | src/ScreenModule.cpp:244-248 | a request above the ceiling becomes 10, not the ceiling; any other request is stored unchanged |
| Screen.SetBrightnessSettles | src/ScreenModule.cpp:244-248 | with a ceiling of at least 10, the stored value is within the ceiling and a second call keeps it |
| Screen.TallyIndicator | src/ScreenModule.cpp:50-62 | 2 exactly when the name matches the program source, 1 exactly when it matches preview but not program, 0 otherwise |
| Screen.ReturnTally | src/ScreenModule.cpp:53-62 | the indicator is reported exactly when it differs from the previous one, and it becomes the previous one |
| Screen.TallyRedrawReports | src/ScreenModule.cpp:50-62 | a redraw reports 2 only for the program's name, 1 only for the preview's name when it is not on program, 0 only for neither, each only on a change; a second redraw with the same names reports nothing |
| Screen.ReturnTallyOncePerChange | src/ScreenModule.cpp:53-62 | a second redraw with the same indicator reports nothing |
| Screen.InitialLog | src/ScreenModule.cpp:30-31 | the log starts with index -1 and 20 entries |
| Screen.StartupLogAppend | src/ScreenModule.cpp:251-261 | the index always advances; only indices 0..19 store an entry, holding the first min(length, 64) characters and the text size; the other entries are untouched |
| Screen.RenderedCountAsWritten | src/ScreenModule.cpp:152-155 | the redraw as written reads index + 1 entries |
| Screen.StartupRedrawOverruns | src/ScreenModule.cpp:152-155 | once the array is full, any further message makes that count exceed the 20 entries of the array |
| Screen.AppendAll | src/ScreenModule.cpp:251-259 | logging a sequence of messages advances the index by their number and keeps the log well formed |
| Screen.ManyMessagesOverrun | src/ScreenModule.cpp:152-155 | from the initial log, 21 or more messages make the redraw as written read past the array, while the stored entries number 20 |
| Screen.RenderedEntries | src/ScreenModule.cpp:152-155 | the corrected redraw reads the stored entries only, never more than 20 |
| Display.NextLevel | src/DisplayModule.cpp:5-23 | the next level by ranges: at most 10 gives 30, up to 30 gives 50, up to 50 gives 80, up to 80 gives 100, up to 100 gives 10, above 100 gives 30; always one of the five levels |
| Display.CycleLevel | src/DisplayModule.cpp:10-21 | the search for the first level at or above the brightness, followed by one step modulo five, yields the next level |
| Display.LevelsFormOneCycle | src/DisplayModule.cpp:7-19 | from each level the next is the following one, 100 wraps to 10, and five presses return to the start |
| Display.CycleBrightness | src/DisplayModule.cpp:5-23 | the new brightness is one of the five levels: the next level when the ceiling admits it, else 10 |
| Power.RowStep | src/PowerModule.cpp:32-54 | both columns of the discharge table strictly decrease from row to row |
| Power.RowOrder | src/PowerModule.cpp:32-54 | later rows never have a higher voltage or percentage |
| Power.VoltagePercent | src/PowerModule.cpp:57-61 | 100 at or above 4.20 V and 0 at or below 3.00 V |
| Power.SearchFindsSegment | src/PowerModule.cpp:64-73 | the segment loop returns the interpolation of the one segment that holds the voltage |
| Power.InterpBounds | src/PowerModule.cpp:67-70 | inside a segment the interpolation lies above the lower row's percentage and at most the upper row's |
| Power.InterpMonotone | src/PowerModule.cpp:67-70 | inside a segment the interpolation rises with the voltage |
| Power.VoltagePercentInterpolates | src/PowerModule.cpp:63-76 | strictly inside the table the result is the interpolation between the two bracketing rows, so the fallback after the loop is unreachable |
| Power.VoltagePercentBounds | src/PowerModule.cpp:28-78 | the voltage estimate always lies in 0..100 |
| Power.VoltagePercentAtRows | src/PowerModule.cpp:32-73 | at each row's voltage the estimate is exactly that row's percentage |
| Power.VoltagePercentMonotone | src/PowerModule.cpp:28-78 | a higher voltage never gives a lower estimate |
| Power.CoulombPercent | src/PowerModule.cpp:80-89 | the coulomb estimate is clamped to 0..100; it is 100 for a non-negative count, 100 + 100·count/capacity in between, and 0 below minus the capacity |
| Power.CoulombPercentMonotone | src/PowerModule.cpp:80-89 | more charge in the counter never gives a lower estimate |
| Power.ChargeCurrentOf | src/PowerModule.cpp:17-19 | codes 0xc0..0xc8 select 100, 190, 280, 360, 450, 550, 630, 700 and 780 mA position by position; any other code gives -1 |
| Power.GetChargeCurrent | src/PowerModule.cpp:99-107 | the table search returns the current of the matching code, or -1 |
| Power.ChargeCurrentIdentifiesCode | src/PowerModule.cpp:17-19 | 780 mA is read back only from code 0xc8 and 100 mA only from 0xc0 |
| Power.Decide | src/PowerModule.cpp:185-276 | 5 V input beats USB, which beats battery. On 5 V the mode is 5v Charge above brightness 20 and Charge to Off otherwise. Battery gives Low Battery on the warning flag, else Power Saver when floor(min %) ≤ the threshold, else Balanced. The ceiling is the power-saver brightness in Low Battery and Power Saver, else 100. 0xc8 is written on 5 V unless the current is 780, and 0xc0 otherwise unless it is 100. Only Power Saver lowers the screen, and only to the cap |
| Power.PowerSaverRespectsCap | src/PowerModule.cpp:267-270 | after a Power Saver tick the screen is within the cap, and the screen's ceiling check keeps it |
| Power.ChargeWriteSettles | src/PowerModule.cpp:206-208 | once the written code is read back, the next tick on the same supply writes nothing |
| Power.ModeName | src/PowerModule.cpp:213-272 | every fixed mode label fits the 16-character field |
| Power.ModeLabelAsWritten | src/PowerModule.cpp:229-236 | as written, the label is the mode name except during a countdown, when it is a prefix of "Charge to Off (N)" of at most 19 characters, the bound of the 20-byte `snprintf` buffer |
| Power.CountdownLabelExample | src/PowerModule.cpp:229-233 | with 59 s left the label is "Charge to Off (59)" in full |
| Power.CountdownLabelOverflows | src/PowerModule.cpp:229-233 | every countdown label as written is longer than the 16 characters `powerMode` holds |
| Power.ModeLabel | src/PowerModule.cpp:229-236 | the corrected label fits the field, is a prefix of the label as written, and is the plain mode name outside a countdown |
| Power.CountdownLabelKeepsPrefix | src/PowerModule.cpp:229-233 | a bounded countdown label still starts with "Charge to Off (" |
| Power.Tick | src/PowerModule.cpp:153-278 | one tick: the displayed percentage comes from the previous tick's coulomb count and lies in 0..100; the warning text is "LOW BATTERY" or empty; the min estimate is at most the max estimate whenever the buffer's min voltage is at most its max; the current is read from the register; the mode label is the one as written: under 20 characters, at most 16 unless a countdown is running, and its first 16 characters are the corrected label; a register write happens exactly when the register is not the supply's target code; mode, ceiling, write and brightness are those of the decision |

## Left out

- Hardware and I/O are left out:
  - the PMIC reads and writes (`M5.Axp`), power-off and clearing the coulomb counter;
  - the buttons' `isPressed` and `millis()`, which become parameters;
  - the LCD sprites, text and colours.
- Running averages: the battery voltage running average (`RunningAverage`) is a library
  not shown. The smallest and largest voltage in its buffer are inputs to `Power.Tick`.
- Timers (`millisDelay`) are left out because they are clock state.
  - The charge-to-off countdown is an input to `Power.Tick`: the time left when it runs.
    Starting it, powering off when it ends, and stopping it in the other branches are not
    modelled.
  - The 60 s low-battery timer is not modelled, and neither is the capacity overwrite
    with `preferences_save` it triggers.
  - The 30 fps screen refresh throttle is not modelled.
- `setChargeCurrent` and the graded charge-current ladder are not modelled because they
  are commented out in the source.
- Floating point: voltages and percentages are `real`, so `float` rounding is not
  modelled. A non-positive battery capacity is excluded by `Power.CoulombPercent`'s
  precondition: in the firmware a zero capacity divides to NaN or infinity, and a negative
  one (reachable from a negative coulomb count or `atoi` of stored preferences) gives a
  meaningless ratio.
- The ATEM inputs JSON decoder (ArduinoJson) is a function parameter of
  `MqttRouter.HandleAtemMessage`. It yields the object's members, or nothing when the text
  does not parse. The serial log lines and the enabled-input count, which only feeds a log
  line, are not modelled.
- `atoi` on an input key is modelled like `toInt`: its behaviour on overflow is
  undefined in C, and the model saturates.
- The MQTT client and its publishing are not modelled. `publishSelectedInput` is returned
  as a value: `RouteResult.published`, or the `PublishSelectedInput` action of
  `ButtonRouter.Handle`.
- WebSockets (compiled out), WiFi/NTP, NVS preferences and `main.cpp` glue are left out
  because they are network and persistence code.
- The bit-mask tally selection in `refreshTallyScreen` is not modelled because it is
  commented out.
- Power.Tick: keeps the whole formatted countdown label in `powerMode`, as the screen
  shows it; the memory `strcpy` overwrites past the 17-byte field is not modelled.
- MQTT topics are taken to hold no NUL, since the client library hands them over as C
  strings. Topic prefixes and topic names are compared on the whole text.
- `Screen.StartupLogAppend` does not model the overflow of the `int` log index, which
  would take 2^31 calls.

## Findings

| source | as written | input that shows it | evidently intended | confidence | as-written member | corrected member |
|---|---|---|---|---|---|---|
| src/MqttRouter.cpp:196-200 | `battery_capacity` accepts 1..99999, then truncates to `uint16_t` | payload "65536" stores a capacity of 0 and "70000" stores 4464 | accept only capacities that fit 16 bits (1..65535) | high; not executed | MqttRouter.SetBatteryCapacityAsWritten, MqttRouter.BatteryCapacityWrapsToZero, MqttRouter.RouterCapacityWrapsToZero | MqttRouter.SetBatteryCapacity, MqttRouter.BatteryCapacityAgreesBelowWrap, MqttRouter.HandleDeviceConfigCorrected |
| src/ScreenModule.cpp:152-155 | the startup redraw reads entries 0..index, and the index keeps growing past 19 | 21 `startupLog` calls then a redraw on the startup screen read entry 20 of a 20-entry array | read only the stored entries, at most 20 | high; not executed | Screen.RenderedCountAsWritten, Screen.StartupRedrawOverruns, Screen.ManyMessagesOverrun | Screen.RenderedEntries |
| src/PowerModule.cpp:229-233 | the countdown label "Charge to Off (N)" is formatted into a 20-byte buffer, so it has 17 to 19 characters, and is copied with `strcpy` into the 17-byte `powerMode` | any running charge-to-off countdown, for example 59 s left gives "Charge to Off (59)", 18 characters plus the terminator | a label that fits the 16-character field | high; not executed | Power.ModeLabelAsWritten, Power.CountdownLabelOverflows, Power.CountdownLabelExample | Power.ModeLabel, Power.CountdownLabelKeepsPrefix |

The router (`MqttRouter.HandleDeviceConfig`, `MqttRouter.HandleMqttMessage`) and
`Power.Tick` follow the code as written; the corrected members sit beside them with the
intended property proved and the agreement with the code as written stated.
