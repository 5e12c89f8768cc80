/**
 * The screen logic that is not drawing: which of the four screens is shown, the
 * brightness ceiling check, the program/preview indicator of the tally screen and the
 * bounded startup log.
 */
module Screen {
  import opened Wrappers

  /** Screens: 0 startup, 1 tally, 2 power, 3 setup. */
  const MAX_SCREEN: int := 3

  /**
   * `changeScreen`: numbers outside -1..3 are rejected; -1 advances, going from the last
   * screen back to 1 (the startup screen is never cycled to); 0..3 selects directly.
   */
  function ChangeScreen(currentScreen: int, newScreen: int): (r: int)
    ensures newScreen < -1 || newScreen > MAX_SCREEN ==> r == currentScreen
    ensures 0 <= newScreen <= MAX_SCREEN ==> r == newScreen
    ensures newScreen == -1 && currentScreen != MAX_SCREEN ==> r == currentScreen + 1
    ensures newScreen == -1 && currentScreen == MAX_SCREEN ==> r == 1
    ensures 0 <= currentScreen <= MAX_SCREEN ==> 0 <= r <= MAX_SCREEN
    ensures newScreen == -1 && 0 <= currentScreen <= MAX_SCREEN ==> r != 0
  {
    if newScreen < -1 || newScreen > MAX_SCREEN then currentScreen
    else if newScreen == -1 then
      (if currentScreen == MAX_SCREEN then 0 else currentScreen) + 1
    else newScreen
  }

  /** Advancing three times from any of screens 1..3 comes back to it: the cycle is 1, 2, 3. */
  lemma ScreenCycleHasPeriodThree(s: int)
    requires 1 <= s <= MAX_SCREEN
    ensures ChangeScreen(ChangeScreen(ChangeScreen(s, -1), -1), -1) == s
    ensures ChangeScreen(s, -1) != s
  {
  }

  /**
   * `setBrightness`: a request above the power module's ceiling is replaced by 10 (not
   * by the ceiling); any other request is stored as it is.
   */
  function SetBrightness(request: int, maxBrightness: int): (r: int)
    ensures r == request || r == 10
    ensures request <= maxBrightness ==> r == request
    ensures request > maxBrightness ==> r == 10
    ensures r <= maxBrightness || r == 10
  {
    if request > maxBrightness then 10 else request
  }

  /** Once stored, a brightness is kept by a second call whenever the ceiling admits 10. */
  lemma SetBrightnessSettles(request: int, maxBrightness: int)
    requires maxBrightness >= 10
    ensures SetBrightness(SetBrightness(request, maxBrightness), maxBrightness) == SetBrightness(request, maxBrightness)
    ensures SetBrightness(request, maxBrightness) <= maxBrightness
  {
  }

  /**
   * The indicator of `refreshTallyScreen`: 2 when this light's name is the program
   * source's, else 1 when it is the preview source's, else 0.
   */
  function TallyIndicator(friendlyName: string, programName: string, previewName: string): (r: int)
    ensures 0 <= r <= 2
    ensures r == 2 <==> friendlyName == programName
    ensures r == 1 <==> friendlyName != programName && friendlyName == previewName
    ensures r == 0 <==> friendlyName != programName && friendlyName != previewName
  {
    if friendlyName == programName then 2
    else if friendlyName == previewName then 1
    else 0
  }

  datatype TallyReport = TallyReport(prevTally: int, sent: Option<int>)

  /** Report the indicator to the switcher only when it changed since the last report. */
  function ReturnTally(prevTally: int, indicator: int): (r: TallyReport)
    ensures r.prevTally == indicator
    ensures r.sent.Some? <==> indicator != prevTally
    ensures r.sent.Some? ==> r.sent.value == indicator
  {
    if indicator != prevTally then TallyReport(indicator, Some(indicator)) else TallyReport(prevTally, None)
  }

  /** Redrawing with unchanged names reports nothing the second time. */
  lemma ReturnTallyOncePerChange(prevTally: int, indicator: int)
    ensures ReturnTally(ReturnTally(prevTally, indicator).prevTally, indicator).sent.None?
  {
  }

  /**
   * One tally redraw: the indicator for the names, reported when it changed. Program wins:
   * 2 is reported only for the program's name, 1 only for the preview's name when it is
   * not also on program, and a second redraw with the same names reports nothing.
   */
  lemma TallyRedrawReports(prevTally: int, friendlyName: string, programName: string, previewName: string)
    ensures var r := ReturnTally(prevTally, TallyIndicator(friendlyName, programName, previewName));
            && (r.sent == Some(2) <==> friendlyName == programName && prevTally != 2)
            && (r.sent == Some(1) <==> friendlyName != programName && friendlyName == previewName && prevTally != 1)
            && (r.sent == Some(0) <==> friendlyName != programName && friendlyName != previewName && prevTally != 0)
            && ReturnTally(r.prevTally, TallyIndicator(friendlyName, programName, previewName)).sent.None?
  {
  }

  // ---------- Startup log ----------

  const LOG_ENTRIES: int := 20
  const LOG_MESSAGE_MAX_LEN: int := 64

  datatype LogEntry = LogEntry(message: string, textSize: int)

  /** The entry array and the index of the last call; the index keeps counting past the array. */
  datatype StartupLog = StartupLog(index: int, entries: seq<LogEntry>)

  predicate ValidLog(l: StartupLog) {
    l.index >= -1 && |l.entries| == LOG_ENTRIES
  }

  function InitialLog(): (l: StartupLog)
    ensures ValidLog(l) && l.index == -1
  {
    StartupLog(-1, seq(LOG_ENTRIES, _ => LogEntry("", 0)))
  }

  function Min(a: int, b: int): int {
    if a < b then a else b
  }

  /**
   * `startupLog`: the index always advances; only indices 0..19 store an entry, holding
   * at most the first 64 characters of the message (the characters before the C string's
   * terminator).
   */
  function StartupLogAppend(l: StartupLog, message: string, textSize: int): (r: StartupLog)
    requires ValidLog(l)
    ensures ValidLog(r) && r.index == l.index + 1
    ensures r.index < LOG_ENTRIES ==>
              && r.entries[r.index].textSize == textSize
              && |r.entries[r.index].message| == Min(|message|, LOG_MESSAGE_MAX_LEN)
              && r.entries[r.index].message == message[..|r.entries[r.index].message|]
              && forall i :: 0 <= i < LOG_ENTRIES && i != r.index ==> r.entries[i] == l.entries[i]
    ensures r.index >= LOG_ENTRIES ==> r.entries == l.entries
  {
    var index := l.index + 1;
    if index > 19 then l.(index := index)
    else
      var stored := message[..Min(|message|, LOG_MESSAGE_MAX_LEN)];
      StartupLog(index, l.entries[index := LogEntry(stored, textSize)])
  }

  /**
   * The entry positions `refreshStartupScreen` reads, as written: 0 up to the index, which
   * keeps growing after the 20th message.
   */
  function RenderedCountAsWritten(l: StartupLog): (n: int)
    requires ValidLog(l)
    ensures n == l.index + 1
  {
    l.index + 1
  }

  /**
   * Once the array is full, every further message makes the redraw read past it: the
   * count of positions read exceeds the 20 the array holds.
   */
  lemma StartupRedrawOverruns(l: StartupLog, message: string, textSize: int)
    requires ValidLog(l) && l.index >= LOG_ENTRIES - 1
    ensures RenderedCountAsWritten(StartupLogAppend(l, message, textSize)) > LOG_ENTRIES
  {
  }

  /** The log after `startupLog` is called once per entry, in order. */
  function AppendAll(l: StartupLog, log: seq<LogEntry>): (r: StartupLog)
    requires ValidLog(l)
    ensures ValidLog(r) && r.index == l.index + |log|
    decreases |log|
  {
    if log == [] then l
    else AppendAll(StartupLogAppend(l, log[0].message, log[0].textSize), log[1..])
  }

  /** From the start, 21 or more messages make the redraw read past the array. */
  lemma ManyMessagesOverrun(log: seq<LogEntry>)
    requires |log| > LOG_ENTRIES
    ensures RenderedCountAsWritten(AppendAll(InitialLog(), log)) > LOG_ENTRIES
    ensures |RenderedEntries(AppendAll(InitialLog(), log))| == LOG_ENTRIES
  {
  }

  /** The entries the redraw should read: the stored ones, never more than the array holds. */
  function RenderedEntries(l: StartupLog): (es: seq<LogEntry>)
    requires ValidLog(l)
    ensures |es| == Min(l.index + 1, LOG_ENTRIES)
    ensures forall i :: 0 <= i < |es| ==> es[i] == l.entries[i]
  {
    l.entries[..Min(l.index + 1, LOG_ENTRIES)]
  }
}
