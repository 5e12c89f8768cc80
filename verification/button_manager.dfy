/**
 * Press detection for the two front buttons. Each button keeps whether it was down at
 * the last poll, when it went down, and whether a long press already fired during this
 * hold. Times are `millis()` values, 32-bit and wrapping.
 */
module Buttons {
  import opened CInts

  datatype ButtonId = None | A | B

  datatype PressType = None | ShortPress | LongPress

  datatype ButtonEvent = ButtonEvent(id: ButtonId, kind: PressType)

  /** The default-constructed event: no button, no press. */
  const NO_EVENT: ButtonEvent := ButtonEvent(ButtonId.None, PressType.None)

  datatype ButtonState = ButtonState(wasDown: bool, downAtMs: U32, longPressFired: bool)

  datatype ButtonManager = ButtonManager(longPressMs: U32, a: ButtonState, b: ButtonState)

  const RELEASED: ButtonState := ButtonState(false, 0, false)

  /** `ButtonManager::begin`: both buttons released and cleared, threshold stored. */
  function Begin(longPressMs: U32 := 600): (m: ButtonManager)
    ensures m.longPressMs == longPressMs
    ensures !m.a.wasDown && m.a.downAtMs == 0 && !m.a.longPressFired
    ensures !m.b.wasDown && m.b.downAtMs == 0 && !m.b.longPressFired
  {
    ButtonManager(longPressMs, RELEASED, RELEASED)
  }

  /** Called without an argument, `begin` makes a hold of 600 ms long. */
  lemma BeginDefault()
    ensures Begin().longPressMs == 600
    ensures Begin() == Begin(600)
  {
  }

  /** How long the button has been held at `nowMs`, by wrapping `uint32_t` subtraction. */
  function HeldMs(s: ButtonState, nowMs: U32): U32 {
    SubU32(nowMs, s.downAtMs)
  }

  datatype StepResult = StepResult(state: ButtonState, event: ButtonEvent)

  /**
   * `handleButtonA` / `handleButtonB`, one step for the button named `id`.
   */
  function Step(s: ButtonState, id: ButtonId, isDown: bool, nowMs: U32, longPressMs: U32): (r: StepResult)
    // Events carry the id of their button; a non-event is the default event.
    ensures r.event.kind != PressType.None ==> r.event.id == id
    ensures r.event.kind == PressType.None ==> r.event == NO_EVENT
    // Press edge: remember the time, clear the long-press flag, no event.
    ensures isDown && !s.wasDown ==> r == StepResult(ButtonState(true, nowMs, false), NO_EVENT)
    // Held: a long press fires once, when the hold first reaches the threshold.
    ensures isDown && s.wasDown ==>
              && r.state.wasDown && r.state.downAtMs == s.downAtMs
              && (r.event.kind == PressType.LongPress <==> !s.longPressFired && HeldMs(s, nowMs) >= longPressMs)
              && r.event.kind != PressType.ShortPress
              && (r.state.longPressFired <==> s.longPressFired || HeldMs(s, nowMs) >= longPressMs)
    // Release after a long press already fired: silent, flag cleared.
    ensures !isDown && s.wasDown && s.longPressFired ==>
              r == StepResult(ButtonState(false, s.downAtMs, false), NO_EVENT)
    // Any other release: short or long by the hold time.
    ensures !isDown && s.wasDown && !s.longPressFired ==>
              && r.state == ButtonState(false, s.downAtMs, false)
              && r.event.id == id
              && (r.event.kind == PressType.ShortPress <==> HeldMs(s, nowMs) < longPressMs)
              && (r.event.kind == PressType.LongPress <==> HeldMs(s, nowMs) >= longPressMs)
    // Up and was up: nothing happens.
    ensures !isDown && !s.wasDown ==> r == StepResult(s, NO_EVENT)
  {
    if isDown && !s.wasDown then
      StepResult(ButtonState(true, nowMs, false), NO_EVENT)
    else if isDown && s.wasDown then
      if !s.longPressFired && HeldMs(s, nowMs) >= longPressMs then
        StepResult(s.(longPressFired := true), ButtonEvent(id, PressType.LongPress))
      else
        StepResult(s, NO_EVENT)
    else if !isDown && s.wasDown then
      var released := s.(wasDown := false);
      if s.longPressFired then
        StepResult(released.(longPressFired := false), NO_EVENT)
      else if HeldMs(s, nowMs) >= longPressMs then
        StepResult(released, ButtonEvent(id, PressType.LongPress))
      else
        StepResult(released, ButtonEvent(id, PressType.ShortPress))
    else
      StepResult(s, NO_EVENT)
  }

  datatype PollResult = PollResult(manager: ButtonManager, event: ButtonEvent)

  /**
   * `ButtonManager::poll`: step A; if A produced an event, report it and leave B
   * unstepped this tick; otherwise step B and report B's result.
   */
  function Poll(m: ButtonManager, aDown: bool, bDown: bool, nowMs: U32): (r: PollResult)
    ensures var ra := Step(m.a, ButtonId.A, aDown, nowMs, m.longPressMs);
            && r.manager.longPressMs == m.longPressMs
            && r.manager.a == ra.state
            && (ra.event.kind != PressType.None ==> r.event == ra.event && r.manager.b == m.b)
            && (ra.event.kind == PressType.None ==>
                  var rb := Step(m.b, ButtonId.B, bDown, nowMs, m.longPressMs);
                  r.event == rb.event && r.manager.b == rb.state)
    ensures r.event.kind != PressType.None ==> r.event.id != ButtonId.None
  {
    var ra := Step(m.a, ButtonId.A, aDown, nowMs, m.longPressMs);
    if ra.event.kind != PressType.None then
      PollResult(m.(a := ra.state), ra.event)
    else
      var rb := Step(m.b, ButtonId.B, bDown, nowMs, m.longPressMs);
      PollResult(m.(a := ra.state, b := rb.state), rb.event)
  }

  /**
   * A release of B in a tick where A reports is delayed, not lost: B is not stepped, so
   * the next poll in which A is silent reports B's press, short exactly when it was held
   * for less than the threshold.
   */
  lemma PollDelaysB(m: ButtonManager, aDown: bool, t1: U32, aDown2: bool, t2: U32)
    requires m.b.wasDown && !m.b.longPressFired
    requires Poll(m, aDown, false, t1).event.id == ButtonId.A
    requires Step(Poll(m, aDown, false, t1).manager.a, ButtonId.A, aDown2, t2, m.longPressMs).event == NO_EVENT
    ensures var r := Poll(Poll(m, aDown, false, t1).manager, aDown2, false, t2);
            && r.event.id == ButtonId.B && r.event.kind != PressType.None
            && (r.event.kind == PressType.ShortPress <==> HeldMs(m.b, t2) < m.longPressMs)
  {
  }

  /** The events of a button polled while held down at each of the given times. */
  function HeldEvents(s: ButtonState, id: ButtonId, times: seq<U32>, longPressMs: U32): (evs: seq<ButtonEvent>)
    decreases |times|
    ensures |evs| == |times|
  {
    if times == [] then []
    else
      var r := Step(s, id, true, times[0], longPressMs);
      [r.event] + HeldEvents(r.state, id, times[1..], longPressMs)
  }

  /** The hold that started at `downAtMs` has reached the threshold by time `t`. */
  predicate Reached(downAtMs: U32, t: U32, longPressMs: U32) {
    SubU32(t, downAtMs) >= longPressMs
  }

  /** Once the long press has fired, holding on stays silent. */
  lemma {:induction false} FiredHoldIsSilent(s: ButtonState, id: ButtonId, times: seq<U32>, longPressMs: U32)
    requires s.wasDown && s.longPressFired
    ensures forall i :: 0 <= i < |times| ==> HeldEvents(s, id, times, longPressMs)[i] == NO_EVENT
  {
    if times != [] {
      var r := Step(s, id, true, times[0], longPressMs);
      assert r.state == s;
      FiredHoldIsSilent(s, id, times[1..], longPressMs);
    }
  }

  /**
   * While a button stays down, exactly one long press is emitted: at the first poll whose
   * hold time reaches the threshold. No short press is emitted while held.
   */
  lemma {:induction false} HoldFiresLongPressOnce(s: ButtonState, id: ButtonId, times: seq<U32>, longPressMs: U32)
    requires s.wasDown && !s.longPressFired
    ensures var evs := HeldEvents(s, id, times, longPressMs);
            forall i :: 0 <= i < |times| ==>
              && evs[i].kind != PressType.ShortPress
              && (evs[i].kind == PressType.LongPress <==>
                    Reached(s.downAtMs, times[i], longPressMs) &&
                    forall j :: 0 <= j < i ==> !Reached(s.downAtMs, times[j], longPressMs))
  {
    if times != [] {
      var r := Step(s, id, true, times[0], longPressMs);
      var evs := HeldEvents(s, id, times, longPressMs);
      var rest := HeldEvents(r.state, id, times[1..], longPressMs);
      assert evs == [r.event] + rest;
      if Reached(s.downAtMs, times[0], longPressMs) {
        FiredHoldIsSilent(r.state, id, times[1..], longPressMs);
        forall i | 1 <= i < |times|
          ensures evs[i] == NO_EVENT
        {
          assert evs[i] == rest[i - 1];
        }
      } else {
        assert r.state == s;
        HoldFiresLongPressOnce(s, id, times[1..], longPressMs);
        forall i | 1 <= i < |times|
          ensures evs[i] == rest[i - 1] && times[i] == times[1..][i - 1]
        {
        }
      }
    }
  }
}
