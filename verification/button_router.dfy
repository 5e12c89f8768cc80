/**
 * What a button event does: a short press on A moves the light to the next enabled
 * ATEM input and announces it, a long press on B moves to the next screen and a short
 * press on B steps the brightness. The calls into the MQTT client, the screen and the
 * display are returned as an `Action` for the caller to perform.
 */
module ButtonRouter {
  import opened CInts
  import opened Wrappers
  import opened Config
  import opened Tally
  import opened Buttons

  datatype Action =
    | NoAction
    | PublishSelectedInput(input: Byte)  // g_mqtt.publishSelectedInput
    | ChangeScreen(newScreen: int)       // changeScreen
    | CycleBrightness                    // cycleBrightness

  datatype Routed = Routed(cfg: ConfigState, tally: TallyState, action: Action)

  /** The id announced for the current selection: the entry's id, or 0 when nothing is selected. */
  function SelectedId(t: TallyState): (id: Byte)
    ensures CurrentSelected(t).None? ==> id == 0
    ensures WellKeyed(t.inputs) && (t.selectedInput == 0 || t.selectedInput in t.inputs) ==> id == t.selectedInput
  {
    match CurrentSelected(t)
    case Some(info) => info.id
    case None => 0
  }

  /** `ButtonRouter::handle`. */
  method Handle(cfg: ConfigState, tally: TallyState, ev: ButtonEvent) returns (r: Routed)
    ensures ev.kind == PressType.None || ev.id == ButtonId.None ==> r == Routed(cfg, tally, NoAction)
    ensures ev == ButtonEvent(ButtonId.A, PressType.ShortPress) ==>
              && r.tally == tally.(selectedInput := NextSelection(tally))
              && r.cfg == cfg.(device := cfg.device.(atemInput := SelectedId(r.tally)))
              && r.action == PublishSelectedInput(r.cfg.device.atemInput)
              && (WellKeyed(tally.inputs) ==> r.cfg.device.atemInput == r.tally.selectedInput)
    ensures ev == ButtonEvent(ButtonId.A, PressType.LongPress) ==> r == Routed(cfg, tally, NoAction)
    ensures ev == ButtonEvent(ButtonId.B, PressType.LongPress) ==> r == Routed(cfg, tally, ChangeScreen(-1))
    ensures ev == ButtonEvent(ButtonId.B, PressType.ShortPress) ==> r == Routed(cfg, tally, CycleBrightness)
  {
    if ev.kind == PressType.None || ev.id == ButtonId.None {
      return Routed(cfg, tally, NoAction);
    }
    match ev.id {
      case A =>
        if ev.kind == PressType.ShortPress {
          var tally' := SelectNextInput(tally);
          var id := SelectedId(tally');
          var cfg' := cfg.(device := cfg.device.(atemInput := id));
          return Routed(cfg', tally', PublishSelectedInput(id));
        }
        return Routed(cfg, tally, NoAction);
      case B =>
        if ev.kind == PressType.LongPress {
          return Routed(cfg, tally, ChangeScreen(-1));
        } else if ev.kind == PressType.ShortPress {
          return Routed(cfg, tally, CycleBrightness);
        }
        return Routed(cfg, tally, NoAction);
      case None =>
        return Routed(cfg, tally, NoAction);
    }
  }
}
