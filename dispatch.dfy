/**
 * The two device loops and the controller state they drive. Each loop takes
 * one event at a time, classifies it and, when it maps, waits for the matching
 * controller operation to finish before reading the next event.
 */
module Dispatch {
  import opened Wrappers
  import opened Events
  import opened Classifier
  import opened Stream

  /**
   * The emulated controller's state, shared by both loops. Its operations are
   * opaque here; each one is recorded as the action it was asked to perform.
   */
  class ControllerState {
    var log: seq<Action>

    constructor ()
      ensures log == []
    {
      log := [];
    }

    /** `button_press(controller_state, label)` */
    method ButtonPress(b: Button)
      modifies this
      ensures log == old(log) + [Press(b)]
    {
      log := log + [Press(b)];
    }

    /** `button_release(controller_state, label)` */
    method ButtonRelease(b: Button)
      modifies this
      ensures log == old(log) + [Release(b)]
    {
      log := log + [Release(b)];
    }

    /** `cli.cmd_stick(stick, axis, value)`, the command-line wrapper around the same state. */
    method CmdStick(stick: StickName, axis: Axis, value: int)
      modifies this
      ensures log == old(log) + [Stick(stick, axis, value)]
    {
      log := log + [Stick(stick, axis, value)];
    }

    /** Performs a classified action, if there is one, through the matching operation. */
    method Perform(action: Option<Action>)
      modifies this
      ensures log == old(log) + action.ToSeq()
    {
      match action
      case None =>
      case Some(Press(b)) => ButtonPress(b);
      case Some(Release(b)) => ButtonRelease(b);
      case Some(Stick(stick, axis, value)) => CmdStick(stick, axis, value);
    }
  }

  /** The `buttons` loop over a finite prefix of the wheel's event stream. */
  method Buttons(events: seq<Event>, state: ControllerState)
    modifies state
    ensures state.log == old(state.log) + Collect(Wheel, events)
  {
    var i := 0;
    while i < |events|
      invariant 0 <= i <= |events|
      invariant state.log == old(state.log) + Collect(Wheel, events[..i])
    {
      assert events[..i + 1][..i] == events[..i];
      state.Perform(ClassifyWheel(events[i]));
      i := i + 1;
    }
    assert events[..i] == events;
  }

  /** The `pedals` loop over a finite prefix of the pedal device's event stream. */
  method Pedals(events: seq<Event>, state: ControllerState)
    modifies state
    ensures state.log == old(state.log) + Collect(Pedal, events)
  {
    var i := 0;
    while i < |events|
      invariant 0 <= i <= |events|
      invariant state.log == old(state.log) + Collect(Pedal, events[..i])
    {
      assert events[..i + 1][..i] == events[..i];
      state.Perform(ClassifyPedal(events[i]));
      i := i + 1;
    }
    assert events[..i] == events;
  }
}
