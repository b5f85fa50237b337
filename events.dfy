/**
 * Raw input events as read from the evdev devices, and the logical actions
 * sent to the emulated controller.
 */
module Events {

  /** Linux evdev event types and codes used by the two devices. */
  const EV_KEY: int := 1
  const EV_ABS: int := 3
  const ABS_X: int := 0
  const ABS_Y: int := 1
  const BTN_SELECT: int := 314
  const BTN_START: int := 315

  /** One evdev event: its type (`kind`), its channel code and its value. */
  datatype Event = Event(kind: int, code: int, value: int)

  /** Python truthiness of an integer: `if ev.value` holds exactly when it is nonzero. */
  predicate Truthy(v: int) {
    v != 0
  }

  /** The controller button labels the devices are mapped onto ('a' and 'b'). */
  datatype Button = A | B

  /**
   * The analog sticks that `cmd_stick` accepts ('l' and 'r'). The devices
   * only ever move 'l'; 'r' is part of the operation's argument domain.
   */
  datatype StickName = L | R

  /**
   * The stick axes that `cmd_stick` accepts ('horizontal' and 'vertical'). The
   * devices only ever move 'horizontal'.
   */
  datatype Axis = Horizontal | Vertical

  /** What one event asks of the controller. */
  datatype Action =
    | Press(button: Button)
    | Release(button: Button)
    | Stick(stick: StickName, axis: Axis, value: int)

  /** The two event sources: the wheel (buttons and steering) and the pedals. */
  datatype Device = Wheel | Pedal
}
