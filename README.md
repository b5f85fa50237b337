# Wheel and pedals to controller: the event classifier

`wheel.py` bridges a steering wheel (with two buttons) and a pair of pedals to
an emulated game controller. Two loops, `buttons` and `pedals`, each read
evdev events `(type, code, value)` from their device. Each loop classifies
every event into at most one controller action: press a button label, release
a button label, or set the left stick's horizontal axis. It then waits for the
matching operation on the shared controller state before reading the next event.

This project models that core in Dafny:

- `events.dfy` (module `Events`): the event triple, the evdev constants in use
  (EV_KEY = 1, EV_ABS = 3, ABS_X = 0, ABS_Y = 1, BTN_SELECT = 314,
  BTN_START = 315), the button labels 'a' and 'b', and the `Action` datatype.
- `classifier.dfy` (module `Classifier`): `ClassifyWheel` and `ClassifyPedal`,
  which follow the source's branches exactly. It also holds each device's
  mapping table as data (`WheelRules`, `PedalRules`) with a first-match
  `Lookup`. Lemmas prove that the branches and the tables agree on every event.
- `stream.dfy` (module `Stream`): `Collect`, the actions a loop dispatches for
  a finite stream (the filter-map of the classifier). Lemmas cover order
  preservation, unmapped events and the per-device guarantees. They also cover
  what state the dispatched actions leave each button in.
- `dispatch.dfy` (module `Dispatch`): the shared `ControllerState`, whose
  operations are recorded in an action log, and the two loops `Buttons` and
  `Pedals`. Each loop is proved to append exactly `Collect` of its events.
- `wrappers.dfy`: the `Option` type.

Quirks of the code that the model keeps as written:

- Buttons are tested with Python truthiness (`if ev.value:`), so any nonzero
  value presses, not only 1.
- The pedal comment says "> 0", but negative values press too.
- The left wheel button (BTN_SELECT) presses 'a' and releases 'b', while the
  right one (BTN_START) presses and releases 'a'. This asymmetry is kept.
  `LeftButtonLeavesAHeld` shows its effect: after the left button goes down
  and up, 'a' is still held.
- Every EV_ABS event of the wheel moves the stick, whatever its code.

## Model

| member | source | states |
|---|---|---|
| `Classifier.ClassifyWheel` | wheel.py:41-53 | An event maps iff it is BTN_SELECT/BTN_START of type EV_KEY, or any EV_ABS. It presses iff the button value is nonzero, and always presses 'a'. On value 0 it releases 'a' for BTN_START and 'b' for BTN_SELECT. EV_ABS (any code) gives `Stick(L, Horizontal, value)` with the value unchanged, and nothing else gives a stick action. |
| `Classifier.ClassifyPedal` | wheel.py:58-68 | An event maps iff it is EV_ABS with code ABS_X or ABS_Y. It presses iff the value is nonzero, negatives included. The label is 'a' iff the code is ABS_X. It never gives a stick action. |
| `Classifier.Lookup` | wheel.py:41-68 | The table reference: an event maps iff some row matches, and it then gets the response of the first matching row. |
| `Classifier.WheelFollowsTable` | wheel.py:41-53 | On every event, the wheel's branches equal the lookup in its three-row table: (EV_KEY, 314, press 'a' / release 'b'), (EV_KEY, 315, press 'a' / release 'a'), (EV_ABS, any code, left stick horizontal). |
| `Classifier.PedalFollowsTable` | wheel.py:58-68 | On every event, the pedals' branches equal the lookup in their two-row table: (EV_ABS, ABS_X, 'a'), (EV_ABS, ABS_Y, 'b'). |
| `Stream.Collect` | wheel.py:39-68 | The actions a device loop dispatches: each event of the `async for` (wheel.py:39 for the wheel, wheel.py:56 for the pedals) goes through its device's classifier (`Classifier.Classify` picks `ClassifyWheel` or `ClassifyPedal`), in event order. A loop emits at most one action per event, so the log is never longer than the stream. |
| `Stream.CollectAppend` | wheel.py:39-68 | Processing a + b logs the actions of a followed by those of b. |
| `Stream.CollectSplit` | wheel.py:39-68 | An event inside a stream contributes exactly its own classified action, or nothing if unmapped. That contribution sits between the actions of the events before and after it. |
| `Stream.CollectEmpty` | wheel.py:39-68 | A stream logs nothing iff none of its events maps, in both directions. |
| `Stream.CollectOrigin` | wheel.py:39-68 | The k-th logged action is the classification of some event i, and exactly k actions come from the events before i. Order is preserved and nothing is invented. |
| `Stream.CollectPosition` | wheel.py:39-68 | Every mapped event has its action in the log, right after the actions of the events before it. Nothing is dropped. |
| `Stream.PedalsNeverMoveStick` | wheel.py:58-68 | No action logged for a pedal stream is a stick action. |
| `Stream.WheelNeverPressesB` | wheel.py:41-51 | The wheel never presses 'b'. It only ever releases it. |
| `Stream.WheelSteeringValues` | wheel.py:52-53 | Every stick action from the wheel is on the left stick's horizontal axis. The log holds `Stick(L, Horizontal, v)` iff some EV_ABS event carries value v. |
| `Stream.PedalTracksPosition` | wheel.py:56-68 | After any pedal stream, the actions the pedal loop dispatches leave 'a' (resp. 'b') pressed iff the last ABS_X (resp. ABS_Y) value was nonzero. If there was no such event, these actions do not touch the label. |
| `Stream.RightButtonTracksPosition` | wheel.py:47-51 | On a wheel stream without left-button events, the actions the wheel loop dispatches leave 'a' pressed iff the right button's last value was nonzero. |
| `Stream.LeftButtonLeavesAHeld` | wheel.py:42-46 | Left button down then up logs `[Press(A), Release(B)]`. That leaves 'a' held and 'b' released. |
| `Stream.RightButtonSequence` | wheel.py:47-51 | Right button values 1, 0, 1 log press, release, press of 'a', in that order. |
| `Stream.AcceleratorSequence` | wheel.py:59-63 | ABS_X values 127 then 0 log press then release of 'a'. |
| `Dispatch.ControllerState.constructor` | wheel.py:86 | A fresh controller state has an empty action log. |
| `Dispatch.ControllerState.ButtonPress` | wheel.py:17 | `button_press` appends exactly one press of the label to the log. |
| `Dispatch.ControllerState.ButtonRelease` | wheel.py:17 | `button_release` appends exactly one release of the label to the log. |
| `Dispatch.ControllerState.CmdStick` | wheel.py:53 | `cmd_stick` appends exactly one stick action with the given stick, axis and value. |
| `Dispatch.ControllerState.Perform` | wheel.py:44-53 | A classified action is performed through its matching operation. An unmapped event changes nothing. |
| `Dispatch.Buttons` | wheel.py:38-53 | The wheel loop appends to the shared log exactly `Collect(Wheel, events)`: the classified actions in event order. |
| `Dispatch.Pedals` | wheel.py:55-68 | The pedal loop appends to the shared log exactly `Collect(Pedal, events)`. |

## Left out

- Opening the devices and the JSIOCGNAME name query (wheel.py:25-36). These are OS I/O. The event streams are parameters here, and only a finite prefix is modelled.
- Controller and HID server setup: `Controller.from_arg`, `controller_protocol_factory`, `FlashMemory`, `create_hid_server` and `ControllerCLI` (wheel.py:72-87). This is code from the joycontrol library, which is not part of this model.
- The internals of `button_press`, `button_release` and `cmd_stick`. They are modelled only as entries appended to the log. `cmd_stick` belongs to the CLI object, which wraps the same controller state, so one sink stands for both.
- The `asyncio.gather` of the two loops and the `while True` restart (wheel.py:89-93). Each loop is modelled on its own. How the two loops interleave on the shared state is not modelled, and neither is restarting after a stream ends.
- Logging setup and the event-loop bootstrap (wheel.py:96-98).
- The evdev field widths (16-bit type and code, signed 32-bit value) are not modelled. Unbounded integers are used, and no arithmetic is done on them.
- Strict press/release alternation per label is not a property of the classifier. The classifier has no state, so a repeated nonzero value presses again. The left button also never releases the 'a' it pressed. Alternation therefore holds only when the hardware alternates, and only per channel. `PedalTracksPosition` and `RightButtonTracksPosition` state the per-channel form that the code does guarantee, over the actions of one loop. On the shared controller state this holds only while the other device leaves the label alone. The wheel also presses 'a' (wheel.py:44, 49) and releases 'b' (wheel.py:46). So a brake press followed by a left-button click leaves 'b' released while the last ABS_Y value is nonzero.
- `Buttons`, `Pedals`: assume that every `button_press`, `button_release` and `cmd_stick` call returns. Each call is awaited inside the loop with no `try` (wheel.py:44-53, 61-68). A call that raises would end that loop, and the error would leave `_main` through the `gather` (wheel.py:90-93). The log would then hold only the actions of a prefix of the events, not all of `Collect(events)`.
