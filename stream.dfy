/**
 * What a device loop emits over a finite prefix of its event stream: the
 * classified actions in event order, unmapped events contributing nothing,
 * and what that leaves the controller's buttons holding.
 */
module Stream {
  import opened Wrappers
  import opened Events
  import opened Classifier

  /** The actions a device loop dispatches for `events`, in order (a filter-map of the classifier). */
  function Collect(d: Device, events: seq<Event>): (log: seq<Action>)
    ensures |log| <= |events|
  {
    if events == [] then []
    else Collect(d, events[..|events| - 1]) + Classify(d, events[|events| - 1]).ToSeq()
  }

  /** Processing two stretches of a stream one after the other logs their actions one after the other. */
  lemma {:induction false} CollectAppend(d: Device, a: seq<Event>, b: seq<Event>)
    ensures Collect(d, a + b) == Collect(d, a) + Collect(d, b)
    decreases |b|
  {
    if b == [] {
      assert a + b == a;
    } else {
      var b' := b[..|b| - 1];
      assert (a + b)[..|a + b| - 1] == a + b';
      assert (a + b)[|a + b| - 1] == b[|b| - 1];
      CollectAppend(d, a, b');
    }
  }

  /**
   * One event in the middle of a stream contributes exactly its own action (or
   * nothing, if it is unmapped), between those of the events before and after it.
   */
  lemma CollectSplit(d: Device, a: seq<Event>, e: Event, b: seq<Event>)
    ensures Collect(d, a + [e] + b) == Collect(d, a) + Classify(d, e).ToSeq() + Collect(d, b)
  {
    CollectAppend(d, a + [e], b);
    CollectAppend(d, a, [e]);
    assert [e][..0] == [];
  }

  /** A stream logs nothing exactly when none of its events is mapped. */
  lemma {:induction false} CollectEmpty(d: Device, s: seq<Event>)
    ensures Collect(d, s) == [] <==> forall i :: 0 <= i < |s| ==> Classify(d, s[i]).None?
  {
    if s != [] {
      var s' := s[..|s| - 1];
      CollectEmpty(d, s');
      assert forall i :: 0 <= i < |s'| ==> s'[i] == s[i];
    }
  }

  /**
   * Order is preserved: the k-th logged action is the action of some event i,
   * and exactly k actions come from the events before i.
   */
  lemma {:induction false} CollectOrigin(d: Device, s: seq<Event>, k: nat)
    requires k < |Collect(d, s)|
    ensures exists i :: 0 <= i < |s| && Classify(d, s[i]) == Some(Collect(d, s)[k]) && |Collect(d, s[..i])| == k
  {
    var s' := s[..|s| - 1];
    var last := s[|s| - 1];
    if k < |Collect(d, s')| {
      CollectOrigin(d, s', k);
      var i :| 0 <= i < |s'| && Classify(d, s'[i]) == Some(Collect(d, s')[k]) && |Collect(d, s'[..i])| == k;
      assert s'[..i] == s[..i];
      assert Classify(d, s[i]) == Some(Collect(d, s)[k]);
    } else {
      assert s[..|s| - 1] == s';
      assert Classify(d, s[|s| - 1]) == Some(Collect(d, s)[k]);
    }
  }

  /** Conversely, every mapped event i has its action logged, right after those of the events before it. */
  lemma CollectPosition(d: Device, s: seq<Event>, i: nat)
    requires i < |s| && Classify(d, s[i]).Some?
    ensures |Collect(d, s[..i])| < |Collect(d, s)|
    ensures Collect(d, s)[|Collect(d, s[..i])|] == Classify(d, s[i]).value
  {
    assert s == s[..i] + [s[i]] + s[i + 1..];
    CollectSplit(d, s[..i], s[i], s[i + 1..]);
  }

  /** The pedals never move a stick. */
  lemma {:induction false} PedalsNeverMoveStick(s: seq<Event>)
    ensures forall a :: a in Collect(Pedal, s) ==> !a.Stick?
  {
    if s != [] {
      PedalsNeverMoveStick(s[..|s| - 1]);
    }
  }

  /** The wheel presses only 'a': label 'b' is released by the left button but never pressed. */
  lemma {:induction false} WheelNeverPressesB(s: seq<Event>)
    ensures Press(B) !in Collect(Wheel, s)
  {
    if s != [] {
      WheelNeverPressesB(s[..|s| - 1]);
    }
  }

  /**
   * The wheel moves only the left stick's horizontal axis, and it is moved to
   * exactly the values that its absolute-axis events carry.
   */
  lemma {:induction false} WheelSteeringValues(s: seq<Event>, v: int)
    ensures forall a :: a in Collect(Wheel, s) && a.Stick? ==> a.stick == L && a.axis == Horizontal
    ensures Stick(L, Horizontal, v) in Collect(Wheel, s) <==>
      exists i :: 0 <= i < |s| && s[i].kind == EV_ABS && s[i].value == v
  {
    if s != [] {
      var s' := s[..|s| - 1];
      WheelSteeringValues(s', v);
      assert forall i :: 0 <= i < |s'| ==> s'[i] == s[i];
    }
  }

  // ---------------------------------------------------------------------
  // What the log leaves each controller button holding.

  /** Whether the last press or release of `b` in `log` was a press; None if `b` was never touched. */
  function Held(b: Button, log: seq<Action>): Option<bool> {
    if log == [] then None
    else
      var a := log[|log| - 1];
      if (a.Press? || a.Release?) && a.button == b then Some(a.Press?)
      else Held(b, log[..|log| - 1])
  }

  /** The value of the last event of the given type and code, if there is one. */
  function LastValue(s: seq<Event>, kind: int, code: int): Option<int> {
    if s == [] then None
    else if s[|s| - 1].kind == kind && s[|s| - 1].code == code then Some(s[|s| - 1].value)
    else LastValue(s[..|s| - 1], kind, code)
  }

  /** Whether a channel whose last value is `last` reads as depressed (Python truthiness). */
  function Depressed(last: Option<int>): Option<bool> {
    match last
    case None => None
    case Some(v) => Some(Truthy(v))
  }

  lemma HeldAppend(b: Button, log: seq<Action>, extra: seq<Action>)
    requires |extra| <= 1
    ensures Held(b, log + extra) ==
      if extra != [] && (extra[0].Press? || extra[0].Release?) && extra[0].button == b
      then Some(extra[0].Press?) else Held(b, log)
  {
    if extra == [] {
      assert log + extra == log;
    } else {
      assert (log + extra)[..|log + extra| - 1] == log;
    }
  }

  /**
   * After any stream, the actions the pedal loop dispatches leave 'a' (resp.
   * 'b') pressed exactly when the last ABS_X (resp. ABS_Y) value was nonzero.
   * This speaks of the pedal loop's own actions only: on the shared controller
   * state the wheel also presses 'a' and releases 'b'.
   */
  lemma {:induction false} PedalTracksPosition(s: seq<Event>, code: int)
    requires code == ABS_X || code == ABS_Y
    ensures Held(if code == ABS_X then A else B, Collect(Pedal, s)) == Depressed(LastValue(s, EV_ABS, code))
  {
    if s != [] {
      var s' := s[..|s| - 1];
      PedalTracksPosition(s', code);
      HeldAppend(if code == ABS_X then A else B, Collect(Pedal, s'), ClassifyPedal(s[|s| - 1]).ToSeq());
    }
  }

  /**
   * On a wheel stream without left-button events, the actions the wheel loop
   * dispatches leave 'a' pressed exactly when the right button's last value
   * was nonzero. This speaks of the wheel loop's own actions only: on the
   * shared controller state the accelerator pedal also presses and releases 'a'.
   */
  lemma {:induction false} RightButtonTracksPosition(s: seq<Event>)
    requires forall i :: 0 <= i < |s| ==> !(s[i].kind == EV_KEY && s[i].code == BTN_SELECT)
    ensures Held(A, Collect(Wheel, s)) == Depressed(LastValue(s, EV_KEY, BTN_START))
  {
    if s != [] {
      var s' := s[..|s| - 1];
      assert forall i :: 0 <= i < |s'| ==> s'[i] == s[i];
      RightButtonTracksPosition(s');
      HeldAppend(A, Collect(Wheel, s'), ClassifyWheel(s[|s| - 1]).ToSeq());
    }
  }

  /**
   * The left-button asymmetry: pressing and letting go of the left button
   * leaves 'a' held and 'b' released.
   */
  lemma LeftButtonLeavesAHeld()
    ensures Collect(Wheel, [Event(EV_KEY, BTN_SELECT, 1), Event(EV_KEY, BTN_SELECT, 0)]) == [Press(A), Release(B)]
    ensures Held(A, [Press(A), Release(B)]) == Some(true)
    ensures Held(B, [Press(A), Release(B)]) == Some(false)
  {
  }

  /** Press, release, press on the right button dispatch press, release, press of 'a', in that order. */
  lemma RightButtonSequence()
    ensures Collect(Wheel, [Event(EV_KEY, BTN_START, 1), Event(EV_KEY, BTN_START, 0), Event(EV_KEY, BTN_START, 1)])
      == [Press(A), Release(A), Press(A)]
  {
    var s := [Event(EV_KEY, BTN_START, 1), Event(EV_KEY, BTN_START, 0), Event(EV_KEY, BTN_START, 1)];
    assert [s[0]][..0] == [];
    assert Collect(Wheel, [s[0]]) == [Press(A)];
    assert [s[0], s[1]][..1] == [s[0]];
    assert Collect(Wheel, [s[0], s[1]]) == [Press(A), Release(A)];
    assert s[..2] == [s[0], s[1]];
  }

  /** A partly pressed accelerator, then let go: press then release of 'a'. */
  lemma AcceleratorSequence()
    ensures Collect(Pedal, [Event(EV_ABS, ABS_X, 127), Event(EV_ABS, ABS_X, 0)]) == [Press(A), Release(A)]
  {
  }
}
