/**
 * The event classifier: the branches of `buttons` and `pedals` in wheel.py,
 * each mapping one raw event to at most one controller action, together with
 * the mapping table they implement as an independent reference.
 */
module Classifier {
  import opened Wrappers
  import opened Events

  predicate IsWheelButton(code: int) {
    code == BTN_SELECT || code == BTN_START
  }

  /**
   * The wheel device: its two buttons press 'a' on any nonzero value; on value
   * zero the left button (BTN_SELECT) releases 'b' while the right button
   * (BTN_START) releases 'a'. Every absolute-axis event, whatever its code,
   * moves the left stick horizontally to the raw value.
   */
  function ClassifyWheel(e: Event): (r: Option<Action>)
    ensures r.Some? <==> (e.kind == EV_KEY && IsWheelButton(e.code)) || e.kind == EV_ABS
    ensures r.Some? && r.value.Press? <==> e.kind == EV_KEY && IsWheelButton(e.code) && Truthy(e.value)
    ensures r.Some? && r.value.Release? <==> e.kind == EV_KEY && IsWheelButton(e.code) && !Truthy(e.value)
    ensures r.Some? && r.value.Press? ==> r.value.button == A
    ensures r.Some? && r.value.Release? ==> (r.value.button == A <==> e.code == BTN_START)
    ensures r.Some? && r.value.Stick? <==> e.kind == EV_ABS
    ensures r.Some? && r.value.Stick? ==> r.value == Stick(L, Horizontal, e.value)
  {
    if e.kind == EV_KEY then
      if e.code == BTN_SELECT then
        if Truthy(e.value) then Some(Press(A)) else Some(Release(B))
      else if e.code == BTN_START then
        if Truthy(e.value) then Some(Press(A)) else Some(Release(A))
      else None
    else if e.kind == EV_ABS then
      Some(Stick(L, Horizontal, e.value))
    else None
  }

  /**
   * The pedal device: absolute axes ABS_X and ABS_Y are two boolean triggers
   * for 'a' and 'b'; any nonzero value (negative ones included) presses, zero
   * releases. Nothing else maps, and a pedal never moves a stick.
   */
  function ClassifyPedal(e: Event): (r: Option<Action>)
    ensures r.Some? <==> e.kind == EV_ABS && (e.code == ABS_X || e.code == ABS_Y)
    ensures r.Some? ==> !r.value.Stick?
    ensures r.Some? ==> (r.value.Press? <==> Truthy(e.value))
    ensures r.Some? ==> (r.value.button == A <==> e.code == ABS_X)
  {
    if e.kind == EV_ABS then
      if e.code == ABS_X then
        if Truthy(e.value) then Some(Press(A)) else Some(Release(A))
      else if e.code == ABS_Y then
        if Truthy(e.value) then Some(Press(B)) else Some(Release(B))
      else None
    else None
  }

  /** Classification by device, as each device loop applies it. */
  function Classify(d: Device, e: Event): Option<Action> {
    match d
    case Wheel => ClassifyWheel(e)
    case Pedal => ClassifyPedal(e)
  }

  // ---------------------------------------------------------------------
  // The mapping table, as a reference independent of the nested branches.

  /** What a matched channel does with the event's value. */
  datatype Response =
    | Toggle(onPress: Button, onRelease: Button)  // nonzero presses one label, zero releases another
    | Passthrough(stick: StickName, axis: Axis)   // the value goes to a stick axis unchanged

  /** One row of a device's table; `code == None` matches every code of that type. */
  datatype Rule = Rule(kind: int, code: Option<int>, response: Response)

  predicate Matches(rule: Rule, e: Event) {
    rule.kind == e.kind && (rule.code.None? || rule.code.value == e.code)
  }

  function Respond(response: Response, value: int): Action {
    match response
    case Toggle(down, up) => if Truthy(value) then Press(down) else Release(up)
    case Passthrough(stick, axis) => Stick(stick, axis, value)
  }

  /** The action of the first row that matches, if any row does. */
  function Lookup(rules: seq<Rule>, e: Event): (r: Option<Action>)
    ensures r.Some? <==> exists i :: 0 <= i < |rules| && Matches(rules[i], e)
    ensures r.Some? ==>
      exists i :: 0 <= i < |rules| && Matches(rules[i], e) &&
        r.value == Respond(rules[i].response, e.value) &&
        forall j :: 0 <= j < i ==> !Matches(rules[j], e)
  {
    if rules == [] then None
    else if Matches(rules[0], e) then Some(Respond(rules[0].response, e.value))
    else
      var r := Lookup(rules[1..], e);
      assert forall i :: 0 < i < |rules| ==> rules[i] == rules[1..][i - 1];
      r
  }

  const WheelRules: seq<Rule> := [
    Rule(EV_KEY, Some(BTN_SELECT), Toggle(A, B)),
    Rule(EV_KEY, Some(BTN_START), Toggle(A, A)),
    Rule(EV_ABS, None, Passthrough(L, Horizontal))
  ]

  const PedalRules: seq<Rule> := [
    Rule(EV_ABS, Some(ABS_X), Toggle(A, A)),
    Rule(EV_ABS, Some(ABS_Y), Toggle(B, B))
  ]

  /** The wheel's branches agree with its table on every event. */
  lemma WheelFollowsTable(e: Event)
    ensures ClassifyWheel(e) == Lookup(WheelRules, e)
  {
    assert WheelRules[1..][1..] == [WheelRules[2]];
  }

  /** The pedals' branches agree with their table on every event. */
  lemma PedalFollowsTable(e: Event)
    ensures ClassifyPedal(e) == Lookup(PedalRules, e)
  {
  }
}
