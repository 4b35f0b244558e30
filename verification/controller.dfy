/**
 * The gamepad listener's event decoder (`ControllerListener.process_event` in
 * lib/overlay.py): analogue triggers and the left stick are turned into
 * one-shot signals by latches, and button presses into single-button signals
 * or the two chords. The polling thread and the input library are left out;
 * events arrive as values.
 */
module Controller {
  import opened Wrappers

  const JoystickDeadzone := 8192
  const TriggerThreshold := 128

  datatype AxisCode = HatY | HatX | StickY | StickX | LeftTrigger | RightTrigger | OtherAxis

  datatype ButtonCode = South | East | LeftBumper | RightBumper | LeftThumb | RightThumb | OtherButton

  /** An `Absolute` or `Key` event with its state, or any other event type. */
  datatype Event = Absolute(axis: AxisCode, state: int) | Key(button: ButtonCode, state: int) | OtherEvent

  datatype Signal =
    | DpadY(value: int)
    | DpadX(value: int)
    | JoystickY(direction: int)
    | JoystickX(direction: int)
    | TriggerPressed(direction: int)
    | SyncCombo
    | ToggleOverlayCombo
    | ButtonA
    | ButtonB
    | BumperPressed(direction: int)

  /** The listener's flags: the held buttons, whether the left stick is held
      up, and the four latches. */
  datatype Latches = Latches(
    lBumper: bool, rBumper: bool, lThumb: bool, rThumb: bool,
    stickUp: bool, joyY: bool, joyX: bool, lt: bool, rt: bool)

  const Released := Latches(false, false, false, false, false, false, false, false, false)

  datatype Outcome = Outcome(latches: Latches, signal: Option<Signal>)

  /** A stick position strictly inside the deadzone, where its latch re-arms. */
  predicate InDeadzone(state: int) {
    -JoystickDeadzone < state < JoystickDeadzone
  }

  /** One stick axis: a push beyond the deadzone emits its direction once, and
      the latch re-arms only back inside the deadzone. */
  function StickAxis(latched: bool, state: int): (r: AxisStep)
    ensures r.signal.Some? <==> !latched && (state < -JoystickDeadzone || state > JoystickDeadzone)
    ensures r.signal.Some? ==> r.signal.value == (if state < 0 then -1 else 1) && r.latched
    ensures r.signal.None? ==> (r.latched <==> latched && !InDeadzone(state))
  {
    if state < -JoystickDeadzone && !latched then AxisStep(true, Some(-1))
    else if state > JoystickDeadzone && !latched then AxisStep(true, Some(1))
    else if InDeadzone(state) then AxisStep(false, None)
    else AxisStep(latched, None)
  }

  /** A latch's new value and the direction it emits, if any. */
  datatype AxisStep = AxisStep(latched: bool, signal: Option<int>)

  /** One analogue trigger: rising above the threshold emits once, and the
      latch re-arms only below it. */
  function TriggerAxis(pressed: bool, state: int): (r: AxisStep)
    ensures r.signal.Some? <==> !pressed && state > TriggerThreshold
    ensures r.latched <==> state > TriggerThreshold || (pressed && state == TriggerThreshold)
  {
    if state > TriggerThreshold && !pressed then AxisStep(true, Some(1))
    else if state < TriggerThreshold then AxisStep(false, None)
    else AxisStep(pressed, None)
  }

  /** The `Absolute` branch of `process_event`. */
  function ProcessAxis(c: Latches, axis: AxisCode, state: int): (r: Outcome)
    ensures r.latches.lBumper == c.lBumper && r.latches.rBumper == c.rBumper
    ensures r.latches.lThumb == c.lThumb && r.latches.rThumb == c.rThumb
  {
    match axis
    case HatY => Outcome(c, Some(DpadY(state)))
    case HatX => Outcome(c, Some(DpadX(state)))
    case StickY =>
      var up := state < -JoystickDeadzone;
      var a := StickAxis(c.joyY, state);
      Outcome(c.(stickUp := up, joyY := a.latched), if a.signal.Some? then Some(JoystickY(a.signal.value)) else None)
    case StickX =>
      var a := StickAxis(c.joyX, state);
      Outcome(c.(joyX := a.latched), if a.signal.Some? then Some(JoystickX(a.signal.value)) else None)
    case LeftTrigger =>
      var a := TriggerAxis(c.lt, state);
      Outcome(c.(lt := a.latched), if a.signal.Some? then Some(TriggerPressed(-1)) else None)
    case RightTrigger =>
      var a := TriggerAxis(c.rt, state);
      Outcome(c.(rt := a.latched), if a.signal.Some? then Some(TriggerPressed(1)) else None)
    case OtherAxis => Outcome(c, None)
  }

  /** The held-button flags after a `Key` event. */
  function Hold(c: Latches, b: ButtonCode, pressed: bool): Latches {
    match b
    case LeftBumper => c.(lBumper := pressed)
    case RightBumper => c.(rBumper := pressed)
    case LeftThumb => c.(lThumb := pressed)
    case RightThumb => c.(rThumb := pressed)
    case _ => c
  }

  /** Either stick click while the left bumper is held, or one stick click
      while the other stick is held. */
  predicate Sync(h: Latches, b: ButtonCode) {
    || (h.lBumper && (b == LeftThumb || b == RightThumb))
    || (h.lThumb && b == RightThumb)
    || (h.rThumb && b == LeftThumb)
  }

  /** East while the left bumper is held and the left stick is pushed up. */
  predicate Toggle(h: Latches, b: ButtonCode) {
    h.lBumper && b == East && h.stickUp
  }

  /** The signal of a button on its own. */
  function Single(b: ButtonCode): Option<Signal> {
    match b
    case South => Some(ButtonA)
    case East => Some(ButtonB)
    case LeftBumper => Some(BumperPressed(-1))
    case RightBumper => Some(BumperPressed(1))
    case _ => None
  }

  /** The `Key` branch of `process_event`. */
  function ProcessKey(c: Latches, b: ButtonCode, state: int): (r: Outcome)
    ensures r.latches == Hold(c, b, state == 1)
  {
    var h := Hold(c, b, state == 1);
    if state != 1 then Outcome(h, None)
    else if Sync(h, b) then Outcome(h, Some(SyncCombo))
    else if Toggle(h, b) then Outcome(h, Some(ToggleOverlayCombo))
    else Outcome(h, Single(b))
  }

  /** `process_event`. */
  function Process(c: Latches, e: Event): Outcome {
    match e
    case Absolute(axis, state) => ProcessAxis(c, axis, state)
    case Key(b, state) => ProcessKey(c, b, state)
    case OtherEvent => Outcome(c, None)
  }

  /** On a button press the chord to resync comes first, then the overlay
      toggle, then the button's own signal. The chords are judged on the held
      flags after the press is recorded. */
  lemma {:induction false} KeyPriority(c: Latches, b: ButtonCode)
    ensures var h := Hold(c, b, true);
      var r := Process(c, Key(b, 1));
      && (Sync(h, b) ==> r.signal == Some(SyncCombo))
      && (!Sync(h, b) && Toggle(h, b) ==> r.signal == Some(ToggleOverlayCombo))
      && (!Sync(h, b) && !Toggle(h, b) ==> r.signal == Single(b))
  {
  }

  /** A release emits nothing; it clears the released button's held flag and
      leaves every other flag and latch as it was. */
  lemma {:induction false} ReleaseOnlyHolds(c: Latches, b: ButtonCode, state: int)
    requires state != 1
    ensures var r := Process(c, Key(b, state));
      && r.signal.None?
      && r.latches == Hold(c, b, false)
      && r.latches.stickUp == c.stickUp && r.latches.joyY == c.joyY && r.latches.joyX == c.joyX
      && r.latches.lt == c.lt && r.latches.rt == c.rt
  {
  }

  /** Pressing a stick while holding the left bumper always resyncs, and
      pressing the left bumper itself never does. */
  lemma {:induction false} SyncChords(c: Latches)
    ensures c.lBumper ==> Process(c, Key(LeftThumb, 1)).signal == Some(SyncCombo)
    ensures c.lBumper ==> Process(c, Key(RightThumb, 1)).signal == Some(SyncCombo)
    ensures Process(c, Key(LeftBumper, 1)).signal == Some(BumperPressed(-1))
  {
  }

  // ---------------------------------------------------------------- sequences

  /** The signals emitted for a run of events, in order, and the final flags. */
  function Run(c: Latches, es: seq<Event>): (r: (Latches, seq<Option<Signal>>))
    ensures |r.1| == |es|
    decreases |es|
  {
    if |es| == 0 then (c, [])
    else
      var o := Process(c, es[0]);
      var rest := Run(o.latches, es[1..]);
      (rest.0, [o.signal] + rest.1)
  }

  /** Processing a run of events in two parts is processing it whole: the
      second part starts from the flags the first left. */
  lemma {:induction false} RunConcat(c: Latches, a: seq<Event>, b: seq<Event>)
    ensures var ra := Run(c, a);
      var rb := Run(ra.0, b);
      Run(c, a + b) == (rb.0, ra.1 + rb.1)
    decreases |a|
  {
    if |a| == 0 {
      assert a + b == b;
      assert Run(c, a).1 + Run(c, b).1 == Run(c, b).1;
    } else {
      var o := Process(c, a[0]);
      assert (a + b)[0] == a[0];
      assert (a + b)[1..] == a[1..] + b;
      RunConcat(o.latches, a[1..], b);
      var ra := Run(o.latches, a[1..]);
      var rb := Run(ra.0, b);
      assert Run(c, a) == (ra.0, [o.signal] + ra.1);
      assert Run(c, a + b) == (rb.0, [o.signal] + (ra.1 + rb.1));
      assert [o.signal] + (ra.1 + rb.1) == ([o.signal] + ra.1) + rb.1;
    }
  }

  /** The `i`-th signal is what the `i`-th event produces from the flags the
      earlier events left. */
  lemma {:induction false} RunAt(c: Latches, es: seq<Event>, i: nat)
    requires i < |es|
    ensures Run(c, es).1[i] == Process(Run(c, es[..i]).0, es[i]).signal
  {
    assert es == es[..i] + es[i..];
    RunConcat(c, es[..i], es[i..]);
    assert es[i..][0] == es[i];
  }

  /** How many of the signals are `s`. */
  function Count(sigs: seq<Option<Signal>>, s: Signal): nat {
    if |sigs| == 0 then 0 else (if sigs[0] == Some(s) then 1 else 0) + Count(sigs[1..], s)
  }

  /** Left-trigger readings that never drop below the threshold. */
  predicate HeldTrigger(es: seq<Event>) {
    forall i :: 0 <= i < |es| ==> es[i].Absolute? && es[i].axis == LeftTrigger && es[i].state >= TriggerThreshold
  }

  /** However long the left trigger stays down, it fires at most once, and not
      at all when its latch was already set. */
  lemma {:induction false} TriggerFiresOnce(c: Latches, es: seq<Event>)
    requires HeldTrigger(es)
    ensures Count(Run(c, es).1, TriggerPressed(-1)) <= 1
    ensures c.lt ==> Count(Run(c, es).1, TriggerPressed(-1)) == 0
    ensures |es| > 0 && es[|es| - 1].state > TriggerThreshold ==> Run(c, es).0.lt
    decreases |es|
  {
    if |es| > 0 {
      var o := Process(c, es[0]);
      assert HeldTrigger(es[1..]) by {
        forall i | 0 <= i < |es| - 1
          ensures es[1..][i].Absolute? && es[1..][i].axis == LeftTrigger && es[1..][i].state >= TriggerThreshold
        {
          assert es[1..][i] == es[i + 1];
        }
      }
      TriggerFiresOnce(o.latches, es[1..]);
      if |es| == 1 {
        assert es[|es| - 1] == es[0];
      } else {
        assert es[1..][|es[1..]| - 1] == es[|es| - 1];
      }
    }
  }

  /** Readings of the left stick's vertical axis that never come back inside
      the deadzone. */
  predicate StickOutside(es: seq<Event>) {
    forall i :: 0 <= i < |es| ==> es[i].Absolute? && es[i].axis == StickY && !InDeadzone(es[i].state)
  }

  /** How many of the signals come from the left stick's vertical axis. */
  function CountStickY(sigs: seq<Option<Signal>>): nat {
    if |sigs| == 0 then 0
    else (if sigs[0].Some? && sigs[0].value.JoystickY? then 1 else 0) + CountStickY(sigs[1..])
  }

  /** While the stick stays out of the deadzone it signals at most once, even
      when it swings straight from one side to the other; with the latch set
      it does not signal at all. */
  lemma {:induction false} StickFiresOnce(c: Latches, es: seq<Event>)
    requires StickOutside(es)
    ensures CountStickY(Run(c, es).1) <= 1
    ensures c.joyY ==> CountStickY(Run(c, es).1) == 0
    decreases |es|
  {
    if |es| > 0 {
      var o := Process(c, es[0]);
      assert StickOutside(es[1..]) by {
        forall i | 0 <= i < |es| - 1
          ensures es[1..][i].Absolute? && es[1..][i].axis == StickY && !InDeadzone(es[1..][i].state)
        {
          assert es[1..][i] == es[i + 1];
        }
      }
      StickFiresOnce(o.latches, es[1..]);
    }
  }

  /** A reading inside the deadzone re-arms the stick, so the next push out of
      it signals again. */
  lemma {:induction false} StickRearms(c: Latches, rest: int, push: int)
    requires InDeadzone(rest) && (push < -JoystickDeadzone || push > JoystickDeadzone)
    ensures var r := Run(c, [Absolute(StickY, rest), Absolute(StickY, push)]);
      r.1[1] == Some(JoystickY(if push < 0 then -1 else 1))
  {
    var o := Process(c, Absolute(StickY, rest));
    assert !o.latches.joyY;
    assert [Absolute(StickY, rest), Absolute(StickY, push)][1..] == [Absolute(StickY, push)];
  }
}
