/**
 * Gamepad bookkeeping (src/gamepad.rs): which pads have been used, which
 * buttons were pressed this tick, when input last arrived, and the
 * left-stick-to-d-pad quantisation filter.
 *
 * The gilrs event queue is a sequence of events as they leave the filter
 * chain; the pads' names are a function of their ids; the clock is the
 * caller's `now` in nanoseconds.
 */
module Gamepad {
  import opened Buttons
  import opened Toasts
  import opened Clock

  datatype Axis = LeftStickX | LeftStickY | LeftZ | RightStickX | RightStickY | RightZ | DPadX | DPadY | UnknownAxis

  /** gilrs's `EventType`; the variants the overlay does not match are folded into `Other`. */
  datatype EventType =
    | ButtonPressed(button: Button)
    | ButtonRepeated(button: Button)
    | ButtonReleased(button: Button)
    | AxisChanged(axis: Axis, value: real)
    | Connected
    | Disconnected
    | Other

  datatype RawEvent = RawEvent(id: nat, event: EventType)

  /** The event `update` reports to the older main loop: `crate::Event`. */
  datatype Event = NoEvent | ToastEvent(toast: Toast) | LastDisconnected

  datatype State = State(justPressed: seq<Button>, lastInput: int, used: seq<nat>)

  /** The stick threshold the filter chain is built with. */
  const Threshold: real := 0.3

  /** Snaps a stick deflection to -1, 0 or 1. */
  function Quantise(value: real, threshold: real): (q: real)
    ensures q == -1.0 || q == 0.0 || q == 1.0
    ensures q == -1.0 <==> value < -threshold
    ensures q == 1.0 <==> !(value < -threshold) && value > threshold
    ensures q == 0.0 <==> -threshold <= value <= threshold
  {
    if value < -threshold then -1.0 else if value > threshold then 1.0 else 0.0
  }

  /** Pushing the stick further never snaps to a smaller d-pad value. */
  lemma QuantiseMonotone(a: real, b: real, threshold: real)
    requires a <= b
    ensures Quantise(a, threshold) <= Quantise(b, threshold)
  {
  }

  /** With a non-negative threshold (the program uses 0.3) the snap is symmetric, and snapped values below 1 stay put. */
  lemma QuantiseOdd(value: real, threshold: real)
    requires threshold >= 0.0
    ensures Quantise(-value, threshold) == -Quantise(value, threshold)
    ensures threshold < 1.0 ==> Quantise(Quantise(value, threshold), threshold) == Quantise(value, threshold)
  {
  }

  /** `LeftStickToDPad::filter`: left-stick axes become d-pad axes with snapped values; all else passes through. */
  function LeftStickToDPad(ev: RawEvent, threshold: real): (r: RawEvent)
    ensures r.id == ev.id
    ensures ev.event.AxisChanged? && ev.event.axis == LeftStickX ==>
              r.event == AxisChanged(DPadX, Quantise(ev.event.value, threshold))
    ensures ev.event.AxisChanged? && ev.event.axis == LeftStickY ==>
              r.event == AxisChanged(DPadY, Quantise(ev.event.value, threshold))
    ensures !(ev.event.AxisChanged? && ev.event.axis in {LeftStickX, LeftStickY}) ==> r == ev
  {
    match ev.event
    case AxisChanged(LeftStickX, v) => RawEvent(ev.id, AxisChanged(DPadX, Quantise(v, threshold)))
    case AxisChanged(LeftStickY, v) => RawEvent(ev.id, AxisChanged(DPadY, Quantise(v, threshold)))
    case _ => ev
  }

  /** Filtering twice changes nothing more: quantised d-pad events pass through untouched. */
  lemma LeftStickToDPadIdempotent(ev: RawEvent, threshold: real)
    ensures LeftStickToDPad(LeftStickToDPad(ev, threshold), threshold) == LeftStickToDPad(ev, threshold)
  {
  }

  predicate NoDuplicates(ids: seq<nat>) {
    forall i, j :: 0 <= i < j < |ids| ==> ids[i] != ids[j]
  }

  /** Adds a pad to the used list unless it is already there. */
  function Register(used: seq<nat>, id: nat): (r: seq<nat>)
    ensures id in r && |r| > 0
    ensures forall x :: x in r <==> x in used || x == id
    ensures NoDuplicates(used) ==> NoDuplicates(r)
    ensures id in used ==> r == used
  {
    if id in used then used else used + [id]
  }

  /** `retain(|g| g != id)`. */
  function Remove(used: seq<nat>, id: nat): (r: seq<nat>)
    ensures forall x :: x in r <==> x in used && x != id
    ensures NoDuplicates(used) ==> NoDuplicates(r)
    ensures |r| <= |used|
    decreases |used|
  {
    if |used| == 0 then []
    else if used[0] == id then Remove(used[1..], id)
    else
      var rest := Remove(used[1..], id);
      assert NoDuplicates(used) ==> used[0] !in rest by {
        if NoDuplicates(used) {
          assert forall k :: 0 <= k < |used| - 1 ==> used[1..][k] == used[k + 1] != used[0];
        }
      }
      [used[0]] + rest
  }

  /** Removing the only pad there is leaves nothing. */
  lemma {:induction false} RemoveOnly(used: seq<nat>, id: nat)
    requires forall x :: x in used ==> x == id
    ensures Remove(used, id) == []
    decreases |used|
  {
    if |used| > 0 {
      assert used[0] in used;
      assert forall x :: x in used[1..] ==> x in used;
      RemoveOnly(used[1..], id);
    }
  }

  /** The button an event presses or repeats, if any. */
  function PressOf(e: EventType): (r: seq<Button>)
    ensures r == (if e.ButtonPressed? || e.ButtonRepeated? then [e.button] else [])
  {
    match e
    case ButtonPressed(b) => [b]
    case ButtonRepeated(b) => [b]
    case _ => []
  }

  /** The buttons that a run of events presses or repeats, in order. */
  function Presses(events: seq<RawEvent>): seq<Button>
    decreases |events|
  {
    if |events| == 0 then [] else PressOf(events[0].event) + Presses(events[1..])
  }

  predicate Returns(e: EventType) {
    e.Connected? || e.Disconnected?
  }

  /** What `update` leaves behind: the new state, its result, and the events it did not take. */
  datatype Tick = Tick(state: State, event: Event, rest: seq<RawEvent>)

  /**
   * The connect and disconnect arms, which end the loop: a connect reports
   * its pad; a disconnect forgets its pad and reports either that pad or,
   * when none is left, that the last one went away.
   */
  function Notify(st1: State, ev: RawEvent, rest: seq<RawEvent>, name: nat -> string): (t: Tick)
    requires Returns(ev.event)
    ensures t.rest == rest && !t.event.NoEvent?
    ensures t.state.justPressed == st1.justPressed && t.state.lastInput == st1.lastInput
    ensures ev.event.Connected? ==> t.state == st1 && t.event == ToastEvent(GamepadConnected(name(ev.id)))
    ensures ev.event.Disconnected? ==>
              t.state.used == Remove(st1.used, ev.id) &&
              t.event == (if |t.state.used| == 0 then LastDisconnected
                          else ToastEvent(GamepadDisconnected(name(ev.id))))
    ensures NoDuplicates(st1.used) ==> NoDuplicates(t.state.used)
  {
    if ev.event.Connected? then Tick(st1, ToastEvent(GamepadConnected(name(ev.id))), rest)
    else
      var used := Remove(st1.used, ev.id);
      if |used| == 0 then Tick(st1.(used := used), LastDisconnected, rest)
      else Tick(st1.(used := used), ToastEvent(GamepadDisconnected(name(ev.id))), rest)
  }

  /**
   * The `while let` loop of `update`: every event registers its pad and
   * refreshes the input time; presses and repeats are collected; a connect
   * or disconnect ends the loop with its notification.
   */
  function Process(st: State, events: seq<RawEvent>, name: nat -> string, now: int): (t: Tick)
    ensures |t.rest| <= |events| && t.rest == events[|events| - |t.rest|..]
    ensures var taken := events[..|events| - |t.rest|];
            t.state.justPressed == st.justPressed + Presses(taken) &&
            (forall i :: 0 <= i < |taken| - 1 ==> !Returns(taken[i].event)) &&
            (t.event.NoEvent? <==> t.rest == [] && (|taken| == 0 || !Returns(taken[|taken| - 1].event))) &&
            (t.event.NoEvent? ==> taken == events) &&
            (|taken| > 0 ==> t.state.lastInput == now) &&
            (|taken| == 0 ==> t.state == st)
    ensures NoDuplicates(st.used) ==> NoDuplicates(t.state.used)
    decreases |events|
  {
    if |events| == 0 then Tick(st, NoEvent, [])
    else
      var ev := events[0];
      if Returns(ev.event) then
        assert events[..1] == [ev];
        Notify(st.(used := Register(st.used, ev.id), lastInput := now), ev, events[1..], name)
      else ProcessRest(st, events, name, now)
  }

  /**
   * The loop after an event that does not end it: that event registers its
   * pad, refreshes the input time and adds its press, and the loop goes on
   * with the rest.
   */
  function ProcessRest(st: State, events: seq<RawEvent>, name: nat -> string, now: int): (t: Tick)
    requires |events| > 0 && !Returns(events[0].event)
    ensures |t.rest| < |events| && t.rest == events[|events| - |t.rest|..]
    ensures var taken := events[..|events| - |t.rest|];
            t.state.justPressed == st.justPressed + Presses(taken) &&
            (forall i :: 0 <= i < |taken| - 1 ==> !Returns(taken[i].event)) &&
            (t.event.NoEvent? <==> t.rest == [] && !Returns(taken[|taken| - 1].event)) &&
            (t.event.NoEvent? ==> taken == events) &&
            t.state.lastInput == now
    ensures NoDuplicates(st.used) ==> NoDuplicates(t.state.used)
    decreases |events|, 0
  {
    var ev := events[0];
    var st1 := st.(used := Register(st.used, ev.id), lastInput := now, justPressed := st.justPressed + PressOf(ev.event));
    var t := Process(st1, events[1..], name, now);
    var taken := events[..|events| - |t.rest|];
    var inner := events[1..][..|events| - 1 - |t.rest|];
    assert taken == [ev] + inner;
    assert taken[1..] == inner;
    assert |inner| > 0 ==> taken[|taken| - 1] == inner[|inner| - 1];
    assert Presses(taken) == PressOf(ev.event) + Presses(inner);
    t
  }

  /** `update()`: clears this tick's presses, then runs the event loop. */
  function Update(st: State, events: seq<RawEvent>, name: nat -> string, now: int): (t: Tick)
    ensures t == Process(st.(justPressed := []), events, name, now)
  {
    Process(st.(justPressed := []), events, name, now)
  }

  /** `inactive_for(d)`: strictly more than `d` has passed since the last input. */
  predicate InactiveFor(st: State, d: nat, now: int) {
    Elapsed(now, st.lastInput) > d
  }

  /** The timeout fires only once the clock is strictly past the last input plus `d`; at exactly `d` it does not. */
  lemma InactiveForStrict(st: State, d: nat, now: int)
    ensures InactiveFor(st, d, now) <==> now > st.lastInput + d
    ensures !InactiveFor(st, d, st.lastInput + d)
  {
  }

  /**
   * Registration precedes the match, so a disconnect always finds the used
   * list non-empty: the early `continue` for an empty list never runs. The
   * result is `LastGamepadDisconnected` exactly when no other pad remains.
   */
  lemma DisconnectOutcome(st: State, id: nat, more: seq<RawEvent>, name: nat -> string, now: int)
    ensures |Register(st.used, id)| > 0
    ensures var t := Process(st, [RawEvent(id, Disconnected)] + more, name, now);
            t.rest == more &&
            id !in t.state.used &&
            (t.event == LastDisconnected <==> forall x :: x in st.used ==> x == id) &&
            (t.event != LastDisconnected ==> t.event == ToastEvent(GamepadDisconnected(name(id))))
  {
    var events := [RawEvent(id, Disconnected)] + more;
    assert events[0] == RawEvent(id, Disconnected);
    assert events[1..] == more;
    var used := Remove(Register(st.used, id), id);
    if forall x :: x in st.used ==> x == id {
      RemoveOnly(Register(st.used, id), id);
    } else {
      var y :| y in st.used && y != id;
      assert y in used;
    }
  }

  /** Without a connect or a disconnect the loop drains the whole queue and reports nothing. */
  lemma {:induction false} ProcessDrains(st: State, events: seq<RawEvent>, name: nat -> string, now: int)
    requires forall i :: 0 <= i < |events| ==> !Returns(events[i].event)
    ensures Process(st, events, name, now).rest == []
    ensures Process(st, events, name, now).event.NoEvent?
    decreases |events|
  {
    if |events| > 0 {
      var st2 := st.(used := Register(st.used, events[0].id), lastInput := now,
                     justPressed := st.justPressed + PressOf(events[0].event));
      assert Process(st, events, name, now) == ProcessRest(st, events, name, now);
      assert ProcessRest(st, events, name, now) == Process(st2, events[1..], name, now);
      ProcessDrains(st2, events[1..], name, now);
    }
  }
}
