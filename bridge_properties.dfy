/** Properties of the bridge over whole sequences of calls: every entry
    point as an input, the state and events a sequence of inputs yields,
    and the lemmas relating several calls (the grab resync, the one-time
    CursorEnter, the readiness gate, the callback setter's return value). */
module BridgeProperties {
  import opened GlfwEvents
  import opened BridgeState

  /** One call into the bridge, with its arguments. */
  datatype Input =
    | SetCallback(kind: Kind, ptr: int)
    | AttachThreadToOther(isAndroid: bool, useQueue: bool)
    | SetInputReady(ready: bool)
    | SetGrabbing(grabbing: bool, xset: int, yset: int)
    | SetShowingWindow(window: int)
    | SendChar(codepoint: JChar)
    | SendCharMods(codepoint: JChar, mods: int)
    | SendCursorPos(x: int, y: int)
    | SendKey(key: int, scancode: int, action: int, mods: int)
    | SendKeycode(keycode: int, keychar: JChar, scancode: int, action: int, mods: int)
    | SendMouseButton(button: int, action: int, mods: int)
    | SendScreenSize(width: int, height: int)
    | SendScroll(xoffset: int, yoffset: int)
  {
    /** One of the nativeSend* entry points. */
    predicate IsSend() {
      || SendChar? || SendCharMods? || SendCursorPos? || SendKey? || SendKeycode?
      || SendMouseButton? || SendScreenSize? || SendScroll?
    }
  }

  /** The state and events of one call. A callback setter's return value
      plays no part here; the setter as written is used, and its new state
      is the corrected setter's too (SettersAgreeOnState). */
  function Apply(s: State, i: Input): Step {
    match i
    case SetCallback(k, p) => Step(SetCallbackAsWritten(s, k, p).next, [])
    case AttachThreadToOther(a, q) => Step(AttachThreadToOtherStep(s, a, q).next, [])
    case SetInputReady(r) => Step(s.(inputReady := r), [])
    case SetGrabbing(g, xs, ys) => Step(SetGrabbingStep(s, g, xs, ys), [])
    case SetShowingWindow(w) => Step(s.(window := w), [])
    case SendChar(c) => CharStep(s, c)
    case SendCharMods(c, m) => CharModsStep(s, c, m)
    case SendCursorPos(x, y) => CursorPosStep(s, x, y)
    case SendKey(k, sc, a, m) => KeyStep(s, k, sc, a, m)
    case SendKeycode(kc, ch, sc, a, m) => KeycodeStep(s, kc, ch, sc, a, m)
    case SendMouseButton(b, a, m) => MouseButtonStep(s, b, a, m)
    case SendScreenSize(w, h) => ScreenSizeStep(s, w, h)
    case SendScroll(xo, yo) => ScrollStep(s, xo, yo)
  }

  /** The final state and all events of a sequence of calls, in order. */
  function Run(s: State, ins: seq<Input>): (r: Step)
    ensures ins == [] ==> r == Step(s, [])
    decreases |ins|
  {
    if ins == [] then Step(s, [])
    else
      var a := Apply(s, ins[0]);
      var b := Run(a.next, ins[1..]);
      Step(b.next, a.emitted + b.emitted)
  }

  // ---------------------------------------------------------------------
  // CursorEnter is delivered at most once

  /** A run of payloads none of which has kind `k` counts no `k`. */
  lemma NoneOfKind(ps: seq<Payload>, k: Kind, kinds: set<Kind>)
    requires k !in kinds
    requires forall j :: 0 <= j < |ps| ==> ps[j].kind in kinds
    ensures Count(ps, k) == 0
  {
  }

  /** CursorPos delivers CursorEnter at most once per call, only while the
      flag is clear, and sets the flag when it does. */
  lemma CursorPosEnter(s: State, x: int, y: int)
    ensures s.cursorEntered ==> CursorPosStep(s, x, y).next.cursorEntered
    ensures Count(Payloads(CursorPosStep(s, x, y).emitted), CursorEnter) <= if s.cursorEntered then 0 else 1
    ensures Count(Payloads(CursorPosStep(s, x, y).emitted), CursorEnter) == 1 ==> CursorPosStep(s, x, y).next.cursorEntered
  {
    if Consumes(s, CursorPos) {
      var e := EnterStep(s);
      var m := MoveStep(e.next, x, y);
      assert CursorPosStep(s, x, y) == Step(m.next, e.emitted + m.emitted);
      PayloadsAppend(e.emitted, m.emitted);
      NoneOfKind(Payloads(m.emitted), CursorEnter, {CursorPos});
      CountAppend(Payloads(e.emitted), Payloads(m.emitted), CursorEnter);
    }
  }

  /** A call that delivers no CursorEnter and leaves the flag alone. */
  predicate EnterNeutral(s: State, r: Step) {
    && r.next.cursorEntered == s.cursorEntered
    && Count(Payloads(r.emitted), CursorEnter) == 0
  }

  /** A single-slot send of any kind but CursorEnter is neutral. */
  lemma GatedSendNeutral(s: State, p: Payload)
    requires p.kind != CursorEnter
    ensures EnterNeutral(s, GatedSend(s, p))
  {
    NoneOfKind(Payloads(GatedSend(s, p).emitted), CursorEnter, {p.kind});
  }

  lemma KeycodeNeutral(s: State, keycode: int, keychar: JChar, scancode: int, action: int, mods: int)
    ensures EnterNeutral(s, KeycodeStep(s, keycode, keychar, scancode, action, mods))
  {
    var r := KeycodeStep(s, keycode, keychar, scancode, action, mods);
    if s.inputReady && Delivers(s) {
      var key := if Present(s, Key) then [Payload(Key, keycode, scancode, action, mods)] else [];
      var chars := if Present(s, CharMods) then [Payload(CharMods, keychar, mods, 0, 0)]
                   else if Present(s, Char) then [Payload(Char, keychar, 0, 0, 0)]
                   else [];
      assert Payloads(r.emitted) == key + chars;
      CountAppend(key, chars, CursorEnter);
    }
  }

  lemma ScreenSizeNeutral(s: State, width: int, height: int)
    ensures EnterNeutral(s, ScreenSizeStep(s, width, height))
  {
    NoneOfKind(Payloads(ScreenSizeStep(s, width, height).emitted), CursorEnter, {FramebufferSize, WindowSize});
  }

  lemma MouseButtonNeutral(s: State, button: int, action: int, mods: int)
    ensures EnterNeutral(s, MouseButtonStep(s, button, action, mods))
  {
    if button != -1 {
      NoneOfKind(Payloads(MouseButtonStep(s, button, action, mods).emitted), CursorEnter, {MouseButton});
    }
  }

  /** Only a CursorPos can deliver CursorEnter, only while the flag is
      clear, and delivering it sets the flag; nothing clears the flag. */
  lemma ApplyEnter(s: State, i: Input)
    ensures s.cursorEntered ==> Apply(s, i).next.cursorEntered
    ensures Count(Payloads(Apply(s, i).emitted), CursorEnter) <= if s.cursorEntered then 0 else 1
    ensures Count(Payloads(Apply(s, i).emitted), CursorEnter) == 1 ==> Apply(s, i).next.cursorEntered
  {
    match i
    case SendCursorPos(x, y) =>
      assert Apply(s, i) == CursorPosStep(s, x, y);
      CursorPosEnter(s, x, y);
    case SendChar(c) =>
      assert Apply(s, i) == GatedSend(s, Payload(Char, c, 0, 0, 0));
      GatedSendNeutral(s, Payload(Char, c, 0, 0, 0));
    case SendCharMods(c, m) =>
      assert Apply(s, i) == GatedSend(s, Payload(CharMods, c, m, 0, 0));
      GatedSendNeutral(s, Payload(CharMods, c, m, 0, 0));
    case SendKey(k, sc, a, m) =>
      assert Apply(s, i) == GatedSend(s, Payload(Key, k, sc, a, m));
      GatedSendNeutral(s, Payload(Key, k, sc, a, m));
    case SendScroll(xo, yo) =>
      assert Apply(s, i) == GatedSend(s, Payload(Scroll, xo, yo, 0, 0));
      GatedSendNeutral(s, Payload(Scroll, xo, yo, 0, 0));
    case SendMouseButton(b, a, m) =>
      assert Apply(s, i) == MouseButtonStep(s, b, a, m);
      MouseButtonNeutral(s, b, a, m);
    case SendKeycode(kc, ch, sc, a, m) =>
      assert Apply(s, i) == KeycodeStep(s, kc, ch, sc, a, m);
      KeycodeNeutral(s, kc, ch, sc, a, m);
    case SendScreenSize(w, h) =>
      assert Apply(s, i) == ScreenSizeStep(s, w, h);
      ScreenSizeNeutral(s, w, h);
    case _ =>
      assert Apply(s, i).emitted == [];
  }

  /** Over any sequence of calls, CursorEnter is delivered at most once,
      and not at all once the cursor counts as entered. */
  lemma {:induction false} CursorEnterAtMostOnce(s: State, ins: seq<Input>)
    ensures s.cursorEntered ==> Run(s, ins).next.cursorEntered
    ensures Count(Payloads(Run(s, ins).emitted), CursorEnter) <= if s.cursorEntered then 0 else 1
    ensures Count(Payloads(Run(s, ins).emitted), CursorEnter) == 1 ==> Run(s, ins).next.cursorEntered
    decreases |ins|
  {
    if ins != [] {
      var a := Apply(s, ins[0]);
      var b := Run(a.next, ins[1..]);
      ApplyEnter(s, ins[0]);
      CursorEnterAtMostOnce(a.next, ins[1..]);
      PayloadsAppend(a.emitted, b.emitted);
      CountAppend(Payloads(a.emitted), Payloads(b.emitted), CursorEnter);
    }
  }

  /** A queued CursorEnter that sendData drops for want of an env still
      sets the flag, so no later call ever delivers CursorEnter. */
  lemma EnterSignalLostWithoutEnv(s: State, x: int, y: int, later: seq<Input>)
    requires Consumes(s, CursorPos) && Present(s, CursorEnter) && !s.cursorEntered
    requires s.useQueue && !s.jni.androidEnv && !s.jni.getEnvSucceeds
    ensures CursorPosStep(s, x, y).emitted == []
    ensures Count(Payloads(Run(s, [SendCursorPos(x, y)] + later).emitted), CursorEnter) == 0
  {
    var first := CursorPosStep(s, x, y);
    CursorPosSpec(s, x, y);
    assert first.next.cursorEntered;
    assert first.emitted == [] by {
      assert Payloads(first.emitted) == [];
    }
    var ins := [SendCursorPos(x, y)] + later;
    assert ins[0] == SendCursorPos(x, y) && ins[1..] == later;
    assert Apply(s, ins[0]) == first;
    var rest := Run(first.next, later);
    assert Run(s, ins) == Step(rest.next, first.emitted + rest.emitted);
    assert first.emitted + rest.emitted == rest.emitted;
    CursorEnterAtMostOnce(first.next, later);
  }

  // ---------------------------------------------------------------------
  // The readiness gate

  /** With input not ready, a call that does not change the readiness
      delivers nothing; a nativeSend* call changes at most the cached
      screen size (in particular, button -1 does not request a resync). */
  lemma ApplyNotReady(s: State, i: Input)
    requires !s.inputReady && !i.SetInputReady?
    ensures Apply(s, i).emitted == [] && !Apply(s, i).next.inputReady
    ensures i.IsSend() ==>
      Apply(s, i).next == s.(savedWidth := Apply(s, i).next.savedWidth, savedHeight := Apply(s, i).next.savedHeight)
  {
  }

  /** Over a sequence of calls none of which sets the readiness, a bridge
      that is not ready delivers nothing, and if every call is a
      nativeSend* call, nothing but the cached screen size changes. */
  lemma {:induction false} NotReadyGate(s: State, ins: seq<Input>)
    requires !s.inputReady
    requires forall i :: i in ins ==> !i.SetInputReady?
    ensures Run(s, ins).emitted == [] && !Run(s, ins).next.inputReady
    ensures (forall i :: i in ins ==> i.IsSend()) ==>
      Run(s, ins).next == s.(savedWidth := Run(s, ins).next.savedWidth, savedHeight := Run(s, ins).next.savedHeight)
    decreases |ins|
  {
    if ins != [] {
      ApplyNotReady(s, ins[0]);
      assert forall i :: i in ins[1..] ==> i in ins;
      NotReadyGate(Apply(s, ins[0]).next, ins[1..]);
    }
  }

  // ---------------------------------------------------------------------
  // Grab mode

  /** The state a CursorPos can move in without a CursorEnter: the
      CursorPos slot set, input ready and the cursor already entered. */
  predicate Tracking(s: State) {
    Consumes(s, CursorPos) && s.cursorEntered
  }

  /** The first move after entering grab mode at (xs, ys) only records
      its position as the baseline and delivers nothing. */
  lemma ResyncAfterGrab(s: State, xs: int, ys: int, x: int, y: int)
    requires Tracking(s)
    ensures var r := CursorPosStep(SetGrabbingStep(s, true, xs, ys), x, y);
      && r.emitted == []
      && r.next.grab == Grab(true, false, xs, ys, x, y)
      && Tracking(r.next) && Delivers(r.next) == Delivers(s) && r.next.useQueue == s.useQueue
  {
    var g := SetGrabbingStep(s, true, xs, ys);
    CursorPosSpec(g, x, y);
    var r := CursorPosStep(g, x, y);
    assert Payloads(r.emitted) == [];
  }

  /** A grabbed move with the baseline in place adds the movement since
      the baseline to the grab position; the queued path delivers the grab
      position, the direct path the raw one. */
  lemma AccumulateWhileGrabbed(s: State, x: int, y: int)
    requires Tracking(s) && Delivers(s) && s.grab.grabbing && !s.grab.prepareGrabPos
    ensures var r := CursorPosStep(s, x, y);
      var gx := s.grab.grabX + (x - s.grab.lastX);
      var gy := s.grab.grabY + (y - s.grab.lastY);
      && Payloads(r.emitted) ==
           (if s.useQueue then [Payload(CursorPos, gx, gy, 0, 0)] else [Payload(CursorPos, x, y, 0, 0)])
      && r.next.grab == Grab(true, false, gx, gy, x, y)
  {
    CursorPosSpec(s, x, y);
  }

  /** Entering grab mode at (xs, ys), then two moves: the first only
      records its position as the baseline; the second adds the movement
      since the baseline to (xs, ys), which the queued path delivers and
      the direct path replaces by the raw position. */
  lemma ResyncThenAccumulate(s: State, xs: int, ys: int, x1: int, y1: int, x2: int, y2: int)
    requires Tracking(s) && Delivers(s)
    ensures var c1 := CursorPosStep(SetGrabbingStep(s, true, xs, ys), x1, y1);
      var c2 := CursorPosStep(c1.next, x2, y2);
      && c1.emitted == []
      && Payloads(c2.emitted) ==
           (if s.useQueue then [Payload(CursorPos, xs + (x2 - x1), ys + (y2 - y1), 0, 0)]
            else [Payload(CursorPos, x2, y2, 0, 0)])
      && c2.next.grab == Grab(true, false, xs + (x2 - x1), ys + (y2 - y1), x2, y2)
  {
    ResyncAfterGrab(s, xs, ys, x1, y1);
    var c1 := CursorPosStep(SetGrabbingStep(s, true, xs, ys), x1, y1);
    AccumulateWhileGrabbed(c1.next, x2, y2);
  }

  /** The example of the grab rule: seeded at (10, 10), a move to (12, 11)
      is the resync and delivers nothing; a move to (15, 13) delivers
      (13, 12) when queued. */
  lemma GrabExample(s: State)
    requires Tracking(s) && s.useQueue && s.jni.androidEnv
    ensures var c1 := CursorPosStep(SetGrabbingStep(s, true, 10, 10), 12, 11);
      c1.emitted == [] && Payloads(CursorPosStep(c1.next, 15, 13).emitted) == [Payload(CursorPos, 13, 12, 0, 0)]
  {
    ResyncThenAccumulate(s, 10, 10, 12, 11, 15, 13);
  }

  /** The two dispatch modes disagree on a grabbed move: the queued path
      delivers the grab position, the direct path the raw position. */
  lemma GrabbedMoveDependsOnMode(s: State, x: int, y: int)
    requires Tracking(s) && s.grab.grabbing && !s.grab.prepareGrabPos
    requires s.jni.androidEnv
    requires s.grab.grabX + (x - s.grab.lastX) != x
    ensures Payloads(CursorPosStep(s.(useQueue := true), x, y).emitted)
         != Payloads(CursorPosStep(s.(useQueue := false), x, y).emitted)
  {
    var q := s.(useQueue := true);
    var d := s.(useQueue := false);
    assert Payloads(CursorPosStep(q, x, y).emitted)[0].i1 != Payloads(CursorPosStep(d, x, y).emitted)[0].i1;
  }

  /** Leaving grab mode touches neither the grab position nor the
      baseline, and the moves that follow deliver the raw position on
      either path. */
  lemma UngrabbedMoveIsRaw(s: State, xs: int, ys: int, x: int, y: int)
    requires Tracking(s) && Delivers(s)
    ensures SetGrabbingStep(s, false, xs, ys).grab == s.grab.(grabbing := false)
    ensures Payloads(CursorPosStep(SetGrabbingStep(s, false, xs, ys), x, y).emitted) == [Payload(CursorPos, x, y, 0, 0)]
  {
  }

  /** A mouse button -1 while ready only requests a resync, so the next
      grabbed move is swallowed as a baseline rather than accumulated. */
  lemma SentinelSuppressesNextMove(s: State, action: int, mods: int, x: int, y: int)
    requires Tracking(s) && s.grab.grabbing
    ensures var t := MouseButtonStep(s, -1, action, mods);
      && t.emitted == []
      && CursorPosStep(t.next, x, y).next.grab == s.grab.(lastX := x, lastY := y, prepareGrabPos := false)
      && Payloads(CursorPosStep(t.next, x, y).emitted) == []
  {
    var t := MouseButtonStep(s, -1, action, mods);
    assert EnterSignal(t.next) == [];
  }

  // ---------------------------------------------------------------------
  // Keycode fan-out

  /** nativeSendKeycode delivers Key once if its slot is set, CharMods
      once if its slot is set, and Char exactly when the CharMods slot is
      empty and the Char slot is set. */
  lemma KeycodeFanOut(s: State, keycode: int, keychar: JChar, scancode: int, action: int, mods: int)
    requires s.inputReady && Delivers(s)
    ensures var ps := Payloads(KeycodeStep(s, keycode, keychar, scancode, action, mods).emitted);
      && Count(ps, Key) == (if Present(s, Key) then 1 else 0)
      && Count(ps, CharMods) == (if Present(s, CharMods) then 1 else 0)
      && Count(ps, Char) == (if !Present(s, CharMods) && Present(s, Char) then 1 else 0)
  {
    var key := if Present(s, Key) then [Payload(Key, keycode, scancode, action, mods)] else [];
    var chars := if Present(s, CharMods) then [Payload(CharMods, keychar, mods, 0, 0)]
                 else if Present(s, Char) then [Payload(Char, keychar, 0, 0, 0)]
                 else [];
    assert Payloads(KeycodeStep(s, keycode, keychar, scancode, action, mods).emitted) == key + chars;
    CountAppend(key, chars, Key);
    CountAppend(key, chars, CharMods);
    CountAppend(key, chars, Char);
  }

  // ---------------------------------------------------------------------
  // Attaching

  /** Attaching twice with the same arguments does what attaching once
      does, and the second attach reports the first one's result. */
  lemma AttachIdempotent(s: State, isAndroid: bool, useQueue: bool)
    ensures var a := AttachThreadToOtherStep(s, isAndroid, useQueue);
      && AttachThreadToOtherStep(a.next, isAndroid, useQueue) == a
  {
  }

  // ---------------------------------------------------------------------
  // The callback setter

  /** As written, replacing a pointer by a different one does not return
      the pointer replaced, so handing the return value back to the setter
      does not restore the slot: it keeps the second pointer. */
  lemma AsWrittenCannotRestore(s: State, k: Kind, ptr: int)
    requires s.callbacks.Get(k) != ptr
    ensures SetCallbackAsWritten(s, k, ptr).returned != s.callbacks.Get(k)
    ensures var r := SetCallbackAsWritten(s, k, ptr);
      SetCallbackAsWritten(r.next, k, r.returned).next.callbacks.Get(k) != s.callbacks.Get(k)
  {
  }

  /** As intended, handing the setter's return value back to it restores
      the table exactly. */
  lemma IntendedRestores(s: State, k: Kind, ptr: int)
    ensures var r := SetCallbackIntended(s, k, ptr);
      SetCallbackIntended(r.next, k, r.returned).next == s
  {
    var r := SetCallbackIntended(s, k, ptr);
    var t := SetCallbackIntended(r.next, k, r.returned).next;
    CallbacksExt(t.callbacks, s.callbacks);
  }

  /** The same callback table, installed either way, yields the same
      deliveries: the two setters differ only in their return value. */
  lemma SettersAgreeOnState(s: State, k: Kind, ptr: int)
    ensures SetCallbackAsWritten(s, k, ptr).next == SetCallbackIntended(s, k, ptr).next
    ensures SetCallbackAsWritten(s, k, ptr).returned == ptr
    ensures SetCallbackIntended(s, k, ptr).returned == s.callbacks.Get(k)
  {
  }
}
