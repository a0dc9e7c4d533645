/** The bridge's global state as a value, and one step function per entry
    point of Natives/input_bridge_v3.c. A step function takes the state
    before the call and gives the state after it together with the events
    the call delivered, in delivery order. The class in input_bridge.dfy
    is proved against these functions. */
module BridgeState {
  import opened GlfwEvents

  /** The cursor-grab globals: grab mode, the pending-resync flag
      (isPrepareGrabPos), the accumulated grab position and the last raw
      position seen. */
  datatype Grab = Grab(
    grabbing: bool,
    prepareGrabPos: bool,
    grabX: int, grabY: int,
    lastX: int, lastY: int)

  /** The JNI handles, abstracted to booleans: whether the Android-side
      env (runtimeJNIEnvPtr_ANDROID) and the JRE-side env
      (dalvikJNIEnvPtr_JRE) are set, whether each VM pointer is set, and
      whether GetEnv on the runtime VM yields an env for the calling
      thread. */
  datatype Jni = Jni(
    androidEnv: bool,
    jreEnv: bool,
    runtimeVm: bool,
    dalvikVm: bool,
    getEnvSucceeds: bool)

  /** The C globals the entry points read and write. */
  datatype State = State(
    inputReady: bool,
    useQueue: bool,
    cursorEntered: bool,
    grab: Grab,
    savedWidth: int, savedHeight: int,
    callbacks: Callbacks,
    window: int,
    jni: Jni)

  /** `s` with the Android-side env marked set or not. */
  function WithEnv(s: State, env: bool): State {
    s.(jni := s.jni.(androidEnv := env))
  }

  /** The outcome of one entry point: the new state and what it delivered. */
  datatype Step = Step(next: State, emitted: seq<Event>)

  /** The outcome of a setter that returns a pointer. */
  datatype Replaced = Replaced(next: State, returned: int)

  /** The outcome of attachThread on one env pointer. */
  datatype Attached = Attached(ok: bool, envSet: bool)

  /** The outcome of nativeAttachThreadToOther. */
  datatype Attach = Attach(next: State, ok: bool)

  /** The slot of kind `k` holds a non-NULL pointer. */
  predicate Present(s: State, k: Kind) {
    s.callbacks.Get(k) != 0
  }

  /** The gate shared by every single-slot entry point: the slot is set
      and input is ready. It is also what nativeSendChar and
      nativeSendCharMods return. */
  predicate Consumes(s: State, k: Kind) {
    Present(s, k) && s.inputReady
  }

  /** A dispatched event reaches the consumer: either the direct path is
      used, or sendData has (or can fetch) the Android-side env. */
  predicate Delivers(s: State) {
    !s.useQueue || s.jni.androidEnv || s.jni.getEnvSucceeds
  }

  /** The Android-side env cached after step `r` from `s`: only sendData
      writes it, so it is set afterwards exactly when it was set before or
      the step made a queued call (which needs an env). */
  predicate EnvAfter(s: State, r: Step) {
    r.next.jni.androidEnv == (s.jni.androidEnv || (s.useQueue && r.emitted != []))
  }

  /** The path every event dispatched in state `s` takes. */
  function PathOf(s: State): Path {
    if s.useQueue then Queued else Direct(s.window)
  }

  /** sendData: fetch the Android-side env when it is missing, then make
      the queued call, or drop the event silently when there is no env. */
  function SendData(s: State, p: Payload): (r: Step)
    ensures r.emitted == [] || r.emitted == [Event(Queued, p)]
    ensures r.emitted != [] <==> s.jni.androidEnv || s.jni.getEnvSucceeds
    ensures r.next == WithEnv(s, r.next.jni.androidEnv)
    ensures r.next.jni.androidEnv == (s.jni.androidEnv || s.jni.getEnvSucceeds)
    ensures s.jni.androidEnv ==> r.next == s
  {
    var env := s.jni.androidEnv || s.jni.getEnvSucceeds;
    Step(WithEnv(s, env), if env then [Event(Queued, p)] else [])
  }

  /** The branch every entry point makes once its gate is passed: queued
      call when the dispatch mode says so, otherwise a direct call. */
  function Dispatch(s: State, p: Payload): (r: Step)
    ensures Payloads(r.emitted) == if Delivers(s) then [p] else []
    ensures forall e :: e in r.emitted ==> e.path == PathOf(s)
    ensures r.next == WithEnv(s, r.next.jni.androidEnv)
    ensures r.next.jni.androidEnv == (s.jni.androidEnv || (s.useQueue && s.jni.getEnvSucceeds))
    ensures s.jni.androidEnv ==> r.next.jni.androidEnv
    ensures Delivers(r.next) == Delivers(s)
  {
    if s.useQueue then SendData(s, p) else Step(s, [Event(Direct(s.window), p)])
  }

  /** A single-slot entry point: nothing happens unless the slot of
      `p.kind` is set and input is ready; otherwise the payload is
      dispatched. Only the env cache can change. */
  function GatedSend(s: State, p: Payload): (r: Step)
    ensures !Consumes(s, p.kind) ==> r == Step(s, [])
    ensures Payloads(r.emitted) == if Consumes(s, p.kind) && Delivers(s) then [p] else []
    ensures forall e :: e in r.emitted ==> e.path == PathOf(s)
    ensures r.next == WithEnv(s, r.next.jni.androidEnv)
    ensures EnvAfter(s, r)
    ensures Delivers(r.next) == Delivers(s)
  {
    if Consumes(s, p.kind) then Dispatch(s, p) else Step(s, [])
  }

  /** nativeSendChar. */
  function CharStep(s: State, codepoint: JChar): (r: Step)
    ensures !Consumes(s, Char) ==> r == Step(s, [])
    ensures Payloads(r.emitted) == if Consumes(s, Char) && Delivers(s) then [Payload(Char, codepoint, 0, 0, 0)] else []
    ensures forall e :: e in r.emitted ==> e.path == PathOf(s)
    ensures r.next == WithEnv(s, r.next.jni.androidEnv)
    ensures EnvAfter(s, r)
  {
    GatedSend(s, Payload(Char, codepoint, 0, 0, 0))
  }

  /** nativeSendCharMods. */
  function CharModsStep(s: State, codepoint: JChar, mods: int): (r: Step)
    ensures !Consumes(s, CharMods) ==> r == Step(s, [])
    ensures Payloads(r.emitted) == if Consumes(s, CharMods) && Delivers(s) then [Payload(CharMods, codepoint, mods, 0, 0)] else []
    ensures forall e :: e in r.emitted ==> e.path == PathOf(s)
    ensures r.next == WithEnv(s, r.next.jni.androidEnv)
    ensures EnvAfter(s, r)
  {
    GatedSend(s, Payload(CharMods, codepoint, mods, 0, 0))
  }

  /** nativeSendKey. */
  function KeyStep(s: State, key: int, scancode: int, action: int, mods: int): (r: Step)
    ensures !Consumes(s, Key) ==> r == Step(s, [])
    ensures Payloads(r.emitted) == if Consumes(s, Key) && Delivers(s) then [Payload(Key, key, scancode, action, mods)] else []
    ensures forall e :: e in r.emitted ==> e.path == PathOf(s)
    ensures r.next == WithEnv(s, r.next.jni.androidEnv)
    ensures EnvAfter(s, r)
  {
    GatedSend(s, Payload(Key, key, scancode, action, mods))
  }

  /** nativeSendScroll, with the offsets as the integers the consumer
      receives (the floating-point side is not modelled). */
  function ScrollStep(s: State, xoffset: int, yoffset: int): (r: Step)
    ensures !Consumes(s, Scroll) ==> r == Step(s, [])
    ensures Payloads(r.emitted) == if Consumes(s, Scroll) && Delivers(s) then [Payload(Scroll, xoffset, yoffset, 0, 0)] else []
    ensures forall e :: e in r.emitted ==> e.path == PathOf(s)
    ensures r.next == WithEnv(s, r.next.jni.androidEnv)
    ensures EnvAfter(s, r)
  {
    GatedSend(s, Payload(Scroll, xoffset, yoffset, 0, 0))
  }

  /** The CursorEnter signal a CursorPos may deliver first. */
  function EnterSignal(s: State): seq<Payload> {
    if !s.cursorEntered && Present(s, CursorEnter) && Delivers(s)
    then [Payload(CursorEnter, 1, 0, 0, 0)] else []
  }

  /** The head of nativeSendCursorPos: synthesise CursorEnter(1) once. If
      the CursorEnter slot is empty but grab mode is on, the flag is set
      without any signal. */
  function EnterStep(s: State): (r: Step)
    ensures s.cursorEntered ==> r == Step(s, [])
    ensures r.next.cursorEntered == (s.cursorEntered || Present(s, CursorEnter) || s.grab.grabbing)
    ensures Payloads(r.emitted) == EnterSignal(s)
    ensures forall e :: e in r.emitted ==> e.path == PathOf(s)
    ensures r.next == WithEnv(s.(cursorEntered := r.next.cursorEntered), r.next.jni.androidEnv)
    ensures EnvAfter(s, r)
    ensures Delivers(r.next) == Delivers(s)
  {
    if s.cursorEntered then Step(s, [])
    else if Present(s, CursorEnter) then Dispatch(s.(cursorEntered := true), Payload(CursorEnter, 1, 0, 0, 0))
    else if s.grab.grabbing then Step(s.(cursorEntered := true), [])
    else Step(s, [])
  }

  /** The position a queued CursorPos carries: the grab position while
      grabbing, the raw position otherwise. */
  function QueuedPos(g: Grab, x: int, y: int): Payload
  {
    Payload(CursorPos, if g.grabbing then g.grabX else x, if g.grabbing then g.grabY else y, 0, 0)
  }

  /** The CursorPos event itself: the queued call carries `queued`, the
      direct call the raw position (x, y). */
  function PosDispatch(s: State, queued: Payload, x: int, y: int): (r: Step)
    ensures r.next == WithEnv(s, r.next.jni.androidEnv)
    ensures Payloads(r.emitted) ==
      if !Delivers(s) then [] else if s.useQueue then [queued] else [Payload(CursorPos, x, y, 0, 0)]
    ensures forall e :: e in r.emitted ==> e.path == PathOf(s)
    ensures EnvAfter(s, r)
    ensures Delivers(r.next) == Delivers(s)
  {
    if s.useQueue then SendData(s, queued)
    else Step(s, [Event(Direct(s.window), Payload(CursorPos, x, y, 0, 0))])
  }

  /** The rest of nativeSendCursorPos once the enter signal is handled.
      While grabbing with a resync pending, the call only records the
      baseline and sends nothing; while grabbing otherwise, the movement
      since the baseline is added to the grab position (without clamping).
      The queued path sends the grab position while grabbing; the direct
      path always sends the raw position. */
  function MoveStep(s: State, x: int, y: int): (r: Step)
    ensures r.next == WithEnv(s.(grab := r.next.grab), r.next.jni.androidEnv)
    ensures s.grab.grabbing && s.grab.prepareGrabPos ==>
      r == Step(s.(grab := s.grab.(lastX := x, lastY := y, prepareGrabPos := false)), [])
    ensures s.grab.grabbing && !s.grab.prepareGrabPos ==>
      && r.next.grab == s.grab.(grabX := s.grab.grabX + (x - s.grab.lastX),
                                grabY := s.grab.grabY + (y - s.grab.lastY), lastX := x, lastY := y)
      && Payloads(r.emitted) ==
           (if !Delivers(s) then []
            else if s.useQueue then [Payload(CursorPos, r.next.grab.grabX, r.next.grab.grabY, 0, 0)]
            else [Payload(CursorPos, x, y, 0, 0)])
    ensures !s.grab.grabbing ==>
      && r.next.grab == s.grab.(lastX := x, lastY := y)
      && Payloads(r.emitted) == if Delivers(s) then [Payload(CursorPos, x, y, 0, 0)] else []
    ensures forall e :: e in r.emitted ==> e.path == PathOf(s)
    ensures EnvAfter(s, r)
    ensures Delivers(r.next) == Delivers(s)
  {
    if s.grab.grabbing && s.grab.prepareGrabPos then
      Step(s.(grab := s.grab.(lastX := x, lastY := y, prepareGrabPos := false)), [])
    else
      var g := if s.grab.grabbing
               then s.grab.(grabX := s.grab.grabX + (x - s.grab.lastX), grabY := s.grab.grabY + (y - s.grab.lastY))
               else s.grab;
      var p := PosDispatch(s.(grab := g), QueuedPos(g, x, y), x, y);
      Step(p.next.(grab := g.(lastX := x, lastY := y)), p.emitted)
  }

  /** nativeSendCursorPos: when the CursorPos slot is set and input is
      ready, the enter signal, then the move. */
  function CursorPosStep(s: State, x: int, y: int): (r: Step)
    ensures !Consumes(s, CursorPos) ==> r == Step(s, [])
  {
    if !Consumes(s, CursorPos) then Step(s, [])
    else
      var e := EnterStep(s);
      var m := MoveStep(e.next, x, y);
      Step(m.next, e.emitted + m.emitted)
  }

  /** What nativeSendCursorPos does when its slot is set and input is
      ready: the enter flag and signal as in EnterStep, then the grab rule
      of MoveStep applied to the state as it was. */
  lemma CursorPosSpec(s: State, x: int, y: int)
    requires Consumes(s, CursorPos)
    ensures var r := CursorPosStep(s, x, y);
      && r.next.cursorEntered == (s.cursorEntered || Present(s, CursorEnter) || s.grab.grabbing)
      && r.next == WithEnv(s.(cursorEntered := r.next.cursorEntered, grab := r.next.grab), r.next.jni.androidEnv)
      && EnvAfter(s, r)
      && Delivers(r.next) == Delivers(s)
      && (forall e :: e in r.emitted ==> e.path == PathOf(s))
    // resync: baseline captured, nothing but the enter signal delivered
    ensures var r := CursorPosStep(s, x, y);
      s.grab.grabbing && s.grab.prepareGrabPos ==>
        && r.next.grab == s.grab.(lastX := x, lastY := y, prepareGrabPos := false)
        && Payloads(r.emitted) == EnterSignal(s)
    // relative accumulation
    ensures var r := CursorPosStep(s, x, y);
      s.grab.grabbing && !s.grab.prepareGrabPos ==>
        && r.next.grab == s.grab.(grabX := s.grab.grabX + (x - s.grab.lastX),
                                  grabY := s.grab.grabY + (y - s.grab.lastY), lastX := x, lastY := y)
        && Payloads(r.emitted) == EnterSignal(s) +
             (if !Delivers(s) then []
              else if s.useQueue then [Payload(CursorPos, r.next.grab.grabX, r.next.grab.grabY, 0, 0)]
              else [Payload(CursorPos, x, y, 0, 0)])
    // raw passthrough
    ensures var r := CursorPosStep(s, x, y);
      !s.grab.grabbing ==>
        && r.next.grab == s.grab.(lastX := x, lastY := y)
        && Payloads(r.emitted) == EnterSignal(s) + (if Delivers(s) then [Payload(CursorPos, x, y, 0, 0)] else [])
  {
    var e := EnterStep(s);
    assert e.next.grab == s.grab && e.next.useQueue == s.useQueue && e.next.window == s.window;
    assert Delivers(e.next) == Delivers(s);
    var m := MoveStep(e.next, x, y);
    assert CursorPosStep(s, x, y) == Step(m.next, e.emitted + m.emitted);
    assert m.next.jni.androidEnv == (s.jni.androidEnv || (s.useQueue && e.emitted + m.emitted != []));
    PayloadsAppend(e.emitted, m.emitted);
  }

  /** The second half of nativeSendKeycode: CharMods, and Char only when
      CharMods reported "not consumed". */
  function CharFallbackStep(s: State, keychar: JChar, mods: int): (r: Step)
    requires s.inputReady
    ensures Payloads(r.emitted) ==
      if !Delivers(s) then []
      else if Present(s, CharMods) then [Payload(CharMods, keychar, mods, 0, 0)]
      else if Present(s, Char) then [Payload(Char, keychar, 0, 0, 0)]
      else []
    ensures forall e :: e in r.emitted ==> e.path == PathOf(s)
    ensures r.next == WithEnv(s, r.next.jni.androidEnv)
    ensures EnvAfter(s, r)
    ensures Delivers(r.next) == Delivers(s)
  {
    var cm := CharModsStep(s, keychar, mods);
    if Consumes(s, CharMods) then cm
    else CharStep(s, keychar)
  }

  /** nativeSendKeycode: when input is ready, Key first, then CharMods;
      Char only when CharMods reported "not consumed". */
  function KeycodeStep(s: State, keycode: int, keychar: JChar, scancode: int, action: int, mods: int): (r: Step)
    ensures !s.inputReady ==> r == Step(s, [])
    ensures !Delivers(s) ==> r.emitted == []
    ensures s.inputReady && Delivers(s) ==>
      Payloads(r.emitted) ==
        (if Present(s, Key) then [Payload(Key, keycode, scancode, action, mods)] else []) +
        (if Present(s, CharMods) then [Payload(CharMods, keychar, mods, 0, 0)]
         else if Present(s, Char) then [Payload(Char, keychar, 0, 0, 0)]
         else [])
    ensures forall e :: e in r.emitted ==> e.path == PathOf(s)
    ensures r.next == WithEnv(s, r.next.jni.androidEnv)
    ensures EnvAfter(s, r)
    ensures Delivers(r.next) == Delivers(s)
  {
    if !s.inputReady then Step(s, [])
    else
      var k := KeyStep(s, keycode, scancode, action, mods);
      var c := CharFallbackStep(k.next, keychar, mods);
      PayloadsAppend(k.emitted, c.emitted);
      assert k.next.useQueue == s.useQueue && c.next.jni.androidEnv == (s.jni.androidEnv || (s.useQueue && k.emitted + c.emitted != []));
      Step(c.next, k.emitted + c.emitted)
  }

  /** nativeSendMouseButton: button -1 is the "resync the grab position"
      sentinel and never reaches the MouseButton slot. */
  function MouseButtonStep(s: State, button: int, action: int, mods: int): (r: Step)
    ensures !s.inputReady ==> r == Step(s, [])
    ensures s.inputReady && button == -1 ==> r == Step(s.(grab := s.grab.(prepareGrabPos := true)), [])
    ensures button != -1 ==>
      && r.next == WithEnv(s, r.next.jni.androidEnv)
      && Payloads(r.emitted) ==
           if Consumes(s, MouseButton) && Delivers(s) then [Payload(MouseButton, button, action, mods, 0)] else []
    ensures forall e :: e in r.emitted ==> e.path == PathOf(s)
    ensures EnvAfter(s, r)
    ensures Delivers(r.next) == Delivers(s)
  {
    if !s.inputReady then Step(s, [])
    else if button == -1 then Step(s.(grab := s.grab.(prepareGrabPos := true)), [])
    else GatedSend(s, Payload(MouseButton, button, action, mods, 0))
  }

  /** nativeSendScreenSize: the size is cached whatever the readiness;
      when ready, FramebufferSize is delivered before WindowSize, each
      only if its slot is set. */
  function ScreenSizeStep(s: State, width: int, height: int): (r: Step)
    ensures r.next == WithEnv(s.(savedWidth := width, savedHeight := height), r.next.jni.androidEnv)
    ensures !s.inputReady ==> r.emitted == [] && r.next.jni == s.jni
    ensures Payloads(r.emitted) ==
      if s.inputReady && Delivers(s) then
        (if Present(s, FramebufferSize) then [Payload(FramebufferSize, width, height, 0, 0)] else []) +
        (if Present(s, WindowSize) then [Payload(WindowSize, width, height, 0, 0)] else [])
      else []
    ensures forall e :: e in r.emitted ==> e.path == PathOf(s)
    ensures EnvAfter(s, r)
    ensures Delivers(r.next) == Delivers(s)
  {
    var saved := s.(savedWidth := width, savedHeight := height);
    assert saved.callbacks == s.callbacks && Delivers(saved) == Delivers(s);
    var fb := GatedSend(saved, Payload(FramebufferSize, width, height, 0, 0));
    assert fb.next == WithEnv(saved, fb.next.jni.androidEnv);
    assert Present(fb.next, WindowSize) == Present(s, WindowSize) && fb.next.inputReady == s.inputReady;
    assert Delivers(fb.next) == Delivers(s) && PathOf(fb.next) == PathOf(s);
    var ws := GatedSend(fb.next, Payload(WindowSize, width, height, 0, 0));
    assert ws.next == WithEnv(saved, ws.next.jni.androidEnv);
    PayloadsAppend(fb.emitted, ws.emitted);
    assert ws.next.jni.androidEnv == (s.jni.androidEnv || (s.useQueue && fb.emitted + ws.emitted != []));
    Step(ws.next, fb.emitted + ws.emitted)
  }

  /** nativeSetGrabbing: entering grab mode seeds the grab position and
      asks for a resync; leaving it touches nothing else. */
  function SetGrabbingStep(s: State, grabbing: bool, xs: int, ys: int): (t: State)
    ensures grabbing ==> t.grab == Grab(true, true, xs, ys, s.grab.lastX, s.grab.lastY)
    ensures !grabbing ==>
      t.grab == Grab(false, s.grab.prepareGrabPos, s.grab.grabX, s.grab.grabY, s.grab.lastX, s.grab.lastY)
    ensures t == s.(grab := t.grab)
  {
    if grabbing then s.(grab := s.grab.(grabbing := true, grabX := xs, grabY := ys, prepareGrabPos := true))
    else s.(grab := s.grab.(grabbing := false))
  }

  /** attachThread on one env pointer: nothing to do when the env is
      already set or the direct mode is in use; otherwise attach when the
      VM is present, and fail when it is not. */
  function AttachThread(envSet: bool, useQueue: bool, vmPresent: bool): (r: Attached)
    ensures r.ok <==> envSet || !useQueue || vmPresent
    ensures r.envSet <==> envSet || (useQueue && vmPresent)
  {
    if envSet || !useQueue then Attached(true, envSet)
    else if vmPresent then Attached(true, true)
    else Attached(false, false)
  }

  /** nativeAttachThreadToOther: record the dispatch mode, attach the
      Android thread to the runtime VM (or the JRE thread to the Android
      VM), and request a grab resync after a successful queued Android
      attach. Resolving the Java receiver method is JNI plumbing and
      changes nothing here. */
  function AttachThreadToOtherStep(s: State, isAndroid: bool, useQueue: bool): (r: Attach)
    ensures r.ok == (if isAndroid then s.jni.androidEnv || !useQueue || s.jni.runtimeVm
                     else s.jni.jreEnv || !useQueue || s.jni.dalvikVm)
    ensures r.next.grab.prepareGrabPos == (s.grab.prepareGrabPos || (useQueue && isAndroid && r.ok))
    ensures isAndroid ==> r.next.jni == s.jni.(androidEnv := s.jni.androidEnv || (useQueue && s.jni.runtimeVm))
    ensures !isAndroid ==> r.next.jni == s.jni.(jreEnv := s.jni.jreEnv || (useQueue && s.jni.dalvikVm))
    ensures r.next == s.(useQueue := useQueue, jni := r.next.jni,
                         grab := s.grab.(prepareGrabPos := r.next.grab.prepareGrabPos))
  {
    var a := AttachThread(if isAndroid then s.jni.androidEnv else s.jni.jreEnv, useQueue,
                          if isAndroid then s.jni.runtimeVm else s.jni.dalvikVm);
    Attach(
      s.(useQueue := useQueue,
         jni := if isAndroid then s.jni.(androidEnv := a.envSet) else s.jni.(jreEnv := a.envSet),
         grab := s.grab.(prepareGrabPos := s.grab.prepareGrabPos || (useQueue && isAndroid && a.ok))),
      a.ok)
  }

  /** The callback setter as written: the slot is overwritten before it is
      read back, so the value returned is the pointer just stored. */
  function SetCallbackAsWritten(s: State, k: Kind, ptr: int): (r: Replaced)
    ensures r.next.callbacks.Get(k) == ptr
    ensures forall j :: j != k ==> r.next.callbacks.Get(j) == s.callbacks.Get(j)
    ensures r.next == s.(callbacks := r.next.callbacks)
    ensures r.returned == r.next.callbacks.Get(k)
  {
    var t := s.(callbacks := s.callbacks.Store(k, ptr));
    Replaced(t, t.callbacks.Get(k))
  }

  /** The callback setter as intended: the same store, returning the
      pointer the slot held before the call. */
  function SetCallbackIntended(s: State, k: Kind, ptr: int): (r: Replaced)
    ensures r.next.callbacks.Get(k) == ptr
    ensures forall j :: j != k ==> r.next.callbacks.Get(j) == s.callbacks.Get(j)
    ensures r.next == s.(callbacks := r.next.callbacks)
    ensures r.returned == s.callbacks.Get(k)
  {
    Replaced(s.(callbacks := s.callbacks.Store(k, ptr)), s.callbacks.Get(k))
  }
}
