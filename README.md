# Input bridge (V3) — a verified model

This project models the event-dispatch and cursor-grab core of the iOS
launcher's native input bridge, `Natives/input_bridge_v3.c`. The bridge
receives input from the UI layer (characters, keys, mouse buttons,
pointer positions, scroll, screen size). It delivers each event to the
embedded game runtime in one of two ways:

- a direct call through the GLFW callback pointer registered for that
  event kind, handed the showing window; or
- the queued cross-VM call `receiveCallback(type, i1, i2, i3, i4)` made
  by `sendData`, which silently drops the event while the Android-side JNI
  env is missing.

Every `nativeSend*` entry point delivers only when input is ready, and
most of them also need their kind's callback slot to be set.
`nativeSendScreenSize` caches the size before that gate, whatever the
readiness. The callback setters and `nativeSetInputReady`,
`nativeSetGrabbing`, `nativeAttachThreadToOther` and `nglfwSetShowingWindow`
are not gated. On top of the dispatch sits the cursor-grab state
machine:

- entering grab mode seeds a virtual grab position and requests a
  resync;
- the first CursorPos in grab mode after a resync only records its
  position as the baseline; outside grab mode the flag is ignored, the
  move is delivered raw and the flag stays set;
- later moves add their movement since the baseline to the grab
  position, without clamping;
- mouse button −1 is a sentinel that only requests a resync;
- CursorEnter(1) is synthesised at most once: on the first CursorPos
  that finds the flag clear and the CursorEnter slot set, ahead of that
  call's position. A queued one that `sendData` drops is lost for good
  (EnterSignalLostWithoutEnv).

The project has four modules:

- GlfwEvents (`glfw_events.dfy`): the event kinds, the two delivery
  paths, the delivered payloads, and the table of the nine
  `GLFW_invoke_*` callback slots.
- BridgeState (`bridge_state.dfy`): the file's globals as one `State`
  value, and one step function per entry point. Each step function gives
  the state after the call and the events the call delivered, in order.
- InputBridge (`input_bridge.dfy`): the class `Bridge`, whose fields are
  the C globals. It has one method per entry point, updating the fields
  in place and appending each delivered event (path and payload) to a
  ghost `log`. Each method that has a step function is proved to
  produce exactly the state and events of that function. `IsGrabbing`,
  `SetInputReady`, `SetShowingWindow` and `Invoke` have no step function;
  their contracts give the result and the new state directly.
- BridgeProperties (`bridge_properties.dfy`): every entry point as an
  `Input`, `Run` over a sequence of inputs, and the properties that relate
  several calls.

In two places the code does something other than what its own names
and conventions suggest, and the model follows the code:

- The callback setter returns the pointer it has just stored, not the
  previous one (lines 74-76). The local is named `oldCallback`, and a
  GLFW callback setter returns the callback it replaces. This is logged
  under "Findings".
- In direct mode, CursorPos passes the raw `(x, y)` to the callback even
  while grabbing (line 359). Only the queued call on line 361 carries the
  grab-adjusted position. The model keeps this difference as written
  (GrabbedMoveDependsOnMode) and does not log it as a finding.

## Model

| member | source | states |
|---|---|---|
| GlfwEvents.Callbacks.Store | Natives/input_bridge_v3.c:74-75 | storing a pointer puts it in its kind's slot and leaves the other eight slots unchanged |
| InputBridge.Bridge.constructor | Natives/input_bridge_v3.c:45-56 | JNI_OnLoad on zero-initialised globals: runtime VM recorded, grab mode off, queued mode on, no slot set, nothing delivered |
| InputBridge.Bridge.SetCallback | Natives/input_bridge_v3.c:71-77 | the slot of the kind holds the new pointer, nothing else changes, and the value returned is the new pointer (as written) |
| BridgeState.SetCallbackAsWritten | Natives/input_bridge_v3.c:71-77 | the setter as written: new pointer stored, other slots and globals unchanged, returned value is what the slot now holds |
| BridgeState.SetCallbackIntended | Natives/input_bridge_v3.c:71-77 | the corrected setter: same store, returns the pointer the slot held before |
| BridgeProperties.AsWrittenCannotRestore | Natives/input_bridge_v3.c:71-77 | replacing a pointer by a different one does not return the replaced pointer, and handing the return value back does not restore the slot |
| BridgeProperties.IntendedRestores | Natives/input_bridge_v3.c:71-77 | with the corrected setter, handing the return value back restores the whole state |
| BridgeProperties.SettersAgreeOnState | Natives/input_bridge_v3.c:71-77 | the two setters leave the same state and differ only in the value returned |
| BridgeState.AttachThread | Natives/input_bridge_v3.c:91-107 | attach succeeds iff the env is already set, the direct mode is in use, or the VM is present; the env ends up set iff it was, or the queued mode attached it |
| InputBridge.Bridge.AttachThread | Natives/input_bridge_v3.c:91-107 | updates only the env of the chosen side, as `BridgeState.AttachThread` prescribes, and returns its verdict |
| BridgeState.SendData | Natives/input_bridge_v3.c:121-141 | delivers either nothing or exactly the one queued event; it delivers exactly when the Android-side env is set or `GetEnv` yields one; the cached env afterwards is set exactly when it was or `GetEnv` yielded one, and nothing else changes (nothing at all when the env was already set) |
| InputBridge.Bridge.SendData | Natives/input_bridge_v3.c:121-141 | fetches the Android-side env when it is missing; delivers one queued event when an env is then available, and drops it otherwise |
| InputBridge.Bridge.Invoke | Natives/input_bridge_v3.c:295-436 | the direct call through a `GLFW_invoke_*` pointer made by every entry point's direct branch (lines 300, 313, 334, 359, 374, 397, 412, 420, 433): it appends one event carrying the showing window and the payload, and changes nothing else |
| BridgeState.Dispatch | Natives/input_bridge_v3.c:371-375 | the payload is delivered exactly when the direct path is used or an env is (or becomes) available; it takes the mode's path; only the env cache changes, becoming set exactly when it was set or the queued path fetched one |
| InputBridge.Bridge.Dispatch | Natives/input_bridge_v3.c:371-375 | the queued/direct branch, proved equal in state and log to `BridgeState.Dispatch` |
| BridgeState.GatedSend | Natives/input_bridge_v3.c:369-377 | with the slot empty or input not ready, nothing changes and nothing is delivered; otherwise exactly the payload, when deliverable; the cached Android env is set afterwards exactly when it was set or the call made a queued call |
| BridgeState.AttachThreadToOtherStep | Natives/input_bridge_v3.c:238-259 | records the dispatch mode; the result is `attachThread`'s on the chosen side; the resync flag is set exactly after a successful queued Android attach; nothing else changes |
| InputBridge.Bridge.AttachThreadToOther | Natives/input_bridge_v3.c:238-259 | state and result as `BridgeState.AttachThreadToOtherStep` |
| BridgeProperties.AttachIdempotent | Natives/input_bridge_v3.c:238-259 | attaching twice with the same arguments ends in the same state and result as attaching once |
| InputBridge.Bridge.SetInputReady | Natives/input_bridge_v3.c:274-280 | stores the readiness and returns the dispatch mode, not the readiness |
| InputBridge.Bridge.SetGrabbing | Natives/input_bridge_v3.c:282-289 | state as `BridgeState.SetGrabbingStep` |
| BridgeState.SetGrabbingStep | Natives/input_bridge_v3.c:282-289 | grab on: seeds the grab position with (xs, ys), sets the resync flag, keeps the baseline; grab off: clears only the grab flag; nothing outside the grab state changes |
| InputBridge.Bridge.IsGrabbing | Natives/input_bridge_v3.c:291-293 | returns the grab flag |
| BridgeState.CharStep | Natives/input_bridge_v3.c:295-306 | with the Char slot empty or input not ready, nothing changes; otherwise Char(codepoint) is delivered exactly when deliverable; the event takes the mode's path and nothing but the env cache changes; the cached Android env is set afterwards exactly when it was set or the call made a queued call |
| InputBridge.Bridge.SendChar | Natives/input_bridge_v3.c:295-306 | returns true exactly when the Char slot is set and input is ready; delivers Char(codepoint) then |
| BridgeState.CharModsStep | Natives/input_bridge_v3.c:308-318 | with the CharMods slot empty or input not ready, nothing changes; otherwise CharMods(codepoint, mods) is delivered exactly when deliverable; the event takes the mode's path and nothing but the env cache changes; the cached Android env is set afterwards exactly when it was set or the call made a queued call |
| InputBridge.Bridge.SendCharMods | Natives/input_bridge_v3.c:308-318 | returns true exactly when the CharMods slot is set and input is ready; delivers CharMods(codepoint, mods) then |
| BridgeState.EnterStep | Natives/input_bridge_v3.c:328-341 | the entered flag becomes set if it was, or the CursorEnter slot is set, or grab mode is on; CursorEnter(1) is delivered only when the flag was clear and the slot set; the cached Android env is set afterwards exactly when it was set or the call made a queued call |
| InputBridge.Bridge.EnterCursor | Natives/input_bridge_v3.c:328-341 | state and log as `BridgeState.EnterStep` |
| BridgeState.PosDispatch | Natives/input_bridge_v3.c:358-362 | the direct path delivers the raw (x, y); the queued path delivers the queued position; deliverability is kept; the cached Android env is set afterwards exactly when it was set or the call made a queued call |
| InputBridge.Bridge.DispatchPos | Natives/input_bridge_v3.c:358-362 | state and log as `BridgeState.PosDispatch` |
| BridgeState.MoveStep | Natives/input_bridge_v3.c:343-365 | resync pending: records the baseline, clears the flag, delivers nothing; grabbing: adds (x − lastX, y − lastY) to the grab position and delivers it when queued, raw when direct; not grabbing: raw position; the baseline becomes (x, y); the cached Android env is set afterwards exactly when it was set or the call made a queued call |
| InputBridge.Bridge.MoveCursor | Natives/input_bridge_v3.c:343-365 | state and log as `BridgeState.MoveStep` |
| BridgeState.CursorPosStep | Natives/input_bridge_v3.c:326-327 | with the CursorPos slot empty or input not ready, nothing changes and nothing is delivered |
| BridgeState.CursorPosSpec | Natives/input_bridge_v3.c:326-367 | once past the gate: the entered flag as in EnterStep, then the resync, accumulation and raw cases of MoveStep, each delivering the enter signal first; the cached Android env is set afterwards exactly when it was set or the call made a queued call |
| InputBridge.Bridge.SendCursorPos | Natives/input_bridge_v3.c:326-367 | state and log as `BridgeState.CursorPosStep` |
| BridgeState.KeyStep | Natives/input_bridge_v3.c:369-377 | with the Key slot empty or input not ready, nothing changes; otherwise Key(key, scancode, action, mods) is delivered exactly when deliverable; the event takes the mode's path and nothing but the env cache changes; the cached Android env is set afterwards exactly when it was set or the call made a queued call |
| InputBridge.Bridge.SendKey | Natives/input_bridge_v3.c:369-377 | state and log as `BridgeState.KeyStep`, a gated Key(key, scancode, action, mods) |
| BridgeState.CharFallbackStep | Natives/input_bridge_v3.c:382-384 | CharMods when its slot is set, otherwise Char when its slot is set, otherwise nothing; the cached Android env is set afterwards exactly when it was set or the call made a queued call |
| BridgeState.KeycodeStep | Natives/input_bridge_v3.c:379-386 | not ready: nothing; ready: Key if its slot is set, then CharMods if its slot is set, else Char if its slot is set; the cached Android env is set afterwards exactly when it was set or the call made a queued call |
| InputBridge.Bridge.SendKeycode | Natives/input_bridge_v3.c:379-386 | state and log as `BridgeState.KeycodeStep` |
| BridgeProperties.KeycodeFanOut | Natives/input_bridge_v3.c:379-386 | one Keycode call delivers at most one Key, one CharMods, and a Char only when the CharMods slot is empty |
| BridgeState.MouseButtonStep | Natives/input_bridge_v3.c:388-401 | not ready: nothing; button −1: only the resync flag is set; other buttons: MouseButton(button, action, mods, 0) when the slot is set; the cached Android env is set afterwards exactly when it was set or the call made a queued call |
| InputBridge.Bridge.SendMouseButton | Natives/input_bridge_v3.c:388-401 | state and log as `BridgeState.MouseButtonStep` |
| BridgeProperties.SentinelSuppressesNextMove | Natives/input_bridge_v3.c:388-392 | while grabbing, button −1 delivers nothing and the next move only records the baseline |
| BridgeState.ScreenSizeStep | Natives/input_bridge_v3.c:403-426 | the size is cached whatever the readiness; when ready, FramebufferSize before WindowSize, each only if its slot is set; the cached Android env is set afterwards exactly when it was set or the call made a queued call |
| InputBridge.Bridge.SendScreenSize | Natives/input_bridge_v3.c:403-426 | state and log as `BridgeState.ScreenSizeStep` |
| InputBridge.Bridge.SendIfSet | Natives/input_bridge_v3.c:407-422 | one size event, sent when input is ready and its slot is set |
| BridgeState.ScrollStep | Natives/input_bridge_v3.c:428-436 | with the Scroll slot empty or input not ready, nothing changes; otherwise Scroll(xoffset, yoffset) is delivered exactly when deliverable; the event takes the mode's path and nothing but the env cache changes; the cached Android env is set afterwards exactly when it was set or the call made a queued call |
| InputBridge.Bridge.SendScroll | Natives/input_bridge_v3.c:428-436 | state and log as `BridgeState.ScrollStep`, a gated Scroll(xoffset, yoffset) |
| InputBridge.Bridge.SetShowingWindow | Natives/input_bridge_v3.c:438-440 | stores the window handle and changes nothing else |
| BridgeProperties.CursorPosEnter | Natives/input_bridge_v3.c:328-341 | one CursorPos delivers at most one CursorEnter, none once entered, and sets the flag when it does |
| BridgeProperties.GatedSendNeutral | Natives/input_bridge_v3.c:295-318 | a single-slot send of another kind neither delivers CursorEnter nor touches the entered flag |
| BridgeProperties.KeycodeNeutral | Natives/input_bridge_v3.c:379-386 | Keycode neither delivers CursorEnter nor touches the entered flag |
| BridgeProperties.MouseButtonNeutral | Natives/input_bridge_v3.c:388-401 | MouseButton neither delivers CursorEnter nor touches the entered flag |
| BridgeProperties.ScreenSizeNeutral | Natives/input_bridge_v3.c:403-426 | ScreenSize neither delivers CursorEnter nor touches the entered flag |
| BridgeProperties.ApplyEnter | Natives/input_bridge_v3.c:328-341 | any single call: the entered flag is never cleared, CursorEnter is delivered at most once and only while clear, and delivering it sets the flag |
| BridgeProperties.CursorEnterAtMostOnce | Natives/input_bridge_v3.c:328-341 | over any sequence of calls, CursorEnter is delivered at most once, never once entered |
| BridgeProperties.EnterSignalLostWithoutEnv | Natives/input_bridge_v3.c:329-332 | a queued CursorEnter dropped for want of an env still sets the flag, so no later call delivers CursorEnter |
| BridgeProperties.ApplyNotReady | Natives/input_bridge_v3.c:295-436 | not ready: a call other than SetInputReady delivers nothing, and a send changes nothing but the cached size (button −1 requests no resync) |
| BridgeProperties.NotReadyGate | Natives/input_bridge_v3.c:295-436 | not ready: any sequence of calls without SetInputReady delivers nothing; if all are sends, nothing but the cached size changes |
| BridgeProperties.ResyncAfterGrab | Natives/input_bridge_v3.c:343-355 | the first move after grab-on records the baseline, keeps the seeded grab position, clears the resync flag and delivers nothing |
| BridgeProperties.AccumulateWhileGrabbed | Natives/input_bridge_v3.c:343-362 | a grabbed move adds its movement since the baseline to the grab position, delivered when queued, raw when direct |
| BridgeProperties.ResyncThenAccumulate | Natives/input_bridge_v3.c:282-365 | grab-on at (xs, ys), a move to (x1, y1), then (x2, y2): nothing, then (xs + x2 − x1, ys + y2 − y1) when queued or (x2, y2) when direct |
| BridgeProperties.GrabExample | Natives/input_bridge_v3.c:343-362 | seed (10, 10), move (12, 11) is swallowed, move (15, 13) delivers (13, 12) on the queued path |
| BridgeProperties.GrabbedMoveDependsOnMode | Natives/input_bridge_v3.c:358-362 | while grabbing, the two paths deliver different positions whenever the grab position differs from the raw one |
| BridgeProperties.UngrabbedMoveIsRaw | Natives/input_bridge_v3.c:282-362 | grab-off keeps the grab position and baseline, and the next move delivers the raw position on either path |

## Left out

- JNI and VM mechanics (`GetEnv`, `AttachCurrentThread`, `FindClass`, `GetStaticMethodID`, `CallStatic*Method` and the `assert`s on their results) are foreign calls. Env and VM pointers are "is set" flags, and whether `GetEnv` yields an env for the calling thread is a parameter of the state.
- getJavaInputBridge (lines 109-119) only resolves the Java receiver method; it changes nothing the model tracks.
- `JNI_OnUnload` (lines 59-69) only clears the JRE-side env pointer at unload, after which no entry point runs.
- The UIKit lifecycle relays and JNI exports (lines 159-236), the clipboard forwarder (lines 261-272) and `closeGLFWWindow`/`exit` (lines 143-157) are cross-runtime call plumbing.
- Debug logging and the lock-free, process-wide sharing of the globals (concurrency) are not modelled; calls are taken one at a time.
- The `EVENT_TYPE_*` numeric codes come from a header that is not part of this model; events carry the `Kind` instead.
- InputBridge.Bridge.SendScroll: the offsets are integers; the floating-point values of the direct call and the implicit `jdouble` to `int` conversion of the queued call are not modelled.
- InputBridge.Bridge.SendCursorPos: the conversion of the raw position to `double` for the direct call is not modelled; the raw integers are recorded.
- BridgeState.MoveStep: does not model 32-bit overflow of `grabCursorX/Y` (signed `int` arithmetic in the source); the grab position is an unbounded integer.
- BridgeState.AttachThread: assumes that `AttachCurrentThread` always yields an env. The source ignores its return code and returns `JNI_TRUE` either way (lines 99-100, 102-103).
- `nativeSendCursorEnter` (lines 319-325) is commented out in the source and has no counterpart; CursorEnter is only ever synthesised by CursorPos.
- InputBridge.Bridge.Invoke: records the direct call and does not model what the registered function does.
- InputBridge.Bridge.SendIfSet re-reads the readiness before each of the two size events where the source tests it once; nothing between the two changes it, so the outcome is the same.
- The nine `GLFW_invoke_*` globals are one record field of the class, and the JNI pointers another; each is updated by record update.

## Findings

| source | as written | input that shows it | evidently intended | confidence | as-written member | corrected member |
|---|---|---|---|---|---|---|
| Natives/input_bridge_v3.c:74-76 | `oldCallback` holds the slot's address, so the slot is overwritten before it is read back and the setter returns the pointer it has just stored | the Char slot holds 7; setting it to 9 returns 9 | return the pointer the slot held before the call (7), as the name `oldCallback` and the GLFW callback setters promise | not executed | `BridgeProperties.AsWrittenCannotRestore` | `BridgeProperties.IntendedRestores` |
