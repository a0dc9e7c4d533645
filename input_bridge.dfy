/** The bridge as Natives/input_bridge_v3.c has it: one object whose fields
    are the file's globals, and one method per entry point that updates
    them in place. Each method is proved to leave the object in the state,
    and to append to the ghost `log` the events, that the matching step
    function of BridgeState prescribes. */
module InputBridge {
  import opened GlfwEvents
  import BridgeState

  class Bridge {
    // dispatch globals
    var isInputReady: bool
    var isUseStackQueueCall: bool

    // cursor-grab globals
    var isGrabbing: bool
    var isPrepareGrabPos: bool
    var isCursorEntered: bool
    var grabCursorX: int
    var grabCursorY: int
    var lastCursorX: int
    var lastCursorY: int

    // cached screen size
    var savedWidth: int
    var savedHeight: int

    /** The nine GLFW_invoke_* globals, one slot per kind; 0 stands for
        NULL. */
    var callbacks: Callbacks

    /** The window handle direct calls are given. */
    var showingWindow: int

    /** The JNI env and VM pointers, as "is set" flags, and whether GetEnv
        on the runtime VM succeeds for the calling thread. */
    var jni: BridgeState.Jni

    /** Every event delivered so far, in delivery order. */
    ghost var log: seq<Event>

    /** The globals as a BridgeState.State value. */
    function Snapshot(): BridgeState.State
      reads this
    {
      BridgeState.State(
        isInputReady, isUseStackQueueCall, isCursorEntered,
        BridgeState.Grab(isGrabbing, isPrepareGrabPos, grabCursorX, grabCursorY, lastCursorX, lastCursorY),
        savedWidth, savedHeight, callbacks, showingWindow, jni)
    }

    /** JNI_OnLoad on zero-initialised globals: the runtime VM pointer is
        recorded, grab mode is off and the queued dispatch mode is on. */
    constructor (dalvikVmPresent: bool, getEnvOnRuntimeVm: bool)
      ensures Snapshot() == BridgeState.State(
        false, true, false, BridgeState.Grab(false, false, 0, 0, 0, 0), 0, 0,
        Callbacks(0, 0, 0, 0, 0, 0, 0, 0, 0), 0,
        BridgeState.Jni(false, false, true, dalvikVmPresent, getEnvOnRuntimeVm))
      ensures log == []
    {
      isInputReady, isCursorEntered, isPrepareGrabPos := false, false, false;
      grabCursorX, grabCursorY, lastCursorX, lastCursorY := 0, 0, 0, 0;
      savedWidth, savedHeight, showingWindow := 0, 0, 0;
      callbacks := Callbacks(0, 0, 0, 0, 0, 0, 0, 0, 0);
      jni := BridgeState.Jni(false, false, true, dalvikVmPresent, getEnvOnRuntimeVm);
      isGrabbing := false;
      isUseStackQueueCall := true;
      log := [];
    }

    /** nglfwSet<Kind>Callback: store the pointer, then return what the
        slot now holds (the new pointer, as written). */
    method SetCallback(k: Kind, ptr: int) returns (r: int)
      modifies this`callbacks
      ensures Snapshot() == BridgeState.SetCallbackAsWritten(old(Snapshot()), k, ptr).next
      ensures r == BridgeState.SetCallbackAsWritten(old(Snapshot()), k, ptr).returned
      ensures r == ptr
    {
      callbacks := callbacks.Store(k, ptr);
      r := callbacks.Get(k);
    }

    /** attachThread, on runtimeJNIEnvPtr_ANDROID when `isAndroid` and on
        dalvikJNIEnvPtr_JRE otherwise. */
    method AttachThread(isAndroid: bool) returns (ok: bool)
      modifies this`jni
      ensures isAndroid ==>
        var a := BridgeState.AttachThread(old(jni.androidEnv), isUseStackQueueCall, jni.runtimeVm);
        ok == a.ok && jni == old(jni).(androidEnv := a.envSet)
      ensures !isAndroid ==>
        var a := BridgeState.AttachThread(old(jni.jreEnv), isUseStackQueueCall, jni.dalvikVm);
        ok == a.ok && jni == old(jni).(jreEnv := a.envSet)
    {
      var envSet := if isAndroid then jni.androidEnv else jni.jreEnv;
      if envSet || !isUseStackQueueCall {
        return true;
      }
      if isAndroid && jni.runtimeVm {
        jni := jni.(androidEnv := true);
        return true;
      } else if !isAndroid && jni.dalvikVm {
        jni := jni.(jreEnv := true);
        return true;
      }
      return false;
    }

    /** nativeAttachThreadToOther. */
    method AttachThreadToOther(isAndroid: bool, useQueue: bool) returns (ok: bool)
      modifies this`isUseStackQueueCall, this`jni, this`isPrepareGrabPos
      ensures Snapshot() == BridgeState.AttachThreadToOtherStep(old(Snapshot()), isAndroid, useQueue).next
      ensures ok == BridgeState.AttachThreadToOtherStep(old(Snapshot()), isAndroid, useQueue).ok
    {
      isUseStackQueueCall := useQueue;
      if isAndroid {
        ok := AttachThread(true);
      } else {
        ok := AttachThread(false);
      }
      if isUseStackQueueCall && isAndroid && ok {
        isPrepareGrabPos := true;
      }
    }

    /** nativeSetInputReady: returns the dispatch mode, not the readiness. */
    method SetInputReady(ready: bool) returns (mode: bool)
      modifies this`isInputReady
      ensures Snapshot() == old(Snapshot()).(inputReady := ready)
      ensures mode == Snapshot().useQueue
    {
      isInputReady := ready;
      return isUseStackQueueCall;
    }

    /** nativeSetGrabbing. */
    method SetGrabbing(grabbing: bool, xset: int, yset: int)
      modifies this`isGrabbing, this`grabCursorX, this`grabCursorY, this`isPrepareGrabPos
      ensures Snapshot() == BridgeState.SetGrabbingStep(old(Snapshot()), grabbing, xset, yset)
    {
      isGrabbing := grabbing;
      if isGrabbing {
        grabCursorX := xset;
        grabCursorY := yset;
        isPrepareGrabPos := true;
      }
    }

    /** nativeIsGrabbing. */
    method IsGrabbing() returns (grabbing: bool)
      ensures grabbing == Snapshot().grab.grabbing
    {
      return isGrabbing;
    }

    /** nglfwSetShowingWindow. */
    method SetShowingWindow(window: int)
      modifies this`showingWindow
      ensures Snapshot() == old(Snapshot()).(window := window)
    {
      showingWindow := window;
    }

    /** sendData: fetch the Android-side env when it is missing, then make
        the queued call, or return silently when there is still no env. */
    method SendData(kind: Kind, i1: int, i2: int, i3: int, i4: int)
      modifies this`jni, this`log
      ensures Snapshot() == BridgeState.SendData(old(Snapshot()), Payload(kind, i1, i2, i3, i4)).next
      ensures log == old(log) + BridgeState.SendData(old(Snapshot()), Payload(kind, i1, i2, i3, i4)).emitted
    {
      if !jni.androidEnv {
        jni := jni.(androidEnv := jni.getEnvSucceeds);
      }
      if !jni.androidEnv {
        return;
      }
      log := log + [Event(Queued, Payload(kind, i1, i2, i3, i4))];
    }

    /** The direct path: a call through the registered pointer, handed the
        showing window. */
    method Invoke(kind: Kind, i1: int, i2: int, i3: int, i4: int)
      modifies this`log
      ensures log == old(log) + [Event(Direct(showingWindow), Payload(kind, i1, i2, i3, i4))]
    {
      log := log + [Event(Direct(showingWindow), Payload(kind, i1, i2, i3, i4))];
    }

    /** The branch on the dispatch mode that every entry point makes once
        its gate is passed. */
    method Dispatch(kind: Kind, i1: int, i2: int, i3: int, i4: int)
      modifies this`jni, this`log
      ensures Snapshot() == BridgeState.Dispatch(old(Snapshot()), Payload(kind, i1, i2, i3, i4)).next
      ensures log == old(log) + BridgeState.Dispatch(old(Snapshot()), Payload(kind, i1, i2, i3, i4)).emitted
    {
      if isUseStackQueueCall {
        SendData(kind, i1, i2, i3, i4);
      } else {
        Invoke(kind, i1, i2, i3, i4);
      }
    }

    /** nativeSendChar: returns whether the event was consumed. */
    method SendChar(codepoint: JChar) returns (consumed: bool)
      modifies this`jni, this`log
      ensures consumed == BridgeState.Consumes(old(Snapshot()), Char)
      ensures Snapshot() == BridgeState.CharStep(old(Snapshot()), codepoint).next
      ensures log == old(log) + BridgeState.CharStep(old(Snapshot()), codepoint).emitted
    {
      if callbacks.invokeChar != 0 && isInputReady {
        Dispatch(Char, codepoint, 0, 0, 0);
        return true;
      }
      return false;
    }

    /** nativeSendCharMods: returns whether the event was consumed. */
    method SendCharMods(codepoint: JChar, mods: int) returns (consumed: bool)
      modifies this`jni, this`log
      ensures consumed == BridgeState.Consumes(old(Snapshot()), CharMods)
      ensures Snapshot() == BridgeState.CharModsStep(old(Snapshot()), codepoint, mods).next
      ensures log == old(log) + BridgeState.CharModsStep(old(Snapshot()), codepoint, mods).emitted
    {
      if callbacks.invokeCharMods != 0 && isInputReady {
        Dispatch(CharMods, codepoint, mods, 0, 0);
        return true;
      }
      return false;
    }

    /** nativeSendCursorPos: when the CursorPos slot is set and input is
        ready, the one-time enter signal, then the move. */
    method SendCursorPos(x: int, y: int)
      modifies this`jni, this`log, this`isCursorEntered, this`isPrepareGrabPos,
               this`grabCursorX, this`grabCursorY, this`lastCursorX, this`lastCursorY
      ensures Snapshot() == BridgeState.CursorPosStep(old(Snapshot()), x, y).next
      ensures log == old(log) + BridgeState.CursorPosStep(old(Snapshot()), x, y).emitted
    {
      if callbacks.invokeCursorPos != 0 && isInputReady {
        ghost var e := BridgeState.EnterStep(Snapshot());
        EnterCursor();
        ghost var m := BridgeState.MoveStep(Snapshot(), x, y);
        MoveCursor(x, y);
        assert log == old(log) + (e.emitted + m.emitted);
      }
    }

    /** The head of nativeSendCursorPos: synthesise CursorEnter(1) the
        first time; with no CursorEnter slot but grab mode on, only mark
        the cursor as entered. */
    method EnterCursor()
      modifies this`jni, this`log, this`isCursorEntered
      ensures Snapshot() == BridgeState.EnterStep(old(Snapshot())).next
      ensures log == old(log) + BridgeState.EnterStep(old(Snapshot())).emitted
    {
      if !isCursorEntered {
        if callbacks.invokeCursorEnter != 0 {
          isCursorEntered := true;
          Dispatch(CursorEnter, 1, 0, 0, 0);
        } else if isGrabbing {
          isCursorEntered := true;
        }
      }
    }

    /** The rest of nativeSendCursorPos: the grab bookkeeping, then the
        position event (the raw position on the direct path, the grab
        position on the queued path while grabbing). */
    method MoveCursor(x: int, y: int)
      modifies this`jni, this`log, this`isPrepareGrabPos,
               this`grabCursorX, this`grabCursorY, this`lastCursorX, this`lastCursorY
      ensures Snapshot() == BridgeState.MoveStep(old(Snapshot()), x, y).next
      ensures log == old(log) + BridgeState.MoveStep(old(Snapshot()), x, y).emitted
    {
      if isGrabbing && isPrepareGrabPos {
        lastCursorX, lastCursorY, isPrepareGrabPos := x, y, false;
      } else {
        ghost var s := Snapshot();
        if isGrabbing {
          grabCursorX, grabCursorY := grabCursorX + (x - lastCursorX), grabCursorY + (y - lastCursorY);
        }
        assert Snapshot() == s.(grab := s.grab.(grabX := grabCursorX, grabY := grabCursorY));
        ghost var p := BridgeState.PosDispatch(Snapshot(), BridgeState.QueuedPos(Snapshot().grab, x, y), x, y);
        DispatchPos(if isGrabbing then grabCursorX else x, if isGrabbing then grabCursorY else y, x, y);
        assert Snapshot() == p.next && log == old(log) + p.emitted;
        lastCursorX, lastCursorY := x, y;
      }
    }

    /** The CursorPos event of nativeSendCursorPos: the direct call gets
        the raw position (x, y), the queued call gets (qx, qy). */
    method DispatchPos(qx: int, qy: int, x: int, y: int)
      modifies this`jni, this`log
      ensures Snapshot() == BridgeState.PosDispatch(old(Snapshot()), Payload(CursorPos, qx, qy, 0, 0), x, y).next
      ensures log == old(log) + BridgeState.PosDispatch(old(Snapshot()), Payload(CursorPos, qx, qy, 0, 0), x, y).emitted
    {
      if !isUseStackQueueCall {
        Invoke(CursorPos, x, y, 0, 0);
      } else {
        SendData(CursorPos, qx, qy, 0, 0);
      }
    }

    /** nativeSendKey. */
    method SendKey(key: int, scancode: int, action: int, mods: int)
      modifies this`jni, this`log
      ensures Snapshot() == BridgeState.KeyStep(old(Snapshot()), key, scancode, action, mods).next
      ensures log == old(log) + BridgeState.KeyStep(old(Snapshot()), key, scancode, action, mods).emitted
    {
      if callbacks.invokeKey != 0 && isInputReady {
        Dispatch(Key, key, scancode, action, mods);
      }
    }

    /** nativeSendKeycode: Key, then CharMods, and Char only when CharMods
        was not consumed. */
    method SendKeycode(keycode: int, keychar: JChar, scancode: int, action: int, mods: int)
      modifies this`jni, this`log
      ensures Snapshot() == BridgeState.KeycodeStep(old(Snapshot()), keycode, keychar, scancode, action, mods).next
      ensures log == old(log) + BridgeState.KeycodeStep(old(Snapshot()), keycode, keychar, scancode, action, mods).emitted
    {
      if isInputReady {
        ghost var k := BridgeState.KeyStep(Snapshot(), keycode, scancode, action, mods);
        SendKey(keycode, scancode, action, mods);
        ghost var c := BridgeState.CharFallbackStep(Snapshot(), keychar, mods);
        var handled := SendCharMods(keychar, mods);
        if !handled {
          var _ := SendChar(keychar);
        }
        assert Snapshot() == c.next && log == old(log) + (k.emitted + c.emitted);
      }
    }

    /** nativeSendMouseButton: button -1 requests a grab resync. */
    method SendMouseButton(button: int, action: int, mods: int)
      modifies this`jni, this`log, this`isPrepareGrabPos
      ensures Snapshot() == BridgeState.MouseButtonStep(old(Snapshot()), button, action, mods).next
      ensures log == old(log) + BridgeState.MouseButtonStep(old(Snapshot()), button, action, mods).emitted
    {
      if isInputReady {
        if button == -1 {
          isPrepareGrabPos := true;
        } else if callbacks.invokeMouseButton != 0 {
          Dispatch(MouseButton, button, action, mods, 0);
        }
      }
    }

    /** nativeSendScreenSize: cache the size, then FramebufferSize and
        WindowSize. */
    method SendScreenSize(width: int, height: int)
      modifies this`jni, this`log, this`savedWidth, this`savedHeight
      ensures Snapshot() == BridgeState.ScreenSizeStep(old(Snapshot()), width, height).next
      ensures log == old(log) + BridgeState.ScreenSizeStep(old(Snapshot()), width, height).emitted
    {
      savedWidth := width;
      savedHeight := height;
      ghost var fb := BridgeState.GatedSend(Snapshot(), Payload(FramebufferSize, width, height, 0, 0));
      SendIfSet(FramebufferSize, width, height);
      ghost var ws := BridgeState.GatedSend(Snapshot(), Payload(WindowSize, width, height, 0, 0));
      SendIfSet(WindowSize, width, height);
      assert log == old(log) + (fb.emitted + ws.emitted);
    }

    /** One of the two size events of nativeSendScreenSize, sent when
        input is ready and its slot is set. */
    method SendIfSet(kind: Kind, width: int, height: int)
      modifies this`jni, this`log
      ensures Snapshot() == BridgeState.GatedSend(old(Snapshot()), Payload(kind, width, height, 0, 0)).next
      ensures log == old(log) + BridgeState.GatedSend(old(Snapshot()), Payload(kind, width, height, 0, 0)).emitted
    {
      if isInputReady && callbacks.Get(kind) != 0 {
        Dispatch(kind, width, height, 0, 0);
      }
    }

    /** nativeSendScroll, with the offsets as the integers the consumer
        receives. */
    method SendScroll(xoffset: int, yoffset: int)
      modifies this`jni, this`log
      ensures Snapshot() == BridgeState.ScrollStep(old(Snapshot()), xoffset, yoffset).next
      ensures log == old(log) + BridgeState.ScrollStep(old(Snapshot()), xoffset, yoffset).emitted
    {
      if callbacks.invokeScroll != 0 && isInputReady {
        Dispatch(Scroll, xoffset, yoffset, 0, 0);
      }
    }
  }
}
