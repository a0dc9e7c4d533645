/** The vocabulary of the input bridge: the GLFW callback kinds it can
    deliver, the two ways an event reaches the consumer, and the table of
    registered callback pointers (one slot per kind). */
module GlfwEvents {

  /** A UTF-16 code unit, as carried by a Java `char`. */
  type JChar = c: int | 0 <= c < 0x1_0000

  /** The nine GLFW callback kinds the bridge knows about. */
  datatype Kind =
    | Char | CharMods | CursorEnter | CursorPos | FramebufferSize
    | Key | MouseButton | Scroll | WindowSize

  /** How an event reached the consumer: a call through the registered
      function pointer, which is handed the showing window, or the queued
      cross-VM call `receiveCallback(type, i1, i2, i3, i4)`. */
  datatype Path = Direct(window: int) | Queued

  /** What the consumer decodes: the kind and four integer fields
      (unused fields are 0). */
  datatype Payload = Payload(kind: Kind, i1: int, i2: int, i3: int, i4: int)

  /** One delivered event, as recorded in the bridge's log. */
  datatype Event = Event(path: Path, payload: Payload)

  /** The GLFW_invoke_* slots: the function pointer registered for each
      kind, 0 standing for NULL. */
  datatype Callbacks = Callbacks(
    invokeChar: int, invokeCharMods: int, invokeCursorEnter: int,
    invokeCursorPos: int, invokeFramebufferSize: int, invokeKey: int,
    invokeMouseButton: int, invokeScroll: int, invokeWindowSize: int)
  {
    /** The pointer in the slot of kind `k`. */
    function Get(k: Kind): int {
      match k
      case Char => invokeChar
      case CharMods => invokeCharMods
      case CursorEnter => invokeCursorEnter
      case CursorPos => invokeCursorPos
      case FramebufferSize => invokeFramebufferSize
      case Key => invokeKey
      case MouseButton => invokeMouseButton
      case Scroll => invokeScroll
      case WindowSize => invokeWindowSize
    }

    /** The table with slot `k` overwritten by `p`. */
    function Store(k: Kind, p: int): (c: Callbacks)
      ensures c.Get(k) == p
      ensures forall j :: j != k ==> c.Get(j) == Get(j)
    {
      match k
      case Char => this.(invokeChar := p)
      case CharMods => this.(invokeCharMods := p)
      case CursorEnter => this.(invokeCursorEnter := p)
      case CursorPos => this.(invokeCursorPos := p)
      case FramebufferSize => this.(invokeFramebufferSize := p)
      case Key => this.(invokeKey := p)
      case MouseButton => this.(invokeMouseButton := p)
      case Scroll => this.(invokeScroll := p)
      case WindowSize => this.(invokeWindowSize := p)
    }
  }

  /** Two tables that agree on every slot are the same table. */
  lemma CallbacksExt(a: Callbacks, b: Callbacks)
    requires forall k :: a.Get(k) == b.Get(k)
    ensures a == b
  {
    assert a.Get(Char) == b.Get(Char) && a.Get(CharMods) == b.Get(CharMods);
    assert a.Get(CursorEnter) == b.Get(CursorEnter) && a.Get(CursorPos) == b.Get(CursorPos);
    assert a.Get(FramebufferSize) == b.Get(FramebufferSize) && a.Get(Key) == b.Get(Key);
    assert a.Get(MouseButton) == b.Get(MouseButton) && a.Get(Scroll) == b.Get(Scroll);
    assert a.Get(WindowSize) == b.Get(WindowSize);
  }

  /** The payloads of a run of events, in order. */
  function Payloads(es: seq<Event>): (ps: seq<Payload>)
    ensures |ps| == |es|
    ensures forall k :: 0 <= k < |es| ==> ps[k] == es[k].payload
  {
    if es == [] then [] else [es[0].payload] + Payloads(es[1..])
  }

  /** The payloads of two runs joined are the two runs' payloads joined. */
  lemma {:induction false} PayloadsAppend(a: seq<Event>, b: seq<Event>)
    ensures Payloads(a + b) == Payloads(a) + Payloads(b)
  {
    if a == [] {
      assert a + b == b;
    } else {
      assert (a + b)[1..] == a[1..] + b;
      PayloadsAppend(a[1..], b);
    }
  }

  /** How many payloads of kind `k` a run holds. */
  function Count(ps: seq<Payload>, k: Kind): (n: nat)
    ensures n <= |ps|
    ensures n == 0 <==> forall j :: 0 <= j < |ps| ==> ps[j].kind != k
  {
    if ps == [] then 0 else (if ps[0].kind == k then 1 else 0) + Count(ps[1..], k)
  }

  lemma {:induction false} CountAppend(a: seq<Payload>, b: seq<Payload>, k: Kind)
    ensures Count(a + b, k) == Count(a, k) + Count(b, k)
  {
    if a != [] {
      assert (a + b)[1..] == a[1..] + b;
      CountAppend(a[1..], b, k);
    } else {
      assert a + b == b;
    }
  }
}
