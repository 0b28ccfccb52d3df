/** The configure request buffer of a window as a step machine: requests are kept back while locks
    are held on the buffer, later values replacing earlier ones, and let go when none is.

    Every function of this module gives the whole state after one call into the buffer. */
module BufferModel {

  datatype Field = X | Y | Width | Height | BorderWidth | Sibling | StackMode

  type Mask = set<Field>

  datatype Changes = Changes(x: int, y: int, width: int, height: int, borderWidth: int, sibling: int, stackMode: int) {
    function Get(f: Field): int {
      match f
      case X => x
      case Y => y
      case Width => width
      case Height => height
      case BorderWidth => borderWidth
      case Sibling => sibling
      case StackMode => stackMode
    }
  }

  const NO_CHANGES := Changes(0, 0, 0, 0, 0, 0, 0)

  /** `to` with the values of `from` that the mask names. */
  function Apply(from: Changes, to: Changes, mask: Mask): (r: Changes)
    ensures forall f :: r.Get(f) == if f in mask then from.Get(f) else to.Get(f)
  {
    Changes(if X in mask then from.x else to.x,
            if Y in mask then from.y else to.y,
            if Width in mask then from.width else to.width,
            if Height in mask then from.height else to.height,
            if BorderWidth in mask then from.borderWidth else to.borderWidth,
            if Sibling in mask then from.sibling else to.sibling,
            if StackMode in mask then from.stackMode else to.stackMode)
  }

  datatype Target = Client | Wrapper | Frame

  /** What the buffer sends to the server. */
  datatype Message =
    | Configure(target: Target, changes: Changes, mask: Mask)
    | SyntheticNotify

  /** A request kept back: the fields of the mask still have to be sent. */
  datatype Pending = Pending(changes: Changes, mask: Mask)

  /** A lock that was obtained: whether it holds the buffer back, and whether anybody still has it. */
  datatype Lock = Lock(armed: bool, live: bool)

  datatype Buffer = Buffer(
    client: Pending, wrapper: Pending, frame: Pending, synthetic: bool,
    lockCount: int, locks: seq<Lock>, sent: seq<Message>) {

    function Of(t: Target): Pending {
      match t
      case Client => client
      case Wrapper => wrapper
      case Frame => frame
    }

    predicate Idle() {
      client.mask == {} && wrapper.mask == {} && frame.mask == {} && !synthetic
    }
  }

  const EMPTY := Buffer(Pending(NO_CHANGES, {}), Pending(NO_CHANGES, {}), Pending(NO_CHANGES, {}), false, 0, [], [])

  /** Whether what is pending has to be sent at once, whatever locks are held. */
  predicate Immediate(b: Buffer) {
    || b.frame.mask * {StackMode, Sibling} != {}
    || b.frame.mask * {Width, Height, BorderWidth} != {}
    || b.wrapper.mask * {Width, Height, BorderWidth, X, Y} != {}
    || b.client.mask * {Width, Height, BorderWidth, X, Y} != {}
  }

  function Outgoing(t: Target, p: Pending): seq<Message> {
    if p.mask == {} then [] else [Configure(t, p.changes, p.mask)]
  }

  /** The number of locks that are still held by somebody but do not hold the buffer back. */
  function Disarmed(locks: seq<Lock>): nat {
    if locks == [] then 0
    else Disarmed(locks[..|locks| - 1]) + if locks[|locks| - 1].live && !locks[|locks| - 1].armed then 1 else 0
  }

  /** The number of locks that hold the buffer back. */
  function Armed(locks: seq<Lock>): nat {
    if locks == [] then 0
    else Armed(locks[..|locks| - 1]) + if locks[|locks| - 1].armed then 1 else 0
  }

  /** Every lock that somebody still has, armed again. */
  function Rearmed(locks: seq<Lock>): (r: seq<Lock>)
    ensures |r| == |locks|
    ensures forall i :: 0 <= i < |r| ==> r[i] == if locks[i].live then locks[i].(armed := true) else locks[i]
  {
    seq(|locks|, i requires 0 <= i < |locks| => if locks[i].live then locks[i].(armed := true) else locks[i])
  }

  /** Everything pending is sent, the synthetic notification last, and the locks are armed again. */
  function Flush(b: Buffer): Buffer {
    Buffer(b.client.(mask := {}), b.wrapper.(mask := {}), b.frame.(mask := {}), false,
           b.lockCount + Disarmed(b.locks), Rearmed(b.locks),
           b.sent + Outgoing(Frame, b.frame) + Outgoing(Wrapper, b.wrapper) + Outgoing(Client, b.client)
           + if b.synthetic then [SyntheticNotify] else [])
  }

  function Dispatch(b: Buffer, force: bool): Buffer {
    if (b.lockCount == 0 && !b.Idle()) || Immediate(b) || force then Flush(b) else b
  }

  function Merged(p: Pending, changes: Changes, mask: Mask): Pending {
    Pending(Apply(changes, p.changes, mask), p.mask + mask)
  }

  /** A call from outside. The locks are numbered in the order in which they were obtained. */
  datatype Event =
    | Push(target: Target, changes: Changes, mask: Mask)
    | PushSynthetic
    | ObtainLock
    | ReleaseLock(i: nat)     // by somebody who keeps the lock
    | DropLock(i: nat)        // the last one to have the lock lets go of it
    | Force                   // a query, or an explicit release of the whole buffer

  /** Whether a call can be made: a lock can only be used by somebody who has it. */
  predicate Possible(b: Buffer, e: Event) {
    (e.ReleaseLock? || e.DropLock?) ==> e.i < |b.locks| && b.locks[e.i].live
  }

  function Step(b: Buffer, e: Event): Buffer
    requires Possible(b, e)
  {
    match e
    case Push(Client, changes, mask) => Dispatch(b.(client := Merged(b.client, changes, mask)), false)
    case Push(Wrapper, changes, mask) => Dispatch(b.(wrapper := Merged(b.wrapper, changes, mask)), false)
    case Push(Frame, changes, mask) => Dispatch(b.(frame := Merged(b.frame, changes, mask)), false)
    case PushSynthetic => Dispatch(b.(synthetic := true), false)
    case ObtainLock => b.(locks := b.locks + [Lock(true, true)], lockCount := b.lockCount + 1)
    case ReleaseLock(i) => Release(b, i)
    case DropLock(i) => Release(b.(locks := b.locks[i := b.locks[i].(live := false)]), i)
    case Force => Dispatch(b, true)
  }

  /** A release counts the lock out, dispatches while the lock is still marked as armed, and only
      then clears the mark. */
  function Release(b: Buffer, i: nat): Buffer
    requires i < |b.locks|
  {
    var after := if b.locks[i].armed then Released(b) else b;
    after.(locks := after.locks[i := after.locks[i].(armed := false)])
  }

  function Released(b: Buffer): (r: Buffer)
    ensures |r.locks| == |b.locks|
  {
    Dispatch(b.(lockCount := b.lockCount - 1), false)
  }

  ghost predicate Run(events: seq<Event>, states: seq<Buffer>) {
    && |states| == |events| + 1 && states[0] == EMPTY
    && forall i :: 0 <= i < |events| ==> Possible(states[i], events[i]) && states[i + 1] == Step(states[i], events[i])
  }
}
