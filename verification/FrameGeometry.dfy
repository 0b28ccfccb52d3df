/** The geometry of a window and of its frame, as the manager has it and as the server was told. */
module FrameGeometry {
  import opened BufferModel
  import opened BufferProofs
  import opened Values

  datatype Geometry = Geometry(x: int, y: int, width: int, height: int, border: int)

  /** A window with its cached geometries, its request buffer, and the geometry that its frame was
      last given on the server. */
  datatype Framed = Framed(
    serverGeometry: Geometry,
    serverFrameGeometry: Geometry,
    serverInput: Extents,
    lastServerInput: Extents,
    shaded: bool,
    reparented: bool,
    inputOnly: bool,
    buffer: Buffer,
    frameOnServer: Geometry)

  /** The frame around a window: as wide and as high as the window with its borders and extents, or,
      for a shaded window, only as high as the extents and borders alone. */
  function Grown(g: Geometry, input: Extents, shaded: bool): Geometry {
    Geometry(g.x - g.border - input.left,
             g.y - g.border - input.top,
             g.width + g.border * 2 + input.left + input.right,
             (if shaded then 0 else g.height) + g.border * 2 + input.top + input.bottom,
             g.border)
  }

  const SIZES: Mask := {X, Y, Width, Height}

  function Component(g: Geometry, f: Field): int {
    match f
    case X => g.x
    case Y => g.y
    case Width => g.width
    case Height => g.height
    case _ => g.border
  }

  /** The fields of place and size in which two geometries differ. */
  function Differing(a: Geometry, b: Geometry): (m: Mask)
    ensures forall f :: f in m <==> f in SIZES && Component(a, f) != Component(b, f)
  {
    set f | f in SIZES && Component(a, f) != Component(b, f)
  }

  /** `base` with the given fields of `over`. */
  function Overlay(base: Geometry, over: Geometry, mask: Mask): Geometry {
    Geometry(if X in mask then over.x else base.x,
             if Y in mask then over.y else base.y,
             if Width in mask then over.width else base.width,
             if Height in mask then over.height else base.height,
             base.border)
  }

  /** The fields of the frame that would be pending during a call, if nothing were sent. */
  function FrameMask(b: Buffer, e: Event): Mask {
    b.frame.mask + if e.Push? && e.target == Frame then e.mask else {}
  }

  /** A call into the buffer. When the frame request goes out, the server is given the cached frame
      geometry of that moment, in the fields of the request. */
  function Call(w: Framed, e: Event): Framed
    requires Possible(w.buffer, e)
  {
    var after := Step(w.buffer, e);
    w.(buffer := after,
       frameOnServer := if after.frame.mask == {}
                        then Overlay(w.frameOnServer, w.serverFrameGeometry, FrameMask(w.buffer, e))
                        else w.frameOnServer)
  }

  function CallIf(w: Framed, condition: bool, e: Event): Framed
    requires e.Push?
  {
    if condition then Call(w, e) else w
  }

  function Max(a: int, b: int): int {
    if a < b then b else a
  }

  /** The values a request stands for: its own where the mask says so, those of the window elsewhere;
      a width or height of zero is made one. */
  function Requested(g: Geometry, mask: Mask, xwc: Changes): Geometry {
    Geometry(if X in mask then xwc.x else g.x,
             if Y in mask then xwc.y else g.y,
             if Width !in mask then g.width else if xwc.width == 0 then 1 else xwc.width,
             if Height !in mask then g.height else if xwc.height == 0 then 1 else xwc.height,
             if BorderWidth in mask then xwc.borderWidth else g.border)
  }

  function AsChanges(g: Geometry, xwc: Changes): Changes {
    Changes(g.x, g.y, g.width, g.height, g.border, xwc.sibling, xwc.stackMode)
  }

  /** The fields in which the wrapper inside the frame has to be told something: what changes in the
      size of the frame, and what changes because the extents have. */
  function WrapperMask(frame: Geometry, frameMask: Mask, last: Extents, input: Extents): Mask {
    frameMask * {Width, Height}
    + (if last.left != input.left then {X} else {})
    + (if last.top != input.top then {Y} else {})
    + (if Max(0, frame.width - (last.right + last.left)) != Max(0, frame.width - (input.right + input.left))
       then {Width} else {})
    + (if Max(0, frame.height - (last.bottom + last.top)) != Max(0, frame.height - (input.bottom + input.top))
       then {Height} else {})
  }

  /** The fields in which the frame has to follow a request, and the stacking bits that are left of the
      request after the checks on its sibling. */
  function FrameChange(w: Framed, mask: Mask, xwc: Changes, stacking: Mask): Mask {
    Differing(w.serverFrameGeometry, Grown(Requested(w.serverGeometry, mask, xwc), w.serverInput, w.shaded)) + stacking
  }

  /** The fields that a request changes. */
  function ClientChange(w: Framed, mask: Mask, xwc: Changes): Mask {
    var g := Requested(w.serverGeometry, mask, xwc);
    Differing(w.serverGeometry, g) + if g.border != w.serverGeometry.border && !w.inputOnly then {BorderWidth} else {}
  }

  /** The cached geometries after a request. */
  function Moved(w: Framed, mask: Mask, xwc: Changes, stacking: Mask): Framed {
    var g := Requested(w.serverGeometry, mask, xwc);
    var target := Grown(g, w.serverInput, w.shaded);
    w.(serverGeometry := g,
       serverFrameGeometry := Overlay(w.serverFrameGeometry, target, FrameChange(w, mask, xwc, stacking)))
  }

  /** What is sent for a request once the cached geometries are up to date: to the frame, the wrapper and the
      client of a window that has a frame, to the client of any other. */
  function Passed(w: Framed, c: Changes, frameMask: Mask, clientMask: Mask): Framed {
    if w.reparented then
      var a := CallIf(w, frameMask != {}, Push(Frame, c, frameMask));
      var inner := WrapperMask(w.serverFrameGeometry, frameMask, w.lastServerInput, w.serverInput);
      var inside := c.(x := w.serverInput.left, y := w.serverInput.top);
      var b := CallIf(a, inner != {}, Push(Wrapper, inside, inner));
      var own := inner * {Width, Height, BorderWidth};
      CallIf(b, own != {}, Push(Client, inside, own))
    else
      CallIf(w, clientMask != {}, Push(Client, c, clientMask))
  }

  /** A request to change the geometry of the window. `stacking` are the stacking bits that are left of
      the request after the checks on its sibling, for the frame and for a window without one. */
  function Reconfigure(w: Framed, mask: Mask, xwc: Changes, stacking: Mask): Framed
    requires stacking <= {Sibling, StackMode}
  {
    Passed(Moved(w, mask, xwc, stacking), AsChanges(Requested(w.serverGeometry, mask, xwc), xwc),
           FrameChange(w, mask, xwc, stacking), ClientChange(w, mask, xwc) + stacking)
  }

  datatype Action =
    | Configure(mask: Mask, xwc: Changes, stacking: Mask)
    | SetExtents(input: Extents, mask: Mask, xwc: Changes)   // new extents, and the request they lead to
    | Shade(shaded: bool)
    | Buffered(e: Event)                                      // a lock taken or let go, or a query

  predicate Permitted(w: Framed, a: Action) {
    match a
    case Configure(_, _, stacking) => stacking <= {Sibling, StackMode}
    case SetExtents(_, _, _) => true
    case Shade(_) => true
    case Buffered(e) => !e.Push? && Possible(w.buffer, e)
  }

  function Act(w: Framed, a: Action): Framed
    requires Permitted(w, a)
  {
    match a
    case Configure(mask, xwc, stacking) => Reconfigure(w, mask, xwc, stacking)
    case SetExtents(input, mask, xwc) =>
      Reconfigure(w.(serverInput := input), mask, xwc, {}).(lastServerInput := input)
    case Shade(shaded) => w.(shaded := shaded)
    case Buffered(e) => Call(w, e)
  }

  /** The cached frame geometry fits the window. */
  predicate FrameFits(w: Framed) {
    && w.serverFrameGeometry.x == Grown(w.serverGeometry, w.serverInput, w.shaded).x
    && w.serverFrameGeometry.y == Grown(w.serverGeometry, w.serverInput, w.shaded).y
    && w.serverFrameGeometry.width == Grown(w.serverGeometry, w.serverInput, w.shaded).width
    && w.serverFrameGeometry.height == Grown(w.serverGeometry, w.serverInput, w.shaded).height
  }

  /** Every request, with whatever mask and values, leaves a frame geometry that fits the window. */
  lemma ReconfigureFits(w: Framed, mask: Mask, xwc: Changes, stacking: Mask)
    requires stacking <= {Sibling, StackMode}
    ensures FrameFits(Reconfigure(w, mask, xwc, stacking))
    ensures Reconfigure(w, mask, xwc, stacking).serverGeometry == Requested(w.serverGeometry, mask, xwc)
  {
    hide Step, FrameMask;
  }

  /** A field of the frame for which nothing is pending has on the server the value it has in the cache. */
  ghost predicate FrameAgrees(w: Framed) {
    forall f :: f in SIZES && f !in w.buffer.frame.mask ==>
      Component(w.frameOnServer, f) == Component(w.serverFrameGeometry, f)
  }

  /** What a call needs to keep the agreement: it may already be lost in fields that it pushes. */
  ghost predicate AgreesExcept(w: Framed, mask: Mask) {
    forall f :: f in SIZES && f !in w.buffer.frame.mask && f !in mask ==>
      Component(w.frameOnServer, f) == Component(w.serverFrameGeometry, f)
  }

  lemma StepFrameMask(b: Buffer, e: Event)
    requires Possible(b, e)
    ensures Step(b, e).frame.mask == {} || Step(b, e).frame.mask == FrameMask(b, e)
  {
  }

  lemma CallAgrees(w: Framed, e: Event)
    requires Possible(w.buffer, e) && AgreesExcept(w, FrameMask(w.buffer, e))
    ensures FrameAgrees(Call(w, e))
  {
    StepFrameMask(w.buffer, e);
  }

  lemma ReconfigureAgrees(w: Framed, mask: Mask, xwc: Changes, stacking: Mask)
    requires stacking <= {Sibling, StackMode} && FrameAgrees(w) && w.reparented
    ensures FrameAgrees(Reconfigure(w, mask, xwc, stacking)) && Reconfigure(w, mask, xwc, stacking).reparented
  {
    hide Call, Step;
    var frameMask := FrameChange(w, mask, xwc, stacking);
    var moved := Moved(w, mask, xwc, stacking);
    assert AgreesExcept(moved, frameMask);
    var c := AsChanges(Requested(w.serverGeometry, mask, xwc), xwc);
    PushAgrees(moved, frameMask != {}, Push(Frame, c, frameMask));
    var a := CallIf(moved, frameMask != {}, Push(Frame, c, frameMask));
    var inner := WrapperMask(moved.serverFrameGeometry, frameMask, w.lastServerInput, w.serverInput);
    var inside := c.(x := w.serverInput.left, y := w.serverInput.top);
    PushAgrees(a, inner != {}, Push(Wrapper, inside, inner));
    var b := CallIf(a, inner != {}, Push(Wrapper, inside, inner));
    var own := inner * {Width, Height, BorderWidth};
    PushAgrees(b, own != {}, Push(Client, inside, own));
  }

  lemma PushAgrees(w: Framed, condition: bool, e: Event)
    requires e.Push? && AgreesExcept(w, if e.target == Frame then e.mask else {})
    requires e.target == Frame && !condition ==> e.mask == {}
    ensures FrameAgrees(CallIf(w, condition, e))
    ensures var r := CallIf(w, condition, e);
            r.(buffer := w.buffer, frameOnServer := w.frameOnServer) == w
  {
    if condition {
      CallAgrees(w, e);
    }
  }

  ghost predicate Run(actions: seq<Action>, states: seq<Framed>) {
    && |states| == |actions| + 1
    && states[0].reparented && states[0].buffer == EMPTY && FrameAgrees(states[0])
    && forall i :: 0 <= i < |actions| ==> Permitted(states[i], actions[i]) && states[i + 1] == Act(states[i], actions[i])
  }

  /** Under any schedule of requests, new extents, shading, locks and queries, the server has the
      cached frame geometry in every field that is not pending. */
  lemma {:induction false} RunsAgree(actions: seq<Action>, states: seq<Framed>, k: nat)
    requires Run(actions, states) && k <= |actions|
    ensures FrameAgrees(states[k]) && states[k].reparented
  {
    if k > 0 {
      RunsAgree(actions, states, k - 1);
      var w := states[k - 1];
      match actions[k - 1]
      case Configure(mask, xwc, stacking) => ReconfigureAgrees(w, mask, xwc, stacking);
      case SetExtents(input, mask, xwc) => ReconfigureAgrees(w.(serverInput := input), mask, xwc, {});
      case Shade(_) =>
      case Buffered(e) => CallAgrees(w, e);
    }
  }

  /** The request for the size of the window inside a frame, as far as it was passed on to the client. */
  function Told(w: Framed, mask: Mask, xwc: Changes, stacking: Mask): Mask
    requires stacking <= {Sibling, StackMode}
  {
    WrapperMask(Moved(w, mask, xwc, stacking).serverFrameGeometry, FrameChange(w, mask, xwc, stacking),
                w.lastServerInput, w.serverInput)
    * {Width, Height}
  }

  /** A client inside a frame is told of a new size exactly when the size with both borders changes,
      and of a new height only while it is not shaded or its borders change: a border that makes up
      for a change of size hides it from the client. */
  lemma ClientToldIff(w: Framed, mask: Mask, xwc: Changes, stacking: Mask)
    requires stacking <= {Sibling, StackMode} && FrameFits(w) && w.lastServerInput == w.serverInput
    ensures var g := w.serverGeometry;
            var r := Requested(g, mask, xwc);
            && (Width in Told(w, mask, xwc, stacking) <==> r.width + 2 * r.border != g.width + 2 * g.border)
            && (Height in Told(w, mask, xwc, stacking) <==>
                  if w.shaded then r.border != g.border else r.height + 2 * r.border != g.height + 2 * g.border)
  {
  }

  /** With new extents the client is told of its width when that changes with its borders or the extents change
      in width, and likewise of its height. */
  lemma ExtentsToldIff(w: Framed, input: Extents, mask: Mask, xwc: Changes)
    requires FrameFits(w) && w.lastServerInput == w.serverInput && !w.shaded
    requires var r := Requested(w.serverGeometry, mask, xwc);
             r.width + 2 * r.border > 0 && r.height + 2 * r.border > 0
    ensures var g := w.serverGeometry;
            var r := Requested(g, mask, xwc);
            var told := Told(w.(serverInput := input), mask, xwc, {});
            && (Width in told <==> r.width + 2 * r.border != g.width + 2 * g.border
                                   || input.left + input.right != w.serverInput.left + w.serverInput.right)
            && (Height in told <==> r.height + 2 * r.border != g.height + 2 * g.border
                                    || input.top + input.bottom != w.serverInput.top + w.serverInput.bottom)
  {
  }

  /** A window without borders, and a request to make room for a border. */
  const PLAIN := Framed(Geometry(0, 0, 100, 100, 0), Geometry(0, 0, 100, 100, 0), Extents(0, 0, 0, 0),
                        Extents(0, 0, 0, 0), false, true, false, EMPTY, Geometry(0, 0, 100, 100, 0))
  const NARROWER := NO_CHANGES.(width := 98, borderWidth := 1)

  /** So a client that has not been shaded can be left without word of its new width. */
  lemma ClientCanMissWidth()
    ensures exists w, mask, xwc :: Unnoticed(w, mask, xwc)
  {
    hide Told, Requested, FrameFits;
    PlainFits();
    ClientToldIff(PLAIN, {Width, BorderWidth}, NARROWER, {});
    assert Unnoticed(PLAIN, {Width, BorderWidth}, NARROWER);
  }

  lemma PlainFits()
    ensures FrameFits(PLAIN)
    ensures Requested(PLAIN.serverGeometry, {Width, BorderWidth}, NARROWER) == Geometry(0, 0, 98, 100, 1)
  {
  }

  /** A request changes the width of a client that is on show in its frame, which is not told. */
  predicate Unnoticed(w: Framed, mask: Mask, xwc: Changes) {
    && w.reparented && !w.shaded && FrameFits(w) && w.lastServerInput == w.serverInput
    && Requested(w.serverGeometry, mask, xwc).width != w.serverGeometry.width && Width !in Told(w, mask, xwc, {})
  }

  /** What the client of a reparented window was told, or will be once the buffer lets it go. */
  lemma ClientToldValues(w: Framed, mask: Mask, xwc: Changes, stacking: Mask, f: Field)
    requires stacking <= {Sibling, StackMode} && w.reparented && f in {Width, Height}
    ensures Effective(Reconfigure(w, mask, xwc, stacking).buffer, Client, f) ==
            if f in Told(w, mask, xwc, stacking) then Some(Component(Requested(w.serverGeometry, mask, xwc), f))
            else Effective(w.buffer, Client, f)
  {
    hide Step, Effective, Differing, WrapperMask;
    var frameMask, moved := FrameChange(w, mask, xwc, stacking), Moved(w, mask, xwc, stacking);
    var c := AsChanges(Requested(w.serverGeometry, mask, xwc), xwc);
    var e1 := Push(Frame, c, frameMask);
    var inner := WrapperMask(moved.serverFrameGeometry, frameMask, w.lastServerInput, w.serverInput);
    var inside := c.(x := w.serverInput.left, y := w.serverInput.top);
    var e2 := Push(Wrapper, inside, inner);
    var e3 := Push(Client, inside, inner * {Width, Height, BorderWidth});
    var a := CallIf(moved, frameMask != {}, e1);
    var b := CallIf(a, inner != {}, e2);
    StepEffective(moved.buffer, e1, Client, f);
    StepEffective(a.buffer, e2, Client, f);
    StepEffective(b.buffer, e3, Client, f);
  }

  /** So a client that is up to date stays so, as long as its border and its shading stay the same. */
  lemma ClientStaysUpToDate(w: Framed, mask: Mask, xwc: Changes, stacking: Mask, f: Field)
    requires stacking <= {Sibling, StackMode} && w.reparented && !w.shaded && f in {Width, Height}
    requires FrameFits(w) && w.lastServerInput == w.serverInput
    requires Requested(w.serverGeometry, mask, xwc).border == w.serverGeometry.border
    requires Effective(w.buffer, Client, f) == Some(Component(w.serverGeometry, f))
    ensures var r := Reconfigure(w, mask, xwc, stacking);
            Effective(r.buffer, Client, f) == Some(Component(r.serverGeometry, f))
  {
    hide Reconfigure, Effective, Told;
    ReconfigureFits(w, mask, xwc, stacking);
    ClientToldIff(w, mask, xwc, stacking);
    ClientToldValues(w, mask, xwc, stacking, f);
  }

  /** What the extents on the left and at the top are for a field of the place. */
  function Inset(e: Extents, f: Field): int {
    if f == X then e.left else e.top
  }

  /** The place inside the frame that the wrapper was last asked to take, or will be. */
  lemma WrapperPlaced(w: Framed, mask: Mask, xwc: Changes, stacking: Mask, f: Field)
    requires stacking <= {Sibling, StackMode} && w.reparented && f in {X, Y}
    ensures Effective(Reconfigure(w, mask, xwc, stacking).buffer, Wrapper, f) ==
            if Inset(w.lastServerInput, f) != Inset(w.serverInput, f) then Some(Inset(w.serverInput, f))
            else Effective(w.buffer, Wrapper, f)
  {
    hide Step, Effective, Differing;
    var frameMask, moved := FrameChange(w, mask, xwc, stacking), Moved(w, mask, xwc, stacking);
    var c := AsChanges(Requested(w.serverGeometry, mask, xwc), xwc);
    var e1 := Push(Frame, c, frameMask);
    var inner := WrapperMask(moved.serverFrameGeometry, frameMask, w.lastServerInput, w.serverInput);
    var inside := c.(x := w.serverInput.left, y := w.serverInput.top);
    var e2 := Push(Wrapper, inside, inner);
    var e3 := Push(Client, inside, inner * {Width, Height, BorderWidth});
    var a := CallIf(moved, frameMask != {}, e1);
    var b := CallIf(a, inner != {}, e2);
    StepEffective(moved.buffer, e1, Wrapper, f);
    StepEffective(a.buffer, e2, Wrapper, f);
    StepEffective(b.buffer, e3, Wrapper, f);
  }

  /** The place inside the frame that the wrapper has once all is sent: the one it was put at, `at`, until it is
      asked to move. */
  function WrapperPlace(b: Buffer, at: Extents, f: Field): int {
    match Effective(b, Wrapper, f)
    case None => Inset(at, f)
    case Some(place) => place
  }

  /** Frame and wrapper, as they were last asked to be, have the client where the window is. */
  ghost predicate InPlace(w: Framed, at: Extents) {
    && w.reparented && w.lastServerInput == w.serverInput
    && forall f :: f in {X, Y} ==> FieldInPlace(w, at, f)
  }

  ghost predicate FieldInPlace(w: Framed, at: Extents, f: Field) {
    && WrapperPlace(w.buffer, at, f) == Inset(w.serverInput, f)
    && Component(w.serverFrameGeometry, f) + WrapperPlace(w.buffer, at, f) + w.serverGeometry.border
       == Component(w.serverGeometry, f)
  }

  lemma ReconfigureInPlace(w: Framed, at: Extents, input: Extents, mask: Mask, xwc: Changes, stacking: Mask)
    requires stacking <= {Sibling, StackMode} && InPlace(w, at)
    ensures InPlace(Reconfigure(w.(serverInput := input), mask, xwc, stacking).(lastServerInput := input), at)
  {
    hide Reconfigure, Effective;
    var v := w.(serverInput := input);
    ReconfigureFits(v, mask, xwc, stacking);
    ReconfigureKeeps(v, mask, xwc, stacking);
    WrapperPlaced(v, mask, xwc, stacking, X);
    WrapperPlaced(v, mask, xwc, stacking, Y);
    assert FieldInPlace(w, at, X) && FieldInPlace(w, at, Y);
  }

  lemma ReconfigureKeeps(w: Framed, mask: Mask, xwc: Changes, stacking: Mask)
    requires stacking <= {Sibling, StackMode}
    ensures var r := Reconfigure(w, mask, xwc, stacking);
            && r.serverInput == w.serverInput && r.lastServerInput == w.lastServerInput
            && r.reparented == w.reparented && r.shaded == w.shaded
  {
    hide Step, FrameMask, Differing, WrapperMask;
  }

  /** Under any schedule of requests, new extents, shading, locks and queries, the frame and the wrapper in it,
      each at the place last asked for, have the client inside its border where the window is. */
  lemma {:induction false} RunsInPlace(actions: seq<Action>, states: seq<Framed>, k: nat)
    requires Run(actions, states) && k <= |actions|
    requires FrameFits(states[0]) && states[0].lastServerInput == states[0].serverInput
    ensures InPlace(states[k], states[0].serverInput)
  {
    hide Reconfigure, Effective, Step;
    var at := states[0].serverInput;
    if k == 0 {
      assert Effective(EMPTY, Wrapper, X) == None && Effective(EMPTY, Wrapper, Y) == None by {
        NothingAsked(X);
        NothingAsked(Y);
      }
    } else {
      RunsInPlace(actions, states, k - 1);
      var w := states[k - 1];
      match actions[k - 1]
      case Configure(mask, xwc, stacking) =>
        ReconfigureInPlace(w, at, w.serverInput, mask, xwc, stacking);
        ReconfigureKeeps(w, mask, xwc, stacking);
      case SetExtents(input, mask, xwc) => ReconfigureInPlace(w, at, input, mask, xwc, {});
      case Shade(_) =>
        assert FieldInPlace(w, at, X) && FieldInPlace(w, at, Y);
      case Buffered(e) =>
        StepEffective(w.buffer, e, Wrapper, X);
        StepEffective(w.buffer, e, Wrapper, Y);
        assert FieldInPlace(w, at, X) && FieldInPlace(w, at, Y);
    }
  }

  lemma NothingAsked(f: Field)
    ensures Effective(EMPTY, Wrapper, f) == None
  {
  }

  /** Whether a request changes a field that is sent to a client without a frame: a window that only takes input
      has no border. */
  predicate IsChanged(w: Framed, mask: Mask, xwc: Changes, f: Field) {
    f in SIZES + {BorderWidth} && (f == BorderWidth ==> !w.inputOnly)
    && Component(Requested(w.serverGeometry, mask, xwc), f) != Component(w.serverGeometry, f)
  }

  /** Of a window without a frame, just the fields that a request changes are sent to the client, and nothing is
      sent to anybody else. */
  lemma UnframedToldIff(w: Framed, mask: Mask, xwc: Changes, stacking: Mask, t: Target, f: Field)
    requires stacking <= {Sibling, StackMode} && !w.reparented && f !in {Sibling, StackMode}
    ensures Effective(Reconfigure(w, mask, xwc, stacking).buffer, t, f) ==
            if t == Client && IsChanged(w, mask, xwc, f)
            then Some(Component(Requested(w.serverGeometry, mask, xwc), f)) else Effective(w.buffer, t, f)
  {
    hide Step, Effective;
    var c := AsChanges(Requested(w.serverGeometry, mask, xwc), xwc);
    StepEffective(Moved(w, mask, xwc, stacking).buffer, Push(Client, c, ClientChange(w, mask, xwc) + stacking), t, f);
  }

  /** With nothing pending before, what one request sends goes to the frame first, then to the wrapper and then to
      the client. */
  lemma SentFromTheFrameIn(w: Framed, mask: Mask, xwc: Changes, stacking: Mask)
    requires stacking <= {Sibling, StackMode} && w.buffer.Idle()
    ensures InOrder(w.buffer.sent, Reconfigure(w, mask, xwc, stacking).buffer.sent)
  {
    hide Step, Differing, WrapperMask, FrameChange, ClientChange, Requested, UpTo, InOrder, CallIf;
    var base := w.buffer.sent;
    var frameMask, moved := FrameChange(w, mask, xwc, stacking), Moved(w, mask, xwc, stacking);
    var c := AsChanges(Requested(w.serverGeometry, mask, xwc), xwc);
    var inner := WrapperMask(moved.serverFrameGeometry, frameMask, w.lastServerInput, w.serverInput);
    var inside := c.(x := w.serverInput.left, y := w.serverInput.top);
    IdleUpTo(w.buffer);
    if w.reparented {
      CallInOrder(base, moved, frameMask != {}, Frame, c, frameMask);
      var a := CallIf(moved, frameMask != {}, Push(Frame, c, frameMask));
      CallInOrder(base, a, inner != {}, Wrapper, inside, inner);
      var b := CallIf(a, inner != {}, Push(Wrapper, inside, inner));
      var own := inner * {Width, Height, BorderWidth};
      CallInOrder(base, b, own != {}, Client, inside, own);
      UpToInOrder(base, CallIf(b, own != {}, Push(Client, inside, own)).buffer, 3);
    } else {
      var own := ClientChange(w, mask, xwc) + stacking;
      UpToMore(base, moved.buffer, 0, 2);
      CallInOrder(base, moved, own != {}, Client, c, own);
      UpToInOrder(base, CallIf(moved, own != {}, Push(Client, c, own)).buffer, 3);
    }
  }

  lemma CallInOrder(base: seq<Message>, w: Framed, condition: bool, t: Target, changes: Changes, mask: Mask)
    requires UpTo(base, w.buffer, Rank(t) - 1)
    ensures UpTo(base, CallIf(w, condition, Push(t, changes, mask)).buffer, Rank(t))
  {
    hide UpTo, Step;
    PushInOrder(base, w.buffer, t, changes, mask);
    UpToMore(base, w.buffer, Rank(t) - 1, Rank(t));
  }
}
