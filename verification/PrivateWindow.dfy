/** The part of a window that reconfigures it: its geometries are fields, and its requests go through
    its configure request buffer. */
module PrivateWindow {
  import opened BufferModel
  import opened BufferProofs
  import opened ConfigureBuffer
  import opened FrameGeometry
  import opened RestackGeometry
  import opened FrameExtents
  import opened Values

  class PrivateWindow {
    var serverGeometry: Geometry
    var serverFrameGeometry: Geometry
    var serverInput: Extents
    var lastServerInput: Extents
    var shaded: bool
    var reparented: bool
    var inputOnly: bool
    var border: Extents           // what its decoration shows around it
    var alreadyDecorated: bool
    const configureBuffer: ConfigureRequestBuffer

    /** The geometry that the frame was last given on the server. */
    ghost var frameOnServer: Geometry

    constructor (g: Geometry, frame: Geometry, input: Extents, reparented: bool, inputOnly: bool)
      ensures Valid() && fresh(configureBuffer) && fresh(configureBuffer.held)
      ensures State() == Framed(g, frame, input, input, false, reparented, inputOnly, EMPTY, frame)
      ensures border == NO_EXTENTS && !alreadyDecorated
    {
      border, alreadyDecorated := NO_EXTENTS, false;
      serverGeometry, serverFrameGeometry, frameOnServer := g, frame, frame;
      serverInput, lastServerInput := input, input;
      shaded, this.reparented, this.inputOnly := false, reparented, inputOnly;
      configureBuffer := new ConfigureRequestBuffer();
    }

    ghost predicate Valid()
      reads this, configureBuffer, configureBuffer.held
    {
      configureBuffer.Valid() && Quiescent(configureBuffer.State())
    }

    ghost function State(): Framed
      requires Valid()
      reads this, configureBuffer, configureBuffer.held
    {
      Framed(serverGeometry, serverFrameGeometry, serverInput, lastServerInput, shaded, reparented, inputOnly,
             configureBuffer.State(), frameOnServer)
    }

    /** What the server does with a frame request that is let go. */
    ghost method Served(before: Framed, e: Event)
      requires Valid() && Possible(before.buffer, e) && configureBuffer.State() == Step(before.buffer, e)
      requires State() == before.(buffer := configureBuffer.State())
      modifies this`frameOnServer
      ensures Valid() && State() == Call(before, e)
    {
      hide Step, Quiescent, FrameMask, Overlay;
      if configureBuffer.State().frame.mask == {} {
        frameOnServer := Overlay(frameOnServer, serverFrameGeometry, FrameMask(before.buffer, e));
      }
    }

    /** A request to change the geometry: redundant fields are dropped from its mask, the geometries are
        brought up to date field by field, and what is left goes to the frame, the wrapper and the client. The
        request comes back with the values of the window. */
    method ReconfigureXWindow(mask: Mask, xwc: Changes, stacking: Mask) returns (after: Changes)
      requires Valid() && stacking <= {Sibling, StackMode}
      modifies this`serverGeometry, this`serverFrameGeometry, this`frameOnServer
      modifies configureBuffer, configureBuffer.held`armed
      ensures Valid() && State() == Reconfigure(old(State()), mask, xwc, stacking)
      ensures serverInput == old(serverInput) && configureBuffer.held == old(configureBuffer.held)
      ensures after == Leftover(old(State()), mask, xwc, stacking)
    {
      hide Quiescent, Passed, Requested, Grown, Differing, Overlay, WrapperMask;
      var c, valueMask, frameValueMask := UpdateGeometries(mask, xwc, stacking);
      after := PassOn(c, frameValueMask, valueMask + stacking);
    }

    method UpdateGeometries(mask: Mask, xwc: Changes, stacking: Mask)
      returns (c: Changes, valueMask: Mask, frameValueMask: Mask)
      requires Valid() && stacking <= {Sibling, StackMode}
      modifies this`serverGeometry, this`serverFrameGeometry
      ensures Valid() && State() == Moved(old(State()), mask, xwc, stacking)
      ensures c == AsChanges(Requested(old(serverGeometry), mask, xwc), xwc)
      ensures valueMask == ClientChange(old(State()), mask, xwc)
      ensures frameValueMask == FrameChange(old(State()), mask, xwc, stacking)
    {
      hide Quiescent, Requested, Grown, Differing, Overlay, Component, Changes.Get, Moved, ClientChange, FrameChange;
      ghost var before := State();
      c := Complete(mask, xwc);
      AsAsked(Requested(serverGeometry, mask, xwc), xwc);
      valueMask := UpdateGeometry(mask, c);
      frameValueMask := UpdateFrameGeometry(c, stacking);
      assert State() == before.(serverGeometry := serverGeometry, serverFrameGeometry := serverFrameGeometry);
      BroughtUpToDate(before, mask, xwc, stacking);
    }

    method PassOn(c: Changes, frameValueMask: Mask, clientMask: Mask) returns (after: Changes)
      requires Valid()
      modifies this`frameOnServer, configureBuffer, configureBuffer.held`armed
      ensures Valid() && State() == Passed(old(State()), c, frameValueMask, clientMask)
      ensures configureBuffer.held == old(configureBuffer.held)
      ensures after == if reparented && WrapperMask(serverFrameGeometry, frameValueMask, lastServerInput, serverInput) != {}
                       then c.(x := serverInput.left, y := serverInput.top) else c
    {
      hide Quiescent, Call, WrapperMask;
      after := c;
      if reparented {
        if frameValueMask != {} {
          PushFrame(c, frameValueMask);
        }
        var valueMask := InnerMask(frameValueMask);
        if valueMask != {} {
          after := c.(x := serverInput.left, y := serverInput.top);
          PushWrapper(after, valueMask);
        }
        valueMask := valueMask * {Width, Height, BorderWidth};
        if valueMask != {} {
          PushClient(after, valueMask);
        }
      } else if clientMask != {} {
        PushClient(c, clientMask);
      }
    }

    /** The values of a request, completed by those of the window; no width or height is zero. */
    method Complete(mask: Mask, xwc: Changes) returns (c: Changes)
      ensures c == AsChanges(Requested(serverGeometry, mask, xwc), xwc)
      ensures forall f :: f in SIZES + {BorderWidth} && f !in mask ==> c.Get(f) == Component(serverGeometry, f)
    {
      c := xwc.(x := if X in mask then xwc.x else serverGeometry.x,
                y := if Y in mask then xwc.y else serverGeometry.y,
                width := if Width in mask then xwc.width else serverGeometry.width,
                height := if Height in mask then xwc.height else serverGeometry.height,
                borderWidth := if BorderWidth in mask then xwc.borderWidth else serverGeometry.border);
      if Width in mask && c.width == 0 {
        c := c.(width := 1);
      }
      if Height in mask && c.height == 0 {
        c := c.(height := 1);
      }
    }

    /** The fields that change are set and stay in the mask, except for the border of an input-only window. */
    method UpdateGeometry(mask: Mask, c: Changes) returns (valueMask: Mask)
      requires forall f :: f in SIZES + {BorderWidth} && f !in mask ==> c.Get(f) == Component(serverGeometry, f)
      modifies this`serverGeometry
      ensures serverGeometry == Geometry(c.x, c.y, c.width, c.height, c.borderWidth)
      ensures valueMask == Differing(old(serverGeometry), serverGeometry)
                           + if serverGeometry.border != old(serverGeometry).border && !inputOnly then {BorderWidth} else {}
    {
      ghost var before := serverGeometry;
      valueMask := NotRedundant(mask, c);
      if BorderWidth in valueMask {
        serverGeometry := serverGeometry.(border := c.borderWidth);
      }
      if X in valueMask {
        serverGeometry := serverGeometry.(x := c.x);
      }
      if Y in valueMask {
        serverGeometry := serverGeometry.(y := c.y);
      }
      if Width in valueMask {
        serverGeometry := serverGeometry.(width := c.width);
      }
      if Height in valueMask {
        serverGeometry := serverGeometry.(height := c.height);
      }
      if BorderWidth in valueMask && inputOnly {
        valueMask := valueMask - {BorderWidth};
      }
      SameMask(valueMask, Differing(before, serverGeometry)
                          + if serverGeometry.border != before.border && !inputOnly then {BorderWidth} else {});
    }

    /** The mask without the fields that have the value already. */
    method NotRedundant(mask: Mask, c: Changes) returns (valueMask: Mask)
      ensures forall f :: f in valueMask <==>
                            f in mask && f in SIZES + {BorderWidth} && c.Get(f) != Component(serverGeometry, f)
    {
      valueMask := mask * {X, Y, Width, Height, BorderWidth};
      if X in valueMask && serverGeometry.x == c.x {
        valueMask := valueMask - {X};
      }
      if Y in valueMask && serverGeometry.y == c.y {
        valueMask := valueMask - {Y};
      }
      if Width in valueMask && serverGeometry.width == c.width {
        valueMask := valueMask - {Width};
      }
      if Height in valueMask && serverGeometry.height == c.height {
        valueMask := valueMask - {Height};
      }
      if BorderWidth in valueMask && serverGeometry.border == c.borderWidth {
        valueMask := valueMask - {BorderWidth};
      }
    }

    /** The fields in which the frame does not fit the window yet are set and stay in the mask, with the stacking
        bits; the height of the frame of a shaded window is that of its extents and borders. */
    method UpdateFrameGeometry(c: Changes, stacking: Mask) returns (frameValueMask: Mask)
      requires stacking <= {Sibling, StackMode}
      requires serverGeometry == Geometry(c.x, c.y, c.width, c.height, c.borderWidth)
      modifies this`serverFrameGeometry
      ensures var target := Grown(serverGeometry, serverInput, shaded);
              && frameValueMask == Differing(old(serverFrameGeometry), target) + stacking
              && serverFrameGeometry == Overlay(old(serverFrameGeometry), target, frameValueMask)
    {
      ghost var before := serverFrameGeometry;
      var x, y := c.x - serverGeometry.border - serverInput.left, c.y - serverGeometry.border - serverInput.top;
      var width := c.width + serverGeometry.border * 2 + serverInput.left + serverInput.right;
      var height := serverGeometry.border * 2 + serverInput.top + serverInput.bottom;
      if !shaded {
        height := c.height + height;
      }
      frameValueMask := {X, Y, Width, Height} + stacking;
      if serverFrameGeometry.x == x {
        frameValueMask := frameValueMask - {X};
      }
      if serverFrameGeometry.y == y {
        frameValueMask := frameValueMask - {Y};
      }
      if serverFrameGeometry.width == width {
        frameValueMask := frameValueMask - {Width};
      }
      if serverFrameGeometry.height == height {
        frameValueMask := frameValueMask - {Height};
      }
      SameMask(frameValueMask, Differing(before, Grown(serverGeometry, serverInput, shaded)) + stacking);
      if X in frameValueMask {
        serverFrameGeometry := serverFrameGeometry.(x := x);
      }
      if Y in frameValueMask {
        serverFrameGeometry := serverFrameGeometry.(y := y);
      }
      if Width in frameValueMask {
        serverFrameGeometry := serverFrameGeometry.(width := width);
      }
      if Height in frameValueMask {
        serverFrameGeometry := serverFrameGeometry.(height := height);
      }
    }

    /** What has to be told inside the frame: its new size, and what new extents change. */
    method InnerMask(frameValueMask: Mask) returns (valueMask: Mask)
      ensures valueMask == WrapperMask(serverFrameGeometry, frameValueMask, lastServerInput, serverInput)
    {
      valueMask := frameValueMask * {Width, Height};
      if lastServerInput.left != serverInput.left {
        valueMask := valueMask + {X};
      }
      if lastServerInput.top != serverInput.top {
        valueMask := valueMask + {Y};
      }
      var lastWrapperWidth := Max(0, serverFrameGeometry.width - (lastServerInput.right + lastServerInput.left));
      var lastWrapperHeight := Max(0, serverFrameGeometry.height - (lastServerInput.bottom + lastServerInput.top));
      var wrapperWidth := Max(0, serverFrameGeometry.width - (serverInput.right + serverInput.left));
      var wrapperHeight := Max(0, serverFrameGeometry.height - (serverInput.bottom + serverInput.top));
      if lastWrapperWidth != wrapperWidth {
        valueMask := valueMask + {Width};
      }
      if lastWrapperHeight != wrapperHeight {
        valueMask := valueMask + {Height};
      }
    }

    /** New borders and input extents, those of the borders where none are given. */
    method SetWindowFrameExtents(b: Extents, i: Option<Extents>, overrideRedirect: bool, gravity: Gravity, fills: bool,
                                 resizable: bool, workarea: Rect)
      requires Valid()
      modifies this, configureBuffer, configureBuffer.held`armed
      ensures Valid()
      ensures var input := if i.None? then b else i.value;
              var s := Setting(gravity, fills, old(alreadyDecorated), resizable, workarea);
              if overrideRedirect || (old(serverInput) == input && old(border) == b)
              then State() == old(State()) && border == old(border) && alreadyDecorated == old(alreadyDecorated)
              else && State() == Act(old(State()), SetExtents(input, GEOMETRY,
                                                              FrameRequest(old(serverGeometry), old(border), b, s)))
                   && border == b && alreadyDecorated
    {
      hide Quiescent, Reconfigure, FrameRequest;
      if overrideRedirect {
        return;
      }
      var input := if i.None? then b else i.value;
      if serverInput.left != input.left || serverInput.right != input.right || serverInput.top != input.top
         || serverInput.bottom != input.bottom || border.left != b.left || border.right != b.right
         || border.top != b.top || border.bottom != b.bottom {
        var xwc := FrameChanges(b, gravity, fills, resizable, workarea);
        ChangeExtents(input, xwc);
        border, alreadyDecorated := b, true;
      }
    }

    method ChangeExtents(input: Extents, xwc: Changes)
      requires Valid()
      modifies this, configureBuffer, configureBuffer.held`armed
      ensures Valid() && State() == Act(old(State()), SetExtents(input, GEOMETRY, xwc))
    {
      hide Quiescent, Reconfigure;
      serverInput := input;
      assert State() == old(State()).(serverInput := input);
      var after := ReconfigureXWindow(GEOMETRY, xwc, {});
      ghost var done := State();
      lastServerInput := serverInput;
      assert State() == done.(lastServerInput := input);
    }

    /** The request that new borders lead to, computed step by step. */
    method FrameChanges(b: Extents, gravity: Gravity, fills: bool, resizable: bool, workarea: Rect)
      returns (xwc: Changes)
      ensures xwc == FrameRequest(serverGeometry, border, b,
                                  Setting(gravity, fills, alreadyDecorated, resizable, workarea))
    {
      hide ShiftX, ShiftY, Along;
      var movementX := ShiftX(b, gravity) - ShiftX(border, gravity);
      var movementY := ShiftY(b, gravity) - ShiftY(border, gravity);
      var deltaWidth, deltaHeight := 0, 0;
      if fills {
        deltaWidth := -((b.left + b.right) - (border.left + border.right));
        deltaHeight := -((b.top + b.bottom) - (border.top + border.bottom));
      }
      var x, y := movementX + serverGeometry.x, movementY + serverGeometry.y;
      var width, height := deltaWidth + serverGeometry.width, deltaHeight + serverGeometry.height;
      if !alreadyDecorated {
        var offsetX := (b.left + b.right) - (border.left + border.right);
        var offsetY := (b.top + b.bottom) - (border.top + border.bottom);
        x := IntoWorkarea(x, width, workarea.x1, workarea.x2, movementX, offsetX);
        y := IntoWorkarea(y, height, workarea.y1, workarea.y2, movementY, offsetY);
        if resizable {
          if width + offsetX > workarea.x2 - workarea.x1 {
            width := workarea.x2 - workarea.x1 - offsetX;
          }
          if height + offsetY > workarea.y2 - workarea.y1 {
            height := workarea.y2 - workarea.y1 - offsetY;
          }
        }
      }
      xwc := NO_CHANGES.(x := x, y := y, width := width, height := height);
    }

    /** Takes a window that is past the end of the work area back into it, along one axis. */
    method IntoWorkarea(start: int, size: int, lo: int, hi: int, movement: int, offset: int) returns (x: int)
      ensures x == Along(start, size, lo, hi, movement, offset)
    {
      x := start;
      if x + size > hi {
        x := x - offset;
        if x < lo {
          x := lo + movement;
        }
        if x - offset < lo {
          x := x + offset;
        }
      }
    }

    /** The window is hidden or shown while it is in the shaded state, or is not any more. */
    method SetShaded(shaded: bool)
      requires Valid()
      modifies this`shaded
      ensures Valid() && State() == Act(old(State()), Shade(shaded))
    {
      hide Quiescent;
      this.shaded := shaded;
    }

    method ObtainLockOnConfigureRequests() returns (lock: ConfigureBufferLock)
      requires Valid()
      modifies this`frameOnServer, configureBuffer
      ensures Valid() && State() == Act(old(State()), Buffered(Event.ObtainLock))
      ensures fresh(lock) && configureBuffer.locks == old(configureBuffer.locks) + [lock]
    {
      hide Step, Quiescent, Call;
      ghost var before := State();
      lock := configureBuffer.ObtainLock();
      Served(before, Event.ObtainLock);
    }

    method ReleaseLock(i: nat)
      requires Valid() && i < |configureBuffer.locks| && configureBuffer.locks[i].live
      modifies this`frameOnServer, configureBuffer, configureBuffer.held
      ensures Valid() && State() == Act(old(State()), Buffered(Event.ReleaseLock(i)))
    {
      hide Step, Quiescent, Call;
      ghost var before := State();
      configureBuffer.ReleaseLock(i);
      Served(before, Event.ReleaseLock(i));
    }

    method DropLock(i: nat)
      requires Valid() && i < |configureBuffer.locks| && configureBuffer.locks[i].live
      modifies this`frameOnServer, configureBuffer, configureBuffer.held
      ensures Valid() && State() == Act(old(State()), Buffered(Event.DropLock(i)))
    {
      hide Step, Quiescent, Call;
      ghost var before := State();
      configureBuffer.DropLock(i);
      Served(before, Event.DropLock(i));
    }

    /** What is pending is sent before the server is asked. */
    method QueryAttributes()
      requires Valid()
      modifies this`frameOnServer, configureBuffer, configureBuffer.held`armed
      ensures Valid() && State() == Act(old(State()), Buffered(Force))
    {
      hide Step, Quiescent, Call;
      ghost var before := State();
      configureBuffer.ForceRelease();
      Served(before, Force);
    }

    method PushSyntheticConfigureNotify()
      requires Valid()
      modifies this`frameOnServer, configureBuffer, configureBuffer.held`armed
      ensures Valid() && State() == Act(old(State()), Buffered(PushSynthetic))
    {
      hide Step, Quiescent, Call;
      ghost var before := State();
      configureBuffer.PushSyntheticConfigureNotify();
      Served(before, PushSynthetic);
    }

    method PushFrame(xwc: Changes, mask: Mask)
      requires Valid()
      modifies this`frameOnServer, configureBuffer, configureBuffer.held`armed
      ensures Valid() && State() == Call(old(State()), Push(Frame, xwc, mask))
      ensures configureBuffer.held == old(configureBuffer.held)
    {
      hide Step, Quiescent, Call;
      ghost var before := State();
      configureBuffer.PushFrameRequest(xwc, mask);
      Served(before, Push(Frame, xwc, mask));
    }

    method PushWrapper(xwc: Changes, mask: Mask)
      requires Valid()
      modifies this`frameOnServer, configureBuffer, configureBuffer.held`armed
      ensures Valid() && State() == Call(old(State()), Push(Wrapper, xwc, mask))
      ensures configureBuffer.held == old(configureBuffer.held)
    {
      hide Step, Quiescent, Call;
      ghost var before := State();
      configureBuffer.PushWrapperRequest(xwc, mask);
      Served(before, Push(Wrapper, xwc, mask));
    }

    method PushClient(xwc: Changes, mask: Mask)
      requires Valid()
      modifies this`frameOnServer, configureBuffer, configureBuffer.held`armed
      ensures Valid() && State() == Call(old(State()), Push(Client, xwc, mask))
      ensures configureBuffer.held == old(configureBuffer.held)
    {
      hide Step, Quiescent, Call;
      ghost var before := State();
      configureBuffer.PushClientRequest(xwc, mask);
      Served(before, Push(Client, xwc, mask));
    }
  }

  /** Windows of which none shares its request buffer or a lock on it with another. */
  ghost predicate Apart(ws: seq<PrivateWindow>)
    reads ws, set i | 0 <= i < |ws| :: ws[i].configureBuffer
    reads set i, l | 0 <= i < |ws| && l in ws[i].configureBuffer.held :: l
  {
    && (forall i :: 0 <= i < |ws| ==> ws[i].Valid())
    && (forall i, j :: 0 <= i < j < |ws| ==>
          ws[i] != ws[j] && ws[i].configureBuffer != ws[j].configureBuffer
          && ws[i].configureBuffer.held !! ws[j].configureBuffer.held)
  }

  ghost function States(ws: seq<PrivateWindow>): (r: seq<Framed>)
    requires Apart(ws)
    reads ws, set i | 0 <= i < |ws| :: ws[i].configureBuffer
    reads set i, l | 0 <= i < |ws| && l in ws[i].configureBuffer.held :: l
    ensures |r| == |ws|
  {
    seq(|ws|, i requires 0 <= i < |ws| && ws[i].Valid()
        reads ws, set i | 0 <= i < |ws| :: ws[i].configureBuffer,
              set i, l | 0 <= i < |ws| && l in ws[i].configureBuffer.held :: l
        => ws[i].State())
  }

  /** A request to one of several windows; the others stay as they are. */
  method ReconfigureOne(ws: seq<PrivateWindow>, i: nat, mask: Mask, xwc: Changes, stacking: Mask)
    returns (after: Changes)
    requires Apart(ws) && i < |ws| && stacking <= {Sibling, StackMode}
    modifies ws[i], ws[i].configureBuffer, ws[i].configureBuffer.held`armed
    ensures Apart(ws) && after == Leftover(old(States(ws))[i], mask, xwc, {})
    ensures forall j :: 0 <= j < |ws| ==> ws[j].configureBuffer.held == old(ws[j].configureBuffer.held)
    ensures States(ws) == old(States(ws))[i := Reconfigure(old(States(ws))[i], mask, xwc, stacking)]
  {
    hide Leftover, Reconfigure, PrivateWindow.Valid, PrivateWindow.State;
    StackingLeavesTheSame(ws[i].State(), mask, xwc, stacking);
    after := ws[i].ReconfigureXWindow(mask, xwc, stacking);
    assert forall j :: 0 <= j < |ws| && j != i ==> ws[j].Valid() && ws[j].State() == old(ws[j].State());
  }

  /** The first `n` windows are restacked one by one with a request for another one, the last of them first. */
  method RestackAncestors(ws: seq<PrivateWindow>, n: nat, xwc: Changes, stackings: seq<Mask>)
    returns (after: Changes)
    requires Apart(ws) && n <= |ws| && Stackings(stackings, n)
    modifies ws, set i | 0 <= i < |ws| :: ws[i].configureBuffer
    modifies set i, l | 0 <= i < |ws| && l in ws[i].configureBuffer.held :: l
    ensures Apart(ws)
    ensures States(ws) == RestackedEach(old(States(ws))[..n], xwc, stackings) + old(States(ws))[n..]
    ensures after == AfterAncestors(old(States(ws))[..n], xwc)
    ensures forall j :: 0 <= j < |ws| ==> ws[j].configureBuffer.held == old(ws[j].configureBuffer.held)
  {
    hide Leftover, Apart, States, PrivateWindow.Valid, Reconfigure, Halfway, LeftAt, Stackings, RestackedEach;
    after := xwc;
    var i := n;
    ghost var states := States(ws);
    HalfwayEnds(states, n, xwc, stackings);
    while i > 0
      invariant 0 <= i <= n && Apart(ws)
      invariant forall j :: 0 <= j < |ws| ==> ws[j].configureBuffer.held == old(ws[j].configureBuffer.held)
      invariant States(ws) == Halfway(states, n, i, xwc, stackings) && after == LeftAt(states, n, i, xwc)
    {
      i := i - 1;
      HalfwayStep(states, n, i, xwc, stackings);
      after := ReconfigureOne(ws, i, {}, after, stackings[i]);
    }
  }

  /** The windows when those from index `i` up to index `n` have been restacked. */
  ghost function Halfway(states: seq<Framed>, n: nat, i: nat, xwc: Changes, stackings: seq<Mask>): seq<Framed>
    requires i <= n <= |states| && Stackings(stackings, n)
  {
    states[..i] + RestackedEach(states[..n], xwc, stackings)[i..] + states[n..]
  }

  /** What is left of the request by then. */
  ghost function LeftAt(states: seq<Framed>, n: nat, i: nat, xwc: Changes): Changes
    requires i <= n <= |states|
  {
    AfterAncestors(states[..n][i..], xwc)
  }

  lemma HalfwayEnds(states: seq<Framed>, n: nat, xwc: Changes, stackings: seq<Mask>)
    requires n <= |states| && Stackings(stackings, n)
    ensures Halfway(states, n, n, xwc, stackings) == states && LeftAt(states, n, n, xwc) == xwc
    ensures Halfway(states, n, 0, xwc, stackings) == RestackedEach(states[..n], xwc, stackings) + states[n..]
    ensures LeftAt(states, n, 0, xwc) == AfterAncestors(states[..n], xwc)
  {
    hide Reconfigure;
    assert states[..n][0..] == states[..n];
  }

  lemma HalfwayStep(states: seq<Framed>, n: nat, i: nat, xwc: Changes, stackings: seq<Mask>)
    requires i < n <= |states| && Stackings(stackings, n)
    ensures var before, left := Halfway(states, n, i + 1, xwc, stackings), LeftAt(states, n, i + 1, xwc);
            && |before| == |states| && before[i] == states[i] && i < |stackings| && stackings[i] <= {Sibling, StackMode}
            && before[i := Reconfigure(states[i], {}, left, stackings[i])] == Halfway(states, n, i, xwc, stackings)
            && Leftover(states[i], {}, left, {}) == LeftAt(states, n, i, xwc)
  {
    hide Reconfigure, Leftover, LeftAt;
    LeftStep(states, n, i, xwc);
  }

  lemma LeftStep(states: seq<Framed>, n: nat, i: nat, xwc: Changes)
    requires i < n <= |states|
    ensures Leftover(states[i], {}, LeftAt(states, n, i + 1, xwc), {}) == LeftAt(states, n, i, xwc)
    ensures LeftAt(states, n, i + 1, xwc) == AfterAncestors(states[..n][i + 1..], xwc)
  {
    hide Leftover;
    assert states[..n][i..][1..] == states[..n][i + 1..];
  }

  /** A request that carries geometry goes to the ancestors first, and then, as they left it, to the window
      itself, which is the last one. */
  method RestackAlong(ws: seq<PrivateWindow>, mask: Mask, xwc: Changes, stackings: seq<Mask>)
    requires Apart(ws) && ws != [] && Stackings(stackings, |ws|)
    modifies ws, set i | 0 <= i < |ws| :: ws[i].configureBuffer
    modifies set i, l | 0 <= i < |ws| && l in ws[i].configureBuffer.held :: l
    ensures Apart(ws)
    ensures var n := |ws| - 1;
            var ancestors := old(States(ws))[..n];
            States(ws) == RestackedEach(ancestors, xwc, stackings[..n])
                          + [RestackedAlong(ancestors, old(States(ws))[n], mask, xwc, stackings[n])]
  {
    hide Leftover, Apart, States, Reconfigure, AfterAncestors;
    var n := |ws| - 1;
    var left := RestackAncestors(ws, n, xwc, stackings[..n]);
    left := ReconfigureOne(ws, n, mask, left, stackings[n]);
  }

  lemma AsAsked(g: Geometry, xwc: Changes)
    ensures var c := AsChanges(g, xwc); Geometry(c.x, c.y, c.width, c.height, c.borderWidth) == g
  {
  }

  /** What a request makes of the cached geometries. */
  lemma BroughtUpToDate(w: Framed, mask: Mask, xwc: Changes, stacking: Mask)
    ensures var g := Requested(w.serverGeometry, mask, xwc);
            var target := Grown(g, w.serverInput, w.shaded);
            && FrameChange(w, mask, xwc, stacking) == Differing(w.serverFrameGeometry, target) + stacking
            && ClientChange(w, mask, xwc)
               == Differing(w.serverGeometry, g)
                  + (if g.border != w.serverGeometry.border && !w.inputOnly then {BorderWidth} else {})
            && Moved(w, mask, xwc, stacking)
               == w.(serverGeometry := g,
                     serverFrameGeometry := Overlay(w.serverFrameGeometry, target, FrameChange(w, mask, xwc, stacking)))
  {
    hide Requested, Grown, Differing, Overlay;
  }

  lemma SameMask(a: Mask, b: Mask)
    requires forall f :: f in a <==> f in b
    ensures a == b
  {
  }
}
