/** What a restack does to the geometry of the window that is restacked: one request is passed on to its
    ancestors first, and each of them writes its own values into it. */
module RestackGeometry {
  import opened BufferModel
  import opened FrameGeometry
  import opened Values

  /** The fields of a geometry. */
  const FIELDS: Mask := {X, Y, Width, Height, BorderWidth}

  /** What is left of a request after it has been carried out for a window: the values of the window, with the
      place of the wrapper where that had to be told something. */
  function Leftover(w: Framed, mask: Mask, xwc: Changes, stacking: Mask): Changes
    requires stacking <= {Sibling, StackMode}
  {
    var c := AsChanges(Requested(w.serverGeometry, mask, xwc), xwc);
    var inner := WrapperMask(Moved(w, mask, xwc, stacking).serverFrameGeometry, FrameChange(w, mask, xwc, stacking),
                             w.lastServerInput, w.serverInput);
    if w.reparented && inner != {} then c.(x := w.serverInput.left, y := w.serverInput.top) else c
  }

  /** What is left of a request after the ancestors have been restacked, the first one last; their own
      geometry is not asked to change. */
  function AfterAncestors(ancestors: seq<Framed>, xwc: Changes): Changes {
    if ancestors == [] then xwc else Leftover(ancestors[0], {}, AfterAncestors(ancestors[1..], xwc), {})
  }

  /** The stacking bits that are left of a request for each of several windows. */
  predicate Stackings(stackings: seq<Mask>, n: nat) {
    |stackings| == n && forall i :: 0 <= i < n ==> stackings[i] <= {Sibling, StackMode}
  }

  /** The ancestors after that. */
  function RestackedEach(ancestors: seq<Framed>, xwc: Changes, stackings: seq<Mask>): (r: seq<Framed>)
    requires Stackings(stackings, |ancestors|)
    ensures |r| == |ancestors|
    ensures forall i :: 0 <= i < |r| ==>
              r[i] == Reconfigure(ancestors[i], {}, AfterAncestors(ancestors[i + 1..], xwc), stackings[i])
  {
    seq(|ancestors|, i requires 0 <= i < |ancestors| =>
      Reconfigure(ancestors[i], {}, AfterAncestors(ancestors[i + 1..], xwc), stackings[i]))
  }

  /** The window once its ancestors have been restacked and the request has come to itself. */
  function RestackedAlong(ancestors: seq<Framed>, w: Framed, mask: Mask, xwc: Changes, stacking: Mask): Framed
    requires stacking <= {Sibling, StackMode}
  {
    Reconfigure(w, mask, AfterAncestors(ancestors, xwc), stacking)
  }

  /** The stacking bits make no difference to what is left of a request. */
  lemma StackingLeavesTheSame(w: Framed, mask: Mask, xwc: Changes, stacking: Mask)
    requires stacking <= {Sibling, StackMode}
    ensures Leftover(w, mask, xwc, stacking) == Leftover(w, mask, xwc, {})
  {
    hide Grown, Requested, Differing;
    var d := Differing(w.serverFrameGeometry, Grown(Requested(w.serverGeometry, mask, xwc), w.serverInput, w.shaded));
    assert (d + stacking) * {Width, Height} == d * {Width, Height} == (d + {}) * {Width, Height};
  }

  /** A window that is only restacked keeps its geometry. */
  lemma AncestorKeepsGeometry(a: Framed, xwc: Changes, stacking: Mask)
    requires stacking <= {Sibling, StackMode}
    ensures Reconfigure(a, {}, xwc, stacking).serverGeometry == a.serverGeometry
  {
    ReconfigureFits(a, {}, xwc, stacking);
  }

  lemma AncestorsKeepGeometry(ancestors: seq<Framed>, xwc: Changes, stackings: seq<Mask>, i: nat)
    requires i < |ancestors| && Stackings(stackings, |ancestors|)
    ensures RestackedEach(ancestors, xwc, stackings)[i].serverGeometry == ancestors[i].serverGeometry
    ensures FrameFits(RestackedEach(ancestors, xwc, stackings)[i])
  {
    hide Reconfigure;
    ReconfigureFits(ancestors[i], {}, AfterAncestors(ancestors[i + 1..], xwc), stackings[i]);
  }

  /** An ancestor that fits its frame, and has had no new extents, leaves its own geometry. */
  lemma SettledLeavesGeometry(a: Framed, xwc: Changes)
    requires FrameFits(a) && a.lastServerInput == a.serverInput
    ensures forall f :: f in FIELDS ==> Leftover(a, {}, xwc, {}).Get(f) == Component(a.serverGeometry, f)
  {
    var target := Grown(a.serverGeometry, a.serverInput, a.shaded);
    assert Requested(a.serverGeometry, {}, xwc) == a.serverGeometry;
    assert Differing(a.serverFrameGeometry, target) == {};
  }

  /** One that is in a frame whose size does not fit it yet, as when it has just been shaded, leaves the place of
      its wrapper inside the frame instead of its own. */
  lemma UnsettledLeavesInset(a: Framed, xwc: Changes)
    requires a.lastServerInput == a.serverInput
    ensures var c, fit := Leftover(a, {}, xwc, {}), Grown(a.serverGeometry, a.serverInput, a.shaded);
            var unsettled := a.reparented && (a.serverFrameGeometry.width != fit.width
                                              || a.serverFrameGeometry.height != fit.height);
            && c.x == (if unsettled then a.serverInput.left else a.serverGeometry.x)
            && c.y == (if unsettled then a.serverInput.top else a.serverGeometry.y)
  {
    var target := Grown(a.serverGeometry, a.serverInput, a.shaded);
    assert Requested(a.serverGeometry, {}, xwc) == a.serverGeometry;
    var d := Differing(a.serverFrameGeometry, target);
    var inner := (d + {}) * {Width, Height};
    assert Width in inner <==> a.serverFrameGeometry.width != target.width;
    assert Height in inner <==> a.serverFrameGeometry.height != target.height;
    assert inner != {} <==> Width in inner || Height in inner by {
      if f :| f in inner {
        assert f in {Width, Height};
      }
    }
    assert WrapperMask(Moved(a, {}, xwc, {}).serverFrameGeometry, d + {}, a.lastServerInput, a.serverInput) == inner;
  }

  /** Of the geometry in a request nothing is left that was there before the first ancestor. */
  lemma OnlyFirstMatters(ancestors: seq<Framed>, xwc: Changes, f: Field)
    requires ancestors != [] && f in FIELDS
    ensures AfterAncestors(ancestors, xwc).Get(f) == Leftover(ancestors[0], {}, xwc, {}).Get(f)
  {
    SameLeftover(ancestors[0], AfterAncestors(ancestors[1..], xwc), xwc);
  }

  lemma SameLeftover(a: Framed, xwc: Changes, other: Changes)
    ensures forall f :: f in FIELDS ==> Leftover(a, {}, xwc, {}).Get(f) == Leftover(a, {}, other, {}).Get(f)
  {
    hide WrapperMask, Differing, Grown;
    assert Requested(a.serverGeometry, {}, xwc) == Requested(a.serverGeometry, {}, other) == a.serverGeometry;
  }

  /** A value as it is taken over: a width or a height of zero is made one. */
  function Taken(xwc: Changes, f: Field): int {
    if f in {Width, Height} && xwc.Get(f) == 0 then 1 else xwc.Get(f)
  }

  lemma SameRequestedIff(g: Geometry, mask: Mask, xwc: Changes, other: Changes)
    ensures Requested(g, mask, xwc) == Requested(g, mask, other) <==>
              forall f :: f in mask && f in FIELDS ==> Taken(xwc, f) == Taken(other, f)
  {
    var a, b := Requested(g, mask, xwc), Requested(g, mask, other);
    assert forall f :: f in FIELDS && f in mask ==> Component(a, f) == Taken(xwc, f) && Component(b, f) == Taken(other, f);
    assert forall f :: f in FIELDS && f !in mask ==> Component(a, f) == Component(b, f);
    assert a == b <==> forall f :: f in FIELDS ==> Component(a, f) == Component(b, f) by {
      SameGeometry(a, b);
    }
  }

  lemma SameGeometry(a: Geometry, b: Geometry)
    ensures a == b <==> forall f :: f in FIELDS ==> Component(a, f) == Component(b, f)
  {
    if forall f :: f in FIELDS ==> Component(a, f) == Component(b, f) {
      assert Component(a, X) == Component(b, X) && Component(a, Y) == Component(b, Y);
      assert Component(a, Width) == Component(b, Width) && Component(a, Height) == Component(b, Height);
      assert Component(a, BorderWidth) == Component(b, BorderWidth);
    }
  }

  /** A request that carries geometry and stacking gives the window the geometry asked for if and only if no
      ancestor goes along, or what the nearest one leaves has the same values in the fields asked for. */
  lemma GeometryAsRequestedIff(ancestors: seq<Framed>, w: Framed, mask: Mask, xwc: Changes, stacking: Mask)
    requires stacking <= {Sibling, StackMode}
    ensures RestackedAlong(ancestors, w, mask, xwc, stacking).serverGeometry == Requested(w.serverGeometry, mask, xwc)
            <==> ancestors == []
                 || forall f :: f in mask && f in FIELDS ==>
                      Taken(Leftover(ancestors[0], {}, xwc, {}), f) == Taken(xwc, f)
  {
    hide Requested, Leftover, Reconfigure, Changes.Get;
    var left := AfterAncestors(ancestors, xwc);
    ReconfigureFits(w, mask, left, stacking);
    SameRequestedIff(w.serverGeometry, mask, left, xwc);
    if ancestors != [] {
      forall f | f in FIELDS
        ensures left.Get(f) == Leftover(ancestors[0], {}, xwc, {}).Get(f)
      {
        OnlyFirstMatters(ancestors, xwc, f);
      }
    }
  }

  const PARENT := Framed(Geometry(0, 0, 300, 200, 0), Geometry(0, 0, 300, 200, 0), NO_EXTENTS, NO_EXTENTS, false,
                         true, false, EMPTY, Geometry(0, 0, 300, 200, 0))
  const CHILD := PARENT.(serverGeometry := Geometry(50, 50, 100, 80, 0),
                         serverFrameGeometry := Geometry(50, 50, 100, 80, 0))

  /** A dialog that is to be moved and put on top ends up at the place of its parent. */
  lemma DialogGetsGeometryOfParent()
    ensures exists ancestors, w: Framed, mask, xwc, stacking: Mask ::
              && stacking <= {Sibling, StackMode}
              && RestackedAlong(ancestors, w, mask, xwc, stacking).serverGeometry
                 != Requested(w.serverGeometry, mask, xwc)
  {
    hide Leftover, RestackedAlong, Requested;
    ParentLeavesPlace();
    var xwc := NO_CHANGES.(x := 60);
    assert [PARENT][0] == PARENT && Taken(xwc, X) == 60;
    GeometryAsRequestedIff([PARENT], CHILD, {X}, xwc, {Sibling, StackMode});
  }

  lemma ParentLeavesPlace()
    ensures Taken(Leftover(PARENT, {}, NO_CHANGES.(x := 60), {}), X) == 0
  {
    hide Leftover, FrameFits, Component;
    ParentFits();
    SettledLeavesGeometry(PARENT, NO_CHANGES.(x := 60));
  }

  lemma ParentFits()
    ensures FrameFits(PARENT) && PARENT.lastServerInput == PARENT.serverInput
    ensures Component(PARENT.serverGeometry, X) == 0
  {
  }
}
