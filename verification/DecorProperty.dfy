/** The decoration property: how decorations of type pixmap are written into the words of a property
    and read back. */
module DecorProperty {
  import opened Values

  const DECOR_INTERFACE_VERSION := 20110504
  const WINDOW_DECORATION_TYPE_PIXMAP := 1
  const WINDOW_DECORATION_TYPE_WINDOW := 2

  const PROP_HEADER_SIZE: nat := 3
  const WINDOW_PROP_SIZE: nat := 12
  const BASE_PROP_SIZE: nat := 22
  const QUAD_PROP_SIZE: nat := 9
  const N_QUADS_MAX: nat := 24

  /** The words that are written before the first quad: one more than are reserved. */
  const BASE_WORDS: nat := 23

  /** The distance between two decorations in a property. */
  const SLOT_SIZE: nat := BASE_PROP_SIZE + QUAD_PROP_SIZE * N_QUADS_MAX

  const XX_MASK: bv32 := 0x1_0000
  const XY_MASK: bv32 := 0x2_0000
  const YX_MASK: bv32 := 0x4_0000
  const YY_MASK: bv32 := 0x8_0000

  datatype Point = Point(x: int, y: int, gravity: bv32)

  datatype Matrix = Matrix(xx: real, yx: real, xy: real, yy: real, x0: real, y0: real)

  datatype Quad = Quad(p1: Point, p2: Point, maxWidth: int, maxHeight: int,
                       align: bv32, clamp: bv32, stretch: bv32, m: Matrix)

  datatype Base = Base(pixmap: int, frame: Extents, border: Extents, maxFrame: Extents, maxBorder: Extents,
                       minWidth: int, minHeight: int, frameType: int, frameState: int, frameActions: int)

  /** A number without its fraction. */
  function Trunc(r: real): int {
    if r >= 0.0 then r.Floor else -(-r).Floor
  }

  /** The lower 32 bits of a word. */
  function Bits(w: int): bv32 {
    (w % 0x1_0000_0000) as bv32
  }

  function Mask(x: real, mask: bv32): bv32 {
    if x != 0.0 then mask else 0
  }

  function Flags(q: Quad): bv32 {
    q.p1.gravity | (q.p2.gravity << 4) | (q.align << 8) | (q.clamp << 10) | (q.stretch << 12)
    | Mask(q.m.xx, XX_MASK) | Mask(q.m.xy, XY_MASK) | Mask(q.m.yx, YX_MASK) | Mask(q.m.yy, YY_MASK)
  }

  /** The words of a quad. */
  function QuadWords(q: Quad): (w: seq<int>)
    ensures |w| == QUAD_PROP_SIZE
  {
    [Flags(q) as int, q.p1.x, q.p1.y, q.p2.x, q.p2.y, q.maxWidth, q.maxHeight, Trunc(q.m.x0), Trunc(q.m.y0)]
  }

  function Entry(flags: bv32, mask: bv32): real {
    if flags & mask != 0 then 1.0 else 0.0
  }

  /** The quad that the nine words at `p` stand for. */
  function QuadAt(s: seq<int>, p: nat): Quad
    requires p + QUAD_PROP_SIZE <= |s|
  {
    var f := Bits(s[p]);
    Quad(Point(s[p + 1], s[p + 2], f & 0xf), Point(s[p + 3], s[p + 4], (f >> 4) & 0xf), s[p + 5], s[p + 6],
         (f >> 8) & 0x3, (f >> 10) & 0x3, (f >> 12) & 0x3,
         Matrix(Entry(f, XX_MASK), Entry(f, YX_MASK), Entry(f, XY_MASK), Entry(f, YY_MASK),
                s[p + 7] as real, s[p + 8] as real))
  }

  /** Quads that the words can hold: flags that fit their bits, entries that are 0 or 1, whole offsets. */
  predicate Storable(q: Quad) {
    && q.p1.gravity <= 0xf && q.p2.gravity <= 0xf && q.align <= 0x3 && q.clamp <= 0x3 && q.stretch <= 0x3
    && q.m.xx in {0.0, 1.0} && q.m.xy in {0.0, 1.0} && q.m.yx in {0.0, 1.0} && q.m.yy in {0.0, 1.0}
    && q.m.x0 == Trunc(q.m.x0) as real && q.m.y0 == Trunc(q.m.y0) as real
  }

  lemma SmallMod(x: int, n: int)
    requires 0 <= x < n
    ensures x % n == x
  {
  }

  lemma BitsBack(b: bv32)
    ensures Bits(b as int) == b
  {
    SmallMod(b as int, 0x1_0000_0000);
  }

  lemma FlagsPacked(g1: bv32, g2: bv32, a: bv32, c: bv32, s: bv32, xx: bv32, xy: bv32, yx: bv32, yy: bv32)
    requires g1 <= 0xf && g2 <= 0xf && a <= 0x3 && c <= 0x3 && s <= 0x3
    requires xx in {0, XX_MASK} && xy in {0, XY_MASK} && yx in {0, YX_MASK} && yy in {0, YY_MASK}
    ensures var f := g1 | (g2 << 4) | (a << 8) | (c << 10) | (s << 12) | xx | xy | yx | yy;
            && f & 0xf == g1 && (f >> 4) & 0xf == g2 && (f >> 8) & 0x3 == a && (f >> 10) & 0x3 == c
            && (f >> 12) & 0x3 == s
            && f & XX_MASK == xx && f & XY_MASK == xy && f & YX_MASK == yx && f & YY_MASK == yy
  {
  }

  lemma FieldsSmall(f: bv32)
    ensures f & 0xf <= 0xf && (f >> 4) & 0xf <= 0xf && (f >> 8) & 0x3 <= 0x3 && (f >> 10) & 0x3 <= 0x3
    ensures (f >> 12) & 0x3 <= 0x3
  {
  }

  /** The flags tell the fields of a quad that fits. */
  lemma FlagsTell(q: Quad)
    requires Storable(q)
    ensures var f := Flags(q);
            && f & 0xf == q.p1.gravity && (f >> 4) & 0xf == q.p2.gravity
            && (f >> 8) & 0x3 == q.align && (f >> 10) & 0x3 == q.clamp && (f >> 12) & 0x3 == q.stretch
            && Entry(f, XX_MASK) == q.m.xx && Entry(f, XY_MASK) == q.m.xy
            && Entry(f, YX_MASK) == q.m.yx && Entry(f, YY_MASK) == q.m.yy
  {
    hide Trunc;
    FlagsPacked(q.p1.gravity, q.p2.gravity, q.align, q.clamp, q.stretch,
                Mask(q.m.xx, XX_MASK), Mask(q.m.xy, XY_MASK), Mask(q.m.yx, YX_MASK), Mask(q.m.yy, YY_MASK));
  }

  lemma TruncWhole(n: int)
    ensures Trunc(n as real) == n
  {
  }

  /** What is read can be stored. */
  lemma ReadIsStorable(s: seq<int>, p: nat)
    requires p + QUAD_PROP_SIZE <= |s|
    ensures Storable(QuadAt(s, p))
  {
    hide Bits, Trunc;
    FieldsSmall(Bits(s[p]));
    TruncWhole(s[p + 7]);
    TruncWhole(s[p + 8]);
  }

  /** A quad is read back from its words if and only if the words can hold it. */
  lemma QuadRoundTrip(q: Quad)
    ensures QuadAt(QuadWords(q), 0) == q <==> Storable(q)
  {
    hide Flags, Bits, Trunc, Entry;
    ReadIsStorable(QuadWords(q), 0);
    if Storable(q) {
      BitsBack(Flags(q));
      FlagsTell(q);
    }
  }

  function ExtentsWords(e: Extents): (w: seq<int>)
    ensures |w| == 4
  {
    [e.left, e.right, e.top, e.bottom]
  }

  function BaseWords(b: Base): (w: seq<int>)
    ensures |w| == BASE_PROP_SIZE
  {
    [b.pixmap] + ExtentsWords(b.frame) + ExtentsWords(b.border) + ExtentsWords(b.maxFrame) + ExtentsWords(b.maxBorder)
    + [b.minWidth, b.minHeight, b.frameType, b.frameState, b.frameActions]
  }

  function AllQuadWords(quads: seq<Quad>): (w: seq<int>)
    ensures |w| == QUAD_PROP_SIZE * |quads|
  {
    if quads == [] then [] else AllQuadWords(quads[..|quads| - 1]) + QuadWords(quads[|quads| - 1])
  }

  /** All words of a decoration. */
  function DecorationWords(b: Base, quads: seq<Quad>): (w: seq<int>)
    ensures |w| == BASE_WORDS + QUAD_PROP_SIZE * |quads|
  {
    BaseWords(b) + [|quads|] + AllQuadWords(quads)
  }

  function SlotStart(n: nat): nat {
    PROP_HEADER_SIZE + n * SLOT_SIZE
  }

  /** A property with some of its words replaced. */
  function Overwritten(s: seq<int>, at: nat, words: seq<int>): (r: seq<int>)
    requires at + |words| <= |s|
    ensures |r| == |s|
    ensures forall i :: 0 <= i < |s| ==> r[i] == if at <= i < at + |words| then words[i - at] else s[i]
  {
    s[..at] + words + s[at + |words|..]
  }

  lemma OverwrittenTwice(s: seq<int>, at: nat, a: seq<int>, b: seq<int>)
    requires at + |a| + |b| <= |s|
    ensures Overwritten(Overwritten(s, at, a), at + |a|, b) == Overwritten(s, at, a + b)
  {
  }

  function ExtentsAt(s: seq<int>, p: nat): Extents
    requires p + 4 <= |s|
  {
    Extents(s[p], s[p + 1], s[p + 2], s[p + 3])
  }

  /** The fixed part of the decoration whose words begin at `p`. */
  function BaseAt(s: seq<int>, p: nat): Base
    requires p + BASE_PROP_SIZE <= |s|
  {
    Base(s[p], ExtentsAt(s, p + 1), ExtentsAt(s, p + 5), ExtentsAt(s, p + 9), ExtentsAt(s, p + 13),
         s[p + 17], s[p + 18], s[p + 19], s[p + 20], s[p + 21])
  }

  function QuadsAt(s: seq<int>, p: nat, n: nat): (quads: seq<Quad>)
    requires p + QUAD_PROP_SIZE * n <= |s|
    ensures |quads| == n
  {
    if n == 0 then [] else QuadsAt(s, p, n - 1) + [QuadAt(s, p + QUAD_PROP_SIZE * (n - 1))]
  }

  /** Writing a quad does not depend on where. */
  lemma QuadAnywhere(s: seq<int>, p: nat, q: Quad)
    requires p + QUAD_PROP_SIZE <= |s| && s[p..p + QUAD_PROP_SIZE] == QuadWords(q)
    ensures QuadAt(s, p) == q <==> Storable(q)
  {
    hide Flags, Bits, Trunc, Entry, Storable;
    QuadRoundTrip(q);
    var w := QuadWords(q);
    assert forall i :: 0 <= i < QUAD_PROP_SIZE ==> s[p + i] == w[i];
  }

  lemma {:induction false} QuadsRoundTrip(s: seq<int>, p: nat, quads: seq<Quad>)
    requires p + QUAD_PROP_SIZE * |quads| <= |s|
    requires s[p..p + QUAD_PROP_SIZE * |quads|] == AllQuadWords(quads)
    ensures QuadsAt(s, p, |quads|) == quads <==> forall q :: q in quads ==> Storable(q)
  {
    hide QuadAt, QuadWords, Storable, QuadsAt, AllQuadWords;
    var n := |quads| - 1;
    if n < 0 {
      assert QuadsAt(s, p, 0) == quads;
    } else {
      var r, q := quads[..n], quads[n];
      LastWords(quads);
      Parts(s, p, AllQuadWords(r), QuadWords(q));
      QuadsRoundTrip(s, p, r);
      QuadAnywhere(s, p + QUAD_PROP_SIZE * n, q);
      LastQuad(s, p, n + 1);
      SameAppend(QuadsAt(s, p, n), QuadAt(s, p + QUAD_PROP_SIZE * n), r, q);
      assert quads == r + [q];
    }
  }

  lemma LastWords(quads: seq<Quad>)
    requires quads != []
    ensures AllQuadWords(quads) == AllQuadWords(quads[..|quads| - 1]) + QuadWords(quads[|quads| - 1])
  {
    hide QuadWords;
  }

  lemma LastQuad(s: seq<int>, p: nat, n: nat)
    requires n > 0 && p + QUAD_PROP_SIZE * n <= |s|
    ensures QuadsAt(s, p, n) == QuadsAt(s, p, n - 1) + [QuadAt(s, p + QUAD_PROP_SIZE * (n - 1))]
  {
    hide QuadAt;
  }

  lemma SameAppend<T>(a: seq<T>, x: T, b: seq<T>, y: T)
    requires |a| == |b|
    ensures a + [x] == b + [y] <==> a == b && x == y
    ensures forall z :: z in b + [y] <==> z in b || z == y
  {
    if a + [x] == b + [y] {
      assert a == (a + [x])[..|a|] == (b + [y])[..|a|] == b;
      assert x == (a + [x])[|a|] == (b + [y])[|a|];
    }
  }

  lemma Parts(s: seq<int>, p: nat, a: seq<int>, b: seq<int>)
    requires p + |a| + |b| <= |s| && s[p..p + |a| + |b|] == a + b
    ensures s[p..p + |a|] == a && s[p + |a|..p + |a| + |b|] == b
  {
    var t := s[p..p + |a| + |b|];
    assert s[p..p + |a|] == t[..|a|];
    assert s[p + |a|..p + |a| + |b|] == t[|a|..];
  }

  lemma BaseRoundTrip(s: seq<int>, p: nat, b: Base)
    requires p + BASE_PROP_SIZE <= |s| && s[p..p + BASE_PROP_SIZE] == BaseWords(b)
    ensures BaseAt(s, p) == b
  {
    var w := BaseWords(b);
    assert forall i :: 0 <= i < BASE_PROP_SIZE ==> s[p + i] == w[i];
  }

  /** A decoration is read back from its slot if and only if all its quads can be stored. */
  lemma PropertyRoundTrip(s: seq<int>, n: nat, b: Base, quads: seq<Quad>)
    requires SlotStart(n) + BASE_WORDS + QUAD_PROP_SIZE * |quads| <= |s|
    ensures var r, p := Overwritten(s, SlotStart(n), DecorationWords(b, quads)), SlotStart(n);
            && BaseAt(r, p) == b && r[p + BASE_PROP_SIZE] == |quads|
            && (QuadsAt(r, p + BASE_WORDS, |quads|) == quads <==> forall q :: q in quads ==> Storable(q))
  {
    hide BaseWords, AllQuadWords, BaseAt, QuadsAt, Storable, Overwritten, DecorationWords;
    var p, w := SlotStart(n), DecorationWords(b, quads);
    var r := Overwritten(s, p, w);
    DecorationParts(b, quads);
    SliceBack(s, p, w, 0, BASE_PROP_SIZE);
    SliceBack(s, p, w, BASE_WORDS, |w|);
    BaseRoundTrip(r, p, b);
    QuadsRoundTrip(r, p + BASE_WORDS, quads);
  }

  lemma DecorationParts(b: Base, quads: seq<Quad>)
    ensures var w := DecorationWords(b, quads);
            w[0..BASE_PROP_SIZE] == BaseWords(b) && w[BASE_PROP_SIZE] == |quads| && w[BASE_WORDS..|w|] == AllQuadWords(quads)
  {
    hide BaseWords, AllQuadWords;
  }

  lemma SliceBack(s: seq<int>, p: nat, w: seq<int>, from: nat, to: nat)
    requires p + |w| <= |s| && from <= to <= |w|
    ensures Overwritten(s, p, w)[p + from..p + to] == w[from..to]
  {
  }

  /** What is not in slot `n` is as it was. */
  ghost predicate OthersKept(s: seq<int>, r: seq<int>, n: nat) {
    |r| == |s| && forall i :: 0 <= i < |s| && !(SlotStart(n) <= i < SlotStart(n + 1)) ==> r[i] == s[i]
  }

  /** Up to 23 quads stay within their slot; with the 24 that the slot is meant for, the decoration behind
      it is damaged. */
  lemma SlotKeptIff(n: nat, b: Base, quads: seq<Quad>)
    ensures (forall s: seq<int> :: SlotStart(n) + BASE_WORDS + QUAD_PROP_SIZE * |quads| <= |s| ==>
               OthersKept(s, Overwritten(s, SlotStart(n), DecorationWords(b, quads)), n))
            <==> |quads| < N_QUADS_MAX
  {
    hide DecorationWords;
    var w := DecorationWords(b, quads);
    assert SlotStart(n + 1) == SlotStart(n) + SLOT_SIZE;
    if |quads| >= N_QUADS_MAX {
      var size := SlotStart(n) + |w|;
      var s := seq(size, _ => w[SLOT_SIZE] + 1);
      var r := Overwritten(s, SlotStart(n), w);
      assert r[SlotStart(n + 1)] == w[SLOT_SIZE] != s[SlotStart(n + 1)];
      assert !OthersKept(s, r, n);
    }
  }
}
