/** Writing decorations into the words of a property, and reading them, with a pointer that moves on. */
module DecorData {
  import opened DecorProperty
  import opened Values

  method AllocProperty(n: nat, propertyType: int) returns (data: array<int>)
    ensures fresh(data) && data.Length >= PROP_HEADER_SIZE
    ensures propertyType == WINDOW_DECORATION_TYPE_PIXMAP ==> data.Length == SlotStart(n)
    ensures data[0] == DECOR_INTERFACE_VERSION && data[1] == propertyType && data[2] == n
    ensures forall i :: PROP_HEADER_SIZE <= i < data.Length ==> data[i] == 0
  {
    var propSize := 0;
    if propertyType == WINDOW_DECORATION_TYPE_WINDOW {
      propSize := WINDOW_PROP_SIZE;
    } else if propertyType == WINDOW_DECORATION_TYPE_PIXMAP {
      propSize := BASE_PROP_SIZE + N_QUADS_MAX * QUAD_PROP_SIZE;
    }
    propSize := propSize * n;
    propSize := propSize + PROP_HEADER_SIZE;
    data := new int[propSize](_ => 0);
    data[0] := DECOR_INTERFACE_VERSION;
    data[1] := propertyType;
    data[2] := n;
  }

  lemma SameWords(s: seq<int>, r: seq<int>, p: nat, words: seq<int>)
    requires p + |words| <= |s| == |r|
    requires forall i :: 0 <= i < |words| ==> r[p + i] == words[i]
    requires forall i :: 0 <= i < |s| && !(p <= i < p + |words|) ==> r[i] == s[i]
    ensures r == Overwritten(s, p, words)
  {
    forall i | 0 <= i < |s|
      ensures r[i] == Overwritten(s, p, words)[i]
    {
      if p <= i < p + |words| {
        assert r[p + (i - p)] == words[i - p];
      }
    }
  }

  method PutExtents(data: array<int>, p: nat, e: Extents)
    requires p + 4 <= data.Length
    modifies data
    ensures data[..] == Overwritten(old(data[..]), p, ExtentsWords(e))
  {
    data[p], data[p + 1], data[p + 2], data[p + 3] := e.left, e.right, e.top, e.bottom;
    SameWords(old(data[..]), data[..], p, ExtentsWords(e));
  }

  method PutQuad(data: array<int>, p: nat, q: Quad)
    requires p + QUAD_PROP_SIZE <= data.Length
    modifies data
    ensures data[..] == Overwritten(old(data[..]), p, QuadWords(q))
  {
    hide Flags, Trunc;
    data[p] := Flags(q) as int;
    data[p + 1] := q.p1.x;
    data[p + 2] := q.p1.y;
    data[p + 3] := q.p2.x;
    data[p + 4] := q.p2.y;
    data[p + 5] := q.maxWidth;
    data[p + 6] := q.maxHeight;
    data[p + 7] := Trunc(q.m.x0);
    data[p + 8] := Trunc(q.m.y0);
    SameWords(old(data[..]), data[..], p, QuadWords(q));
  }

  method PutNumber(data: array<int>, p: nat, n: int)
    requires p < data.Length
    modifies data
    ensures data[..] == Overwritten(old(data[..]), p, [n])
  {
    data[p] := n;
  }

  method PutBase(data: array<int>, start: nat, b: Base)
    requires start + BASE_PROP_SIZE <= data.Length
    modifies data
    ensures data[..] == Overwritten(old(data[..]), start, BaseWords(b))
  {
    hide Overwritten, ExtentsWords;
    ghost var s := data[..];
    PutNumber(data, start, b.pixmap);
    PutExtents(data, start + 1, b.frame);
    PutExtents(data, start + 5, b.border);
    PutExtents(data, start + 9, b.maxFrame);
    PutExtents(data, start + 13, b.maxBorder);
    PutTail(data, start + 17, b);
    BaseJoined(s, start, b);
  }

  method PutTail(data: array<int>, p: nat, b: Base)
    requires p + 5 <= data.Length
    modifies data
    ensures data[..] == Overwritten(old(data[..]), p, [b.minWidth, b.minHeight, b.frameType, b.frameState, b.frameActions])
  {
    data[p], data[p + 1] := b.minWidth, b.minHeight;
    data[p + 2], data[p + 3], data[p + 4] := b.frameType, b.frameState, b.frameActions;
  }

  lemma BaseJoined(s: seq<int>, p: nat, b: Base)
    requires p + BASE_PROP_SIZE <= |s|
    ensures var s1 := Overwritten(s, p, [b.pixmap]);
            var s2 := Overwritten(s1, p + 1, ExtentsWords(b.frame));
            var s3 := Overwritten(s2, p + 5, ExtentsWords(b.border));
            var s4 := Overwritten(s3, p + 9, ExtentsWords(b.maxFrame));
            var s5 := Overwritten(s4, p + 13, ExtentsWords(b.maxBorder));
            Overwritten(s5, p + 17, [b.minWidth, b.minHeight, b.frameType, b.frameState, b.frameActions])
            == Overwritten(s, p, BaseWords(b))
  {
    hide Overwritten, ExtentsWords;
    var w1 := [b.pixmap];
    var w2 := w1 + ExtentsWords(b.frame);
    var w3 := w2 + ExtentsWords(b.border);
    var w4 := w3 + ExtentsWords(b.maxFrame);
    var w5 := w4 + ExtentsWords(b.maxBorder);
    OverwrittenTwice(s, p, w1, ExtentsWords(b.frame));
    OverwrittenTwice(s, p, w2, ExtentsWords(b.border));
    OverwrittenTwice(s, p, w3, ExtentsWords(b.maxFrame));
    OverwrittenTwice(s, p, w4, ExtentsWords(b.maxBorder));
    OverwrittenTwice(s, p, w5, [b.minWidth, b.minHeight, b.frameType, b.frameState, b.frameActions]);
  }

  /** A decoration is written into slot `n`, which must have room for what is written. */
  method QuadsToProperty(data: array<int>, n: nat, b: Base, quads: seq<Quad>)
    requires SlotStart(n) + BASE_WORDS + QUAD_PROP_SIZE * |quads| <= data.Length
    modifies data
    ensures data[..] == Overwritten(old(data[..]), SlotStart(n), DecorationWords(b, quads))
  {
    hide Overwritten, BaseWords, AllQuadWords, QuadWords;
    ghost var s := data[..];
    var start := PROP_HEADER_SIZE + n * (BASE_PROP_SIZE + QUAD_PROP_SIZE * N_QUADS_MAX);
    PutBase(data, start, b);
    PutNumber(data, start + BASE_PROP_SIZE, |quads|);
    ghost var w := BaseWords(b) + [|quads|];
    OverwrittenTwice(s, start, BaseWords(b), [|quads|]);
    var p := start + BASE_WORDS;
    var i := 0;
    assert quads[..0] == [] && w + AllQuadWords([]) == w;
    while i < |quads|
      invariant 0 <= i <= |quads| && p == start + BASE_WORDS + QUAD_PROP_SIZE * i
      invariant data[..] == Overwritten(s, start, w + AllQuadWords(quads[..i]))
    {
      MoreWords(quads, i);
      OverwrittenTwice(s, start, w + AllQuadWords(quads[..i]), QuadWords(quads[i]));
      PutQuad(data, p, quads[i]);
      assert w + AllQuadWords(quads[..i]) + QuadWords(quads[i]) == w + AllQuadWords(quads[..i + 1]);
      p := p + QUAD_PROP_SIZE;
      i := i + 1;
    }
    assert quads[..i] == quads;
  }

  lemma MoreWords(quads: seq<Quad>, i: nat)
    requires i < |quads|
    ensures AllQuadWords(quads[..i + 1]) == AllQuadWords(quads[..i]) + QuadWords(quads[i])
  {
    assert quads[..i + 1][..i] == quads[..i];
  }

  /** The decoration in slot `nOffset`, or nothing when the property is too short, of another version or of
      another type. How long the property must be is computed with a sum where the writer has a product,
      so a property may still be too short; that it is long enough is up to the caller. */
  method PixmapPropertyToQuads(data: array<int>, nOffset: nat, size: int) returns (n: int, b: Base, quads: seq<Quad>)
    requires 2 <= data.Length
    requires Readable(data[..], nOffset, size) ==> SlotStart(nOffset) + BASE_WORDS <= data.Length
    requires Readable(data[..], nOffset, size) && data[SlotStart(nOffset) + BASE_PROP_SIZE] > 0 ==>
               SlotStart(nOffset) + BASE_WORDS + QUAD_PROP_SIZE * data[SlotStart(nOffset) + BASE_PROP_SIZE] <= data.Length
    ensures !Readable(data[..], nOffset, size) ==> n == 0 && quads == []
    ensures Readable(data[..], nOffset, size) ==>
              && b == BaseAt(data[..], SlotStart(nOffset)) && n == data[SlotStart(nOffset) + BASE_PROP_SIZE]
              && quads == QuadsAt(data[..], SlotStart(nOffset) + BASE_WORDS, if n > 0 then n else 0)
  {
    hide QuadAt;
    if size < PROP_HEADER_SIZE + nOffset * (BASE_PROP_SIZE + QUAD_PROP_SIZE + N_QUADS_MAX)
       || data[0] != DECOR_INTERFACE_VERSION || data[1] != WINDOW_DECORATION_TYPE_PIXMAP {
      var none := Extents(0, 0, 0, 0);
      return 0, Base(0, none, none, none, none, 0, 0, 0, 0, 0), [];
    }
    var start := PROP_HEADER_SIZE + nOffset * (BASE_PROP_SIZE + N_QUADS_MAX * QUAD_PROP_SIZE);
    b := GetBase(data, start);
    n := data[start + BASE_PROP_SIZE];
    quads := [];
    var p := start + BASE_WORDS;
    var i := 0;
    while i < n
      invariant 0 <= i && (n <= 0 ==> i == 0) && (n > 0 ==> i <= n)
      invariant p == start + BASE_WORDS + QUAD_PROP_SIZE * i
      invariant quads == QuadsAt(data[..], start + BASE_WORDS, i)
    {
      var q := GetQuad(data, p);
      quads := quads + [q];
      p := p + QUAD_PROP_SIZE;
      i := i + 1;
    }
  }

  predicate Readable(s: seq<int>, nOffset: nat, size: int)
    requires 2 <= |s|
  {
    && size >= PROP_HEADER_SIZE + nOffset * (BASE_PROP_SIZE + QUAD_PROP_SIZE + N_QUADS_MAX)
    && s[0] == DECOR_INTERFACE_VERSION && s[1] == WINDOW_DECORATION_TYPE_PIXMAP
  }

  method GetBase(data: array<int>, p: nat) returns (b: Base)
    requires p + BASE_PROP_SIZE <= data.Length
    ensures b == BaseAt(data[..], p)
  {
    var frame := Extents(data[p + 1], data[p + 2], data[p + 3], data[p + 4]);
    var border := Extents(data[p + 5], data[p + 6], data[p + 7], data[p + 8]);
    var maxFrame := Extents(data[p + 9], data[p + 10], data[p + 11], data[p + 12]);
    var maxBorder := Extents(data[p + 13], data[p + 14], data[p + 15], data[p + 16]);
    b := Base(data[p], frame, border, maxFrame, maxBorder,
              data[p + 17], data[p + 18], data[p + 19], data[p + 20], data[p + 21]);
  }

  method GetQuad(data: array<int>, p: nat) returns (q: Quad)
    requires p + QUAD_PROP_SIZE <= data.Length
    ensures q == QuadAt(data[..], p)
  {
    hide Bits, Entry;
    var flags := Bits(data[p]);
    var m := Matrix(Entry(flags, XX_MASK), Entry(flags, YX_MASK), Entry(flags, XY_MASK), Entry(flags, YY_MASK),
                    data[p + 7] as real, data[p + 8] as real);
    q := Quad(Point(data[p + 1], data[p + 2], flags & 0xf), Point(data[p + 3], data[p + 4], (flags >> 4) & 0xf),
              data[p + 5], data[p + 6], (flags >> 8) & 0x3, (flags >> 10) & 0x3, (flags >> 12) & 0x3, m);
  }
}
