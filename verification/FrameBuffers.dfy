/** Frame buffers, the copying between them, and windows that draw themselves into one. */
module FrameBuffers {
  import opened Wrappers
  import opened Composition

  datatype PixelFormat = PixelRGB | PixelBGR

  /** The place of a pixel in a buffer with `stride` pixels on a scan line. */
  function Offset(stride: nat, p: Vec): int { stride * p.y + p.x }

  lemma OffsetInside(stride: nat, width: nat, height: nat, p: Vec)
    requires width <= stride && In(Rect(Vec(0, 0), Vec(width, height)), p)
    ensures 0 <= Offset(stride, p) < stride * height
  {
    assert stride * p.y + stride == stride * (p.y + 1) <= stride * height;
    assert stride * p.y >= 0;
  }

  /** Pixels of different rows do not meet. */
  lemma RowsApart(stride: nat, p: Vec, q: Vec)
    requires 0 <= p.x < stride && 0 <= q.x < stride && p.y < q.y
    ensures Offset(stride, p) < Offset(stride, q)
  {
    assert stride * (p.y + 1) <= stride * q.y;
    assert stride * (p.y + 1) == stride * p.y + stride;
  }

  lemma OffsetOneToOne(stride: nat, p: Vec, q: Vec)
    requires 0 <= p.x < stride && 0 <= q.x < stride && p != q
    ensures Offset(stride, p) != Offset(stride, q)
  {
    if p.y < q.y { RowsApart(stride, p, q); }
    if q.y < p.y { RowsApart(stride, q, p); }
  }

  /** The places of `n` pixels of a row are consecutive, and no other pixel's. */
  lemma RowPlaces(stride: nat, start: Vec, n: nat, p: Vec)
    requires 0 <= start.x && start.x + n <= stride && 0 <= p.x < stride && n > 0
    ensures p.y == start.y ==> Offset(stride, p) == Offset(stride, start) + p.x - start.x
    ensures Offset(stride, start) <= Offset(stride, p) < Offset(stride, start) + n <==>
      p.y == start.y && start.x <= p.x < start.x + n
  {
    if p.y < start.y { RowsApart(stride, p, start); }
    if start.y < p.y { RowsApart(stride, Vec(start.x + n - 1, start.y), p); }
  }

  /** memcpy, on pixels. */
  method MemCopy(dst: array<Color>, d: int, src: array<Color>, s: int, n: nat)
    requires dst != src && (n > 0 ==> 0 <= d && d + n <= dst.Length && 0 <= s && s + n <= src.Length)
    modifies dst
    ensures forall i :: 0 <= i < dst.Length ==> dst[i] == if d <= i < d + n then src[s + i - d] else old(dst[i])
  {
    forall i | 0 <= i < n { dst[d + i] := src[s + i]; }
  }

  class FrameBuffer {
    const format: PixelFormat
    const width: nat
    const height: nat
    const stride: nat
    const data: array<Color>

    ghost predicate Valid() {
      width <= stride && stride * height <= data.Length
    }

    function Outline(): Rect { Rect(Vec(0, 0), Vec(width, height)) }

    predicate On(p: Vec) { In(Outline(), p) }

    ghost function At(p: Vec): Color
      reads data
      requires Valid() && On(p)
    {
      OffsetInside(stride, width, height, p);
      data[Offset(stride, p)]
    }

    /** FrameBuffer::Init without memory of its own: a buffer whose scan lines are not padded. */
    constructor (format: PixelFormat, width: nat, height: nat)
      ensures Valid() && fresh(data) && this.format == format && this.width == width && this.height == height
    {
      this.format, this.width, this.height, stride := format, width, height, width;
      data := new Color[width * height](_ => Color(0, 0, 0));
    }

    /** PixelWriter::Write. */
    method Put(p: Vec, c: Color)
      requires Valid() && On(p)
      modifies data
      ensures forall q: Vec :: On(q) ==> At(q) == if q == p then c else old(At(q))
    {
      OffsetInside(stride, width, height, p);
      forall q: Vec | On(q) && q != p ensures Offset(stride, q) != Offset(stride, p) { OffsetOneToOne(stride, p, q); }
      hide Offset;
      data[Offset(stride, p)] := c;
    }

    /** `n` pixels of a row, starting at `start`, are all on the buffer. */
    predicate RowOn(start: Vec, n: nat) {
      0 <= start.y < height && 0 <= start.x && start.x + n <= width
    }

    ghost predicate PlacedInRow(start: Vec, n: nat, p: Vec) {
      && 0 <= Offset(stride, p) < data.Length
      && (p.y == start.y ==> Offset(stride, p) == Offset(stride, start) + p.x - start.x)
      && (Offset(stride, start) <= Offset(stride, p) < Offset(stride, start) + n <==>
            p.y == start.y && start.x <= p.x < start.x + n)
    }

    lemma RowFits(start: Vec, n: nat)
      requires Valid() && RowOn(start, n) && n > 0
      ensures 0 <= Offset(stride, start) && Offset(stride, start) + n <= data.Length
      ensures forall p: Vec {:trigger Offset(stride, p)} :: On(p) ==> PlacedInRow(start, n, p)
    {
      hide Offset;
      var last := Vec(start.x + n - 1, start.y);
      OffsetInside(stride, width, height, start);
      OffsetInside(stride, width, height, last);
      RowPlaces(stride, start, n, last);
      forall p: Vec | On(p) ensures PlacedInRow(start, n, p) {
        OffsetInside(stride, width, height, p);
        RowPlaces(stride, start, n, p);
      }
    }

    /** One row of Copy: row `dy` of the area, whose pixels are `shift` away from theirs in `src`. */
    method CopyRow(src: FrameBuffer, area: Rect, shift: Vec, dy: nat)
      requires Valid() && src.Valid() && data != src.data && dy < area.size.y && area.size.x >= 0
      requires area.size.x > 0 ==> RowOn(Vec(area.pos.x, area.pos.y + dy), area.size.x)
      requires area.size.x > 0 ==> src.RowOn(Vec(area.pos.x - shift.x, area.pos.y - shift.y + dy), area.size.x)
      modifies data
      ensures forall p: Vec :: On(p) ==>
        if In(area, p) && p.y == area.pos.y + dy then src.On(Minus(p, shift)) && At(p) == src.At(Minus(p, shift))
        else At(p) == old(At(p))
    {
      hide Offset;
      var start, from, n := Vec(area.pos.x, area.pos.y + dy), Vec(area.pos.x - shift.x, area.pos.y - shift.y + dy), area.size.x;
      var d, s := Offset(stride, start), Offset(src.stride, from);
      if n > 0 {
        RowFits(start, n);
        src.RowFits(from, n);
      }
      forall p: Vec | On(p) ensures 0 <= Offset(stride, p) < data.Length { OffsetInside(stride, width, height, p); }
      MemCopy(data, d, src.data, s, n);
    }

    /** FrameBuffer::Copy: the part of `src` in `src_area` appears at `pos`, clipped to both buffers. */
    method Copy(pos: Vec, src: FrameBuffer, src_area: Rect) returns (ok: bool)
      requires Valid() && src.Valid() && data != src.data && Sized(src_area)
      modifies data
      ensures ok == (format == src.format)
      ensures forall p: Vec :: On(p) ==>
        At(p) == if ok && In(Rect(pos, src_area.size), p) && src.On(Minus(p, Minus(pos, src_area.pos)))
                 then src.At(Minus(p, Minus(pos, src_area.pos))) else old(At(p))
    {
      if format != src.format {
        return false;
      }
      hide And, CopyArea, Offset, FrameBuffer.At, FrameBuffer.RowOn;
      var copy_area := CopyArea(pos, src, src_area);
      CopyAreaIs(pos, src, src_area);
      var shift := Minus(pos, src_area.pos);
      for dy := 0 to copy_area.size.y
        invariant forall p: Vec :: On(p) ==>
          At(p) == if In(copy_area, p) && p.y < copy_area.pos.y + dy then src.At(Minus(p, shift)) else old(At(p))
      {
        CopyRowOn(pos, src, src_area, dy);
        CopyRow(src, copy_area, shift, dy);
      }
      ok := true;
    }

    /** The part of this buffer that Copy writes. */
    function CopyArea(pos: Vec, src: FrameBuffer, src_area: Rect): Rect {
      And(And(Outline(), Rect(Minus(pos, src_area.pos), Vec(src.width, src.height))), Rect(pos, src_area.size))
    }

    lemma CopyAreaIs(pos: Vec, src: FrameBuffer, src_area: Rect)
      requires Sized(src_area)
      ensures Sized(CopyArea(pos, src, src_area))
      ensures forall p: Vec {:trigger In(CopyArea(pos, src, src_area), p)} :: In(CopyArea(pos, src, src_area), p) <==>
        On(p) && In(Rect(pos, src_area.size), p) && src.On(Minus(p, Minus(pos, src_area.pos)))
    {
      hide And;
      var src_outline := Rect(Minus(pos, src_area.pos), Vec(src.width, src.height));
      AndIsIntersection(Outline(), src_outline);
      AndIsIntersection(And(Outline(), src_outline), Rect(pos, src_area.size));
    }

    lemma CopyRowOn(pos: Vec, src: FrameBuffer, src_area: Rect, dy: nat)
      requires Sized(src_area)
      ensures var a, shift := CopyArea(pos, src, src_area), Minus(pos, src_area.pos);
        dy < a.size.y && a.size.x > 0 ==>
          && RowOn(Vec(a.pos.x, a.pos.y + dy), a.size.x)
          && src.RowOn(Vec(a.pos.x - shift.x, a.pos.y - shift.y + dy), a.size.x)
    {
      hide CopyArea;
      CopyAreaIs(pos, src, src_area);
      var a := CopyArea(pos, src, src_area);
      if dy < a.size.y && a.size.x > 0 {
        assert In(a, Vec(a.pos.x, a.pos.y + dy));
        assert In(a, Vec(a.pos.x + a.size.x - 1, a.pos.y + dy));
      }
    }
  }
}
