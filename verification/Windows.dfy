/** Windows: a picture, kept as pixels and as a shadow buffer, that draws itself into a frame buffer. */
module Windows {
  import opened Wrappers
  import opened Composition
  import opened FrameBuffers

  class Window {
    const width: nat
    const height: nat
    const data: array<Color>
    const shadow_buffer: FrameBuffer
    const transparent_color: Option<Color>

    ghost predicate Valid() {
      && width * height <= data.Length && data != shadow_buffer.data
      && shadow_buffer.Valid() && shadow_buffer.width == width && shadow_buffer.height == height
    }

    /** The memory that holds the picture. */
    function Cells(): set<object> { {data, shadow_buffer.data} }

    function Size(): Vec { Vec(width, height) }

    predicate Inside(q: Vec) { In(Rect(Vec(0, 0), Size()), q) }

    /** The pixel that drawing uses: opaque windows are copied from the shadow buffer. */
    ghost function Pixel(q: Vec): Color
      reads data, shadow_buffer.data
      requires Valid() && Inside(q)
    {
      if transparent_color.None? then shadow_buffer.At(q)
      else
        OffsetInside(width, width, height, q);
        data[Offset(width, q)]
    }

    /** The window as a layer of the composition. */
    ghost function Sheet(pos: Vec): (s: Sheet)
      reads data, shadow_buffer.data
      requires Valid()
      ensures s.pos == pos && s.size == Size() && s.clear == transparent_color
      ensures forall q: Vec :: Inside(q) ==> Look(s, q) == Pixel(q)
    {
      Composition.Sheet(pos, Size(), transparent_color, Rows())
    }

    ghost function Rows(): (r: seq<seq<Color>>)
      reads data, shadow_buffer.data
      requires Valid()
      ensures |r| == height && forall y :: 0 <= y < height ==> r[y] == Row(y)
    {
      seq(height, y requires 0 <= y < height && Valid() reads data, shadow_buffer.data => Row(y))
    }

    ghost function Row(y: nat): (r: seq<Color>)
      reads data, shadow_buffer.data
      requires Valid() && y < height
      ensures |r| == width && forall x :: 0 <= x < width ==> r[x] == Pixel(Vec(x, y))
    {
      seq(width, x requires 0 <= x < width && Valid() reads data, shadow_buffer.data => Pixel(Vec(x, y)))
    }

    constructor (width: nat, height: nat, format: PixelFormat, transparent: Option<Color>)
      ensures Valid() && fresh(data) && fresh(shadow_buffer) && fresh(shadow_buffer.data)
      ensures this.width == width && this.height == height && transparent_color == transparent && shadow_buffer.format == format
    {
      this.width, this.height, transparent_color := width, height, transparent;
      data := new Color[width * height](_ => Color(0, 0, 0));
      shadow_buffer := new FrameBuffer(format, width, height);
    }

    /** Window::Write: the pixel and its shadow. */
    method Write(q: Vec, c: Color)
      requires Valid() && Inside(q)
      modifies data, shadow_buffer.data
      ensures forall p: Vec :: Inside(p) ==> Pixel(p) == if p == q then c else old(Pixel(p))
    {
      hide FrameBuffer.At;
      OffsetInside(width, width, height, q);
      forall p: Vec | Inside(p) && p != q ensures Offset(width, p) != Offset(width, q) { OffsetOneToOne(width, p, q); }
      data[Offset(width, q)] := c;
      shadow_buffer.Put(q, c);
    }

    /** What a window's Activate and Deactivate do: they draw a new look. */
    method Repaint(look: Vec -> Color)
      requires Valid()
      modifies data, shadow_buffer.data
      ensures forall p: Vec :: Inside(p) ==> Pixel(p) == look(p)
    {
      for y := 0 to height
        invariant forall p: Vec :: Inside(p) && p.y < y ==> Pixel(p) == look(p)
      {
        for x := 0 to width
          invariant forall p: Vec :: Inside(p) && (p.y < y || (p.y == y && p.x < x)) ==> Pixel(p) == look(p)
        {
          Write(Vec(x, y), look(Vec(x, y)));
        }
      }
    }

    /** Window::DrawTo: an opaque window is copied inside `area`; of a transparent one every pixel that
        is on the buffer is drawn, unless it has the transparent colour. */
    method DrawTo(dst: FrameBuffer, pos: Vec, area: Rect)
      requires Valid() && dst.Valid() && dst.format == shadow_buffer.format && Sized(area)
      requires dst.data != data && dst.data != shadow_buffer.data
      modifies dst.data
      ensures forall p: Vec :: dst.On(p) ==> dst.At(p) == Paint(Sheet(pos), area, p, old(dst.At(p)))
    {
      hide FrameBuffer.At, Offset, And;
      ghost var s := Sheet(pos);
      if transparent_color.None? {
        var window_area := Rect(pos, Size());
        var intersection := And(area, window_area);
        AndIsIntersection(area, window_area);
        var ok := dst.Copy(intersection.pos, shadow_buffer, Rect(Minus(intersection.pos, pos), intersection.size));
        return;
      }
      var tc := transparent_color.value;
      var dy_beg := if pos.y < 0 then -pos.y else 0;
      var dx_beg := if pos.x < 0 then -pos.x else 0;
      var dy_end := if pos.y + height > dst.height then dst.height - pos.y else height;
      var dx_end := if pos.x + width > dst.width then dst.width - pos.x else width;
      var dy := dy_beg;
      while dy < dy_end
        invariant dy_beg <= dy
        invariant forall p: Vec :: dst.On(p) ==>
          dst.At(p) == if p.y - pos.y < dy then Paint(s, area, p, old(dst.At(p))) else old(dst.At(p))
      {
        DrawRow(dst, pos, dy, dx_beg, dx_end, tc, s, area);
        dy := dy + 1;
      }
    }

    /** One row of a transparent window. */
    method DrawRow(dst: FrameBuffer, pos: Vec, dy: int, dx_beg: int, dx_end: int, tc: Color, ghost s: Sheet, ghost area: Rect)
      requires Valid() && dst.Valid() && dst.data != data && dst.data != shadow_buffer.data
      requires transparent_color == Some(tc) && s == Sheet(pos) && 0 <= dy < height && 0 <= pos.y + dy < dst.height
      requires dx_beg == (if pos.x < 0 then -pos.x else 0)
      requires dx_end == if pos.x + width > dst.width then dst.width - pos.x else width
      modifies dst.data
      ensures forall p: Vec :: dst.On(p) ==>
        dst.At(p) == if p.y == pos.y + dy then Paint(s, area, p, old(dst.At(p))) else old(dst.At(p))
    {
      hide FrameBuffer.At, Offset, Look, Window.Pixel, Window.Valid;
      var dx := dx_beg;
      while dx < dx_end
        invariant dx_beg <= dx
        invariant forall p: Vec :: dst.On(p) ==>
          dst.At(p) == if p.y == pos.y + dy && p.x - pos.x < dx then Paint(s, area, p, old(dst.At(p))) else old(dst.At(p))
      {
        var q := Vec(dx, dy);
        var c := PixelOf(q);
        assert c == Look(s, q);
        if c != tc {
          dst.Put(Plus(pos, q), c);
        }
        dx := dx + 1;
      }
    }

    /** Window::At. */
    method PixelOf(q: Vec) returns (c: Color)
      requires Valid() && Inside(q) && transparent_color.Some?
      ensures c == Pixel(q)
    {
      OffsetInside(width, width, height, q);
      c := data[Offset(width, q)];
    }
  }
}
