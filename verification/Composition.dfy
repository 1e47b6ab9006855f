/** What the screen should show: the layers seen from above, pixel by pixel, and why redrawing part
    of them is enough. */
module Composition {
  import opened Wrappers

  datatype Color = Color(r: bv8, g: bv8, b: bv8)

  datatype Vec = Vec(x: int, y: int)

  datatype Rect = Rect(pos: Vec, size: Vec)

  function Plus(a: Vec, b: Vec): Vec { Vec(a.x + b.x, a.y + b.y) }
  function Minus(a: Vec, b: Vec): Vec { Vec(a.x - b.x, a.y - b.y) }
  function Max(a: int, b: int): int { if a < b then b else a }
  function ElementMax(a: Vec, b: Vec): Vec { Vec(Max(a.x, b.x), Max(a.y, b.y)) }
  function ElementMin(a: Vec, b: Vec): Vec { Vec(Min(a.x, b.x), Min(a.y, b.y)) }

  predicate In(r: Rect, p: Vec) {
    r.pos.x <= p.x < r.pos.x + r.size.x && r.pos.y <= p.y < r.pos.y + r.size.y
  }

  predicate Sized(r: Rect) { r.size.x >= 0 && r.size.y >= 0 }

  /** Rectangle::operator&. */
  function And(a: Rect, b: Rect): Rect {
    var end := Plus(a.pos, a.size);
    var rhs_end := Plus(b.pos, b.size);
    if end.x < b.pos.x || end.y < b.pos.y || rhs_end.x < a.pos.x || rhs_end.y < a.pos.y then Rect(Vec(0, 0), Vec(0, 0))
    else
      var new_pos := ElementMax(a.pos, b.pos);
      Rect(new_pos, Minus(ElementMin(end, rhs_end), new_pos))
  }

  /** It is the intersection, for all rectangles, and has no negative side unless its operands do. */
  lemma AndIsIntersection(a: Rect, b: Rect)
    ensures forall p: Vec {:trigger In(And(a, b), p)} :: In(And(a, b), p) <==> In(a, p) && In(b, p)
    ensures Sized(a) && Sized(b) ==> Sized(And(a, b))
  {
  }

  /** A layer with the picture of its window; `clear` is the colour that is not drawn. */
  datatype Sheet = Sheet(pos: Vec, size: Vec, clear: Option<Color>, rows: seq<seq<Color>>)

  function Area(s: Sheet): Rect { Rect(s.pos, s.size) }

  function Look(s: Sheet, q: Vec): Color {
    if 0 <= q.y < |s.rows| && 0 <= q.x < |s.rows[q.y]| then s.rows[q.y][q.x] else Color(0, 0, 0)
  }

  predicate Shows(s: Sheet, p: Vec) {
    In(Area(s), p) && s.clear != Some(Look(s, Minus(p, s.pos)))
  }

  /** The colour of the topmost sheet that shows at `p`. */
  function Seen(ss: seq<Sheet>, p: Vec): Option<Color> {
    if ss == [] then None
    else
      var s := ss[|ss| - 1];
      if Shows(s, p) then Some(Look(s, Minus(p, s.pos))) else Seen(ss[..|ss| - 1], p)
  }

  /** A pixel is right when it has the colour that is seen there; where nothing shows, any will do. */
  predicate Right(ss: seq<Sheet>, p: Vec, c: Color) {
    Seen(ss, p) == None || Seen(ss, p) == Some(c)
  }

  /** Window::DrawTo, at one pixel: an opaque window is clipped to `area`, a transparent one is not. */
  function Paint(s: Sheet, area: Rect, p: Vec, c: Color): Color {
    if (s.clear == None ==> In(area, p)) && Shows(s, p) then Look(s, Minus(p, s.pos)) else c
  }

  function PaintAll(ss: seq<Sheet>, area: Rect, p: Vec, c: Color): Color {
    if ss == [] then c else Paint(ss[|ss| - 1], area, p, PaintAll(ss[..|ss| - 1], area, p, c))
  }

  /** Only the topmost sheet, the mouse pointer, may be transparent. */
  predicate MouseOnTop(ss: seq<Sheet>) {
    forall i :: 0 <= i < |ss| - 1 ==> ss[i].clear == None
  }

  /** Inside the area everything is redrawn. */
  lemma {:induction false} PaintInside(ss: seq<Sheet>, area: Rect, p: Vec, c: Color)
    requires In(area, p)
    ensures PaintAll(ss, area, p, c) == match Seen(ss, p) case Some(v) => v case None => c
  {
    hide Shows, Look;
    if ss != [] { PaintInside(ss[..|ss| - 1], area, p, c); }
  }

  /** Outside it only the mouse pointer is. */
  lemma {:induction false} PaintOutside(ss: seq<Sheet>, area: Rect, p: Vec, c: Color)
    requires MouseOnTop(ss) && !In(area, p)
    ensures PaintAll(ss, area, p, c) == c || Seen(ss, p) == Some(PaintAll(ss, area, p, c))
    ensures ss != [] && ss[|ss| - 1].clear != None && Shows(ss[|ss| - 1], p) ==> Seen(ss, p) == Some(PaintAll(ss, area, p, c))
  {
    hide Shows, Look;
    if ss != [] { OpaqueOutside(ss[..|ss| - 1], area, p, c); }
  }

  lemma {:induction false} OpaqueOutside(ss: seq<Sheet>, area: Rect, p: Vec, c: Color)
    requires !In(area, p) && forall i :: 0 <= i < |ss| ==> ss[i].clear == None
    ensures PaintAll(ss, area, p, c) == c
  {
    if ss != [] { OpaqueOutside(ss[..|ss| - 1], area, p, c); }
  }

  /** Sheets below one that shows are hidden. */
  lemma {:induction false} SeenFrom(ss: seq<Sheet>, k: nat, p: Vec)
    requires k < |ss|
    ensures Seen(ss[k..], p) != None ==> Seen(ss, p) == Seen(ss[k..], p)
    ensures Seen(ss[k..], p) == None ==> Seen(ss, p) == Seen(ss[..k], p)
  {
    hide Shows, Look;
    var n := |ss| - 1;
    assert ss[k..][|ss[k..]| - 1] == ss[n];
    if k < n {
      assert ss[k..][..|ss[k..]| - 1] == ss[..n][k..] && ss[..n][..k] == ss[..k];
      SeenFrom(ss[..n], k, p);
    } else {
      assert ss[k..][..0] == [];
    }
  }

  /** A sheet can be taken away from where it does not show. */
  lemma {:induction false} SeenWithout(ss: seq<Sheet>, k: nat, p: Vec)
    requires k < |ss| && !Shows(ss[k], p)
    ensures Seen(ss[..k] + ss[k + 1..], p) == Seen(ss, p)
  {
    hide Shows, Look;
    var n := |ss| - 1;
    var ts := ss[..k] + ss[k + 1..];
    if k < n {
      assert ts[n - 1] == ss[n] && ts[..n - 1] == ss[..n][..k] + ss[..n][k + 1..];
      SeenWithout(ss[..n], k, p);
    } else {
      assert ts == ss[..n];
    }
  }

  /** Two stacks that differ by one sheet, which shows in neither at `p`, look the same there. */
  lemma SameElsewhere(ss: seq<Sheet>, i: nat, ts: seq<Sheet>, j: nat, p: Vec)
    requires i < |ss| && j < |ts| && ss[..i] + ss[i + 1..] == ts[..j] + ts[j + 1..]
    requires !Shows(ss[i], p) && !Shows(ts[j], p)
    ensures Seen(ss, p) == Seen(ts, p)
  {
    SeenWithout(ss, i, p);
    SeenWithout(ts, j, p);
  }

  /** The screen after the back buffer has been copied to it in an area. */
  function Shown(area: Rect, p: Vec, back: Color, screen: Color): Color {
    if In(area, p) then back else screen
  }

  /** Redrawing an area puts right every pixel in it, and spoils none outside it. */
  lemma AreaRedrawn(ss: seq<Sheet>, area: Rect, p: Vec, back: Color, screen: Color)
    requires MouseOnTop(ss)
    ensures var b := PaintAll(ss, area, p, back);
      && (In(area, p) || Right(ss, p, back) ==> Right(ss, p, b))
      && (In(area, p) || Right(ss, p, screen) ==> Right(ss, p, Shown(area, p, b, screen)))
  {
    hide Shows, Seen, PaintAll;
    if In(area, p) { PaintInside(ss, area, p, back); } else { PaintOutside(ss, area, p, back); }
  }

  /** Redrawing a layer and those above it, inside its own area, does the same. If the layer is
      transparent the pixels it leaves must be right before. */
  lemma LayerRedrawn(ss: seq<Sheet>, k: nat, area: Rect, p: Vec, back: Color, screen: Color)
    requires MouseOnTop(ss) && k < |ss| && (In(area, p) ==> In(Area(ss[k]), p))
    requires (In(area, p) && ss[k].clear == None) || Right(ss, p, back)
    ensures var b := PaintAll(ss[k..], area, p, back);
      && Right(ss, p, b) && (In(area, p) || Right(ss, p, screen) ==> Right(ss, p, Shown(area, p, b, screen)))
  {
    hide PaintAll, Look;
    SeenFrom(ss, k, p);
    if In(area, p) {
      PaintInside(ss[k..], area, p, back);
      SeenSomething(ss[k..], p);
    } else {
      PaintOutside(ss[k..], area, p, back);
    }
  }

  lemma {:induction false} SeenSomething(ss: seq<Sheet>, p: Vec)
    requires ss != []
    ensures Shows(ss[0], p) ==> Seen(ss, p) != None
  {
    hide Shows, Look;
    if |ss| > 1 { SeenSomething(ss[..|ss| - 1], p); }
  }

  /** Moving a layer: the area it leaves is redrawn, then the layer at its new place. */
  lemma Moved(ss: seq<Sheet>, k: nat, pos: Vec, p: Vec, back: Color, screen: Color)
    requires MouseOnTop(ss) && k < |ss| && Right(ss, p, back) && Right(ss, p, screen)
    ensures
      var ts := ss[k := ss[k].(pos := pos)];
      var b := PaintAll(ts, Area(ss[k]), p, back);
      var b' := PaintAll(ts[k..], Area(ts[k]), p, b);
      Right(ts, p, b') && Right(ts, p, Shown(Area(ts[k]), p, b', Shown(Area(ss[k]), p, b, screen)))
  {
    hide PaintAll, Look, Seen;
    var ts := ss[k := ss[k].(pos := pos)];
    var b := PaintAll(ts, Area(ss[k]), p, back);
    AreaRedrawn(ts, Area(ss[k]), p, back, screen);
    if !In(Area(ss[k]), p) {
      if !Shows(ts[k], p) {
        assert ss[..k] + ss[k + 1..] == ts[..k] + ts[k + 1..];
        SameElsewhere(ss, k, ts, k, p);
      } else {
        PaintOutside(ts, Area(ss[k]), p, back);
      }
    }
    LayerRedrawn(ts, k, Area(ts[k]), p, b, Shown(Area(ss[k]), p, b, screen));
  }

  /** An opaque layer is new, or has changed its place in the stack or its picture: redrawing the part of it
      in which the scene has changed is enough. */
  lemma Refreshed(ss: seq<Sheet>, ts: seq<Sheet>, j: nat, area: Rect, p: Vec, back: Color, screen: Color)
    requires MouseOnTop(ts) && j < |ts| && ts[j].clear == None && Right(ss, p, back) && Right(ss, p, screen)
    requires if In(area, p) then In(Area(ts[j]), p) else Seen(ss, p) == Seen(ts, p)
    ensures var b := PaintAll(ts[j..], area, p, back);
      Right(ts, p, b) && Right(ts, p, Shown(area, p, b, screen))
  {
    hide PaintAll, Look, Seen;
    LayerRedrawn(ts, j, area, p, back, screen);
  }

  /** Stacks whose sheets look alike at `p`. */
  lemma {:induction false} SeenAlike(ss: seq<Sheet>, ts: seq<Sheet>, p: Vec)
    requires |ss| == |ts|
    requires forall i {:trigger ss[i]} {:trigger ts[i]} :: 0 <= i < |ss| ==>
      (Shows(ss[i], p) <==> Shows(ts[i], p)) && (Shows(ss[i], p) ==> Look(ss[i], Minus(p, ss[i].pos)) == Look(ts[i], Minus(p, ts[i].pos)))
    ensures Seen(ss, p) == Seen(ts, p)
  {
    hide Shows, Look;
    if ss != [] { SeenAlike(ss[..|ss| - 1], ts[..|ts| - 1], p); }
  }

  /** A layer has been taken away: redrawing the area it covered is enough. */
  lemma Removed(ss: seq<Sheet>, i: nat, p: Vec, back: Color, screen: Color)
    requires i < |ss| && MouseOnTop(ss[..i] + ss[i + 1..]) && Right(ss, p, back) && Right(ss, p, screen)
    ensures var ts := ss[..i] + ss[i + 1..];
      var b := PaintAll(ts, Area(ss[i]), p, back);
      Right(ts, p, b) && Right(ts, p, Shown(Area(ss[i]), p, b, screen))
  {
    hide PaintAll, Look, Seen;
    var ts := ss[..i] + ss[i + 1..];
    if !In(Area(ss[i]), p) { SeenWithout(ss, i, p); }
    AreaRedrawn(ts, Area(ss[i]), p, back, screen);
  }
}
