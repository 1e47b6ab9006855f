/** De-interlacing of PNG images (section 8.2 of the PNG specification, second edition). */
module Adam7 {
  import opened Composition
  import opened FrameBuffers

  type Pixel = Color

  function XOrig(p: nat): nat { if p == 1 then 4 else if p == 3 then 2 else if p == 5 then 1 else 0 }
  function YOrig(p: nat): nat { if p == 2 then 4 else if p == 4 then 2 else if p == 6 then 1 else 0 }

  function XSpc(p: nat): (r: nat)
    ensures r in {1, 2, 4, 8} && XOrig(p) < r
  {
    if p < 2 then 8 else if p < 4 then 4 else if p < 6 then 2 else 1
  }

  function YSpc(p: nat): (r: nat)
    ensures r in {2, 4, 8} && YOrig(p) < r
  {
    if p < 3 then 8 else if p < 5 then 4 else 2
  }

  /** The sizes of the reduced image of a pass. */
  function PassWidth(w: nat, p: nat): nat { Ceiling(w, XOrig(p), XSpc(p)) }
  function PassHeight(h: nat, p: nat): nat { Ceiling(h, YOrig(p), YSpc(p)) }

  function Ceiling(n: nat, orig: nat, spc: nat): nat
    requires orig < spc
  {
    (n - orig + spc - 1) / spc
  }

  /** The pattern that the specification gives: the pass, from 1, of each pixel of an 8 by 8 block. */
  function Pattern(): (r: seq<seq<nat>>)
    ensures |r| == 8 && forall y :: 0 <= y < 8 ==> |r[y]| == 8 && forall x :: 0 <= x < 8 ==> 1 <= r[y][x] <= 7
  {
    [ [1, 6, 4, 6, 2, 6, 4, 6],
      [7, 7, 7, 7, 7, 7, 7, 7],
      [5, 6, 5, 6, 5, 6, 5, 6],
      [7, 7, 7, 7, 7, 7, 7, 7],
      [3, 6, 4, 6, 3, 6, 4, 6],
      [7, 7, 7, 7, 7, 7, 7, 7],
      [5, 6, 5, 6, 5, 6, 5, 6],
      [7, 7, 7, 7, 7, 7, 7, 7] ]
  }

  function PassOf(x: nat, y: nat): (p: nat)
    ensures p < 7
  {
    Pattern()[y % 8][x % 8] - 1
  }

  predicate OnAxis(orig: nat, spc: nat, x: nat): (on: bool)
    requires spc > 0
    ensures on ==> x >= orig
  {
    x >= orig && (x - orig) % spc == 0
  }

  /** The pixel lies on the grid of pass `p`. */
  predicate OnGrid(p: nat, x: nat, y: nat) {
    OnAxis(XOrig(p), XSpc(p), x) && OnAxis(YOrig(p), YSpc(p), y)
  }

  lemma AxisIs(orig: nat, spc: nat, x: nat)
    requires spc in {1, 2, 4, 8} && orig < spc
    ensures OnAxis(orig, spc, x) <==> x % spc == orig
  {
    match spc
    case 1 =>
    case 2 => assert x >= orig && (x - orig) % 2 == 0 <==> x % 2 == orig;
    case 4 => assert x >= orig && (x - orig) % 4 == 0 <==> x % 4 == orig;
    case 8 => assert x >= orig && (x - orig) % 8 == 0 <==> x % 8 == orig;
  }

  lemma AxisRepeats(orig: nat, spc: nat, x: nat)
    requires spc in {1, 2, 4, 8} && orig < spc
    ensures OnAxis(orig, spc, x) <==> OnAxis(orig, spc, x % 8)
  {
    hide OnAxis;
    AxisIs(orig, spc, x);
    AxisIs(orig, spc, x % 8);
    assert x % 8 % spc == x % spc by {
      match spc
      case 1 =>
      case 2 => assert x % 8 % 2 == x % 2;
      case 4 => assert x % 8 % 4 == x % 4;
      case 8 => assert x % 8 % 8 == x % 8;
    }
  }

  /** The grids of the seven passes are the pattern: every pixel belongs to exactly one pass. */
  lemma GridIsPattern(p: nat, x: nat, y: nat)
    requires p < 7
    ensures OnGrid(p, x, y) <==> PassOf(x, y) == p
  {
    hide OnAxis, Pattern;
    AxisRepeats(XOrig(p), XSpc(p), x);
    AxisRepeats(YOrig(p), YSpc(p), y);
    GridInBlock(p, x % 8, y % 8);
    assert PassOf(x % 8, y % 8) == PassOf(x, y);
  }

  /** The pass of a place in the block, by the powers of two that divide its coordinates. */
  function Halving(x: nat, y: nat): nat {
    if y % 2 == 1 then 6 else if x % 2 == 1 then 5 else if y % 4 == 2 then 4 else if x % 4 == 2 then 3
    else if y == 4 then 2 else if x == 4 then 1 else 0
  }

  lemma PatternHalves(x: nat, y: nat)
    requires x < 8 && y < 8
    ensures PassOf(x, y) == Halving(x, y)
  {
    if y % 2 == 1 { } else if y == 0 { } else if y == 2 { } else if y == 4 { } else { }
  }

  lemma GridInBlock(p: nat, x: nat, y: nat)
    requires p < 7 && x < 8 && y < 8
    ensures OnGrid(p, x, y) <==> PassOf(x, y) == p
  {
    hide Pattern, PassOf, OnAxis;
    PatternHalves(x, y);
    AxisIs(XOrig(p), XSpc(p), x);
    AxisIs(YOrig(p), YSpc(p), y);
  }

  /** A sample's index in its pass lies inside the reduced image exactly when its pixel lies in the image. */
  lemma CeilingIs(n: nat, orig: nat, spc: nat, i: nat)
    requires spc in {1, 2, 4, 8} && orig < spc
    ensures i < Ceiling(n, orig, spc) <==> i * spc + orig < n
  {
    if spc == 8 { } else if spc == 4 { } else if spc == 2 { } else { }
  }

  /** The sample index of a pixel on an axis. */
  lemma AxisIndex(orig: nat, spc: nat, i: nat, x: nat)
    requires spc in {1, 2, 4, 8} && orig < spc
    ensures x == i * spc + orig <==> OnAxis(orig, spc, x) && i == (x - orig) / spc
  {
    if spc == 8 { } else if spc == 4 { } else if spc == 2 { } else { }
  }

  /** Sample `(i, j)` of pass `p` is that of pixel `(x, y)`. */
  predicate IsSample(w: nat, h: nat, x: nat, y: nat, p: nat, i: nat, j: nat) {
    && p < 7 && i < PassWidth(w, p) && j < PassHeight(h, p)
    && x == i * XSpc(p) + XOrig(p) && y == j * YSpc(p) + YOrig(p)
  }

  function SampleX(p: nat, x: nat): nat
    requires x >= XOrig(p)
  {
    (x - XOrig(p)) / XSpc(p)
  }

  function SampleY(p: nat, y: nat): nat
    requires y >= YOrig(p)
  {
    (y - YOrig(p)) / YSpc(p)
  }

  /** Samples and pixels are the same in number and pair off: every pixel of the image is written by
      exactly one sample, and every sample is written to a pixel of the image. */
  lemma OneSample(w: nat, h: nat, x: nat, y: nat)
    ensures forall p: nat, i: nat, j: nat :: IsSample(w, h, x, y, p, i, j) ==> x < w && y < h
    ensures x >= XOrig(PassOf(x, y)) && y >= YOrig(PassOf(x, y))
    ensures x < w && y < h ==> IsSample(w, h, x, y, PassOf(x, y), SampleX(PassOf(x, y), x), SampleY(PassOf(x, y), y))
    ensures forall p: nat, i: nat, j: nat :: IsSample(w, h, x, y, p, i, j) ==>
      p == PassOf(x, y) && x >= XOrig(p) && y >= YOrig(p) && i == SampleX(p, x) && j == SampleY(p, y)
  {
    hide OnAxis, Pattern, PassOf, Ceiling;
    GridIsPattern(PassOf(x, y), x, y);
    forall p: nat, i: nat, j: nat | IsSample(w, h, x, y, p, i, j)
      ensures x < w && y < h && p == PassOf(x, y) && x >= XOrig(p) && y >= YOrig(p) && i == SampleX(p, x) && j == SampleY(p, y)
    {
      AxisIndex(XOrig(p), XSpc(p), i, x);
      AxisIndex(YOrig(p), YSpc(p), j, y);
      GridIsPattern(p, x, y);
      CeilingIs(w, XOrig(p), XSpc(p), i);
      CeilingIs(h, YOrig(p), YSpc(p), j);
    }
    if x < w && y < h {
      var p := PassOf(x, y);
      AxisIndex(XOrig(p), XSpc(p), SampleX(p, x), x);
      AxisIndex(YOrig(p), YSpc(p), SampleY(p, y), y);
      CeilingIs(w, XOrig(p), XSpc(p), SampleX(p, x));
      CeilingIs(h, YOrig(p), YSpc(p), SampleY(p, y));
    }
  }

  /** The decoded reduced images, each with as many samples as its pass has. */
  ghost predicate Passes(passes: seq<seq<Pixel>>, w: nat, h: nat) {
    |passes| == 7 && forall p :: 0 <= p < 7 ==> |passes[p]| == PassWidth(w, p) * PassHeight(h, p)
  }

  /** The sample that belongs to a pixel. */
  ghost function Sample(passes: seq<seq<Pixel>>, w: nat, h: nat, x: nat, y: nat): Pixel
    requires Passes(passes, w, h) && x < w && y < h
  {
    OneSample(w, h, x, y);
    var p := PassOf(x, y);
    SampleInside(passes, w, h, p, SampleX(p, x), SampleY(p, y));
    passes[p][Offset(PassWidth(w, p), Vec(SampleX(p, x), SampleY(p, y)))]
  }

  lemma SampleInside(passes: seq<seq<Pixel>>, w: nat, h: nat, p: nat, i: nat, j: nat)
    requires Passes(passes, w, h) && p < 7 && i < PassWidth(w, p) && j < PassHeight(h, p)
    ensures 0 <= Offset(PassWidth(w, p), Vec(i, j)) < |passes[p]|
  {
    hide Ceiling;
    OffsetInside(PassWidth(w, p), PassWidth(w, p), PassHeight(h, p), Vec(i, j));
  }

  /** The pixels of the image are distinct places of the buffer. */
  ghost predicate Places(w: nat, h: nat, length: nat) {
    && (forall x: nat, y: nat {:trigger Offset(w, Vec(x, y))} :: x < w && y < h ==> 0 <= Offset(w, Vec(x, y)) < length)
  }

  lemma PlacesInside(w: nat, h: nat)
    ensures Places(w, h, w * h)
  {
    forall x: nat, y: nat | x < w && y < h ensures 0 <= Offset(w, Vec(x, y)) < w * h { OffsetInside(w, w, h, Vec(x, y)); }
  }

  /** One sample is copied to its pixel. */
  method PutSample(final: array<Pixel>, passes: seq<seq<Pixel>>, w: nat, h: nat, p: nat, i: nat, j: nat)
    requires Passes(passes, w, h) && Places(w, h, final.Length) && p < 7 && i < PassWidth(w, p) && j < PassHeight(h, p)
    modifies final
    ensures var ox, oy := i * XSpc(p) + XOrig(p), j * YSpc(p) + YOrig(p);
      && ox < w && oy < h && PassOf(ox, oy) == p
      && forall x: nat, y: nat {:trigger final[Offset(w, Vec(x, y))]} :: x < w && y < h ==>
           final[Offset(w, Vec(x, y))] == if x == ox && y == oy then Sample(passes, w, h, x, y) else old(final[Offset(w, Vec(x, y))])
  {
    hide Offset, PassOf, Ceiling;
    var out_y := j * YSpc(p) + YOrig(p);
    var out_x := i * XSpc(p) + XOrig(p);
    OneSample(w, h, out_x, out_y);
    assert IsSample(w, h, out_x, out_y, p, i, j);
    SampleInside(passes, w, h, p, i, j);
    forall x: nat, y: nat | x < w && y < h && !(x == out_x && y == out_y)
      ensures Offset(w, Vec(x, y)) != Offset(w, Vec(out_x, out_y))
    {
      OffsetOneToOne(w, Vec(x, y), Vec(out_x, out_y));
    }
    final[Offset(w, Vec(out_x, out_y))] := passes[p][Offset(PassWidth(w, p), Vec(i, j))];
  }

  /** On a row of a pass the next sample is the next pixel of that pass. */
  lemma NextInRow(w: nat, h: nat, p: nat, i: nat, j: nat, x: nat)
    requires p < 7 && j < PassHeight(h, p) && x < w
    ensures var y := j * YSpc(p) + YOrig(p);
      && y < h
      && (PassOf(x, y) == p ==>
            (x < i * XSpc(p) + XOrig(p) <==> x >= XOrig(p) && SampleX(p, x) < i)
            && x >= XOrig(p) && SampleX(p, x) < PassWidth(w, p))
  {
    hide OnAxis, Pattern, PassOf, Ceiling;
    var y := j * YSpc(p) + YOrig(p);
    CeilingIs(h, YOrig(p), YSpc(p), j);
    OneSample(w, h, x, y);
    if PassOf(x, y) == p {
      var k := SampleX(p, x);
      assert IsSample(w, h, x, y, p, k, SampleY(p, y));
      Steps(k, i, XSpc(p));
    }
  }

  lemma Steps(k: nat, i: nat, s: nat)
    requires s > 0
    ensures k * s < i * s <==> k < i
  {
    assert k < i ==> (k + 1) * s <= i * s && (k + 1) * s == k * s + s;
    assert k >= i ==> k * s >= i * s;
  }

  method ScatterRow(final: array<Pixel>, passes: seq<seq<Pixel>>, w: nat, h: nat, p: nat, j: nat)
    requires Passes(passes, w, h) && Places(w, h, final.Length) && p < 7 && j < PassHeight(h, p)
    modifies final
    ensures forall x: nat, y: nat {:trigger final[Offset(w, Vec(x, y))]} :: x < w && y < h ==>
      final[Offset(w, Vec(x, y))] == if PassOf(x, y) == p && y == j * YSpc(p) + YOrig(p) then Sample(passes, w, h, x, y)
                                     else old(final[Offset(w, Vec(x, y))])
  {
    hide Offset, PassOf, PassWidth, PassHeight, Sample;
    var oy := j * YSpc(p) + YOrig(p);
    for i := 0 to PassWidth(w, p)
      invariant forall x: nat, y: nat {:trigger final[Offset(w, Vec(x, y))]} :: x < w && y < h ==>
        final[Offset(w, Vec(x, y))] == if PassOf(x, y) == p && y == oy && x >= XOrig(p) && SampleX(p, x) < i then Sample(passes, w, h, x, y)
                                       else old(final[Offset(w, Vec(x, y))])
    {
      PutSample(final, passes, w, h, p, i, j);
      forall x: nat | x < w && PassOf(x, oy) == p && x >= XOrig(p) ensures SampleX(p, x) == i <==> x == i * XSpc(p) + XOrig(p) {
        SameColumn(w, h, p, i, x, oy);
      }
    }
    forall x: nat | x < w && PassOf(x, oy) == p ensures x >= XOrig(p) && SampleX(p, x) < PassWidth(w, p) { NextInRow(w, h, p, 0, j, x); }
  }

  lemma SameColumn(w: nat, h: nat, p: nat, i: nat, x: nat, y: nat)
    requires p < 7 && PassOf(x, y) == p && x >= XOrig(p)
    ensures SampleX(p, x) == i <==> x == i * XSpc(p) + XOrig(p)
  {
    hide OnAxis, Pattern, PassOf;
    GridIsPattern(p, x, y);
    AxisIndex(XOrig(p), XSpc(p), i, x);
  }

  method ScatterPass(final: array<Pixel>, passes: seq<seq<Pixel>>, w: nat, h: nat, p: nat)
    requires Passes(passes, w, h) && Places(w, h, final.Length) && p < 7
    modifies final
    ensures forall x: nat, y: nat {:trigger final[Offset(w, Vec(x, y))]} :: x < w && y < h ==>
      final[Offset(w, Vec(x, y))] == if PassOf(x, y) == p then Sample(passes, w, h, x, y) else old(final[Offset(w, Vec(x, y))])
  {
    hide Offset, PassOf, PassWidth, PassHeight, Sample;
    for j := 0 to PassHeight(h, p)
      invariant forall x: nat, y: nat {:trigger final[Offset(w, Vec(x, y))]} :: x < w && y < h ==>
        final[Offset(w, Vec(x, y))] == if PassOf(x, y) == p && y >= YOrig(p) && SampleY(p, y) < j then Sample(passes, w, h, x, y)
                                       else old(final[Offset(w, Vec(x, y))])
    {
      ScatterRow(final, passes, w, h, p, j);
      forall x: nat, y: nat | x < w && y < h && PassOf(x, y) == p && y >= YOrig(p)
        ensures SampleY(p, y) == j <==> y == j * YSpc(p) + YOrig(p)
      {
        SameRow(p, j, x, y);
      }
    }
    forall x: nat, y: nat | x < w && y < h && PassOf(x, y) == p ensures y >= YOrig(p) && SampleY(p, y) < PassHeight(h, p) {
      OneSample(w, h, x, y);
    }
  }

  lemma SameRow(p: nat, j: nat, x: nat, y: nat)
    requires p < 7 && PassOf(x, y) == p && y >= YOrig(p)
    ensures SampleY(p, y) == j <==> y == j * YSpc(p) + YOrig(p)
  {
    hide OnAxis, Pattern, PassOf;
    GridIsPattern(p, x, y);
    AxisIndex(YOrig(p), YSpc(p), j, y);
  }

  /** The interlaced branch of stbi__create_png_image: every pixel gets the sample that belongs to it. */
  method DeInterlace(passes: seq<seq<Pixel>>, w: nat, h: nat) returns (final: array<Pixel>)
    requires Passes(passes, w, h)
    ensures fresh(final) && final.Length == w * h && Places(w, h, w * h)
    ensures forall x: nat, y: nat {:trigger final[Offset(w, Vec(x, y))]} :: x < w && y < h ==>
      final[Offset(w, Vec(x, y))] == Sample(passes, w, h, x, y)
  {
    hide Offset, PassOf, PassWidth, PassHeight, Sample;
    final := new Pixel[w * h](_ => Color(0, 0, 0));
    PlacesInside(w, h);
    for p := 0 to 7
      invariant forall x: nat, y: nat {:trigger final[Offset(w, Vec(x, y))]} :: x < w && y < h && PassOf(x, y) < p ==>
        final[Offset(w, Vec(x, y))] == Sample(passes, w, h, x, y)
    {
      if PassWidth(w, p) != 0 && PassHeight(h, p) != 0 {
        ScatterPass(final, passes, w, h, p);
      } else {
        forall x: nat, y: nat | x < w && y < h ensures PassOf(x, y) != p { OneSample(w, h, x, y); }
      }
    }
  }
}
