/** The stack of layers, and the operations that keep the screen equal to it by redrawing little. */
module Layers {
  import opened Wrappers
  import opened Composition
  import opened FrameBuffers
  import opened Windows

  type LayerID = nat

  datatype Layer = Layer(pos: Vec, window: Window)

  function InsertAt<T>(s: seq<T>, j: nat, x: T): (r: seq<T>)
    requires j <= |s|
    ensures |r| == |s| + 1
  {
    s[..j] + [x] + s[j..]
  }

  function RemoveAt<T>(s: seq<T>, i: nat): (r: seq<T>)
    requires i < |s|
    ensures |r| == |s| - 1
  {
    s[..i] + s[i + 1..]
  }

  /** LayerManager::GetDepth. */
  function DepthOf(stack: seq<LayerID>, id: LayerID): (r: int)
    ensures r == -1 || (0 <= r < |stack| && stack[r] == id)
    ensures r == -1 ==> id !in stack
  {
    if stack == [] then -1
    else if stack[0] == id then 0
    else
      var r := DepthOf(stack[1..], id);
      if r == -1 then -1 else r + 1
  }

  predicate Distinct(stack: seq<LayerID>) {
    forall i, j :: 0 <= i < j < |stack| ==> stack[i] != stack[j]
  }

  /** Where SetDepth puts a layer: a depth beyond the stack means its top, a negative one takes it away,
      and a layer that was hidden comes one place higher than one that was not. */
  function Restacked(stack: seq<LayerID>, id: LayerID, depth: int): seq<LayerID> {
    var i, n := DepthOf(stack, id), |stack|;
    if depth < 0 then (if i < 0 then stack else RemoveAt(stack, i))
    else if i < 0 then InsertAt(stack, Min(depth + 1, n), id)
    else InsertAt(RemoveAt(stack, i), Min(depth, n - 1), id)
  }

  /** Where the layer stands afterwards: nowhere for a negative depth, else at that depth, or one above it if it was
      hidden, but not above the top. The others keep their order. */
  lemma Restacks(stack: seq<LayerID>, id: LayerID, depth: int)
    requires Distinct(stack)
    ensures var after := Restacked(stack, id, depth);
      var others := if id in stack then RemoveAt(stack, DepthOf(stack, id)) else stack;
      && id !in others && (depth < 0 ==> after == others)
      && (depth >= 0 ==>
            var p := if id in stack then depth else depth + 1;
            var j := if p < |others| then p else |others|;
            |after| == |others| + 1 && after[j] == id && RemoveAt(after, j) == others)
  {
    hide InsertAt, RemoveAt, DepthOf;
    DepthOnce(stack, id);
    var i := DepthOf(stack, id);
    if i >= 0 { WithoutOne(stack, i); }
    var rest := if i < 0 then stack else RemoveAt(stack, i);
    if depth >= 0 { InsertFacts(rest, if i < 0 then Min(depth + 1, |rest|) else Min(depth, |rest|), id); }
  }

  lemma WithoutOne(stack: seq<LayerID>, i: nat)
    requires Distinct(stack) && i < |stack|
    ensures stack[i] !in RemoveAt(stack, i)
  {
  }

  /** Activate asks for the place below the mouse pointer, or for the top. The layer goes there and the
      others keep their order; only when the pointer is alone in the stack nothing happens. */
  lemma RaisedStack(stack: seq<LayerID>, id: LayerID, mouse: LayerID)
    requires Distinct(stack) && |stack| < TOP_LAYER_DEPTH && id != mouse
    requires mouse != 0 ==> stack != [] && stack[|stack| - 1] == mouse
    ensures var after := Restacked(stack, id, if mouse != 0 then DepthOf(stack, mouse) - 1 else TOP_LAYER_DEPTH);
      && (mouse != 0 && |stack| == 1 ==> after == stack && id !in stack)
      && (mouse == 0 || |stack| > 1 ==>
            var j := |after| - (if mouse == 0 then 1 else 2);
            && j >= 0 && after[j] == id && (mouse != 0 ==> after[j + 1] == mouse)
            && RemoveAt(after, j) == if id in stack then RemoveAt(stack, DepthOf(stack, id)) else stack)
  {
    hide InsertAt, RemoveAt, DepthOf;
    DepthOnce(stack, id);
    DepthOnce(stack, mouse);
    var n, i := |stack|, DepthOf(stack, id);
    if mouse == 0 || n > 1 {
      var rest := if i < 0 then stack else RemoveAt(stack, i);
      if i >= 0 { RemoveFacts(stack, i); }
      InsertFacts(rest, if mouse == 0 then |rest| else |rest| - 1, id);
    }
  }

  lemma InsertFacts<T>(s: seq<T>, j: nat, x: T)
    requires j <= |s|
    ensures InsertAt(s, j, x)[j] == x && RemoveAt(InsertAt(s, j, x), j) == s
    ensures j < |s| ==> InsertAt(s, j, x)[|s|] == s[|s| - 1]
  {
  }

  lemma RemoveFacts<T>(s: seq<T>, i: nat)
    requires i < |s|
    ensures i < |s| - 1 ==> RemoveAt(s, i)[|s| - 2] == s[|s| - 1]
  {
  }

  /** Every layer is in the stack at most once. */
  ghost predicate Stacked(stack: seq<LayerID>, ids: set<LayerID>) {
    Distinct(stack) && forall id <- stack :: id in ids
  }

  lemma RemoveStacked(stack: seq<LayerID>, ids: set<LayerID>, i: nat)
    requires Stacked(stack, ids) && i < |stack|
    ensures Stacked(RemoveAt(stack, i), ids) && stack[i] !in RemoveAt(stack, i)
  {
  }

  lemma InsertStacked(stack: seq<LayerID>, ids: set<LayerID>, j: nat, id: LayerID)
    requires Stacked(stack, ids) && j <= |stack| && id in ids && id !in stack
    ensures Stacked(InsertAt(stack, j, id), ids)
  {
  }

  class LayerManager {
    const screen: FrameBuffer
    const back_buffer: FrameBuffer
    var layers: map<LayerID, Layer>
    var layer_stack: seq<LayerID>

    ghost predicate Valid()
      reads this
    {
      && screen.Valid() && back_buffer.Valid() && screen.data != back_buffer.data
      && back_buffer.Outline() == screen.Outline() && back_buffer.format == screen.format
      && WindowsFit() && Stacked(layer_stack, layers.Keys)
    }

    /** Every window can be drawn, and no two share a picture. */
    ghost predicate WindowsFit()
      reads this
    {
      && (forall id <- layers :: Fits(layers[id].window))
      && (forall id <- layers, id' <- layers :: id != id' ==> layers[id].window.Cells() !! layers[id'].window.Cells())
    }

    ghost predicate Fits(w: Window) {
      && w.Valid() && w.shadow_buffer.format == screen.format
      && screen.data !in w.Cells() && back_buffer.data !in w.Cells()
    }

    ghost function Cells(): set<object>
      reads this
    {
      set id, o | id in layers && o in layers[id].window.Cells() :: o
    }

    ghost function SheetOf(id: LayerID): Sheet
      reads this, Cells()
      requires Valid() && id in layers
    {
      layers[id].window.Sheet(layers[id].pos)
    }

    ghost function SceneOf(stack: seq<LayerID>): (ss: seq<Sheet>)
      reads this, Cells()
      requires Valid() && forall id <- stack :: id in layers
      ensures |ss| == |stack| && forall i {:trigger ss[i]} {:trigger stack[i]} :: 0 <= i < |ss| ==> ss[i] == SheetOf(stack[i])
    {
      if stack == [] then [] else SceneOf(stack[..|stack| - 1]) + [SheetOf(stack[|stack| - 1])]
    }

    /** The layers that are shown, bottom first. */
    ghost function Scene(): (ss: seq<Sheet>)
      reads this, Cells()
      requires Valid()
      ensures |ss| == |layer_stack|
      ensures forall i {:trigger ss[i]} {:trigger layer_stack[i]} :: 0 <= i < |ss| ==> ss[i] == SheetOf(layer_stack[i])
    {
      SceneOf(layer_stack)
    }

    lemma NothingShown()
      requires Valid() && layer_stack == []
      ensures Synced()
    {
      forall p: Vec | screen.On(p) ensures Right(Scene(), p, back_buffer.At(p)) && Right(Scene(), p, screen.At(p)) {}
    }

    lemma CellsApart()
      requires Valid()
      ensures screen.data !in Cells() && back_buffer.data !in Cells()
      ensures forall id <- layers :: screen.data !in layers[id].window.Cells() && back_buffer.data !in layers[id].window.Cells()
    {
    }

    /** Screen and back buffer show the scene. */
    ghost predicate Synced()
      reads this, Cells(), screen.data, back_buffer.data
      requires Valid()
    {
      forall p: Vec {:trigger screen.At(p)} :: screen.On(p) ==>
        Right(Scene(), p, back_buffer.At(p)) && Right(Scene(), p, screen.At(p))
    }

    constructor (screen: FrameBuffer)
      requires screen.Valid()
      ensures Valid() && this.screen == screen && layers == map[] && layer_stack == [] && fresh(back_buffer)
      ensures Synced()
    {
      this.screen := screen;
      back_buffer := new FrameBuffer(screen.format, screen.width, screen.height);
      layers, layer_stack := map[], [];
      new;
      NothingShown();
    }

    /** One layer of the stack, drawn to the back buffer. */
    method DrawOne(i: nat, area: Rect)
      requires Valid() && i < |layer_stack| && Sized(area)
      modifies back_buffer.data
      ensures Scene() == old(Scene())
      ensures forall p: Vec {:trigger back_buffer.At(p)} :: back_buffer.On(p) ==>
        back_buffer.At(p) == Paint(Scene()[i], area, p, old(back_buffer.At(p)))
    {
      hide FrameBuffer.At, LayerManager.SceneOf, Paint;
      CellsApart();
      assert layer_stack[i] in layer_stack;
      var layer := layers[layer_stack[i]];
      layer.window.DrawTo(back_buffer, layer.pos, area);
    }

    /** The layers of the stack, drawn from the bottom to the back buffer. */
    method DrawStack(area: Rect)
      requires Valid() && Sized(area)
      modifies back_buffer.data
      ensures Scene() == old(Scene())
      ensures forall p: Vec {:trigger back_buffer.At(p)} :: back_buffer.On(p) ==>
        back_buffer.At(p) == PaintAll(Scene(), area, p, old(back_buffer.At(p)))
    {
      hide FrameBuffer.At, LayerManager.SceneOf, Paint;
      ghost var ss := Scene();
      for i := 0 to |layer_stack|
        invariant Scene() == ss
        invariant forall p: Vec {:trigger back_buffer.At(p)} :: back_buffer.On(p) ==>
          back_buffer.At(p) == PaintAll(ss[..i], area, p, old(back_buffer.At(p)))
      {
        DrawOne(i, area);
        assert ss[..i + 1][..i] == ss[..i];
      }
      assert ss[..|ss|] == ss;
    }

    /** LayerManager::Draw(area). */
    method DrawArea(area: Rect)
      requires Valid() && Sized(area)
      modifies back_buffer.data, screen.data
      ensures forall p: Vec {:trigger back_buffer.At(p)} :: back_buffer.On(p) ==>
        back_buffer.At(p) == PaintAll(Scene(), area, p, old(back_buffer.At(p)))
      ensures Scene() == old(Scene())
      ensures forall p: Vec {:trigger screen.At(p)} :: screen.On(p) ==>
        screen.At(p) == Shown(area, p, back_buffer.At(p), old(screen.At(p)))
    {
      hide FrameBuffer.At, LayerManager.SceneOf, PaintAll;
      CellsApart();
      ghost var ss := Scene();
      DrawStack(area);
      ToScreen(area);
      assert Scene() == ss;
    }

    /** The copy of an area of the back buffer to the same place on the screen. */
    method ToScreen(area: Rect)
      requires Valid() && Sized(area)
      modifies screen.data
      ensures Scene() == old(Scene())
      ensures forall p: Vec {:trigger screen.At(p)} :: screen.On(p) ==>
        screen.At(p) == Shown(area, p, back_buffer.At(p), old(screen.At(p)))
    {
      hide FrameBuffer.At;
      CellsApart();
      forall p: Vec ensures Minus(p, Minus(area.pos, area.pos)) == p {}
      assert Rect(area.pos, area.size) == area;
      var ok := screen.Copy(area.pos, back_buffer, area);
    }

    /** The part of the screen that Draw(id, area) redraws. */
    ghost function WindowArea(id: LayerID, area: Rect): Rect
      reads this
      requires id in layers
    {
      var a := Rect(layers[id].pos, layers[id].window.Size());
      if area.size.x >= 0 || area.size.y >= 0 then And(a, Rect(Plus(area.pos, a.pos), area.size)) else a
    }

    /** LayerManager::Draw(id, area): the layer and those above it, inside the layer's own area. */
    method DrawLayer(id: LayerID, area: Rect)
      requires Valid() && id in layers && (Sized(area) || (area.size.x < 0 && area.size.y < 0))
      modifies back_buffer.data, screen.data
      ensures var k, a := DepthOf(layer_stack, id), WindowArea(id, area);
        forall p: Vec {:trigger back_buffer.At(p)} :: back_buffer.On(p) ==>
          back_buffer.At(p) == if k < 0 then old(back_buffer.At(p)) else PaintAll(Scene()[k..], a, p, old(back_buffer.At(p)))
      ensures var k, a := DepthOf(layer_stack, id), WindowArea(id, area);
        forall p: Vec {:trigger screen.At(p)} :: screen.On(p) ==>
          screen.At(p) == if k < 0 then old(screen.At(p)) else Shown(a, p, back_buffer.At(p), old(screen.At(p)))
      ensures Scene() == old(Scene())
    {
      hide FrameBuffer.At, LayerManager.SceneOf, Paint, PaintAll, And, DepthOf, Look, Distinct, LayerManager.WindowsFit;
      ghost var ss, k, a := Scene(), DepthOf(layer_stack, id), WindowArea(id, area);
      AreaSized(id, area);
      CellsApart();
      DepthOnce(layer_stack, id);
      var draw := false;
      var window_area := Rect(Vec(0, 0), Vec(0, 0));
      for i := 0 to |layer_stack|
        invariant Scene() == ss && draw == (0 <= k < i) && (draw ==> window_area == a)
        invariant !draw ==> window_area == Rect(Vec(0, 0), Vec(0, 0))
        invariant forall p: Vec {:trigger back_buffer.At(p)} :: back_buffer.On(p) ==>
          back_buffer.At(p) == if draw then PaintAll(ss[k..i], a, p, old(back_buffer.At(p))) else old(back_buffer.At(p))
        modifies back_buffer.data
      {
        assert layer_stack[i] in layer_stack;
        var layer := layers[layer_stack[i]];
        if layer_stack[i] == id {
          window_area := Rect(layer.pos, layer.window.Size());
          if area.size.x >= 0 || area.size.y >= 0 {
            window_area := And(window_area, Rect(Plus(area.pos, window_area.pos), area.size));
          }
          draw := true;
          NothingPainted(ss, k, a);
        }
        if draw {
          DrawOne(i, window_area);
          PaintNext(ss, k, i, a);
        }
      }
      assert k >= 0 ==> ss[k..|layer_stack|] == ss[k..];
      ToScreen(window_area);
      assert Scene() == ss;
    }

    lemma AreaSized(id: LayerID, area: Rect)
      requires Valid() && id in layers && (Sized(area) || (area.size.x < 0 && area.size.y < 0))
      ensures Sized(WindowArea(id, area))
      ensures forall p: Vec :: In(WindowArea(id, area), p) ==> In(Area(SheetOf(id)), p)
    {
      hide And;
      var a := Rect(layers[id].pos, layers[id].window.Size());
      AndIsIntersection(a, Rect(Plus(area.pos, a.pos), area.size));
    }

    /** LayerManager::SetDepth. */
    method SetDepth(id: LayerID, depth: int)
      requires Valid() && id in layers
      modifies this`layer_stack
      ensures Valid()
      ensures layer_stack == Restacked(old(layer_stack), id, depth)
    {
      hide Stacked, RemoveAt, InsertAt, DepthOf;
      var old_pos := DepthOf(layer_stack, id);
      if depth < 0 {
        Hide(id);
        return;
      }
      var new_depth := if depth > |layer_stack| then |layer_stack| else depth;
      var new_pos := if new_depth == |layer_stack| then new_depth - 1 else new_depth;
      if old_pos < 0 {
        InsertStacked(layer_stack, layers.Keys, new_pos + 1, id);
        layer_stack := InsertAt(layer_stack, new_pos + 1, id);
        return;
      }
      RemoveStacked(layer_stack, layers.Keys, old_pos);
      layer_stack := RemoveAt(layer_stack, old_pos);
      InsertStacked(layer_stack, layers.Keys, new_pos, id);
      layer_stack := InsertAt(layer_stack, new_pos, id);
    }

    /** LayerManager::Hide. */
    method Hide(id: LayerID)
      requires Valid() && id in layers
      modifies this`layer_stack
      ensures Valid()
      ensures var i := DepthOf(old(layer_stack), id);
        layer_stack == if i < 0 then old(layer_stack) else RemoveAt(old(layer_stack), i)
    {
      var pos := DepthOf(layer_stack, id);
      if pos >= 0 {
        RemoveStacked(layer_stack, layers.Keys, pos);
        layer_stack := RemoveAt(layer_stack, pos);
      }
    }

    /** LayerManager::SetPosRelative. */
    method SetPosRelative(id: LayerID, pos_diff: Vec)
      requires Valid() && id in layers && MouseOnTop(Scene()) && Synced()
      modifies this`layers, back_buffer.data, screen.data
      ensures Valid() && layers == old(layers)[id := Layer(Plus(old(layers)[id].pos, pos_diff), old(layers)[id].window)]
      ensures Synced() && MouseOnTop(Scene())
    {
      SetPosAbsolute(id, Plus(layers[id].pos, pos_diff));
    }

    lemma SceneWithout(stack: seq<LayerID>, j: nat)
      requires Valid() && j < |stack| && forall id <- stack :: id in layers
      ensures forall id <- RemoveAt(stack, j) :: id in layers
      ensures RemoveAt(SceneOf(stack), j) == SceneOf(RemoveAt(stack, j))
    {
    }

    /** The scene after layer `id` alone has been given another place. */
    lemma SceneMoved(ss: seq<Sheet>, k: int, id: LayerID, pos: Vec, ts: seq<Sheet>)
      requires Valid() && id in layers && layers[id].pos == pos && ts == Scene()
      requires k == DepthOf(layer_stack, id) && |ss| == |ts|
      requires forall i {:trigger ss[i]} :: 0 <= i < |ss| ==>
        layer_stack[i] in layers && SheetOf(layer_stack[i]) == if layer_stack[i] == id then ss[i].(pos := pos) else ss[i]
      ensures ts == if k < 0 then ss else ss[k := ss[k].(pos := pos)]
    {
      DepthOnce(layer_stack, id);
    }

    /** LayerManager::SetPosAbsolute: screen and back buffer are right again after the move. */
    method SetPosAbsolute(id: LayerID, pos_abs: Vec)
      requires Valid() && id in layers && MouseOnTop(Scene()) && Synced()
      modifies this`layers, back_buffer.data, screen.data
      ensures Valid() && layers == old(layers)[id := Layer(pos_abs, old(layers)[id].window)]
      ensures Synced() && MouseOnTop(Scene())
    {
      hide FrameBuffer.At, LayerManager.SceneOf, PaintAll, Seen, Shows, Look, DepthOf, Shown;
      ghost var ss, k := Scene(), DepthOf(layer_stack, id);
      var layer := layers[id];
      layers := layers[id := Layer(pos_abs, layer.window)];
      ghost var ts := Scene();
      SceneMoved(ss, k, id, pos_abs, ts);
      Redraw(id, Rect(layer.pos, layer.window.Size()));
      forall p: Vec | screen.On(p) ensures Right(ts, p, back_buffer.At(p)) && Right(ts, p, screen.At(p)) {
        if k < 0 {
          AreaRedrawn(ts, Rect(layer.pos, layer.window.Size()), p, old(back_buffer.At(p)), old(screen.At(p)));
        } else {
          Moved(ss, k, pos_abs, p, old(back_buffer.At(p)), old(screen.At(p)));
        }
      }
    }

    /** The two redraws of a move. */
    method Redraw(id: LayerID, area: Rect)
      requires Valid() && Sized(area) && id in layers
      modifies back_buffer.data, screen.data
      ensures Scene() == old(Scene())
      ensures var k, a := DepthOf(layer_stack, id), WindowArea(id, WHOLE);
        forall p: Vec {:trigger back_buffer.At(p)} :: screen.On(p) ==>
          var b := PaintAll(Scene(), area, p, old(back_buffer.At(p)));
          back_buffer.At(p) == if k < 0 then b else PaintAll(Scene()[k..], a, p, b)
      ensures var k, a := DepthOf(layer_stack, id), WindowArea(id, WHOLE);
        forall p: Vec {:trigger screen.At(p)} :: screen.On(p) ==>
          var b := PaintAll(Scene(), area, p, old(back_buffer.At(p)));
          var s := Shown(area, p, b, old(screen.At(p)));
          screen.At(p) == if k < 0 then s else Shown(a, p, back_buffer.At(p), s)
    {
      hide FrameBuffer.At, LayerManager.SceneOf, PaintAll, Shown, LayerManager.WindowsFit, Stacked;
      DrawArea(area);
      DrawLayer(id, WHOLE);
    }

    /** Drawing a layer that is new, or the part of it that has changed, makes screen and back buffer right
        again. */
    method DrawChanged(id: LayerID, area: Rect, ghost ss: seq<Sheet>)
      requires Valid() && id in layers && MouseOnTop(Scene()) && SheetOf(id).clear == None
      requires Sized(area) || (area.size.x < 0 && area.size.y < 0)
      requires forall p: Vec {:trigger screen.At(p)} :: screen.On(p) ==>
        Right(ss, p, back_buffer.At(p)) && Right(ss, p, screen.At(p))
      requires SameBut(ss, Scene(), WindowArea(id, area), id in layer_stack)
      modifies back_buffer.data, screen.data
      ensures Scene() == old(Scene()) && Synced()
    {
      hide FrameBuffer.At, LayerManager.SceneOf, PaintAll, Seen, Shows, Look, DepthOf, Shown, LayerManager.WindowsFit, Stacked, And;
      ghost var ts, k := Scene(), DepthOf(layer_stack, id);
      AreaSized(id, area);
      DrawLayer(id, area);
      forall p: Vec | screen.On(p) ensures Right(ts, p, back_buffer.At(p)) && Right(ts, p, screen.At(p)) {
        assert Right(ss, p, old(screen.At(p)));
        if k >= 0 {
          Refreshed(ss, ts, k, WindowArea(id, area), p, old(back_buffer.At(p)), old(screen.At(p)));
        }
      }
    }

    /** The picture of layer `id` has changed, and only inside `area` of its window: the case DrawPartial of
        ProcessLayerMessage. */
    method DrawPart(id: LayerID, area: Rect, ghost ss: seq<Sheet>)
      requires Valid() && id in layers && MouseOnTop(Scene()) && SheetOf(id).clear == None
      requires Sized(area) || (area.size.x < 0 && area.size.y < 0)
      requires forall p: Vec {:trigger screen.At(p)} :: screen.On(p) ==>
        Right(ss, p, back_buffer.At(p)) && Right(ss, p, screen.At(p))
      requires PartChanged(ss, Scene(), DepthOf(layer_stack, id), WindowArea(id, area))
      modifies back_buffer.data, screen.data
      ensures Scene() == old(Scene()) && Synced()
    {
      hide LayerManager.SceneOf, PaintAll, Shows, Look, DepthOf, Shown, LayerManager.WindowsFit, Stacked, And,
        PartChanged, SameBut, FrameBuffer.At;
      forall p: Vec | screen.On(p) ensures Right(ss, p, back_buffer.At(p)) && Right(ss, p, screen.At(p)) {
        var shown := screen.At(p);
      }
      SceneFacts(id);
      PartSame(ss, Scene(), DepthOf(layer_stack, id), WindowArea(id, area));
      DrawChanged(id, area, ss);
    }

    /** A window draws itself a new look, which is not on the screen yet. */
    method RepaintLayer(id: LayerID, look: Vec -> Color)
      requires Valid() && id in layers
      modifies layers[id].window.Cells()
      ensures Valid() && Area(SheetOf(id)) == old(Area(SheetOf(id))) && SheetOf(id).clear == old(SheetOf(id).clear)
      ensures forall i {:trigger Scene()[i]} :: 0 <= i < |layer_stack| && layer_stack[i] != id ==> Scene()[i] == old(Scene())[i]
    {
      hide LayerManager.SceneOf;
      ghost var ss := Scene();
      layers[id].window.Repaint(look);
      forall i | 0 <= i < |layer_stack| && layer_stack[i] != id ensures Scene()[i] == ss[i] {
        assert layer_stack[i] in layer_stack;
      }
    }

    /** The mouse pointer, if there is one, is the top of the stack; every other window is opaque. */
    ghost predicate Tidy(mouse: LayerID)
      reads this
    {
      && 0 !in layers && (forall id <- layers :: id != mouse ==> layers[id].window.transparent_color == None)
      && (mouse != 0 ==> layer_stack != [] && layer_stack[|layer_stack| - 1] == mouse)
    }

    lemma TidyTop(mouse: LayerID)
      requires Valid() && Tidy(mouse)
      ensures MouseOnTop(Scene())
    {
      forall i | 0 <= i < |layer_stack| - 1 ensures Scene()[i].clear == None {
        assert layer_stack[i] in layer_stack && layer_stack[i] != layer_stack[|layer_stack| - 1];
      }
    }

    /** A window has drawn a new look, and is redrawn where it stands, if it is shown. */
    method ShowLook(id: LayerID, look: Vec -> Color, ghost mouse: LayerID)
      requires Valid() && Tidy(mouse) && id in layers && id != mouse && Synced()
      modifies back_buffer.data, screen.data, layers[id].window.Cells()
      ensures Valid() && Tidy(mouse) && Synced()
    {
      hide FrameBuffer.At, LayerManager.SceneOf, PaintAll, Seen, Shows, Look, Shown, Stacked, SameBut, DepthOf,
        LayerManager.WindowsFit;
      ghost var ss, k := Scene(), DepthOf(layer_stack, id);
      SceneFacts(id);
      CellsApart();
      RepaintLayer(id, look);
      assert forall p: Vec :: screen.On(p) ==> screen.At(p) == old(screen.At(p)) && back_buffer.At(p) == old(back_buffer.At(p));
      TidyTop(mouse);
      LookChanged(ss, Scene(), k, SheetOf(id));
      DrawChanged(id, WHOLE, ss);
    }

    /** ActiveLayer::Activate, for the layer that becomes active: it draws its new look, comes to the top
        of the stack, below the mouse pointer, and is redrawn. */
    method Raise(id: LayerID, look: Vec -> Color, mouse: LayerID)
      requires Valid() && Tidy(mouse) && id in layers && id != mouse && Synced() && |layer_stack| < TOP_LAYER_DEPTH
      modifies this`layer_stack, back_buffer.data, screen.data, layers[id].window.Cells()
      ensures Valid() && Tidy(mouse) && Synced()
      ensures AtTop(old(layer_stack), id, mouse) && |layer_stack| <= |old(layer_stack)| + 1
    {
      hide FrameBuffer.At, LayerManager.SceneOf, PaintAll, Seen, Shows, Look, Shown, SameBut, DepthOf, LayerManager.WindowsFit,
        Distinct, Restacked, LayerManager.AtTop, MouseOnTop;
      ghost var ss, before := Scene(), layer_stack;
      SceneFacts(id);
      CellsApart();
      RepaintLayer(id, look);
      assert forall p: Vec :: screen.On(p) ==> screen.At(p) == old(screen.At(p)) && back_buffer.At(p) == old(back_buffer.At(p));
      ghost var mid := Scene();
      var top_depth := TOP_LAYER_DEPTH;
      if mouse != 0 {
        top_depth := DepthOf(layer_stack, mouse) - 1;
      }
      SetDepth(id, top_depth);
      StackedIn(before);
      assert mid == SceneOf(before);
      RaisedTop(before, id, mouse);
      RaisedScene(ss, mid, before, id, mouse);
      TidyTop(mouse);
      DrawChanged(id, WHOLE, ss);
    }

    /** The layer is on top, but for the mouse pointer, and the others have kept their order. */
    ghost predicate AtTop(before: seq<LayerID>, id: LayerID, mouse: LayerID)
      reads this
    {
      if mouse != 0 && |before| == 1 then layer_stack == before
      else
        var j := |layer_stack| - (if mouse == 0 then 1 else 2);
        j >= 0 && layer_stack[j] == id && (mouse != 0 ==> layer_stack[j + 1] == mouse)
        && RemoveAt(layer_stack, j) == if id in before && DepthOf(before, id) >= 0 then RemoveAt(before, DepthOf(before, id)) else before
    }

    lemma RaisedTop(before: seq<LayerID>, id: LayerID, mouse: LayerID)
      requires id in layers && id != mouse && Distinct(before) && |before| < TOP_LAYER_DEPTH
      requires 0 !in layers && (forall i <- layers :: i != mouse ==> layers[i].window.transparent_color == None)
      requires mouse != 0 ==> before != [] && before[|before| - 1] == mouse
      requires layer_stack == Restacked(before, id, if mouse != 0 then DepthOf(before, mouse) - 1 else TOP_LAYER_DEPTH)
      ensures Tidy(mouse) && AtTop(before, id, mouse) && |layer_stack| <= |before| + 1
      ensures mouse != 0 && |before| == 1 ==> id !in layer_stack && layer_stack == before
    {
      hide DepthOf, Restacked, RemoveAt, Distinct;
      DepthOnce(before, id);
      RaisedStack(before, id, mouse);
    }

    lemma RaisedScene(ss: seq<Sheet>, mid: seq<Sheet>, before: seq<LayerID>, id: LayerID, mouse: LayerID)
      requires Valid() && id in layers && id != mouse && Stacked(before, layers.Keys)
      requires AtTop(before, id, mouse) && (mouse != 0 && |before| == 1 ==> id !in layer_stack)
      requires mid == SceneOf(before) && |ss| == |mid|
      requires forall i {:trigger mid[i]} :: 0 <= i < |ss| && before[i] != id ==> mid[i] == ss[i]
      requires DepthOf(before, id) >= 0 ==> Area(ss[DepthOf(before, id)]) == Area(SheetOf(id))
      ensures SameBut(ss, Scene(), Area(SheetOf(id)), id in layer_stack)
    {
      hide Seen, Look, LayerManager.WindowsFit, DepthOf, RemoveAt, SameBut, Distinct;
      DepthOnce(before, id);
      if mouse == 0 || |before| != 1 {
        RaisedSame(ss, mid, before, id, mouse, |layer_stack| - (if mouse == 0 then 1 else 2));
      } else {
        LookChanged(ss, mid, -1, SheetOf(id));
      }
    }

    /** Raising a layer changes the scene in its own area only. */
    lemma RaisedSame(ss: seq<Sheet>, mid: seq<Sheet>, before: seq<LayerID>, id: LayerID, mouse: LayerID, j: int)
      requires Valid() && id in layers && Stacked(before, layers.Keys) && mid == SceneOf(before) && |ss| == |mid|
      requires forall i {:trigger mid[i]} :: 0 <= i < |ss| && before[i] != id ==> mid[i] == ss[i]
      requires id in before ==> DepthOf(before, id) >= 0 && Area(ss[DepthOf(before, id)]) == Area(SheetOf(id))
      requires 0 <= j < |layer_stack| && layer_stack[j] == id
      requires RemoveAt(layer_stack, j) == if id in before then RemoveAt(before, DepthOf(before, id)) else before
      ensures SameBut(ss, Scene(), Area(SheetOf(id)), true)
    {
      hide Seen, Look, LayerManager.WindowsFit, DepthOf, RemoveAt, SameBut;
      var ts, k := Scene(), DepthOf(before, id);
      SceneWithout(layer_stack, j);
      DepthOnce(before, id);
      if id in before {
        SceneWithout(before, k);
        SameWithout(ss, mid, k);
        ChangedOnly(ss, k, ts, j);
      } else {
        assert ss == mid;
        AddedOnly(ss, ts, j);
      }
    }

    /** LayerManager::RemoveLayer. */
    method RemoveLayer(id: LayerID, ghost mouse: LayerID)
      requires Valid() && Tidy(mouse) && id in layers && id != mouse
      modifies this`layer_stack, this`layers
      ensures Valid() && Tidy(mouse) && layers == old(layers) - {id}
      ensures var i := DepthOf(old(layer_stack), id);
        && layer_stack == (if i < 0 then old(layer_stack) else RemoveAt(old(layer_stack), i))
        && Scene() == if i < 0 then old(Scene()) else RemoveAt(old(Scene()), i)
    {
      hide LayerManager.SceneOf, DepthOf, RemoveAt, Distinct, LayerManager.WindowsFit, Window.Sheet;
      ghost var ss, k, before := Scene(), DepthOf(layer_stack, id), layer_stack;
      SceneFacts(id);
      Hide(id);
      StackWithout(before, k, id, layers.Keys, mouse);
      forall i | 0 <= i < |ss| ensures before[i] in layers && ss[i] == SheetOf(before[i]) {
        assert ss[i] == old(SheetOf(before[i]));
      }
      SceneLess(ss, k, Scene(), before);
      Erase(id);
    }

    /** A layer that is not shown leaves the table. */
    method Erase(id: LayerID)
      requires Valid() && id !in layer_stack
      modifies this`layers
      ensures Valid() && layers == old(layers) - {id} && Scene() == old(Scene())
    {
      hide LayerManager.SceneOf, Distinct;
      layers := layers - {id};
      assert Valid();
      forall i | 0 <= i < |layer_stack| ensures Scene()[i] == old(Scene())[i] {
        assert layer_stack[i] in layers;
        assert Scene()[i] == SheetOf(layer_stack[i]) && old(Scene())[i] == old(SheetOf(layer_stack[i]));
      }
    }

    /** Where a layer was, what is below it is redrawn. */
    method DrawRemoved(area: Rect, ghost ss: seq<Sheet>, ghost k: int)
      requires Valid() && MouseOnTop(Scene()) && Sized(area) && -1 <= k < |ss|
      requires Scene() == if k < 0 then ss else RemoveAt(ss, k)
      requires k >= 0 ==> area == Area(ss[k])
      requires forall p: Vec {:trigger screen.At(p)} :: screen.On(p) ==>
        Right(ss, p, back_buffer.At(p)) && Right(ss, p, screen.At(p))
      modifies back_buffer.data, screen.data
      ensures Scene() == old(Scene()) && Synced()
    {
      hide FrameBuffer.At, LayerManager.SceneOf, PaintAll, Seen, Shows, Look, Shown, LayerManager.WindowsFit, Stacked;
      ghost var ts := Scene();
      DrawArea(area);
      forall p: Vec | screen.On(p) ensures Right(ts, p, back_buffer.At(p)) && Right(ts, p, screen.At(p)) {
        assert Right(ss, p, old(screen.At(p)));
        if k < 0 {
          AreaRedrawn(ts, area, p, old(back_buffer.At(p)), old(screen.At(p)));
        } else {
          Removed(ss, k, p, old(back_buffer.At(p)), old(screen.At(p)));
        }
      }
    }

    /** The end of CloseLayer. */
    method RemoveAndRedraw(id: LayerID, ghost mouse: LayerID)
      requires Valid() && Tidy(mouse) && id in layers && id != mouse && Synced()
      modifies this`layer_stack, this`layers, back_buffer.data, screen.data
      ensures Valid() && Tidy(mouse) && Synced() && layers == old(layers) - {id}
      ensures var i := DepthOf(old(layer_stack), id);
        layer_stack == if i < 0 then old(layer_stack) else RemoveAt(old(layer_stack), i)
    {
      hide FrameBuffer.At, LayerManager.SceneOf, Right, DepthOf, RemoveAt, LayerManager.WindowsFit, Stacked, MouseOnTop;
      ghost var ss, k := Scene(), DepthOf(layer_stack, id);
      SceneFacts(id);
      var area := Rect(layers[id].pos, layers[id].window.Size());
      AreaIs(id, k, area);
      RemoveLayer(id, mouse);
      assert forall p: Vec :: screen.On(p) ==> screen.At(p) == old(screen.At(p)) && back_buffer.At(p) == old(back_buffer.At(p));
      TidyTop(mouse);
      DrawRemoved(area, ss, k);
    }

    lemma AreaIs(id: LayerID, k: int, area: Rect)
      requires Valid() && id in layers && area == Rect(layers[id].pos, layers[id].window.Size()) && k < |layer_stack|
      ensures Sized(area) && (k >= 0 && layer_stack[k] == id ==> area == Area(Scene()[k]))
    {
    }

    lemma SceneLess(ss: seq<Sheet>, k: int, ts: seq<Sheet>, before: seq<LayerID>)
      requires Valid() && ts == Scene() && |ss| == |before| && -1 <= k < |before|
      requires layer_stack == if k < 0 then before else RemoveAt(before, k)
      requires forall i {:trigger ss[i]} {:trigger before[i]} :: 0 <= i < |ss| && i != k ==> before[i] in layers && ss[i] == SheetOf(before[i])
      ensures ts == if k < 0 then ss else RemoveAt(ss, k)
    {
      hide LayerManager.SceneOf, LayerManager.WindowsFit, Stacked, Distinct, LayerManager.SheetOf;
      if k >= 0 {
        forall i | 0 <= i < |ts| ensures ts[i] == RemoveAt(ss, k)[i] {
          assert layer_stack[i] == if i < k then before[i] else before[i + 1];
        }
      }
    }

    lemma CellsOf(id: LayerID)
      requires id in layers
      ensures layers[id].window.Cells() <= Cells()
    {
    }

    lemma StackedIn(stack: seq<LayerID>)
      requires Stacked(stack, layers.Keys)
      ensures forall i <- stack :: i in layers
    {
    }

    lemma SceneFacts(id: LayerID)
      requires Valid()
      ensures DepthOf(layer_stack, id) < 0 ==> id !in layer_stack
      ensures DepthOf(layer_stack, id) >= 0 ==> id in layer_stack
      ensures forall i {:trigger layer_stack[i]} :: 0 <= i < |layer_stack| ==> (layer_stack[i] == id <==> i == DepthOf(layer_stack, id))
    {
      DepthOnce(layer_stack, id);
    }
  }

  /** Two scenes look the same, but for one area, if a sheet is shown there. */
  ghost predicate SameBut(ss: seq<Sheet>, ts: seq<Sheet>, area: Rect, shown: bool) {
    forall p: Vec {:trigger Seen(ss, p)} {:trigger Seen(ts, p)} :: (shown && In(area, p)) || Seen(ss, p) == Seen(ts, p)
  }

  /** Only sheet `k` has another picture, and only inside `area` of the screen. */
  ghost predicate PartChanged(ss: seq<Sheet>, ts: seq<Sheet>, k: int, area: Rect) {
    && |ss| == |ts| && -1 <= k < |ss| && (forall i {:trigger ts[i]} :: 0 <= i < |ss| && i != k ==> ts[i] == ss[i])
    && (k >= 0 ==>
      && Area(ss[k]) == Area(ts[k]) && ss[k].clear == ts[k].clear
      && forall q: Vec {:trigger Look(ts[k], q)} :: !In(area, Plus(q, ts[k].pos)) ==> Look(ss[k], q) == Look(ts[k], q))
  }

  lemma PartSame(ss: seq<Sheet>, ts: seq<Sheet>, k: int, area: Rect)
    requires PartChanged(ss, ts, k, area)
    ensures SameBut(ss, ts, area, k >= 0)
  {
    hide Look, Seen;
    forall p: Vec | k < 0 || !In(area, p) ensures Seen(ss, p) == Seen(ts, p) {
      if k >= 0 { assert Plus(Minus(p, ts[k].pos), ts[k].pos) == p && Look(ss[k], Minus(p, ts[k].pos)) == Look(ts[k], Minus(p, ts[k].pos)); }
      SeenAlike(ss, ts, p);
    }
  }

  lemma LookChanged(ss: seq<Sheet>, ts: seq<Sheet>, k: int, s: Sheet)
    requires |ss| == |ts| && -1 <= k < |ss| && forall i {:trigger ts[i]} :: 0 <= i < |ss| && i != k ==> ts[i] == ss[i]
    requires k >= 0 ==> ts[k] == s && Area(ss[k]) == Area(s)
    ensures SameBut(ss, ts, Area(s), k >= 0)
  {
    if k >= 0 {
      assert RemoveAt(ss, k) == RemoveAt(ts, k);
      ChangedOnly(ss, k, ts, k);
    } else {
      assert ss == ts;
    }
  }

  lemma SameWithout(ss: seq<Sheet>, ts: seq<Sheet>, k: nat)
    requires |ss| == |ts| && k < |ss| && forall i {:trigger ts[i]} :: 0 <= i < |ss| && i != k ==> ts[i] == ss[i]
    ensures RemoveAt(ss, k) == RemoveAt(ts, k)
  {
  }

  lemma AddedOnly(ss: seq<Sheet>, ts: seq<Sheet>, j: nat)
    requires j < |ts| && ss == RemoveAt(ts, j)
    ensures SameBut(ss, ts, Area(ts[j]), true)
  {
    hide Seen, Look;
    forall p: Vec | !In(Area(ts[j]), p) ensures Seen(ss, p) == Seen(ts, p) { SeenWithout(ts, j, p); }
  }

  lemma ChangedOnly(ss: seq<Sheet>, i: nat, ts: seq<Sheet>, j: nat)
    requires i < |ss| && j < |ts| && RemoveAt(ss, i) == RemoveAt(ts, j) && Area(ss[i]) == Area(ts[j])
    ensures SameBut(ss, ts, Area(ts[j]), true)
  {
    hide Seen, Look;
    forall p: Vec | !In(Area(ts[j]), p) ensures Seen(ss, p) == Seen(ts, p) { SameElsewhere(ss, i, ts, j, p); }
  }

  lemma PaintNext(ss: seq<Sheet>, k: nat, i: nat, area: Rect)
    requires k <= i < |ss|
    ensures forall p: Vec, c: Color {:trigger PaintAll(ss[k..i + 1], area, p, c)} {:trigger PaintAll(ss[k..i], area, p, c)} ::
      PaintAll(ss[k..i + 1], area, p, c) == Paint(ss[i], area, p, PaintAll(ss[k..i], area, p, c))
  {
    hide Paint;
    assert ss[k..i + 1][..i - k] == ss[k..i];
  }

  lemma NothingPainted(ss: seq<Sheet>, k: nat, area: Rect)
    requires k <= |ss|
    ensures forall p: Vec, c: Color {:trigger PaintAll(ss[k..k], area, p, c)} :: PaintAll(ss[k..k], area, p, c) == c
  {
  }

  /** std::numeric_limits<int>::max(). */
  const TOP_LAYER_DEPTH := 0x7fff_ffff

  const WHOLE := Rect(Vec(0, 0), Vec(-1, -1))

  lemma {:induction false} DepthOnce(stack: seq<LayerID>, id: LayerID)
    requires Distinct(stack)
    ensures DepthOf(stack, id) < 0 ==> id !in stack
    ensures DepthOf(stack, id) >= 0 ==> forall i :: 0 <= i < |stack| ==> (stack[i] == id <==> i == DepthOf(stack, id))
  {
  }

  lemma StackWithout(stack: seq<LayerID>, k: int, id: LayerID, ids: set<LayerID>, mouse: LayerID)
    requires Stacked(stack, ids) && id != mouse && k == DepthOf(stack, id)
    ensures Stacked(if k < 0 then stack else RemoveAt(stack, k), ids - {id})
    ensures mouse != 0 && stack != [] && stack[|stack| - 1] == mouse ==>
      var after := if k < 0 then stack else RemoveAt(stack, k); after != [] && after[|after| - 1] == mouse
  {
    DepthOnce(stack, id);
    if k >= 0 { RemoveStacked(stack, ids, k); }
  }

  /** The layer that has the focus, and the mouse pointer's layer. */
  class ActiveLayer {
    const manager: LayerManager
    var active_layer: LayerID
    var mouse_layer: LayerID

    ghost predicate Valid()
      reads this, manager
    {
      && manager.Valid() && manager.Tidy(mouse_layer) && |manager.layer_stack| < TOP_LAYER_DEPTH
      && (active_layer != 0 ==> active_layer in manager.layers && active_layer != mouse_layer)
    }

    constructor (manager: LayerManager)
      requires manager.Valid() && manager.Tidy(0) && |manager.layer_stack| < TOP_LAYER_DEPTH
      ensures Valid() && this.manager == manager && active_layer == 0 && mouse_layer == 0
    {
      this.manager, active_layer, mouse_layer := manager, 0, 0;
    }

    /** The window that loses the focus draws its other look. */
    method Dim(off: Vec -> Color)
      requires Valid() && manager.Synced()
      modifies manager.back_buffer.data, manager.screen.data, manager.Cells()
      ensures Valid() && manager.Synced()
    {
      hide LayerManager.WindowsFit, Stacked, LayerManager.Tidy, LayerManager.Synced;
      if active_layer > 0 {
        manager.CellsOf(active_layer);
        manager.ShowLook(active_layer, off, mouse_layer);
      }
    }

    /** ActiveLayer::Activate; `off` and `on` are the looks that the two windows draw. */
    method Activate(id: LayerID, off: Vec -> Color, on: Vec -> Color)
      requires Valid() && manager.Synced() && (id != 0 ==> id in manager.layers && id != mouse_layer)
      requires |manager.layer_stack| + 1 < TOP_LAYER_DEPTH
      modifies this`active_layer, manager`layer_stack, manager.back_buffer.data, manager.screen.data, manager.Cells()
      ensures Valid() && manager.Synced() && active_layer == id
      ensures if id == 0 || id == old(active_layer) then manager.layer_stack == old(manager.layer_stack)
              else manager.AtTop(old(manager.layer_stack), id, mouse_layer)
    {
      hide LayerManager.WindowsFit, Stacked, LayerManager.Tidy, LayerManager.Synced, LayerManager.AtTop, DepthOf, RemoveAt;
      if active_layer == id {
        return;
      }
      Dim(off);
      active_layer := id;
      if active_layer > 0 {
        manager.CellsOf(active_layer);
        manager.Raise(active_layer, on, mouse_layer);
      }
    }

    /** CloseLayer: false when there is no such layer. */
    method CloseLayer(id: LayerID, off: Vec -> Color) returns (ok: bool)
      requires Valid() && manager.Synced() && id != mouse_layer && |manager.layer_stack| + 1 < TOP_LAYER_DEPTH
      modifies this`active_layer, manager`layer_stack, manager`layers, manager.back_buffer.data, manager.screen.data, manager.Cells()
      ensures Valid() && manager.Synced() && ok == (id in old(manager.layers))
      ensures ok ==> manager.layers == old(manager.layers) - {id} && active_layer == 0
      ensures var i := DepthOf(old(manager.layer_stack), id);
        manager.layer_stack == if ok && i >= 0 then RemoveAt(old(manager.layer_stack), i) else old(manager.layer_stack)
    {
      hide LayerManager.WindowsFit, Stacked, LayerManager.Tidy, LayerManager.Synced, DepthOf, RemoveAt;
      if id !in manager.layers {
        return false;
      }
      Activate(0, off, off);
      manager.RemoveAndRedraw(id, mouse_layer);
      ok := true;
    }
  }
}
