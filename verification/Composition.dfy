/** What the screen should show: rectangles (Kernel/graphics.hpp) and stacks of windows, pixel by pixel. */
module Composition {
  import opened Bounds
  import opened Options

  datatype Color = Color(r: nat, g: nat, b: nat)

  const BLACK := Color(0, 0, 0)

  datatype Vector = Vector(x: int, y: int) {
    function Plus(v: Vector): Vector {
      Vector(x + v.x, y + v.y)
    }

    function Minus(v: Vector): Vector {
      Vector(x - v.x, y - v.y)
    }
  }

  datatype Rect = Rect(pos: Vector, size: Vector)

  predicate In(r: Rect, x: int, y: int) {
    r.pos.x <= x < r.pos.x + r.size.x && r.pos.y <= y < r.pos.y + r.size.y
  }

  /** Rectangle operator&. */
  function Intersect(a: Rect, b: Rect): Rect {
    var aEnd, bEnd := a.pos.Plus(a.size), b.pos.Plus(b.size);
    if aEnd.x < b.pos.x || aEnd.y < b.pos.y || bEnd.x < a.pos.x || bEnd.y < a.pos.y then
      Rect(Vector(0, 0), Vector(0, 0))
    else
      var pos := Vector(Max(a.pos.x, b.pos.x), Max(a.pos.y, b.pos.y));
      Rect(pos, Vector(Min(aEnd.x, bEnd.x), Min(aEnd.y, bEnd.y)).Minus(pos))
  }

  predicate Sized(r: Rect) {
    r.size.x >= 0 && r.size.y >= 0
  }

  /** The intersection contains exactly the common points, even of rectangles with negative sizes. */
  lemma IntersectPoints(a: Rect, b: Rect, x: int, y: int)
    ensures In(Intersect(a, b), x, y) <==> In(a, x, y) && In(b, x, y)
    ensures Sized(a) && Sized(b) ==> Sized(Intersect(a, b))
  {
  }

  // ---- Layers ---------------------------------------------------------------------

  /** A window at its place: its pixels, and the colour that shows what is below, if it has one. */
  datatype Layer = Layer(pos: Vector, width: nat, height: nat, pixels: seq<seq<Color>>, transparent: Option<Color>)

  function Area(l: Layer): Rect {
    Rect(l.pos, Vector(l.width, l.height))
  }

  ghost predicate Dims(pixels: seq<seq<Color>>, width: nat, height: nat) {
    |pixels| == height && forall y | 0 <= y < height :: |pixels[y]| == width
  }

  function PutPixel(pixels: seq<seq<Color>>, pos: Vector, c: Color): seq<seq<Color>> {
    if 0 <= pos.y < |pixels| && 0 <= pos.x < |pixels[pos.y]| then pixels[pos.y := pixels[pos.y][pos.x := c]] else pixels
  }

  function At(pixels: seq<seq<Color>>, x: int, y: int): Color {
    if 0 <= y < |pixels| && 0 <= x < |pixels[y]| then pixels[y][x] else BLACK
  }

  /** The colour a layer shows at a point of the screen, if any. */
  function ColorAt(l: Layer, x: int, y: int): Option<Color> {
    if !In(Area(l), x, y) then None
    else
      var c := At(l.pixels, x - l.pos.x, y - l.pos.y);
      if l.transparent == Some(c) then None else Some(c)
  }

  /** The topmost colour; the last layer of the stack is on top. */
  function Top(stack: seq<Layer>, x: int, y: int): Option<Color>
    decreases |stack|
  {
    if stack == [] then None
    else
      var c := ColorAt(stack[|stack| - 1], x, y);
      if c.Some? then c else Top(stack[..|stack| - 1], x, y)
  }

  /** What one sees of a layer at a point of the screen: the pixel of its window there, unless it has the transparent colour. */
  ghost predicate Visible(l: Layer, x: int, y: int, c: Color) {
    && 0 <= x - l.pos.x < l.width && 0 <= y - l.pos.y < l.height
    && y - l.pos.y < |l.pixels| && x - l.pos.x < |l.pixels[y - l.pos.y]|
    && l.pixels[y - l.pos.y][x - l.pos.x] == c && l.transparent != Some(c)
  }

  lemma ColorAtIs(l: Layer, x: int, y: int, c: Color)
    requires Dims(l.pixels, l.width, l.height)
    ensures ColorAt(l, x, y) == Some(c) <==> Visible(l, x, y, c)
  {
  }

  /** The topmost colour is what one sees of a layer above which one sees nothing. */
  lemma {:induction false} TopIs(stack: seq<Layer>, x: int, y: int, k: nat, c: Color)
    requires k < |stack| && forall i | 0 <= i < |stack| :: Dims(stack[i].pixels, stack[i].width, stack[i].height)
    requires Visible(stack[k], x, y, c)
    requires forall j, other | k < j < |stack| :: !Visible(stack[j], x, y, other)
    ensures Top(stack, x, y) == Some(c)
    decreases |stack|
  {
    var last := stack[|stack| - 1];
    if k < |stack| - 1 {
      if ColorAt(last, x, y).Some? {
        ColorAtIs(last, x, y, ColorAt(last, x, y).value);
      }
      TopIs(stack[..|stack| - 1], x, y, k, c);
    } else {
      ColorAtIs(last, x, y, c);
    }
  }

  function Or(c: Option<Color>, base: Color): Color {
    if c.Some? then c.value else base
  }

  /** So a buffer that shows a stack has these colours in its pixels. */
  lemma ShownIs(rows: seq<seq<Color>>, stack: seq<Layer>, width: nat, height: nat, x: int, y: int, k: nat, c: Color)
    requires Dims(rows, width, height) && Shows(rows, stack, width, height)
    requires k < |stack| && forall i | 0 <= i < |stack| :: Dims(stack[i].pixels, stack[i].width, stack[i].height)
    requires 0 <= x < width && 0 <= y < height && Visible(stack[k], x, y, c)
    requires forall j, other | k < j < |stack| :: !Visible(stack[j], x, y, other)
    ensures rows[y][x] == c
  {
    hide Top, Visible;
    TopIs(stack, x, y, k, c);
  }

  // ---- What drawing does -----------------------------------------------------------------

  /** Window::DrawTo at one pixel: opaque windows draw within the area, windows with a transparent colour everywhere. */
  function Paint(base: Color, l: Layer, area: Rect, x: int, y: int): Color {
    if l.transparent.None? && !In(area, x, y) then base else Or(ColorAt(l, x, y), base)
  }

  /** The layers drawn from bottom to top. */
  function PaintAll(base: Color, stack: seq<Layer>, area: Rect, x: int, y: int): Color
    decreases |stack|
  {
    if stack == [] then base
    else Paint(PaintAll(base, stack[..|stack| - 1], area, x, y), stack[|stack| - 1], area, x, y)
  }

  /** The topmost colour of the layers that have a transparent colour. */
  function TopTransparent(stack: seq<Layer>, x: int, y: int): Option<Color>
    decreases |stack|
  {
    if stack == [] then None
    else
      var l := stack[|stack| - 1];
      var c := if l.transparent.Some? then ColorAt(l, x, y) else None;
      if c.Some? then c else TopTransparent(stack[..|stack| - 1], x, y)
  }

  lemma {:induction false} PaintAllIs(base: Color, stack: seq<Layer>, area: Rect, x: int, y: int)
    ensures PaintAll(base, stack, area, x, y) ==
      Or(if In(area, x, y) then Top(stack, x, y) else TopTransparent(stack, x, y), base)
    decreases |stack|
  {
    if stack != [] {
      PaintAllIs(base, stack[..|stack| - 1], area, x, y);
    }
  }

  // ---- Stacks ---------------------------------------------------------------------------

  /** The bottom layer is opaque and fills the screen; layers with a transparent colour are on top of all others. */
  ghost predicate StackOk(stack: seq<Layer>, width: nat, height: nat) {
    && |stack| > 0
    && stack[0].transparent.None?
    && (forall x, y | 0 <= x < width && 0 <= y < height :: In(Area(stack[0]), x, y))
    && TransparentOnTop(stack)
  }

  ghost predicate TransparentOnTop(stack: seq<Layer>) {
    forall i, j | 0 <= i < j < |stack| && stack[i].transparent.Some? :: stack[j].transparent.Some?
  }

  lemma {:induction false} BottomShows(stack: seq<Layer>, x: int, y: int)
    requires |stack| > 0 && stack[0].transparent.None? && In(Area(stack[0]), x, y)
    ensures Top(stack, x, y).Some?
    decreases |stack|
  {
    if |stack| > 1 && ColorAt(stack[|stack| - 1], x, y).None? {
      BottomShows(stack[..|stack| - 1], x, y);
    }
  }

  /** Where a transparent layer shows a colour, it is the topmost one. */
  lemma {:induction false} TransparentWins(stack: seq<Layer>, x: int, y: int)
    requires TransparentOnTop(stack)
    ensures TopTransparent(stack, x, y).Some? ==> TopTransparent(stack, x, y) == Top(stack, x, y)
    decreases |stack|
  {
    if stack != [] {
      var below := stack[..|stack| - 1];
      TransparentWins(below, x, y);
      if stack[|stack| - 1].transparent.None? {
        NoneTransparent(below, x, y);
      }
    }
  }

  lemma {:induction false} NoneTransparent(stack: seq<Layer>, x: int, y: int)
    requires forall i | 0 <= i < |stack| :: stack[i].transparent.None?
    ensures TopTransparent(stack, x, y).None?
    decreases |stack|
  {
    if stack != [] {
      NoneTransparent(stack[..|stack| - 1], x, y);
    }
  }

  /** The upper part of a stack, if it shows anything, hides the rest. */
  lemma {:induction false} UpperPartWins(stack: seq<Layer>, h: nat, x: int, y: int)
    requires h <= |stack|
    ensures Top(stack, x, y) ==
      if Top(stack[h..], x, y).Some? then Top(stack[h..], x, y) else Top(stack[..h], x, y)
    ensures TopTransparent(stack, x, y) ==
      if TopTransparent(stack[h..], x, y).Some? then TopTransparent(stack[h..], x, y) else TopTransparent(stack[..h], x, y)
    decreases |stack|
  {
    if h == |stack| {
      assert stack[h..] == [] && stack[..h] == stack;
    } else {
      var below := stack[..|stack| - 1];
      UpperPartWins(below, h, x, y);
      assert stack[h..][..|stack[h..]| - 1] == below[h..];
      assert below[..h] == stack[..h];
    }
  }

  /** The layers of a stack that show something at a point. */
  ghost function Shown(stack: seq<Layer>, x: int, y: int): seq<(Option<Color>, bool)>
    decreases |stack|
  {
    if stack == [] then []
    else
      var l := stack[|stack| - 1];
      Shown(stack[..|stack| - 1], x, y) +
        (if ColorAt(l, x, y).Some? then [(ColorAt(l, x, y), l.transparent.Some?)] else [])
  }

  lemma {:induction false} TopOfShown(stack: seq<Layer>, x: int, y: int)
    ensures var s := Shown(stack, x, y);
      Top(stack, x, y) == if s == [] then None else s[|s| - 1].0
    decreases |stack|
  {
    if stack != [] {
      TopOfShown(stack[..|stack| - 1], x, y);
    }
  }

  lemma {:induction false} ShownConcat(a: seq<Layer>, b: seq<Layer>, x: int, y: int)
    ensures Shown(a + b, x, y) == Shown(a, x, y) + Shown(b, x, y)
    decreases |b|
  {
    if b == [] {
      assert a + b == a;
    } else {
      ShownConcat(a, b[..|b| - 1], x, y);
      assert (a + b)[..|a + b| - 1] == a + b[..|b| - 1];
    }
  }

  /** A layer that shows nothing at a point can be put anywhere, or taken away, without a change there. */
  lemma HiddenLayer(a: seq<Layer>, l: Layer, b: seq<Layer>, x: int, y: int)
    requires ColorAt(l, x, y).None?
    ensures Top(a + [l] + b, x, y) == Top(a + b, x, y)
  {
    ShownConcat(a + [l], b, x, y);
    ShownConcat(a, [l], x, y);
    ShownConcat(a, b, x, y);
    assert Shown([l], x, y) == [] by {
      assert [l][..0] == [];
    }
    TopOfShown(a + [l] + b, x, y);
    TopOfShown(a + b, x, y);
  }

  lemma {:induction false} UpperShows(stack: seq<Layer>, x: int, y: int)
    requires stack != [] && ColorAt(stack[0], x, y).Some?
    ensures Top(stack, x, y).Some?
    decreases |stack|
  {
    if |stack| > 1 {
      UpperShows(stack[..|stack| - 1], x, y);
    }
  }

  /** A layer that shows the same as another at a point can stand in for it there. */
  lemma {:induction false} StandIn(stack: seq<Layer>, h: nat, l: Layer, x: int, y: int)
    requires h < |stack| && ColorAt(l, x, y) == ColorAt(stack[h], x, y)
    ensures Top(stack[h := l], x, y) == Top(stack, x, y)
    decreases |stack|
  {
    var below := stack[..|stack| - 1];
    if h < |stack| - 1 {
      StandIn(below, h, l, x, y);
      assert stack[h := l][..|stack| - 1] == below[h := l];
    } else {
      assert stack[h := l][..|stack| - 1] == below;
    }
  }

  // ---- Screens -----------------------------------------------------------------------------

  /** Every pixel of a buffer has the colour of the topmost layer that shows one. */
  ghost predicate Shows(rows: seq<seq<Color>>, stack: seq<Layer>, width: nat, height: nat) {
    forall x, y | 0 <= x < width && 0 <= y < height :: Top(stack, x, y) == Some(At(rows, x, y))
  }

  ghost predicate Painted(before: seq<seq<Color>>, after: seq<seq<Color>>, stack: seq<Layer>, area: Rect,
                          width: nat, height: nat) {
    forall x, y | 0 <= x < width && 0 <= y < height :: At(after, x, y) == PaintAll(At(before, x, y), stack, area, x, y)
  }

  ghost predicate Refreshed(before: seq<seq<Color>>, after: seq<seq<Color>>, source: seq<seq<Color>>,
                            area: Rect, width: nat, height: nat) {
    forall x, y | 0 <= x < width && 0 <= y < height ::
      At(after, x, y) == if In(area, x, y) then At(source, x, y) else At(before, x, y)
  }

  /** The layers from h on drawn over a pixel: right where it was right before, and in the area where one of them shows. */
  lemma DrawnOver(stack: seq<Layer>, h: nat, area: Rect, base: Color, x: int, y: int)
    requires h <= |stack| && TransparentOnTop(stack) && Top(stack, x, y).Some?
    ensures var drawn := PaintAll(base, stack[h..], area, x, y);
      && (Some(base) == Top(stack, x, y) ==> Some(drawn) == Top(stack, x, y))
      && (In(area, x, y) && Top(stack[h..], x, y).Some? ==> Some(drawn) == Top(stack, x, y))
  {
    PaintAllIs(base, stack[h..], area, x, y);
    UpperPartWins(stack, h, x, y);
    TransparentWins(stack, x, y);
  }

  /** The pixels of the buffer (b) and of the screen (s) before (0) and after (1) the part of the stack from h on has
      been drawn in an area, and the area shown. */
  datatype Redraw = Redraw(b0: seq<seq<Color>>, s0: seq<seq<Color>>, b1: seq<seq<Color>>, s1: seq<seq<Color>>)

  ghost predicate Redrawn(r: Redraw, stack: seq<Layer>, h: nat, area: Rect, width: nat, height: nat)
    requires h <= |stack|
  {
    && Painted(r.b0, r.b1, stack[h..], area, width, height)
    && Refreshed(r.s0, r.s1, r.b1, area, width, height)
  }

  /** A redraw of an area brings the screen up to date after any change that is confined to the area. */
  lemma RedrawArea(r: Redraw, was: seq<Layer>, stack: seq<Layer>, area: Rect, width: nat, height: nat)
    requires Shows(r.b0, was, width, height) && Shows(r.s0, was, width, height)
    requires StackOk(stack, width, height) && Redrawn(r, stack, 0, area, width, height)
    requires forall x, y | 0 <= x < width && 0 <= y < height && !In(area, x, y) :: Top(was, x, y) == Top(stack, x, y)
    ensures Shows(r.b1, stack, width, height) && Shows(r.s1, stack, width, height)
  {
    forall x, y | 0 <= x < width && 0 <= y < height
      ensures Top(stack, x, y) == Some(At(r.b1, x, y)) == Some(At(r.s1, x, y))
    {
      BottomShows(stack, x, y);
      assert stack[0..] == stack;
      DrawnOver(stack, 0, area, At(r.b0, x, y), x, y);
    }
  }

  /** A redraw of the whole screen shows the stack, whatever was there before. */
  lemma RedrawScreen(r: Redraw, stack: seq<Layer>, area: Rect, width: nat, height: nat)
    requires StackOk(stack, width, height) && Redrawn(r, stack, 0, area, width, height)
    requires forall x, y | 0 <= x < width && 0 <= y < height :: In(area, x, y)
    ensures Shows(r.b1, stack, width, height) && Shows(r.s1, stack, width, height)
  {
    forall x, y | 0 <= x < width && 0 <= y < height
      ensures Top(stack, x, y) == Some(At(r.b1, x, y)) == Some(At(r.s1, x, y))
    {
      BottomShows(stack, x, y);
      assert stack[0..] == stack;
      DrawnOver(stack, 0, area, At(r.b0, x, y), x, y);
    }
  }

  /** A redraw from layer h on, in a part of its window, brings the screen up to date after any change that is confined
      to that part, if the window is opaque. */
  lemma RedrawLayer(r: Redraw, was: seq<Layer>, stack: seq<Layer>, h: nat, area: Rect, width: nat, height: nat)
    requires Shows(r.b0, was, width, height) && Shows(r.s0, was, width, height)
    requires h < |stack| && StackOk(stack, width, height) && Redrawn(r, stack, h, area, width, height)
    requires stack[h].transparent.None?
    requires forall x, y | In(area, x, y) :: In(Area(stack[h]), x, y)
    requires forall x, y | 0 <= x < width && 0 <= y < height && !In(area, x, y) :: Top(was, x, y) == Top(stack, x, y)
    ensures Shows(r.b1, stack, width, height) && Shows(r.s1, stack, width, height)
  {
    forall x, y | 0 <= x < width && 0 <= y < height
      ensures Top(stack, x, y) == Some(At(r.b1, x, y)) == Some(At(r.s1, x, y))
    {
      BottomShows(stack, x, y);
      DrawnOver(stack, h, area, At(r.b0, x, y), x, y);
      if In(area, x, y) {
        UpperShows(stack[h..], x, y);
      }
    }
  }

  /** A moved layer, transparent or not: its old place is redrawn, then the layers from it on in its new place. */
  lemma RedrawMoved(r: Redraw, q: Redraw, was: seq<Layer>, h: nat, moved: Layer, width: nat, height: nat)
    requires h < |was| && Shows(r.b0, was, width, height) && Shows(r.s0, was, width, height)
    requires StackOk(was[h := moved], width, height)
    requires Redrawn(r, was[h := moved], 0, Area(was[h]), width, height)
    requires q.b0 == r.b1 && q.s0 == r.s1 && Redrawn(q, was[h := moved], h, Area(moved), width, height)
    ensures Shows(q.b1, was[h := moved], width, height) && Shows(q.s1, was[h := moved], width, height)
  {
    var stack := was[h := moved];
    forall x, y | 0 <= x < width && 0 <= y < height
      ensures Top(stack, x, y) == Some(At(q.b1, x, y)) == Some(At(q.s1, x, y))
    {
      BottomShows(stack, x, y);
      assert stack[0..] == stack;
      DrawnOver(stack, 0, Area(was[h]), At(r.b0, x, y), x, y);
      DrawnOver(stack, h, Area(moved), At(q.b0, x, y), x, y);
      if !In(Area(was[h]), x, y) {
        if ColorAt(moved, x, y).None? {
          StandIn(was, h, moved, x, y);
        } else {
          UpperShows(stack[h..], x, y);
        }
      }
    }
  }

  /** A pixel that a layer with a transparent colour no longer shows, though its old colour was what one saw. */
  ghost predicate Erased(was: seq<Layer>, h: nat, l: Layer, x: int, y: int)
    requires h < |was|
  {
    && ColorAt(was[h], x, y).Some? && ColorAt(l, x, y).None?
    && Top(was[h + 1..], x, y).None? && Top(was[..h], x, y) != ColorAt(was[h], x, y)
  }

  lemma ReplacedTop(was: seq<Layer>, h: nat, l: Layer, x: int, y: int)
    requires h < |was| && Top(was[h := l][h..], x, y).None?
    ensures ColorAt(l, x, y).None? && Top(was[h + 1..], x, y).None?
    ensures Top(was[h := l], x, y) == Top(was[..h], x, y)
    ensures Top(was, x, y) == if ColorAt(was[h], x, y).Some? then ColorAt(was[h], x, y) else Top(was[..h], x, y)
  {
    var stack := was[h := l];
    if ColorAt(l, x, y).Some? {
      UpperShows(stack[h..], x, y);
    }
    UpperPartWins(stack, h, x, y);
    assert stack[..h] == was[..h];
    UpperPartWins(stack[h..], 1, x, y);
    assert stack[h..][1..] == was[h + 1..];
    UpperPartWins(was, h + 1, x, y);
    assert was[..h + 1][..h] == was[..h];
  }

  /** Changing the contents of a layer with a transparent colour and drawing it is right exactly when no pixel is erased:
      what is below is not drawn again. */
  lemma RedrawTransparent(r: Redraw, was: seq<Layer>, h: nat, l: Layer, width: nat, height: nat)
    requires h < |was| && Shows(r.b0, was, width, height) && Shows(r.s0, was, width, height)
    requires Area(l) == Area(was[h]) && StackOk(was[h := l], width, height)
    requires Redrawn(r, was[h := l], h, Area(l), width, height)
    ensures Shows(r.b1, was[h := l], width, height) && Shows(r.s1, was[h := l], width, height) <==>
      forall x, y | 0 <= x < width && 0 <= y < height :: !Erased(was, h, l, x, y)
  {
    var stack := was[h := l];
    forall x, y | 0 <= x < width && 0 <= y < height
      ensures Top(stack, x, y) == Some(At(r.b1, x, y)) == Some(At(r.s1, x, y)) <==> !Erased(was, h, l, x, y)
    {
      BottomShows(stack, x, y);
      DrawnOver(stack, h, Area(l), At(r.b0, x, y), x, y);
      if !In(Area(l), x, y) {
        StandIn(was, h, l, x, y);
      } else if Top(stack[h..], x, y).None? {
        ReplacedTop(was, h, l, x, y);
        PaintAllIs(At(r.b0, x, y), stack[h..], Area(l), x, y);
      } else {
        ErasedBelow(was, h, l, x, y);
      }
    }
    if forall x, y | 0 <= x < width && 0 <= y < height :: !Erased(was, h, l, x, y) {
      assert Shows(r.b1, stack, width, height) && Shows(r.s1, stack, width, height);
    } else {
      var x, y :| 0 <= x < width && 0 <= y < height && Erased(was, h, l, x, y);
      assert !(Top(stack, x, y) == Some(At(r.b1, x, y)) == Some(At(r.s1, x, y)));
    }
  }

  lemma ErasedBelow(was: seq<Layer>, h: nat, l: Layer, x: int, y: int)
    requires h < |was| && Top(was[h := l][h..], x, y).Some?
    ensures !Erased(was, h, l, x, y)
  {
    var upper := was[h := l][h..];
    UpperPartWins(upper, 1, x, y);
    assert upper[1..] == was[h + 1..];
    assert upper[..1][..0] == [];
  }

  /** One pixel: a red spot over a black desktop turns transparent, and drawing the layer leaves it red. */
  lemma ErasedSpotStays(area: Rect)
    ensures
      var desktop := Layer(Vector(0, 0), 1, 1, [[BLACK]], None);
      var red, white := Color(255, 0, 0), Color(255, 255, 255);
      var spot := Layer(Vector(0, 0), 1, 1, [[red]], Some(white));
      var clear := spot.(pixels := [[white]]);
      && Top([desktop, spot], 0, 0) == Some(red)
      && Top([desktop, clear], 0, 0) == Some(BLACK)
      && PaintAll(red, [clear], area, 0, 0) == red
  {
    var desktop := Layer(Vector(0, 0), 1, 1, [[BLACK]], None);
    var red, white := Color(255, 0, 0), Color(255, 255, 255);
    var spot := Layer(Vector(0, 0), 1, 1, [[red]], Some(white));
    var clear := spot.(pixels := [[white]]);
    assert [clear][..0] == [] && [desktop, clear][..1] == [desktop];
    assert [desktop][..0] == [];
  }
}
