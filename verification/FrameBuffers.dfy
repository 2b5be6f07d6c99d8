/** Pixel buffers (Kernel/frame_buffer.cpp) and the windows drawn into them (Kernel/window.cpp). */
module FrameBuffers {
  import opened Options
  import opened Composition

  datatype PixelFormat = RgbResv8 | BgrResv8

  /** What a block transfer leaves: the pixels of an area come from another place, d away. */
  ghost predicate Transferred(before: seq<seq<Color>>, after: seq<seq<Color>>, source: seq<seq<Color>>,
                              d: Vector, area: Rect) {
    && |after| == |before|
    && forall y | 0 <= y < |after| :: RowTransferred(before[y], after[y], source, d, area, y)
  }

  ghost predicate RowTransferred(before: seq<Color>, after: seq<Color>, source: seq<seq<Color>>, d: Vector,
                                 area: Rect, y: int) {
    && |after| == |before|
    && forall x | 0 <= x < |after| ::
         after[x] == if In(area, x, y) then At(source, x - d.x, y - d.y) else before[x]
  }

  /** One row of memcpy: n pixels of a row, from x on, replaced by those of another row from sx on. */
  function PutRow(row: seq<Color>, x: nat, source: seq<Color>, sx: nat, n: nat): (r: seq<Color>)
    requires x + n <= |row| && sx + n <= |source|
    ensures |r| == |row|
    ensures forall k | 0 <= k < |row| :: r[k] == if x <= k < x + n then source[k - x + sx] else row[k]
  {
    row[..x] + source[sx..sx + n] + row[x + n..]
  }

  function Shifted(pos: Vector, width: int, rows: int): Rect {
    Rect(pos, Vector(width, rows))
  }

  /** The n-th row of a transfer. */
  lemma NextRow(before: seq<seq<Color>>, now: seq<seq<Color>>, source: seq<seq<Color>>, d: Vector, pos: Vector,
                width: nat, n: nat)
    requires Transferred(before, now, source, d, Shifted(pos, width, n))
    requires 0 <= pos.y + n < |now| && 0 <= pos.y + n - d.y < |source|
    requires 0 <= pos.x && pos.x + width <= |now[pos.y + n]|
    requires 0 <= pos.x - d.x && pos.x - d.x + width <= |source[pos.y + n - d.y]|
    ensures
      var row := PutRow(now[pos.y + n], pos.x, source[pos.y + n - d.y], pos.x - d.x, width);
      Transferred(before, now[pos.y + n := row], source, d, Shifted(pos, width, n + 1))
  {
    var row := PutRow(now[pos.y + n], pos.x, source[pos.y + n - d.y], pos.x - d.x, width);
    var next := now[pos.y + n := row];
    forall y | 0 <= y < |next|
      ensures RowTransferred(before[y], next[y], source, d, Shifted(pos, width, n + 1), y)
    {
      assert RowTransferred(before[y], now[y], source, d, Shifted(pos, width, n), y);
    }
  }

  lemma NothingTransferred(rows: seq<seq<Color>>, source: seq<seq<Color>>, d: Vector, pos: Vector, size: Vector)
    ensures Transferred(rows, rows, source, d, Shifted(pos, size.x, 0))
    ensures Transferred(rows, rows, source, d, Lower(pos, size, 0))
  {
    forall y | 0 <= y < |rows|
      ensures RowTransferred(rows[y], rows[y], source, d, Shifted(pos, size.x, 0), y)
      ensures RowTransferred(rows[y], rows[y], source, d, Lower(pos, size, 0), y)
    {
    }
  }

  /** The lowest n rows of an area. */
  function Lower(pos: Vector, size: Vector, n: nat): Rect {
    Rect(Vector(pos.x, pos.y + size.y - n), Vector(size.x, n))
  }

  lemma PreviousRow(before: seq<seq<Color>>, now: seq<seq<Color>>, source: seq<seq<Color>>, d: Vector,
                    pos: Vector, size: Vector, n: nat)
    requires Transferred(before, now, source, d, Lower(pos, size, n)) && size.x >= 0
    requires var to := pos.y + size.y - 1 - n;
      && 0 <= to < |now| && 0 <= to - d.y < |source|
      && 0 <= pos.x && pos.x + size.x <= |now[to]|
      && 0 <= pos.x - d.x && pos.x - d.x + size.x <= |source[to - d.y]|
    ensures
      var to := pos.y + size.y - 1 - n;
      var row := PutRow(now[to], pos.x, source[to - d.y], pos.x - d.x, size.x);
      Transferred(before, now[to := row], source, d, Lower(pos, size, n + 1))
  {
    var to := pos.y + size.y - 1 - n;
    var row := PutRow(now[to], pos.x, source[to - d.y], pos.x - d.x, size.x);
    var next := now[to := row];
    forall y | 0 <= y < |next|
      ensures RowTransferred(before[y], next[y], source, d, Lower(pos, size, n + 1), y)
    {
      assert RowTransferred(before[y], now[y], source, d, Lower(pos, size, n), y);
    }
  }

  lemma TransferredDims(before: seq<seq<Color>>, after: seq<seq<Color>>, source: seq<seq<Color>>, d: Vector,
                        area: Rect, width: nat)
    requires Transferred(before, after, source, d, area) && Dims(before, width, |before|)
    ensures Dims(after, width, |before|)
  {
    forall y | 0 <= y < |after|
      ensures |after[y]| == width
    {
      assert RowTransferred(before[y], after[y], source, d, area, y);
    }
  }

  predicate Inside(r: Rect, outer: Rect) {
    && outer.pos.x <= r.pos.x && r.pos.x + r.size.x <= outer.pos.x + outer.size.x
    && outer.pos.y <= r.pos.y && r.pos.y + r.size.y <= outer.pos.y + outer.size.y
  }

  lemma IntersectInside(a: Rect, b: Rect)
    requires Sized(a) && Sized(b)
    ensures var r := Intersect(a, b);
      Sized(r) && (r.size.y > 0 ==> Inside(r, a) && Inside(r, b))
  {
  }

  /** The area that is left after cutting lies inside both buffers. */
  lemma CutInside(outline: Rect, source: Rect, shifted: Rect)
    requires Sized(outline) && Sized(source) && Sized(shifted)
    ensures var area := Intersect(Intersect(outline, source), shifted);
      Sized(area) && (area.size.y > 0 ==> Inside(area, outline) && Inside(area, source))
  {
    hide Intersect;
    IntersectInside(outline, source);
    IntersectInside(Intersect(outline, source), shifted);
  }

  /** Inside a buffer, cutting off what lies outside of it changes nothing. */
  lemma CutTransferred(before: seq<seq<Color>>, after: seq<seq<Color>>, source: seq<seq<Color>>, d: Vector,
                       width: nat, other: Rect, shifted: Rect)
    requires Dims(before, width, |before|)
    requires Transferred(before, after, source, d, Intersect(Intersect(Rect(Vector(0, 0), Vector(width, |before|)), other), shifted))
    ensures Transferred(before, after, source, d, Intersect(shifted, other))
  {
    hide Intersect;
    var outline := Rect(Vector(0, 0), Vector(width, |before|));
    var cut := Intersect(Intersect(outline, other), shifted);
    forall y | 0 <= y < |after|
      ensures RowTransferred(before[y], after[y], source, d, Intersect(shifted, other), y)
    {
      assert RowTransferred(before[y], after[y], source, d, cut, y);
      forall x | 0 <= x < |after[y]|
        ensures In(cut, x, y) <==> In(Intersect(shifted, other), x, y)
      {
        IntersectPoints(Intersect(outline, other), shifted, x, y);
        IntersectPoints(outline, other, x, y);
        IntersectPoints(shifted, other, x, y);
      }
    }
  }

  /** A frame buffer: one sequence of pixels for each scan line. */
  class FrameBuffer {
    const width: nat
    const height: nat
    const format: PixelFormat
    const rows: array<seq<Color>>

    constructor (width: nat, height: nat, format: PixelFormat)
      ensures this.width == width && this.height == height && this.format == format
      ensures Valid() && fresh(rows)
    {
      this.width := width;
      this.height := height;
      this.format := format;
      rows := new seq<Color>[height](_ => seq(width, _ => BLACK));
    }

    ghost predicate Valid()
      reads rows
    {
      Dims(rows[..], width, height)
    }

    function Outline(): Rect {
      Rect(Vector(0, 0), Vector(width, height))
    }

    method Write(pos: Vector, c: Color)
      requires Valid() && 0 <= pos.x < width && 0 <= pos.y < height
      modifies rows
      ensures Valid()
      ensures rows[..] == PutPixel(old(rows[..]), pos, c)
    {
      rows[pos.y] := rows[pos.y][pos.x := c];
    }

    /** Copies an area of another buffer; what lies outside either buffer is cut off. */
    method Copy(dstPos: Vector, src: FrameBuffer, srcArea: Rect) returns (ok: bool)
      requires Valid() && src.Valid() && src.rows != rows && Sized(srcArea)
      modifies rows
      ensures ok <==> format == src.format
      ensures !ok ==> rows[..] == old(rows[..])
      ensures Valid()
      ensures ok ==>
        var d := dstPos.Minus(srcArea.pos);
        Transferred(old(rows[..]), rows[..], src.rows[..], d,
          Intersect(Rect(dstPos, srcArea.size), Rect(d, Vector(src.width, src.height))))
    {
      if format != src.format {
        return false;
      }
      var shifted := Rect(dstPos, srcArea.size);
      var d := dstPos.Minus(srcArea.pos);
      var srcOutline := Rect(d, Vector(src.width, src.height));
      var copyArea := Intersect(Intersect(Outline(), srcOutline), shifted);
      var srcStart := copyArea.pos.Minus(d);
      CutInside(Outline(), srcOutline, shifted);
      hide Intersect;
      ghost var before := rows[..];
      ghost var source := src.rows[..];
      var y := 0;
      while y < copyArea.size.y
        invariant 0 <= y <= copyArea.size.y
        invariant src.rows[..] == source
        invariant Transferred(before, rows[..], source, d, Shifted(copyArea.pos, copyArea.size.x, y))
      {
        var to, from := copyArea.pos.y + y, srcStart.y + y;
        assert RowTransferred(before[to], rows[..][to], source, d, Shifted(copyArea.pos, copyArea.size.x, y), to);
        NextRow(before, rows[..], source, d, copyArea.pos, copyArea.size.x, y);
        ghost var now := rows[..];
        rows[to] := PutRow(rows[to], copyArea.pos.x, src.rows[from], srcStart.x, copyArea.size.x);
        assert rows[..] == now[to := rows[to]];
        y := y + 1;
      }
      assert Shifted(copyArea.pos, copyArea.size.x, y) == copyArea;
      CutTransferred(before, rows[..], source, d, width, srcOutline, shifted);
      TransferredDims(before, rows[..], source, d, Intersect(shifted, srcOutline), width);
      ok := true;
    }

    /** Moves an area within the buffer, row by row in the order that keeps overlapping rows intact. */
    method Move(dstPos: Vector, src: Rect)
      requires Valid() && Sized(src) && Inside(src, Outline()) && Inside(Rect(dstPos, src.size), Outline())
      requires dstPos.y != src.pos.y || dstPos.x + src.size.x <= src.pos.x || src.pos.x + src.size.x <= dstPos.x
      modifies rows
      ensures Valid()
      ensures Transferred(old(rows[..]), rows[..], old(rows[..]), dstPos.Minus(src.pos), Rect(dstPos, src.size))
    {
      hide Intersect, Transferred;
      var d := dstPos.Minus(src.pos);
      ghost var before := rows[..];
      NothingTransferred(before, before, d, dstPos, src.size);
      var y := 0;
      if dstPos.y < src.pos.y {
        while y < src.size.y
          invariant 0 <= y <= src.size.y
          invariant Transferred(before, rows[..], before, d, Shifted(dstPos, src.size.x, y))
          invariant forall k | dstPos.y + y <= k < height :: rows[k] == before[k]
        {
          var to, from := dstPos.y + y, src.pos.y + y;
          NextRow(before, rows[..], before, d, dstPos, src.size.x, y);
          ghost var now := rows[..];
          rows[to] := PutRow(rows[to], dstPos.x, rows[from], src.pos.x, src.size.x);
          assert rows[..] == now[to := rows[to]];
          y := y + 1;
        }
        assert Shifted(dstPos, src.size.x, y) == Rect(dstPos, src.size);
      } else {
        while y < src.size.y
          invariant 0 <= y <= src.size.y
          invariant Transferred(before, rows[..], before, d, Lower(dstPos, src.size, y))
          invariant forall k | 0 <= k < dstPos.y + src.size.y - y :: rows[k] == before[k]
        {
          var to, from := dstPos.y + src.size.y - 1 - y, src.pos.y + src.size.y - 1 - y;
          PreviousRow(before, rows[..], before, d, dstPos, src.size, y);
          ghost var now := rows[..];
          rows[to] := PutRow(rows[to], dstPos.x, rows[from], src.pos.x, src.size.x);
          assert rows[..] == now[to := rows[to]];
          y := y + 1;
        }
        assert Lower(dstPos, src.size, y) == Rect(dstPos, src.size);
      }
      TransferredDims(before, rows[..], before, d, Rect(dstPos, src.size), width);
    }
  }
}

/** Windows (Kernel/window.cpp): a grid of pixels with a copy in the format of the screen. */
module Windows {
  import opened Bounds
  import opened Options
  import opened Composition
  import opened FrameBuffers

  /** A row in which the pixels left of column n have been painted with a layer. */
  ghost predicate RowPaintedBy(before: seq<Color>, after: seq<Color>, l: Layer, area: Rect, y: int, n: int) {
    && |after| == |before|
    && forall x | 0 <= x < |after| ::
         after[x] == if x < n then Paint(before[x], l, area, x, y) else before[x]
  }

  ghost predicate PaintedBy(before: seq<seq<Color>>, after: seq<seq<Color>>, l: Layer, area: Rect) {
    && |after| == |before|
    && forall y | 0 <= y < |after| :: RowPaintedBy(before[y], after[y], l, area, y, |after[y]|)
  }

  predicate WritesInside(writes: seq<(Vector, Color)>, area: Rect) {
    forall i | 0 <= i < |writes| :: In(area, writes[i].0.x, writes[i].0.y)
  }

  function PutAll(pixels: seq<seq<Color>>, writes: seq<(Vector, Color)>): seq<seq<Color>>
    decreases |writes|
  {
    if writes == [] then pixels
    else
      var last := writes[|writes| - 1];
      PutPixel(PutAll(pixels, writes[..|writes| - 1]), last.0, last.1)
  }

  /** No later write goes to the same place. */
  ghost predicate LastWrite(writes: seq<(Vector, Color)>, i: nat) {
    i < |writes| && forall j | i < j < |writes| :: writes[j].0 != writes[i].0
  }

  ghost predicate NoWrite(writes: seq<(Vector, Color)>, x: int, y: int) {
    forall j | 0 <= j < |writes| :: writes[j].0 != Vector(x, y)
  }

  /** What writes have made of the pixels of a window: where there were some, the colour of the last one; elsewhere the
      pixels are as they were. */
  ghost predicate Drawn(before: seq<seq<Color>>, after: seq<seq<Color>>, writes: seq<(Vector, Color)>, width: nat, height: nat) {
    && Dims(before, width, height) && Dims(after, width, height)
    && (forall i {:trigger writes[i]} | 0 <= i < |writes| && LastWrite(writes, i) ::
          && 0 <= writes[i].0.x < width && 0 <= writes[i].0.y < height
          && after[writes[i].0.y][writes[i].0.x] == writes[i].1)
    && (forall x, y | 0 <= x < width && 0 <= y < height && NoWrite(writes, x, y) :: after[y][x] == before[y][x])
  }

  lemma {:induction false} PutAllDraws(pixels: seq<seq<Color>>, writes: seq<(Vector, Color)>, width: nat, height: nat)
    requires Dims(pixels, width, height) && WritesInside(writes, Rect(Vector(0, 0), Vector(width, height)))
    ensures Drawn(pixels, PutAll(pixels, writes), writes, width, height)
    decreases |writes|
  {
    if writes != [] {
      var n := |writes| - 1;
      var last := writes[n];
      PutAllDraws(pixels, writes[..n], width, height);
      var before, after := PutAll(pixels, writes[..n]), PutAll(pixels, writes);
      hide PutAll;
      assert after == before[last.0.y := before[last.0.y][last.0.x := last.1]];
      forall i | 0 <= i < |writes| && LastWrite(writes, i)
        ensures 0 <= writes[i].0.x < width && 0 <= writes[i].0.y < height
        ensures after[writes[i].0.y][writes[i].0.x] == writes[i].1
      {
        if i < n {
          assert writes[..n][i] == writes[i] && writes[i].0 != last.0;
          assert LastWrite(writes[..n], i);
        }
      }
      forall x, y | 0 <= x < width && 0 <= y < height && NoWrite(writes, x, y)
        ensures after[y][x] == pixels[y][x]
      {
        assert NoWrite(writes[..n], x, y) && writes[n].0 != Vector(x, y);
      }
    }
  }

  /** Pixels outside the area that is written keep their colours. */
  lemma {:induction false} PutOutside(pixels: seq<seq<Color>>, writes: seq<(Vector, Color)>, area: Rect, x: int, y: int)
    requires WritesInside(writes, area) && !In(area, x, y)
    ensures At(PutAll(pixels, writes), x, y) == At(pixels, x, y)
    decreases |writes|
  {
    if writes != [] {
      PutOutside(pixels, writes[..|writes| - 1], area, x, y);
    }
  }

  /** Where a layer shows nothing, painting it changes nothing. */
  lemma PaintNothing(row: seq<Color>, after: seq<Color>, l: Layer, area: Rect, y: int, from: int, to: int)
    requires from <= to
    requires RowPaintedBy(row, after, l, area, y, from)
    requires forall x | from <= x < to :: 0 <= x < |row| ==> ColorAt(l, x, y).None?
    ensures RowPaintedBy(row, after, l, area, y, to)
  {
    forall x | 0 <= x < |after|
      ensures after[x] == if x < to then Paint(row[x], l, area, x, y) else row[x]
    {
      if from <= x < to {
        assert ColorAt(l, x, y).None?;
      }
    }
  }

  /** An opaque window is drawn by copying its pixels. */
  lemma CopyPaints(before: seq<seq<Color>>, after: seq<seq<Color>>, l: Layer, area: Rect)
    requires l.transparent.None?
    requires Transferred(before, after, l.pixels, l.pos, Intersect(Intersect(area, Area(l)), Area(l)))
    ensures PaintedBy(before, after, l, area)
  {
    var r := Intersect(Intersect(area, Area(l)), Area(l));
    hide Intersect;
    forall y | 0 <= y < |after|
      ensures RowPaintedBy(before[y], after[y], l, area, y, |after[y]|)
    {
      assert RowTransferred(before[y], after[y], l.pixels, l.pos, r, y);
      forall x | 0 <= x < |after[y]|
        ensures In(r, x, y) <==> In(area, x, y) && In(Area(l), x, y)
      {
        IntersectPoints(Intersect(area, Area(l)), Area(l), x, y);
        IntersectPoints(area, Area(l), x, y);
      }
    }
  }

  class Window {
    const width: nat
    const height: nat
    const shadow: FrameBuffer
    var data: seq<seq<Color>>
    var transparent: Option<Color>

    constructor (width: nat, height: nat, format: PixelFormat)
      ensures Valid() && fresh(shadow) && fresh(shadow.rows)
      ensures this.width == width && this.height == height && shadow.format == format && transparent == None
    {
      this.width := width;
      this.height := height;
      data := seq(height, _ => seq(width, _ => BLACK));
      transparent := None;
      shadow := new FrameBuffer(width, height, format);
    }

    ghost predicate Valid()
      reads this, shadow.rows
    {
      && Dims(data, width, height)
      && shadow.width == width && shadow.height == height && shadow.Valid()
    }

    /** The pixels that are drawn: the shadow buffer's, or the grid's when there is a transparent colour. */
    ghost function Content(): seq<seq<Color>>
      reads this, shadow.rows
    {
      if transparent.None? then shadow.rows[..] else data
    }

    ghost function LayerAt(pos: Vector): Layer
      reads this, shadow.rows
    {
      Layer(pos, width, height, Content(), transparent)
    }

    method Write(pos: Vector, c: Color)
      requires Valid() && 0 <= pos.x < width && 0 <= pos.y < height
      modifies this`data, shadow.rows
      ensures Valid()
      ensures Content() == PutPixel(old(Content()), pos, c)
      ensures Dims(Content(), width, height) && Dims(old(Content()), width, height)
      ensures Content()[pos.y][pos.x] == c
      ensures forall x, y | 0 <= x < width && 0 <= y < height && Vector(x, y) != pos :: Content()[y][x] == old(Content())[y][x]
    {
      data := data[pos.y := data[pos.y][pos.x := c]];
      shadow.Write(pos, c);
    }

    /** Any drawing through the window's writer is a sequence of pixels written. */
    method WriteAll(writes: seq<(Vector, Color)>)
      requires Valid() && WritesInside(writes, Rect(Vector(0, 0), Vector(width, height)))
      modifies this`data, shadow.rows
      ensures Valid()
      ensures Content() == PutAll(old(Content()), writes)
      ensures Drawn(old(Content()), Content(), writes, width, height)
    {
      PutAllDraws(Content(), writes, width, height);
      hide Drawn;
      var i := 0;
      while i < |writes|
        invariant 0 <= i <= |writes| && Valid()
        invariant Content() == PutAll(old(Content()), writes[..i])
      {
        Write(writes[i].0, writes[i].1);
        assert writes[..i + 1][..i] == writes[..i];
        i := i + 1;
      }
      assert writes[..i] == writes;
    }

    /** Scrolling moves pixels of the shadow buffer only. */
    method Move(dstPos: Vector, src: Rect)
      requires Valid() && Sized(src)
      requires Inside(src, Rect(Vector(0, 0), Vector(width, height)))
      requires Inside(Rect(dstPos, src.size), Rect(Vector(0, 0), Vector(width, height)))
      requires dstPos.y != src.pos.y || dstPos.x + src.size.x <= src.pos.x || src.pos.x + src.size.x <= dstPos.x
      modifies shadow.rows
      ensures Valid()
      ensures transparent.None? ==>
        Transferred(old(Content()), Content(), old(Content()), dstPos.Minus(src.pos), Rect(dstPos, src.size))
      ensures transparent.Some? ==> Content() == old(Content())
    {
      shadow.Move(dstPos, src);
    }

    method DrawTo(dst: FrameBuffer, pos: Vector, area: Rect)
      requires Valid() && dst.Valid() && dst.rows != shadow.rows && dst.format == shadow.format
      requires transparent.None? ==> Sized(area)
      modifies dst.rows
      ensures dst.Valid()
      ensures PaintedBy(old(dst.rows[..]), dst.rows[..], LayerAt(pos), area)
    {
      hide Intersect, Transferred, PaintedBy, Dims;
      ghost var l := LayerAt(pos);
      ghost var before := dst.rows[..];
      if transparent.None? {
        var windowArea := Rect(pos, Vector(width, height));
        var intersection := Intersect(area, windowArea);
        IntersectPoints(area, windowArea, 0, 0);
        assert intersection.pos.Minus(intersection.pos.Minus(pos)) == pos;
        var _ := dst.Copy(intersection.pos, shadow, Rect(intersection.pos.Minus(pos), intersection.size));
        assert Rect(intersection.pos, intersection.size) == intersection;
        CopyPaints(before, dst.rows[..], l, area);
        return;
      }
      DrawVisible(dst, pos, area);
    }

    /** Every pixel of another colour than the transparent one; the area plays no part. */
    method DrawVisible(dst: FrameBuffer, pos: Vector, ghost area: Rect)
      requires Valid() && dst.Valid() && dst.rows != shadow.rows && transparent.Some?
      modifies dst.rows
      ensures dst.Valid()
      ensures PaintedBy(old(dst.rows[..]), dst.rows[..], LayerAt(pos), area)
    {
      hide Intersect;
      ghost var l := LayerAt(pos);
      ghost var before := dst.rows[..];
      var y := Max(0, 0 - pos.y);
      while y < Min(height, dst.height - pos.y)
        invariant Max(0, 0 - pos.y) <= y
        invariant Valid() && dst.Valid() && LayerAt(pos) == l
        invariant forall k | 0 <= k < pos.y + y && k < dst.height :: RowPaintedBy(before[k], dst.rows[k], l, area, k, dst.width)
        invariant forall k | pos.y + y <= k < dst.height :: dst.rows[k] == before[k]
      {
        DrawRow(dst, pos, y, area);
        y := y + 1;
      }
      forall k | 0 <= k < dst.height
        ensures RowPaintedBy(before[k], dst.rows[k], l, area, k, dst.width)
      {
        if pos.y + y <= k {
          PaintNothing(before[k], dst.rows[k], l, area, k, 0, dst.width);
        }
      }
    }

    method DrawRow(dst: FrameBuffer, pos: Vector, y: nat, ghost area: Rect)
      requires Valid() && dst.Valid() && dst.rows != shadow.rows && transparent.Some?
      requires y < height && 0 <= pos.y + y < dst.height
      modifies dst.rows
      ensures dst.Valid()
      ensures RowPaintedBy(old(dst.rows[pos.y + y]), dst.rows[pos.y + y], LayerAt(pos), area, pos.y + y, dst.width)
      ensures forall k | 0 <= k < dst.height && k != pos.y + y :: dst.rows[k] == old(dst.rows[k])
    {
      hide Intersect;
      ghost var l := LayerAt(pos);
      ghost var before := dst.rows[pos.y + y];
      var x := Max(0, 0 - pos.x);
      while x < Min(width, dst.width - pos.x)
        invariant Max(0, 0 - pos.x) <= x
        invariant Valid() && dst.Valid() && LayerAt(pos) == l
        invariant RowPaintedBy(before, dst.rows[pos.y + y], l, area, pos.y + y, pos.x + x)
        invariant forall k | 0 <= k < dst.height && k != pos.y + y :: dst.rows[k] == old(dst.rows[k])
      {
        var c := data[y][x];
        if c != transparent.value {
          dst.Write(pos.Plus(Vector(x, y)), c);
        }
        x := x + 1;
      }
      if pos.x + x < dst.width {
        PaintNothing(before, dst.rows[pos.y + y], l, area, pos.y + y, pos.x + x, dst.width);
      }
    }
  }
}
