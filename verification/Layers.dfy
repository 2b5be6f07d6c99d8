/** The layer manager and the active window (Kernel/layer.cpp). */
module Layers {
  import opened Bounds
  import opened Options
  import opened Composition
  import opened FrameBuffers
  import opened Windows

  // ---- The order of layers ------------------------------------------------------------

  ghost predicate NoDuplicates(ids: seq<nat>) {
    forall i, j | 0 <= i < j < |ids| :: ids[i] != ids[j]
  }

  function IndexOf(ids: seq<nat>, id: nat): (i: nat)
    ensures i <= |ids|
    ensures forall k | 0 <= k < i :: ids[k] != id
    ensures i < |ids| ==> ids[i] == id
    decreases |ids|
  {
    if ids == [] || ids[0] == id then 0 else 1 + IndexOf(ids[1..], id)
  }

  function TakenOut(ids: seq<nat>, id: nat): seq<nat> {
    var i := IndexOf(ids, id);
    if i < |ids| then ids[..i] + ids[i + 1..] else ids
  }

  function Insert(ids: seq<nat>, at: nat, id: nat): seq<nat>
    requires at <= |ids|
  {
    ids[..at] + [id] + ids[at..]
  }

  /** All other layers keep their order, and the raised one is right below the given one. */
  function RaisedBelow(ids: seq<nat>, id: nat, mouse: nat): seq<nat> {
    var others := TakenOut(ids, id);
    Insert(others, IndexOf(others, mouse), id)
  }

  lemma RemoveIndex(ids: seq<nat>, id: nat)
    ensures id in ids <==> IndexOf(ids, id) < |ids|
    ensures |TakenOut(ids, id)| == if id in ids then |ids| - 1 else |ids|
    ensures forall j {:trigger TakenOut(ids, id)[j]} | 0 <= j < |TakenOut(ids, id)| ::
      TakenOut(ids, id)[j] == if j < IndexOf(ids, id) then ids[j] else ids[j + 1]
  {
    IndexIn(ids, id);
  }

  lemma RemoveKeeps(ids: seq<nat>, id: nat)
    requires NoDuplicates(ids)
    ensures NoDuplicates(TakenOut(ids, id)) && id !in TakenOut(ids, id)
  {
    RemoveIndex(ids, id);
    hide TakenOut;
    var i, rest := IndexOf(ids, id), TakenOut(ids, id);
    forall j, k | 0 <= j < k < |rest|
      ensures rest[j] != rest[k]
    {
      assert ids[if j < i then j else j + 1] != ids[if k < i then k else k + 1];
    }
  }

  lemma RemoveOthers(ids: seq<nat>, id: nat)
    ensures forall k | k != id :: k in TakenOut(ids, id) <==> k in ids
  {
    var i := IndexOf(ids, id);
    if i < |ids| {
      assert ids == ids[..i] + [id] + ids[i + 1..];
    }
  }

  lemma InsertIndex(ids: seq<nat>, at: nat, id: nat)
    requires at <= |ids|
    ensures |Insert(ids, at, id)| == |ids| + 1 && Insert(ids, at, id)[at] == id
    ensures forall j {:trigger Insert(ids, at, id)[j]} | 0 <= j <= |ids| && j != at ::
      Insert(ids, at, id)[j] == ids[if j < at then j else j - 1]
  {
  }

  lemma InsertKeeps(ids: seq<nat>, at: nat, id: nat)
    requires NoDuplicates(ids) && at <= |ids| && id !in ids
    ensures NoDuplicates(Insert(ids, at, id))
    ensures forall k :: k in Insert(ids, at, id) <==> k == id || k in ids
  {
    assert ids == ids[..at] + ids[at..];
    InsertIndex(ids, at, id);
    var with := Insert(ids, at, id);
    forall i, j | 0 <= i < j < |with|
      ensures with[i] != with[j]
    {
    }
  }

  lemma InsertRemove(ids: seq<nat>, at: nat, id: nat)
    requires at <= |ids| && id !in ids
    ensures TakenOut(Insert(ids, at, id), id) == ids
  {
    var with := Insert(ids, at, id);
    assert with[at] == id && ids == ids[..at] + ids[at..];
    assert with[..at] == ids[..at] && with[at + 1..] == ids[at..];
    assert IndexOf(with, id) == at;
  }

  /** A layer put at the bottom lifts all others by one; taken out again, it leaves them as they were. */
  lemma SunkToBottom(others: seq<nat>, id: nat, mouse: nat)
    requires id !in others && id != mouse && mouse in others
    ensures
      var sunk := Insert(others, 0, id);
      id in sunk && TakenOut(sunk, id) == others && IndexOf(sunk, mouse) == IndexOf(others, mouse) + 1 < |sunk|
  {
    InsertRemove(others, 0, id);
    IndexIn(others, mouse);
    hide TakenOut;
    var sunk := Insert(others, 0, id);
    assert sunk[1..] == others && sunk[0] == id;
  }

  lemma IndexIn(ids: seq<nat>, id: nat)
    ensures id in ids <==> IndexOf(ids, id) < |ids|
  {
  }

  // ---- Stacks of layers by their numbers --------------------------------------------------

  ghost predicate Known(ids: seq<nat>, m: map<nat, Layer>) {
    forall id | id in ids :: id in m
  }

  ghost function Values(ids: seq<nat>, m: map<nat, Layer>): (s: seq<Layer>)
    ensures |s| == |ids|
    ensures forall i | 0 <= i < |ids| && ids[i] in m :: s[i] == m[ids[i]]
  {
    seq(|ids|, i requires 0 <= i < |ids| => if ids[i] in m then m[ids[i]] else Layer(Vector(0, 0), 0, 0, [], None))
  }

  lemma WithoutOne(s: seq<Layer>, t: seq<Layer>, i: nat)
    requires i < |s| && |t| == |s| - 1
    requires forall j {:trigger t[j]} | 0 <= j < |t| :: t[j] == s[if j < i then j else j + 1]
    ensures s == s[..i] + [s[i]] + s[i + 1..] && t == s[..i] + s[i + 1..]
  {
  }

  /** Taking away a layer that shows nothing at a point changes nothing there. */
  lemma RemovedTop(ids: seq<nat>, m: map<nat, Layer>, id: nat, x: int, y: int)
    requires Known(ids, m) && id in m && ColorAt(m[id], x, y).None?
    ensures Known(TakenOut(ids, id), m)
    ensures Top(Values(TakenOut(ids, id), m), x, y) == Top(Values(ids, m), x, y)
  {
    RemoveOthers(ids, id);
    RemoveIndex(ids, id);
    var i := IndexOf(ids, id);
    if i < |ids| {
      var others := TakenOut(ids, id);
      hide TakenOut, Top, ColorAt, IndexOf;
      var s, t := Values(ids, m), Values(others, m);
      WithoutOne(s, t, i);
      HiddenLayer(s[..i], s[i], s[i + 1..], x, y);
    }
  }

  /** The colours other layers show do not depend on the layer that was taken away. */
  lemma OthersOnly(ids: seq<nat>, m: map<nat, Layer>, id: nat, l: Layer)
    requires NoDuplicates(ids) && Known(ids, m)
    ensures Known(TakenOut(ids, id), m)
    ensures Values(TakenOut(ids, id), m[id := l]) == Values(TakenOut(ids, id), m)
  {
    RemoveKeeps(ids, id);
    RemoveOthers(ids, id);
    hide TakenOut, NoDuplicates;
  }

  /** Layers without the bottom one keep a stack in order when one is taken away. */
  lemma RemoveOk(ids: seq<nat>, m: map<nat, Layer>, id: nat, width: nat, height: nat)
    requires NoDuplicates(ids) && Known(ids, m) && StackOk(Values(ids, m), width, height)
    requires id != ids[0]
    ensures Known(TakenOut(ids, id), m) && StackOk(Values(TakenOut(ids, id), m), width, height)
    ensures |TakenOut(ids, id)| > 0 && TakenOut(ids, id)[0] == ids[0]
  {
    RemoveOthers(ids, id);
    RemoveIndex(ids, id);
    hide TakenOut, NoDuplicates;
    var i := IndexOf(ids, id);
    var s, rest := Values(ids, m), Values(TakenOut(ids, id), m);
    assert s[0] == rest[0];
    forall j, k | 0 <= j < k < |rest| && rest[j].transparent.Some?
      ensures rest[k].transparent.Some?
    {
      assert s[if j < i then j else j + 1].transparent.Some?;
      assert s[if k < i then k else k + 1].transparent.Some?;
    }
  }

  lemma ReplacedValue(ids: seq<nat>, m: map<nat, Layer>, id: nat, l: Layer)
    requires NoDuplicates(ids) && id in ids
    ensures IndexOf(ids, id) < |ids| && Values(ids, m[id := l]) == Values(ids, m)[IndexOf(ids, id) := l]
  {
    IndexIn(ids, id);
  }

  lemma ReplacedOk(stack: seq<Layer>, h: nat, l: Layer, width: nat, height: nat)
    requires StackOk(stack, width, height) && 0 < h < |stack| && l.transparent.Some? == stack[h].transparent.Some?
    ensures StackOk(stack[h := l], width, height)
  {
    var s := stack[h := l];
    assert s[0] == stack[0];
    forall i, j | 0 <= i < j < |s| && s[i].transparent.Some?
      ensures s[j].transparent.Some?
    {
      assert stack[i].transparent.Some? && stack[j].transparent.Some?;
    }
  }

  ghost predicate OpaqueBelow(ids: seq<nat>, m: map<nat, Layer>, mouse: nat)
    requires Known(ids, m)
  {
    forall i | 0 <= i < IndexOf(ids, mouse) :: m[ids[i]].transparent.None?
  }

  lemma RaisedMembers(ids: seq<nat>, id: nat, mouse: nat)
    requires NoDuplicates(ids)
    ensures forall i :: i in RaisedBelow(ids, id, mouse) <==> i == id || i in ids
  {
    var others := TakenOut(ids, id);
    RemoveKeeps(ids, id);
    RemoveOthers(ids, id);
    hide TakenOut, IndexOf, NoDuplicates, Insert;
    InsertKeeps(others, IndexOf(others, mouse), id);
  }

  lemma RaisedKeeps(ids: seq<nat>, id: nat, mouse: nat)
    requires NoDuplicates(ids)
    ensures var raised := RaisedBelow(ids, id, mouse);
      NoDuplicates(raised) && TakenOut(raised, id) == TakenOut(ids, id)
  {
    var others := TakenOut(ids, id);
    RemoveKeeps(ids, id);
    hide TakenOut, IndexOf, NoDuplicates, Insert;
    InsertKeeps(others, IndexOf(others, mouse), id);
    InsertRemove(others, IndexOf(others, mouse), id);
  }

  lemma RaisedKnown(ids: seq<nat>, m: map<nat, Layer>, id: nat, mouse: nat)
    requires NoDuplicates(ids) && Known(ids, m) && id in m
    ensures Known(TakenOut(ids, id), m) && Known(RaisedBelow(ids, id, mouse), m)
  {
    RemoveOthers(ids, id);
    RaisedMembers(ids, id, mouse);
  }

  /** Where the others and the raised layer are. */
  lemma RaisedIds(ids: seq<nat>, id: nat, mouse: nat)
    requires NoDuplicates(ids) && id != mouse && mouse in ids
    ensures
      var others := TakenOut(ids, id);
      var raised := RaisedBelow(ids, id, mouse);
      var k := IndexOf(others, mouse);
      && k < |others| && |raised| == |others| + 1 && raised[k] == id && IndexOf(raised, mouse) == k + 1
      && forall i {:trigger raised[i]} | 0 <= i < |raised| && i != k :: raised[i] == others[if i < k then i else i - 1]
  {
    var others := TakenOut(ids, id);
    assert mouse in others by {
      RemoveOthers(ids, id);
    }
    RaisedKeeps(ids, id, mouse);
    IndexIn(others, mouse);
    hide TakenOut, NoDuplicates, Insert;
    InsertIndex(others, IndexOf(others, mouse), id);
    IndexUnique(RaisedBelow(ids, id, mouse), IndexOf(others, mouse) + 1, mouse);
  }

  /** Raising an opaque layer to right below the mouse keeps the stack in order. */
  lemma RaisedOk(ids: seq<nat>, m: map<nat, Layer>, id: nat, mouse: nat, width: nat, height: nat)
    requires NoDuplicates(ids) && Known(ids, m) && StackOk(Values(ids, m), width, height)
    requires id in m && id != ids[0] && id != mouse && m[id].transparent.None?
    requires mouse in ids && mouse != ids[0] && OpaqueBelow(ids, m, mouse)
    ensures Known(RaisedBelow(ids, id, mouse), m)
    ensures StackOk(Values(RaisedBelow(ids, id, mouse), m), width, height)
    ensures RaisedBelow(ids, id, mouse)[0] == ids[0]
  {
    var others := TakenOut(ids, id);
    RaisedKnown(ids, m, id, mouse);
    RaisedIds(ids, id, mouse);
    RemoveOk(ids, m, id, width, height);
    OthersOpaque(ids, m, id, mouse);
    hide Known, TakenOut, NoDuplicates, RaisedBelow, IndexOf, StackOk;
    var raised, k := RaisedBelow(ids, id, mouse), IndexOf(others, mouse);
    assert raised[0] == others[0];
    RaisedValuesOk(Values(others, m), Values(raised, m), k, width, height);
  }

  lemma RaisedOpaque(ids: seq<nat>, m: map<nat, Layer>, id: nat, mouse: nat)
    requires NoDuplicates(ids) && Known(ids, m) && id in m && id != mouse && m[id].transparent.None?
    requires mouse in ids && OpaqueBelow(ids, m, mouse)
    ensures Known(RaisedBelow(ids, id, mouse), m) && OpaqueBelow(RaisedBelow(ids, id, mouse), m, mouse)
  {
    var others, raised := TakenOut(ids, id), RaisedBelow(ids, id, mouse);
    RaisedKnown(ids, m, id, mouse);
    RaisedIds(ids, id, mouse);
    OthersOpaque(ids, m, id, mouse);
    hide TakenOut, NoDuplicates, RaisedBelow, IndexOf;
    forall i | 0 <= i < IndexOf(raised, mouse)
      ensures m[raised[i]].transparent.None?
    {
      assert i != IndexOf(others, mouse) ==> raised[i] == others[i];
    }
  }

  lemma RaisedValuesOk(others: seq<Layer>, raised: seq<Layer>, k: nat, width: nat, height: nat)
    requires StackOk(others, width, height) && 0 < k < |others|
    requires |raised| == |others| + 1 && raised[k].transparent.None?
    requires forall i {:trigger raised[i]} | 0 <= i < |raised| && i != k :: raised[i] == others[if i < k then i else i - 1]
    requires forall i | 0 <= i < k :: others[i].transparent.None?
    ensures StackOk(raised, width, height)
  {
    assert raised[0] == others[0];
    forall i, j | 0 <= i < j < |raised| && raised[i].transparent.Some?
      ensures raised[j].transparent.Some?
    {
      assert others[if i < k then i else i - 1].transparent.Some?;
      assert others[if j < k then j else j - 1].transparent.Some?;
    }
  }

  /** Erasing at the old place and inserting at the new one, read as positions. */
  lemma ErasedInserted(ids: seq<nat>, id: nat, newHeight: nat)
    ensures
      var others := TakenOut(ids, id);
      var height := if newHeight > |ids| then |ids| else newHeight;
      var pos := IndexOf(ids, id);
      && (pos == |ids| ==> Insert(others, Min(newHeight, |others|), id) == ids[..height] + [id] + ids[height..])
      && (pos < |ids| ==>
            var rest := ids[..pos] + ids[pos + 1..];
            var at := if height == |ids| then height - 1 else height;
            Insert(others, Min(newHeight, |others|), id) == rest[..at] + [id] + rest[at..])
      && 0 <= Min(newHeight, |others|) <= |others|
  {
    hide IndexOf;
    var pos := IndexOf(ids, id);
    if pos < |ids| {
      var rest := ids[..pos] + ids[pos + 1..];
      assert TakenOut(ids, id) == rest && |rest| == |ids| - 1;
      hide TakenOut;
    }
  }

  lemma IndexUnique(ids: seq<nat>, i: nat, id: nat)
    requires NoDuplicates(ids) && i < |ids| && ids[i] == id
    ensures IndexOf(ids, id) == i
  {
  }

  lemma OthersOpaque(ids: seq<nat>, m: map<nat, Layer>, id: nat, mouse: nat)
    requires NoDuplicates(ids) && Known(ids, m) && id != mouse && OpaqueBelow(ids, m, mouse)
    ensures Known(TakenOut(ids, id), m) && OpaqueBelow(TakenOut(ids, id), m, mouse)
  {
    RemoveOthers(ids, id);
    RemoveIndex(ids, id);
    var others := TakenOut(ids, id);
    hide TakenOut, NoDuplicates;
    var i, k := IndexOf(ids, id), IndexOf(others, mouse);
    forall j | 0 <= j < k
      ensures m[others[j]].transparent.None?
    {
      var j' := if j < i then j else j + 1;
      assert others[j] == ids[j'];
      if IndexOf(ids, mouse) <= j' {
        BeforeRemoved(ids, id, mouse, j);
      }
    }
  }

  lemma BeforeRemoved(ids: seq<nat>, id: nat, mouse: nat, j: nat)
    requires id != mouse && j < IndexOf(TakenOut(ids, id), mouse)
    ensures (if j < IndexOf(ids, id) then j else j + 1) < IndexOf(ids, mouse)
  {
    RemoveIndex(ids, id);
    var i, p := IndexOf(ids, id), IndexOf(ids, mouse);
    var others := TakenOut(ids, id);
    hide TakenOut;
    if p < |ids| {
      assert others[if p < i then p else p - 1] == mouse;
    }
  }

  // ---- The manager -----------------------------------------------------------------------

  /** An area with negative sizes stands for all of a window. */
  const WHOLE := Rect(Vector(0, 0), Vector(-1, -1))

  class LayerManager {
    const screen: FrameBuffer
    const back: FrameBuffer
    var windows: map<nat, Window>
    var positions: map<nat, Vector>
    var layerStack: seq<nat>
    var latestId: nat

    constructor (screen: FrameBuffer)
      requires screen.Valid()
      ensures Valid() && windows == map[] && layerStack == [] && this.screen == screen
      ensures fresh(back) && fresh(back.rows)
    {
      this.screen := screen;
      windows, positions, layerStack, latestId := map[], map[], [], 0;
      back := new FrameBuffer(screen.width, screen.height, screen.format);
    }

    ghost function Buffers(): set<object>
      reads `windows
    {
      (set id | id in windows :: windows[id]) + (set id | id in windows :: windows[id].shadow.rows)
    }

    ghost predicate WindowOk(id: nat)
      requires id in windows
      reads `windows, Buffers()
    {
      Fits(windows[id])
    }

    /** A window of the screen's format with a buffer of its own. */
    ghost predicate Fits(w: Window)
      reads w, w.shadow.rows
    {
      && w.Valid() && w.shadow.format == screen.format
      && w.shadow.rows != screen.rows && w.shadow.rows != back.rows
    }

    ghost predicate WindowsOk()
      reads `windows, Buffers()
    {
      WindowsApart() && forall id | id in windows :: WindowOk(id)
    }

    ghost predicate WindowsApart()
      reads `windows
    {
      forall i, j | i in windows && j in windows && i != j ::
        windows[i] != windows[j] && windows[i].shadow.rows != windows[j].shadow.rows
    }

    ghost predicate BuffersOk()
      reads screen.rows, back.rows
    {
      && screen.Valid() && back.Valid() && screen.rows != back.rows
      && back.width == screen.width && back.height == screen.height && back.format == screen.format
    }

    ghost predicate NumbersOk()
      reads `windows, `positions, `layerStack, `latestId
    {
      && positions.Keys == windows.Keys && (forall id | id in windows :: id <= latestId)
      && NoDuplicates(layerStack) && (forall id | id in layerStack :: id in windows)
    }

    ghost predicate Valid()
      reads this, Buffers(), screen.rows, back.rows
    {
      WindowsOk() && BuffersOk() && NumbersOk()
    }

    ghost function LayerMap(): map<nat, Layer>
      reads `windows, `positions, Buffers()
    {
      map id | id in windows && id in positions :: windows[id].LayerAt(positions[id])
    }

    /** The layers on the stack as values. */
    ghost function Stack(): seq<Layer>
      reads this, Buffers()
    {
      Values(layerStack, LayerMap())
    }

    /** The screen and the back buffer show the topmost colours. */
    ghost predicate Composed()
      requires Valid()
      reads this, Buffers(), screen.rows, back.rows
    {
      && Shows(back.rows[..], Stack(), screen.width, screen.height)
      && Shows(screen.rows[..], Stack(), screen.width, screen.height)
    }

    lemma BuffersApart()
      requires WindowsOk()
      ensures back.rows !in Buffers() && screen.rows !in Buffers()
    {
      forall id | id in windows
        ensures windows[id].shadow.rows != back.rows && windows[id].shadow.rows != screen.rows
      {
        assert WindowOk(id);
      }
    }

    lemma StackIs()
      ensures Stack() == Values(layerStack, LayerMap())
    {
    }

    lemma ComposedShows()
      requires Valid() && Composed()
      ensures Shows(back.rows[..], Stack(), screen.width, screen.height)
      ensures Shows(screen.rows[..], Stack(), screen.width, screen.height)
    {
    }

    lemma ShowsComposed()
      requires Valid()
      requires Shows(back.rows[..], Stack(), screen.width, screen.height)
      requires Shows(screen.rows[..], Stack(), screen.width, screen.height)
      ensures Composed()
    {
    }

    lemma PlacedFacts(id: nat)
      requires Valid() && id in windows
      ensures id in positions && id in LayerMap()
      ensures Area(LayerMap()[id]) == Rect(positions[id], Vector(windows[id].width, windows[id].height))
    {
    }

    /** Facts about a layer of the stack. */
    lemma MemberFacts(id: nat)
      requires Valid() && id in layerStack
      ensures id in windows && id in positions && id in LayerMap() && Known(layerStack, LayerMap())
      ensures IndexOf(layerStack, id) < |layerStack| && Stack()[IndexOf(layerStack, id)] == LayerMap()[id]
      ensures id != layerStack[0] ==> IndexOf(layerStack, id) > 0
      ensures Area(LayerMap()[id]) == Rect(positions[id], Vector(windows[id].width, windows[id].height))
      ensures Sized(Area(LayerMap()[id]))
      ensures LayerMap()[id].pos == positions[id]
      ensures LayerMap()[id].width == windows[id].width && LayerMap()[id].height == windows[id].height
      ensures LayerMap()[id].transparent == windows[id].transparent
    {
      IndexIn(layerStack, id);
    }

    lemma PixelsFit()
      requires Valid()
      ensures PixelsOk(LayerMap()) && Dims(screen.rows[..], screen.width, screen.height)
    {
      forall id | id in windows
        ensures Dims(windows[id].Content(), windows[id].width, windows[id].height)
      {
        assert WindowOk(id);
      }
    }

    lemma KeysSame()
      requires NumbersOk()
      ensures positions.Keys == windows.Keys
    {
    }

    lemma DrawFacts()
      requires Valid()
      ensures Dims(back.rows[..], screen.width, screen.height) && back.rows != screen.rows
      ensures |Stack()| == |layerStack| && NoDuplicates(layerStack)
    {
    }

    lemma StackFacts()
      requires Valid()
      ensures Known(layerStack, LayerMap()) && |Stack()| == |layerStack| && LayerMap().Keys == windows.Keys
      ensures Dims(back.rows[..], screen.width, screen.height) && NoDuplicates(layerStack)
      ensures back.rows != screen.rows
    {
    }

    /** Layer::DrawTo for the i-th layer of the stack. */
    method DrawLayer(i: nat, area: Rect)
      requires Valid() && i < |layerStack|
      requires Sized(area)
      modifies back.rows
      ensures Valid() && LayerMap() == old(LayerMap()) && Stack() == old(Stack())
      ensures PaintedBy(old(back.rows[..]), back.rows[..], Stack()[i], area)
    {
      BuffersApart();
      assert WindowOk(layerStack[i]);
      hide PaintedBy, NoDuplicates, Dims;
      windows[layerStack[i]].DrawTo(back, positions[layerStack[i]], area);
    }

    /** One more layer drawn, after those from h on below it. */
    method DrawNext(i: nat, area: Rect, ghost before: seq<seq<Color>>, ghost h: nat)
      requires Valid() && i < |layerStack| && Sized(area) && Dims(before, screen.width, screen.height)
      requires PaintedPart(before, back.rows[..], Stack(), h, i, area, screen.width, screen.height)
      modifies back.rows
      ensures Valid() && LayerMap() == old(LayerMap()) && Stack() == old(Stack())
      ensures PaintedPart(before, back.rows[..], Stack(), h, i + 1, area, screen.width, screen.height)
    {
      ghost var now := back.rows[..];
      StackFacts();
      hide *;
      DrawLayer(i, area);
      NextPainted(before, now, back.rows[..], Stack(), h, i, area, screen.width, screen.height);
    }

    method Show(area: Rect)
      requires Valid() && Sized(area)
      modifies screen.rows
      ensures Valid() && LayerMap() == old(LayerMap()) && Stack() == old(Stack())
      ensures Refreshed(old(screen.rows[..]), screen.rows[..], back.rows[..], area, screen.width, screen.height)
    {
      ghost var before := screen.rows[..];
      BuffersApart();
      assert area.pos.Minus(area.pos) == Vector(0, 0) && Rect(area.pos, area.size) == area;
      hide Intersect, Transferred, NoDuplicates, Dims;
      var _ := screen.Copy(area.pos, back, area);
      TransferRefreshes(before, screen.rows[..], back.rows[..], area, screen.width, screen.height);
    }

    method ShowDrawn(area: Rect, ghost before: seq<seq<Color>>, ghost h: nat)
      requires Valid() && Sized(area) && h <= |layerStack|
      requires PaintedPart(before, back.rows[..], Stack(), h, |layerStack|, area, screen.width, screen.height)
      modifies screen.rows
      ensures Valid() && LayerMap() == old(LayerMap()) && Stack() == old(Stack())
      ensures Redrawn(Redraw(before, old(screen.rows[..]), back.rows[..], screen.rows[..]), Stack(), h, area,
        screen.width, screen.height)
    {
      ghost var shown := screen.rows[..];
      hide *;
      DrawFacts();
      AllPainted(before, back.rows[..], Stack(), h, area, screen.width, screen.height);
      Show(area);
      MakeRedrawn(Redraw(before, shown, back.rows[..], screen.rows[..]), Stack(), h, area, screen.width, screen.height);
    }

    method DrawArea(area: Rect)
      requires Valid() && Sized(area)
      modifies back.rows, screen.rows
      ensures Valid() && LayerMap() == old(LayerMap()) && Stack() == old(Stack())
      ensures Redrawn(Redraw(old(back.rows[..]), old(screen.rows[..]), back.rows[..], screen.rows[..]), Stack(), 0, area,
        screen.width, screen.height)
    {
      ghost var stack := Stack();
      ghost var before := back.rows[..];
      var i := 0;
      NothingPainted(before, stack, 0, area, screen.width, screen.height);
      hide *;
      DrawFacts();
      while i < |layerStack|
        invariant 0 <= i <= |layerStack|
        invariant Valid() && LayerMap() == old(LayerMap()) && Stack() == stack && screen.rows[..] == old(screen.rows[..])
        invariant PaintedPart(before, back.rows[..], stack, 0, i, area, screen.width, screen.height)
      {
        DrawNext(i, area, before, 0);
        i := i + 1;
      }
      ShowDrawn(area, before, 0);
    }

    /** The part of a window that is drawn: an area of it, or all of it when the sizes are negative. */
    static function DrawnArea(l: Rect, area: Rect): Rect {
      if area.size.x >= 0 || area.size.y >= 0 then Intersect(l, Rect(area.pos.Plus(l.pos), area.size)) else l
    }

    /** That area is counted from the corner of the window, and nothing outside of the window is in it. */
    static lemma DrawnAreaIs(l: Rect, area: Rect, x: int, y: int)
      requires AreaOk(area)
      ensures In(DrawnArea(l, area), x, y) <==> In(l, x, y) && (Sized(area) ==> In(area, x - l.pos.x, y - l.pos.y))
    {
      IntersectPoints(l, Rect(area.pos.Plus(l.pos), area.size), x, y);
      hide Intersect;
    }

    static lemma Whole(r: Rect)
      ensures AreaOk(WHOLE) && DrawnArea(r, WHOLE) == r
    {
    }

    static ghost predicate AreaOk(area: Rect) {
      Sized(area) || (area.size.x < 0 && area.size.y < 0)
    }

    function PartOf(id: nat, area: Rect): Rect
      requires id in windows && id in positions
      reads this
    {
      DrawnArea(Rect(positions[id], Vector(windows[id].width, windows[id].height)), area)
    }

    lemma PartSized(id: nat, area: Rect)
      requires Valid() && id in layerStack && AreaOk(area)
      ensures id in windows && id in positions && id in LayerMap()
      ensures PartOf(id, area) == DrawnArea(Area(LayerMap()[id]), area) && Sized(PartOf(id, area))
    {
      IntersectPoints(Area(LayerMap()[id]), Rect(area.pos.Plus(positions[id]), area.size), 0, 0);
      hide Intersect;
    }

    /** The stack from a layer on is drawn in a part of its window. */
    method Draw(id: nat, area: Rect)
      requires Valid() && id in layerStack && AreaOk(area)
      modifies back.rows, screen.rows
      ensures Valid() && LayerMap() == old(LayerMap()) && Stack() == old(Stack())
      ensures IndexOf(layerStack, id) < |layerStack|
      ensures Redrawn(Redraw(old(back.rows[..]), old(screen.rows[..]), back.rows[..], screen.rows[..]), Stack(),
        IndexOf(layerStack, id), DrawnArea(Area(LayerMap()[id]), area), screen.width, screen.height)
    {
      hide *;
      DrawFacts();
      IndexIn(layerStack, id);
      PartSized(id, area);
      ghost var stack, h := Stack(), IndexOf(layerStack, id);
      ghost var before, shown := back.rows[..], screen.rows[..];
      ghost var part := DrawnArea(Area(LayerMap()[id]), area);
      NothingPainted(before, stack, h, part, screen.width, screen.height);
      var draw := false;
      var windowArea := Rect(Vector(0, 0), Vector(0, 0));
      var i := 0;
      while i < |layerStack|
        invariant 0 <= i <= |layerStack| && draw == (h < i) && (draw ==> windowArea == part && Sized(windowArea))
        invariant Valid() && LayerMap() == old(LayerMap()) && Stack() == stack && screen.rows[..] == shown
        invariant !draw ==> back.rows[..] == before
        invariant draw ==> PaintedPart(before, back.rows[..], stack, h, i, part, screen.width, screen.height)
      {
        if layerStack[i] == id {
          IndexUnique(layerStack, i, id);
          windowArea := PartOf(id, area);
          draw := true;
        }
        if draw {
          DrawNext(i, windowArea, before, h);
        }
        i := i + 1;
      }
      ShowDrawn(windowArea, before, h);
    }

    /** A new layer with a window of its own, not on the stack yet. */
    method NewLayer(window: Window, pos: Vector) returns (id: nat)
      requires Valid() && window.Valid() && window.shadow.format == screen.format
      requires window.shadow.rows != screen.rows && window.shadow.rows != back.rows
      requires forall k | k in windows :: windows[k] != window && windows[k].shadow.rows != window.shadow.rows
      modifies `windows, `positions, `latestId
      ensures Valid() && layerStack == old(layerStack) && id !in old(windows)
      ensures LayerMap() == old(LayerMap())[id := window.LayerAt(pos)]
    {
      hide NoDuplicates, Dims, BuffersOk;
      ghost var was := LayerMap();
      assert Fits(window);
      latestId := latestId + 1;
      id := latestId;
      windows := windows[id := window];
      positions := positions[id := pos];
      hide Fits;
      forall k | k in windows
        ensures WindowOk(k)
      {
        assert k != id ==> old(WindowOk(k));
      }
      assert WindowsApart();
      hide WindowsApart;
      assert WindowsOk();
      hide WindowsOk;
      assert Valid();
      hide *;
      LayersAre(was[id := window.LayerAt(pos)]);
    }

    /** Layer::Move. */
    method SetPosition(id: nat, pos: Vector)
      requires Valid() && id in windows
      modifies `positions
      ensures Valid() && id in LayerMap()
      ensures LayerMap() == old(LayerMap())[id := old(LayerMap())[id].(pos := pos)]
    {
      hide NoDuplicates;
      positions := positions[id := pos];
    }

    /** Moves a layer: its old place is redrawn, then the layer and all above it in the new place. */
    method Move(id: nat, newPos: Vector)
      requires Valid() && Composed() && StackOk(Stack(), screen.width, screen.height)
      requires id in layerStack && id != layerStack[0]
      modifies `positions, back.rows, screen.rows
      ensures Valid() && id in LayerMap()
      ensures LayerMap() == old(LayerMap())[id := old(LayerMap())[id].(pos := newPos)]
      ensures Composed() && StackOk(Stack(), screen.width, screen.height)
    {
      hide *;
      DrawFacts();
      MemberFacts(id);
      ghost var m, stack, h := LayerMap(), Stack(), IndexOf(layerStack, id);
      ghost var moved := m[id].(pos := newPos);
      StackIs();
      ReplacedValue(layerStack, m, id, moved);
      ReplacedOk(stack, h, moved, screen.width, screen.height);
      ComposedShows();
      ghost var b0, s0 := back.rows[..], screen.rows[..];
      var size := Vector(windows[id].width, windows[id].height);
      var oldPos := positions[id];
      SetPosition(id, newPos);
      StackIs();
      Whole(Area(moved));
      DrawArea(Rect(oldPos, size));
      ghost var b1, s1 := back.rows[..], screen.rows[..];
      Draw(id, WHOLE);
      RedrawMoved(Redraw(b0, s0, b1, s1), Redraw(b1, s1, back.rows[..], screen.rows[..]), stack, h, moved, screen.width, screen.height);
      ShowsComposed();
    }

    method MoveRelative(id: nat, posDiff: Vector)
      requires Valid() && Composed() && StackOk(Stack(), screen.width, screen.height)
      requires id in layerStack && id != layerStack[0]
      modifies `positions, back.rows, screen.rows
      ensures Valid() && id in old(LayerMap())
      ensures LayerMap() == old(LayerMap())[id := old(LayerMap())[id].(pos := old(LayerMap())[id].pos.Plus(posDiff))]
      ensures Composed() && StackOk(Stack(), screen.width, screen.height)
    {
      hide *;
      MemberFacts(id);
      Move(id, positions[id].Plus(posDiff));
    }

    method GetHeight(id: nat) returns (height: int)
      requires Valid()
      ensures Valid() && LayerMap() == old(LayerMap())
      ensures height == if id in layerStack then IndexOf(layerStack, id) else -1
    {
      height := 0;
      while height < |layerStack|
        invariant 0 <= height <= IndexOf(layerStack, id)
      {
        if layerStack[height] == id {
          return;
        }
        height := height + 1;
      }
      IndexIn(layerStack, id);
      height := -1;
    }

    method SetStack(ids: seq<nat>)
      requires Valid() && NoDuplicates(ids) && forall k | k in ids :: k in windows
      modifies `layerStack
      ensures Valid() && layerStack == ids && LayerMap() == old(LayerMap())
    {
      hide NoDuplicates;
      layerStack := ids;
    }

    method Hide(id: nat)
      requires Valid()
      modifies `layerStack
      ensures Valid() && layerStack == TakenOut(old(layerStack), id) && LayerMap() == old(LayerMap())
    {
      RemovalOk(id);
      hide NoDuplicates, Valid, LayerMap;
      var pos := IndexOf(layerStack, id);
      if pos < |layerStack| {
        SetStack(layerStack[..pos] + layerStack[pos + 1..]);
      }
    }

    lemma RemovalOk(id: nat)
      requires Valid()
      ensures NoDuplicates(TakenOut(layerStack, id)) && id !in TakenOut(layerStack, id)
      ensures forall k | k in TakenOut(layerStack, id) :: k in windows
    {
      RemoveKeeps(layerStack, id);
      RemoveOthers(layerStack, id);
    }

    /** Puts a layer at a height of the stack, the others in their order; below zero hides it. */
    method UpDown(id: nat, newHeight: int)
      requires Valid() && id in windows
      modifies `layerStack
      ensures Valid() && LayerMap() == old(LayerMap())
      ensures newHeight < 0 ==> layerStack == TakenOut(old(layerStack), id)
      ensures newHeight >= 0 ==>
        var others := TakenOut(old(layerStack), id);
        layerStack == Insert(others, Min(newHeight, |others|), id)
    {
      hide *;
      if newHeight < 0 {
        Hide(id);
        return;
      }
      var height := if newHeight > |layerStack| then |layerStack| else newHeight;
      var oldPos := IndexOf(layerStack, id);
      RemovalOk(id);
      ErasedInserted(layerStack, id, newHeight);
      InsertKeeps(TakenOut(layerStack, id), Min(newHeight, |TakenOut(layerStack, id)|), id);
      if oldPos == |layerStack| {
        SetStack(layerStack[..height] + [id] + layerStack[height..]);
        return;
      }
      if height == |layerStack| {
        height := height - 1;
      }
      var stack := layerStack[..oldPos] + layerStack[oldPos + 1..];
      SetStack(stack[..height] + [id] + stack[height..]);
    }

    method RemoveLayer(id: nat)
      requires Valid()
      modifies `layerStack, `windows, `positions
      ensures Valid() && layerStack == TakenOut(old(layerStack), id)
      ensures LayerMap() == old(LayerMap()) - {id}
    {
      hide *;
      DrawFacts();
      RemoveKeeps(layerStack, id);
      Hide(id);
      Forget(id);
    }

    method Forget(id: nat)
      requires Valid() && id !in layerStack
      modifies `windows, `positions
      ensures Valid()
      ensures LayerMap() == old(LayerMap()) - {id}
    {
      hide NumbersOk, Dims, BuffersOk, Fits;
      ghost var was, before := LayerMap(), windows;
      KeysSame();
      windows := windows - {id};
      positions := positions - {id};
      NumbersWithout(id);
      forall k | k in windows
        ensures k in before && windows[k] == before[k] && WindowOk(k)
      {
        assert old(WindowOk(k));
      }
      assert WindowsOk();
      hide *;
      LayersAre(was - {id});
    }

    twostate lemma NumbersWithout(id: nat)
      requires old(NumbersOk()) && id !in layerStack && unchanged(`layerStack) && unchanged(`latestId)
      requires windows == old(windows) - {id} && positions == old(positions) - {id}
      ensures NumbersOk()
    {
    }

    lemma LayersAre(m: map<nat, Layer>)
      requires positions.Keys == windows.Keys == m.Keys
      requires forall k | k in windows :: windows[k].LayerAt(positions[k]) == m[k]
      ensures LayerMap() == m
    {
    }

    /** An application draws in its window. */
    method WriteWindow(id: nat, writes: seq<(Vector, Color)>)
      requires Valid() && id in windows
      requires WritesInside(writes, Rect(Vector(0, 0), Vector(windows[id].width, windows[id].height)))
      modifies windows[id], windows[id].shadow.rows
      ensures Valid() && id in old(LayerMap())
      ensures LayerMap() == old(LayerMap())[id := Written(old(LayerMap())[id], writes)]
      ensures Repainted(old(LayerMap())[id], LayerMap()[id], writes)
    {
      PixelsFit();
      WrittenRedraws(LayerMap()[id], writes);
      hide Repainted;
      KeysSame();
      hide NumbersOk, BuffersOk, Dims, PutAll, WritesInside, PixelsOk, Drawn, NoDuplicates;
      ghost var was := LayerMap();
      assert WindowOk(id);
      windows[id].WriteAll(writes);
      assert Fits(windows[id]);
      hide Fits;
      forall k | k in windows
        ensures WindowOk(k) && windows[k].LayerAt(positions[k]) == if k == id then Written(was[id], writes) else was[k]
      {
        assert old(WindowOk(k));
      }
      assert WindowsOk();
      hide *;
      LayersAre(was[id := Written(was[id], writes)]);
    }

    /** All pixels written lie in the window and, unless all of it is shown, in the part that is shown. */
    ghost predicate ChangeOk(id: nat, writes: seq<(Vector, Color)>, area: Rect)
      reads `windows
    {
      && id in windows && WritesInside(writes, Rect(Vector(0, 0), Vector(windows[id].width, windows[id].height)))
      && AreaOk(area) && (Sized(area) ==> WritesInside(writes, area))
    }

    lemma ChangeFacts(id: nat, writes: seq<(Vector, Color)>, area: Rect)
      requires ChangeOk(id, writes, area)
      ensures id in windows && WritesInside(writes, Rect(Vector(0, 0), Vector(windows[id].width, windows[id].height)))
      ensures AreaOk(area) && (Sized(area) ==> WritesInside(writes, area))
    {
    }

    /** An application draws in a part of its opaque window and has the part shown. */
    method DrawChanged(id: nat, writes: seq<(Vector, Color)>, area: Rect)
      requires Valid() && Composed() && StackOk(Stack(), screen.width, screen.height)
      requires id in layerStack && ChangeOk(id, writes, area) && windows[id].transparent.None?
      modifies windows[id], windows[id].shadow.rows, back.rows, screen.rows
      ensures Valid() && id in old(LayerMap())
      ensures LayerMap() == old(LayerMap())[id := Written(old(LayerMap())[id], writes)]
      ensures Composed() && StackOk(Stack(), screen.width, screen.height)
      ensures Repainted(old(LayerMap())[id], LayerMap()[id], writes)
      ensures OnScreen(screen.rows[..], layerStack, LayerMap(), id, writes)
    {
      hide *;
      DrawFacts();
      MemberFacts(id);
      ChangeFacts(id, writes, area);
      ghost var m, stack, h := LayerMap(), Stack(), IndexOf(layerStack, id);
      ghost var l := Written(m[id], writes);
      ghost var part := DrawnArea(Area(m[id]), area);
      StackIs();
      ReplacedValue(layerStack, m, id, l);
      WrittenOk(stack, h, writes, area, screen.width, screen.height);
      ComposedShows();
      WriteKeepsBuffers(id);
      ghost var b0, s0 := back.rows[..], screen.rows[..];
      WriteWindow(id, writes);
      StackIs();
      Draw(id, area);
      RedrawLayer(Redraw(b0, s0, back.rows[..], screen.rows[..]), stack, stack[h := l], h, part, screen.width, screen.height);
      ShowsComposed();
      NowOnScreen(id, m[id], writes);
    }

    lemma NowOnScreen(id: nat, before: Layer, writes: seq<(Vector, Color)>)
      requires Valid() && Composed() && id in layerStack && id in LayerMap() && LayerMap()[id].transparent.None?
      requires Repainted(before, LayerMap()[id], writes)
      ensures OnScreen(screen.rows[..], layerStack, LayerMap(), id, writes)
    {
      hide *;
      PixelsFit();
      ComposedShows();
      MemberFacts(id);
      StackIs();
      WrittenOnScreen(screen.rows[..], layerStack, LayerMap(), id, before, writes, screen.width, screen.height);
    }

    lemma WriteKeepsBuffers(id: nat)
      requires Valid() && id in windows
      ensures windows[id].shadow.rows != back.rows && windows[id].shadow.rows != screen.rows
    {
      assert WindowOk(id);
    }
  }

  lemma WrittenSame(l: Layer, writes: seq<(Vector, Color)>)
    ensures Area(Written(l, writes)) == Area(l) && Written(l, writes).transparent == l.transparent
  {
  }

  /** Writing in a part of an opaque window changes what is on top in that part only. */
  lemma WrittenOk(stack: seq<Layer>, h: nat, writes: seq<(Vector, Color)>, area: Rect, width: nat, height: nat)
    requires h < |stack| && StackOk(stack, width, height) && LayerManager.AreaOk(area) && stack[h].transparent.None?
    requires WritesInside(writes, Rect(Vector(0, 0), Vector(stack[h].width, stack[h].height)))
    requires Sized(area) ==> WritesInside(writes, area)
    ensures
      var l := Written(stack[h], writes);
      var part := LayerManager.DrawnArea(Area(stack[h]), area);
      && StackOk(stack[h := l], width, height) && l.transparent.None? && Area(l) == Area(stack[h])
      && (forall x, y | In(part, x, y) :: In(Area(l), x, y))
      && (forall x, y | 0 <= x < width && 0 <= y < height && !In(part, x, y) :: Top(stack, x, y) == Top(stack[h := l], x, y))
  {
    var l := Written(stack[h], writes);
    var part := LayerManager.DrawnArea(Area(stack[h]), area);
    var whole := Rect(Vector(0, 0), Vector(l.width, l.height));
    var shifted := Rect(area.pos.Plus(l.pos), area.size);
    assert StackOk(stack[h := l], width, height) by {
      WrittenStackOk(stack, h, l, width, height);
    }
    hide StackOk, Top, PutAll, WritesInside, Intersect;
    forall x, y
      ensures In(part, x, y) ==> In(Area(l), x, y)
      ensures !In(part, x, y) ==> Top(stack, x, y) == Top(stack[h := l], x, y)
    {
      IntersectPoints(Area(l), shifted, x, y);
      if !In(part, x, y) {
        if In(Area(l), x, y) {
          PutOutside(stack[h].pixels, writes, area, x - l.pos.x, y - l.pos.y);
        }
        StandIn(stack, h, l, x, y);
      }
    }
  }

  lemma WrittenStackOk(stack: seq<Layer>, h: nat, l: Layer, width: nat, height: nat)
    requires h < |stack| && StackOk(stack, width, height)
    requires l.transparent.Some? == stack[h].transparent.Some? && Area(l) == Area(stack[h])
    ensures StackOk(stack[h := l], width, height)
  {
    var s := stack[h := l];
    forall i, j | 0 <= i < j < |s| && s[i].transparent.Some?
      ensures s[j].transparent.Some?
    {
      assert stack[i].transparent.Some? && stack[j].transparent.Some?;
    }
  }

  /** Nothing is seen there of the layers above a layer. */
  ghost predicate Uncovered(ids: seq<nat>, m: map<nat, Layer>, id: nat, x: int, y: int) {
    forall h, k, c | 0 <= h < k < |ids| && ids[h] == id && ids[k] in m :: !Visible(m[ids[k]], x, y, c)
  }

  /** What was drawn last at each place of a window is on the screen, wherever nothing is above it. */
  ghost predicate OnScreen(rows: seq<seq<Color>>, ids: seq<nat>, m: map<nat, Layer>, id: nat, writes: seq<(Vector, Color)>)
    requires id in m
  {
    forall i {:trigger writes[i]} | 0 <= i < |writes| && LastWrite(writes, i) ::
      var x, y := m[id].pos.x + writes[i].0.x, m[id].pos.y + writes[i].0.y;
      0 <= y < |rows| && 0 <= x < |rows[y]| && Uncovered(ids, m, id, x, y) ==> rows[y][x] == writes[i].1
  }

  /** All layers have as many pixels as their windows. */
  ghost predicate PixelsOk(m: map<nat, Layer>) {
    forall id | id in m :: Dims(m[id].pixels, m[id].width, m[id].height)
  }

  lemma WrittenOnScreen(rows: seq<seq<Color>>, ids: seq<nat>, m: map<nat, Layer>, id: nat, before: Layer,
                        writes: seq<(Vector, Color)>, width: nat, height: nat)
    requires Dims(rows, width, height) && Shows(rows, Values(ids, m), width, height)
    requires Known(ids, m) && PixelsOk(m) && id in ids && m[id].transparent.None?
    requires Repainted(before, m[id], writes)
    ensures OnScreen(rows, ids, m, id, writes)
  {
    var l, h := m[id], IndexOf(ids, id);
    IndexIn(ids, id);
    var stack := Values(ids, m);
    assert stack[h] == l;
    assert forall j | 0 <= j < |stack| :: ids[j] in m && stack[j] == m[ids[j]];
    forall i | 0 <= i < |writes| && LastWrite(writes, i)
      ensures
        var x, y := l.pos.x + writes[i].0.x, l.pos.y + writes[i].0.y;
        0 <= y < |rows| && 0 <= x < |rows[y]| && Uncovered(ids, m, id, x, y) ==> rows[y][x] == writes[i].1
    {
      var x, y := l.pos.x + writes[i].0.x, l.pos.y + writes[i].0.y;
      if 0 <= y < |rows| && 0 <= x < |rows[y]| && Uncovered(ids, m, id, x, y) {
        assert Visible(l, x, y, writes[i].1);
        hide Visible, Shows, Top;
        ShownIs(rows, stack, width, height, x, y, h, writes[i].1);
      }
    }
  }

  /** A layer has new pixels where something was drawn, and is otherwise the same. */
  ghost predicate Repainted(l: Layer, l': Layer, writes: seq<(Vector, Color)>) {
    l' == l.(pixels := l'.pixels) && Drawn(l.pixels, l'.pixels, writes, l.width, l.height)
  }

  lemma WrittenRedraws(l: Layer, writes: seq<(Vector, Color)>)
    requires Dims(l.pixels, l.width, l.height)
    requires WritesInside(writes, Rect(Vector(0, 0), Vector(l.width, l.height)))
    ensures Repainted(l, Written(l, writes), writes)
  {
    PutAllDraws(l.pixels, writes, l.width, l.height);
  }

  function Written(l: Layer, writes: seq<(Vector, Color)>): Layer {
    l.(pixels := PutAll(l.pixels, writes))
  }

  lemma MakeRedrawn(r: Redraw, stack: seq<Layer>, h: nat, area: Rect, width: nat, height: nat)
    requires h <= |stack| && Painted(r.b0, r.b1, stack[h..], area, width, height)
    requires Refreshed(r.s0, r.s1, r.b1, area, width, height)
    ensures Redrawn(r, stack, h, area, width, height)
  {
  }

  lemma TransferRefreshes(before: seq<seq<Color>>, after: seq<seq<Color>>, source: seq<seq<Color>>, area: Rect,
                          width: nat, height: nat)
    requires Dims(before, width, height) && Dims(source, width, height)
    requires Transferred(before, after, source, Vector(0, 0), Intersect(area, Rect(Vector(0, 0), Vector(width, height))))
    ensures Refreshed(before, after, source, area, width, height)
  {
    var outline := Rect(Vector(0, 0), Vector(width, height));
    hide Intersect;
    forall x, y | 0 <= x < width && 0 <= y < height
      ensures At(after, x, y) == if In(area, x, y) then At(source, x, y) else At(before, x, y)
    {
      assert RowTransferred(before[y], after[y], source, Vector(0, 0), Intersect(area, outline), y);
      IntersectPoints(area, outline, x, y);
    }
  }

  /** The layers from h up to i have been drawn. */
  ghost predicate PaintedPart(before: seq<seq<Color>>, now: seq<seq<Color>>, stack: seq<Layer>, h: nat, i: nat,
                              area: Rect,
                              width: nat, height: nat)
  {
    h <= i <= |stack| && Painted(before, now, stack[h..i], area, width, height)
  }

  lemma NothingPainted(rows: seq<seq<Color>>, stack: seq<Layer>, h: nat, area: Rect, width: nat, height: nat)
    requires h <= |stack|
    ensures PaintedPart(rows, rows, stack, h, h, area, width, height)
  {
    assert stack[h..h] == [];
  }

  lemma AllPainted(before: seq<seq<Color>>, now: seq<seq<Color>>, stack: seq<Layer>, h: nat, area: Rect,
                   width: nat, height: nat)
    requires PaintedPart(before, now, stack, h, |stack|, area, width, height)
    ensures Painted(before, now, stack[h..], area, width, height)
  {
    assert stack[h..|stack|] == stack[h..];
  }

  lemma NextPainted(before: seq<seq<Color>>, now: seq<seq<Color>>, next: seq<seq<Color>>, stack: seq<Layer>,
                    h: nat, i: nat,
                    area: Rect, width: nat, height: nat)
    requires Dims(before, width, height) && Dims(now, width, height) && i < |stack|
    requires PaintedPart(before, now, stack, h, i, area, width, height) && PaintedBy(now, next, stack[i], area)
    ensures PaintedPart(before, next, stack, h, i + 1, area, width, height)
  {
    PaintedNext(before, now, next, stack[h..i], stack[i], area, width, height);
    assert stack[h..i] + [stack[i]] == stack[h..i + 1];
  }

  lemma PaintedNext(before: seq<seq<Color>>, now: seq<seq<Color>>, next: seq<seq<Color>>, stack: seq<Layer>,
                    l: Layer, area: Rect,
                    width: nat, height: nat)
    requires Dims(before, width, height) && Dims(now, width, height)
    requires Painted(before, now, stack, area, width, height) && PaintedBy(now, next, l, area)
    ensures Painted(before, next, stack + [l], area, width, height)
  {
    assert (stack + [l])[..|stack|] == stack;
    forall x, y | 0 <= x < width && 0 <= y < height
      ensures At(next, x, y) == PaintAll(At(before, x, y), stack + [l], area, x, y)
    {
      assert RowPaintedBy(now[y], next[y], l, area, y, |next[y]|);
      assert At(now, x, y) == PaintAll(At(before, x, y), stack, area, x, y);
    }
  }
}

/** Which window is active, and how windows are raised and closed (Kernel/layer.cpp). */
module ActiveLayers {
  import opened Bounds
  import opened Options
  import opened Composition
  import opened FrameBuffers
  import opened Windows
  import opened Layers

  datatype Outcome = Success | NoSuchEntry

  /** A layer whose window is raised and redrawn shows the same colours as before outside of its area. */
  lemma RaisedElsewhere(ids: seq<nat>, m: map<nat, Layer>, id: nat, l: Layer, mouse: nat, x: int, y: int)
    requires NoDuplicates(ids) && Known(ids, m) && id in m && Area(l) == Area(m[id]) && !In(Area(l), x, y)
    ensures Top(Values(RaisedBelow(ids, id, mouse), m[id := l]), x, y) == Top(Values(ids, m), x, y)
  {
    RemovedTop(ids, m, id, x, y);
    OthersOnly(ids, m, id, l);
    RaisedKeeps(ids, id, mouse);
    RaisedKnown(ids, m[id := l], id, mouse);
    RemovedTop(RaisedBelow(ids, id, mouse), m[id := l], id, x, y);
  }

  /** The stack is in order, and the mouse is on it, above opaque layers only. */
  ghost predicate DesktopOk(ids: seq<nat>, m: map<nat, Layer>, mouse: nat, width: nat, height: nat) {
    && NoDuplicates(ids) && Known(ids, m) && StackOk(Values(ids, m), width, height)
    && mouse in ids && mouse != ids[0] && OpaqueBelow(ids, m, mouse)
  }

  /** An opaque window other than the desktop at the bottom and the mouse. */
  ghost predicate CanBeRaised(ids: seq<nat>, m: map<nat, Layer>, mouse: nat, id: nat) {
    id in m && id != mouse && |ids| > 0 && id != ids[0] && id != 0 && m[id].transparent.None?
  }

  lemma WrittenDesktop(ids: seq<nat>, m: map<nat, Layer>, mouse: nat, id: nat, l: Layer, width: nat, height: nat)
    requires DesktopOk(ids, m, mouse, width, height) && id in m
    requires Area(l) == Area(m[id]) && l.transparent == m[id].transparent
    ensures DesktopOk(ids, m[id := l], mouse, width, height)
    ensures forall k | CanBeRaised(ids, m, mouse, k) :: CanBeRaised(ids, m[id := l], mouse, k)
  {
    if id in ids {
      ReplacedValue(ids, m, id, l);
      IndexIn(ids, id);
      WrittenStackOk(Values(ids, m), IndexOf(ids, id), l, width, height);
    } else {
      assert Values(ids, m[id := l]) == Values(ids, m);
    }
  }

  lemma RaisedDesktop(ids: seq<nat>, m: map<nat, Layer>, mouse: nat, id: nat, width: nat, height: nat)
    requires DesktopOk(ids, m, mouse, width, height) && CanBeRaised(ids, m, mouse, id)
    ensures DesktopOk(RaisedBelow(ids, id, mouse), m, mouse, width, height)
    ensures StackOk(Values(RaisedBelow(ids, id, mouse), m), width, height)
    ensures id in RaisedBelow(ids, id, mouse) && CanBeRaised(RaisedBelow(ids, id, mouse), m, mouse, id)
  {
    RaisedOk(ids, m, id, mouse, width, height);
    RaisedOpaque(ids, m, id, mouse);
    RaisedKeeps(ids, id, mouse);
    RaisedMembers(ids, id, mouse);
    hide RaisedBelow, StackOk, OpaqueBelow, NoDuplicates;
  }

  lemma RemovedDesktop(ids: seq<nat>, m: map<nat, Layer>, mouse: nat, id: nat, width: nat, height: nat)
    requires DesktopOk(ids, m, mouse, width, height) && id != mouse && id != ids[0]
    ensures DesktopOk(TakenOut(ids, id), m - {id}, mouse, width, height)
    ensures StackOk(Values(TakenOut(ids, id), m - {id}), width, height)
  {
    RemoveOk(ids, m, id, width, height);
    RemoveKeeps(ids, id);
    RemoveOthers(ids, id);
    OthersOpaque(ids, m, id, mouse);
    hide TakenOut, StackOk, NoDuplicates;
    assert Values(TakenOut(ids, id), m - {id}) == Values(TakenOut(ids, id), m);
  }

  class ActiveLayer {
    const manager: LayerManager
    var active: nat
    const mouse: nat

    constructor (manager: LayerManager, mouse: nat)
      ensures this.manager == manager && this.mouse == mouse && active == 0
    {
      this.manager := manager;
      this.mouse := mouse;
      active := 0;
    }

    /** The screen is up to date, and the active window can be raised. */
    ghost predicate Valid()
      reads this, manager, manager.Buffers(), manager.screen.rows, manager.back.rows
    {
      && manager.Valid() && manager.Composed()
      && DesktopOk(manager.layerStack, manager.LayerMap(), mouse, manager.screen.width, manager.screen.height)
      && (active != 0 ==> active in manager.layerStack && CanBeRaised(manager.layerStack, manager.LayerMap(), mouse, active))
    }

    lemma Facts()
      requires Valid()
      ensures manager.Valid() && manager.Composed() && Known(manager.layerStack, manager.LayerMap())
      ensures DesktopOk(manager.layerStack, manager.LayerMap(), mouse, manager.screen.width, manager.screen.height)
      ensures StackOk(manager.Stack(), manager.screen.width, manager.screen.height)
      ensures active != 0 ==>
        active in manager.layerStack && CanBeRaised(manager.layerStack, manager.LayerMap(), mouse, active)
      ensures NoDuplicates(manager.layerStack) && mouse in manager.layerStack
      ensures this !in manager.Buffers() && manager !in manager.Buffers()
    {
    }

    lemma MakeValid()
      requires manager.Valid() && manager.Composed()
      requires DesktopOk(manager.layerStack, manager.LayerMap(), mouse, manager.screen.width, manager.screen.height)
      requires active != 0 ==>
        active in manager.layerStack && CanBeRaised(manager.layerStack, manager.LayerMap(), mouse, active)
      ensures Valid()
    {
    }

    lemma RaisableFacts(id: nat)
      requires manager.Valid() && CanBeRaised(manager.layerStack, manager.LayerMap(), mouse, id)
      ensures id in manager.windows && manager.windows[id].transparent.None? && id in manager.LayerMap() && id != mouse
      ensures manager.LayerMap()[id].transparent.None?
      ensures manager.LayerMap()[id].width == manager.windows[id].width
      ensures manager.LayerMap()[id].height == manager.windows[id].height
    {
    }

    /** The title of the active window is drawn again, and no window is active. */
    method Deactivate(title: seq<(Vector, Color)>)
      requires Valid() && active != 0 && manager.ChangeOk(active, title, WHOLE)
      modifies `active, manager.Buffers(), manager.screen.rows, manager.back.rows
      ensures Valid() && active == 0
      ensures old(active) in old(manager.LayerMap())
      ensures manager.LayerMap() == old(manager.LayerMap())[old(active) := Written(old(manager.LayerMap())[old(active)], title)]
      ensures manager.windows == old(manager.windows) && manager.positions == old(manager.positions)
      ensures manager.layerStack == old(manager.layerStack)
      ensures forall k | old(CanBeRaised(manager.layerStack, manager.LayerMap(), mouse, k)) ::
        CanBeRaised(manager.layerStack, manager.LayerMap(), mouse, k)
      ensures Repainted(old(manager.LayerMap())[old(active)], manager.LayerMap()[old(active)], title)
      ensures OnScreen(manager.screen.rows[..], manager.layerStack, manager.LayerMap(), old(active), title)
    {
      hide *;
      Facts();
      RaisableFacts(active);
      ghost var ids, m := manager.layerStack, manager.LayerMap();
      InBuffers(active);
      WrittenSame(m[active], title);
      WrittenDesktop(ids, m, mouse, active, Written(m[active], title), manager.screen.width, manager.screen.height);
      manager.DrawChanged(active, title, WHOLE);
      active := 0;
      MakeValid();
    }

    lemma InBuffers(id: nat)
      requires id in manager.windows
      ensures manager.windows[id] in manager.Buffers() && manager.windows[id].shadow.rows in manager.Buffers()
    {
    }

    /** A window is drawn as active and put right below the mouse. */
    method Raise(id: nat, title: seq<(Vector, Color)>)
      requires Valid() && active == 0 && manager.ChangeOk(id, title, WHOLE)
      requires CanBeRaised(manager.layerStack, manager.LayerMap(), mouse, id)
      modifies `active, manager`layerStack, manager.Buffers(), manager.screen.rows, manager.back.rows
      ensures Valid() && active == id && id in old(manager.LayerMap())
      ensures manager.layerStack == RaisedBelow(old(manager.layerStack), id, mouse)
      ensures manager.LayerMap() == old(manager.LayerMap())[id := Written(old(manager.LayerMap())[id], title)]
      ensures manager.windows == old(manager.windows) && manager.positions == old(manager.positions)
      ensures Repainted(old(manager.LayerMap())[id], manager.LayerMap()[id], title)
      ensures OnScreen(manager.screen.rows[..], manager.layerStack, manager.LayerMap(), id, title)
    {
      hide *;
      Facts();
      RaisableFacts(id);
      InBuffers(id);
      ghost var ids, m, was := manager.layerStack, manager.LayerMap(), manager.Stack();
      ghost var l := Written(m[id], title);
      ghost var width, height := manager.screen.width, manager.screen.height;
      WrittenSame(m[id], title);
      WrittenDesktop(ids, m, mouse, id, l, width, height);
      RaisedDesktop(ids, m[id := l], mouse, id, width, height);
      manager.StackIs();
      manager.ComposedShows();
      manager.ChangeFacts(id, title, WHOLE);
      manager.WriteKeepsBuffers(id);
      ghost var b0, s0 := manager.back.rows[..], manager.screen.rows[..];
      manager.WriteWindow(id, title);
      TwoSteps(ids, id, mouse);
      manager.UpDown(id, 0);
      var mouseHeight := manager.GetHeight(mouse);
      manager.UpDown(id, mouseHeight - 1);
      manager.StackIs();
      manager.MemberFacts(id);
      LayerManager.Whole(Area(l));
      manager.Draw(id, WHOLE);
      RaisedRedrawn(Redraw(b0, s0, manager.back.rows[..], manager.screen.rows[..]), ids, m, id, l, mouse, width, height);
      manager.ShowsComposed();
      manager.NowOnScreen(id, m[id], title);
      active := id;
      MakeValid();
    }

    /** A layer is taken away and its place drawn again. */
    method Uncover(id: nat, area: Rect)
      requires Valid() && active == 0 && id != mouse && id != manager.layerStack[0]
      requires id in manager.LayerMap() && area == Area(manager.LayerMap()[id])
      modifies manager`layerStack, manager`windows, manager`positions, manager.screen.rows, manager.back.rows
      ensures Valid() && manager.layerStack == TakenOut(old(manager.layerStack), id)
      ensures manager.LayerMap() == old(manager.LayerMap()) - {id}
    {
      hide *;
      Facts();
      ghost var ids, m := manager.layerStack, manager.LayerMap();
      ghost var width, height := manager.screen.width, manager.screen.height;
      RemovedDesktop(ids, m, mouse, id, width, height);
      manager.StackIs();
      manager.ComposedShows();
      AreaSized(m[id]);
      ghost var b0, s0 := manager.back.rows[..], manager.screen.rows[..];
      manager.RemoveLayer(id);
      manager.StackIs();
      manager.DrawArea(area);
      RemovedRedrawn(Redraw(b0, s0, manager.back.rows[..], manager.screen.rows[..]), ids, m, id, width, height);
      manager.ShowsComposed();
      MakeValid();
    }

    /** Makes another window, or none (0), the active one. */
    method Activate(id: nat, inactiveTitle: seq<(Vector, Color)>, activeTitle: seq<(Vector, Color)>)
      requires Valid()
      requires active != 0 ==> manager.ChangeOk(active, inactiveTitle, WHOLE)
      requires id != 0 ==>
        manager.ChangeOk(id, activeTitle, WHOLE) && CanBeRaised(manager.layerStack, manager.LayerMap(), mouse, id)
      modifies `active, manager`layerStack, manager.Buffers(), manager.screen.rows, manager.back.rows
      ensures Valid() && active == id
      ensures manager.layerStack ==
        if id == 0 || id == old(active) then old(manager.layerStack) else RaisedBelow(old(manager.layerStack), id, mouse)
      ensures manager.LayerMap() == Activated(old(manager.LayerMap()), old(active), id, inactiveTitle, activeTitle)
      ensures manager.windows == old(manager.windows) && manager.positions == old(manager.positions)
      ensures id != old(active) ==>
        TitleDrawn(old(manager.LayerMap()), old(active), inactiveTitle) && TitleDrawn(old(manager.LayerMap()), id, activeTitle)
      ensures forall k | k in old(manager.LayerMap()) && (id == old(active) || (k != id && k != old(active))) ::
        k in manager.LayerMap() && manager.LayerMap()[k] == old(manager.LayerMap())[k]
    {
      ghost var was, m := active, manager.LayerMap();
      hide *;
      if active == id {
        return;
      }
      ReadyTitles(id, inactiveTitle, activeTitle);
      Switch(id, inactiveTitle, activeTitle);
      TitlesDrawn(m, was, id, inactiveTitle, activeTitle);
    }

    /** The rest of Activate: the old window's title, then the new window's and its place. */
    method Switch(id: nat, inactiveTitle: seq<(Vector, Color)>, activeTitle: seq<(Vector, Color)>)
      requires Valid() && active != id
      requires active != 0 ==> manager.ChangeOk(active, inactiveTitle, WHOLE)
      requires id != 0 ==>
        manager.ChangeOk(id, activeTitle, WHOLE) && CanBeRaised(manager.layerStack, manager.LayerMap(), mouse, id)
      modifies `active, manager`layerStack, manager.Buffers(), manager.screen.rows, manager.back.rows
      ensures Valid() && active == id
      ensures manager.layerStack == if id == 0 then old(manager.layerStack) else RaisedBelow(old(manager.layerStack), id, mouse)
      ensures manager.LayerMap() == Activated(old(manager.LayerMap()), old(active), id, inactiveTitle, activeTitle)
      ensures manager.windows == old(manager.windows) && manager.positions == old(manager.positions)
      ensures old(active) != 0 ==> old(active) in manager.layerStack
      ensures id != 0 ==> id in manager.layerStack
    {
      hide *;
      Facts();
      ActivatedIs(manager.LayerMap(), active, id, inactiveTitle, activeTitle);
      RaisedMembers(manager.layerStack, id, mouse);
      if active > 0 {
        Deactivate(inactiveTitle);
      }
      if id > 0 {
        Raise(id, activeTitle);
      }
    }

    /** Both titles fit into their windows, which are opaque. */
    lemma ReadyTitles(id: nat, inactiveTitle: seq<(Vector, Color)>, activeTitle: seq<(Vector, Color)>)
      requires Valid()
      requires active != 0 ==> manager.ChangeOk(active, inactiveTitle, WHOLE)
      requires id != 0 ==>
        manager.ChangeOk(id, activeTitle, WHOLE) && CanBeRaised(manager.layerStack, manager.LayerMap(), mouse, id)
      ensures manager.Valid()
      ensures active != 0 ==> ReadyTitle(manager.LayerMap(), active, inactiveTitle)
      ensures id != 0 ==> ReadyTitle(manager.LayerMap(), id, activeTitle)
    {
      hide *;
      Facts();
      manager.PixelsFit();
      if active != 0 {
        RaisableFacts(active);
        manager.ChangeFacts(active, inactiveTitle, WHOLE);
        TitleFits(manager.LayerMap(), active, inactiveTitle);
      }
      if id != 0 {
        RaisableFacts(id);
        manager.ChangeFacts(id, activeTitle, WHOLE);
        TitleFits(manager.LayerMap(), id, activeTitle);
      }
    }

    /** The title of a window has been drawn in it and is on the screen, as far as nothing is above it; 0 is no window. */
    ghost predicate TitleDrawn(before: map<nat, Layer>, id: nat, title: seq<(Vector, Color)>)
      reads manager, manager.Buffers(), manager.screen.rows
    {
      id != 0 ==>
        && id in before && id in manager.LayerMap() && Repainted(before[id], manager.LayerMap()[id], title)
        && OnScreen(manager.screen.rows[..], manager.layerStack, manager.LayerMap(), id, title)
    }

    lemma TitlesDrawn(m: map<nat, Layer>, was: nat, id: nat, inactiveTitle: seq<(Vector, Color)>, activeTitle: seq<(Vector, Color)>)
      requires manager.Valid() && manager.Composed() && was != id
      requires manager.LayerMap() == Activated(m, was, id, inactiveTitle, activeTitle)
      requires was != 0 ==> was in manager.layerStack && ReadyTitle(m, was, inactiveTitle)
      requires id != 0 ==> id in manager.layerStack && ReadyTitle(m, id, activeTitle)
      ensures TitleDrawn(m, was, inactiveTitle) && TitleDrawn(m, id, activeTitle)
      ensures forall k | k in m && k != id && k != was :: k in manager.LayerMap() && manager.LayerMap()[k] == m[k]
    {
      ActivatedIs(m, was, id, inactiveTitle, activeTitle);
      if was != 0 {
        WrittenSame(m[was], inactiveTitle);
      }
      if id != 0 {
        WrittenSame(m[id], activeTitle);
      }
      hide Written, Repainted, OnScreen;
      if was != 0 {
        manager.NowOnScreen(was, m[was], inactiveTitle);
      }
      if id != 0 {
        manager.NowOnScreen(id, m[id], activeTitle);
      }
    }

    /** Closes a window: no window is active, the layer is gone, and what it covered shows. */
    method CloseLayer(id: nat, inactiveTitle: seq<(Vector, Color)>) returns (r: Outcome)
      requires Valid() && id != mouse && id != manager.layerStack[0]
      requires active != 0 ==> manager.ChangeOk(active, inactiveTitle, WHOLE)
      modifies `active, manager`layerStack, manager`windows, manager`positions
      modifies manager.Buffers(), manager.screen.rows, manager.back.rows
      ensures Valid()
      ensures r == Success <==> id in old(manager.windows)
      ensures r == Success ==> active == 0 && manager.layerStack == TakenOut(old(manager.layerStack), id)
      ensures r == Success ==>
        manager.LayerMap() == Activated(old(manager.LayerMap()), old(active), 0, inactiveTitle, []) - {id}
      ensures r == Success ==> Remaining(old(manager.LayerMap()), manager.LayerMap(), id, old(active), inactiveTitle)
      ensures r == NoSuchEntry ==>
        active == old(active) && manager.layerStack == old(manager.layerStack) && manager.LayerMap() == old(manager.LayerMap())
    {
      hide *;
      Facts();
      if id !in manager.windows {
        return NoSuchEntry;
      }
      ReadyTitles(0, inactiveTitle, []);
      RemainingIs(manager.LayerMap(), id, active, inactiveTitle);
      manager.PlacedFacts(id);
      var area := Rect(manager.positions[id], Vector(manager.windows[id].width, manager.windows[id].height));
      Activate(0, inactiveTitle, []);
      Facts();
      manager.PlacedFacts(id);
      Uncover(id, area);
      r := Success;
    }
  }

  /** All layers but one, as they were, except for a title drawn again. */
  ghost predicate Remaining(m: map<nat, Layer>, m': map<nat, Layer>, id: nat, was: nat, title: seq<(Vector, Color)>) {
    && m'.Keys == m.Keys - {id}
    && forall k | k in m' :: if k != 0 && k == was then Repainted(m[k], m'[k], title) else m'[k] == m[k]
  }

  lemma RemainingIs(m: map<nat, Layer>, id: nat, was: nat, title: seq<(Vector, Color)>)
    requires was != 0 ==> ReadyTitle(m, was, title)
    ensures Remaining(m, Activated(m, was, 0, title, []) - {id}, id, was, title)
  {
    ActivatedIs(m, was, 0, title, []);
    hide Activated, Written, Repainted;
  }

  ghost predicate ReadyTitle(m: map<nat, Layer>, id: nat, title: seq<(Vector, Color)>) {
    id in m && m[id].transparent.None? && Repainted(m[id], Written(m[id], title), title)
  }

  lemma TitleFits(m: map<nat, Layer>, id: nat, title: seq<(Vector, Color)>)
    requires id in m && m[id].transparent.None? && PixelsOk(m)
    requires WritesInside(title, Rect(Vector(0, 0), Vector(m[id].width, m[id].height)))
    ensures ReadyTitle(m, id, title)
  {
    hide WritesInside, Written;
    WrittenRedraws(m[id], title);
  }

  /** What the layers look like after another window has become the active one: two titles are drawn again. */
  function Activated(m: map<nat, Layer>, was: nat, id: nat, inactiveTitle: seq<(Vector, Color)>,
                     activeTitle: seq<(Vector, Color)>):
    map<nat, Layer>
  {
    if was == id then m else Retitled(Retitled(m, was, inactiveTitle), id, activeTitle)
  }

  /** The title of a window drawn again; 0 stands for no window. */
  function Retitled(m: map<nat, Layer>, id: nat, title: seq<(Vector, Color)>): map<nat, Layer> {
    if id != 0 && id in m then m[id := Written(m[id], title)] else m
  }

  lemma ActivatedIs(m: map<nat, Layer>, was: nat, id: nat, inactiveTitle: seq<(Vector, Color)>,
                    activeTitle: seq<(Vector, Color)>)
    ensures was == id ==> Activated(m, was, id, inactiveTitle, activeTitle) == m
    ensures was != id && was == 0 && id in m ==>
      Activated(m, was, id, inactiveTitle, activeTitle) == m[id := Written(m[id], activeTitle)]
    ensures was != id && id == 0 && was in m ==>
      Activated(m, was, id, inactiveTitle, activeTitle) == m[was := Written(m[was], inactiveTitle)]
    ensures was != id && was != 0 && id != 0 && was in m && id in m ==>
      Activated(m, was, id, inactiveTitle, activeTitle) ==
        m[was := Written(m[was], inactiveTitle)][id := Written(m[id], activeTitle)]
  {
  }

  /** To the bottom, then to the height of the mouse less one: right below the mouse. */
  lemma TwoSteps(ids: seq<nat>, id: nat, mouse: nat)
    requires NoDuplicates(ids) && mouse in ids && id != mouse
    ensures
      var others := TakenOut(ids, id);
      var sunk := Insert(others, Min(0, |others|), id);
      && mouse in sunk && IndexOf(sunk, mouse) >= 1 && TakenOut(sunk, id) == others
      && Min(IndexOf(sunk, mouse) - 1, |others|) == IndexOf(others, mouse)
      && Insert(others, IndexOf(others, mouse), id) == RaisedBelow(ids, id, mouse)
  {
    RemoveKeeps(ids, id);
    RemoveOthers(ids, id);
    hide TakenOut, IndexOf, NoDuplicates, Insert;
    var others := TakenOut(ids, id);
    assert mouse in others;
    SunkToBottom(others, id, mouse);
    var sunk := Insert(others, 0, id);
    IndexIn(sunk, mouse);
    assert Min(0, |others|) == 0;
    assert Min(IndexOf(sunk, mouse) - 1, |others|) == IndexOf(others, mouse);
  }

  lemma AreaSized(l: Layer)
    ensures Sized(Area(l))
  {
  }

  lemma RemovedRedrawn(r: Redraw, ids: seq<nat>, m: map<nat, Layer>, id: nat, width: nat, height: nat)
    requires NoDuplicates(ids) && Known(ids, m) && id in m
    requires Shows(r.b0, Values(ids, m), width, height) && Shows(r.s0, Values(ids, m), width, height)
    requires StackOk(Values(TakenOut(ids, id), m - {id}), width, height)
    requires Redrawn(r, Values(TakenOut(ids, id), m - {id}), 0, Area(m[id]), width, height)
    ensures Shows(r.b1, Values(TakenOut(ids, id), m - {id}), width, height)
    ensures Shows(r.s1, Values(TakenOut(ids, id), m - {id}), width, height)
  {
    RemoveKeeps(ids, id);
    assert Values(TakenOut(ids, id), m - {id}) == Values(TakenOut(ids, id), m) by {
      RemoveOthers(ids, id);
    }
    hide *;
    forall x, y | 0 <= x < width && 0 <= y < height && !In(Area(m[id]), x, y)
      ensures Top(Values(ids, m), x, y) == Top(Values(TakenOut(ids, id), m - {id}), x, y)
    {
      OutsideNone(m[id], x, y);
      RemovedTop(ids, m, id, x, y);
    }
    RedrawArea(r, Values(ids, m), Values(TakenOut(ids, id), m - {id}), Area(m[id]), width, height);
  }

  lemma OutsideNone(l: Layer, x: int, y: int)
    requires !In(Area(l), x, y)
    ensures ColorAt(l, x, y).None?
  {
  }

  lemma RaisedRedrawn(r: Redraw, ids: seq<nat>, m: map<nat, Layer>, id: nat, l: Layer, mouse: nat, width: nat,
                      height: nat)
    requires NoDuplicates(ids) && Known(ids, m) && id in m && Area(l) == Area(m[id]) && l.transparent.None?
    requires Shows(r.b0, Values(ids, m), width, height) && Shows(r.s0, Values(ids, m), width, height)
    requires
      var raised := RaisedBelow(ids, id, mouse);
      var stack := Values(raised, m[id := l]);
      && StackOk(stack, width, height) && IndexOf(raised, id) < |raised|
      && Redrawn(r, stack, IndexOf(raised, id), Area(l), width, height)
    ensures Shows(r.b1, Values(RaisedBelow(ids, id, mouse), m[id := l]), width, height)
    ensures Shows(r.s1, Values(RaisedBelow(ids, id, mouse), m[id := l]), width, height)
  {
    hide *;
    var raised := RaisedBelow(ids, id, mouse);
    forall x, y | 0 <= x < width && 0 <= y < height && !In(Area(l), x, y)
      ensures Top(Values(ids, m), x, y) == Top(Values(raised, m[id := l]), x, y)
    {
      RaisedElsewhere(ids, m, id, l, mouse, x, y);
    }
    RedrawLayer(r, Values(ids, m), Values(raised, m[id := l]), IndexOf(raised, id), Area(l), width, height);
  }
}
