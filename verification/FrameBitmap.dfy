/** The first-fit frame allocator over a bitmap of machine words (Kernel/memory_manager.cpp). */
module FrameBitmap {
  import opened Options

  const BITS_PER_LINE := 64

  // ---- Bits of a word ------------------------------------------------------------------------

  predicate Bit(w: nat, k: nat) {
    if k == 0 then w % 2 == 1 else Bit(w / 2, k - 1)
  }

  /** w | (1 << k) */
  function Or(w: nat, k: nat): nat {
    if k == 0 then w / 2 * 2 + 1 else w % 2 + 2 * Or(w / 2, k - 1)
  }

  /** w & ~(1 << k) */
  function AndNot(w: nat, k: nat): nat {
    if k == 0 then w / 2 * 2 else w % 2 + 2 * AndNot(w / 2, k - 1)
  }

  lemma {:induction false} OrBit(w: nat, k: nat, j: nat)
    ensures Bit(Or(w, k), j) <==> j == k || Bit(w, j)
  {
    if k > 0 && j > 0 {
      OrBit(w / 2, k - 1, j - 1);
    }
  }

  lemma {:induction false} AndNotBit(w: nat, k: nat, j: nat)
    ensures Bit(AndNot(w, k), j) <==> j != k && Bit(w, j)
  {
    if k > 0 && j > 0 {
      AndNotBit(w / 2, k - 1, j - 1);
    }
  }

  // ---- Frames ----------------------------------------------------------------------------------

  predicate Used(lines: seq<nat>, f: nat) {
    f / BITS_PER_LINE < |lines| && Bit(lines[f / BITS_PER_LINE], f % BITS_PER_LINE)
  }

  /** The frames of a block are marked or not; all others are as before. */
  ghost predicate Marked(before: seq<nat>, after: seq<nat>, start: nat, n: nat, value: bool) {
    |after| == |before| && forall f: nat :: Used(after, f) <==> if start <= f < start + n then value else Used(before, f)
  }

  ghost predicate FreeRun(lines: seq<nat>, start: nat, n: nat) {
    forall f: nat | start <= f < start + n :: !Used(lines, f)
  }

  lemma WordChanged(lines: seq<nat>, f: nat, value: bool)
    requires f / BITS_PER_LINE < |lines|
    ensures
      var line := f / BITS_PER_LINE;
      var w := if value then Or(lines[line], f % BITS_PER_LINE) else AndNot(lines[line], f % BITS_PER_LINE);
      Marked(lines, lines[line := w], f, 1, value)
  {
    var line := f / BITS_PER_LINE;
    var w := if value then Or(lines[line], f % BITS_PER_LINE) else AndNot(lines[line], f % BITS_PER_LINE);
    var after := lines[line := w];
    forall g: nat
      ensures Used(after, g) <==> if f <= g < f + 1 then value else Used(lines, g)
    {
      assert g / BITS_PER_LINE == line && g % BITS_PER_LINE == f % BITS_PER_LINE <==> g == f;
      OrBit(lines[line], f % BITS_PER_LINE, g % BITS_PER_LINE);
      AndNotBit(lines[line], f % BITS_PER_LINE, g % BITS_PER_LINE);
    }
  }

  lemma MarkedNext(before: seq<nat>, now: seq<nat>, after: seq<nat>, start: nat, i: nat, value: bool)
    requires Marked(before, now, start, i, value) && Marked(now, after, start + i, 1, value)
    ensures Marked(before, after, start, i + 1, value)
  {
    forall f: nat
      ensures Used(after, f) <==> if start <= f < start + (i + 1) then value else Used(before, f)
    {
    }
  }

  // ---- Whole runs -------------------------------------------------------------------------------

  datatype Block = Block(start: nat, size: nat)

  ghost predicate InBlock(b: Block, f: nat) {
    b.start <= f < b.start + b.size
  }

  /** The blocks that are held share no frame, and the used frames are theirs and those used at the beginning. */
  ghost predicate Held(first: seq<nat>, lines: seq<nat>, blocks: seq<Block>) {
    && |lines| == |first|
    && (forall i, j, f: nat | 0 <= i < j < |blocks| && InBlock(blocks[i], f) :: !InBlock(blocks[j], f))
    && (forall i, f: nat | 0 <= i < |blocks| && InBlock(blocks[i], f) :: !Used(first, f) && Used(lines, f))
    && (forall f: nat | Used(lines, f) && !Used(first, f) :: InSome(blocks, f))
    && (forall f: nat | Used(first, f) :: Used(lines, f))
  }

  ghost predicate InSome(blocks: seq<Block>, f: nat) {
    exists i :: 0 <= i < |blocks| && InBlock(blocks[i], f)
  }

  lemma HeldMore(first: seq<nat>, lines: seq<nat>, after: seq<nat>, blocks: seq<Block>, b: Block)
    requires Held(first, lines, blocks) && FreeRun(lines, b.start, b.size) && Marked(lines, after, b.start, b.size, true)
    ensures Held(first, after, blocks + [b])
  {
    var more := blocks + [b];
    forall i, j, f: nat | 0 <= i < j < |more| && InBlock(more[i], f)
      ensures !InBlock(more[j], f)
    {
      assert InBlock(blocks[i], f) && Used(lines, f);
      assert j < |blocks| ==> more[j] == blocks[j];
    }
    forall i, f: nat | 0 <= i < |more| && InBlock(more[i], f)
      ensures !Used(first, f) && Used(after, f)
    {
      assert i < |blocks| ==> InBlock(blocks[i], f);
    }
    forall f: nat | Used(after, f) && !Used(first, f)
      ensures InSome(more, f)
    {
      if InBlock(b, f) {
        assert InBlock(more[|blocks|], f);
      } else {
        var i :| 0 <= i < |blocks| && InBlock(blocks[i], f);
        assert InBlock(more[i], f);
      }
    }
  }

  lemma HeldLess(first: seq<nat>, lines: seq<nat>, after: seq<nat>, blocks: seq<Block>, k: nat)
    requires Held(first, lines, blocks) && k < |blocks| && Marked(lines, after, blocks[k].start, blocks[k].size, false)
    ensures Held(first, after, blocks[..k] + blocks[k + 1..])
  {
    var b, less := blocks[k], blocks[..k] + blocks[k + 1..];
    forall i | 0 <= i < |less|
      ensures less[i] == blocks[if i < k then i else i + 1]
    {
    }
    forall f: nat
      ensures Used(after, f) <==> Used(lines, f) && !InBlock(b, f)
    {
    }
    hide Marked;
    forall f: nat | Used(after, f) && !Used(first, f)
      ensures InSome(less, f)
    {
      var i :| 0 <= i < |blocks| && InBlock(blocks[i], f);
      assert i != k;
      assert InBlock(less[if i < k then i else i - 1], f);
    }
    forall i, f: nat | 0 <= i < |less| && InBlock(less[i], f)
      ensures !Used(first, f) && Used(after, f)
    {
      var j := if i < k then i else i + 1;
      assert InBlock(blocks[j], f);
      assert !InBlock(b, f);
    }
  }

  /** What callers do: allocate so many frames, or give back one of the blocks they hold. */
  datatype Request = Allocate(n: nat) | Release(k: nat)

  /** The blocks held after a request and its result. */
  function NextHeld(blocks: seq<Block>, q: Request, r: Option<nat>): seq<Block> {
    match q
    case Allocate(n) => if n > 0 && r.Some? then blocks + [Block(r.value, n)] else blocks
    case Release(k) => if k < |blocks| then blocks[..k] + blocks[k + 1..] else blocks
  }

  /** The blocks held after the first n requests and their results. */
  function HeldAfter(requests: seq<Request>, results: seq<Option<nat>>, n: nat): seq<Block>
    requires n <= |requests| && n <= |results|
  {
    if n == 0 then [] else NextHeld(HeldAfter(requests, results, n - 1), requests[n - 1], results[n - 1])
  }

  /** First fit: the lowest start of n free frames in a row, all of which get marked; nothing exactly when there is none. */
  ghost predicate FirstFit(lines: seq<nat>, after: seq<nat>, begin: nat, end: nat, n: nat, r: Option<nat>) {
    && (n == 0 ==> r == Some(begin))
    && (r.None? ==> n > 0 && after == lines && forall s: nat | begin <= s && s + n <= end :: !FreeRun(lines, s, n))
    && (r.Some? ==> Marked(lines, after, r.value, n, true) && forall s: nat | begin <= s < r.value :: !FreeRun(lines, s, n))
    && (r.Some? && n > 0 ==> begin <= r.value && r.value + n <= end && FreeRun(lines, r.value, n))
  }

  /** A request carried out while some blocks are held. */
  ghost predicate Carried(lines: seq<nat>, after: seq<nat>, begin: nat, end: nat, blocks: seq<Block>, q: Request, r: Option<nat>) {
    match q
    case Allocate(n) => FirstFit(lines, after, begin, end, n, r)
    case Release(k) =>
      r == None && if k < |blocks| then Marked(lines, after, blocks[k].start, blocks[k].size, false) else after == lines
  }

  // ---- The allocator ------------------------------------------------------------------------------

  class BitmapMemoryManager {
    const allocMap: array<nat>
    var rangeBegin: nat
    var rangeEnd: nat

    constructor (lines: nat)
      ensures Valid() && fresh(allocMap) && allocMap.Length == lines && rangeBegin == 0
      ensures rangeEnd == lines * BITS_PER_LINE
      ensures forall f: nat :: !Used(allocMap[..], f)
    {
      allocMap := new nat[lines](_ => 0);
      rangeBegin, rangeEnd := 0, lines * BITS_PER_LINE;
      new;
      forall f: nat
        ensures !Used(allocMap[..], f)
      {
        if f / BITS_PER_LINE < lines {
          ZeroBits(f % BITS_PER_LINE);
        }
      }
    }

    ghost predicate Valid()
      reads this
    {
      rangeEnd <= allocMap.Length * BITS_PER_LINE
    }

    method GetBit(frame: nat) returns (r: bool)
      requires frame < allocMap.Length * BITS_PER_LINE
      ensures r <==> Used(allocMap[..], frame)
    {
      r := Bit(allocMap[frame / BITS_PER_LINE], frame % BITS_PER_LINE);
    }

    method SetBit(frame: nat, value: bool)
      requires frame < allocMap.Length * BITS_PER_LINE
      modifies allocMap
      ensures Marked(old(allocMap[..]), allocMap[..], frame, 1, value)
    {
      var line, bit := frame / BITS_PER_LINE, frame % BITS_PER_LINE;
      WordChanged(allocMap[..], frame, value);
      ghost var before := allocMap[..];
      hide Or, AndNot, Marked;
      if value {
        allocMap[line] := Or(allocMap[line], bit);
      } else {
        allocMap[line] := AndNot(allocMap[line], bit);
      }
      assert allocMap[..] == before[line := allocMap[line]];
    }

    method SetBits(start: nat, n: nat, value: bool)
      requires start + n <= allocMap.Length * BITS_PER_LINE
      modifies allocMap
      ensures Marked(old(allocMap[..]), allocMap[..], start, n, value)
    {
      ghost var before := allocMap[..];
      NothingMarked(before, start, value);
      hide Marked;
      var i := 0;
      while i < n
        invariant 0 <= i <= n && Marked(before, allocMap[..], start, i, value)
      {
        ghost var now := allocMap[..];
        SetBit(start + i, value);
        MarkedNext(before, now, allocMap[..], start, i, value);
        i := i + 1;
      }
    }

    method MarkAllocated(start: nat, n: nat)
      requires start + n <= allocMap.Length * BITS_PER_LINE
      modifies allocMap
      ensures Marked(old(allocMap[..]), allocMap[..], start, n, true)
    {
      SetBits(start, n, true);
    }

    method Free(start: nat, n: nat)
      requires start + n <= allocMap.Length * BITS_PER_LINE
      modifies allocMap
      ensures Marked(old(allocMap[..]), allocMap[..], start, n, false)
    {
      SetBits(start, n, false);
    }

    method SetMemoryRange(begin: nat, end: nat)
      requires Valid() && end <= allocMap.Length * BITS_PER_LINE
      modifies `rangeBegin, `rangeEnd
      ensures Valid() && rangeBegin == begin && rangeEnd == end
    {
      rangeBegin, rangeEnd := begin, end;
    }

    method Allocate(n: nat) returns (r: Option<nat>)
      requires Valid()
      modifies allocMap
      ensures FirstFit(old(allocMap[..]), allocMap[..], rangeBegin, rangeEnd, n, r)
    {
      var start := rangeBegin;
      while true
        invariant rangeBegin <= start && allocMap[..] == old(allocMap[..])
        invariant forall s: nat | rangeBegin <= s < start :: !FreeRun(allocMap[..], s, n)
        invariant n == 0 ==> start == rangeBegin
        decreases if start < rangeEnd then rangeEnd - start else 0
      {
        var i := FirstUsed(start, n);
        if i < n && start + i >= rangeEnd {
          return None;
        }
        if i == n {
          if n > 0 {
            MarkAllocated(start, n);
          } else {
            NothingMarked(allocMap[..], start, true);
          }
          return Some(start);
        }
        start := start + i + 1;
      }
    }

    /** The inner loop of Allocate: how many frames from a start are free, up to n or the end of the range. */
    method FirstUsed(start: nat, n: nat) returns (i: nat)
      requires Valid()
      ensures i <= n && FreeRun(allocMap[..], start, i)
      ensures i < n ==> start + i >= rangeEnd || Used(allocMap[..], start + i)
      ensures i > 0 ==> start + i <= rangeEnd
    {
      i := 0;
      while i < n
        invariant 0 <= i <= n && FreeRun(allocMap[..], start, i) && (i > 0 ==> start + i <= rangeEnd)
      {
        if start + i >= rangeEnd {
          return;
        }
        var used := GetBit(start + i);
        if used {
          return;
        }
        i := i + 1;
      }
    }
  }

  /** In any run that gives back only what it holds, every request is carried out in the state the ones before have left,
      held blocks never share a frame, and every frame that is used was used at the beginning or belongs to one of them. */
  method Serve(m: BitmapMemoryManager, requests: seq<Request>)
    returns (results: seq<Option<nat>>, blocks: seq<Block>, ghost states: seq<seq<nat>>)
    requires m.Valid()
    modifies m.allocMap
    ensures |results| == |requests| && |states| == |requests| + 1
    ensures states[0] == old(m.allocMap[..]) && states[|requests|] == m.allocMap[..]
    ensures forall i {:trigger requests[i]} | 0 <= i < |requests| ::
      Carried(states[i], states[i + 1], m.rangeBegin, m.rangeEnd, HeldAfter(requests, results, i), requests[i], results[i])
    ensures blocks == HeldAfter(requests, results, |requests|)
    ensures Held(old(m.allocMap[..]), m.allocMap[..], blocks)
  {
    hide *;
    ghost var first := m.allocMap[..];
    results, blocks, states := [], [], [first];
    var i := 0;
    NothingHeld(first, m.allocMap.Length);
    NothingYet(requests, results);
    while i < |requests|
      invariant 0 <= i <= |requests| && m.Valid() && HeldIn(first, m.allocMap[..], blocks, m.allocMap.Length)
      invariant |results| == i && |states| == i + 1 && states[0] == first && states[i] == m.allocMap[..]
      invariant blocks == HeldAfter(requests, results, i)
      invariant forall j {:trigger requests[j]} | 0 <= j < i ::
        Carried(states[j], states[j + 1], m.rangeBegin, m.rangeEnd, HeldAfter(requests, results, j), requests[j], results[j])
    {
      var r, held := ServeOne(m, requests[i], blocks, first);
      HeldPrefix(requests, results, results + [r], i);
      HeldNext(requests, results + [r], i);
      results, states, blocks := results + [r], states + [m.allocMap[..]], held;
      i := i + 1;
    }
    HeldFacts(first, m.allocMap[..], blocks, m.allocMap.Length);
  }

  method ServeOne(m: BitmapMemoryManager, q: Request, blocks: seq<Block>, ghost first: seq<nat>)
    returns (r: Option<nat>, held: seq<Block>)
    requires m.Valid() && HeldIn(first, m.allocMap[..], blocks, m.allocMap.Length)
    modifies m.allocMap
    ensures m.Valid() && held == NextHeld(blocks, q, r) && HeldIn(first, m.allocMap[..], held, m.allocMap.Length)
    ensures Carried(old(m.allocMap[..]), m.allocMap[..], m.rangeBegin, m.rangeEnd, blocks, q, r)
  {
    hide Held, Marked, FreeRun;
    ghost var lines := m.allocMap[..];
    r, held := None, blocks;
    match q {
      case Allocate(n) =>
        r := m.Allocate(n);
        if n > 0 && r.Some? {
          HeldMore(first, lines, m.allocMap[..], blocks, Block(r.value, n));
          held := blocks + [Block(r.value, n)];
        } else if n == 0 {
          HeldSame(first, lines, m.allocMap[..], blocks, m.rangeBegin);
        }
      case Release(k) =>
        if k < |blocks| {
          m.Free(blocks[k].start, blocks[k].size);
          HeldLess(first, lines, m.allocMap[..], blocks, k);
          held := blocks[..k] + blocks[k + 1..];
        }
    }
  }

  ghost predicate HeldIn(first: seq<nat>, lines: seq<nat>, blocks: seq<Block>, length: nat) {
    Held(first, lines, blocks) && forall i | 0 <= i < |blocks| :: blocks[i].start + blocks[i].size <= length * BITS_PER_LINE
  }

  lemma NothingHeld(first: seq<nat>, length: nat)
    ensures HeldIn(first, first, [], length)
  {
  }

  lemma NothingYet(requests: seq<Request>, results: seq<Option<nat>>)
    ensures HeldAfter(requests, results, 0) == []
  {
  }

  lemma HeldNext(requests: seq<Request>, results: seq<Option<nat>>, i: nat)
    requires i < |requests| && i < |results|
    ensures HeldAfter(requests, results, i + 1) == NextHeld(HeldAfter(requests, results, i), requests[i], results[i])
  {
  }

  lemma HeldFacts(first: seq<nat>, lines: seq<nat>, blocks: seq<Block>, length: nat)
    requires HeldIn(first, lines, blocks, length)
    ensures Held(first, lines, blocks)
  {
  }

  lemma HeldSame(first: seq<nat>, lines: seq<nat>, after: seq<nat>, blocks: seq<Block>, start: nat)
    requires Held(first, lines, blocks) && Marked(lines, after, start, 0, true)
    ensures Held(first, after, blocks)
  {
  }

  /** Later results do not matter for what is held before. */
  lemma {:induction false} HeldPrefix(requests: seq<Request>, results: seq<Option<nat>>, more: seq<Option<nat>>, n: nat)
    requires n <= |requests| && n <= |results| && results <= more
    ensures forall j | 0 <= j <= n :: HeldAfter(requests, more, j) == HeldAfter(requests, results, j)
  {
    if n > 0 {
      HeldPrefix(requests, results, more, n - 1);
      assert results[n - 1] == more[n - 1];
    }
  }

  lemma {:induction false} ZeroBits(k: nat)
    ensures !Bit(0, k)
  {
    if k > 0 {
      ZeroBits(k - 1);
    }
  }

  lemma NothingMarked(lines: seq<nat>, start: nat, value: bool)
    ensures Marked(lines, lines, start, 0, value)
  {
  }

  // ---- The memory map at boot -------------------------------------------------------------------

  const BYTES_PER_FRAME := 4096

  datatype MemoryDescriptor = MemoryDescriptor(physicalStart: nat, numberOfPages: nat, available: bool)

  function FirstFrame(d: MemoryDescriptor): nat {
    d.physicalStart / BYTES_PER_FRAME
  }

  function EndFrame(d: MemoryDescriptor): nat {
    FirstFrame(d) + d.numberOfPages
  }

  /** Descriptors begin at frames, in ascending order, and do not overlap. */
  ghost predicate MapOk(map_: seq<MemoryDescriptor>) {
    && (forall i | 0 <= i < |map_| :: map_[i].physicalStart % BYTES_PER_FRAME == 0)
    && forall i, j | 0 <= i < j < |map_| :: EndFrame(map_[i]) <= FirstFrame(map_[j])
  }

  /** A frame of one of the first n descriptors that are available. */
  ghost predicate Available(map_: seq<MemoryDescriptor>, n: nat, f: nat) {
    exists i :: 0 <= i < n <= |map_| && map_[i].available && FirstFrame(map_[i]) <= f < EndFrame(map_[i])
  }

  /** The frame is memory that an available descriptor describes. */
  ghost predicate InAvailable(map_: seq<MemoryDescriptor>, f: nat) {
    exists i :: 0 <= i < |map_| && map_[i].available
      && map_[i].physicalStart <= f * 4096 < map_[i].physicalStart + map_[i].numberOfPages * 4096
  }

  lemma AvailableIs(map_: seq<MemoryDescriptor>)
    requires MapOk(map_)
    ensures forall f: nat :: InAvailable(map_, f) <==> Available(map_, |map_|, f)
  {
    forall f: nat
      ensures InAvailable(map_, f) <==> Available(map_, |map_|, f)
    {
      if InAvailable(map_, f) {
        var i :| 0 <= i < |map_| && map_[i].available
          && map_[i].physicalStart <= f * 4096 < map_[i].physicalStart + map_[i].numberOfPages * 4096;
        assert FirstFrame(map_[i]) <= f < EndFrame(map_[i]);
      }
    }
  }

  /** The end of the last available descriptor among the first n. */
  function AvailableEnd(map_: seq<MemoryDescriptor>, n: nat): nat
    requires n <= |map_|
  {
    if n == 0 then 0 else if map_[n - 1].available then EndFrame(map_[n - 1]) else AvailableEnd(map_, n - 1)
  }

  /** Below the end of what is available, exactly the frames that are not are marked; above the descriptors, none is. */
  ghost predicate Scanned(map_: seq<MemoryDescriptor>, n: nat, lines: seq<nat>, availableEnd: nat)
    requires n <= |map_|
  {
    && availableEnd == AvailableEnd(map_, n) && (n > 0 ==> availableEnd <= EndFrame(map_[n - 1]))
    && (forall f: nat | f < availableEnd :: Used(lines, f) <==> !Available(map_, n, f))
    && (forall f: nat | n == 0 || EndFrame(map_[n - 1]) <= f :: !Used(lines, f))
    && (forall f: nat | availableEnd <= f :: !Available(map_, n, f))
  }

  lemma AvailableNext(map_: seq<MemoryDescriptor>, n: nat, next: nat, f: nat)
    requires n < |map_| && next == n + 1
    ensures Available(map_, next, f) <==>
      Available(map_, n, f) || (map_[n].available && FirstFrame(map_[n]) <= f < EndFrame(map_[n]))
  {
    if Available(map_, n, f) {
      var i :| 0 <= i < n <= |map_| && map_[i].available && FirstFrame(map_[i]) <= f < EndFrame(map_[i]);
      assert i < next;
    }
  }

  /** One descriptor: the gap before it is marked, and so is the descriptor itself if it is not available. */
  lemma ScanNext(map_: seq<MemoryDescriptor>, n: nat, next: nat, lines: seq<nat>, end: nat, gap: seq<nat>,
                 after: seq<nat>)
    requires MapOk(map_) && n < |map_| && next == n + 1 && Scanned(map_, n, lines, end)
    requires
      if end < FirstFrame(map_[n]) then Marked(lines, gap, end, FirstFrame(map_[n]) - end, true) else gap == lines
    requires
      if map_[n].available then after == gap else Marked(gap, after, FirstFrame(map_[n]), map_[n].numberOfPages, true)
    ensures Scanned(map_, next, after, if map_[n].available then EndFrame(map_[n]) else end)
  {
    var d := map_[n];
    assert n > 0 ==> EndFrame(map_[n - 1]) <= FirstFrame(d);
    forall f: nat
      ensures Available(map_, next, f) <==>
        Available(map_, n, f) || (d.available && FirstFrame(d) <= f < EndFrame(d))
      ensures Used(after, f) <==>
        Used(lines, f) || (end <= f < FirstFrame(d)) || (!d.available && FirstFrame(d) <= f < EndFrame(d))
    {
      AvailableNext(map_, n, next, f);
      assert Used(gap, f) <==> Used(lines, f) || (end <= f < FirstFrame(d));
    }
    EndNext(map_, n);
    hide Marked, Available, AvailableEnd, Used;
    var end' := if d.available then EndFrame(d) else end;
    assert end <= FirstFrame(d);
    forall f: nat
      ensures f < end' ==> (Used(after, f) <==> !Available(map_, next, f))
      ensures EndFrame(d) <= f ==> !Used(after, f)
      ensures end' <= f ==> !Available(map_, next, f)
    {
      assert FirstFrame(d) <= f ==> !Used(lines, f);
    }
  }

  lemma EndNext(map_: seq<MemoryDescriptor>, n: nat)
    requires n < |map_|
    ensures AvailableEnd(map_, n + 1) == if map_[n].available then EndFrame(map_[n]) else AvailableEnd(map_, n)
  {
  }

  /** The loop of InitializeMemoryManager: in its range, exactly the frames of available descriptors are free. */
  method InitializeMemoryManager(map_: seq<MemoryDescriptor>, lines: nat) returns (m: BitmapMemoryManager)
    requires MapOk(map_) && forall i | 0 <= i < |map_| :: EndFrame(map_[i]) <= lines * BITS_PER_LINE
    ensures fresh(m) && fresh(m.allocMap) && m.Valid()
    ensures m.rangeBegin == 1 && m.rangeEnd == AvailableEnd(map_, |map_|)
    ensures forall f: nat | f < m.rangeEnd :: Used(m.allocMap[..], f) <==> !Available(map_, |map_|, f)
    ensures forall f: nat :: f < m.rangeEnd && !Used(m.allocMap[..], f) <==> InAvailable(map_, f)
  {
    m := new BitmapMemoryManager(lines);
    var availableEnd: nat := 0;
    var i := 0;
    while i < |map_|
      invariant 0 <= i <= |map_| && m.Valid() && m.allocMap.Length == lines && fresh(m) && fresh(m.allocMap)
      invariant availableEnd % BYTES_PER_FRAME == 0 && availableEnd / BYTES_PER_FRAME <= lines * BITS_PER_LINE
      invariant Scanned(map_, i, m.allocMap[..], availableEnd / BYTES_PER_FRAME)
    {
      var desc := map_[i];
      ghost var before, end := m.allocMap[..], availableEnd / BYTES_PER_FRAME;
      if availableEnd < desc.physicalStart {
        m.MarkAllocated(availableEnd / BYTES_PER_FRAME, (desc.physicalStart - availableEnd) / BYTES_PER_FRAME);
      }
      ghost var gap := m.allocMap[..];
      var physicalEnd := desc.physicalStart + desc.numberOfPages * BYTES_PER_FRAME;
      if desc.available {
        availableEnd := physicalEnd;
      } else {
        m.MarkAllocated(desc.physicalStart / BYTES_PER_FRAME, desc.numberOfPages * BYTES_PER_FRAME / BYTES_PER_FRAME);
      }
      ScanNext(map_, i, i + 1, before, end, gap, m.allocMap[..]);
      i := i + 1;
    }
    m.SetMemoryRange(1, availableEnd / BYTES_PER_FRAME);
    AvailableIs(map_);
  }
}
