/** The bump allocator of the USB driver (Kernel/usb/memory.cpp). */
module UsbPool {
  import opened Options
  import opened NumberBits

  // ---- Ceil ------------------------------------------------------------------------------------

  const WORD: nat := 64

  function Ceil(value: nat, alignment: nat): nat
    requires alignment > 0
  {
    And(value + alignment - 1, Not(alignment - 1, WORD), WORD)
  }

  /** A multiple of a power of two: its lowest bits are zero. */
  predicate Aligned(p: nat, k: nat) {
    Cleared(p, k) == p
  }

  lemma {:induction false} AlignedIsMultiple(p: nat, k: nat)
    ensures Aligned(p, k) <==> p % Pow2(k) == 0
  {
    if k > 0 {
      AlignedIsMultiple(p / 2, k - 1);
      HalfMultiple(p, Pow2(k - 1));
    }
  }

  lemma HalfMultiple(p: nat, half: nat)
    requires half > 0
    ensures p % (2 * half) == 0 <==> p % 2 == 0 && p / 2 % half == 0
  {
    if p % (2 * half) == 0 {
      var q := p / (2 * half);
      assert p == 2 * (half * q);
      assert p / 2 == half * q;
      MultipleOf(half, q);
    } else if p % 2 == 0 && p / 2 % half == 0 {
      var q := p / 2 / half;
      assert p / 2 == half * q;
      assert p == (2 * half) * q;
      MultipleOf(2 * half, q);
    }
  }

  lemma {:induction false} AtLeastOnce(d: nat, q: nat)
    requires q >= 1
    ensures d * q >= d
  {
    if q > 1 {
      AtLeastOnce(d, q - 1);
      assert d * q == d * (q - 1) + d;
    }
  }

  lemma MultipleOf(d: nat, q: nat)
    requires d > 0
    ensures d * q % d == 0
  {
    var x := d * q;
    var p, r := x / d, x % d;
    assert x == d * p + r;
    if q > p {
      assert d * (q - p) == r;
      AtLeastOnce(d, q - p);
    } else if q < p {
      assert d * (p - q) == -r;
      AtLeastOnce(d, p - q);
    }
  }

  lemma CeilIs(value: nat, alignment: nat)
    requires alignment > 0
    ensures Ceil(value, alignment) == And(value + alignment - 1, Not(alignment - 1, WORD), WORD)
  {
  }

  /** The mask form rounds up to the next multiple of a power of two. */
  lemma CeilRoundsUp(value: nat, k: nat)
    requires k <= WORD && value + Pow2(k) <= Pow2(WORD)
    ensures Aligned(Ceil(value, Pow2(k)), k) && value <= Ceil(value, Pow2(k)) < value + Pow2(k)
  {
    hide And, Not, Cleared, Pow2, Ceil, WORD;
    var x := value + Pow2(k) - 1;
    CeilIs(value, Pow2(k));
    MaskClears(x, k, WORD);
    ClearedIs(x, k);
  }

  /** A multiple of a greater power of two is one of a smaller. */
  lemma {:induction false} AlignedLess(p: nat, k: nat, l: nat)
    requires k <= l && Aligned(p, l)
    ensures Aligned(p, k)
  {
    if k > 0 {
      AlignedLess(p / 2, k - 1, l - 1);
    }
  }

  /** No two addresses between neighbouring multiples are apart. */
  lemma {:induction false} SamePage(b: nat, p: nat, k: nat)
    requires Aligned(b, k) && b <= p < b + Pow2(k)
    ensures Shr(p, k) == Shr(b, k)
  {
    if k > 0 {
      SamePage(b / 2, p / 2, k - 1);
    }
  }

  // ---- The allocator -----------------------------------------------------------------------------

  datatype Block = Block(start: nat, size: nat)

  /** How an allocation may be constrained: by powers of two, the alignment not greater than the boundary. */
  datatype Demand = Demand(size: nat, alignment: Option<nat>, boundary: Option<nat>)

  predicate DemandOk(d: Demand) {
    && (d.alignment.Some? ==> d.alignment.value <= 31) && (d.boundary.Some? ==> d.boundary.value <= 31)
    && (d.alignment.Some? && d.boundary.Some? ==> d.alignment.value <= d.boundary.value)
  }

  /** The block begins at its alignment and does not cross a boundary or, if it is larger than that, begins at one. */
  ghost predicate Satisfies(b: Block, d: Demand) {
    && b.size == d.size
    && (d.alignment.Some? ==> Aligned(b.start, d.alignment.value))
    && (d.boundary.Some? ==> WithinBoundary(b, d.boundary.value))
  }

  ghost predicate WithinBoundary(b: Block, k: nat) {
    && (0 < b.size <= Pow2(k) ==> Shr(b.start, k) == Shr(b.start + b.size - 1, k))
    && (b.size > Pow2(k) ==> Aligned(b.start, k))
  }

  /** The lowest address from a given one on at which a block keeps its demand. */
  ghost predicate Lowest(from: nat, p: nat, d: Demand) {
    && from <= p && Satisfies(Block(p, d.size), d)
    && forall q | from <= q < p :: !Satisfies(Block(q, d.size), d)
  }

  /** One allocation: the lowest address that keeps the demand, or null exactly if its block would leave the pool. */
  ghost predicate Served(from: nat, to: nat, limit: nat, d: Demand, r: Option<nat>) {
    && Lowest(from, if r.Some? then r.value else to, d)
    && (r.Some? ==> to == r.value + d.size <= limit)
    && (r.None? ==> to + d.size > limit)
  }

  class Pool {
    const base: nat
    const poolSize: nat
    var allocPtr: nat

    constructor (base: nat, poolSize: nat)
      ensures this.base == base && this.poolSize == poolSize && allocPtr == base
    {
      this.base, this.poolSize, allocPtr := base, poolSize, base;
    }

    /** usb::AllocMem; None stands for the null pointer. */
    method AllocMem(d: Demand) returns (r: Option<nat>)
      requires DemandOk(d) && base <= allocPtr && allocPtr + Pow2(33) + d.size <= Pow2(WORD)
      modifies this
      ensures old(allocPtr) <= allocPtr <= old(allocPtr) + Pow2(32) + d.size
      ensures Served(old(allocPtr), allocPtr, base + poolSize, d, r)
    {
      hide *;
      DemandFacts(d);
      ghost var from, k := allocPtr, 0;
      if d.alignment.Some? {
        k := d.alignment.value;
        CeilRoundsUp(allocPtr, k);
        allocPtr := Ceil(allocPtr, Pow2(d.alignment.value));
      }
      NoAlignment(allocPtr);
      LowestAligned(from, allocPtr, k, d);
      if d.boundary.Some? {
        CeilRoundsUp(allocPtr, d.boundary.value);
        var nextBoundary := Ceil(allocPtr, Pow2(d.boundary.value));
        LowestInBoundary(from, allocPtr, nextBoundary, d);
        if nextBoundary < allocPtr + d.size {
          allocPtr := nextBoundary;
        }
      }
      ServedAt(from, allocPtr, base + poolSize, d);
      if base + poolSize < allocPtr + d.size {
        return None;
      }
      var p := allocPtr;
      allocPtr := allocPtr + d.size;
      return Some(p);
    }
  }

  lemma ServedAt(from: nat, p: nat, limit: nat, d: Demand)
    requires Lowest(from, p, d)
    ensures
      if limit < p + d.size then Served(from, p, limit, d, None)
      else Served(from, p + d.size, limit, d, Some(p))
  {
  }

  lemma ServedFacts(from: nat, to: nat, limit: nat, d: Demand, r: Option<nat>)
    requires Served(from, to, limit, d, r)
    ensures r.Some? ==> from <= r.value && to == r.value + d.size <= limit && Satisfies(Block(r.value, d.size), d)
    ensures from <= to
  {
  }

  lemma DemandFacts(d: Demand)
    requires DemandOk(d)
    ensures d.alignment.Some? ==> d.alignment.value <= WORD && Pow2(d.alignment.value) <= Pow2(31)
    ensures d.boundary.Some? ==> d.boundary.value <= WORD && Pow2(d.boundary.value) <= Pow2(31)
    ensures 2 * Pow2(31) == Pow2(32) && 2 * Pow2(32) == Pow2(33)
  {
    hide Pow2;
    Powers();
    if d.alignment.Some? {
      PowOrder(d.alignment.value, 31);
    }
    if d.boundary.Some? {
      PowOrder(d.boundary.value, 31);
    }
  }

  lemma Powers()
    ensures 2 * Pow2(31) == Pow2(32) && 2 * Pow2(32) == Pow2(33) && 31 <= WORD
  {
  }

  /** A block that begins at a boundary, or ends before the next one, does not cross one. */
  lemma NoStraddle(p: nat, size: nat, k: nat, next: nat)
    requires Aligned(next, k) && (p == next || (p < next < p + Pow2(k) && p + size <= next))
    ensures 0 < size <= Pow2(k) ==> Shr(p, k) == Shr(p + size - 1, k)
  {
    if 0 < size <= Pow2(k) {
      ClearedIs(p, k);
      var b := Cleared(p, k);
      if p != next {
        NextMultiple(b, next, k);
        AlignedPlus(b, k);
        if b + Pow2(k) < next {
          NextMultiple(b + Pow2(k), next, k);
        }
      } else {
        assert b == p;
      }
      SamePage(b, p, k);
      SamePage(b, p + size - 1, k);
    }
  }

  lemma {:induction false} AlignedPlus(b: nat, k: nat)
    requires Aligned(b, k)
    ensures Aligned(b + Pow2(k), k)
  {
    if k > 0 {
      AlignedPlus(b / 2, k - 1);
      assert (b + Pow2(k)) / 2 == b / 2 + Pow2(k - 1);
    }
  }

  lemma {:induction false} Separates(q: nat, b: nat, e: nat, k: nat)
    requires Aligned(b, k) && q < b <= e
    ensures Shr(q, k) < Shr(e, k)
  {
    if k > 0 {
      Separates(q / 2, b / 2, e / 2, k - 1);
    }
  }

  lemma NoAlignment(p: nat)
    ensures Aligned(p, 0) && Pow2(0) == 1
  {
  }

  /** Rounding up leaves out no multiple. */
  lemma LowestMultiple(from: nat, p: nat, q: nat, k: nat)
    requires Aligned(p, k) && p < from + Pow2(k) && from <= q < p
    ensures !Aligned(q, k)
  {
    if Aligned(q, k) {
      NextMultiple(q, p, k);
    }
  }

  /** Without a boundary, rounding up to the alignment finds the lowest address. */
  lemma LowestAligned(from: nat, p: nat, k: nat, d: Demand)
    requires from <= p < from + Pow2(k) && Aligned(p, k) && k == (if d.alignment.Some? then d.alignment.value else 0)
    ensures d.boundary.None? ==> Lowest(from, p, d)
    ensures AlignedOnly(from, p, d)
  {
    forall q | from <= q < p
      ensures d.alignment.Some? && !Aligned(q, d.alignment.value)
    {
      LowestMultiple(from, p, q, k);
    }
  }

  /** The lowest address as far as the alignment goes. */
  ghost predicate AlignedOnly(from: nat, p: nat, d: Demand) {
    && from <= p && (d.alignment.Some? ==> Aligned(p, d.alignment.value))
    && (d.alignment.None? ==> p == from)
    && (d.alignment.Some? ==> forall q | from <= q < p :: !Aligned(q, d.alignment.value))
  }

  /** With a boundary, it is that address, or the next boundary if the block would cross it. */
  lemma LowestInBoundary(from: nat, p: nat, next: nat, d: Demand)
    requires DemandOk(d) && d.boundary.Some? && AlignedOnly(from, p, d)
    requires Aligned(next, d.boundary.value) && p <= next < p + Pow2(d.boundary.value)
    ensures Lowest(from, if next < p + d.size then next else p, d)
  {
    hide Aligned, Shr, Pow2;
    var k := d.boundary.value;
    forall q | from <= q < p
      ensures !Satisfies(Block(q, d.size), d)
    {
      assert d.alignment.Some? ==> !Aligned(q, d.alignment.value);
    }
    if next < p + d.size {
      NoStraddle(next, d.size, k, next);
      if d.alignment.Some? {
        AlignedLess(next, d.alignment.value, k);
      }
      forall q | p <= q < next
        ensures !WithinBoundary(Block(q, d.size), k)
      {
        LowestMultiple(p, next, q, k);
        Separates(q, next, q + d.size - 1, k);
      }
    } else {
      NoStraddle(p, d.size, k, next);
    }
  }

  /** Between a multiple and the next one there is none. */
  lemma {:induction false} NextMultiple(b: nat, next: nat, k: nat)
    requires Aligned(b, k) && Aligned(next, k) && b < next
    ensures b + Pow2(k) <= next
  {
    if k > 0 {
      NextMultiple(b / 2, next / 2, k - 1);
    }
  }

  function Total(demands: seq<Demand>): nat {
    if demands == [] then 0 else demands[0].size + Pow2(32) + Total(demands[1..])
  }

  /** Over a whole run, every block lies in the pool, keeps its demand, and shares no address with an earlier one;
      each is the lowest one behind the place where the call before left off. */
  method Run(pool: Pool, demands: seq<Demand>) returns (blocks: seq<Option<Block>>, ghost places: seq<nat>)
    requires pool.allocPtr == pool.base && pool.base + Total(demands) + Pow2(33) <= Pow2(WORD)
    requires forall i | 0 <= i < |demands| :: DemandOk(demands[i])
    modifies pool
    ensures |blocks| == |demands| && |places| == |demands| + 1 && places[0] == pool.base
    ensures forall i | 0 <= i < |blocks| && blocks[i].Some? :: Satisfies(blocks[i].value, demands[i])
    ensures forall i | 0 <= i < |blocks| && blocks[i].Some? ::
      pool.base <= blocks[i].value.start && blocks[i].value.start + blocks[i].value.size <= pool.base + pool.poolSize
    ensures forall i, j | 0 <= i < j < |blocks| && blocks[i].Some? && blocks[j].Some? ::
      blocks[i].value.start + blocks[i].value.size <= blocks[j].value.start
    ensures forall i {:trigger blocks[i]} | 0 <= i < |blocks| ::
      Served(places[i], places[i + 1], pool.base + pool.poolSize, demands[i], Start(blocks[i]))
  {
    hide *;
    blocks, places := [], [pool.base];
    var i := 0;
    assert demands[0..] == demands;
    while i < |demands|
      invariant 0 <= i <= |demands| && |blocks| == i
      invariant |places| == i + 1 && places[0] == pool.base && places[i] == pool.allocPtr
      invariant pool.base <= pool.allocPtr && pool.allocPtr + Total(demands[i..]) + Pow2(33) <= Pow2(WORD)
      invariant forall k | 0 <= k < i && blocks[k].Some? :: Satisfies(blocks[k].value, demands[k])
      invariant forall k | 0 <= k < i && blocks[k].Some? ::
        pool.base <= blocks[k].value.start && blocks[k].value.start + blocks[k].value.size <= pool.allocPtr
      invariant forall k | 0 <= k < i && blocks[k].Some? ::
        blocks[k].value.start + blocks[k].value.size <= pool.base + pool.poolSize
      invariant forall j, k | 0 <= j < k < i && blocks[j].Some? && blocks[k].Some? ::
        blocks[j].value.start + blocks[j].value.size <= blocks[k].value.start
      invariant forall k {:trigger blocks[k]} | 0 <= k < i ::
        Served(places[k], places[k + 1], pool.base + pool.poolSize, demands[k], Start(blocks[k]))
    {
      TotalNext(demands, i);
      var r := pool.AllocMem(demands[i]);
      ServedFacts(places[i], pool.allocPtr, pool.base + pool.poolSize, demands[i], r);
      var block := if r.Some? then Some(Block(r.value, demands[i].size)) else None;
      StartIs(r, demands[i].size);
      blocks, places := blocks + [block], places + [pool.allocPtr];
      i := i + 1;
    }
  }

  function Start(b: Option<Block>): Option<nat> {
    if b.None? then None else Some(b.value.start)
  }

  lemma StartIs(r: Option<nat>, size: nat)
    ensures Start(if r.Some? then Some(Block(r.value, size)) else None) == r
  {
  }

  lemma TotalNext(demands: seq<Demand>, i: nat)
    requires i < |demands|
    ensures Total(demands[i..]) == demands[i].size + Pow2(32) + Total(demands[i + 1..])
    ensures demands[..] == demands
  {
    assert demands[i..][1..] == demands[i + 1..];
  }
}
