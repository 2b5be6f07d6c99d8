/** Bits of numbers, the lowest first, and their reversal (apps/gview/stb_image.h). */
module HuffmanBits {
  import opened Messages
  import opened NumberBits

  /** v & ((1 << n) - 1). */
  function Low(v: nat, n: nat): (r: nat)
    ensures r < Pow2(n)
  {
    if n == 0 then 0 else v % 2 + 2 * Low(v / 2, n - 1)
  }

  /** The n lowest bits in reverse order. */
  function Rev(v: nat, n: nat): (r: nat)
    ensures r < Pow2(n)
  {
    if n == 0 then 0 else (if v % 2 == 1 then Pow2(n - 1) else 0) + Rev(v / 2, n - 1)
  }

  /** One more bit of a stream is the lowest bit of the reversed ones. */
  lemma {:induction false} RevNext(v: nat, n: nat)
    ensures Rev(v, n + 1) == 2 * Rev(v, n) + Shr(v, n) % 2
  {
    if n > 0 {
      RevNext(v / 2, n - 1);
    }
  }

  /** The first s bits of n reversed ones are the s first bits reversed. */
  lemma {:induction false} RevPrefix(v: nat, s: nat, n: nat)
    requires s <= n
    ensures Shr(Rev(v, n), n - s) == Rev(v, s)
    decreases n
  {
    if s < n {
      RevNext(v, n - 1);
      assert Rev(v, n) / 2 == Rev(v, n - 1);
      RevPrefix(v, s, n - 1);
    }
  }

  lemma {:induction false} RevOfLow(v: nat, s: nat, n: nat)
    requires s <= n
    ensures Rev(Low(v, n), s) == Rev(v, s)
  {
    if s > 0 {
      RevOfLow(v / 2, s - 1, n - 1);
    }
  }

  lemma {:induction false} LowIs(v: nat, n: nat)
    requires v < Pow2(n)
    ensures Low(v, n) == v
  {
    if n > 0 {
      LowIs(v / 2, n - 1);
    }
  }

  /** Bits above the n lowest ones do not matter for those. */
  lemma {:induction false} HighRev(v: nat, rest: nat, n: nat, s: nat)
    requires s <= n
    ensures Rev(v + Pow2(n) * rest, s) == Rev(v, s)
    decreases s
  {
    hide Pow2;
    if s > 0 {
      var w := v + Pow2(n) * rest;
      HalfHigh(v, rest, n);
      HighRev(v / 2, rest, n - 1, s - 1);
      assert Rev(w, s) == (if v % 2 == 1 then Pow2(s - 1) else 0) + Rev(v / 2, s - 1);
    }
  }

  lemma {:induction false} HighLow(v: nat, rest: nat, n: nat, s: nat)
    requires s <= n
    ensures Low(v + Pow2(n) * rest, s) == Low(v, s)
    decreases s
  {
    hide Pow2;
    if s > 0 {
      var w := v + Pow2(n) * rest;
      HalfHigh(v, rest, n);
      HighLow(v / 2, rest, n - 1, s - 1);
      assert Low(w, s) == v % 2 + 2 * Low(v / 2, s - 1);
    }
  }

  /** The low bits, and what is left when they are shifted out: quotient and remainder. */
  lemma {:induction false} SplitBits(v: nat, n: nat)
    ensures v == Pow2(n) * Shr(v, n) + Low(v, n)
  {
    if n > 0 {
      SplitBits(v / 2, n - 1);
      assert Pow2(n) * Shr(v, n) == 2 * (Pow2(n - 1) * Shr(v / 2, n - 1));
    }
  }

  lemma {:induction false} ShiftTwice(v: nat, m: nat, n: nat)
    ensures Shr(v, m + n) == Shr(Shr(v, m), n)
  {
    if m > 0 {
      ShiftTwice(v / 2, m - 1, n);
    }
  }

  /** Byte i of a stream is in its bits from 8 * i on, the lowest bit first (section 3.1.1 of RFC 1951). */
  lemma {:induction false} ByteOfStream(bytes: seq<byte>, i: nat)
    requires i < |bytes|
    ensures Low(Shr(BytesNumber(bytes), 8 * i), 8) == bytes[i] as nat
    decreases i
  {
    if i == 0 {
      LowestByte(bytes);
    } else {
      ByteOfStream(bytes[1..], i - 1);
      LowestByte(bytes);
      ShiftTwice(BytesNumber(bytes), 8, 8 * (i - 1));
      hide Shr, Low, BytesNumber;
      assert 8 + 8 * (i - 1) == 8 * i;
    }
  }

  lemma LowestByte(bytes: seq<byte>)
    requires bytes != []
    ensures Low(Shr(BytesNumber(bytes), 0), 8) == bytes[0] as nat
    ensures Shr(BytesNumber(bytes), 8) == BytesNumber(bytes[1..])
  {
    var first, rest := bytes[0] as nat, BytesNumber(bytes[1..]);
    EightBits();
    assert BytesNumber(bytes) == first + Pow2(8) * rest;
    HighLow(first, rest, 8, 8);
    LowIs(first, 8);
    HighShr(first, rest, 8, 8);
    ShrBound(first, 8, 8);
    hide Pow2, Low, BytesNumber;
    assert Shr(BytesNumber(bytes), 0) == BytesNumber(bytes);
  }

  lemma EightBits()
    ensures Pow2(8) == 256 && Pow2(0) == 1
  {
    assert Pow2(4) == 16;
  }

  predicate BitOf(v: nat, k: nat) {
    Shr(v, k) % 2 == 1
  }

  /** Reversal exchanges bit k and bit n - 1 - k. */
  lemma {:induction false} RevBit(v: nat, n: nat, k: nat)
    requires k < n
    ensures BitOf(Rev(v, n), n - 1 - k) == BitOf(v, k)
    decreases n
  {
    if k == n - 1 {
      RevNext(v, n - 1);
    } else {
      RevNext(v, n - 1);
      RevBit(v, n - 1, k);
      assert Rev(v, n) / 2 == Rev(v, n - 1);
      assert Shr(Rev(v, n), n - 1 - k) == Shr(Rev(v, n - 1), n - 2 - k);
    }
  }

  lemma {:induction false} SameBits(a: nat, b: nat, n: nat)
    requires a < Pow2(n) && b < Pow2(n) && forall k: nat | k < n :: BitOf(a, k) == BitOf(b, k)
    ensures a == b
    decreases n
  {
    if n > 0 {
      assert BitOf(a, 0) == BitOf(b, 0);
      forall k: nat | k < n - 1
        ensures BitOf(a / 2, k) == BitOf(b / 2, k)
      {
        assert BitOf(a, k + 1) == BitOf(b, k + 1);
      }
      SameBits(a / 2, b / 2, n - 1);
    }
  }

  // ---- Numbers with the same low bits -----------------------------------------------------------

  lemma {:induction false} LowAgain(v: nat, s: nat)
    ensures Low(v + Pow2(s), s) == Low(v, s)
  {
    if s > 0 {
      LowAgain(v / 2, s - 1);
      assert (v + Pow2(s)) / 2 == v / 2 + Pow2(s - 1);
    }
  }

  lemma {:induction false} LowApart(x: nat, y: nat, s: nat)
    requires x < y && Low(x, s) == Low(y, s)
    ensures y - x >= Pow2(s)
    decreases s
  {
    if s > 0 {
      LowApart(x / 2, y / 2, s - 1);
    }
  }

  /** Reversing twice. */
  lemma {:induction false} RevRev(v: nat, n: nat)
    ensures Rev(Rev(v, n), n) == Low(v, n)
  {
    if n > 0 {
      RevNext(Rev(v, n), n - 1);
      RevTop(v, n);
      RevRev(v / 2, n - 1);
    }
  }

  lemma RevTop(v: nat, n: nat)
    requires n > 0
    ensures Shr(Rev(v, n), n - 1) % 2 == v % 2
    ensures Rev(Rev(v, n), n - 1) == Rev(Rev(v / 2, n - 1), n - 1)
  {
    RevPrefix(v, 1, n);
    assert Rev(v, 1) == (if v % 2 == 1 then Pow2(0) else 0) + Rev(v / 2, 0);
    assert Rev(v, n) == Rev(v / 2, n - 1) + Pow2(n - 1) * (v % 2);
    HighRev(Rev(v / 2, n - 1), v % 2, n - 1, n - 1);
  }

  // ---- stbi__bitreverse16 on words of sixteen bits, the lowest first --------------------------------

  function ToBits(v: nat, n: nat): (r: seq<bool>)
    ensures |r| == n
  {
    if n == 0 then [] else [v % 2 == 1] + ToBits(v / 2, n - 1)
  }

  function Value(b: seq<bool>): nat {
    if b == [] then 0 else (if b[0] then 1 else 0) + 2 * Value(b[1..])
  }

  predicate Word(b: seq<bool>) {
    |b| == 16
  }

  function And(a: seq<bool>, b: seq<bool>): seq<bool>
    requires Word(a) && Word(b)
  {
    seq(16, i requires 0 <= i < 16 => a[i] && b[i])
  }

  function Or(a: seq<bool>, b: seq<bool>): seq<bool>
    requires Word(a) && Word(b)
  {
    seq(16, i requires 0 <= i < 16 => a[i] || b[i])
  }

  function ShiftRight(a: seq<bool>, k: nat): seq<bool>
    requires Word(a)
  {
    seq(16, i requires 0 <= i < 16 => i + k < 16 && a[i + k])
  }

  function ShiftLeft(a: seq<bool>, k: nat): seq<bool>
    requires Word(a)
  {
    seq(16, i requires 0 <= i < 16 => i >= k && a[i - k])
  }

  /** ((n & high) >> d) | ((n & low) << d) */
  function Swap(n: seq<bool>, high: nat, low: nat, d: nat): (r: seq<bool>)
    requires Word(n)
    ensures Word(r)
  {
    Or(ShiftRight(And(n, ToBits(high, 16)), d), ShiftLeft(And(n, ToBits(low, 16)), d))
  }

  function BitReverse16(v: nat): (r: seq<bool>)
    ensures Word(r)
  {
    Swap(Swap(Swap(Swap(ToBits(v, 16), 0xAAAA, 0x5555, 1), 0xCCCC, 0x3333, 2), 0xF0F0, 0x0F0F, 4), 0xFF00, 0x00FF, 8)
  }

  /** Whether bit i is in the upper half of its group of 2 * d bits. */
  predicate Upper(i: nat, d: nat) {
    if d == 1 then i % 2 >= 1 else if d == 2 then i % 4 >= 2 else if d == 4 then i % 8 >= 4 else i % 16 >= 8
  }

  /** The word of the upper halves, or of the lower ones, from bit i on. */
  function Mask(d: nat, upper: bool, i: nat): nat
    requires i <= 16
    decreases 16 - i
  {
    if i == 16 then 0 else (if Upper(i, d) == upper then 1 else 0) + 2 * Mask(d, upper, i + 1)
  }

  lemma {:induction false} MaskBit(d: nat, upper: bool, i: nat, n: nat, k: nat, j: nat)
    requires i + n == 16 && k < n && j == i + k
    ensures ToBits(Mask(d, upper, i), n)[k] == (Upper(j, d) == upper)
    decreases k
  {
    hide *;
    MaskHalf(d, upper, i);
    FirstBit(Mask(d, upper, i), n, k);
    if k > 0 {
      MaskBit(d, upper, i + 1, n - 1, k - 1, j);
    }
  }

  lemma MaskHalf(d: nat, upper: bool, i: nat)
    requires i < 16
    ensures Mask(d, upper, i) % 2 == (if Upper(i, d) == upper then 1 else 0)
    ensures Mask(d, upper, i) / 2 == Mask(d, upper, i + 1)
  {
    hide Upper;
  }

  lemma FirstBit(v: nat, n: nat, k: nat)
    requires k < n
    ensures ToBits(v, n)[k] == if k == 0 then v % 2 == 1 else ToBits(v / 2, n - 1)[k - 1]
  {
  }

  function Part(d: nat, upper: bool, i: nat): nat {
    (if Upper(i, d) == upper then 1 else 0) + (if Upper(i + 1, d) == upper then 2 else 0)
      + (if Upper(i + 2, d) == upper then 4 else 0) + (if Upper(i + 3, d) == upper then 8 else 0)
  }

  lemma FourBits(d: nat, upper: bool, i: nat)
    requires i <= 12
    ensures Mask(d, upper, i) == Part(d, upper, i) + 16 * Mask(d, upper, i + 4)
  {
    hide Upper;
    assert Mask(d, upper, i + 2) == (if Upper(i + 2, d) == upper then 1 else 0) + 2 * Mask(d, upper, i + 3);
  }

  lemma MaskParts(d: nat, upper: bool)
    ensures Mask(d, upper, 0) == Part(d, upper, 0) + 16 * Part(d, upper, 4) + 256 * Part(d, upper, 8) + 4096 * Part(d, upper, 12)
  {
    FourBits(d, upper, 0);
    FourBits(d, upper, 4);
    FourBits(d, upper, 8);
    FourBits(d, upper, 12);
    assert Mask(d, upper, 16) == 0;
    hide Mask, Part;
  }

  lemma MaskValues()
    ensures Mask(1, true, 0) == 0xAAAA && Mask(1, false, 0) == 0x5555
    ensures Mask(2, true, 0) == 0xCCCC && Mask(2, false, 0) == 0x3333
    ensures Mask(4, true, 0) == 0xF0F0 && Mask(4, false, 0) == 0x0F0F
    ensures Mask(8, true, 0) == 0xFF00 && Mask(8, false, 0) == 0x00FF
  {
    hide Mask;
    MaskParts(1, true);
    MaskParts(1, false);
    MaskParts(2, true);
    MaskParts(2, false);
    MaskParts(4, true);
    MaskParts(4, false);
    MaskParts(8, true);
    MaskParts(8, false);
  }

  /** Where a swap takes bit i from. */
  function Partner(i: nat, d: nat): nat
    requires Upper(i, d) ==> i >= d
  {
    if Upper(i, d) then i - d else i + d
  }

  lemma SwapAt(n: seq<bool>, d: nat, i: nat)
    requires Word(n) && (d == 1 || d == 2 || d == 4 || d == 8) && i < 16
    ensures (Upper(i, d) ==> i >= d) && Partner(i, d) < 16
    ensures Swap(n, Mask(d, true, 0), Mask(d, false, 0), d)[i] == n[Partner(i, d)]
  {
    hide Mask, ToBits, Upper, Swap;
    UpperFacts(i, d);
    SwapBit(n, Mask(d, true, 0), Mask(d, false, 0), d, i);
    if i + d < 16 {
      WholeMask(d, true, i + d);
    }
    if i >= d {
      WholeMask(d, false, i - d);
    }
  }

  lemma WholeMask(d: nat, upper: bool, k: nat)
    requires k < 16
    ensures ToBits(Mask(d, upper, 0), 16)[k] == (Upper(k, d) == upper)
  {
    MaskBit(d, upper, 0, 16, k, k);
  }

  lemma UpperFacts(i: nat, d: nat)
    requires (d == 1 || d == 2 || d == 4 || d == 8) && i < 16
    ensures Upper(i, d) ==> i >= d && !Upper(i - d, d)
    ensures !Upper(i, d) ==> i + d < 16 && Upper(i + d, d)
    ensures i >= d && Upper(i, d) == false ==> Upper(i - d, d)
    ensures i + d < 16 && Upper(i, d) ==> !Upper(i + d, d)
  {
  }

  lemma SwapBit(n: seq<bool>, high: nat, low: nat, d: nat, i: nat)
    requires Word(n) && i < 16
    ensures Swap(n, high, low, d)[i] ==
      ((i + d < 16 && n[i + d] && ToBits(high, 16)[i + d]) || (i >= d && n[i - d] && ToBits(low, 16)[i - d]))
  {
    hide ToBits;
  }

  /** The four swaps reverse sixteen bits. */
  lemma BitReverse16At(v: nat, i: nat)
    requires i < 16
    ensures BitReverse16(v)[i] == ToBits(v, 16)[15 - i]
  {
    MaskValues();
    hide Mask, Swap, ToBits, Upper, Partner;
    var a := ToBits(v, 16);
    var b := Swap(a, 0xAAAA, 0x5555, 1);
    var c := Swap(b, 0xCCCC, 0x3333, 2);
    var e := Swap(c, 0xF0F0, 0x0F0F, 4);
    SwapAt(e, 8, i);
    var i8 := Partner(i, 8);
    SwapAt(c, 4, i8);
    var i4 := Partner(i8, 4);
    SwapAt(b, 2, i4);
    var i2 := Partner(i4, 2);
    SwapAt(a, 1, i2);
    Partners(i);
  }

  lemma Partners(i: nat)
    requires i < 16
    ensures i <= 15 && (Upper(i, 8) ==> i >= 8)
    ensures var i8 := Partner(i, 8);
      && (Upper(i8, 4) ==> i8 >= 4)
      && var i4 := Partner(i8, 4);
         && (Upper(i4, 2) ==> i4 >= 2)
         && var i2 := Partner(i4, 2);
            (Upper(i2, 1) ==> i2 >= 1) && Partner(i2, 1) == 15 - i
  {
  }

  /** stbi__bit_reverse: sixteen bits reversed, and those that are not wanted shifted out. */
  function BitReverse(v: nat, bits: nat): nat
    requires bits <= 16
  {
    Value(BitReverse16(v)[16 - bits..])
  }

  lemma {:induction false} ValueAppend(b: seq<bool>, last: bool)
    ensures Value(b + [last]) == Value(b) + if last then Pow2(|b|) else 0
  {
    if b == [] {
      assert [] + [last] == [last];
    } else {
      assert (b + [last])[1..] == b[1..] + [last];
      ValueAppend(b[1..], last);
    }
  }

  function Reversed(b: seq<bool>): seq<bool> {
    if b == [] then [] else Reversed(b[1..]) + [b[0]]
  }

  lemma {:induction false} ReversedAt(b: seq<bool>)
    ensures |Reversed(b)| == |b| && forall i | 0 <= i < |b| :: Reversed(b)[i] == b[|b| - 1 - i]
  {
    if b != [] {
      ReversedAt(b[1..]);
    }
  }

  lemma {:induction false} ValueReversed(v: nat, n: nat)
    ensures Value(Reversed(ToBits(v, n))) == Rev(v, n)
  {
    if n > 0 {
      var b := ToBits(v, n);
      assert b[1..] == ToBits(v / 2, n - 1) && b[0] == (v % 2 == 1);
      ReversedAt(b[1..]);
      ValueAppend(Reversed(b[1..]), b[0]);
      ValueReversed(v / 2, n - 1);
    }
  }

  lemma {:induction false} PrefixBits(v: nat, m: nat, n: nat)
    requires m <= n
    ensures ToBits(v, m) == ToBits(v, n)[..m]
  {
    if m > 0 {
      PrefixBits(v / 2, m - 1, n - 1);
    }
  }

  lemma LastReversed(r: seq<bool>, b: seq<bool>, n: nat)
    requires |r| == |b| && n <= |b| && forall i | 0 <= i < |b| :: r[i] == b[|b| - 1 - i]
    ensures r[|r| - n..] == Reversed(b[..n])
  {
    ReversedAt(b[..n]);
    hide Reversed;
    forall i | 0 <= i < n
      ensures r[|r| - n..][i] == Reversed(b[..n])[i]
    {
    }
  }

  /** The masks and shifts compute the reversal. */
  lemma BitReverseIs(v: nat, bits: nat)
    requires bits <= 16
    ensures BitReverse(v, bits) == Rev(v, bits)
  {
    hide ToBits, BitReverse16, Reversed, Value, Rev;
    forall i | 0 <= i < 16
      ensures BitReverse16(v)[i] == ToBits(v, 16)[15 - i]
    {
      BitReverse16At(v, i);
    }
    PrefixBits(v, bits, 16);
    LastReversed(BitReverse16(v), ToBits(v, 16), bits);
    ValueReversed(v, bits);
  }
}
