/** Shifts of numbers, the powers of two they multiply and divide by, and numbers made of bytes. */
module NumberBits {
  import opened Messages

  /** Bytes as one number, the first byte lowest; behind the end there are zeros. */
  function BytesNumber(bytes: seq<byte>): nat {
    if bytes == [] then 0 else bytes[0] as nat + 256 * BytesNumber(bytes[1..])
  }

  function Pow2(n: nat): (r: nat)
    ensures r > 0
  {
    if n == 0 then 1 else 2 * Pow2(n - 1)
  }

  lemma {:induction false} PowOrder(m: nat, n: nat)
    requires m <= n
    ensures Pow2(m) <= Pow2(n)
    decreases n
  {
    if m < n {
      PowOrder(m, n - 1);
    }
  }

  /** v << n. */
  function Shl(v: nat, n: nat): nat {
    v * Pow2(n)
  }

  /** v >> n. */
  function Shr(v: nat, n: nat): nat {
    if n == 0 then v else Shr(v / 2, n - 1)
  }

  /** Shifting compares like multiplying the other side. */
  lemma {:induction false} ShrLess(v: nat, n: nat, bound: nat)
    ensures Shr(v, n) < bound <==> v < Shl(bound, n)
    decreases n
  {
    ShlNext(bound, n);
    hide Shl, Pow2;
    if n > 0 {
      ShrLess(v / 2, n - 1, bound);
    }
  }

  lemma ShlNext(v: nat, n: nat)
    ensures n == 0 ==> Shl(v, n) == v
    ensures n > 0 ==> Shl(v, n) == 2 * Shl(v, n - 1)
  {
    if n > 0 {
      assert v * Pow2(n) == 2 * (v * Pow2(n - 1));
    }
  }

  lemma HalfHigh(v: nat, rest: nat, n: nat)
    requires n > 0
    ensures (v + Pow2(n) * rest) / 2 == v / 2 + Pow2(n - 1) * rest
    ensures (v + Pow2(n) * rest) % 2 == v % 2
  {
    assert Pow2(n) * rest == 2 * (Pow2(n - 1) * rest);
  }

  lemma {:induction false} HighShr(v: nat, rest: nat, n: nat, s: nat)
    requires s <= n
    ensures Shr(v + Pow2(n) * rest, s) == Shr(v, s) + Pow2(n - s) * rest
    decreases s
  {
    hide Pow2;
    if s > 0 {
      var w := v + Pow2(n) * rest;
      HalfHigh(v, rest, n);
      HighShr(v / 2, rest, n - 1, s - 1);
      assert Shr(w, s) == Shr(w / 2, s - 1);
    }
  }

  lemma {:induction false} ShrBound(v: nat, n: nat, s: nat)
    requires s <= n && v < Pow2(n)
    ensures Shr(v, s) < Pow2(n - s)
    decreases s
  {
    if s > 0 {
      ShrBound(v / 2, n - 1, s - 1);
    }
  }

  lemma {:induction false} PowAdd(m: nat, n: nat)
    ensures Pow2(m + n) == Pow2(m) * Pow2(n)
  {
    if m > 0 {
      PowAdd(m - 1, n);
      assert Pow2(m + n) == 2 * Pow2(m - 1 + n);
    }
  }

  // ---- Masks -----------------------------------------------------------------------------------

  /** x & y, on words of n bits. */
  function And(x: nat, y: nat, n: nat): nat {
    if n == 0 then 0 else (if x % 2 == 1 && y % 2 == 1 then 1 else 0) + 2 * And(x / 2, y / 2, n - 1)
  }

  /** ~x, on words of n bits. */
  function Not(x: nat, n: nat): nat {
    if n == 0 then 0 else (if x % 2 == 1 then 0 else 1) + 2 * Not(x / 2, n - 1)
  }

  /** x | y, on words of n bits. */
  function Or(x: nat, y: nat, n: nat): nat {
    if n == 0 then 0 else (if x % 2 == 1 || y % 2 == 1 then 1 else 0) + 2 * Or(x / 2, y / 2, n - 1)
  }

  /** The k lowest bits cleared. */
  function Cleared(x: nat, k: nat): nat {
    if k == 0 then x else 2 * Cleared(x / 2, k - 1)
  }

  lemma {:induction false} AndAll(x: nat, n: nat)
    requires x < Pow2(n)
    ensures And(x, Not(0, n), n) == x
  {
    if n > 0 {
      AndAll(x / 2, n - 1);
    }
  }

  lemma {:induction false} MaskClears(x: nat, k: nat, n: nat)
    requires k <= n && x < Pow2(n)
    ensures And(x, Not(Pow2(k) - 1, n), n) == Cleared(x, k)
    decreases n
  {
    if k == 0 {
      AndAll(x, n);
    } else {
      MaskClears(x / 2, k - 1, n - 1);
      assert (Pow2(k) - 1) % 2 == 1 && (Pow2(k) - 1) / 2 == Pow2(k - 1) - 1;
    }
  }

  lemma {:induction false} ClearedIs(x: nat, k: nat)
    ensures Cleared(x, k) <= x < Cleared(x, k) + Pow2(k)
    ensures Cleared(Cleared(x, k), k) == Cleared(x, k)
  {
    if k > 0 {
      ClearedIs(x / 2, k - 1);
    }
  }

  lemma {:induction false} OrNothing(x: nat, n: nat)
    requires x < Pow2(n)
    ensures Or(x, 0, n) == x
  {
    if n > 0 {
      OrNothing(x / 2, n - 1);
    }
  }

  lemma {:induction false} NotNothing(n: nat)
    ensures Not(0, n) == Pow2(n) - 1
  {
    if n > 0 {
      NotNothing(n - 1);
    }
  }

  lemma NotOne(n: nat)
    requires n > 0
    ensures Not(1, n) == Pow2(n) - 2
  {
    NotNothing(n - 1);
  }

  /** The lowest bit of a word replaced. */
  lemma LowestBit(x: nat, bit: nat, n: nat)
    requires n > 0 && x < Pow2(n) && bit < 2
    ensures And(x, Not(1, n), n) == 2 * (x / 2) && Or(2 * (x / 2), bit, n) == 2 * (x / 2) + bit
  {
    MaskClears(x, 1, n);
    OrNothing(x / 2, n - 1);
  }
}
