/** The decoding tables of DEFLATE and the decoder (apps/gview/stb_image.h). */
module HuffmanTables {
  import opened Messages
  import opened HuffmanBits
  import opened NumberBits
  import opened HuffmanCodes

  const FAST_BITS := 9
  const FAST_SIZE := 512

  /** An entry of the fast table: the length and the number of the symbol whose code begins the index, or 0 if there is none. */
  predicate FastOk(f: nat, j: nat, sizes: seq<nat>, n: nat)
    requires n <= |sizes|
  {
    if f == 0 then forall q | 0 <= q < n :: !(sizes[q] <= FAST_BITS && Matches(sizes, j, q))
    else f % 512 < n && sizes[f % 512] <= FAST_BITS && Matches(sizes, j, f % 512) && f == sizes[f % 512] * 512 + f % 512
  }

  /** An index begins with a code exactly when its low bits are the reversed code. */
  lemma ReversedCode(j: nat, s: nat, code: nat)
    requires code < Pow2(s)
    ensures Rev(j, s) == code <==> Low(j, s) == Rev(code, s)
  {
    RevRev(j, s);
    RevRev(code, s);
    LowIs(code, s);
    RevOfLow(j, s, s);
  }

  ghost predicate FastFilled(before: seq<nat>, now: seq<nat>, s: nat, code: nat, fastv: nat, upTo: nat) {
    && |now| == |before|
    && forall x | 0 <= x < |now| :: now[x] == if x < upTo && Rev(x, s) == code then fastv else before[x]
  }

  lemma FillNext(before: seq<nat>, now: seq<nat>, s: nat, code: nat, fastv: nat, j: nat)
    requires code < Pow2(s) && FastFilled(before, now, s, code, fastv, j) && j < |now| && Low(j, s) == Rev(code, s)
    ensures FastFilled(before, now[j := fastv], s, code, fastv, j + Pow2(s))
    ensures Low(j + Pow2(s), s) == Rev(code, s)
  {
    LowAgain(j, s);
    var next := now[j := fastv];
    forall x | 0 <= x < |next|
      ensures next[x] == if x < j + Pow2(s) && Rev(x, s) == code then fastv else before[x]
    {
      ReversedCode(x, s, code);
      if j < x < j + Pow2(s) && Low(x, s) == Rev(code, s) {
        LowApart(j, x, s);
      }
    }
  }

  lemma FillStart(before: seq<nat>, s: nat, code: nat, fastv: nat)
    requires code < Pow2(s)
    ensures FastFilled(before, before, s, code, fastv, Rev(code, s))
    ensures Low(Rev(code, s), s) == Rev(code, s)
  {
    LowIs(Rev(code, s), s);
    forall x | 0 <= x < |before| && x < Rev(code, s)
      ensures Rev(x, s) != code
    {
      ReversedCode(x, s, code);
      if Low(x, s) == Rev(code, s) {
        LowApart(x, Rev(code, s), s);
      }
    }
  }

  class ZHuffman {
    const fast: array<nat>
    const firstcode: array<nat>
    const maxcode: array<nat>
    const firstsymbol: array<nat>
    const size: array<nat>
    const value: array<nat>

    constructor ()
      ensures Shaped() && fresh(fast) && fresh(firstcode) && fresh(maxcode) && fresh(firstsymbol) && fresh(size)
      ensures fresh(value)
    {
      fast := new nat[512];
      firstcode := new nat[16];
      maxcode := new nat[17];
      firstsymbol := new nat[16];
      size := new nat[288];
      value := new nat[288];
    }

    ghost predicate Shaped() {
      && fast.Length == FAST_SIZE && firstcode.Length == 16 && maxcode.Length == 17 && firstsymbol.Length == 16
      && size.Length == 288 && value.Length == 288
      && fast != firstcode && fast != maxcode && fast != firstsymbol && fast != size && fast != value
      && firstcode != maxcode && firstcode != firstsymbol && firstcode != size && firstcode != value
      && maxcode != firstsymbol && maxcode != size && maxcode != value
      && firstsymbol != size && firstsymbol != value && size != value
    }

    lemma Lengths()
      requires Shaped()
      ensures fast.Length == FAST_SIZE && firstcode.Length == 16 && maxcode.Length == 17 && firstsymbol.Length == 16
      ensures size.Length == 288 && value.Length == 288
    {
    }

    method SetFast(j: nat, fastv: nat)
      requires j < fast.Length
      modifies fast
      ensures fast[..] == old(fast[..])[j := fastv]
    {
      fast[j] := fastv;
    }

    /** The entries of the fast table whose index begins with a code. */
    method FillFast(code: nat, s: nat, fastv: nat)
      requires Shaped() && code < Pow2(s) && s <= 16
      modifies fast
      ensures FastFilled(old(fast[..]), fast[..], s, code, fastv, FAST_SIZE)
    {
      hide *;
      Lengths();
      ghost var before := fast[..];
      BitReverseIs(code, s);
      FillStart(before, s, code, fastv);
      var j := BitReverse(code, s);
      while j < FAST_SIZE
        invariant FastFilled(before, fast[..], s, code, fastv, j) && Low(j, s) == Rev(code, s)
        decreases FAST_SIZE - j
      {
        FillNext(before, fast[..], s, code, fastv, j);
        SetFast(j, fastv);
        j := j + Pow2(s);
      }
      FillDone(before, fast[..], s, code, fastv, j);
    }

    /** The first loop of stbi__zbuild_huffman. */
    method CountSizes(sizelist: seq<nat>) returns (sizes: array<nat>)
      requires LengthsOk(sizelist)
      ensures fresh(sizes) && sizes.Length == 17
      ensures forall s | 1 <= s <= 16 :: sizes[s] == Count(sizelist, s)
    {
      sizes := new nat[17](_ => 0);
      var i := 0;
      while i < |sizelist|
        invariant 0 <= i <= |sizelist|
        invariant forall s | 0 <= s <= 16 :: sizes[s] == CountTo(sizelist, i, s)
      {
        sizes[sizelist[i]] := sizes[sizelist[i]] + 1;
        i := i + 1;
      }
      sizes[0] := 0;
    }

    /** What the tables by length hold for lengths below n. */
    ghost predicate ByLength(sizelist: seq<nat>, next: array<nat>, n: nat)
      requires Shaped() && n <= 16 && next.Length == 16
      reads firstcode, maxcode, firstsymbol, next
    {
      forall s | 1 <= s < n ::
        && firstcode[s] == FirstCode(sizelist, s) && firstsymbol[s] == FirstSymbol(sizelist, s)
        && maxcode[s] == Shl(EndCode(sizelist, s), 16 - s) && next[s] == FirstCode(sizelist, s)
    }

    /** One turn of the loop that gives each length its first code. */
    method OneLength(sizelist: seq<nat>, next: array<nat>, i: nat, count: nat, code: nat, k: nat) returns (ok: bool)
      requires Shaped() && LengthsOk(sizelist) && next.Length == 16 && 1 <= i <= 15 && FitsTo(sizelist, i)
      requires next != firstcode && next != maxcode && next != firstsymbol
      requires ByLength(sizelist, next, i) && count == Count(sizelist, i)
      requires code == FirstCode(sizelist, i) && k == FirstSymbol(sizelist, i)
      modifies firstcode, maxcode, firstsymbol, next
      ensures ok <==> FitsTo(sizelist, i + 1)
      ensures ok ==> ByLength(sizelist, next, i + 1)
    {
      NoTruncation(sizelist, i);
      hide FirstCode, FirstSymbol, Count, Pow2, LengthsOk, Shl;
      next[i] := code;
      firstcode[i] := code % 0x10000;
      firstsymbol[i] := k % 0x10000;
      if count != 0 {
        if code + count - 1 >= Pow2(i) {
          assert Count(sizelist, i) > 0 && EndCode(sizelist, i) > Pow2(i);
          return false;
        }
      }
      maxcode[i] := Shl(code + count, 16 - i);
      ok := true;
    }

    /** No length has more symbols than codes. */
    method CheckSizes(sizelist: seq<nat>, sizes: array<nat>) returns (ok: bool)
      requires sizes.Length == 17 && forall s | 1 <= s <= 16 :: sizes[s] == Count(sizelist, s)
      ensures !ok ==> !Fits(sizelist)
    {
      var i := 1;
      while i < 16
        invariant 1 <= i <= 16
      {
        if sizes[i] > Pow2(i) {
          TooMany(sizelist, i);
          return false;
        }
        i := i + 1;
      }
      ok := true;
    }

    /** The loops that give each length its first code, and refuse lengths that have too many. */
    method FirstCodes(sizelist: seq<nat>, sizes: array<nat>, next: array<nat>) returns (ok: bool)
      requires Shaped() && LengthsOk(sizelist) && sizes.Length == 17 && forall s | 1 <= s <= 16 :: sizes[s] == Count(sizelist, s)
      requires next.Length == 16 && next != firstcode && next != maxcode && next != firstsymbol && next != sizes
      requires sizes != firstcode && sizes != maxcode && sizes != firstsymbol
      modifies firstcode, maxcode, firstsymbol, next
      ensures ok <==> Fits(sizelist)
      ensures ok ==> ByLength(sizelist, next, 16) && maxcode[16] == 0x10000
    {
      ok := CheckSizes(sizelist, sizes);
      if !ok {
        return;
      }
      hide FirstCode, FirstSymbol, Count, Pow2, LengthsOk, FitsTo, Fits;
      var code, k := 0, 0;
      var i := 1;
      Starts(sizelist);
      while i < 16
        invariant 1 <= i <= 16 && FitsTo(sizelist, i) && ByLength(sizelist, next, i)
        invariant code == FirstCode(sizelist, i) && k == FirstSymbol(sizelist, i)
        invariant forall s | 1 <= s <= 16 :: sizes[s] == Count(sizelist, s)
      {
        ok := OneLength(sizelist, next, i, sizes[i], code, k);
        FitsAll(sizelist, i + 1);
        if !ok {
          return;
        }
        NextStarts(sizelist, i);
        code := (code + sizes[i]) * 2;
        k := k + sizes[i];
        i := i + 1;
      }
      maxcode[16] := 0x10000;
      FitsAll(sizelist, 16);
    }

    /** The symbols among the first n that have codes are in their places. */
    ghost predicate Placed(sizelist: seq<nat>, n: nat)
      requires Shaped() && n <= |sizelist| <= 288
      reads size, value
    {
      forall q | 0 <= q < n && sizelist[q] >= 1 :: PlacedAt(sizelist, q, size[..], value[..])
    }

    /** One turn of the last loop: the symbol is put in its place and, if its code is short, in the fast table. */
    method AddSymbol(sizelist: seq<nat>, next: array<nat>, i: nat)
      requires Shaped() && LengthsOk(sizelist) && Fits(sizelist) && i < |sizelist| && sizelist[i] >= 1
      requires next.Length == 16 && next != fast && next != size && next != value && next != firstcode
      requires next != firstsymbol
      requires firstcode[sizelist[i]] == FirstCode(sizelist, sizelist[i])
      requires firstsymbol[sizelist[i]] == FirstSymbol(sizelist, sizelist[i])
      requires next[sizelist[i]] == Code(sizelist, i)
      requires Placed(sizelist, i) && FastTable(sizelist, fast[..], i)
      modifies fast, size, value, next
      ensures Placed(sizelist, i + 1) && FastTable(sizelist, fast[..], i + 1)
      ensures forall s | 0 <= s < 16 :: next[s] == old(next[s]) + if s == sizelist[i] then 1 else 0
    {
      hide FirstCode, FirstSymbol, Code, Place, Matches, FastTable, FastFilled, Fits;
      var s: nat := sizelist[i];
      SymbolFacts(sizelist, i);
      var c: nat := next[s] - firstcode[s] + firstsymbol[s];
      var fastv := (s * 512 + i) % 0x10000;
      PlaceNext(sizelist, i, size[..], value[..], c);
      ghost var size0, value0 := size[..], value[..];
      size[c] := s % 256;
      value[c] := i % 0x10000;
      assert size[..] == size0[c := s] && value[..] == value0[c := i];
      ghost var before := fast[..];
      if s <= FAST_BITS {
        FillFast(next[s], s, fastv);
      }
      FastNext(sizelist, before, fast[..], i);
      next[s] := next[s] + 1;
    }

    /** The tables hold the canonical codes of a list of lengths. */
    ghost predicate Built(sizelist: seq<nat>)
      requires Shaped()
      reads fast, firstcode, maxcode, firstsymbol, size, value
    {
      && LengthsOk(sizelist) && Fits(sizelist) && |sizelist| <= 288
      && (forall s | 1 <= s < 16 ::
            && firstcode[s] == FirstCode(sizelist, s) && firstsymbol[s] == FirstSymbol(sizelist, s)
            && maxcode[s] == Shl(EndCode(sizelist, s), 16 - s))
      && maxcode[16] == 0x10000
      && Placed(sizelist, |sizelist|) && FastTable(sizelist, fast[..], |sizelist|)
    }

    /** What the tables say about one length. */
    lemma LengthFacts(sizelist: seq<nat>, s: nat)
      requires Shaped() && Built(sizelist) && 1 <= s <= 16
      ensures maxcode.Length == 17 && LengthsOk(sizelist)
      ensures maxcode[s] == if s == 16 then 0x10000 else Shl(EndCode(sizelist, s), 16 - s)
    {
      hide EndCode, Shl, FirstCode, FirstSymbol;
    }

    lemma LookUp(sizelist: seq<nat>, i: nat, s: nat)
      requires Shaped() && Built(sizelist) && i < |sizelist| && 1 <= s <= 15 && sizelist[i] == s
      ensures firstcode.Length == 16 && firstsymbol.Length == 16
      ensures firstcode[s] == FirstCode(sizelist, s) && firstsymbol[s] == FirstSymbol(sizelist, s)
      ensures Place(sizelist, i) < value.Length && value[Place(sizelist, i)] == i
    {
      hide EndCode, Shl, FirstCode, FirstSymbol, Place;
      assert PlacedAt(sizelist, i, size[..], value[..]);
    }

    /** The loop of the slow path: the first length whose bound the reversed bits are below. */
    method LengthOf(k: nat, ghost sizes: seq<nat>, ghost stream: nat) returns (s: nat)
      requires Shaped() && Built(sizes) && k == Rev(stream, 16)
      requires forall q | 0 <= q < |sizes| && sizes[q] <= FAST_BITS :: !Matches(sizes, stream, q)
      ensures FAST_BITS + 1 <= s <= 16 && maxcode.Length == 17 && k < maxcode[s] && LengthsOk(sizes)
      ensures s <= 15 ==> maxcode[s] == Shl(EndCode(sizes, s), 16 - s)
      ensures forall q | 0 <= q < |sizes| && sizes[q] < s :: !Matches(sizes, stream, q)
    {
      hide *;
      LengthFacts(sizes, 1);
      AtMost15(sizes);
      s := FAST_BITS + 1;
      LengthFacts(sizes, s);
      while k >= maxcode[s]
        invariant FAST_BITS + 1 <= s <= 16
        invariant maxcode[s] == if s == 16 then 0x10000 else Shl(EndCode(sizes, s), 16 - s)
        invariant forall q | 0 <= q < |sizes| && sizes[q] < s :: !Matches(sizes, stream, q)
        decreases 16 - s
      {
        NotInLength(stream, s, sizes, k, maxcode[s]);
        s := s + 1;
        LengthFacts(sizes, s);
      }
    }

    /** stbi__zbuild_huffman: succeeds exactly when the lengths leave a code for each symbol. */
    method Build(sizelist: seq<nat>) returns (ok: bool)
      requires Shaped() && LengthsOk(sizelist)
      modifies fast, firstcode, maxcode, firstsymbol, size, value
      ensures ok <==> Fits(sizelist)
      ensures ok ==> Built(sizelist)
    {
      var sizes := CountSizes(sizelist);
      ClearFast();
      var next := new nat[16](_ => 0);
      ok := FirstCodes(sizelist, sizes, next);
      if !ok {
        return;
      }
      FastEmpty(sizelist, fast[..]);
      AddSymbols(sizelist, next);
    }

    method ClearFast()
      requires Shaped()
      modifies fast
      ensures forall j | 0 <= j < FAST_SIZE :: fast[j] == 0
    {
      var j := 0;
      while j < FAST_SIZE
        invariant 0 <= j <= FAST_SIZE && forall k | 0 <= k < j :: fast[k] == 0
      {
        fast[j] := 0;
        j := j + 1;
      }
    }

    /** The last loop of stbi__zbuild_huffman. */
    method AddSymbols(sizelist: seq<nat>, next: array<nat>)
      requires Shaped() && LengthsOk(sizelist) && Fits(sizelist) && next.Length == 16 && ByLength(sizelist, next, 16)
      requires next != fast && next != size && next != value && next != firstcode && next != firstsymbol
      requires next != maxcode
      requires FastTable(sizelist, fast[..], 0)
      modifies fast, size, value, next
      ensures Placed(sizelist, |sizelist|) && FastTable(sizelist, fast[..], |sizelist|)
    {
      hide FirstCode, FirstSymbol, Place, Matches, FastTable, Fits, Shl, EndCode;
      var i := 0;
      while i < |sizelist|
        invariant 0 <= i <= |sizelist|
        invariant forall s | 1 <= s < 16 :: next[s] == FirstCode(sizelist, s) + CountTo(sizelist, i, s)
        invariant forall s | 1 <= s < 16 :: firstcode[s] == FirstCode(sizelist, s) && firstsymbol[s] == FirstSymbol(sizelist, s)
        invariant Placed(sizelist, i) && FastTable(sizelist, fast[..], i)
      {
        if sizelist[i] != 0 {
          AddSymbol(sizelist, next, i);
        } else {
          FastSkip(sizelist, fast[..], i);
        }
        i := i + 1;
      }
    }
  }

  lemma FastEmpty(sizes: seq<nat>, fast: seq<nat>)
    requires |fast| == FAST_SIZE && forall j | 0 <= j < FAST_SIZE :: fast[j] == 0
    ensures FastTable(sizes, fast, 0)
  {
  }

  predicate PlacedAt(sizes: seq<nat>, q: nat, size: seq<nat>, value: seq<nat>)
    requires q < |sizes| && sizes[q] >= 1
  {
    var p := Place(sizes, q);
    p < |size| && p < |value| && size[p] == sizes[q] && value[p] == q
  }

  ghost predicate FastTable(sizes: seq<nat>, fast: seq<nat>, n: nat)
    requires n <= |sizes|
  {
    |fast| == FAST_SIZE && forall j | 0 <= j < FAST_SIZE :: FastOk(fast[j], j, sizes, n)
  }

  lemma SymbolFacts(sizes: seq<nat>, i: nat)
    requires LengthsOk(sizes) && Fits(sizes) && i < |sizes| && sizes[i] >= 1
    ensures FirstCode(sizes, sizes[i]) <= Code(sizes, i) < Pow2(sizes[i]) && Place(sizes, i) < |sizes| <= 288
    ensures sizes[i] <= 15
    ensures Code(sizes, i) - FirstCode(sizes, sizes[i]) + FirstSymbol(sizes, sizes[i]) == Place(sizes, i)
    ensures sizes[i] * 512 + i < 0x10000
  {
    CodeInRange(sizes, i);
    PlaceInRange(sizes, i);
  }

  lemma PlaceNext(sizes: seq<nat>, i: nat, size: seq<nat>, value: seq<nat>, c: nat)
    requires i < |sizes| <= 288 && sizes[i] >= 1 && c == Place(sizes, i) < |size| == |value|
    requires forall q | 0 <= q < i && sizes[q] >= 1 :: PlacedAt(sizes, q, size, value)
    ensures forall q | 0 <= q < i + 1 && sizes[q] >= 1 :: PlacedAt(sizes, q, size[c := sizes[i]], value[c := i])
  {
    forall q | 0 <= q < i + 1 && sizes[q] >= 1
      ensures PlacedAt(sizes, q, size[c := sizes[i]], value[c := i])
    {
      if q < i {
        PlacesDiffer(sizes, q, i);
        assert PlacedAt(sizes, q, size, value);
      }
    }
  }

  /** A symbol without a short code leaves the fast table as it is; one with a short code takes the indices with it. */
  lemma FastNext(sizes: seq<nat>, before: seq<nat>, now: seq<nat>, i: nat)
    requires i < |sizes| <= 288 && 1 <= sizes[i] <= 15 && FastTable(sizes, before, i)
    requires sizes[i] > FAST_BITS ==> now == before
    requires sizes[i] <= FAST_BITS ==>
      FastFilled(before, now, sizes[i], Code(sizes, i), (sizes[i] * 512 + i) % 0x10000, FAST_SIZE)
    ensures FastTable(sizes, now, i + 1)
  {
    hide FastOk, Matches, Rev, Code;
    forall j | 0 <= j < FAST_SIZE
      ensures FastOk(now[j], j, sizes, i + 1)
    {
      assert FastOk(before[j], j, sizes, i);
      MatchesIs(sizes, j, i);
      if sizes[i] <= FAST_BITS && Matches(sizes, j, i) {
        TakenEntry(now[j], j, sizes, i);
      } else {
        KeptEntry(now[j], j, sizes, i);
      }
    }
  }

  lemma MatchesIs(sizes: seq<nat>, j: nat, i: nat)
    requires i < |sizes| && sizes[i] >= 1
    ensures Matches(sizes, j, i) <==> Rev(j, sizes[i]) == Code(sizes, i)
  {
  }

  lemma TakenEntry(f: nat, j: nat, sizes: seq<nat>, i: nat)
    requires i < |sizes| <= 288 && 1 <= sizes[i] <= FAST_BITS && Matches(sizes, j, i)
    requires f == (sizes[i] * 512 + i) % 0x10000
    ensures FastOk(f, j, sizes, i + 1)
  {
    hide Matches;
    assert f == sizes[i] * 512 + i && f % 512 == i;
  }

  lemma KeptEntry(f: nat, j: nat, sizes: seq<nat>, i: nat)
    requires i < |sizes| && FastOk(f, j, sizes, i) && !(sizes[i] <= FAST_BITS && Matches(sizes, j, i))
    ensures FastOk(f, j, sizes, i + 1)
  {
    hide Matches;
  }

  lemma FastSkip(sizes: seq<nat>, fast: seq<nat>, i: nat)
    requires i < |sizes| && sizes[i] == 0 && FastTable(sizes, fast, i)
    ensures FastTable(sizes, fast, i + 1)
  {
    forall j | 0 <= j < FAST_SIZE
      ensures FastOk(fast[j], j, sizes, i + 1)
    {
      assert FastOk(fast[j], j, sizes, i);
      KeptEntry(fast[j], j, sizes, i);
    }
  }

  lemma Starts(sizes: seq<nat>)
    ensures FirstCode(sizes, 1) == 0 && FirstSymbol(sizes, 1) == 0 && FitsTo(sizes, 1)
  {
  }

  lemma NextStarts(sizes: seq<nat>, s: nat)
    requires s >= 1
    ensures FirstCode(sizes, s + 1) == (FirstCode(sizes, s) + Count(sizes, s)) * 2
    ensures FirstSymbol(sizes, s + 1) == FirstSymbol(sizes, s) + Count(sizes, s)
  {
  }

  lemma FitsAll(sizes: seq<nat>, n: nat)
    requires n <= 16
    ensures !FitsTo(sizes, n) ==> !Fits(sizes)
    ensures n == 16 && FitsTo(sizes, n) ==> Fits(sizes)
  {
  }

  ghost predicate FitsTo(sizes: seq<nat>, n: nat) {
    forall s | 1 <= s < n :: Count(sizes, s) > 0 ==> EndCode(sizes, s) <= Pow2(s)
  }

  lemma TooMany(sizes: seq<nat>, s: nat)
    requires 1 <= s <= 15 && Count(sizes, s) > Pow2(s)
    ensures !Fits(sizes)
  {
    assert EndCode(sizes, s) > Pow2(s);
  }

  /** First codes and first symbols fit into sixteen bits. */
  lemma {:induction false} FirstCodeFits(sizes: seq<nat>, s: nat)
    requires 1 <= s <= 16 && FitsTo(sizes, s)
    ensures FirstCode(sizes, s) <= Pow2(s)
    decreases s
  {
    if s > 1 {
      FirstCodeFits(sizes, s - 1);
      assert Count(sizes, s - 1) > 0 ==> EndCode(sizes, s - 1) <= Pow2(s - 1);
    }
  }

  lemma Pow15()
    ensures Pow2(15) == 32768 && Pow2(16) == 65536
  {
    assert Pow2(4) == 16 && Pow2(8) == 256 && Pow2(12) == 4096;
  }

  lemma NoTruncation(sizes: seq<nat>, s: nat)
    requires LengthsOk(sizes) && 1 <= s <= 15 && FitsTo(sizes, s)
    ensures FirstCode(sizes, s) % 0x10000 == FirstCode(sizes, s)
    ensures FirstSymbol(sizes, s) % 0x10000 == FirstSymbol(sizes, s)
  {
    FirstCodeFits(sizes, s);
    PowOrder(s, 15);
    Pow15();
    SymbolsCounted(sizes, s);
    hide Pow2;
  }

  lemma FillDone(before: seq<nat>, now: seq<nat>, s: nat, code: nat, fastv: nat, j: nat)
    requires FastFilled(before, now, s, code, fastv, j) && j >= FAST_SIZE == |now|
    ensures FastFilled(before, now, s, code, fastv, FAST_SIZE)
  {
  }

  // ---- Decoding -----------------------------------------------------------------------------

  lemma EightMore(n: nat)
    ensures Pow2(n + 8) == 256 * Pow2(n)
  {
    assert Pow2(n + 2) == 4 * Pow2(n);
    assert Pow2(n + 4) == 4 * Pow2(n + 2);
    assert Pow2(n + 6) == 4 * Pow2(n + 4);
    assert Pow2(n + 8) == 4 * Pow2(n + 6);
  }

  lemma MoreBits(v: nat, n: nat, b: nat, rest: nat)
    ensures v + Shl(b, n) + Pow2(n + 8) * rest == v + Pow2(n) * (b + 256 * rest)
    ensures v < Pow2(n) && b < 256 ==> v + Shl(b, n) < Pow2(n + 8)
  {
    EightMore(n);
    var p := Pow2(n);
    hide Pow2;
    assert 256 * p * rest == p * (256 * rest);
    assert p * (b + 256 * rest) == p * b + p * (256 * rest);
    if b < 256 {
      assert b * p <= 255 * p;
    }
  }

  class ZBuffer {
    const input: seq<byte>
    var pos: nat
    var numBits: nat
    var codeBuffer: nat

    constructor (input: seq<byte>)
      ensures Valid() && this.input == input && Stream() == BytesNumber(input)
    {
      this.input := input;
      pos, numBits, codeBuffer := 0, 0, 0;
    }

    predicate Valid()
      reads this
    {
      pos <= |input| && numBits <= 32 && codeBuffer < Pow2(numBits)
    }

    /** All bits that are still to come, as one number. */
    ghost function Stream(): nat
      requires Valid()
      reads this
    {
      codeBuffer + Pow2(numBits) * BytesNumber(input[pos..])
    }

    method GetByte() returns (b: byte)
      requires pos <= |input|
      modifies `pos
      ensures pos <= |input|
      ensures BytesNumber(input[old(pos)..]) == b as nat + 256 * BytesNumber(input[pos..])
    {
      if pos >= |input| {
        return 0;
      }
      b := input[pos];
      assert input[pos..][0] == b && input[pos..][1..] == input[pos + 1..];
      pos := pos + 1;
    }

    method FillBits()
      requires Valid() && numBits <= 24
      modifies this
      ensures Valid() && Stream() == old(Stream()) && numBits > 24
    {
      ghost var stream := Stream();
      AddByte();
      while numBits <= 24
        invariant Valid() && Stream() == stream
        decreases 32 - numBits
      {
        AddByte();
      }
    }

    /** One turn of stbi__fill_bits. */
    method AddByte()
      requires Valid() && numBits <= 24
      modifies this
      ensures Valid() && Stream() == old(Stream()) && numBits == old(numBits) + 8
    {
      hide Pow2, Shl, BytesNumber;
      var b := GetByte();
      MoreBits(codeBuffer, numBits, b as nat, BytesNumber(input[pos..]));
      codeBuffer := codeBuffer + Shl(b as nat, numBits);
      numBits := numBits + 8;
    }

    /** s bits are taken off. */
    method Consume(s: nat)
      requires Valid() && s <= numBits
      modifies this
      ensures Valid() && Stream() == Shr(old(Stream()), s)
    {
      HighShr(codeBuffer, BytesNumber(input[pos..]), numBits, s);
      ShrBound(codeBuffer, numBits, s);
      hide Pow2, BytesNumber, Shr;
      codeBuffer := Shr(codeBuffer, s);
      numBits := numBits - s;
    }

    /** stbi__zreceive: the next n bits as a number. */
    method Receive(n: nat) returns (k: nat)
      requires Valid() && n <= 25
      modifies this
      ensures Valid() && k == Low(old(Stream()), n) && Stream() == Shr(old(Stream()), n)
    {
      if numBits < n {
        FillBits();
      }
      HighLow(codeBuffer, BytesNumber(input[pos..]), numBits, n);
      k := Low(codeBuffer, n);
      Consume(n);
    }

    /** stbi__zhuffman_decode_slowpath: for codes that the fast table does not hold. */
    method DecodeSlow(z: ZHuffman, ghost sizes: seq<nat>) returns (symbol: int)
      requires Valid() && numBits >= 16 && z.Shaped() && z.Built(sizes)
      requires forall q | 0 <= q < |sizes| && sizes[q] <= FAST_BITS :: !Matches(sizes, Stream(), q)
      modifies this
      ensures Valid() && -1 <= symbol < |sizes|
      ensures symbol >= 0 ==> Matches(sizes, old(Stream()), symbol) && Stream() == Shr(old(Stream()), sizes[symbol])
      ensures symbol == -1 ==> (forall i | 0 <= i < |sizes| :: !Matches(sizes, old(Stream()), i)) && Stream() == old(Stream())
    {
      hide *;
      ghost var stream := Stream();
      SixteenBits();
      var k := BitReverse(codeBuffer, 16);
      var s := z.LengthOf(k, sizes, stream);
      AtMost15(sizes);
      if s == 16 {
        return -1;
      }
      ghost var i := InLength(stream, s, sizes, k, z.maxcode[s]);
      z.LookUp(sizes, i, s);
      var b := Shr(k, 16 - s) - z.firstcode[s] + z.firstsymbol[s];
      Consume(s);
      symbol := z.value[b];
    }

    lemma SixteenBits()
      requires Valid() && numBits >= 16
      ensures BitReverse(codeBuffer, 16) == Rev(Stream(), 16)
    {
      hide Rev, BitReverse, Pow2, BytesNumber;
      BitReverseIs(codeBuffer, 16);
      HighRev(codeBuffer, BytesNumber(input[pos..]), numBits, 16);
    }

    /** stbi__zhuffman_decode: the symbol whose code the stream begins with, or -1 if there is none. */
    method Decode(z: ZHuffman, ghost sizes: seq<nat>) returns (symbol: int)
      requires Valid() && z.Shaped() && z.Built(sizes)
      modifies this
      ensures Valid() && -1 <= symbol < |sizes|
      ensures symbol >= 0 ==> Matches(sizes, old(Stream()), symbol) && Stream() == Shr(old(Stream()), sizes[symbol])
      ensures symbol == -1 ==> (forall i | 0 <= i < |sizes| :: !Matches(sizes, old(Stream()), i)) && Stream() == old(Stream())
    {
      if numBits < 16 {
        FillBits();
      }
      ghost var stream := Stream();
      var j := Low(codeBuffer, FAST_BITS);
      FastIndex(codeBuffer, BytesNumber(input[pos..]), numBits);
      assert FastOk(z.fast[..][j], j, sizes, |sizes|);
      FastMatches(z.fast[j], j, stream, sizes);
      hide Pow2, Shr, Low, Rev, Matches, FastOk, BytesNumber;
      var b := z.fast[j];
      if b != 0 {
        Consume(b / 512);
        return b % 512;
      }
      symbol := DecodeSlow(z, sizes);
    }
  }

  /** The sixteen reversed bits are not below the end of a length: no code of that length begins the stream. */
  lemma NotInLength(stream: nat, s: nat, sizes: seq<nat>, k: nat, maxcode: nat)
    requires LengthsOk(sizes) && 1 <= s <= 16 && k == Rev(stream, 16) && k >= maxcode
    requires maxcode == if s == 16 then 0x10000 else Shl(EndCode(sizes, s), 16 - s)
    ensures s < 16
    ensures forall q | 0 <= q < |sizes| && sizes[q] == s :: !Matches(sizes, stream, q)
  {
    Pow15();
    ShrLess(k, 16 - s, EndCode(sizes, s));
    RevPrefix(stream, s, 16);
    forall q | 0 <= q < |sizes| && sizes[q] == s
      ensures !Matches(sizes, stream, q)
    {
      CodeInRange(sizes, q);
    }
  }

  /** They are: one of the codes of that length begins the stream, if no shorter one does. */
  lemma InLength(stream: nat, s: nat, sizes: seq<nat>, k: nat, maxcode: nat) returns (i: nat)
    requires 1 <= s <= 15 && k == Rev(stream, 16) && k < maxcode == Shl(EndCode(sizes, s), 16 - s)
    requires forall q | 0 <= q < |sizes| && sizes[q] < s :: !Matches(sizes, stream, q)
    ensures i < |sizes| && sizes[i] == s && Matches(sizes, stream, i)
    ensures FirstCode(sizes, s) <= Shr(k, 16 - s)
    ensures Shr(k, 16 - s) - FirstCode(sizes, s) + FirstSymbol(sizes, s) == Place(sizes, i)
  {
    ShrLess(k, 16 - s, EndCode(sizes, s));
    RevPrefix(stream, s, 16);
    i := MatchBelow(sizes, stream, s);
  }

  lemma AtMost15(sizes: seq<nat>)
    requires LengthsOk(sizes)
    ensures forall q | 0 <= q < |sizes| :: sizes[q] < 16
    ensures FAST_BITS == 9
  {
  }

  lemma FastIndex(v: nat, rest: nat, n: nat)
    requires n >= FAST_BITS
    ensures Low(v, FAST_BITS) == Low(v + Pow2(n) * rest, FAST_BITS) < FAST_SIZE
  {
    HighLow(v, rest, n, FAST_BITS);
    assert Pow2(4) == 16 && Pow2(8) == 256;
  }

  lemma FastMatches(f: nat, j: nat, stream: nat, sizes: seq<nat>)
    requires LengthsOk(sizes) && j == Low(stream, FAST_BITS) && FastOk(f, j, sizes, |sizes|)
    ensures f == 0 ==> forall q | 0 <= q < |sizes| && sizes[q] <= FAST_BITS :: !Matches(sizes, stream, q)
    ensures f != 0 ==> f % 512 < |sizes| && f / 512 == sizes[f % 512] <= FAST_BITS && Matches(sizes, stream, f % 512)
  {
    forall q | 0 <= q < |sizes| && 1 <= sizes[q] <= FAST_BITS
      ensures Matches(sizes, j, q) <==> Matches(sizes, stream, q)
    {
      RevOfLow(stream, sizes[q], FAST_BITS);
    }
  }
}
