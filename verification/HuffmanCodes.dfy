/** Canonical Huffman codes from code lengths, section 3.2.2 of RFC 1951. */
module HuffmanCodes {
  import opened HuffmanBits
  import opened NumberBits

  /** How many of the first n symbols have a code of s bits. */
  function CountTo(sizes: seq<nat>, n: nat, s: nat): (r: nat)
    requires n <= |sizes|
    ensures r <= n
  {
    if n == 0 then 0 else CountTo(sizes, n - 1, s) + if sizes[n - 1] == s then 1 else 0
  }

  function Count(sizes: seq<nat>, s: nat): nat {
    CountTo(sizes, |sizes|, s)
  }

  /** The smallest code of s bits: twice what comes after the codes with one bit less. */
  function FirstCode(sizes: seq<nat>, s: nat): nat
    requires s >= 1
  {
    if s == 1 then 0 else 2 * (FirstCode(sizes, s - 1) + Count(sizes, s - 1))
  }

  /** What comes after the codes of s bits. */
  function EndCode(sizes: seq<nat>, s: nat): nat
    requires s >= 1
  {
    FirstCode(sizes, s) + Count(sizes, s)
  }

  function Code(sizes: seq<nat>, i: nat): nat
    requires i < |sizes| && sizes[i] >= 1
  {
    FirstCode(sizes, sizes[i]) + CountTo(sizes, i, sizes[i])
  }

  /** Of each length, the codes fit into that many bits. */
  ghost predicate Fits(sizes: seq<nat>) {
    forall s | 1 <= s <= 15 :: Count(sizes, s) > 0 ==> EndCode(sizes, s) <= Pow2(s)
  }

  ghost predicate LengthsOk(sizes: seq<nat>) {
    |sizes| <= 288 && forall i | 0 <= i < |sizes| :: sizes[i] <= 15
  }

  /** The bits of a stream, the first one the highest of the code, begin with the code of a symbol. */
  predicate Matches(sizes: seq<nat>, stream: nat, i: nat) {
    i < |sizes| && sizes[i] >= 1 && Rev(stream, sizes[i]) == Code(sizes, i)
  }

  /** A stream begins with the code of a symbol if its bits, in the order they come, are those of the code from the highest
      on (section 3.1.1 of RFC 1951). */
  lemma MatchIs(sizes: seq<nat>, stream: nat, i: nat)
    requires i < |sizes| && sizes[i] >= 1 && Code(sizes, i) < Pow2(sizes[i])
    ensures Matches(sizes, stream, i) <==>
      forall k: nat | k < sizes[i] :: BitOf(Code(sizes, i), sizes[i] - 1 - k) == BitOf(stream, k)
  {
    var n, code := sizes[i], Code(sizes, i);
    hide Rev, Code, BitOf;
    forall k: nat | k < n
      ensures BitOf(Rev(stream, n), n - 1 - k) == BitOf(stream, k)
    {
      RevBit(stream, n, k);
    }
    if forall k: nat | k < n :: BitOf(code, n - 1 - k) == BitOf(stream, k) {
      forall k: nat | k < n
        ensures BitOf(Rev(stream, n), k) == BitOf(code, k)
      {
        RevBit(stream, n, n - 1 - k);
        assert BitOf(code, n - 1 - (n - 1 - k)) == BitOf(stream, n - 1 - k);
      }
      SameBits(Rev(stream, n), code, n);
    }
  }

  lemma {:induction false} CountNone(sizes: seq<nat>, m: nat, n: nat, s: nat)
    requires m <= n <= |sizes| && forall k | m <= k < n :: sizes[k] != s
    ensures CountTo(sizes, n, s) == CountTo(sizes, m, s)
    decreases n
  {
    if m < n {
      CountNone(sizes, m, n - 1, s);
    }
  }

  lemma {:induction false} FirstCodeAfter(sizes: seq<nat>, s: nat, t: nat)
    requires 1 <= s < t && forall k | 0 <= k < |sizes| :: !(s < sizes[k] < t)
    ensures FirstCode(sizes, t) == EndCode(sizes, s) * Pow2(t - s)
    decreases t
  {
    if s + 1 < t {
      FirstCodeAfter(sizes, s, t - 1);
      CountNone(sizes, 0, |sizes|, t - 1);
      assert EndCode(sizes, s) * Pow2(t - s) == 2 * (EndCode(sizes, s) * Pow2(t - 1 - s));
    }
  }

  /** Symbol i is the first one among those with the shortest codes. */
  ghost predicate Shortest(sizes: seq<nat>, i: nat)
    requires i < |sizes|
  {
    forall k | 0 <= k < |sizes| && sizes[k] >= 1 :: sizes[k] > sizes[i] || (sizes[k] == sizes[i] && k >= i)
  }

  /** Symbol j is the next one of its length behind symbol i. */
  ghost predicate NextSame(sizes: seq<nat>, i: nat, j: nat)
    requires i < |sizes| && j < |sizes|
  {
    i < j && sizes[i] == sizes[j] && forall k | i < k < j :: sizes[k] != sizes[i]
  }

  /** Symbol i is the last one of its length, and symbol j the first one of the next length that is used. */
  ghost predicate NextLonger(sizes: seq<nat>, i: nat, j: nat)
    requires i < |sizes| && j < |sizes|
  {
    && sizes[i] < sizes[j] && (forall k | i < k < |sizes| :: sizes[k] != sizes[i])
    && (forall k | 0 <= k < j :: sizes[k] != sizes[j]) && forall k | 0 <= k < |sizes| :: !(sizes[i] < sizes[k] < sizes[j])
  }

  /** The canonical codes (section 3.2.2 of RFC 1951): the first of the shortest is zero; of one length they are consecutive in
      the order of symbols; and the next longer ones go on one behind, filled up with zeros. */
  lemma CanonicalOrder(sizes: seq<nat>, i: nat, j: nat)
    requires i < |sizes| && j < |sizes| && sizes[i] >= 1 && sizes[j] >= 1
    ensures Shortest(sizes, i) ==> Code(sizes, i) == 0
    ensures NextSame(sizes, i, j) ==> Code(sizes, j) == Code(sizes, i) + 1
    ensures NextLonger(sizes, i, j) ==> Code(sizes, j) == (Code(sizes, i) + 1) * Pow2(sizes[j] - sizes[i])
  {
    var s, t := sizes[i], sizes[j];
    if Shortest(sizes, i) {
      CountNone(sizes, 0, i, s);
      FirstCodeZero(sizes, s);
    }
    if NextSame(sizes, i, j) {
      CountNone(sizes, i + 1, j, s);
    }
    if NextLonger(sizes, i, j) {
      CountNone(sizes, i + 1, |sizes|, s);
      CountNone(sizes, 0, j, t);
      FirstCodeAfter(sizes, s, t);
    }
  }

  lemma {:induction false} FirstCodeZero(sizes: seq<nat>, s: nat)
    requires s >= 1 && forall k | 0 <= k < |sizes| :: !(1 <= sizes[k] < s)
    ensures FirstCode(sizes, s) == 0
  {
    if s > 1 {
      FirstCodeZero(sizes, s - 1);
      CountNone(sizes, 0, |sizes|, s - 1);
    }
  }

  // ---- Counting --------------------------------------------------------------------------

  lemma {:induction false} CountGrows(sizes: seq<nat>, m: nat, n: nat, s: nat)
    requires m <= n <= |sizes|
    ensures CountTo(sizes, m, s) <= CountTo(sizes, n, s)
    ensures m < n && sizes[m] == s ==> CountTo(sizes, m, s) < CountTo(sizes, n, s)
    decreases n
  {
    if m < n {
      CountGrows(sizes, m, n - 1, s);
    }
  }

  /** Each code of s bits between the first and the end is the code of a symbol. */
  lemma {:induction false} SymbolWithRank(sizes: seq<nat>, n: nat, s: nat, rank: nat) returns (i: nat)
    requires n <= |sizes| && rank < CountTo(sizes, n, s)
    ensures i < n && sizes[i] == s && CountTo(sizes, i, s) == rank
  {
    if sizes[n - 1] == s && rank == CountTo(sizes, n - 1, s) {
      i := n - 1;
    } else {
      i := SymbolWithRank(sizes, n - 1, s, rank);
    }
  }

  lemma CodeInRange(sizes: seq<nat>, i: nat)
    requires i < |sizes| && sizes[i] >= 1
    ensures FirstCode(sizes, sizes[i]) <= Code(sizes, i) < EndCode(sizes, sizes[i])
    ensures Count(sizes, sizes[i]) > 0
  {
    CountGrows(sizes, i, |sizes|, sizes[i]);
  }

  /** Where the codes of one length begin and end among all symbols ordered by code. */
  function FirstSymbol(sizes: seq<nat>, s: nat): nat
    requires s >= 1
  {
    if s == 1 then 0 else FirstSymbol(sizes, s - 1) + Count(sizes, s - 1)
  }

  function Place(sizes: seq<nat>, i: nat): nat
    requires i < |sizes| && sizes[i] >= 1
  {
    FirstSymbol(sizes, sizes[i]) + CountTo(sizes, i, sizes[i])
  }

  lemma {:induction false} SymbolsInOrder(sizes: seq<nat>, s: nat, t: nat)
    requires 1 <= s < t
    ensures FirstSymbol(sizes, s) + Count(sizes, s) <= FirstSymbol(sizes, t)
    decreases t
  {
    if s < t - 1 {
      SymbolsInOrder(sizes, s, t - 1);
    }
  }

  /** How many of the first n symbols have a code of 1 to s bits. */
  function CountUpTo(sizes: seq<nat>, n: nat, s: nat): (r: nat)
    requires n <= |sizes|
    ensures r <= n
  {
    if n == 0 then 0 else CountUpTo(sizes, n - 1, s) + if 1 <= sizes[n - 1] <= s then 1 else 0
  }

  lemma {:induction false} CountSplit(sizes: seq<nat>, n: nat, s: nat)
    requires n <= |sizes| && s >= 1
    ensures CountUpTo(sizes, n, s) == CountUpTo(sizes, n, s - 1) + CountTo(sizes, n, s)
  {
    if n > 0 {
      CountSplit(sizes, n - 1, s);
    }
  }

  lemma {:induction false} NoneUpToZero(sizes: seq<nat>, n: nat)
    requires n <= |sizes|
    ensures CountUpTo(sizes, n, 0) == 0
  {
    if n > 0 {
      NoneUpToZero(sizes, n - 1);
    }
  }

  lemma {:induction false} SymbolsCounted(sizes: seq<nat>, s: nat)
    requires s >= 1
    ensures FirstSymbol(sizes, s) == CountUpTo(sizes, |sizes|, s - 1)
    decreases s
  {
    if s == 1 {
      NoneUpToZero(sizes, |sizes|);
    } else {
      SymbolsCounted(sizes, s - 1);
      CountSplit(sizes, |sizes|, s - 1);
    }
  }

  lemma PlaceInRange(sizes: seq<nat>, i: nat)
    requires i < |sizes| && sizes[i] >= 1
    ensures Place(sizes, i) < |sizes|
  {
    var s := sizes[i];
    CountGrows(sizes, i, |sizes|, s);
    SymbolsCounted(sizes, s);
    CountSplit(sizes, |sizes|, s);
  }

  lemma PlacesDiffer(sizes: seq<nat>, i: nat, j: nat)
    requires i < |sizes| && j < |sizes| && sizes[i] >= 1 && sizes[j] >= 1 && i != j
    ensures Place(sizes, i) != Place(sizes, j)
  {
    var s, t := sizes[i], sizes[j];
    CountGrows(sizes, i, |sizes|, s);
    CountGrows(sizes, j, |sizes|, t);
    if s == t {
      CountGrows(sizes, if i < j then i else j, if i < j then j else i, s);
    } else if s < t {
      SymbolsInOrder(sizes, s, t);
    } else {
      SymbolsInOrder(sizes, t, s);
    }
  }

  // ---- Prefixes ----------------------------------------------------------------------------

  /** A stream that begins below the end of the codes of one length begins below the first code of any greater length. */
  lemma {:induction false} StaysBelow(sizes: seq<nat>, stream: nat, s: nat, t: nat)
    requires 1 <= s < t && Rev(stream, s) < EndCode(sizes, s)
    ensures Rev(stream, t) < FirstCode(sizes, t)
    decreases t
  {
    RevNext(stream, t - 1);
    if s < t - 1 {
      StaysBelow(sizes, stream, s, t - 1);
    }
  }

  /** At most one symbol's code begins a stream. */
  lemma OneMatch(sizes: seq<nat>, stream: nat, i: nat, j: nat)
    requires Matches(sizes, stream, i) && Matches(sizes, stream, j)
    ensures i == j
  {
    CodeInRange(sizes, i);
    CodeInRange(sizes, j);
    if sizes[i] < sizes[j] {
      StaysBelow(sizes, stream, sizes[i], sizes[j]);
    } else if sizes[j] < sizes[i] {
      StaysBelow(sizes, stream, sizes[j], sizes[i]);
    } else if i != j {
      CountGrows(sizes, if i < j then i else j, if i < j then j else i, sizes[i]);
    }
  }

  /** Without a match of up to s bits, a stream begins at or after the end of the codes of s bits. */
  lemma {:induction false} NoMatchAbove(sizes: seq<nat>, stream: nat, s: nat)
    requires s >= 1 && forall i | 0 <= i < |sizes| && 1 <= sizes[i] <= s :: !Matches(sizes, stream, i)
    ensures Rev(stream, s) >= EndCode(sizes, s)
    decreases s
  {
    if s > 1 {
      NoMatchAbove(sizes, stream, s - 1);
      RevNext(stream, s - 1);
    }
    if Rev(stream, s) < EndCode(sizes, s) {
      var i := SymbolWithRank(sizes, |sizes|, s, Rev(stream, s) - FirstCode(sizes, s));
      assert Matches(sizes, stream, i);
    }
  }

  /** With none shorter, a stream that begins below the end of the codes of s bits begins with one of them. */
  lemma MatchBelow(sizes: seq<nat>, stream: nat, s: nat) returns (i: nat)
    requires s >= 1 && Rev(stream, s) < EndCode(sizes, s)
    requires forall i | 0 <= i < |sizes| && 1 <= sizes[i] < s :: !Matches(sizes, stream, i)
    ensures i < |sizes| && sizes[i] == s && Matches(sizes, stream, i)
    ensures FirstCode(sizes, s) <= Rev(stream, s)
    ensures Rev(stream, s) - FirstCode(sizes, s) + FirstSymbol(sizes, s) == Place(sizes, i)
  {
    if s > 1 {
      NoMatchAbove(sizes, stream, s - 1);
      RevNext(stream, s - 1);
    }
    i := SymbolWithRank(sizes, |sizes|, s, Rev(stream, s) - FirstCode(sizes, s));
  }
}
