/** The bytes of files: what clusters hold, read as one sequence, and where a write leaves its cursor (Kernel/fat.cpp). */
module FatBytes {
  import opened Messages
  import opened FatChains

  ghost predicate DataOk(data: seq<seq<byte>>, size: nat) {
    size > 0 && forall c | 0 <= c < |data| :: |data[c]| == size
  }

  ghost predicate Within(s: seq<nat>, n: nat) {
    forall i | 0 <= i < |s| :: s[i] < n
  }

  /** Where the i-th cluster of a file begins. */
  function Offset(i: nat, size: nat): nat {
    if i == 0 then 0 else Offset(i - 1, size) + size
  }

  lemma OffsetNext(i: nat, size: nat)
    ensures Offset(0, size) == 0 && Offset(i + 1, size) == Offset(i, size) + size
  {
  }

  lemma {:induction false} OffsetOrder(i: nat, j: nat, size: nat)
    requires i <= j
    ensures Offset(i, size) <= Offset(j, size)
    ensures i < j ==> Offset(i, size) + size <= Offset(j, size)
    decreases j
  {
    if i < j {
      OffsetOrder(i, j - 1, size);
    }
  }

  /** The clusters of a chain one after the other. */
  function Bytes(data: seq<seq<byte>>, s: seq<nat>): seq<byte>
    requires Within(s, |data|)
  {
    if s == [] then [] else data[s[0]] + Bytes(data, s[1..])
  }

  lemma {:induction false} BytesLength(data: seq<seq<byte>>, s: seq<nat>, size: nat)
    requires DataOk(data, size) && Within(s, |data|)
    ensures |Bytes(data, s)| == Offset(|s|, size)
  {
    if s != [] {
      BytesLength(data, s[1..], size);
    }
  }

  lemma {:induction false} BytesConcat(data: seq<seq<byte>>, s: seq<nat>, t: seq<nat>)
    requires Within(s, |data|) && Within(t, |data|)
    ensures Within(s + t, |data|) && Bytes(data, s + t) == Bytes(data, s) + Bytes(data, t)
  {
    if s == [] {
      assert s + t == t;
    } else {
      BytesConcat(data, s[1..], t);
      assert (s + t)[1..] == s[1..] + t;
    }
  }

  lemma {:induction false} BytesFrame(data: seq<seq<byte>>, after: seq<seq<byte>>, s: seq<nat>)
    requires |after| == |data| && Within(s, |data|)
    requires forall i | 0 <= i < |s| :: after[s[i]] == data[s[i]]
    ensures Bytes(after, s) == Bytes(data, s)
  {
    if s != [] {
      BytesFrame(data, after, s[1..]);
    }
  }

  /** A piece of a cluster is the same piece of the file. */
  lemma BytesAt(data: seq<seq<byte>>, s: seq<nat>, size: nat, i: nat, off: nat, n: nat)
    requires DataOk(data, size) && Within(s, |data|) && i < |s| && off + n <= size
    ensures Offset(i, size) + off + n <= |Bytes(data, s)|
    ensures Bytes(data, s)[Offset(i, size) + off..Offset(i, size) + off + n] == data[s[i]][off..off + n]
  {
    hide Bytes, Offset;
    BytesSplit(data, s, size, i);
    MiddlePiece(Bytes(data, s[..i]), data[s[i]], Bytes(data, s[i + 1..]), off, n);
  }

  lemma MiddlePiece(a: seq<byte>, b: seq<byte>, c: seq<byte>, off: nat, n: nat)
    requires off + n <= |b|
    ensures (a + b + c)[|a| + off..|a| + off + n] == b[off..off + n]
  {
  }

  lemma BytesTail(data: seq<seq<byte>>, s: seq<nat>, i: nat)
    requires Within(s, |data|) && i < |s|
    ensures Bytes(data, s[i..]) == data[s[i]] + Bytes(data, s[i + 1..])
  {
    assert s[i..][0] == s[i] && s[i..][1..] == s[i + 1..];
  }

  lemma BytesSplit(data: seq<seq<byte>>, s: seq<nat>, size: nat, i: nat)
    requires DataOk(data, size) && Within(s, |data|) && i < |s|
    ensures Bytes(data, s) == Bytes(data, s[..i]) + data[s[i]] + Bytes(data, s[i + 1..])
    ensures |Bytes(data, s[..i])| == Offset(i, size)
  {
    hide Bytes, Offset, DataOk;
    BytesTail(data, s, i);
    BytesConcat(data, s[..i], s[i..]);
    assert s == s[..i] + s[i..];
    BytesLength(data, s[..i], size);
    Associate(Bytes(data, s[..i]), data[s[i]], Bytes(data, s[i + 1..]));
  }

  /** A piece written in a cluster of a chain without repeats is the same piece of the file replaced. */
  lemma BytesPut(data: seq<seq<byte>>, s: seq<nat>, size: nat, i: nat, off: nat, piece: seq<byte>)
    requires DataOk(data, size) && Within(s, |data|) && NoRepeats(s) && i < |s| && off + |piece| <= size
    ensures
      var cluster := data[s[i]][..off] + piece + data[s[i]][off + |piece|..];
      var after := data[s[i] := cluster];
      var at := Offset(i, size) + off;
      && DataOk(after, size) && at + |piece| <= |Bytes(data, s)|
      && Bytes(after, s) == Bytes(data, s)[..at] + piece + Bytes(data, s)[at + |piece|..]
  {
    var cluster := data[s[i]][..off] + piece + data[s[i]][off + |piece|..];
    var after := data[s[i] := cluster];
    hide Bytes, Offset;
    BytesSplit(data, s, size, i);
    BytesSplit(after, s, size, i);
    BytesFrame(data, after, s[..i]);
    BytesFrame(data, after, s[i + 1..]);
  }

  // ---- Where a write goes ---------------------------------------------------------------------

  /** How many clusters so many bytes take. */
  function NumCluster(bytes: nat, size: nat): nat
    requires size > 0
  {
    (bytes + size - 1) / size
  }

  /** The least number of clusters that hold them. */
  lemma NumClusterIs(bytes: nat, size: nat)
    requires size > 0
    ensures NumCluster(bytes, size) * size >= bytes && (bytes > 0 ==> (NumCluster(bytes, size) - 1) * size < bytes)
    ensures bytes == 0 ==> NumCluster(bytes, size) == 0
  {
    var n := NumCluster(bytes, size);
    assert bytes + size - 1 == n * size + (bytes + size - 1) % size;
    assert (n - 1) * size == n * size - size;
    if bytes == 0 {
      DivUnique(size - 1, size, 0, size - 1);
    }
  }

  /** A write cursor: the cluster of the chain it is in, the place in it, the clusters of the chain, the bytes written. */
  datatype Cursor = Cursor(index: nat, off: nat, length: nat, total: nat)

  ghost predicate CursorOk(c: Cursor, size: nat) {
    size > 0 && c.off <= size && c.index < c.length
  }

  /** At the end of a cluster: on to the next one, or to the last of those appended for the bytes that are left. */
  function Advance(c: Cursor, len: nat, size: nat): Cursor
    requires size > 0 && c.total < len
  {
    if c.off != size then c
    else if c.index + 1 < c.length then c.(index := c.index + 1, off := 0)
    else
      var n := NumCluster(len - c.total, size);
      Cursor(c.length + n - 1, 0, c.length + n, c.total)
  }

  /** One turn of the loop of FileDescriptor::Write: the rest of the cluster, or as much as the whole call asked for. */
  function Turn(c: Cursor, len: nat, size: nat): Cursor
    requires size > 0 && c.off <= size && c.total < len
  {
    var d := Advance(c, len, size);
    var room := size - d.off;
    var n := if len < room then len else room;
    d.(off := d.off + n, total := d.total + n)
  }

  lemma TurnOk(c: Cursor, len: nat, size: nat)
    requires CursorOk(c, size) && c.total < len
    ensures CursorOk(Turn(c, len, size), size) && CursorOk(Advance(c, len, size), size)
    ensures Advance(c, len, size).off < size
    ensures Turn(c, len, size).total > c.total && Turn(c, len, size).length >= c.length
  {
    NumClusterPositive(len - c.total, size);
  }

  lemma NumClusterPositive(bytes: nat, size: nat)
    requires size > 0 && bytes > 0
    ensures NumCluster(bytes, size) >= 1
    ensures NumCluster(bytes, size) == 1 <==> bytes <= size
  {
  }

  function Run(c: Cursor, len: nat, size: nat): (r: Cursor)
    requires CursorOk(c, size)
    ensures CursorOk(r, size) && r.total >= c.total && r.length >= c.length
    ensures r.total >= len
    decreases len - c.total
  {
    if c.total < len then
      TurnOk(c, len, size);
      Run(Turn(c, len, size), len, size)
    else c
  }

  /** How far the cursor is ahead of the bytes written. */
  function Slack(c: Cursor, size: nat): int {
    Offset(c.index, size) + c.off - c.total
  }

  /** A write that does what its caller expects: all bytes and no more, and the cursor right behind them. */
  ghost predicate Faithful(c: Cursor, len: nat, size: nat)
    requires CursorOk(c, size)
  {
    Run(c, len, size).total == len && Slack(Run(c, len, size), size) == Slack(c, size)
  }

  /** What a caller can check before: the bytes fit in the cluster; or the cluster is full and they take one at most; or
      they fill it and whole clusters after it, of which at most one is missing. */
  predicate WholeOrFits(c: Cursor, len: nat, size: nat)
    requires size > 0 && c.off <= size && c.index < c.length
  {
    var room, ahead := size - c.off, c.length - c.index - 1;
    || len <= room
    || (room == 0 && len <= size)
    || (len >= size && (len - room) % size == 0 && (len - room) / size <= ahead + 1)
  }

  lemma SlackGrows(c: Cursor, len: nat, size: nat)
    requires CursorOk(c, size) && c.total < len
    ensures
      var d := Advance(c, len, size);
      var jump := c.off == size && c.index + 1 == c.length && len - c.total > size;
      && Slack(d, size) >= Slack(c, size) && (Slack(d, size) > Slack(c, size) <==> jump)
      && Slack(Turn(c, len, size), size) == Slack(d, size)
  {
    var d := Advance(c, len, size);
    NumClusterPositive(len - c.total, size);
    OffsetNext(c.index, size);
    if c.off == size {
      OffsetOrder(c.index + 1, d.index, size);
    }
  }

  lemma {:induction false} SlackNeverShrinks(c: Cursor, len: nat, size: nat)
    requires CursorOk(c, size)
    ensures Slack(Run(c, len, size), size) >= Slack(c, size)
    decreases len - c.total
  {
    if c.total < len {
      TurnOk(c, len, size);
      SlackGrows(c, len, size);
      SlackNeverShrinks(Turn(c, len, size), len, size);
    }
  }

  lemma {:induction false} MulAtLeast(k: nat, size: nat)
    requires k >= 1
    ensures k * size >= size
  {
    if k > 1 {
      MulAtLeast(k - 1, size);
      assert k * size == (k - 1) * size + size;
    }
  }

  lemma DivUnique(x: int, size: int, q: int, r: int)
    requires size > 0 && x == q * size + r && 0 <= r < size
    ensures x / size == q && x % size == r
  {
    var p := x / size;
    assert x == p * size + x % size;
    assert (q - p) * size == x % size - r;
    if q > p {
      MulAtLeast(q - p, size);
    } else if q < p {
      assert (p - q) * size == r - x % size;
      MulAtLeast(p - q, size);
    }
  }

  lemma DivStep(rem: nat, size: nat)
    requires size > 0
    ensures rem < size ==> rem % size == rem
    ensures rem >= size ==> (rem - size) % size == rem % size && (rem - size) / size == rem / size - 1
    ensures rem > size && rem % size == 0 ==> rem / size >= 2
  {
    var q, r := rem / size, rem % size;
    assert rem == q * size + r;
    if rem < size {
      DivUnique(rem, size, 0, rem);
    } else {
      assert rem - size == (q - 1) * size + r;
      DivUnique(rem - size, size, q - 1, r);
      if q <= 1 {
        assert q * size <= size;
      }
    }
  }

  /** Whole clusters from a full one on. */
  lemma {:induction false} WholeClusters(c: Cursor, len: nat, size: nat)
    requires CursorOk(c, size) && c.off == size && c.total <= len && len >= size
    ensures
      var rem := len - c.total;
      Run(c, len, size).total == len && Slack(Run(c, len, size), size) == Slack(c, size) <==>
        rem % size == 0 && rem / size <= c.length - c.index
    decreases len - c.total
  {
    var rem := len - c.total;
    DivStep(rem, size);
    if rem > 0 {
      var d := Turn(c, len, size);
      TurnOk(c, len, size);
      SlackGrows(c, len, size);
      SlackNeverShrinks(d, len, size);
      NumClusterPositive(rem, size);
      if rem >= size && (c.index + 1 < c.length || rem == size) {
        WholeClusters(d, len, size);
      }
    }
  }

  /** A write is faithful exactly when its bytes fit, or fill whole clusters of which at most one is missing. */
  lemma FaithfulExactly(c: Cursor, len: nat, size: nat)
    requires CursorOk(c, size) && c.total == 0
    ensures Faithful(c, len, size) <==> WholeOrFits(c, len, size)
  {
    if len > 0 {
      var room := size - c.off;
      var d := Turn(c, len, size);
      TurnOk(c, len, size);
      SlackGrows(c, len, size);
      if room == 0 && len >= size {
        WholeClusters(c, len, size);
      } else if 0 < room < len && len >= size {
        WholeClusters(d, len, size);
      } else if 0 < room < len {
        TurnOk(d, len, size);
        assert Turn(d, len, size).total == room + len;
        assert Run(c, len, size) == Run(Turn(d, len, size), len, size);
      } else {
        assert d.total == len && Run(c, len, size) == Run(d, len, size) == d;
      }
    }
  }

  // ---- Where each byte lands ------------------------------------------------------------------

  /** Where byte k of the buffer lands in the file: as far ahead as the cursor is in the turn that writes it. */
  function Place(c: Cursor, len: nat, size: nat, k: nat): int
    requires CursorOk(c, size)
    decreases len - c.total
  {
    if c.total < len then
      TurnOk(c, len, size);
      var d := Turn(c, len, size);
      if k < d.total then Slack(d, size) + k else Place(d, len, size, k)
    else Slack(c, size) + k
  }

  /** Bytes land in order; what is left out between two of them is never made up for. */
  lemma {:induction false} PlacesInOrder(c: Cursor, len: nat, size: nat, j: nat, k: nat)
    requires CursorOk(c, size) && c.total <= j <= k
    ensures Slack(c, size) <= Place(c, len, size, j) - j <= Place(c, len, size, k) - k <= Slack(Run(c, len, size), size)
    decreases len - c.total
  {
    if c.total < len {
      var d := Turn(c, len, size);
      TurnOk(c, len, size);
      SlackGrows(c, len, size);
      SlackNeverShrinks(d, len, size);
      if d.total <= k {
        PlacesInOrder(d, len, size, if j < d.total then k else j, k);
      }
    }
  }

  lemma {:induction false} LastPlace(c: Cursor, len: nat, size: nat)
    requires CursorOk(c, size) && c.total < len
    ensures var r := Run(c, len, size); Place(c, len, size, r.total - 1) == Slack(r, size) + r.total - 1
    decreases len - c.total
  {
    var d := Turn(c, len, size);
    TurnOk(c, len, size);
    if d.total < len {
      LastPlace(d, len, size);
    }
  }

  /** All bytes land one behind the other from the cursor on, and no more than those asked for, under the same condition. */
  lemma LandsExactly(c: Cursor, len: nat, size: nat)
    requires CursorOk(c, size) && c.total == 0
    ensures
      Run(c, len, size).total == len && (forall k: nat | k < len :: Place(c, len, size, k) == Slack(c, size) + k) <==>
        WholeOrFits(c, len, size)
  {
    FaithfulExactly(c, len, size);
    if len > 0 {
      var last := Run(c, len, size).total - 1;
      LastPlace(c, len, size);
      forall k: nat | k < len
        ensures Slack(c, size) <= Place(c, len, size, k) - k <= Slack(Run(c, len, size), size)
      {
        PlacesInOrder(c, len, size, k, last);
      }
    }
  }

  /** One byte left in a cluster of four, two bytes to write: three are counted as written. */
  lemma OneByteTooMany()
    ensures
      var c := Cursor(0, 3, 1, 0);
      CursorOk(c, 4) && Run(c, 2, 4).total == 3 && !WholeOrFits(c, 2, 4)
  {
    assert Turn(Cursor(0, 3, 1, 0), 2, 4) == Cursor(0, 4, 1, 1);
    assert NumCluster(1, 4) == 1;
    assert Turn(Cursor(0, 4, 1, 1), 2, 4) == Cursor(1, 2, 2, 3);
  }

  /** A full cluster at the end of its chain, and two clusters of bytes: the first of the two new ones is left out. */
  lemma OneClusterLeftOut()
    ensures
      var c := Cursor(0, 4, 1, 0);
      && CursorOk(c, 4) && !WholeOrFits(c, 8, 4)
      && Advance(c, 8, 4) == Cursor(2, 0, 3, 0)
  {
    assert NumCluster(8, 4) == 2;
  }
}
