/** Files on a FAT volume: reading, writing and loading (Kernel/fat.cpp). */
module FatFiles {
  import opened Messages
  import opened FatChains
  import opened FatBytes
  import opened FilePages

  class Volume {
    const table: Table
    const data: array<seq<byte>>
    const clusterSize: nat

    constructor (table: Table, data: array<seq<byte>>, clusterSize: nat)
      ensures this.table == table && this.data == data && this.clusterSize == clusterSize
    {
      this.table := table;
      this.data := data;
      this.clusterSize := clusterSize;
    }

    ghost predicate Valid()
      reads table.fat, data
    {
      && TableOk(table.fat[..]) && data.Length == table.fat.Length
      && DataOk(data[..], clusterSize)
    }
  }

  /** The parts of a directory entry that say where a file is; the chain of its clusters is not stored. */
  class FileEntry {
    var firstCluster: nat
    var fileSize: nat
    ghost var chain: seq<nat>

    constructor ()
      ensures firstCluster == 0 && fileSize == 0 && chain == []
    {
      firstCluster, fileSize, chain := 0, 0, [];
    }

    ghost predicate Ok(v: Volume)
      reads this, v.table.fat, v.data
    {
      v.Valid() && FileOk(v.table.fat[..], v.data[..], v.clusterSize, firstCluster, fileSize, chain)
    }

    /** The bytes of the file. */
    ghost function Content(v: Volume): seq<byte>
      requires Ok(v)
      reads this, v.table.fat, v.data
    {
      FileBytes(v.data[..], v.clusterSize, chain)[..fileSize]
    }
  }

  ghost predicate FileOk(fat: seq<nat>, data: seq<seq<byte>>, size: nat, first: nat, fileSize: nat, chain: seq<nat>) {
    && TableOk(fat) && |data| == |fat| && DataOk(data, size)
    && (chain == [] <==> first == 0)
    && (chain != [] ==> IsChain(fat, chain) && chain[0] == first)
    && fileSize <= Offset(|chain|, size) == |FileBytes(data, size, chain)|
  }

  /** All bytes of a chain. */
  ghost function FileBytes(data: seq<seq<byte>>, size: nat, chain: seq<nat>): seq<byte> {
    if Within(chain, |data|) then Bytes(data, chain) else []
  }

  // ---- Reading ---------------------------------------------------------------------------

  /** A read cursor that stands at a byte of the file; behind the last cluster it holds the end mark. */
  ghost predicate ReadsAt(chain: seq<nat>, size: nat, off: nat, cluster: nat, clusterOff: nat, i: nat) {
    && off == Offset(i, size) + clusterOff
    && if i < |chain| then cluster == chain[i] && clusterOff < size
       else i == |chain| && clusterOff == 0 && cluster == if chain == [] then 0 else END_OF_CHAIN
  }

  lemma ReadStep(fat: seq<nat>, data: seq<seq<byte>>, size: nat, chain: seq<nat>, first: nat, fileSize: nat,
                 off: nat, cluster: nat, clusterOff: nat, i: nat, n: nat)
    requires FileOk(fat, data, size, first, fileSize, chain) && ReadsAt(chain, size, off, cluster, clusterOff, i)
    requires n > 0 && off + n <= fileSize && clusterOff + n <= size
    ensures i < |chain| && cluster < |fat| == |data| && |data[cluster]| == size
    ensures off + n <= |FileBytes(data, size, chain)|
    ensures Slice(FileBytes(data, size, chain), off, off + n) == data[cluster][clusterOff..clusterOff + n]
    ensures clusterOff + n < size ==> ReadsAt(chain, size, off + n, cluster, clusterOff + n, i)
    ensures clusterOff + n == size ==>
      ReadsAt(chain, size, off + n, if IsEnd(fat[cluster]) then END_OF_CHAIN else fat[cluster], 0, i + 1)
  {
    if i == |chain| {
      assert false;
    }
    NextInChain(fat, chain, i);
    BytesAt(data, chain, size, i, clusterOff, n);
    OffsetNext(i, size);
  }

  /** Only in an empty file does a cursor hold no cluster. */
  lemma UnusedCursor(fat: seq<nat>, data: seq<seq<byte>>, size: nat, chain: seq<nat>, first: nat, fileSize: nat,
                     off: nat, cluster: nat, clusterOff: nat, i: nat)
    requires FileOk(fat, data, size, first, fileSize, chain) && ReadsAt(chain, size, off, cluster, clusterOff, i)
    ensures cluster == 0 ==> off == 0 && clusterOff == 0 && i == 0
  {
    if i < |chain| {
      NextInChain(fat, chain, i);
    }
  }

  function Slice(bytes: seq<byte>, from: nat, to: nat): (r: seq<byte>)
    ensures from <= to <= |bytes| ==> |r| == to - from && forall i | 0 <= i < |r| :: r[i] == bytes[from + i]
  {
    if from <= to <= |bytes| then bytes[from..to] else []
  }

  lemma SliceMore(bytes: seq<byte>, from: nat, mid: nat, to: nat)
    requires from <= mid <= to <= |bytes|
    ensures Slice(bytes, from, mid) + Slice(bytes, mid, to) == Slice(bytes, from, to)
    ensures Slice(bytes, from, from) == []
  {
    assert bytes[from..mid] + bytes[mid..to] == bytes[from..to];
  }

  lemma SliceOfPrefix(bytes: seq<byte>, n: nat, from: nat, to: nat)
    requires from <= to <= n <= |bytes|
    ensures bytes[..n][from..to] == Slice(bytes, from, to)
    ensures |Slice(bytes, from, to)| == to - from
  {
  }

  /** A place in the file reached cluster by cluster: so many clusters on, and an offset still to go. */
  ghost predicate Walked(chain: seq<nat>, size: nat, off: nat, cluster: nat, rest: nat, i: nat) {
    && off == Offset(i, size) + rest && i <= |chain|
    && cluster == if i < |chain| then chain[i] else if chain == [] then 0 else END_OF_CHAIN
  }

  lemma WalkStep(fat: seq<nat>, data: seq<seq<byte>>, size: nat, chain: seq<nat>, first: nat, fileSize: nat,
                 off: nat, cluster: nat, rest: nat, i: nat)
    requires FileOk(fat, data, size, first, fileSize, chain) && Walked(chain, size, off, cluster, rest, i)
    requires off <= fileSize
    ensures size > 0
    ensures rest < size ==> ReadsAt(chain, size, off, cluster, rest, i)
    ensures rest >= size ==>
      && cluster < |fat|
      && Walked(chain, size, off, if IsEnd(fat[cluster]) then END_OF_CHAIN else fat[cluster], rest - size, i + 1)
  {
    if i < |chain| {
      NextInChain(fat, chain, i);
      OffsetNext(i, size);
    }
  }

  /** Consecutive pieces of a content. */
  function Pieces(content: seq<byte>, off: nat, lens: seq<nat>): seq<seq<byte>>
    decreases |lens|
  {
    if lens == [] then []
    else
      var to := if off + lens[0] < |content| then off + lens[0] else |content|;
      [Slice(content, off, to)] + Pieces(content, to, lens[1..])
  }

  /** Piece i goes from one place to the next, which is as far behind as was asked for, or the end. */
  ghost predicate PieceAt(content: seq<byte>, lens: seq<nat>, pieces: seq<seq<byte>>, offs: seq<nat>, i: nat) {
    && i < |lens| && i < |pieces| && i + 1 < |offs| && offs[i] <= offs[i + 1] <= |content|
    && pieces[i] == content[offs[i]..offs[i + 1]]
    && offs[i + 1] == if offs[i] + lens[i] < |content| then offs[i] + lens[i] else |content|
  }

  lemma {:induction false} PiecesAre(content: seq<byte>, off: nat, lens: seq<nat>) returns (offs: seq<nat>)
    requires off <= |content|
    ensures |Pieces(content, off, lens)| == |lens| && |offs| == |lens| + 1 && offs[0] == off
    ensures forall i: nat | i < |lens| :: PieceAt(content, lens, Pieces(content, off, lens), offs, i)
    decreases |lens|
  {
    if lens == [] {
      offs := [off];
    } else {
      var to := if off + lens[0] < |content| then off + lens[0] else |content|;
      var rest := PiecesAre(content, to, lens[1..]);
      offs := [off] + rest;
      forall i: nat | i < |lens|
        ensures PieceAt(content, lens, Pieces(content, off, lens), offs, i)
      {
        if i > 0 {
          assert PieceAt(content, lens[1..], Pieces(content, to, lens[1..]), rest, i - 1);
        }
      }
    }
  }

  function Flatten(pieces: seq<seq<byte>>): seq<byte> {
    if pieces == [] then [] else pieces[0] + Flatten(pieces[1..])
  }

  function Sum(lens: seq<nat>): nat {
    if lens == [] then 0 else lens[0] + Sum(lens[1..])
  }

  /** Together they are one piece, up to the sum of the lengths or the end. */
  lemma {:induction false} PiecesAreOne(content: seq<byte>, off: nat, lens: seq<nat>)
    requires off <= |content|
    ensures
      var to := if off + Sum(lens) < |content| then off + Sum(lens) else |content|;
      Flatten(Pieces(content, off, lens)) == content[off..to]
    decreases |lens|
  {
    if lens != [] {
      var to := if off + lens[0] < |content| then off + lens[0] else |content|;
      PiecesAreOne(content, to, lens[1..]);
      var pieces := Pieces(content, off, lens);
      assert pieces[0] == Slice(content, off, to) && pieces[1..] == Pieces(content, to, lens[1..]);
    }
  }

  // ---- Writing ------------------------------------------------------------------------------

  /** The table, the clusters, and the chain of a file. */
  datatype Stored = Stored(fat: seq<nat>, data: seq<seq<byte>>, chain: seq<nat>)

  ghost predicate StoredOk(f: Stored, size: nat) {
    TableOk(f.fat) && |f.data| == |f.fat| && DataOk(f.data, size) && IsChain(f.fat, f.chain)
  }

  ghost predicate CursorIn(f: Stored, size: nat, c: Cursor, cluster: nat) {
    CursorOk(c, size) && c.length == |f.chain| && cluster == f.chain[c.index]
  }

  /** A chain has grown by the first free clusters. */
  ghost predicate ChainGrew(fat: seq<nat>, s: seq<nat>, after: seq<nat>, t: seq<nat>) {
    && |t| >= |s| && t == s + FirstFree(fat, 2, |t| - |s|)
    && Grown(fat, after, s, FirstFree(fat, 2, |t| - |s|))
  }

  ghost predicate OnlyIn(data: seq<seq<byte>>, after: seq<seq<byte>>, s: seq<nat>) {
    |after| == |data| && forall d | 0 <= d < |data| && d !in s :: after[d] == data[d]
  }

  /** What a write may do to the volume: the chain grows by the first free clusters, and only its clusters change. */
  ghost predicate Extended(f: Stored, g: Stored) {
    ChainGrew(f.fat, f.chain, g.fat, g.chain) && OnlyIn(f.data, g.data, g.chain)
  }

  /** The file begins with a text. */
  ghost predicate Holds(f: Stored, size: nat, text: seq<byte>) {
    |text| <= |FileBytes(f.data, size, f.chain)| && FileBytes(f.data, size, f.chain)[..|text|] == text
  }

  lemma ExtendedNot(f: Stored, size: nat)
    requires StoredOk(f, size)
    ensures Extended(f, f)
  {
    GrownNothing(f.fat, f.chain);
    assert FirstFree(f.fat, 2, 0) == [];
    assert f.chain + [] == f.chain;
  }

  lemma ChainGrewTwice(fat: seq<nat>, s: seq<nat>, mid: seq<nat>, t: seq<nat>, after: seq<nat>, u: seq<nat>)
    requires TableOk(fat) && (s == [] || IsChain(fat, s)) && t != []
    requires ChainGrew(fat, s, mid, t) && ChainGrew(mid, t, after, u)
    ensures ChainGrew(fat, s, after, u)
  {
    var a, b := |t| - |s|, |u| - |t|;
    var more, rest := FirstFree(fat, 2, a), FirstFree(mid, 2, b);
    assert |more| == a && t == s + more && u == t + rest;
    assert Grown(fat, mid, s, more) && Grown(mid, after, s + more, rest);
    hide *;
    GrowMore(fat, mid, s, a, b);
    GrownTwice(fat, mid, after, s, more, rest);
    MakeChainGrew(fat, s, after, u, more, rest);
  }

  lemma MakeChainGrew(fat: seq<nat>, s: seq<nat>, after: seq<nat>, u: seq<nat>, more: seq<nat>, rest: seq<nat>)
    requires u == s + more + rest && more + rest == FirstFree(fat, 2, |u| - |s|)
    requires Grown(fat, after, s, more + rest)
    ensures ChainGrew(fat, s, after, u)
  {
    assert s + more + rest == s + (more + rest);
  }

  lemma ExtendedTwice(f: Stored, g: Stored, h: Stored)
    requires TableOk(f.fat) && (f.chain == [] || IsChain(f.fat, f.chain)) && Extended(f, g) && g.chain != []
    requires Extended(g, h)
    ensures Extended(f, h)
  {
    ChainGrewTwice(f.fat, f.chain, g.fat, g.chain, h.fat, h.chain);
    assert h.chain[..|g.chain|] == g.chain;
    hide ChainGrew;
    forall d | 0 <= d < |f.data| && d !in h.chain
      ensures h.data[d] == f.data[d]
    {
      assert d !in g.chain;
    }
  }

  lemma StoredFacts(f: Stored, size: nat, c: Cursor, cluster: nat)
    requires StoredOk(f, size) && CursorIn(f, size, c, cluster)
    ensures c.index < |f.chain| && cluster == f.chain[c.index] && cluster < |f.fat| == |f.data|
    ensures |f.data[cluster]| == size
    ensures c.off <= size && size > 0 && TableOk(f.fat) && IsChain(f.fat, f.chain)
    ensures (if IsEnd(f.fat[cluster]) then END_OF_CHAIN else f.fat[cluster]) == END_OF_CHAIN <==> c.index + 1 == c.length
    ensures c.index + 1 < c.length ==> f.fat[cluster] == f.chain[c.index + 1] && !IsEnd(f.fat[cluster])
    ensures c.length == |f.chain|
  {
    NextInChain(f.fat, f.chain, c.index);
    if c.index + 1 < |f.chain| {
      assert InTable(f.fat, f.chain[c.index + 1]);
    }
  }

  lemma NoAdvance(c: Cursor, len: nat, size: nat)
    requires size > 0 && c.total < len
    ensures c.off != size ==> Advance(c, len, size) == c
  {
  }

  /** The next cluster of the chain. */
  lemma NextStored(f: Stored, size: nat, c: Cursor, cluster: nat, len: nat)
    requires StoredOk(f, size) && CursorIn(f, size, c, cluster)
    requires c.off == size && c.total < len && c.index + 1 < c.length
    ensures CursorIn(f, size, Advance(c, len, size), f.fat[cluster])
    ensures Advance(c, len, size) == c.(index := c.index + 1, off := 0)
  {
    StoredFacts(f, size, c, cluster);
  }

  /** The last of the clusters appended. */
  lemma GrownStored(f: Stored, size: nat, c: Cursor, cluster: nat, len: nat, after: seq<nat>)
    requires StoredOk(f, size) && CursorIn(f, size, c, cluster)
    requires c.off == size && c.total < len && c.index + 1 == c.length
    requires
      var n := NumCluster(len - c.total, size);
      |FirstFree(f.fat, 2, n)| == n && Grown(f.fat, after, f.chain, FirstFree(f.fat, 2, n))
    ensures
      var n := NumCluster(len - c.total, size);
      var g := Stored(after, f.data, f.chain + FirstFree(f.fat, 2, n));
      && StoredOk(g, size) && Extended(f, g) && g.chain != []
      && CursorIn(g, size, Advance(c, len, size), Last(g.chain))
      && Advance(c, len, size) == Cursor(|g.chain| - 1, 0, |g.chain|, c.total)
  {
    NumClusterPositive(len - c.total, size);
  }

  lemma WithinPart(s: seq<nat>, t: seq<nat>, n: nat)
    requires Within(s + t, n)
    ensures Within(s, n) && Within(t, n)
  {
    forall i | 0 <= i < |s|
      ensures s[i] < n
    {
      assert (s + t)[i] == s[i];
    }
    forall i | 0 <= i < |t|
      ensures t[i] < n
    {
      assert (s + t)[|s| + i] == t[i];
    }
  }

  lemma HoldsMore(f: Stored, g: Stored, size: nat, more: seq<nat>, text: seq<byte>)
    requires f.data == g.data && g.chain == f.chain + more && Within(g.chain, |g.data|)
    ensures Holds(f, size, text) ==> Holds(g, size, text)
  {
    WithinPart(f.chain, more, |g.data|);
    hide Bytes, Within;
    BytesConcat(f.data, f.chain, more);
  }

  /** A file that has grown begins with what it held. */
  lemma GrownHolds(f: Stored, g: Stored, size: nat, text: seq<byte>)
    requires StoredOk(f, size) && StoredOk(g, size) && f.data == g.data && Extended(f, g)
    ensures Holds(f, size, text) ==> Holds(g, size, text)
  {
    assert Within(g.chain, |g.data|);
    hide FirstFree, Grown, StoredOk, Holds;
    HoldsMore(f, g, size, FirstFree(f.fat, 2, |g.chain| - |f.chain|), text);
  }

  /** The data with a piece written in a cluster. */
  function Put(data: seq<seq<byte>>, cluster: nat, off: nat, piece: seq<byte>): seq<seq<byte>>
    requires cluster < |data| && off + |piece| <= |data[cluster]|
  {
    data[cluster := data[cluster][..off] + piece + data[cluster][off + |piece|..]]
  }

  lemma PutStored(f: Stored, size: nat, c: Cursor, cluster: nat, piece: seq<byte>)
    requires StoredOk(f, size) && CursorIn(f, size, c, cluster) && c.off + |piece| <= size
    ensures cluster < |f.data| && |f.data[cluster]| == size
    ensures
      var g := f.(data := Put(f.data, cluster, c.off, piece));
      && StoredOk(g, size) && Extended(f, g)
      && CursorIn(g, size, c.(off := c.off + |piece|), cluster)
  {
    StoredFacts(f, size, c, cluster);
    ExtendedNot(f, size);
  }

  /** A piece written where a text ends continues the text. */
  lemma PutHolds(f: Stored, size: nat, c: Cursor, cluster: nat, piece: seq<byte>, text: seq<byte>)
    requires StoredOk(f, size) && CursorIn(f, size, c, cluster) && c.off + |piece| <= size
    requires cluster < |f.data| && |f.data[cluster]| == size
    requires Holds(f, size, text) && |text| == Offset(c.index, size) + c.off
    ensures Holds(f.(data := Put(f.data, cluster, c.off, piece)), size, text + piece)
  {
    Acyclic(f.fat, f.chain);
    assert Within(f.chain, |f.data|);
    hide IsChain, NoRepeats, Bytes;
    BytesPut(f.data, f.chain, size, c.index, c.off, piece);
  }

  /** A chain of the first free clusters, for a file that had none. */
  lemma NewStored(f: Stored, size: nat, after: seq<nat>, n: nat)
    requires TableOk(f.fat) && |f.data| == |f.fat| && DataOk(f.data, size) && f.chain == [] && n > 0
    requires |FirstFree(f.fat, 2, n)| == n && Grown(f.fat, after, [], FirstFree(f.fat, 2, n))
    ensures
      var g := Stored(after, f.data, FirstFree(f.fat, 2, n));
      && StoredOk(g, size) && Extended(f, g) && g.chain != []
      && CursorIn(g, size, Cursor(0, 0, |g.chain|, 0), FirstFree(f.fat, 2, n)[0])
  {
    assert [] + FirstFree(f.fat, 2, n) == FirstFree(f.fat, 2, n);
  }

  /** There are as many free clusters as a write will append to the chain. */
  ghost predicate Enough(f: Stored, c: Cursor, len: nat, size: nat)
    requires CursorOk(c, size)
  {
    var need := Run(c, len, size).length - |f.chain|;
    need >= 0 && |FirstFree(f.fat, 2, need)| == need
  }

  /** The free clusters a write will still need are there. */
  lemma StillEnough(f: Stored, g: Stored, size: nat, start: Cursor, c: Cursor, len: nat)
    requires TableOk(f.fat) && (f.chain == [] || IsChain(f.fat, f.chain)) && Extended(f, g)
    requires CursorOk(c, size) && c.length == |g.chain| && c.total < len
    requires CursorOk(start, size) && Run(c, len, size) == Run(start, len, size) && Enough(f, start, len, size)
    ensures
      var n := Advance(c, len, size).length - c.length;
      n >= 0 && |FirstFree(g.fat, 2, n)| == n
  {
    hide *;
    EnoughFacts(f, start, len, size);
    GrewFacts(f, g);
    AdvanceWithin(c, len, size);
    var n, a := Advance(c, len, size).length - c.length, |g.chain| - |f.chain|;
    EnoughFree(f.fat, 2, a + n, Run(c, len, size).length - |f.chain|);
    GrowMore(f.fat, g.fat, f.chain, a, n);
  }

  lemma EnoughFacts(f: Stored, c: Cursor, len: nat, size: nat)
    requires CursorOk(c, size) && Enough(f, c, len, size)
    ensures
      var need := Run(c, len, size).length - |f.chain|;
      need >= 0 && |FirstFree(f.fat, 2, need)| == need
  {
  }

  lemma GrewFacts(f: Stored, g: Stored)
    requires Extended(f, g)
    ensures
      var a := |g.chain| - |f.chain|;
      a >= 0 && |FirstFree(f.fat, 2, a)| == a && Grown(f.fat, g.fat, f.chain, FirstFree(f.fat, 2, a))
  {
  }

  lemma AdvanceWithin(c: Cursor, len: nat, size: nat)
    requires CursorOk(c, size) && c.total < len
    ensures size > 0 && c.length <= Advance(c, len, size).length <= Run(c, len, size).length
  {
    TurnOk(c, len, size);
    NumClusterPositive(len - c.total, size);
  }

  function BufferBytes(buf: nat -> byte, n: nat): seq<byte> {
    seq(n, i requires 0 <= i => buf(i))
  }

  /** A part of a buffer. */
  function BufferPart(buf: nat -> byte, from: nat, n: nat): (r: seq<byte>)
    ensures |r| == n
  {
    seq(n, i requires 0 <= i => buf(from + i))
  }

  lemma BufferMore(buf: nat -> byte, text: seq<byte>, total: nat, n: nat)
    ensures text + BufferBytes(buf, total) + BufferPart(buf, total, n) == text + BufferBytes(buf, total + n)
    ensures |text + BufferBytes(buf, total)| == |text| + total
    ensures text + BufferBytes(buf, 0) == text
  {
  }

  /** The data with a piece written in the i-th cluster of a chain. */
  function PutAt(data: seq<seq<byte>>, chain: seq<nat>, i: nat, off: nat, piece: seq<byte>): seq<seq<byte>> {
    if i < |chain| && chain[i] < |data| && off + |piece| <= |data[chain[i]]| then Put(data, chain[i], off, piece) else data
  }

  /** The data after a write: each turn puts the next piece of the buffer where the cursor stands. */
  function Landed(data: seq<seq<byte>>, chain: seq<nat>, c: Cursor, len: nat, size: nat, buf: nat -> byte): seq<seq<byte>>
    requires CursorOk(c, size)
    decreases len - c.total
  {
    if c.total < len then
      TurnOk(c, len, size);
      var d := Turn(c, len, size);
      var n := d.total - c.total;
      Landed(PutAt(data, chain, d.index, d.off - n, BufferPart(buf, c.total, n)), chain, d, len, size, buf)
    else data
  }

  lemma LandedNext(data: seq<seq<byte>>, chain: seq<nat>, c: Cursor, d: Cursor, len: nat, size: nat, buf: nat -> byte)
    requires CursorOk(c, size) && c.total < len && d == Turn(c, len, size)
    ensures CursorOk(d, size) && c.total < d.total && d.total - c.total <= d.off && d.index < d.length
    ensures
      var n := d.total - c.total;
      Landed(PutAt(data, chain, d.index, d.off - n, BufferPart(buf, c.total, n)), chain, d, len, size, buf) ==
        Landed(data, chain, c, len, size, buf)
  {
    TurnOk(c, len, size);
  }

  lemma LandedDone(data: seq<seq<byte>>, chain: seq<nat>, c: Cursor, len: nat, size: nat, buf: nat -> byte)
    requires CursorOk(c, size) && c.total >= len
    ensures Landed(data, chain, c, len, size, buf) == data
  {
  }

  /** A byte of the buffer lands there. */
  ghost predicate Reached(c: Cursor, len: nat, size: nat, p: nat)
    requires CursorOk(c, size)
  {
    exists k: nat :: c.total <= k < Run(c, len, size).total && Place(c, len, size, k) == p
  }

  /** Byte k of the buffer is at its place, and all other bytes are what they were. */
  ghost predicate InPlace(was: seq<byte>, now: seq<byte>, c: Cursor, len: nat, size: nat, buf: nat -> byte)
    requires CursorOk(c, size)
  {
    && |now| == |was|
    && (forall k: nat | c.total <= k < Run(c, len, size).total ::
          0 <= Place(c, len, size, k) < |now| && now[Place(c, len, size, k)] == buf(k))
    && (forall p | 0 <= p < |now| && !Reached(c, len, size, p) :: now[p] == was[p])
  }

  /** What later turns do leaves the piece of this one alone. */
  lemma NotReached(d: Cursor, len: nat, size: nat, p: nat)
    requires CursorOk(d, size) && p < Slack(d, size) + d.total
    ensures !Reached(d, len, size, p)
  {
    forall k: nat | d.total <= k < Run(d, len, size).total
      ensures Place(d, len, size, k) != p
    {
      PlacesInOrder(d, len, size, k, k);
    }
  }

  lemma FirstPlaces(c: Cursor, d: Cursor, len: nat, size: nat)
    requires CursorOk(c, size) && c.total < len && d == Turn(c, len, size)
    ensures CursorOk(d, size) && c.total < d.total <= Run(d, len, size).total
    ensures Run(c, len, size) == Run(d, len, size)
    ensures forall k: nat | c.total <= k < d.total :: Place(c, len, size, k) == Slack(d, size) + k
    ensures forall k: nat | d.total <= k :: Place(c, len, size, k) == Place(d, len, size, k)
  {
    TurnOk(c, len, size);
  }

  lemma ReachedNext(c: Cursor, d: Cursor, len: nat, size: nat, p: nat)
    requires CursorOk(c, size) && c.total < len && d == Turn(c, len, size) && CursorOk(d, size)
    ensures Slack(d, size) + c.total <= p < Slack(d, size) + d.total || Reached(d, len, size, p) ==> Reached(c, len, size, p)
  {
    FirstPlaces(c, d, len, size);
    hide Turn, Slack, CursorOk, Place, Run;
    if Reached(d, len, size, p) {
      var k: nat :| d.total <= k < Run(d, len, size).total && Place(d, len, size, k) == p;
      assert Place(c, len, size, k) == p;
    } else if Slack(d, size) + c.total <= p < Slack(d, size) + d.total {
      assert Place(c, len, size, p - Slack(d, size)) == p;
    }
  }

  lemma PieceByte(was: seq<byte>, mid: seq<byte>, now: seq<byte>, c: Cursor, d: Cursor, len: nat, size: nat,
                  buf: nat -> byte, at: nat, k: nat)
    requires CursorOk(d, size) && at == Slack(d, size) + c.total && c.total <= k < d.total
    requires at + (d.total - c.total) <= |was|
    requires mid == was[..at] + BufferPart(buf, c.total, d.total - c.total) + was[at + (d.total - c.total)..]
    requires InPlace(mid, now, d, len, size, buf)
    ensures |now| == |was| && 0 <= Slack(d, size) + k < |now| && now[Slack(d, size) + k] == buf(k)
  {
    hide Slack, Run, Place, Reached;
    NotReached(d, len, size, Slack(d, size) + k);
    assert mid[Slack(d, size) + k] == BufferPart(buf, c.total, d.total - c.total)[k - c.total];
  }

  lemma OtherByte(was: seq<byte>, mid: seq<byte>, now: seq<byte>, c: Cursor, d: Cursor, len: nat, size: nat,
                  buf: nat -> byte, at: nat, p: nat)
    requires CursorOk(c, size) && c.total < len && d == Turn(c, len, size) && CursorOk(d, size) && c.total < d.total
    requires at == Slack(d, size) + c.total && at + (d.total - c.total) <= |was|
    requires mid == was[..at] + BufferPart(buf, c.total, d.total - c.total) + was[at + (d.total - c.total)..]
    requires InPlace(mid, now, d, len, size, buf) && p < |now| && !Reached(c, len, size, p)
    ensures |now| == |was| && now[p] == was[p]
  {
    hide Slack, Run, Place, Reached, Turn, CursorOk, BufferPart;
    ReachedNext(c, d, len, size, p);
  }

  lemma FirstPiece(was: seq<byte>, mid: seq<byte>, now: seq<byte>, c: Cursor, d: Cursor, len: nat, size: nat,
                   buf: nat -> byte, at: nat)
    requires CursorOk(c, size) && c.total < len && d == Turn(c, len, size) && CursorOk(d, size) && c.total < d.total
    requires at == Slack(d, size) + c.total && at + (d.total - c.total) <= |was|
    requires mid == was[..at] + BufferPart(buf, c.total, d.total - c.total) + was[at + (d.total - c.total)..]
    requires InPlace(mid, now, d, len, size, buf)
    ensures InPlace(was, now, c, len, size, buf)
  {
    hide Turn, Slack, CursorOk, Place, Run, Reached, BufferPart;
    FirstPlaces(c, d, len, size);
    forall k: nat | c.total <= k < Run(c, len, size).total
      ensures 0 <= Place(c, len, size, k) < |now| && now[Place(c, len, size, k)] == buf(k)
    {
      if k < d.total {
        PieceByte(was, mid, now, c, d, len, size, buf, at, k);
      }
    }
    forall p | 0 <= p < |now| && !Reached(c, len, size, p)
      ensures now[p] == was[p]
    {
      OtherByte(was, mid, now, c, d, len, size, buf, at, p);
    }
  }

  /** One turn: the piece is in the chain's clusters, and in the bytes of the file. */
  lemma TurnLands(data: seq<seq<byte>>, chain: seq<nat>, c: Cursor, d: Cursor, len: nat, size: nat, piece: seq<byte>)
    requires CursorOk(c, size) && DataOk(data, size) && Within(chain, |data|) && NoRepeats(chain)
    requires c.total < len && d == Turn(c, len, size) && |piece| == d.total - c.total && Run(c, len, size).length <= |chain|
    ensures CursorOk(d, size) && c.total < d.total && |piece| <= d.off && Run(d, len, size).length <= |chain|
    ensures 0 <= Slack(d, size) + c.total
    ensures
      var next, at := PutAt(data, chain, d.index, d.off - |piece|, piece), Slack(d, size) + c.total;
      var was := FileBytes(data, size, chain);
      && DataOk(next, size) && |next| == |data| && OnlyIn(data, next, chain) && at + |piece| <= |was|
      && FileBytes(next, size, chain) == was[..at] + piece + was[at + |piece|..]
  {
    hide *;
    TurnShape(c, d, len, size);
    InChain(data, chain, size, d.index);
    BytesPut(data, chain, size, d.index, d.off - |piece|, piece);
    PutAtIs(data, chain, d.index, d.off - |piece|, piece);
    BytesOf(data, size, chain);
    BytesOf(PutAt(data, chain, d.index, d.off - |piece|, piece), size, chain);
  }

  lemma BytesOf(data: seq<seq<byte>>, size: nat, chain: seq<nat>)
    requires Within(chain, |data|)
    ensures FileBytes(data, size, chain) == Bytes(data, chain)
  {
  }

  lemma TurnShape(c: Cursor, d: Cursor, len: nat, size: nat)
    requires CursorOk(c, size) && c.total < len && d == Turn(c, len, size)
    ensures CursorOk(d, size) && c.total < d.total && d.total - c.total <= d.off <= size
    ensures d.index < d.length <= Run(d, len, size).length == Run(c, len, size).length
    ensures Slack(d, size) + c.total == Offset(d.index, size) + (d.off - (d.total - c.total))
  {
    TurnRuns(c, len, size);
    TurnOk(c, len, size);
  }

  lemma InChain(data: seq<seq<byte>>, chain: seq<nat>, size: nat, i: nat)
    requires DataOk(data, size) && Within(chain, |data|) && i < |chain|
    ensures chain[i] < |data| && |data[chain[i]]| == size
  {
  }

  lemma PutAtIs(data: seq<seq<byte>>, chain: seq<nat>, i: nat, off: nat, piece: seq<byte>)
    requires i < |chain| && chain[i] < |data| && off + |piece| <= |data[chain[i]]|
    ensures PutAt(data, chain, i, off, piece) ==
      data[chain[i] := data[chain[i]][..off] + piece + data[chain[i]][off + |piece|..]]
    ensures OnlyIn(data, PutAt(data, chain, i, off, piece), chain)
  {
  }

  /** After any write, byte k of the buffer is at its place in the file, and all other bytes are what they were. */
  lemma {:induction false} BytesLanded(data: seq<seq<byte>>, chain: seq<nat>, c: Cursor, len: nat, size: nat,
                                       buf: nat -> byte)
    requires CursorOk(c, size) && DataOk(data, size) && Within(chain, |data|) && NoRepeats(chain)
    requires Run(c, len, size).length <= |chain|
    ensures
      var after := Landed(data, chain, c, len, size, buf);
      && OnlyIn(data, after, chain)
      && InPlace(FileBytes(data, size, chain), FileBytes(after, size, chain), c, len, size, buf)
    decreases len - c.total
  {
    hide *;
    if c.total < len {
      CursorFacts(c, size);
      var d := Turn(c, len, size);
      LandedNext(data, chain, c, d, len, size, buf);
      var piece := BufferPart(buf, c.total, d.total - c.total);
      TurnLands(data, chain, c, d, len, size, piece);
      var next := PutAt(data, chain, d.index, d.off - |piece|, piece);
      BytesLanded(next, chain, d, len, size, buf);
      var after := Landed(data, chain, c, len, size, buf);
      FirstPiece(FileBytes(data, size, chain), FileBytes(next, size, chain), FileBytes(after, size, chain),
        c, d, len, size, buf, Slack(d, size) + c.total);
      OnlyInTwice(data, next, after, chain);
    } else {
      NothingLanded(data, chain, c, len, size, buf);
    }
  }

  lemma CursorFacts(c: Cursor, size: nat)
    requires CursorOk(c, size)
    ensures size > 0 && c.off <= size && c.index < c.length
  {
  }

  lemma OnlyInTwice(data: seq<seq<byte>>, mid: seq<seq<byte>>, after: seq<seq<byte>>, s: seq<nat>)
    requires OnlyIn(data, mid, s) && OnlyIn(mid, after, s)
    ensures OnlyIn(data, after, s)
  {
  }

  lemma NothingLanded(data: seq<seq<byte>>, chain: seq<nat>, c: Cursor, len: nat, size: nat, buf: nat -> byte)
    requires CursorOk(c, size) && c.total >= len
    ensures Landed(data, chain, c, len, size, buf) == data && OnlyIn(data, data, chain)
    ensures InPlace(FileBytes(data, size, chain), FileBytes(data, size, chain), c, len, size, buf)
  {
  }

  /** What a write has done to the clusters, and to the bytes of the file. */
  ghost predicate AllLanded(f: Stored, g: Stored, size: nat, c: Cursor, len: nat, buf: nat -> byte)
    requires CursorOk(c, size)
  {
    && g.data == Landed(f.data, g.chain, c, len, size, buf)
    && InPlace(FileBytes(f.data, size, g.chain), FileBytes(g.data, size, g.chain), c, len, size, buf)
  }

  lemma StoredLanded(f: Stored, g: Stored, c: Cursor, len: nat, size: nat, buf: nat -> byte)
    requires DataOk(f.data, size) && |f.data| == |g.data| && StoredOk(g, size)
    requires CursorOk(c, size) && Run(c, len, size).length == |g.chain|
    requires g.data == Landed(f.data, g.chain, c, len, size, buf)
    ensures AllLanded(f, g, size, c, len, buf)
  {
    Acyclic(g.fat, g.chain);
    assert Within(g.chain, |f.data|);
    hide Landed, InPlace, StoredOk, Run;
    BytesLanded(f.data, g.chain, c, len, size, buf);
  }

  /** A piece continues a text, if the cursor behind the piece is where the text and the piece together end. */
  ghost predicate Continued(f: Stored, g: Stored, size: nat, d: Cursor, text: seq<byte>, piece: seq<byte>) {
    Holds(f, size, text) && |text| + |piece| == Offset(d.index, size) + d.off ==> Holds(g, size, text + piece)
  }

  lemma MakeContinued(f: Stored, g: Stored, h: Stored, size: nat, d: Cursor, text: seq<byte>, piece: seq<byte>)
    requires Holds(f, size, text) ==> Holds(g, size, text)
    requires Holds(g, size, text) && |text| == Offset(d.index, size) + d.off - |piece| ==> Holds(h, size, text + piece)
    ensures Continued(f, h, size, d, text, piece)
  {
  }

  /** In the middle of a write that began at c: the cursor d is on the way of the whole run, and if it has not left
      clusters out, the file holds the text and the bytes written since. */
  ghost predicate Underway(f: Stored, g: Stored, size: nat, c: Cursor, d: Cursor, cluster: nat, len: nat,
                           text: seq<byte>, buf: nat -> byte)
  {
    && StoredOk(g, size) && CursorIn(g, size, d, cluster) && CursorOk(c, size) && CursorOk(d, size) && Extended(f, g)
    && Run(d, len, size) == Run(c, len, size)
    && Slack(d, size) >= Slack(c, size) >= |text|
    && (Slack(d, size) == |text| ==> Holds(g, size, text + BufferBytes(buf, d.total)))
  }

  /** The turns that are left lead to the same clusters as all turns did from the beginning. */
  ghost predicate OnTheWay(f: Stored, g: Stored, size: nat, c: Cursor, d: Cursor, len: nat, buf: nat -> byte)
    requires CursorOk(c, size) && CursorOk(d, size)
  {
    Landed(g.data, Goal(f, c, len, size), d, len, size, buf) == Landed(f.data, Goal(f, c, len, size), c, len, size, buf)
  }

  /** In the middle of a write, with the clusters as the turns so far have left them. */
  ghost predicate Writing(f: Stored, g: Stored, size: nat, c: Cursor, d: Cursor, cluster: nat, len: nat,
                          text: seq<byte>, buf: nat -> byte)
  {
    Underway(f, g, size, c, d, cluster, len, text, buf) && OnTheWay(f, g, size, c, d, len, buf)
  }

  /** The chain a write will leave. */
  function Goal(f: Stored, c: Cursor, len: nat, size: nat): seq<nat>
    requires CursorOk(c, size)
  {
    var need := Run(c, len, size).length - |f.chain|;
    if need >= 0 then f.chain + FirstFree(f.fat, 2, need) else f.chain
  }

  /** A turn on the chain as it is by then puts its piece where it would on the chain the write will leave. */
  lemma GoalBegins(f: Stored, h: Stored, c: Cursor, len: nat, size: nat)
    requires CursorOk(c, size) && Enough(f, c, len, size) && Extended(f, h) && |h.chain| <= Run(c, len, size).length
    ensures h.chain <= Goal(f, c, len, size)
  {
    FirstFreePrefix(f.fat, 2, |h.chain| - |f.chain|, Run(c, len, size).length - |f.chain|);
  }

  lemma SamePut(data: seq<seq<byte>>, s: seq<nat>, t: seq<nat>, i: nat, off: nat, piece: seq<byte>)
    requires s <= t && i < |s|
    ensures PutAt(data, s, i, off, piece) == PutAt(data, t, i, off, piece)
  {
    assert s[i] == t[i];
  }

  /** The clusters after a turn are on the way to those after the write. */
  lemma StillLands(f: Stored, g: Stored, h: Stored, size: nat, c: Cursor, d: Cursor, e: Cursor, len: nat, buf: nat -> byte)
    requires CursorOk(c, size) && CursorOk(d, size) && d.total < len && e == Turn(d, len, size) && |h.chain| == e.length
    requires Enough(f, c, len, size) && Extended(f, h) && Run(d, len, size) == Run(c, len, size)
    requires d.total < e.total && e.total - d.total <= e.off
    requires
      var n := e.total - d.total;
      h.data == PutAt(g.data, h.chain, e.index, e.off - n, BufferPart(buf, d.total, n))
    ensures CursorOk(e, size)
    ensures OnTheWay(f, g, size, c, d, len, buf) ==> OnTheWay(f, h, size, c, e, len, buf)
  {
    var n := e.total - d.total;
    TurnRuns(d, len, size);
    RunGrows(e, len, size);
    assert OnTheWay(f, g, size, c, d, len, buf) <==>
      Landed(g.data, Goal(f, c, len, size), d, len, size, buf) == Landed(f.data, Goal(f, c, len, size), c, len, size, buf);
    assert OnTheWay(f, h, size, c, e, len, buf) <==>
      Landed(h.data, Goal(f, c, len, size), e, len, size, buf) == Landed(f.data, Goal(f, c, len, size), c, len, size, buf);
    LandedNext(g.data, Goal(f, c, len, size), d, e, len, size, buf);
    hide *;
    GoalBegins(f, h, c, len, size);
    SamePut(g.data, h.chain, Goal(f, c, len, size), e.index, e.off - n, BufferPart(buf, d.total, n));
  }

  lemma RunGrows(c: Cursor, len: nat, size: nat)
    requires CursorOk(c, size)
    ensures c.length <= Run(c, len, size).length
  {
  }

  lemma WritingNext(f: Stored, g: Stored, h: Stored, size: nat, c: Cursor, d: Cursor, e: Cursor, cluster: nat, next: nat,
                    len: nat, text: seq<byte>, buf: nat -> byte)
    requires TableOk(f.fat) && (f.chain == [] || IsChain(f.fat, f.chain))
    requires Writing(f, g, size, c, d, cluster, len, text, buf) && d.total < len
    requires size > 0 && d.off <= size && e == Turn(d, len, size) && e.total > d.total
    requires StoredOk(h, size) && CursorIn(h, size, e, next) && Extended(g, h)
    requires Continued(g, h, size, e, text + BufferBytes(buf, d.total), BufferPart(buf, d.total, e.total - d.total))
    requires Enough(f, c, len, size) && e.total - d.total <= e.off
    requires
      var n := e.total - d.total;
      h.data == PutAt(g.data, h.chain, e.index, e.off - n, BufferPart(buf, d.total, n))
    ensures Writing(f, h, size, c, e, next, len, text, buf)
    ensures g.chain != [] && h.chain != [] && h.chain[0] == g.chain[0]
  {
    WritingFacts(f, g, size, c, d, cluster, len, text, buf);
    hide *;
    TurnRuns(d, len, size);
    StoredTable(g, size);
    ExtendedStart(g, h);
    CursorLength(h, size, e, next);
    ExtendedTwice(f, g, h);
    StillLands(f, g, h, size, c, d, e, len, buf);
    UnderwayNext(f, g, h, size, c, d, e, cluster, next, len, text, buf);
    MakeWriting(f, h, size, c, e, next, len, text, buf);
  }

  lemma MakeWriting(f: Stored, g: Stored, size: nat, c: Cursor, d: Cursor, cluster: nat, len: nat,
                    text: seq<byte>, buf: nat -> byte)
    requires Underway(f, g, size, c, d, cluster, len, text, buf) && CursorOk(c, size) && CursorOk(d, size)
    requires OnTheWay(f, g, size, c, d, len, buf)
    ensures Writing(f, g, size, c, d, cluster, len, text, buf)
  {
  }

  lemma UnderwayNext(f: Stored, g: Stored, h: Stored, size: nat, c: Cursor, d: Cursor, e: Cursor, cluster: nat, next: nat,
                     len: nat, text: seq<byte>, buf: nat -> byte)
    requires Underway(f, g, size, c, d, cluster, len, text, buf) && d.total < len && Extended(f, h)
    requires size > 0 && d.off <= size && e == Turn(d, len, size) && e.total > d.total
    requires StoredOk(h, size) && CursorIn(h, size, e, next)
    requires Continued(g, h, size, e, text + BufferBytes(buf, d.total), BufferPart(buf, d.total, e.total - d.total))
    ensures Underway(f, h, size, c, e, next, len, text, buf)
  {
    TurnRuns(d, len, size);
    BufferMore(buf, text, d.total, e.total - d.total);
    hide StoredOk, CursorIn, CursorOk, Holds, Extended, Run, Turn, Offset, BufferBytes, BufferPart, TableOk, IsChain;
  }

  lemma ExtendedStart(g: Stored, h: Stored)
    requires Extended(g, h) && g.chain != []
    ensures h.chain != [] && h.chain[0] == g.chain[0]
  {
  }

  lemma FileOkOf(f: Stored, size: nat, c: Cursor, cluster: nat, first: nat, fileSize: nat)
    requires StoredOk(f, size) && CursorIn(f, size, c, cluster) && f.chain[0] == first
    requires fileSize <= Offset(c.index, size) + c.off
    ensures FileOk(f.fat, f.data, size, first, fileSize, f.chain)
  {
    NextInChain(f.fat, f.chain, 0);
    assert Within(f.chain, |f.data|);
    BytesLength(f.data, f.chain, size);
    OffsetOrder(c.index + 1, |f.chain|, size);
    OffsetNext(c.index, size);
  }

  lemma SameCursor(f: Stored, size: nat, c: Cursor, cluster: nat, total: nat)
    requires CursorIn(f, size, c, cluster)
    ensures CursorIn(f, size, c.(total := total), cluster)
  {
  }

  lemma CursorLength(f: Stored, size: nat, c: Cursor, cluster: nat)
    requires CursorIn(f, size, c, cluster)
    ensures c.length == |f.chain|
  {
  }

  lemma StoredVolume(f: Stored, size: nat)
    requires StoredOk(f, size)
    ensures TableOk(f.fat) && |f.data| == |f.fat| && DataOk(f.data, size)
  {
  }

  lemma StoredTable(f: Stored, size: nat)
    requires StoredOk(f, size)
    ensures TableOk(f.fat) && IsChain(f.fat, f.chain) && f.chain != []
  {
  }

  lemma BeginHolds(f: Stored, g: Stored, size: nat, text: seq<byte>)
    requires f.chain == [] || StoredOk(f, size)
    requires StoredOk(g, size) && f.data == g.data && Extended(f, g) && Holds(f, size, text)
    requires f.chain == [] ==> text == []
    ensures Holds(g, size, text)
  {
    if f.chain != [] {
      GrownHolds(f, g, size, text);
    }
  }

  lemma TurnRuns(c: Cursor, len: nat, size: nat)
    requires CursorOk(c, size) && c.total < len
    ensures size > 0 && c.off <= size && CursorOk(Turn(c, len, size), size)
    ensures Run(Turn(c, len, size), len, size) == Run(c, len, size)
    ensures Slack(Turn(c, len, size), size) >= Slack(c, size)
  {
    TurnOk(c, len, size);
    SlackGrows(c, len, size);
  }

  lemma RunDone(c: Cursor, len: nat, size: nat)
    requires CursorOk(c, size) && c.total >= len
    ensures Run(c, len, size) == c
  {
  }

  /** A file that shares no cluster with one that is written keeps its chain and its bytes. */
  lemma OtherFileKept(f: Stored, g: Stored, size: nat, t: seq<nat>)
    requires TableOk(f.fat) && |f.fat| == |f.data| && Extended(f, g) && IsChain(f.fat, t) && Disjoint(f.chain, t)
    ensures IsChain(g.fat, t) && Disjoint(g.chain, t)
    ensures FileBytes(g.data, size, t) == FileBytes(f.data, size, t)
  {
    FirstFreeMembers(f.fat, 2, |g.chain| - |f.chain|);
    OtherChain(f.fat, g.fat, f.chain, FirstFree(f.fat, 2, |g.chain| - |f.chain|), t);
    assert Within(t, |f.data|);
    hide FirstFree, Grown;
    forall i | 0 <= i < |t|
      ensures g.data[t[i]] == f.data[t[i]]
    {
      assert t[i] !in g.chain;
    }
    BytesFrame(f.data, g.data, t);
  }

  // ---- Many writes -----------------------------------------------------------------------------

  /** What one call of Write is given: the memory from its buffer on, and a length. */
  datatype Chunk = Chunk(buf: nat -> byte, len: nat)

  function Concat(chunks: seq<Chunk>): seq<byte> {
    if chunks == [] then [] else BufferBytes(chunks[0].buf, chunks[0].len) + Concat(chunks[1..])
  }

  /** The bytes of all chunks, one after the other. */
  lemma {:induction false} ConcatIs(a: seq<Chunk>, c: Chunk, b: seq<Chunk>, k: nat)
    ensures Concat([]) == [] && Concat(a + b) == Concat(a) + Concat(b)
    ensures |Concat([c])| == c.len && (k < c.len ==> Concat([c])[k] == c.buf(k))
    decreases |a|
  {
    assert [c][1..] == [];
    if a == [] {
      assert a + b == b;
    } else {
      ConcatIs(a[1..], c, b, k);
      assert (a + b)[1..] == a[1..] + b;
      Associate(BufferBytes(a[0].buf, a[0].len), Concat(a[1..]), Concat(b));
    }
  }

  /** Where many writes end that begin at a cursor. */
  function RunAll(c: Cursor, chunks: seq<Chunk>, size: nat): (r: Cursor)
    requires CursorOk(c, size)
    ensures CursorOk(r, size) && r.length >= c.length
    decreases |chunks|
  {
    if chunks == [] then c else RunAll(Run(c, chunks[0].len, size).(total := 0), chunks[1..], size)
  }

  /** Each write fits, or fills whole clusters of which at most one is missing. */
  predicate AllFit(c: Cursor, chunks: seq<Chunk>, size: nat)
    requires size > 0 && c.off <= size && c.index < c.length
    decreases |chunks|
  {
    chunks == [] ||
    (WholeOrFits(c, chunks[0].len, size) && AllFit(Run(c.(total := 0), chunks[0].len, size).(total := 0), chunks[1..], size))
  }

  lemma FirstFits(c: Cursor, chunks: seq<Chunk>, size: nat)
    requires chunks != [] && size > 0 && c.off <= size && c.index < c.length && AllFit(c, chunks, size)
    ensures WholeOrFits(c, chunks[0].len, size)
    ensures c.total == 0 ==>
      CursorOk(c, size) && AllFit(Run(c, chunks[0].len, size).(total := 0), chunks[1..], size)
  {
    assert c.total == 0 ==> c.(total := 0) == c;
  }

  lemma ConcatNext(text: seq<byte>, chunks: seq<Chunk>)
    requires chunks != []
    ensures text + Concat(chunks) == text + BufferBytes(chunks[0].buf, chunks[0].len) + Concat(chunks[1..])
    ensures Concat([]) == []
  {
  }

  /** For a new file, the first write fits if it takes one cluster at most, or fills whole ones. */
  lemma NewFileFits(len: nat, size: nat)
    requires size > 0
    ensures WholeOrFits(Cursor(0, 0, ChainLength(NumCluster(len, size)), 0), len, size) <==> len <= size || len % size == 0
  {
    DivStep(len, size);
    var n := NumCluster(len, size);
    if len > size && len % size == 0 {
      assert len == (len / size) * size;
      DivUnique(len + size - 1, size, len / size, size - 1);
    }
  }

  ghost predicate EnoughForAll(f: Stored, c: Cursor, chunks: seq<Chunk>, size: nat)
    requires CursorOk(c, size)
  {
    var need := RunAll(c, chunks, size).length - |f.chain|;
    need >= 0 && |FirstFree(f.fat, 2, need)| == need
  }

  lemma EnoughForAllFacts(f: Stored, c: Cursor, chunks: seq<Chunk>, size: nat)
    requires chunks != [] && CursorOk(c, size) && EnoughForAll(f, c, chunks, size)
    ensures
      var need := RunAll(c, chunks, size).length - |f.chain|;
      need >= 0 && |FirstFree(f.fat, 2, need)| == need
    ensures
      var d := Run(c, chunks[0].len, size).(total := 0);
      CursorOk(d, size) && RunAll(c, chunks, size) == RunAll(d, chunks[1..], size) && d.length <= RunAll(c, chunks, size).length
  {
  }

  lemma EnoughForEach(f: Stored, c: Cursor, chunks: seq<Chunk>, size: nat)
    requires chunks != [] && CursorOk(c, size) && EnoughForAll(f, c, chunks, size)
    requires Run(c, chunks[0].len, size).length >= |f.chain|
    ensures Enough(f, c, chunks[0].len, size)
  {
    hide *;
    EnoughForAllFacts(f, c, chunks, size);
    var need := Run(c, chunks[0].len, size).length - |f.chain|;
    EnoughFree(f.fat, 2, need, RunAll(c, chunks, size).length - |f.chain|);
    MakeEnough(f, c, chunks[0].len, size, need);
  }

  lemma MakeEnough(f: Stored, c: Cursor, len: nat, size: nat, need: nat)
    requires CursorOk(c, size) && Run(c, len, size).length == |f.chain| + need && |FirstFree(f.fat, 2, need)| == need
    ensures Enough(f, c, len, size)
  {
  }

  lemma EnoughForRest(f: Stored, g: Stored, c: Cursor, chunks: seq<Chunk>, size: nat)
    requires TableOk(f.fat) && (f.chain == [] || IsChain(f.fat, f.chain)) && Extended(f, g)
    requires chunks != [] && CursorOk(c, size) && EnoughForAll(f, c, chunks, size)
    requires |g.chain| == Run(c, chunks[0].len, size).length
    ensures CursorOk(Run(c, chunks[0].len, size).(total := 0), size)
    ensures EnoughForAll(g, Run(c, chunks[0].len, size).(total := 0), chunks[1..], size)
  {
    hide *;
    EnoughForAllFacts(f, c, chunks, size);
    var d := Run(c, chunks[0].len, size).(total := 0);
    var rest := RunAll(d, chunks[1..], size).length - |g.chain|;
    GrewFacts(f, g);
    GrowMore(f.fat, g.fat, f.chain, |g.chain| - |f.chain|, rest);
    MakeEnoughForAll(g, d, chunks[1..], size, rest);
  }

  lemma MakeEnoughForAll(f: Stored, c: Cursor, chunks: seq<Chunk>, size: nat, need: nat)
    requires CursorOk(c, size) && RunAll(c, chunks, size).length == |f.chain| + need
    requires |FirstFree(f.fat, 2, need)| == need
    ensures EnoughForAll(f, c, chunks, size)
  {
  }

  lemma WritingStarts(f: Stored, g: Stored, size: nat, c: Cursor, cluster: nat, len: nat, text: seq<byte>,
                      buf: nat -> byte)
    requires f.chain == [] || StoredOk(f, size)
    requires StoredOk(g, size) && CursorIn(g, size, c, cluster) && f.data == g.data && Extended(f, g)
    requires Holds(f, size, text)
    requires f.chain == [] ==> text == []
    requires CursorOk(c, size) && c.total == 0 && Slack(c, size) >= |text|
    ensures Writing(f, g, size, c, c, cluster, len, text, buf)
  {
    BufferMore(buf, text, 0, 0);
    BeginHolds(f, g, size, text);
  }

  lemma WritingFacts(f: Stored, g: Stored, size: nat, c: Cursor, d: Cursor, cluster: nat, len: nat,
                     text: seq<byte>, buf: nat -> byte)
    requires Writing(f, g, size, c, d, cluster, len, text, buf)
    ensures StoredOk(g, size) && CursorIn(g, size, d, cluster) && CursorOk(c, size) && CursorOk(d, size) && Extended(f, g)
    ensures size > 0 && d.off <= size && d.length == |g.chain|
    ensures Run(d, len, size) == Run(c, len, size)
    ensures Underway(f, g, size, c, d, cluster, len, text, buf) && OnTheWay(f, g, size, c, d, len, buf)
  {
  }

  /** After all turns of a write that began at c. */
  ghost predicate Written(f: Stored, g: Stored, size: nat, c: Cursor, d: Cursor, cluster: nat, len: nat,
                          text: seq<byte>, buf: nat -> byte)
  {
    && StoredOk(g, size) && CursorIn(g, size, d, cluster) && CursorOk(c, size) && Extended(f, g)
    && d == Run(c, len, size) && Slack(d, size) >= Slack(c, size) >= |text| && cluster != 0
    && (d.total == len && Slack(d, size) == |text| ==>
          Slice(FileBytes(g.data, size, g.chain), 0, |text| + len) == text + BufferBytes(buf, len))
    && AllLanded(f, g, size, c, len, buf)
  }

  lemma WrittenFacts(f: Stored, g: Stored, size: nat, c: Cursor, d: Cursor, cluster: nat, len: nat,
                     text: seq<byte>, buf: nat -> byte)
    requires Written(f, g, size, c, d, cluster, len, text, buf)
    ensures StoredOk(g, size) && CursorIn(g, size, d, cluster) && CursorOk(c, size) && Extended(f, g)
    ensures d == Run(c, len, size) && Slack(d, size) >= Slack(c, size) >= |text| && cluster != 0
    ensures d.total == len && Slack(d, size) == |text| ==>
      Slice(FileBytes(g.data, size, g.chain), 0, |text| + len) == text + BufferBytes(buf, len)
    ensures AllLanded(f, g, size, c, len, buf)
  {
  }

  lemma WritingDone(f: Stored, g: Stored, size: nat, c: Cursor, d: Cursor, cluster: nat, len: nat,
                    text: seq<byte>, buf: nat -> byte)
    requires Writing(f, g, size, c, d, cluster, len, text, buf) && d.total >= len && DataOk(f.data, size)
    ensures Written(f, g, size, c, d, cluster, len, text, buf)
  {
    WritingFacts(f, g, size, c, d, cluster, len, text, buf);
    UnderwayDone(f, g, size, c, d, cluster, len, text, buf);
    GoalReached(f, g, size, c, d, len, buf);
    StoredLanded(f, g, c, len, size, buf);
    hide StoredOk, CursorIn, CursorOk, Extended, Run, Slack, FileBytes, AllLanded, Writing, DataOk, Slice, BufferBytes;
  }

  lemma UnderwayDone(f: Stored, g: Stored, size: nat, c: Cursor, d: Cursor, cluster: nat, len: nat,
                     text: seq<byte>, buf: nat -> byte)
    requires Underway(f, g, size, c, d, cluster, len, text, buf) && d.total >= len
    ensures d == Run(c, len, size) && Slack(d, size) >= Slack(c, size) >= |text| && cluster != 0
    ensures d.total == len && Slack(d, size) == |text| ==>
      Slice(FileBytes(g.data, size, g.chain), 0, |text| + len) == text + BufferBytes(buf, len)
  {
    StoredFacts(g, size, d, cluster);
    NextInChain(g.fat, g.chain, d.index);
    RunDone(d, len, size);
    BufferMore(buf, text, len, 0);
  }

  lemma GoalReached(f: Stored, g: Stored, size: nat, c: Cursor, d: Cursor, len: nat, buf: nat -> byte)
    requires CursorOk(c, size) && CursorOk(d, size) && d.total >= len && d == Run(c, len, size) && d.length == |g.chain|
    requires Extended(f, g) && OnTheWay(f, g, size, c, d, len, buf)
    ensures g.data == Landed(f.data, g.chain, c, len, size, buf) && |f.data| == |g.data|
  {
    hide Landed, Run;
    LandedDone(g.data, Goal(f, c, len, size), d, len, size, buf);
  }

  lemma AdvanceNeeds(f: Stored, c: Cursor, cluster: nat, len: nat, size: nat)
    requires CursorIn(f, size, c, cluster) && c.total < len
    ensures CursorOk(c, size) && size > 0 && c.off <= size && Advance(c, len, size).off < size
    ensures Advance(c, len, size).length - c.length ==
      if c.off == size && c.index + 1 == c.length then NumCluster(len - c.total, size) else 0
  {
    TurnOk(c, len, size);
  }

  lemma TurnIs(c: Cursor, d: Cursor, len: nat, size: nat, n: nat)
    requires size > 0 && c.off <= size && c.total < len && d == Advance(c, len, size) && d.off < size
    requires n == if len < size - d.off then len else size - d.off
    ensures Turn(c, len, size) == d.(off := d.off + n, total := d.total + n) && n > 0
  {
  }

  class FileDescriptor {
    const volume: Volume
    const entry: FileEntry
    var rdOff: nat
    var rdCluster: nat
    var rdClusterOff: nat
    ghost var rdIndex: nat
    var wrOff: nat
    var wrCluster: nat
    var wrClusterOff: nat
    ghost var wrIndex: nat

    constructor (volume: Volume, entry: FileEntry)
      ensures this.volume == volume && this.entry == entry
      ensures rdOff == 0 && rdCluster == 0 && rdClusterOff == 0 && rdIndex == 0
      ensures wrOff == 0 && wrCluster == 0 && wrClusterOff == 0 && wrIndex == 0
    {
      this.volume, this.entry := volume, entry;
      rdOff, rdCluster, rdClusterOff, rdIndex := 0, 0, 0, 0;
      wrOff, wrCluster, wrClusterOff, wrIndex := 0, 0, 0, 0;
    }

    /** The read cursor has not been used yet, or stands where rdOff says. */
    ghost predicate ReadOk()
      reads this, entry
    {
      && (rdCluster == 0 ==> rdOff == 0 && rdClusterOff == 0 && rdIndex == 0)
      && (rdCluster != 0 ==> ReadsAt(entry.chain, volume.clusterSize, rdOff, rdCluster, rdClusterOff, rdIndex))
      && rdOff <= entry.fileSize
    }

    /** One turn of the loop of Read: what is wanted of the current cluster. */
    method ReadPiece(rest: nat, ghost off: nat) returns (piece: seq<byte>)
      requires FileOk(volume.table.fat[..], volume.data[..], volume.clusterSize, entry.firstCluster, entry.fileSize, entry.chain)
      requires ReadsAt(entry.chain, volume.clusterSize, off, rdCluster, rdClusterOff, rdIndex)
      requires rest > 0 && off + rest <= entry.fileSize && rdClusterOff < volume.clusterSize
      modifies `rdCluster, `rdClusterOff, `rdIndex
      ensures 0 < |piece| <= rest && rdClusterOff < volume.clusterSize
      ensures ReadsAt(entry.chain, volume.clusterSize, off + |piece|, rdCluster, rdClusterOff, rdIndex)
      ensures
        var bytes := FileBytes(volume.data[..], volume.clusterSize, entry.chain);
        off + |piece| <= |bytes| && piece == Slice(bytes, off, off + |piece|)
    {
      hide *;
      var k := volume.clusterSize - rdClusterOff;
      if rest < k {
        k := rest;
      }
      ReadStep(volume.table.fat[..], volume.data[..], volume.clusterSize, entry.chain, entry.firstCluster, entry.fileSize,
        off, rdCluster, rdClusterOff, rdIndex, k);
      piece := volume.data[rdCluster][rdClusterOff..rdClusterOff + k];
      rdClusterOff := rdClusterOff + k;
      if rdClusterOff == volume.clusterSize {
        rdCluster := volume.table.NextCluster(rdCluster);
        rdClusterOff := 0;
        rdIndex := rdIndex + 1;
      }
    }

    /** Reads the next bytes, fewer at the end of the file. */
    method Read(len: nat) returns (out: seq<byte>)
      requires entry.Ok(volume) && ReadOk()
      modifies `rdOff, `rdCluster, `rdClusterOff, `rdIndex
      ensures ReadOk() && rdOff == old(rdOff) + |out|
      ensures |out| == if len < entry.fileSize - old(rdOff) then len else entry.fileSize - old(rdOff)
      ensures rdOff <= |entry.Content(volume)| && out == entry.Content(volume)[old(rdOff)..rdOff]
      ensures entry.Content(volume) == old(entry.Content(volume)) && |entry.Content(volume)| == entry.fileSize
    {
      hide *;
      ReadFacts();
      ghost var bytes := FileBytes(volume.data[..], volume.clusterSize, entry.chain);
      if rdCluster == 0 {
        rdCluster := entry.firstCluster;
      }
      var n := if len < entry.fileSize - rdOff then len else entry.fileSize - rdOff;
      var total := 0;
      out := [];
      SliceMore(bytes, rdOff, rdOff, rdOff);
      while total < n
        invariant rdOff == old(rdOff) && 0 <= total <= n && rdClusterOff < volume.clusterSize
        invariant ReadsAt(entry.chain, volume.clusterSize, rdOff + total, rdCluster, rdClusterOff, rdIndex)
        invariant out == Slice(bytes, rdOff, rdOff + total)
      {
        var piece := ReadPiece(n - total, rdOff + total);
        SliceMore(bytes, rdOff, rdOff + total, rdOff + total + |piece|);
        out := out + piece;
        total := total + |piece|;
      }
      SliceOfPrefix(bytes, entry.fileSize, rdOff, rdOff + total);
      rdOff := rdOff + total;
      UnusedCursor(volume.table.fat[..], volume.data[..], volume.clusterSize, entry.chain, entry.firstCluster, entry.fileSize,
        rdOff, rdCluster, rdClusterOff, rdIndex);
      MakeReadOk();
    }

    /** Any sequence of reads returns consecutive pieces of the file. */
    method ReadMany(lens: seq<nat>) returns (outs: seq<seq<byte>>)
      requires entry.Ok(volume) && ReadOk()
      modifies `rdOff, `rdCluster, `rdClusterOff, `rdIndex
      ensures ReadOk()
      ensures outs == Pieces(entry.Content(volume), old(rdOff), lens)
      decreases |lens|
    {
      hide *;
      ghost var content, start := entry.Content(volume), rdOff;
      NextPieces(content, start, lens);
      if lens == [] {
        outs := [];
      } else {
        var out := Read(lens[0]);
        SliceOfWhole(content, start, rdOff);
        outs := ReadMany(lens[1..]);
        outs := [out] + outs;
      }
    }

    lemma NextPieces(content: seq<byte>, off: nat, lens: seq<nat>)
      ensures Pieces(content, off, lens) ==
        if lens == [] then []
        else
          var to := if off + lens[0] < |content| then off + lens[0] else |content|;
          [Slice(content, off, to)] + Pieces(content, to, lens[1..])
    {
    }

    lemma SliceOfWhole(content: seq<byte>, from: nat, to: nat)
      requires from <= to <= |content|
      ensures content[from..to] == Slice(content, from, to)
    {
    }

    /** Reads from an offset with a descriptor of its own. */
    method Load(len: nat, offset: nat) returns (out: seq<byte>)
      requires entry.Ok(volume) && offset <= entry.fileSize
      ensures |out| == if len < entry.fileSize - offset then len else entry.fileSize - offset
      ensures offset + |out| <= |entry.Content(volume)| && out == entry.Content(volume)[offset..offset + |out|]
    {
      hide *;
      LoadFacts();
      var fd := new FileDescriptor(volume, entry);
      fd.rdOff := offset;
      var rest: nat := offset;
      var cluster: nat := entry.firstCluster;
      ghost var i: nat := 0;
      WalkStep(volume.table.fat[..], volume.data[..], volume.clusterSize, entry.chain, entry.firstCluster, entry.fileSize,
        offset, cluster, rest, i);
      while rest >= volume.clusterSize
        invariant fd.rdOff == offset && Walked(entry.chain, volume.clusterSize, offset, cluster, rest, i)
        invariant rest >= volume.clusterSize ==> cluster < volume.table.fat.Length
      {
        WalkStep(volume.table.fat[..], volume.data[..], volume.clusterSize, entry.chain, entry.firstCluster, entry.fileSize,
          offset, cluster, rest, i);
        rest := rest - volume.clusterSize;
        cluster := volume.table.NextCluster(cluster);
        i := i + 1;
        WalkStep(volume.table.fat[..], volume.data[..], volume.clusterSize, entry.chain, entry.firstCluster, entry.fileSize,
          offset, cluster, rest, i);
      }
      WalkStep(volume.table.fat[..], volume.data[..], volume.clusterSize, entry.chain, entry.firstCluster, entry.fileSize,
        offset, cluster, rest, i);
      UnusedCursor(volume.table.fat[..], volume.data[..], volume.clusterSize, entry.chain, entry.firstCluster, entry.fileSize,
        offset, cluster, rest, i);
      fd.rdCluster, fd.rdClusterOff, fd.rdIndex := cluster, rest, i;
      fd.MakeReadOk();
      out := fd.Read(len);
    }

    /** A page into which the file is loaded from an offset; a page of zeros becomes that page of the file. */
    method LoadPage(buffer: seq<byte>, offset: nat) returns (page: seq<byte>)
      requires entry.Ok(volume) && offset <= entry.fileSize && |buffer| == PAGE
      ensures page == LoadedInto(entry.Content(volume), offset, buffer)
      ensures buffer == Zeros() ==> PageOf(page) == FilePage(entry.Content(volume), offset)
    {
      SizeOfContent();
      hide FileEntry.Ok, FileEntry.Content;
      var bytes := Load(PAGE, offset);
      page := bytes + buffer[|bytes|..];
    }

    lemma SizeOfContent()
      requires entry.Ok(volume)
      ensures |entry.Content(volume)| == entry.fileSize
    {
    }

    lemma LoadFacts()
      requires entry.Ok(volume)
      ensures volume.Valid()
      ensures FileOk(volume.table.fat[..], volume.data[..], volume.clusterSize, entry.firstCluster, entry.fileSize, entry.chain)
      ensures forall off: nat :: Walked(entry.chain, volume.clusterSize, off, entry.firstCluster, off, 0)
      ensures volume.clusterSize > 0
    {
    }

    ghost function Now(): Stored
      reads entry`chain, volume.table.fat, volume.data
    {
      Stored(volume.table.fat[..], volume.data[..], entry.chain)
    }

    ghost function WriteCursor(total: nat): Cursor
      reads `wrIndex, `wrClusterOff, entry`chain
    {
      Cursor(wrIndex, wrClusterOff, |entry.chain|, total)
    }

    /** At the end of a cluster, a write goes on to the next one, or appends clusters and goes on in the last of them. */
    method AdvanceCluster(len: nat, total: nat)
      requires StoredOk(Now(), volume.clusterSize) && CursorIn(Now(), volume.clusterSize, WriteCursor(total), wrCluster)
      requires total < len
      requires wrClusterOff == volume.clusterSize && wrIndex + 1 == |entry.chain| ==>
        var n := NumCluster(len - total, volume.clusterSize);
        |FirstFree(volume.table.fat[..], 2, n)| == n
      modifies `wrCluster, `wrClusterOff, `wrIndex, entry`chain, volume.table.fat
      ensures StoredOk(Now(), volume.clusterSize) && CursorIn(Now(), volume.clusterSize, WriteCursor(total), wrCluster)
      ensures Now().data == old(Now()).data
      ensures WriteCursor(total) == Advance(old(WriteCursor(total)), len, volume.clusterSize)
      ensures Extended(old(Now()), Now())
    {
      hide StoredOk, CursorIn, CursorOk, Extended, Advance, IsChain, FirstFree, Grown, NumCluster, TableOk, DataOk, Bytes;
      ghost var f, size, c := Now(), volume.clusterSize, WriteCursor(total);
      StoredFacts(f, size, c, wrCluster);
      ExtendedNot(f, size);
      NoAdvance(c, len, size);
      if wrClusterOff == volume.clusterSize {
        var next := volume.table.NextCluster(wrCluster);
        if next == END_OF_CHAIN {
          var n := NumCluster(len - total, volume.clusterSize);
          wrCluster := volume.table.ExtendCluster(wrCluster, n, f.chain, wrIndex);
          GrownStored(f, size, c, f.chain[c.index], len, volume.table.fat[..]);
          entry.chain := entry.chain + FirstFree(f.fat, 2, n);
          wrIndex := |entry.chain| - 1;
        } else {
          NextStored(f, size, c, wrCluster, len);
          wrCluster := next;
          wrIndex := wrIndex + 1;
        }
        wrClusterOff := 0;
      }
    }

    /** Part of the cluster is overwritten, and the cursor goes on behind it. */
    method PutPiece(piece: seq<byte>, ghost total: nat, ghost text: seq<byte>)
      requires StoredOk(Now(), volume.clusterSize) && CursorIn(Now(), volume.clusterSize, WriteCursor(total), wrCluster)
      requires wrClusterOff + |piece| <= volume.clusterSize
      modifies `wrClusterOff, volume.data
      ensures StoredOk(Now(), volume.clusterSize) && CursorIn(Now(), volume.clusterSize, WriteCursor(total), wrCluster)
      ensures wrClusterOff == old(wrClusterOff) + |piece|
      ensures Now().data == PutAt(old(Now()).data, entry.chain, wrIndex, old(wrClusterOff), piece)
      ensures Extended(old(Now()), Now())
      ensures
        Holds(old(Now()), volume.clusterSize, text) && |text| == Offset(wrIndex, volume.clusterSize) + old(wrClusterOff) ==>
          Holds(Now(), volume.clusterSize, text + piece)
    {
      hide StoredOk, CursorIn, CursorOk, Extended, Holds, Offset, IsChain, TableOk, DataOk;
      ghost var f, size, c := Now(), volume.clusterSize, WriteCursor(total);
      PutStored(f, size, c, wrCluster, piece);
      if Holds(f, size, text) && |text| == Offset(wrIndex, size) + c.off {
        PutHolds(f, size, c, wrCluster, piece, text);
      }
      var sector := volume.data[wrCluster];
      volume.data[wrCluster] := sector[..wrClusterOff] + piece + sector[wrClusterOff + |piece|..];
      assert volume.data[..] == Put(f.data, wrCluster, c.off, piece);
      StoredFacts(f, size, c, wrCluster);
      wrClusterOff := wrClusterOff + |piece|;
    }

    /** The write cursor has not been used yet, or is in a cluster of the file, not before the bytes written. */
    ghost predicate WriteOk()
      reads this, entry, volume.table.fat, volume.data
    {
      && (wrCluster == 0 ==> wrOff == 0 && wrClusterOff == 0 && wrIndex == 0)
      && (wrCluster != 0 ==>
            && StoredOk(Now(), volume.clusterSize) && CursorIn(Now(), volume.clusterSize, WriteCursor(0), wrCluster)
            && entry.firstCluster != 0)
      && wrOff <= Offset(wrIndex, volume.clusterSize) + wrClusterOff
    }

    /** The write cursor stands right behind the bytes written. */
    ghost predicate InStep()
      reads this
    {
      wrOff == Offset(wrIndex, volume.clusterSize) + wrClusterOff
    }

    /** Where the next write begins. */
    ghost function Start(len: nat): Cursor
      requires volume.clusterSize > 0
      reads this, entry
    {
      if wrCluster != 0 then WriteCursor(0)
      else Cursor(0, 0, if entry.chain == [] then ChainLength(NumCluster(len, volume.clusterSize)) else |entry.chain|, 0)
    }

    /** The first cluster of the file, allocated with those the write will take if there is none yet. */
    method Begin(len: nat)
      requires entry.Ok(volume) && WriteOk()
      requires wrCluster == 0 && entry.chain == [] ==>
        |FirstFree(volume.table.fat[..], 2, Start(len).length)| == Start(len).length
      modifies `wrCluster, entry`firstCluster, entry`chain, volume.table.fat
      ensures StoredOk(Now(), volume.clusterSize) && CursorIn(Now(), volume.clusterSize, WriteCursor(0), wrCluster)
      ensures entry.chain != [] && entry.firstCluster == entry.chain[0] != 0 && wrCluster != 0
      ensures WriteCursor(0) == old(Start(len)) && Extended(old(Now()), Now())
    {
      ghost var f := Now();
      hide FirstFree, Grown, Bytes;
      if wrCluster == 0 {
        if entry.firstCluster != 0 {
          wrCluster := entry.firstCluster;
        } else {
          var n := (len + volume.clusterSize - 1) / volume.clusterSize;
          wrCluster := volume.table.AllocateClusterChain(n);
          NewStored(f, volume.clusterSize, volume.table.fat[..], ChainLength(n));
          entry.firstCluster := wrCluster;
          entry.chain := FirstFree(f.fat, 2, ChainLength(n));
        }
      }
      NextInChain(Now().fat, entry.chain, 0);
      if f.chain != [] {
        ExtendedNot(f, volume.clusterSize);
      }
    }

    /** One turn of the loop of Write. */
    method WriteTurn(buf: nat -> byte, len: nat, total: nat, ghost text: seq<byte>) returns (n: nat)
      requires StoredOk(Now(), volume.clusterSize) && CursorIn(Now(), volume.clusterSize, WriteCursor(total), wrCluster)
      requires total < len
      requires
        var more := Advance(WriteCursor(total), len, volume.clusterSize).length - |entry.chain|;
        more >= 0 && |FirstFree(volume.table.fat[..], 2, more)| == more
      modifies `wrCluster, `wrClusterOff, `wrIndex, entry`chain, volume.table.fat, volume.data
      ensures n > 0 && StoredOk(Now(), volume.clusterSize)
      ensures CursorIn(Now(), volume.clusterSize, WriteCursor(total + n), wrCluster)
      ensures WriteCursor(total + n) == Turn(old(WriteCursor(total)), len, volume.clusterSize)
      ensures Extended(old(Now()), Now())
      ensures Continued(old(Now()), Now(), volume.clusterSize, WriteCursor(total + n), text, BufferPart(buf, total, n))
      ensures n <= wrClusterOff
      ensures Now().data == PutAt(old(Now()).data, entry.chain, wrIndex, wrClusterOff - n, BufferPart(buf, total, n))
    {
      hide *;
      ghost var f, size, c := Now(), volume.clusterSize, WriteCursor(total);
      CursorParts(total);
      AdvanceNeeds(f, c, wrCluster, len, size);
      AdvanceCluster(len, total);
      CursorParts(total);
      ghost var g, d := Now(), WriteCursor(total);
      n := volume.clusterSize - wrClusterOff;
      if len < n {
        n := len;
      }
      var piece := BufferPart(buf, total, n);
      GrownHolds(f, g, size, text);
      PutPiece(piece, total, text);
      CursorParts(total);
      CursorParts(total + n);
      TurnIs(c, d, len, size, n);
      MakeContinued(f, g, Now(), size, WriteCursor(total + n), text, piece);
      SameCursor(Now(), size, WriteCursor(total), wrCluster, total + n);
      StoredTable(f, size);
      StoredTable(g, size);
      ExtendedTwice(f, g, Now());
    }

    lemma CursorParts(total: nat)
      ensures WriteCursor(total) == Cursor(wrIndex, wrClusterOff, |entry.chain|, total)
      ensures Now() == Stored(volume.table.fat[..], volume.data[..], entry.chain)
    {
    }

    /** What has been written through this descriptor. */
    ghost function Text(): seq<byte>
      reads this, entry, volume.data
    {
      Slice(FileBytes(volume.data[..], volume.clusterSize, entry.chain), 0, wrOff)
    }

    /** Writes len bytes of a buffer, and sometimes more; exactly when it does what it should is told beforehand by the
        room left in the cluster and the clusters ahead. */
    method Write(buf: nat -> byte, len: nat) returns (total: nat)
      requires entry.Ok(volume) && WriteOk()
      requires Enough(Now(), Start(len), len, volume.clusterSize)
      modifies `wrOff, `wrCluster, `wrClusterOff, `wrIndex, entry, volume.table.fat, volume.data
      ensures entry.Ok(volume) && WriteOk() && wrCluster != 0
      ensures WriteCursor(total) == Run(old(Start(len)), len, volume.clusterSize)
      ensures Extended(old(Now()), Now())
      ensures wrOff == old(wrOff) + total && entry.fileSize == wrOff
      ensures old(InStep()) ==> (total == len && InStep() <==> old(WholeOrFits(Start(len), len, volume.clusterSize)))
      ensures old(InStep() && WholeOrFits(Start(len), len, volume.clusterSize)) ==>
        Text() == old(Text()) + BufferBytes(buf, len)
      ensures AllLanded(old(Now()), Now(), volume.clusterSize, old(Start(len)), len, buf)
    {
      hide StoredOk, CursorIn, CursorOk, Extended, Grown, Holds, Run, Turn, Advance, NumCluster, Offset, FirstFree, TableOk,
        DataOk, IsChain, FileBytes, FileOk, Enough, Writing, BufferPart, BufferBytes, Slice, Bytes, WriteOk, AllLanded, Written;
      FaithfulWrite(len);
      WriteFacts(len);
      ghost var f, size, c, text := Now(), volume.clusterSize, Start(len), Text();
      total := WriteClusters(buf, len);
      WrittenFacts(f, Now(), size, c, WriteCursor(total), wrCluster, len, text, buf);
      wrOff := wrOff + total;
      entry.fileSize := wrOff;
      Finished(total);
    }

    /** Many writes, each of which fits or fills whole clusters: the file grows by exactly their bytes. */
    method WriteMany(chunks: seq<Chunk>)
      requires entry.Ok(volume) && WriteOk() && InStep() && chunks != []
      requires AllFit(Start(chunks[0].len), chunks, volume.clusterSize)
      requires EnoughForAll(Now(), Start(chunks[0].len), chunks, volume.clusterSize)
      modifies `wrOff, `wrCluster, `wrClusterOff, `wrIndex, entry, volume.table.fat, volume.data
      ensures entry.Ok(volume) && WriteOk() && InStep() && entry.fileSize == wrOff
      ensures Text() == old(Text()) + Concat(chunks)
      ensures Extended(old(Now()), Now())
      decreases |chunks|
    {
      ghost var f, size, c, text := Now(), volume.clusterSize, Start(chunks[0].len), Text();
      hide *;
      FileFacts();
      StartFacts(chunks[0].len);
      FirstFits(c, chunks, size);
      EnoughForEach(f, c, chunks, size);
      var total := Write(chunks[0].buf, chunks[0].len);
      CursorParts(total);
      ConcatNext(text, chunks);
      if |chunks| > 1 {
        ghost var g := Now();
        CursorParts(0);
        StartIs(chunks[1].len);
        EnoughForRest(f, g, c, chunks, size);
        WriteMany(chunks[1..]);
        FileFacts();
        ExtendedTwice(f, g, Now());
      }
    }

    lemma FileFacts()
      requires entry.Ok(volume)
      ensures volume.clusterSize > 0 && TableOk(Now().fat) && (Now().chain == [] || IsChain(Now().fat, Now().chain))
    {
    }

    lemma StartFacts(len: nat)
      requires entry.Ok(volume) && WriteOk()
      ensures CursorOk(Start(len), volume.clusterSize) && Start(len).total == 0
      ensures volume.clusterSize > 0 && Start(len).off <= volume.clusterSize && Start(len).index < Start(len).length
      ensures Start(len).length >= |entry.chain| == |Now().chain|
    {
    }

    lemma AllWritten()
      requires entry.Ok(volume) && entry.fileSize == wrOff
      ensures entry.Content(volume) == Text() && |Text()| == wrOff
    {
    }

    lemma StartIs(len: nat)
      requires volume.clusterSize > 0 && wrCluster != 0
      ensures Start(len) == WriteCursor(0)
    {
    }

    /** All of Write but the last two assignments. */
    method WriteClusters(buf: nat -> byte, len: nat) returns (total: nat)
      requires entry.Ok(volume) && WriteOk()
      requires Enough(Now(), Start(len), len, volume.clusterSize)
      modifies `wrCluster, `wrClusterOff, `wrIndex, entry`firstCluster, entry`chain, volume.table.fat, volume.data
      ensures Written(old(Now()), Now(), volume.clusterSize, old(Start(len)), WriteCursor(total), wrCluster, len, old(Text()), buf)
      ensures entry.chain != [] && entry.firstCluster == entry.chain[0] != 0
    {
      ghost var f, size, c, text := Now(), volume.clusterSize, Start(len), Text();
      hide *;
      WriteFacts(len);
      Begin(len);
      CursorParts(0);
      WritingStarts(f, Now(), size, c, wrCluster, len, text, buf);
      total := WriteLoop(buf, len, f, c, text);
      CursorParts(total);
      WritingDone(f, Now(), size, c, WriteCursor(total), wrCluster, len, text, buf);
    }

    lemma Finished(total: nat)
      requires StoredOk(Now(), volume.clusterSize) && CursorIn(Now(), volume.clusterSize, WriteCursor(total), wrCluster)
      requires wrCluster != 0 && entry.chain != [] && entry.firstCluster == entry.chain[0] != 0
      requires Slack(WriteCursor(total), volume.clusterSize) + total >= wrOff == entry.fileSize
      ensures entry.Ok(volume) && WriteOk()
      ensures InStep() <==> Slack(WriteCursor(total), volume.clusterSize) + total == wrOff
    {
      hide StoredOk, CursorIn, Offset, FileOk;
      FileOkOf(Now(), volume.clusterSize, WriteCursor(total), wrCluster, entry.firstCluster, wrOff);
      SameCursor(Now(), volume.clusterSize, WriteCursor(total), wrCluster, 0);
      StoredVolume(Now(), volume.clusterSize);
    }

    /** The loop of Write. */
    method WriteLoop(buf: nat -> byte, len: nat, ghost f: Stored, ghost c: Cursor,
                     ghost text: seq<byte>) returns (total: nat)
      requires TableOk(f.fat) && (f.chain == [] || IsChain(f.fat, f.chain))
      requires Writing(f, Now(), volume.clusterSize, c, WriteCursor(0), wrCluster, len, text, buf)
      requires CursorOk(c, volume.clusterSize) && Enough(f, c, len, volume.clusterSize)
      requires entry.chain != [] && entry.firstCluster == entry.chain[0] != 0
      modifies `wrCluster, `wrClusterOff, `wrIndex, entry`chain, volume.table.fat, volume.data
      ensures total >= len && Writing(f, Now(), volume.clusterSize, c, WriteCursor(total), wrCluster, len, text, buf)
      ensures entry.chain != [] && entry.firstCluster == entry.chain[0] != 0
    {
      hide *;
      ghost var size := volume.clusterSize;
      total := 0;
      while total < len
        invariant Writing(f, Now(), size, c, WriteCursor(total), wrCluster, len, text, buf)
        invariant entry.chain != [] && entry.firstCluster == entry.chain[0] != 0
        decreases len - total
      {
        var n := WriteStep(buf, len, total, f, c, text);
        total := total + n;
      }
    }

    method WriteStep(buf: nat -> byte, len: nat, total: nat, ghost f: Stored, ghost c: Cursor,
                     ghost text: seq<byte>) returns (n: nat)
      requires TableOk(f.fat) && (f.chain == [] || IsChain(f.fat, f.chain)) && total < len
      requires Writing(f, Now(), volume.clusterSize, c, WriteCursor(total), wrCluster, len, text, buf)
      requires CursorOk(c, volume.clusterSize) && Enough(f, c, len, volume.clusterSize)
      requires entry.chain != [] && entry.firstCluster == entry.chain[0] != 0
      modifies `wrCluster, `wrClusterOff, `wrIndex, entry`chain, volume.table.fat, volume.data
      ensures n > 0 && Writing(f, Now(), volume.clusterSize, c, WriteCursor(total + n), wrCluster, len, text, buf)
      ensures entry.chain != [] && entry.firstCluster == entry.chain[0] != 0
    {
      hide StoredOk, CursorIn, CursorOk, Extended, Grown, Holds, Run, Turn, Advance, NumCluster, Offset, FirstFree, TableOk,
        DataOk, IsChain, FileBytes, FileOk, Enough, Writing, BufferPart, BufferBytes, Slice, Bytes, Slack, Continued, Landed,
        PutAt;
      ghost var g, d, cluster, size := Now(), WriteCursor(total), wrCluster, volume.clusterSize;
      WritingFacts(f, g, size, c, d, cluster, len, text, buf);
      StillEnough(f, g, size, c, d, len);
      n := WriteTurn(buf, len, total, text + BufferBytes(buf, total));
      WritingNext(f, g, Now(), size, c, d, WriteCursor(total + n), cluster, wrCluster, len, text, buf);
    }

    lemma FaithfulWrite(len: nat)
      requires entry.Ok(volume) && WriteOk()
      ensures volume.clusterSize > 0 && CursorOk(Start(len), volume.clusterSize)
      ensures
        var c := Start(len);
        var r := Run(c, len, volume.clusterSize);
        InStep() ==> (r.total == len && Slack(r, volume.clusterSize) == wrOff <==> WholeOrFits(c, len, volume.clusterSize))
    {
      FaithfulExactly(Start(len), len, volume.clusterSize);
      OffsetNext(0, volume.clusterSize);
    }

    lemma WriteFacts(len: nat)
      requires entry.Ok(volume) && WriteOk()
      ensures volume.clusterSize > 0 && CursorOk(Start(len), volume.clusterSize) && Start(len).total == 0
      ensures |Text()| == wrOff && Slack(Start(len), volume.clusterSize) >= wrOff
      ensures InStep() <==> Slack(Start(len), volume.clusterSize) == wrOff
      ensures Holds(Now(), volume.clusterSize, Text())
      ensures TableOk(Now().fat) && (Now().chain == [] || StoredOk(Now(), volume.clusterSize))
      ensures Now().chain == [] ==> Text() == []
      ensures Now().chain == [] || IsChain(Now().fat, Now().chain)
      ensures DataOk(Now().data, volume.clusterSize) && |Now().data| == |Now().fat|
      ensures Enough(Now(), Start(len), len, volume.clusterSize) && wrCluster == 0 && entry.chain == [] ==>
        |FirstFree(volume.table.fat[..], 2, Start(len).length)| == Start(len).length
    {
      if wrCluster == 0 && entry.chain == [] {
        var need := Run(Start(len), len, volume.clusterSize).length - |entry.chain|;
        if need >= 0 && |FirstFree(volume.table.fat[..], 2, need)| == need {
          EnoughFree(volume.table.fat[..], 2, Start(len).length, need);
        }
      }
      OffsetNext(wrIndex, volume.clusterSize);
      OffsetNext(0, volume.clusterSize);
      if wrCluster != 0 {
        OffsetOrder(wrIndex + 1, |entry.chain|, volume.clusterSize);
      }
    }

    lemma ReadFacts()
      requires entry.Ok(volume) && ReadOk()
      ensures volume.Valid()
      ensures FileOk(volume.table.fat[..], volume.data[..], volume.clusterSize, entry.firstCluster, entry.fileSize, entry.chain)
      ensures ReadsAt(entry.chain, volume.clusterSize, rdOff, if rdCluster == 0 then entry.firstCluster else rdCluster,
        rdClusterOff, rdIndex)
      ensures rdClusterOff < volume.clusterSize && rdOff <= entry.fileSize
      ensures entry.fileSize <= |FileBytes(volume.data[..], volume.clusterSize, entry.chain)|
      ensures |volume.data[..]| == |volume.table.fat[..]|
      ensures entry.Content(volume) == FileBytes(volume.data[..], volume.clusterSize, entry.chain)[..entry.fileSize]
    {
    }

    lemma MakeReadOk()
      requires ReadsAt(entry.chain, volume.clusterSize, rdOff, rdCluster, rdClusterOff, rdIndex)
      requires rdCluster == 0 ==> rdOff == 0 && rdClusterOff == 0 && rdIndex == 0
      requires rdOff <= entry.fileSize
      ensures ReadOk()
    {
    }
  }

  /** Copies whole clusters of a chain until so many bytes are there; the size of the file plays no part. */
  method LoadFile(volume: Volume, entry: FileEntry, len: nat) returns (out: seq<byte>)
    requires entry.Ok(volume)
    ensures
      var bytes := FileBytes(volume.data[..], volume.clusterSize, entry.chain);
      out == bytes[..if len < |bytes| then len else |bytes|]
    ensures len == entry.fileSize ==> out == entry.Content(volume)
  {
    hide *;
    LoadFileFacts(volume, entry);
    ghost var fat, data, size := volume.table.fat[..], volume.data[..], volume.clusterSize;
    ghost var chain, bytes := entry.chain, FileBytes(data, size, entry.chain);
    var cluster: nat := entry.firstCluster;
    out := [];
    var total := 0;
    ghost var i: nat := 0;
    SliceMore(bytes, 0, 0, 0);
    while cluster != 0 && cluster != END_OF_CHAIN
      invariant 0 <= total <= len && total <= |bytes| && out == Slice(bytes, 0, total)
      invariant InFile(chain, size, cluster, i, total)
      decreases |chain| - i
    {
      ClusterOfFile(fat, data, size, chain, entry.firstCluster, entry.fileSize, i, cluster, total);
      if volume.clusterSize >= len - total {
        SliceMore(bytes, 0, total, len);
        SliceOfSlice(bytes, total, size, len - total);
        out := out + volume.data[cluster][..len - total];
        SliceIsPrefix(bytes, len);
        return;
      }
      SliceMore(bytes, 0, total, total + size);
      out := out + volume.data[cluster];
      total := total + volume.clusterSize;
      cluster := volume.table.NextCluster(cluster);
      i := i + 1;
    }
    EndOfFile(fat, data, size, chain, entry.firstCluster, entry.fileSize, i, cluster, total);
    SliceIsPrefix(bytes, total);
  }

  lemma LoadFileFacts(volume: Volume, entry: FileEntry)
    requires entry.Ok(volume)
    ensures |volume.data[..]| == |volume.table.fat[..]|
    ensures FileOk(volume.table.fat[..], volume.data[..], volume.clusterSize, entry.firstCluster, entry.fileSize, entry.chain)
    ensures InFile(entry.chain, volume.clusterSize, entry.firstCluster, 0, 0)
    ensures entry.Content(volume) == FileBytes(volume.data[..], volume.clusterSize, entry.chain)[..entry.fileSize]
    ensures entry.fileSize <= |FileBytes(volume.data[..], volume.clusterSize, entry.chain)|
  {
  }

  ghost predicate InFile(chain: seq<nat>, size: nat, cluster: nat, i: nat, total: nat) {
    && i <= |chain| && total == Offset(i, size)
    && cluster == if i < |chain| then chain[i] else if chain == [] then 0 else END_OF_CHAIN
  }

  lemma SliceOfSlice(bytes: seq<byte>, from: nat, size: nat, n: nat)
    requires n <= size && from + size <= |bytes|
    ensures |Slice(bytes, from, from + size)| == size
    ensures Slice(bytes, from, from + size)[..n] == Slice(bytes, from, from + n)
  {
  }

  lemma SliceIsPrefix(bytes: seq<byte>, n: nat)
    requires n <= |bytes|
    ensures Slice(bytes, 0, n) == bytes[..n]
  {
  }

  lemma ClusterOfFile(fat: seq<nat>, data: seq<seq<byte>>, size: nat, chain: seq<nat>, first: nat, fileSize: nat,
                      i: nat, cluster: nat, total: nat)
    requires FileOk(fat, data, size, first, fileSize, chain) && InFile(chain, size, cluster, i, total)
    requires cluster != 0 && cluster != END_OF_CHAIN
    ensures i < |chain| && cluster < |fat| == |data| && |data[cluster]| == size
    ensures total + size <= |FileBytes(data, size, chain)|
    ensures Slice(FileBytes(data, size, chain), total, total + size) == data[cluster]
    ensures InFile(chain, size, if IsEnd(fat[cluster]) then END_OF_CHAIN else fat[cluster], i + 1, total + size)
  {
    NextInChain(fat, chain, i);
    OffsetNext(i, size);
    ClusterBytes(fat, data, size, chain, first, fileSize, i);
  }

  lemma ClusterBytes(fat: seq<nat>, data: seq<seq<byte>>, size: nat, chain: seq<nat>, first: nat, fileSize: nat, i: nat)
    requires FileOk(fat, data, size, first, fileSize, chain) && i < |chain|
    ensures chain[i] < |data|
    ensures Offset(i, size) + size <= |FileBytes(data, size, chain)|
    ensures Slice(FileBytes(data, size, chain), Offset(i, size), Offset(i, size) + size) == data[chain[i]]
  {
    hide *;
    FileBytesIs(fat, data, size, chain, first, fileSize, i);
    BytesAt(data, chain, size, i, 0, size);
    SliceWhole(Bytes(data, chain), Offset(i, size), data[chain[i]], size);
  }

  lemma FileBytesIs(fat: seq<nat>, data: seq<seq<byte>>, size: nat, chain: seq<nat>, first: nat, fileSize: nat, i: nat)
    requires FileOk(fat, data, size, first, fileSize, chain) && i < |chain|
    ensures Within(chain, |data|) && DataOk(data, size) && FileBytes(data, size, chain) == Bytes(data, chain)
    ensures chain[i] < |data| && |data[chain[i]]| == size
  {
  }

  lemma SliceWhole(bytes: seq<byte>, from: nat, piece: seq<byte>, n: nat)
    requires |piece| == n && from + 0 + n <= |bytes| && bytes[from + 0..from + 0 + n] == piece[0..0 + n]
    ensures from + n <= |bytes| && Slice(bytes, from, from + n) == piece
  {
  }

  lemma EndOfFile(fat: seq<nat>, data: seq<seq<byte>>, size: nat, chain: seq<nat>, first: nat, fileSize: nat,
                  i: nat, cluster: nat, total: nat)
    requires FileOk(fat, data, size, first, fileSize, chain) && InFile(chain, size, cluster, i, total)
    requires cluster == 0 || cluster == END_OF_CHAIN
    ensures total == |FileBytes(data, size, chain)|
  {
    if i < |chain| {
      NextInChain(fat, chain, i);
    }
  }

  lemma NewDescriptor(fd: FileDescriptor, len: nat)
    requires fd.entry.Ok(fd.volume)
    requires fd.wrOff == 0 && fd.wrCluster == 0 && fd.wrClusterOff == 0 && fd.wrIndex == 0
    ensures fd.volume.clusterSize > 0 && fd.WriteOk() && fd.InStep() && fd.Text() == []
    ensures fd.Start(len) == NewStart(fd.entry, fd.volume.clusterSize, len)
  {
    OffsetNext(0, fd.volume.clusterSize);
  }

  lemma KeptContent(f: Stored, g: Stored, size: nat, first: nat, fileSize: nat, t: seq<nat>)
    requires Extended(f, g) && FileOk(f.fat, f.data, size, first, fileSize, t) && Disjoint(f.chain, t)
    requires TableOk(g.fat) && |g.data| == |g.fat| && DataOk(g.data, size)
    ensures FileOk(g.fat, g.data, size, first, fileSize, t) && Disjoint(g.chain, t)
    ensures FileBytes(g.data, size, t) == FileBytes(f.data, size, t)
  {
    if t != [] {
      OtherFileKept(f, g, size, t);
    }
  }

  ghost function NewStart(entry: FileEntry, size: nat, len: nat): Cursor
    requires size > 0
    reads entry
  {
    Cursor(0, 0, if entry.chain == [] then ChainLength(NumCluster(len, size)) else |entry.chain|, 0)
  }

  /** What one descriptor writes, another reads back, and a file that shares no cluster with it is not touched. */
  method RoundTrip(volume: Volume, entry: FileEntry, chunks: seq<Chunk>, ghost other: FileEntry) returns (out: seq<byte>)
    requires entry.Ok(volume) && chunks != []
    requires
      var c := NewStart(entry, volume.clusterSize, chunks[0].len);
      && CursorOk(c, volume.clusterSize) && AllFit(c, chunks, volume.clusterSize)
      && EnoughForAll(Stored(volume.table.fat[..], volume.data[..], entry.chain), c, chunks, volume.clusterSize)
    requires other != entry && other.Ok(volume) && Disjoint(entry.chain, other.chain)
    modifies entry, volume.table.fat, volume.data
    ensures out == Concat(chunks)
    ensures entry.Ok(volume) && entry.fileSize == |Concat(chunks)| && entry.Content(volume) == Concat(chunks)
    ensures other.Ok(volume) && Disjoint(entry.chain, other.chain) && other.Content(volume) == old(other.Content(volume))
  {
    hide *;
    var writer := new FileDescriptor(volume, entry);
    ghost var f, size := writer.Now(), volume.clusterSize;
    writer.CursorParts(0);
    NewDescriptor(writer, chunks[0].len);
    OkParts(other, volume);
    writer.WriteMany(chunks);
    writer.CursorParts(0);
    OkParts(entry, volume);
    KeptContent(f, writer.Now(), size, other.firstCluster, other.fileSize, other.chain);
    MakeOk(other, volume);
    OkParts(other, volume);
    writer.AllWritten();
    NoText(Concat(chunks));
    var reader := new FileDescriptor(volume, entry);
    NewReader(reader);
    out := reader.Read(entry.fileSize);
    Whole(out);
  }

  lemma OkParts(entry: FileEntry, volume: Volume)
    requires entry.Ok(volume)
    ensures FileOk(volume.table.fat[..], volume.data[..], volume.clusterSize, entry.firstCluster, entry.fileSize, entry.chain)
    ensures TableOk(volume.table.fat[..]) && |volume.data[..]| == |volume.table.fat[..]|
    ensures DataOk(volume.data[..], volume.clusterSize)
    ensures entry.Content(volume) == Slice(FileBytes(volume.data[..], volume.clusterSize, entry.chain), 0, entry.fileSize)
    ensures |entry.Content(volume)| == entry.fileSize
  {
  }

  lemma MakeOk(entry: FileEntry, volume: Volume)
    requires FileOk(volume.table.fat[..], volume.data[..], volume.clusterSize, entry.firstCluster, entry.fileSize, entry.chain)
    ensures entry.Ok(volume)
  {
  }

  lemma NewReader(fd: FileDescriptor)
    requires fd.rdOff == 0 && fd.rdCluster == 0 && fd.rdClusterOff == 0 && fd.rdIndex == 0
    ensures fd.ReadOk()
  {
  }

  lemma NoText(text: seq<byte>)
    ensures [] + text == text
  {
  }

  lemma Whole(text: seq<byte>)
    ensures text[0..|text|] == text
  {
  }
}
