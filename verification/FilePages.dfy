/** Pages of bytes: how a page of memory holds a part of a file (Kernel/paging.hpp, Kernel/paging.cpp). */
module FilePages {
  import opened Messages
  import opened NumberBits
  import opened PageTables

  const PAGE: nat := 4096

  // ---- Words and their bytes ---------------------------------------------------------------

  /** The bit fields of a 64-bit number: three flags, nine bits, the 40 bits of the frame number, and the twelve above. */
  function WordOf(v: nat): Word {
    Word(v % 2 == 1, v / 2 % 2 == 1, v / 4 % 2 == 1, v / 0x1000 % 0x100_0000_0000, v / 8 % 0x200 + v / 0x10_0000_0000_0000 * 0x200)
  }

  function NumberOf(w: Word): nat {
    (if w.present then 1 else 0) + (if w.writable then 2 else 0) + (if w.user then 4 else 0)
    + 8 * (w.rest % 0x200) + 0x1000 * w.addr + 0x10_0000_0000_0000 * (w.rest / 0x200)
  }

  lemma NumberOfWord(v: nat)
    ensures NumberOf(WordOf(v)) == v
  {
    var above := v / 8;
    var frames := above / 0x200;
    Starts(v);
    Rest(above % 0x200, frames / 0x100_0000_0000);
    Flags(v % 8, v);
  }

  lemma Starts(v: nat)
    ensures v / 8 / 0x200 == v / 0x1000
    ensures v / 8 / 0x200 / 0x100_0000_0000 == v / 0x10_0000_0000_0000
  {
  }

  lemma Rest(low: nat, high: nat)
    requires low < 0x200
    ensures (low + high * 0x200) % 0x200 == low && (low + high * 0x200) / 0x200 == high
  {
  }

  lemma Flags(f: nat, v: nat)
    requires f == v % 8
    ensures f == v % 2 + 2 * (v / 2 % 2) + 4 * (v / 4 % 2)
  {
    FirstOfThree(v);
    FirstOfTwo(v / 2);
    assert v / 2 / 2 == v / 4;
  }

  lemma FirstOfThree(v: nat)
    ensures v % 8 == v % 2 + 2 * (v / 2 % 4)
  {
  }

  lemma FirstOfTwo(v: nat)
    ensures v % 4 == v % 2 + 2 * (v / 2 % 2)
  {
  }

  /** Byte k of a number, the lowest first. */
  function ByteIn(v: nat, k: nat): byte {
    if k == 0 then (v % 256) as byte else ByteIn(v / 256, k - 1)
  }

  lemma {:induction false} ByteOfNumber(bytes: seq<byte>, k: nat)
    requires k < |bytes|
    ensures ByteIn(BytesNumber(bytes), k) == bytes[k]
    decreases k
  {
    var rest := BytesNumber(bytes[1..]);
    assert (bytes[0] as nat + 256 * rest) % 256 == bytes[0] as nat && (bytes[0] as nat + 256 * rest) / 256 == rest;
    if k > 0 {
      ByteOfNumber(bytes[1..], k - 1);
    }
  }

  // ---- Pages and their bytes ---------------------------------------------------------------

  function ByteAt(p: Page, i: nat): byte
    requires i < PAGE
  {
    ByteIn(NumberOf(p[i / 8]), i % 8)
  }

  function BytesOf(p: Page): (r: seq<byte>)
    ensures |r| == PAGE
    ensures forall i | 0 <= i < PAGE :: r[i] == ByteAt(p, i)
  {
    seq(PAGE, i requires 0 <= i < PAGE => ByteAt(p, i))
  }

  function PageOf(bytes: seq<byte>): (p: Page)
    requires |bytes| == PAGE
    ensures forall j | 0 <= j < 512 :: p[j] == WordOf(BytesNumber(bytes[8 * j..8 * j + 8]))
  {
    seq(512, j requires 0 <= j < 512 => WordOf(BytesNumber(bytes[8 * j..8 * j + 8])))
  }

  /** A page holds the bytes it was made of. */
  lemma PageHolds(bytes: seq<byte>)
    requires |bytes| == PAGE
    ensures BytesOf(PageOf(bytes)) == bytes
  {
    var p := PageOf(bytes);
    forall i | 0 <= i < PAGE
      ensures ByteAt(p, i) == bytes[i]
    {
      var j := i / 8;
      var word := bytes[8 * j..8 * j + 8];
      NumberOfWord(BytesNumber(word));
      ByteOfNumber(word, i % 8);
      assert word[i % 8] == bytes[i];
    }
  }

  lemma ZeroPageBytes()
    ensures BytesOf(ZeroPage()) == Zeros()
  {
    forall i | 0 <= i < PAGE
      ensures ByteAt(ZeroPage(), i) == 0
    {
      ZeroByte(i % 8);
    }
  }

  lemma {:induction false} ZeroByte(k: nat)
    ensures ByteIn(0, k) == 0
  {
    if k > 0 {
      ZeroByte(k - 1);
    }
  }

  function Zeros(): seq<byte> {
    seq(PAGE, _ => 0)
  }

  // ---- Parts of files ----------------------------------------------------------------------

  /** A buffer into which a file has been loaded from an offset: the bytes of the file, as many as there are and fit, and what
      the buffer held behind them. */
  function LoadedInto(content: seq<byte>, offset: int, buffer: seq<byte>): (r: seq<byte>)
    ensures |r| == |buffer|
  {
    if 0 <= offset <= |content| then
      var n := if |content| - offset < |buffer| then |content| - offset else |buffer|;
      content[offset..offset + n] + buffer[n..]
    else buffer
  }

  lemma LoadedIs(content: seq<byte>, offset: nat, buffer: seq<byte>, i: nat)
    requires i < |buffer|
    ensures LoadedInto(content, offset, buffer)[i] == if offset + i < |content| then content[offset + i] else buffer[i]
  {
  }

  /** The page of a file at an offset: what a page of zeros holds after the load. */
  function FilePage(content: seq<byte>, offset: int): Page {
    PageOf(LoadedInto(content, offset, Zeros()))
  }

  /** The bytes of the file, then zeros. */
  lemma FilePageHolds(content: seq<byte>, offset: int, i: nat)
    requires 0 <= offset && i < PAGE
    ensures ByteAt(FilePage(content, offset), i) == if offset + i < |content| then content[offset + i] else 0
  {
    var bytes := LoadedInto(content, offset, Zeros());
    assert bytes[i] == if offset + i < |content| then content[offset + i] else 0;
    assert FilePage(content, offset) == PageOf(bytes);
    hide *;
    PageHolds(bytes);
    assert BytesOf(PageOf(bytes))[i] == ByteAt(PageOf(bytes), i);
  }
}
