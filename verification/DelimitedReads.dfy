/** Reading a file up to a delimiter (Kernel/file.cpp), here from a FAT file. */
module DelimitedReads {
  import opened Messages
  import opened FatFiles

  lemma OneMore(content: seq<byte>, from: nat, to: nat, c: seq<byte>)
    requires from <= to <= |content| && |c| <= 1 && to + |c| <= |content| && c == content[to..to + |c|]
    ensures Slice(content, from, to) + c == Slice(content, from, to + |c|)
  {
    SliceMore(content, from, to, to + |c|);
  }

  lemma SliceIs(content: seq<byte>, from: nat, to: nat)
    requires from <= to <= |content|
    ensures Slice(content, from, to) == content[from..to] && |Slice(content, from, to)| == to - from
    ensures to == |content| ==> Slice(content, from, to) == content[from..]
  {
  }

  /** Bytes up to and with the first delimiter, at most len - 1 of them: the buffer's last byte is for a zero. */
  method ReadDelim(fd: FileDescriptor, delim: byte, len: nat) returns (line: seq<byte>)
    requires fd.entry.Ok(fd.volume) && fd.ReadOk() && len >= 1
    modifies fd
    ensures fd.ReadOk() && fd.entry.Ok(fd.volume) && fd.entry.Content(fd.volume) == old(fd.entry.Content(fd.volume))
    ensures fd.rdOff == old(fd.rdOff) + |line| <= |fd.entry.Content(fd.volume)| && |line| <= len - 1
    ensures line == Slice(fd.entry.Content(fd.volume), old(fd.rdOff), fd.rdOff)
    ensures forall k | 0 <= k < |line| - 1 :: line[k] != delim
    ensures |line| < len - 1 && (line == [] || line[|line| - 1] != delim) ==> fd.rdOff == |fd.entry.Content(fd.volume)|
  {
    hide *;
    ghost var content, from := fd.entry.Content(fd.volume), fd.rdOff;
    fd.SizeOfContent();
    Offset(fd);
    SliceIs(content, from, from);
    line := [];
    var i := 0;
    while i < len - 1
      invariant fd.entry.Ok(fd.volume) && fd.ReadOk() && 0 <= i <= len - 1 && fd.entry.Content(fd.volume) == content
      invariant i == |line| && fd.rdOff == from + i <= |content| && line == Slice(content, from, fd.rdOff)
      invariant forall k | 0 <= k < i :: line[k] != delim
    {
      ghost var off := fd.rdOff;
      var c := fd.Read(1);
      OneMore(content, from, off, c);
      if |c| == 0 {
        return;
      }
      line := line + c;
      i := i + 1;
      if c[0] == delim {
        return;
      }
    }
  }

  lemma Offset(fd: FileDescriptor)
    requires fd.ReadOk()
    ensures fd.rdOff <= fd.entry.fileSize
  {
  }

  /** Lines read one after the other, until none is left, make up the rest of the file. */
  method ReadLines(fd: FileDescriptor, delim: byte, len: nat) returns (lines: seq<seq<byte>>)
    requires fd.entry.Ok(fd.volume) && fd.ReadOk() && len >= 2
    modifies fd
    ensures Joined(lines) == Slice(old(fd.entry.Content(fd.volume)), old(fd.rdOff), |old(fd.entry.Content(fd.volume))|)
  {
    hide *;
    ghost var content, from := fd.entry.Content(fd.volume), fd.rdOff;
    fd.SizeOfContent();
    Offset(fd);
    NoLines(content, from);
    lines := [];
    var more := true;
    while more
      invariant fd.entry.Ok(fd.volume) && fd.ReadOk() && fd.entry.Content(fd.volume) == content
      invariant from <= fd.rdOff <= |content| && Joined(lines) == Slice(content, from, fd.rdOff)
      invariant !more ==> fd.rdOff == |content|
      decreases |content| - fd.rdOff, more
    {
      ghost var off := fd.rdOff;
      var line := ReadDelim(fd, delim, len);
      SliceMore(content, from, off, fd.rdOff);
      JoinedMore(lines, line);
      more := |line| > 0;
      if more {
        lines := lines + [line];
      }
    }
  }

  lemma NoLines(content: seq<byte>, from: nat)
    requires from <= |content|
    ensures Joined([]) == Slice(content, from, from)
  {
  }

  function Joined(lines: seq<seq<byte>>): seq<byte>
    decreases |lines|
  {
    if lines == [] then [] else Joined(lines[..|lines| - 1]) + lines[|lines| - 1]
  }

  lemma JoinedMore(lines: seq<seq<byte>>, line: seq<byte>)
    ensures Joined(lines + [line]) == Joined(lines) + line
  {
    assert (lines + [line])[..|lines|] == lines;
  }
}
