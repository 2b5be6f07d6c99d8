/** Kernel/paging.cpp: the recursive functions that build, copy, clear and patch page tables. */
module Paging {
  import opened Bounds
  import opened Options
  import opened PageTables
  import opened PageSteps
  import opened AddressSpaces
  import opened Messages
  import opened FilePages

  datatype Error = Success | NoEnoughMemory | AlreadyAllocated | IndexOutOfRange

  /** A file mapped into [begin, end) of the linear address space. */
  datatype FileMapping = FileMapping(fd: nat, begin: int, end: int)

  /** The ranges of a task that page faults consult. */
  datatype Task = Task(dpBegin: int, dpEnd: int, fileMapEnd: int, maps: seq<FileMapping>)

  /** A linear address without its sign extension. */
  function Value(addr: LinearAddress): int {
    addr.Key(0) * 4096 + addr.offset
  }

  /** The first mapping that contains the address. */
  function FirstMapping(maps: seq<FileMapping>, v: int): Option<FileMapping> {
    if maps == [] then None
    else if maps[0].begin <= v < maps[0].end then Some(maps[0])
    else FirstMapping(maps[1..], v)
  }

  /** What a page that was absent holds once its fault is resolved: zeros in the demand-paged range,
      the page of the file in a mapped one. `files` are the contents of the files by descriptor. */
  function FreshContent(task: Task, files: nat -> seq<byte>, addr: LinearAddress): Option<Page> {
    if task.dpBegin <= Value(addr) < task.dpEnd then Some(ZeroPage())
    else
      match FirstMapping(task.maps, Value(addr))
      case None => None
      case Some(m) => Some(FilePage(files(m.fd), addr.Key(0) * 4096 - m.begin))
  }

  /** The address lies in the demand-paged range. */
  ghost predicate DemandPaged(task: Task, addr: LinearAddress) {
    task.dpBegin <= addr.Key(0) * 4096 + addr.offset < task.dpEnd
  }

  /** The address lies in mapping i. */
  ghost predicate MappedBy(task: Task, addr: LinearAddress, i: nat)
    requires i < |task.maps|
  {
    task.maps[i].begin <= addr.Key(0) * 4096 + addr.offset < task.maps[i].end
  }

  /** An absent page can be filled: its address is demand paged or mapped. */
  ghost predicate Fillable(task: Task, addr: LinearAddress) {
    DemandPaged(task, addr) || exists i: nat :: i < |task.maps| && MappedBy(task, addr, i)
  }

  /** A page filled for the address: zeros if it is demand paged, and otherwise what is in the file of the first mapping
      around it. */
  ghost predicate Filled(task: Task, files: nat -> seq<byte>, addr: LinearAddress, p: Page) {
    && (DemandPaged(task, addr) ==> forall i: nat | i < 512 :: p[i] == ZERO)
    && (!DemandPaged(task, addr) ==>
          forall i: nat | i < |task.maps| && MappedBy(task, addr, i) && (forall j: nat | j < i :: !MappedBy(task, addr, j)) ::
            p == FilePage(files(task.maps[i].fd), addr.Key(0) * 4096 - task.maps[i].begin))
  }

  lemma FreshContentIs(task: Task, files: nat -> seq<byte>, addr: LinearAddress)
    ensures FreshContent(task, files, addr).Some? <==> Fillable(task, addr)
    ensures FreshContent(task, files, addr).Some? ==> Filled(task, files, addr, FreshContent(task, files, addr).value)
  {
    MappingFor(task, addr);
    hide LinearAddress.Key, FilePage, FirstMapping, MappedBy;
    if !DemandPaged(task, addr) {
      hide Value;
    }
  }

  /** The mapping found for an address, by the first one around it. */
  lemma MappingFor(task: Task, addr: LinearAddress)
    ensures FirstMapping(task.maps, Value(addr)).Some? <==> exists i: nat :: i < |task.maps| && MappedBy(task, addr, i)
    ensures forall i: nat | i < |task.maps| && MappedBy(task, addr, i) && (forall j: nat | j < i :: !MappedBy(task, addr, j)) ::
      FirstMapping(task.maps, Value(addr)) == Some(task.maps[i])
  {
    hide LinearAddress.Key, FirstMapping;
    FirstMappingIs(task.maps, Value(addr));
    if FirstMapping(task.maps, Value(addr)).Some? {
      var i := FirstIsMapping(task.maps, Value(addr));
      assert MappedBy(task, addr, i);
    }
  }

  lemma AbsentStays(mem: Memory, r: nat, k: nat)
    requires !Slot(mem, r, 0, k).present
    ensures OnlyPage(mem, mem, r, k, None)
  {
    hide Slot;
  }

  /** So a fault that is resolved fills the page, and one that has nothing to fill it with fails. */
  lemma FaultFills(task: Task, files: nat -> seq<byte>, addr: LinearAddress, mem: Memory, mem': Memory, r: nat)
    requires OnlyPage(mem, mem', r, addr.Key(0), FreshContent(task, files, addr)) && FreshContent(task, files, addr).Some?
    ensures exists p :: Filled(task, files, addr, p) && OnlyPage(mem, mem', r, addr.Key(0), Some(p))
  {
    FreshContentIs(task, files, addr);
    hide *;
    assert FreshContent(task, files, addr) == Some(FreshContent(task, files, addr).value);
  }

  /** The mapping found is the first one around the address. */
  lemma {:induction false} FirstMappingIs(maps: seq<FileMapping>, v: int)
    ensures FirstMapping(maps, v).None? <==> forall i | 0 <= i < |maps| :: !(maps[i].begin <= v < maps[i].end)
    ensures forall i: nat | i < |maps| && maps[i].begin <= v < maps[i].end
      && (forall j: nat | j < i :: !(maps[j].begin <= v < maps[j].end)) :: FirstMapping(maps, v) == Some(maps[i])
  {
    if maps != [] && !(maps[0].begin <= v < maps[0].end) {
      FirstMappingIs(maps[1..], v);
      assert maps[1..] == maps[1..];
      assert forall i: nat | 0 < i < |maps| :: maps[i] == maps[1..][i - 1];
    }
  }

  // ---- The specification of a run ------------------------------------------------

  /** A program that has just been started: its demand-paged range begins, still empty, at the first page behind its image, and
      files are going to be mapped below its stack, of which nothing has been yet. */
  ghost predicate LaunchedTask(task: Task, vaddrEnd: int) {
    && task.dpBegin == task.dpEnd && task.dpBegin % 4096 == 0 && vaddrEnd <= task.dpBegin < vaddrEnd + 4096
    && task.fileMapEnd == (END - 17) * 4096 && task.maps == []
  }

  lemma LaunchedIs(vaddrEnd: int)
    ensures
      var dp := (vaddrEnd + 4095) / 4096 * 4096;
      LaunchedTask(Task(dp, dp, Value(LinearAddress(0, 495, 511, 511, 511)), []), vaddrEnd)
  {
    TopPages();
  }

  /** What programs do: access a word of memory, extend the demand-paged range, map a file. */
  datatype Op =
    | Access(addr: LinearAddress, write: bool, index: nat, word: Word)
    | DemandPages(pages: nat)
    | MapFile(fd: nat)

  datatype Event = Event(root: nat, op: Op)

  ghost predicate ValidOp(op: Op) {
    op.Access? ==> op.addr.Valid() && op.addr.pml4 >= 256 && op.index < 512
  }

  ghost predicate ValidEvent(e: Event) {
    ValidOp(e.op)
  }

  function TaskStep(files: nat -> seq<byte>, task: Task, op: Op): Task {
    match op
    case Access(_, _, _, _) => task
    case DemandPages(n) => task.(dpEnd := task.dpEnd + 4096 * n)
    case MapFile(fd) =>
      var begin := (task.fileMapEnd - |files(fd)|) / 4096 * 4096;
      task.(fileMapEnd := begin, maps := task.maps + [FileMapping(fd, begin, task.fileMapEnd)])
  }

  /** Mappings begin at pages, lie above the end of the space for further ones, and each below those before it. */
  ghost predicate MapsOk(files: nat -> seq<byte>, task: Task) {
    && task.fileMapEnd % 4096 == 0
    && (forall i | 0 <= i < |task.maps| :: MappingOk(files, task.maps[i], task.fileMapEnd))
    && (forall i, j | 0 <= i < j < |task.maps| :: task.maps[j].end <= task.maps[i].begin)
  }

  /** Whole pages, no more than the file takes. */
  ghost predicate MappingOk(files: nat -> seq<byte>, m: FileMapping, lowest: int) {
    m.begin % 4096 == 0 && m.end % 4096 == 0 && lowest <= m.begin <= m.end && m.end - m.begin < |files(m.fd)| + 4096
  }

  lemma MapsKept(files: nat -> seq<byte>, task: Task, op: Op)
    requires MapsOk(files, task)
    ensures MapsOk(files, TaskStep(files, task, op))
  {
    if op.MapFile? {
      var next := TaskStep(files, task, op);
      forall i | 0 <= i < |next.maps|
        ensures MappingOk(files, next.maps[i], next.fileMapEnd)
      {
        assert i < |task.maps| ==> MappingOk(files, task.maps[i], task.fileMapEnd);
      }
      forall i, j | 0 <= i < j < |next.maps|
        ensures next.maps[j].end <= next.maps[i].begin
      {
        assert MappingOk(files, task.maps[i], task.fileMapEnd);
      }
    }
  }

  /** DemandPages moves the end of the demand-paged range by whole pages; MapFile adds one mapping right below those before,
      of as many whole pages as the file takes. */
  lemma TaskStepIs(files: nat -> seq<byte>, task: Task, op: Op)
    ensures op.Access? ==> TaskStep(files, task, op) == task
    ensures op.DemandPages? ==>
      var next := TaskStep(files, task, op);
      next.dpEnd - task.dpEnd == 4096 * op.pages && next == task.(dpEnd := next.dpEnd)
    ensures op.MapFile? ==>
      var next := TaskStep(files, task, op);
      var m := FileMapping(op.fd, next.fileMapEnd, task.fileMapEnd);
      && next == task.(fileMapEnd := m.begin, maps := task.maps + [m])
      && m.begin % 4096 == 0 && |files(op.fd)| <= m.end - m.begin < |files(op.fd)| + 4096
  {
  }

  /** The demand-paged range is longer by that many pages. */
  lemma NowDemandPaged(files: nat -> seq<byte>, task: Task, n: nat, addr: LinearAddress)
    requires task.dpBegin <= task.dpEnd
    ensures DemandPaged(TaskStep(files, task, DemandPages(n)), addr) <==>
      DemandPaged(task, addr) || task.dpEnd <= addr.Key(0) * 4096 + addr.offset < task.dpEnd + 4096 * n
  {
    hide LinearAddress.Key;
  }

  /** A fault in the range of a file that has just been mapped makes the page hold that file. */
  lemma NowMapped(files: nat -> seq<byte>, task: Task, fd: nat, addr: LinearAddress, p: Page, i: nat)
    requires MapsOk(files, task) && addr.Valid() && !DemandPaged(task, addr) && i < PAGE
    requires TaskStep(files, task, MapFile(fd)).fileMapEnd <= addr.Key(0) * 4096 + addr.offset < task.fileMapEnd
    requires Filled(TaskStep(files, task, MapFile(fd)), files, addr, p)
    ensures Fillable(TaskStep(files, task, MapFile(fd)), addr)
    ensures
      var begin := TaskStep(files, task, MapFile(fd)).fileMapEnd;
      var offset := addr.Key(0) * 4096 - begin;
      0 <= offset && ByteAt(p, i) == if offset + i < |files(fd)| then files(fd)[offset + i] else 0
  {
    hide LinearAddress.Key, FilePage, ByteAt;
    var next := TaskStep(files, task, MapFile(fd));
    var n := |task.maps|;
    assert next.maps[n] == FileMapping(fd, next.fileMapEnd, task.fileMapEnd);
    forall j: nat | j < n
      ensures !MappedBy(next, addr, j)
    {
      assert MappingOk(files, task.maps[j], task.fileMapEnd) && next.maps[j] == task.maps[j];
    }
    assert MappedBy(next, addr, n) && !DemandPaged(next, addr);
    FilePageHolds(files(fd), addr.Key(0) * 4096 - next.fileMapEnd, i);
  }

  /** Over any run, files are mapped to ranges of whole pages that do not overlap. */
  lemma {:induction false} MapsAlwaysOk(files: nat -> seq<byte>, task: Task, events: seq<Event>, r: nat, n: nat)
    requires n <= |events| && MapsOk(files, task)
    ensures MapsOk(files, TaskAfter(files, task, events, r, n))
  {
    if n > 0 {
      MapsAlwaysOk(files, task, events, r, n - 1);
      MapsKept(files, TaskAfter(files, task, events, r, n - 1), events[n - 1].op);
    }
  }

  /** So the first mapping that contains an address is the only one. */
  lemma {:induction false} OnlyMapping(maps: seq<FileMapping>, v: int, i: nat)
    requires i < |maps| && maps[i].begin <= v < maps[i].end
    requires forall j, k | 0 <= j < k < |maps| :: maps[k].end <= maps[j].begin
    requires forall j | 0 <= j < |maps| :: maps[j].begin <= maps[j].end
    ensures FirstMapping(maps, v) == Some(maps[i])
  {
    if i > 0 {
      assert maps[i].end <= maps[0].begin;
      OnlyMapping(maps[1..], v, i - 1);
    }
  }

  lemma {:induction false} FirstIsMapping(maps: seq<FileMapping>, v: int) returns (i: nat)
    requires FirstMapping(maps, v).Some?
    ensures i < |maps| && FirstMapping(maps, v) == Some(maps[i]) && maps[i].begin <= v < maps[i].end
  {
    if maps[0].begin <= v < maps[0].end {
      i := 0;
    } else {
      i := FirstIsMapping(maps[1..], v);
      i := i + 1;
    }
  }

  /** What a fault in a mapped range makes of the page: it begins inside the file, and holds the bytes of the file from there
      on, then zeros. */
  lemma MappedPageHolds(files: nat -> seq<byte>, task: Task, addr: LinearAddress, i: nat)
    requires MapsOk(files, task) && addr.Valid() && i < PAGE
    requires !(task.dpBegin <= Value(addr) < task.dpEnd) && FirstMapping(task.maps, Value(addr)).Some?
    ensures
      var m := FirstMapping(task.maps, Value(addr)).value;
      var offset := addr.Key(0) * 4096 - m.begin;
      && 0 <= offset < |files(m.fd)| && FreshContent(task, files, addr).Some?
      && ByteAt(FreshContent(task, files, addr).value, i) ==
           if offset + i < |files(m.fd)| then files(m.fd)[offset + i] else 0
  {
    hide *;
    PageInMapping(files, task, addr);
    FreshFromFile(files, task, addr);
    var m := FirstMapping(task.maps, Value(addr)).value;
    FilePageHolds(files(m.fd), addr.Key(0) * 4096 - m.begin, i);
  }

  lemma FreshFromFile(files: nat -> seq<byte>, task: Task, addr: LinearAddress)
    requires !(task.dpBegin <= Value(addr) < task.dpEnd) && FirstMapping(task.maps, Value(addr)).Some?
    ensures
      var m := FirstMapping(task.maps, Value(addr)).value;
      FreshContent(task, files, addr) == Some(FilePage(files(m.fd), addr.Key(0) * 4096 - m.begin))
  {
    hide FilePage, FirstMapping, Value, LinearAddress.Key;
  }

  lemma PageInMapping(files: nat -> seq<byte>, task: Task, addr: LinearAddress)
    requires MapsOk(files, task) && addr.Valid() && FirstMapping(task.maps, Value(addr)).Some?
    ensures
      var m := FirstMapping(task.maps, Value(addr)).value;
      m.begin <= addr.Key(0) * 4096 < m.begin + |files(m.fd)|
  {
    hide LinearAddress.Key;
    var k := FirstIsMapping(task.maps, Value(addr));
    assert MappingOk(files, task.maps[k], task.fileMapEnd);
  }

  /** The ranges of task r after the first n events. */
  function TaskAfter(files: nat -> seq<byte>, task: Task, events: seq<Event>, r: nat, n: nat): Task
    requires n <= |events|
  {
    if n == 0 then task
    else
      var before := TaskAfter(files, task, events, r, n - 1);
      if events[n - 1].root == r then TaskStep(files, before, events[n - 1].op) else before
  }

  /** In a run, each mapping call of a program counts in its own ranges, and nothing else does. */
  lemma EachCallCounts(files: nat -> seq<byte>, task: Task, events: seq<Event>, r: nat, i: nat)
    requires i < |events|
    ensures TaskAfter(files, task, events, r, 0) == task
    ensures
      var e, before, after := events[i], TaskAfter(files, task, events, r, i), TaskAfter(files, task, events, r, i + 1);
      && (e.root != r || e.op.Access? ==> after == before)
      && (e.root == r && e.op.DemandPages? ==> after == before.(dpEnd := before.dpEnd + 4096 * e.op.pages))
      && (e.root == r && e.op.MapFile? ==>
            var m := FileMapping(e.op.fd, after.fileMapEnd, before.fileMapEnd);
            && after == before.(fileMapEnd := m.begin, maps := before.maps + [m])
            && m.begin % 4096 == 0 && |files(m.fd)| <= m.end - m.begin < |files(m.fd)| + 4096)
  {
    TaskStepIs(files, TaskAfter(files, task, events, r, i), events[i].op);
  }

  /** A page after a completed access to it. */
  function PageAfterAccess(p: Option<Page>, loaded: Option<Page>, write: bool, index: nat, word: Word): Option<Page>
    requires index < 512
  {
    var base := if p.Some? then p else loaded;
    if base.Some? && write then Some(base.value[index := word]) else base
  }

  /** What an access finds in its page: what was there, or what an absent page is filled with. */
  ghost predicate AccessedPage(task: Task, files: nat -> seq<byte>, addr: LinearAddress, was: Option<Page>, p: Page) {
    if was.Some? then p == was.value else Filled(task, files, addr, p)
  }

  /** The page is the one found, with the word stored if it is a store, and no other page is read differently. */
  ghost predicate Accessed(task: Task, files: nat -> seq<byte>, addr: LinearAddress, mem: Memory, mem': Memory, r: nat,
                           write: bool, index: nat, word: Word)
    requires index < 512
  {
    exists p: Page ::
      && AccessedPage(task, files, addr, ReadPage(mem, r, addr.Key(0)), p)
      && OnlyPage(mem, mem', r, addr.Key(0), Some(if write then p[index := word] else p))
  }

  lemma AccessIs(task: Task, files: nat -> seq<byte>, addr: LinearAddress, mem: Memory, mem': Memory, r: nat,
                 write: bool, index: nat, word: Word)
    requires index < 512 && (ReadPage(mem, r, addr.Key(0)).Some? || FreshContent(task, files, addr).Some?)
    requires OnlyPage(mem, mem', r, addr.Key(0),
      PageAfterAccess(ReadPage(mem, r, addr.Key(0)), FreshContent(task, files, addr), write, index, word))
    ensures Accessed(task, files, addr, mem, mem', r, write, index, word)
  {
    FreshContentIs(task, files, addr);
    hide Filled, FreshContent, ReadPage, OnlyPage, LinearAddress.Key;
    var was := ReadPage(mem, r, addr.Key(0));
    var p := if was.Some? then was.value else FreshContent(task, files, addr).value;
    assert AccessedPage(task, files, addr, was, p);
    assert PageAfterAccess(was, FreshContent(task, files, addr), write, index, word) == Some(if write then p[index := word] else p);
  }

  /** Page k of program r after the first n events, of which done[i] tells whether access i was carried out.
      Only r's own accesses to this page matter. */
  ghost function PageAfter(p: Option<Page>, task: Task, files: nat -> seq<byte>, events: seq<Event>, done: seq<bool>,
                           r: nat, k: nat, n: nat): Option<Page>
    requires n <= |events| && n <= |done|
    requires forall e | e in events :: ValidEvent(e)
  {
    if n == 0 then p
    else
      var before := PageAfter(p, task, files, events, done, r, k, n - 1);
      var e := events[n - 1];
      assert e in events;
      if e.root == r && e.op.Access? && e.op.addr.Key(0) == k && done[n - 1] then
        PageAfterAccess(before, FreshContent(TaskAfter(files, task, events, r, n - 1), files, e.op.addr), e.op.write,
          e.op.index, e.op.word)
      else before
  }

  // ---- What a program reads after a run -------------------------------------------------------

  /** Event i is an access of program r to its page k that has been carried out. */
  ghost predicate Accesses(events: seq<Event>, done: seq<bool>, r: nat, k: nat, i: nat)
    requires i < |events| && i < |done|
  {
    events[i].root == r && events[i].op.Access? && events[i].op.addr.Key(0) == k && done[i]
  }

  /** It is a store to a word of that page. */
  ghost predicate Stores(events: seq<Event>, done: seq<bool>, r: nat, k: nat, index: nat, i: nat)
    requires i < |events| && i < |done|
  {
    Accesses(events, done, r, k, i) && events[i].op.write && events[i].op.index == index
  }

  lemma PageAfterStep(p: Option<Page>, task: Task, files: nat -> seq<byte>, events: seq<Event>, done: seq<bool>,
                      r: nat, k: nat, n: nat)
    requires 0 < n <= |events| && n <= |done| && forall e | e in events :: ValidEvent(e)
    ensures
      var e := events[n - 1];
      var before := PageAfter(p, task, files, events, done, r, k, n - 1);
      var after := PageAfter(p, task, files, events, done, r, k, n);
      if Accesses(events, done, r, k, n - 1) then
        && e.op.index < 512
        && var content := FreshContent(TaskAfter(files, task, events, r, n - 1), files, e.op.addr);
           var base := if before.Some? then before else content;
           after == if base.Some? && e.op.write then Some(base.value[e.op.index := e.op.word]) else base
      else after == before
  {
    assert events[n - 1] in events;
    hide LinearAddress.Key, FreshContent;
  }

  /** The last store to a word is what is read there. */
  lemma {:induction false} LastStoreIsRead(p: Option<Page>, task: Task, files: nat -> seq<byte>, events: seq<Event>,
                                           done: seq<bool>, r: nat, k: nat, n: nat, index: nat, i: nat)
    requires n <= |events| && n <= |done| && i < n && index < 512 && forall e | e in events :: ValidEvent(e)
    requires Stores(events, done, r, k, index, i)
    requires forall j | i < j < n :: !Stores(events, done, r, k, index, j)
    requires PageAfter(p, task, files, events, done, r, k, i + 1).Some?
    ensures
      var page := PageAfter(p, task, files, events, done, r, k, n);
      page.Some? && page.value[index] == events[i].op.word
  {
    PageAfterStep(p, task, files, events, done, r, k, n);
    hide PageAfter, ValidEvent, LinearAddress.Key, FreshContent;
    if i + 1 < n {
      assert !Stores(events, done, r, k, index, n - 1);
      LastStoreIsRead(p, task, files, events, done, r, k, n - 1, index, i);
    }
  }

  /** A word without a store keeps what it was, or what its page was filled with by the first access. */
  lemma {:induction false} UnstoredIsKept(p: Option<Page>, task: Task, files: nat -> seq<byte>, events: seq<Event>,
                                          done: seq<bool>, r: nat, k: nat, n: nat, index: nat)
    requires n <= |events| && n <= |done| && index < 512 && forall e | e in events :: ValidEvent(e)
    requires forall j | 0 <= j < n :: !Stores(events, done, r, k, index, j)
    requires PageAfter(p, task, files, events, done, r, k, n).Some?
    ensures
      var word := PageAfter(p, task, files, events, done, r, k, n).value[index];
      && (p.Some? ==> word == p.value[index])
      && (p.None? ==> FilledBy(task, files, events, done, r, k, n, index, word))
  {
    hide LinearAddress.Key, FreshContent, ValidEvent;
    if n > 0 {
      PageAfterStep(p, task, files, events, done, r, k, n);
      assert !Stores(events, done, r, k, index, n - 1);
      if PageAfter(p, task, files, events, done, r, k, n - 1).Some? {
        UnstoredIsKept(p, task, files, events, done, r, k, n - 1, index);
      } else {
        assert Accesses(events, done, r, k, n - 1) && !Stores(events, done, r, k, index, n - 1);
        MappedStaysMapped(p, task, files, events, done, r, k, n - 1);
        var page := FreshContent(TaskAfter(files, task, events, r, n - 1), files, events[n - 1].op.addr).value;
        assert page[index] == PageAfter(p, task, files, events, done, r, k, n).value[index];
      }
    }
  }

  /** Some access before event n has filled the page, with this word in it. */
  ghost predicate FilledBy(task: Task, files: nat -> seq<byte>, events: seq<Event>, done: seq<bool>, r: nat, k: nat, n: nat,
                           index: nat, word: Word)
    requires n <= |events| && n <= |done| && index < 512
  {
    exists i: nat, page: Page ::
      && i < n && Accesses(events, done, r, k, i) && page[index] == word
      && FreshContent(TaskAfter(files, task, events, r, i), files, events[i].op.addr) == Some(page)
  }

  lemma {:induction false} MappedStaysMapped(p: Option<Page>, task: Task, files: nat -> seq<byte>, events: seq<Event>,
                                             done: seq<bool>, r: nat, k: nat, n: nat)
    requires n <= |events| && n <= |done| && forall e | e in events :: ValidEvent(e)
    ensures p.Some? ==> PageAfter(p, task, files, events, done, r, k, n).Some?
  {
    if n > 0 {
      MappedStaysMapped(p, task, files, events, done, r, k, n - 1);
      PageAfterStep(p, task, files, events, done, r, k, n);
    }
  }

  /** After a run, a program reads in a word what it has stored there last. */
  lemma ReadsLastStore(mem0: Memory, mem: Memory, apps: map<nat, nat>, tasks: map<nat, Task>, files: nat -> seq<byte>,
                       events: seq<Event>, done: seq<bool>, free: set<nat>, r: nat, k: nat, index: nat, i: nat)
    requires |done| == |events| && apps.Keys <= tasks.Keys && r in apps && i < |events| && index < 512
    requires forall e | e in events :: ValidEvent(e) && e.root in tasks
    requires ReadsOwnEvents(mem0, mem, apps, tasks, files, events, done) && Outcomes(mem0, tasks, files, events, done, free)
    requires Stores(events, done, r, k, index, i)
    requires forall j | i < j < |events| :: !Stores(events, done, r, k, index, j)
    ensures ReadPage(mem, r, k).Some? && ReadPage(mem, r, k).value[index] == events[i].op.word
  {
    var p := ReadPage(mem0, r, k);
    assert done[i] && Possible(mem0, tasks, files, events, done, i);
    PageAfterStep(p, tasks[r], files, events, done, r, k, i + 1);
    LastStoreIsRead(p, tasks[r], files, events, done, r, k, |events|, index, i);
  }

  /** A word it has not stored to is what it was before, or what its page was filled with. */
  lemma ReadsUnstored(mem0: Memory, mem: Memory, apps: map<nat, nat>, tasks: map<nat, Task>, files: nat -> seq<byte>,
                      events: seq<Event>, done: seq<bool>, r: nat, k: nat, index: nat)
    requires |done| == |events| && apps.Keys <= tasks.Keys && r in apps && index < 512
    requires forall e | e in events :: ValidEvent(e)
    requires ReadsOwnEvents(mem0, mem, apps, tasks, files, events, done)
    requires forall j | 0 <= j < |events| :: !Stores(events, done, r, k, index, j)
    requires ReadPage(mem, r, k).Some?
    ensures ReadPage(mem0, r, k).Some? ==> ReadPage(mem, r, k).value[index] == ReadPage(mem0, r, k).value[index]
    ensures ReadPage(mem0, r, k).None? ==> exists i: nat, page: Page ::
      && i < |events| && Accesses(events, done, r, k, i)
      && Filled(TaskAfter(files, tasks[r], events, r, i), files, events[i].op.addr, page)
      && ReadPage(mem, r, k).value[index] == page[index]
  {
    UnstoredIsKept(ReadPage(mem0, r, k), tasks[r], files, events, done, r, k, |events|, index);
    hide ReadPage, FreshContent, Filled, LinearAddress.Key, Stores;
    if ReadPage(mem0, r, k).None? {
      var i: nat, page: Page :| i < |events| && Accesses(events, done, r, k, i) && page[index] == ReadPage(mem, r, k).value[index]
        && FreshContent(TaskAfter(files, tasks[r], events, r, i), files, events[i].op.addr) == Some(page);
      FreshContentIs(TaskAfter(files, tasks[r], events, r, i), files, events[i].op.addr);
    }
  }

  /** The events of a single program. */
  function EventsOf(r: nat, ops: seq<Op>): (events: seq<Event>)
    ensures AllBy(events, r)
    ensures forall e | e in events :: e.op in ops
  {
    seq(|ops|, i requires 0 <= i < |ops| => Event(r, ops[i]))
  }

  /** All events are by program r. */
  ghost predicate AllBy(events: seq<Event>, r: nat) {
    forall e | e in events :: e.root == r
  }

  /** What was recorded for the first n events decides the page after them. */
  lemma PageAfterPrefix(p: Option<Page>, task: Task, files: nat -> seq<byte>, events: seq<Event>,
                        done: seq<bool>, done': seq<bool>, r: nat, k: nat, n: nat)
    requires n <= |events| && n <= |done| && done <= done'
    requires forall e | e in events :: ValidEvent(e)
    ensures PageAfter(p, task, files, events, done', r, k, n) == PageAfter(p, task, files, events, done, r, k, n)
  {
  }

  /** What the programs read in `mem` is what their own events make of what they read in `mem0`. */
  ghost predicate ReadsOwnEvents(mem0: Memory, mem: Memory, apps: map<nat, nat>, tasks: map<nat, Task>,
                                 files: nat -> seq<byte>,
                                 events: seq<Event>, done: seq<bool>)
    requires |done| <= |events| && apps.Keys <= tasks.Keys
    requires forall e | e in events :: ValidEvent(e)
  {
    forall r, k: nat | r in apps ::
      ReadPage(mem, r, k) == PageAfter(ReadPage(mem0, r, k), tasks[r], files, events, done, r, k, |done|)
  }

  /** There is something to be accessed: event i is no access, or its page is mapped, or can be filled. */
  ghost predicate Possible(mem0: Memory, tasks: map<nat, Task>, files: nat -> seq<byte>, events: seq<Event>, done: seq<bool>, i: nat)
    requires i < |events| && i <= |done| && events[i].root in tasks
    requires forall e | e in events :: ValidEvent(e)
  {
    var e := events[i];
    assert e in events;
    e.op.Access? ==>
      || PageAfter(ReadPage(mem0, e.root, e.op.addr.Key(0)), tasks[e.root], files, events, done, e.root, e.op.addr.Key(0), i).Some?
      || FreshContent(TaskAfter(files, tasks[e.root], events, e.root, i), files, e.op.addr).Some?
  }

  /** Nothing impossible has been carried out, and all that was possible has, unless memory has run out. */
  ghost predicate Outcomes(mem0: Memory, tasks: map<nat, Task>, files: nat -> seq<byte>, events: seq<Event>, done: seq<bool>,
                           free: set<nat>)
    requires |done| <= |events| && forall e | e in events :: ValidEvent(e) && e.root in tasks
  {
    forall i {:trigger done[i]} | 0 <= i < |done| ::
      && (done[i] ==> Possible(mem0, tasks, files, events, done, i))
      && (free != {} && Possible(mem0, tasks, files, events, done, i) ==> done[i])
  }

  lemma OneMoreOutcome(mem0: Memory, mem: Memory, apps: map<nat, nat>, tasks: map<nat, Task>, files: nat -> seq<byte>,
                       events: seq<Event>, done: seq<bool>, ok: bool, free: set<nat>, free': set<nat>)
    requires |done| < |events| && apps.Keys <= tasks.Keys
    requires forall e | e in events :: ValidEvent(e) && e.root in tasks
    requires events[|done|].root in apps && ValidEvent(events[|done|])
    requires ReadsOwnEvents(mem0, mem, apps, tasks, files, events, done)
    requires Outcomes(mem0, tasks, files, events, done, free) && free' <= free
    requires var e := events[|done|];
      if e.op.Access? then
        var content := ReadPage(mem, e.root, e.op.addr.Key(0)).Some?
          || FreshContent(TaskAfter(files, tasks[e.root], events, e.root, |done|), files, e.op.addr).Some?;
        (ok ==> content) && (!ok ==> free' == {} || !content)
      else ok
    ensures Outcomes(mem0, tasks, files, events, done + [ok], free')
  {
    hide ReadPage, LinearAddress.Key, FreshContent, PageAfter;
    forall i | 0 <= i <= |done|
      ensures Possible(mem0, tasks, files, events, done + [ok], i) == Possible(mem0, tasks, files, events, done, i)
    {
      var e := events[i];
      if e.op.Access? {
        PageAfterPrefix(ReadPage(mem0, e.root, e.op.addr.Key(0)), tasks[e.root], files, events, done, done + [ok],
          e.root, e.op.addr.Key(0), i);
      }
    }
    forall i | 0 <= i < |done + [ok]|
      ensures (done + [ok])[i] ==> Possible(mem0, tasks, files, events, done + [ok], i)
      ensures free' != {} && Possible(mem0, tasks, files, events, done + [ok], i) ==> (done + [ok])[i]
    {
      if i < |done| {
        assert (done + [ok])[i] == done[i];
      }
    }
  }

  /** One more event keeps the correspondence. */
  lemma OneMoreEvent(mem0: Memory, mem: Memory, mem': Memory, apps: map<nat, nat>, tasks: map<nat, Task>,
                     files: nat -> seq<byte>,
                     events: seq<Event>, done: seq<bool>, ok: bool)
    requires |done| < |events| && apps.Keys <= tasks.Keys
    requires forall e | e in events :: ValidEvent(e)
    requires events[|done|].root in apps && ValidEvent(events[|done|])
    requires ReadsOwnEvents(mem0, mem, apps, tasks, files, events, done)
    requires forall r, k: nat | r in apps && r != events[|done|].root :: ReadPage(mem', r, k) == ReadPage(mem, r, k)
    requires var e := events[|done|];
      if e.op.Access? && ok then
        OnlyPage(mem, mem', e.root, e.op.addr.Key(0),
                 PageAfterAccess(ReadPage(mem, e.root, e.op.addr.Key(0)),
                                 FreshContent(TaskAfter(files, tasks[e.root], events, e.root, |done|), files, e.op.addr),
                                 e.op.write, e.op.index, e.op.word))
      else forall k: nat :: ReadPage(mem', e.root, k) == ReadPage(mem, e.root, k)
    ensures ReadsOwnEvents(mem0, mem', apps, tasks, files, events, done + [ok])
  {
    hide ReadPage, LinearAddress.Key, FreshContent, PageAfterAccess;
    forall r, k: nat | r in apps
      ensures ReadPage(mem', r, k) == PageAfter(ReadPage(mem0, r, k), tasks[r], files, events, done + [ok], r, k, |done| + 1)
    {
      PageAfterPrefix(ReadPage(mem0, r, k), tasks[r], files, events, done, done + [ok], r, k, |done|);
      assert (done + [ok])[|done|] == ok;
    }
  }

  ghost predicate ValidEvents(events: seq<Event>, apps: map<nat, nat>) {
    forall e | e in events :: e.root in apps && ValidEvent(e)
  }

  /** What a run has kept after the events that `done` tells of. */
  ghost predicate SoFar(s0: World, s: World, apps: map<nat, nat>, templates: set<nat>, tasks0: map<nat, Task>,
                        tasks: map<nat, Task>, files: nat -> seq<byte>, events: seq<Event>, done: seq<bool>)
  {
    && |done| <= |events| && ValidEvents(events, apps) && apps.Keys <= tasks0.Keys && apps.Keys <= tasks.Keys
    && ReadsOwnEvents(s0.mem, s.mem, apps, tasks0, files, events, done)
    && Outcomes(s0.mem, tasks0, files, events, done, s.free)
    && (forall r | r in apps :: tasks[r] == TaskAfter(files, tasks0[r], events, r, |done|))
    && (forall t | t in templates :: SlotsKept(s0, s, t) && PagesKept(s0, s, t))
    && (forall r | AllBy(events, r) :: Undisturbed(s0, s, r))
  }

  lemma RunStarts(s: World, apps: map<nat, nat>, templates: set<nat>, tasks: map<nat, Task>,
                  files: nat -> seq<byte>, events: seq<Event>)
    requires AllOk(s, apps, templates) && apps.Keys <= tasks.Keys && ValidEvents(events, apps)
    ensures SoFar(s, s, apps, templates, tasks, tasks, files, events, [])
  {
    hide ReadPage, Slot;
  }

  /** An access of program r adds to what a run has kept. */
  lemma AccessCounts(s0: World, s: World, s': World, apps: map<nat, nat>, templates: set<nat>, tasks0: map<nat, Task>,
                     tasks: map<nat, Task>, files: nat -> seq<byte>, events: seq<Event>, done: seq<bool>, ok: bool)
    requires |done| < |events| && SoFar(s0, s, apps, templates, tasks0, tasks, files, events, done)
    requires events[|done|].root in tasks
    requires Undisturbed(s, s', events[|done|].root) && OthersUnchanged(s, s', apps, templates, events[|done|].root)
    requires var e := events[|done|];
      && ValidEvent(e) && e.op.Access? && s'.free <= s.free
      && var content := FreshContent(tasks[e.root], files, e.op.addr);
         var page := ReadPage(s.mem, e.root, e.op.addr.Key(0));
         && OnlyPage(s.mem, s'.mem, e.root, e.op.addr.Key(0),
              if ok then PageAfterAccess(page, content, e.op.write, e.op.index, e.op.word) else page)
         && (ok ==> page.Some? || content.Some?) && (!ok ==> s'.free == {} || !(page.Some? || content.Some?))
    ensures SoFar(s0, s', apps, templates, tasks0, tasks, files, events, done + [ok])
  {
    hide Slot, ReadPage, Undisturbed, LinearAddress.Key, FreshContent, PageAfterAccess, PageAfter, Possible;
    var e := events[|done|];
    assert e in events;
    OneMoreEvent(s0.mem, s.mem, s'.mem, apps, tasks0, files, events, done, ok);
    OneMoreOutcome(s0.mem, s.mem, apps, tasks0, files, events, done, ok, s.free, s'.free);
    forall t | t in templates
      ensures SlotsKept(s0, s', t) && PagesKept(s0, s', t)
    {
      KeptTwice(s0, s, s', t);
    }
    forall r | AllBy(events, r)
      ensures Undisturbed(s0, s', r)
    {
      UndisturbedTransitive(s0, s, s', r);
    }
  }

  /** So does a mapping call. */
  lemma CallCounts(s0: World, s: World, apps: map<nat, nat>, templates: set<nat>, tasks0: map<nat, Task>,
                   tasks: map<nat, Task>, files: nat -> seq<byte>, events: seq<Event>, done: seq<bool>)
    requires |done| < |events| && SoFar(s0, s, apps, templates, tasks0, tasks, files, events, done)
    requires !events[|done|].op.Access? && events[|done|].root in tasks
    ensures
      var e := events[|done|];
      SoFar(s0, s, apps, templates, tasks0, tasks[e.root := TaskStep(files, tasks[e.root], e.op)], files, events, done + [true])
  {
    hide Slot, ReadPage, Undisturbed, LinearAddress.Key, FreshContent, PageAfterAccess, PageAfter, Possible, SlotsKept, PagesKept;
    assert events[|done|] in events;
    OneMoreEvent(s0.mem, s.mem, s.mem, apps, tasks0, files, events, done, true);
    OneMoreOutcome(s0.mem, s.mem, apps, tasks0, files, events, done, true, s.free, s.free);
  }

  lemma RunEnds(s0: World, s: World, apps: map<nat, nat>, templates: set<nat>, tasks0: map<nat, Task>,
                tasks: map<nat, Task>, files: nat -> seq<byte>, events: seq<Event>, done: seq<bool>)
    requires |done| == |events| && SoFar(s0, s, apps, templates, tasks0, tasks, files, events, done)
    ensures forall e | e in events :: ValidEvent(e) && e.root in tasks0
    ensures apps.Keys <= tasks0.Keys && apps.Keys <= tasks.Keys
    ensures ReadsOwnEvents(s0.mem, s.mem, apps, tasks0, files, events, done)
    ensures Outcomes(s0.mem, tasks0, files, events, done, s.free)
    ensures forall r | r in apps :: tasks[r] == TaskAfter(files, tasks0[r], events, r, |events|)
    ensures forall t | t in templates :: SlotsKept(s0, s, t) && PagesKept(s0, s, t)
    ensures forall r | AllBy(events, r) :: Undisturbed(s0, s, r)
  {
  }

  /** The tail of the loop in SetupPageMap: move to the first page of the next entry of a table. */
  method NextEntry(level: nat, addr0: LinearAddress) returns (addr: LinearAddress)
    requires 1 <= level <= 4 && addr0.Valid() && addr0.Part(level) < 511
    ensures addr.Valid() && addr.pml4 >= addr0.pml4
    ensures addr.Key(level) == addr0.Key(level)
    ensures addr.Key(level - 1) == addr0.Key(level - 1) + 1
    ensures addr.Key(0) == First(level - 1, addr0.Key(level - 1) + 1)
  {
    addr := addr0.SetPart(level, addr0.Part(level) + 1);
    ghost var moved := addr;
    var lv := level - 1;
    while lv >= 1
      invariant 0 <= lv < level && addr.Valid()
      invariant forall i | lv < i < level :: addr.Part(i) == 0
      invariant forall i | level <= i <= 4 :: addr.Part(i) == moved.Part(i)
    {
      ghost var before := addr;
      addr := addr.SetPart(lv, 0);
      forall i: nat | i <= 4
        ensures addr.Part(i) == if i == lv then 0 else before.Part(i)
      {
        PartOfSetPart(before, lv, 0, i);
      }
      lv := lv - 1;
    }
    assert addr.Part(4) == moved.Part(4) && (level <= 3 ==> addr.Part(3) == moved.Part(3))
        && (level <= 2 ==> addr.Part(2) == moved.Part(2)) && (level <= 1 ==> addr.Part(1) == moved.Part(1));
    assert (1 < level ==> addr.Part(1) == 0) && (2 < level ==> addr.Part(2) == 0) && (3 < level ==> addr.Part(3) == 0);
  }

  /** Physical memory, the frame allocator and CR3, as Kernel/paging.cpp uses them. */
  class Pager {
    var mem: Memory
    var free: set<nat>
    var cr3: nat
    /** What every frame taken from the allocator is used for. */
    ghost var owner: Owners
    /** The running programs, each with the template it was started from, and the loaded templates. */
    ghost var apps: map<nat, nat>
    ghost var templates: set<nat>
    /** The tasks, by the PML4 of their address space. */
    var tasks: map<nat, Task>
    /** The contents of the files by descriptor. */
    const files: nat -> seq<byte>
    /** The PML4 of the kernel itself, which is static memory. */
    const kernelPml4: nat

    ghost function Now(): World
      reads this
    {
      World(mem, free, owner)
    }

    /** Take one frame from the allocator and zero it. */
    method NewPageMap() returns (r: Option<nat>)
      modifies `mem, `free, `owner
      ensures owner == old(owner)
      ensures r.None? ==> free == {} == old(free) && mem == old(mem)
      ensures r.Some? ==> r.value in old(free) && free == old(free) - {r.value}
      ensures r.Some? ==> mem == old(mem)[r.value := ZeroPage()]
    {
      if free == {} {
        return None;
      }
      var f :| f in free;
      free := free - {f};
      mem := mem[f := ZeroPage()];
      return Some(f);
    }

    method SetNewPageMapIfNotPresent(table: nat, i: nat) returns (child: Option<nat>)
      requires i < 512 && table !in free
      modifies `mem, `free, `owner
      ensures owner == old(owner)
      ensures old(At(mem, table)[i].present) ==>
        child == Some(old(At(mem, table)[i].addr)) && free == old(free) && mem == old(mem)
      ensures !old(At(mem, table)[i].present) && child.None? ==> free == {} == old(free) && mem == old(mem)
      ensures !old(At(mem, table)[i].present) && child.Some? ==>
        && child.value in old(free) && free == old(free) - {child.value}
        && mem == SetEntry(old(mem)[child.value := ZeroPage()], table, i,
                           old(At(mem, table)[i]).(addr := child.value, present := true))
    {
      var e := At(mem, table)[i];
      if e.present {
        return Some(e.addr);
      }
      child := NewPageMap();
      if child.Some? {
        mem := SetEntry(mem, table, i, e.(addr := child.value, present := true));
      }
    }

    /** The first half of the loop body of SetupPageMap: make an entry present and set its user and writable bits. */
    method LinkEntry(table: nat, i: nat, w: bool, ghost root: nat, ghost level: nat, ghost key: nat)
      returns (child: Option<nat>)
      requires level < 4 && (level == 3 ==> key >= 256) && i == key % 512
      requires Consistent(Now(), root)
      requires Node(mem, root, level + 1, key / 512) == Some(table)
      modifies `mem, `free, `owner
      ensures child.None? ==> free == {} && Now() == old(Now())
      ensures child.Some? ==> EntryLinked(old(Now()), Now(), root, level, key, child.value, LinkedEntry(Slot(old(mem), root, level, key), child.value, w))
    {
      hide Consistent, EntryLinked, Slot, Node;
      ghost var s := Now();
      ghost var e := Slot(mem, root, level, key);
      ParentTable(s, root, level, key);
      child := SetNewPageMapIfNotPresent(table, i);
      if child.None? {
        return;
      }
      mem := SetEntry(mem, table, i, At(mem, table)[i].(user := true));
      mem := SetEntry(mem, table, i, At(mem, table)[i].(writable := w));
      if !e.present {
        owner := owner[child.value := RoleOf(root, level, key)];
      }
      SetEntryTwice(s.mem, table, i, e.(user := true), LinkedEntry(e, e.addr, w));
      SetEntryTwice(s.mem[child.value := ZeroPage()], table, i, e.(addr := child.value, present := true),
                    e.(addr := child.value, present := true, user := true));
      SetEntryTwice(s.mem[child.value := ZeroPage()], table, i, e.(addr := child.value, present := true, user := true),
                    LinkedEntry(e, child.value, w));
      assert mem == SetEntry(if e.present then s.mem else s.mem[child.value := ZeroPage()], table, i, LinkedEntry(e, child.value, w));
      EntryWritten(s, Now(), table, root, level, key, child.value, LinkedEntry(e, child.value, w));
    }

    /** One iteration of the loop of SetupPageMap: an entry, and all below it from the address on. */
    method SetupEntry(pageMap: nat, level: nat, addr: LinearAddress, num: nat, writable: bool, ghost root: nat)
      returns (remain: nat, err: Error, ghost done: nat)
      requires 1 <= level <= 4 && addr.Valid() && addr.pml4 >= 256 && num > 0
      requires Consistent(Now(), root)
      requires Node(mem, root, level, addr.Key(level)) == Some(pageMap)
      modifies `mem, `free, `owner
      ensures err.Success? ==>
        && done == Min(num, Room(level - 1, addr)) && done > 0 && remain == num - done
        && Built(old(Now()), Now(), root, level, addr.Key(0), addr.Key(0) + done, addr.Key(0) + done, writable)
      ensures !err.Success? ==>
        && err == NoEnoughMemory && free == {} && done < Min(num, Room(level - 1, addr))
        && Built(old(Now()), Now(), root, level, addr.Key(0), addr.Key(0) + done, addr.Key(0) + done + 1, writable)
      decreases level, 0
    {
      hide Consistent, Built, EntryLinked, Slot, Node, First, Room, LinearAddress.Key, LinearAddress.Part;
      ghost var key, v := addr.Key(level - 1), addr.Key(0);
      ghost var s0 := Now();
      KeyFacts(level, addr);
      RoomFacts(level, addr);
      BuiltNothing(s0, root, level, v, writable);
      var w := if level == 1 then writable else true;
      var child := LinkEntry(pageMap, addr.Part(level), w, root, level - 1, key);
      if child.None? {
        BuiltLoosely(s0, s0, root, level, v, v, v, v + 1, writable);
        return num, NoEnoughMemory, 0;
      }
      ghost var s1 := Now();
      EntryStep(s0, s1, root, level - 1, key, child.value, LinkedEntry(Slot(s0.mem, root, level - 1, key), child.value, w));
      if level == 1 {
        LeafBuilt(s0, s1, root, key, child.value, w);
        return num - 1, Success, 1;
      }
      remain, err, done := SetupPageMap(child.value, level - 1, addr, num, writable, root);
      SubtreeBuilt(s0, s1, Now(), root, level - 1, key, child.value, v, v + done, if err.Success? then v + done else v + done + 1,
        writable);
    }

    method SetupPageMap(pageMap: nat, level: nat, addr0: LinearAddress, num0: nat, writable: bool, ghost root: nat)
      returns (remain: nat, err: Error, ghost done: nat)
      requires 1 <= level <= 4 && addr0.Valid() && addr0.pml4 >= 256
      requires Consistent(Now(), root)
      requires Node(mem, root, level, addr0.Key(level)) == Some(pageMap)
      modifies `mem, `free, `owner
      ensures err.Success? ==>
        && done == Min(num0, Room(level, addr0)) && remain == num0 - done
        && Built(old(Now()), Now(), root, level, addr0.Key(0), addr0.Key(0) + done, addr0.Key(0) + done, writable)
      ensures !err.Success? ==>
        && err == NoEnoughMemory && free == {} && done < Min(num0, Room(level, addr0))
        && Built(old(Now()), Now(), root, level, addr0.Key(0), addr0.Key(0) + done, addr0.Key(0) + done + 1, writable)
      decreases level, 1
    {
      hide Consistent, Built, EntryLinked, Slot, Node, First, Room, LinearAddress.Key, LinearAddress.Part;
      var addr, num := addr0, num0;
      done := 0;
      ghost var v := addr0.Key(0);
      ghost var start := Now();
      BuiltNothing(start, root, level, v, writable);
      KeyFacts(level, addr);
      RoomFacts(level, addr);
      while num > 0
        invariant addr.Valid() && addr.pml4 >= 256
        invariant addr.Key(level) == addr0.Key(level)
        invariant done + num == num0 && done <= Room(level, addr0)
        invariant num > 0 ==> addr.Key(0) == v + done
        invariant Node(mem, root, level, addr.Key(level)) == Some(pageMap)
        invariant Built(start, Now(), root, level, v, v + done, v + done, writable)
        decreases num
      {
        var i := addr.Part(level);
        ghost var s0 := Now();
        KeyFacts(level, addr);
        RoomFacts(level, addr);
        BuiltConsistent(start, s0, root, level, v, v + done, v + done, writable);
        var n, error;
        ghost var d;
        n, error, d := SetupEntry(pageMap, level, addr, num, writable, root);
        if !error.Success? {
          BuiltTransitive(start, s0, Now(), root, level, v, v + done, v + done + d, v + done + d + 1, writable);
          done := done + d;
          return num, NoEnoughMemory, done;
        }
        num := n;
        BuiltTransitive(start, s0, Now(), root, level, v, v + done, v + done + d, v + done + d, writable);
        BuiltKeepsTop(start, Now(), root, level, level, addr.Key(level), v, v + done + d, v + done + d, writable);
        done := done + d;
        if i == 511 {
          break;
        }
        addr := NextEntry(level, addr);
      }
      return num, Success, done;
    }

    /** One iteration of the first loop of CopyPageMaps: share a page read-only. */
    method ShareEntry(dest: nat, src: nat, i: nat, ghost r: nat, ghost t: nat, ghost key: nat)
      requires i < 512 && i == key % 512 && r != t
      requires Consistent(Now(), r) && Consistent(Now(), t)
      requires Node(mem, r, 1, key / 512) == Some(dest) && Node(mem, t, 1, key / 512) == Some(src)
      requires At(mem, src)[i].present && !Slot(mem, r, 0, key).present
      modifies `mem, `free, `owner
      ensures free == old(free)
      ensures Slot(old(mem), t, 0, key) == old(At(mem, src)[i])
      ensures Copying(old(Now()), Now(), r, t)
      ensures SlotUpdated(old(mem), mem, r, 0, key, old(At(mem, src)[i]).(writable := false))
    {
      hide Consistent, Slot, Node, PageRemapped, Copying, SlotUpdated;
      ghost var s := Now();
      ghost var e := At(mem, src)[i];
      ParentTable(s, r, 0, key);
      ParentTable(s, t, 0, key);
      mem := SetEntry(mem, dest, i, At(mem, src)[i]);
      mem := SetEntry(mem, dest, i, At(mem, dest)[i].(writable := false));
      SetEntryTwice(s.mem, dest, i, e, e.(writable := false));
      PageWritten(s, Now(), dest, r, key, e.(writable := false));
      SharePage(s, Now(), r, t, key);
    }

    /** One iteration of the second loop of CopyPageMaps, up to the recursive call: a new table for an entry. */
    method CopyTableEntry(dest: nat, src: nat, i: nat, ghost r: nat, ghost t: nat, ghost level: nat, ghost key: nat)
      returns (table: Option<nat>)
      requires 1 <= level < 4 && (level == 3 ==> key >= 256) && i == key % 512 && r != t
      requires Consistent(Now(), r) && Consistent(Now(), t)
      requires Node(mem, r, level + 1, key / 512) == Some(dest) && Node(mem, t, level + 1, key / 512) == Some(src)
      requires At(mem, src)[i].present && !Slot(mem, r, level, key).present
      modifies `mem, `free, `owner
      ensures Slot(old(mem), t, level, key) == old(At(mem, src)[i])
      ensures table.None? ==> free == {} && Now() == old(Now())
      ensures table.Some? ==>
        && Copying(old(Now()), Now(), r, t)
        && SlotUpdated(old(mem), mem, r, level, key, old(At(mem, src)[i]).(addr := table.value))
        && Node(mem, r, level, key) == table && Node(mem, t, level, key) == Some(At(mem, src)[i].addr)
    {
      hide Consistent, Slot, Node, EntryLinked, Copying, SlotUpdated;
      ghost var s := Now();
      ghost var e := At(mem, src)[i];
      ParentTable(s, r, level, key);
      ParentTable(s, t, level, key);
      table := NewPageMap();
      if table.None? {
        return;
      }
      ghost var m := mem;
      mem := SetEntry(mem, dest, i, At(mem, src)[i]);
      mem := SetEntry(mem, dest, i, At(mem, dest)[i].(addr := table.value));
      owner := owner[table.value := RoleOf(r, level, key)];
      SetEntryTwice(m, dest, i, e, e.(addr := table.value));
      EntryWritten(s, Now(), dest, r, level, key, table.value, e.(addr := table.value));
      CopyTable(s, Now(), r, t, level, key, table.value);
      NodeKept(s, Now(), r, t, level, key);
    }

    /** Fill the part of space r below `dest` with a copy of what space t has below `src`. */
    method CopyPageMaps(dest: nat, src: nat, part: nat, start: nat, ghost r: nat, ghost t: nat, ghost key: nat)
      returns (err: Error)
      requires 1 <= part <= 4 && start <= 512 && (part == 4 ==> start >= 256)
      requires r != t && Consistent(Now(), r) && Consistent(Now(), t)
      requires Node(mem, r, part, key) == Some(dest) && Node(mem, t, part, key) == Some(src)
      requires EmptyBelow(Now(), r, part, First(part - 1, 512 * key + start), First(part, key + 1))
      modifies `mem, `free, `owner
      ensures Copying(old(Now()), Now(), r, t)
      ensures err.Success? ==>
        CopiedRange(old(Now()), Now(), r, t, part, First(part - 1, 512 * key + start), First(part, key + 1))
      ensures !err.Success? ==>
        && err == NoEnoughMemory && free == {}
        && CopiedInPart(old(Now()), Now(), r, t, part, First(part - 1, 512 * key + start), First(part, key + 1))
      decreases part
    {
      hide Consistent, Slot, Node, First, Copying, CopiedRange, CopiedInPart, EmptyBelow, SlotUpdated;
      ghost var s0 := Now();
      ghost var lo, hi := First(part - 1, 512 * key + start), First(part, key + 1);
      CopyingNothing(s0, r, t, part, lo);
      if part == 1 {
        var i := start;
        while i < 512
          invariant start <= i <= 512
          invariant Copying(s0, Now(), r, t)
          invariant CopiedRange(s0, Now(), r, t, part, lo, First(part - 1, 512 * key + i))
        {
          ghost var s, k := Now(), 512 * key + i;
          CopyReady(s0, s, r, t, part, key, start, i);
          EntryAt(s, t, part - 1, k);
          if At(mem, src)[i].present {
            ShareEntry(dest, src, i, r, t, k);
            SharedOne(s, Now(), r, t, k);
          } else {
            CopiedAbsent(s, r, t, part - 1, k);
            CopyingNothing(s, r, t, part, lo);
          }
          CopyAdvances(s0, s, Now(), r, t, part, lo, First(part - 1, k), First(part - 1, k + 1));
          i := i + 1;
        }
        FirstFacts(part, key, 512);
        return Success;
      }
      var i := start;
      while i < 512
        invariant start <= i <= 512
        invariant Copying(s0, Now(), r, t)
        invariant CopiedRange(s0, Now(), r, t, part, lo, First(part - 1, 512 * key + i))
      {
        ghost var s, k := Now(), 512 * key + i;
        CopyReady(s0, s, r, t, part, key, start, i);
        EntryAt(s, t, part - 1, k);
        if At(mem, src)[i].present {
          var table := CopyTableEntry(dest, src, i, r, t, part - 1, k);
          if table.None? {
            NothingCopied(s, r, t, part, First(part - 1, k), First(part - 1, k + 1));
            CopyStops(s0, s, s, r, t, part, lo, First(part - 1, k), First(part - 1, k + 1), hi);
            return NoEnoughMemory;
          }
          ghost var s1 := Now();
          CopyingConsistent(s, s1, r, t);
          EmptyBelowChild(s, s1, r, part - 1, k, Slot(s.mem, t, part - 1, k).(addr := table.value));
          FirstFacts(part - 1, k, 0);
          err := CopyPageMaps(table.value, At(mem, src)[i].addr, part - 1, 0, r, t, k);
          CopyingTransitive(s, s1, Now(), r, t);
          if !err.Success? {
            CopiedSubtreeInPart(s, s1, Now(), r, t, part - 1, k, table.value);
            CopyStops(s0, s, Now(), r, t, part, lo, First(part - 1, k), First(part - 1, k + 1), hi);
            return;
          }
          CopiedSubtree(s, s1, Now(), r, t, part - 1, k, table.value);
        } else {
          CopiedAbsent(s, r, t, part - 1, k);
          CopyingNothing(s, r, t, part, lo);
        }
        CopyAdvances(s0, s, Now(), r, t, part, lo, First(part - 1, k), First(part - 1, k + 1));
        i := i + 1;
      }
      FirstFacts(part, key, 512);
      return Success;
    }

    /** The end of the loop body of CleanPageMap: free the frame of a writable entry and clear the entry. */
    method ClearEntry(table: nat, i: nat, entry: Word, ghost root: nat, ghost level: nat, ghost key: nat)
      requires level < 4 && i == key % 512
      requires Node(mem, root, level + 1, key / 512) == Some(table)
      requires entry == Slot(mem, root, level, key)
      modifies `mem, `free, `owner
      ensures EntryCleared(old(Now()), Now(), table, root, level, key)
    {
      hide Slot, Node;
      if entry.writable {
        free := free + {entry.addr};
        owner := owner - {entry.addr};
      }
      mem := SetEntry(mem, table, i, ZERO);
    }

    lemma NowIs()
      ensures Now() == World(mem, free, owner)
    {
    }

    /** The recursive call of CleanPageMap, for an entry that points to a table. */
    method CleanBelow(entry: Word, level: nat, addr: LinearAddress, ghost root: nat, ghost key: nat)
      requires 1 <= level < 4 && addr.Valid() && LowPartsZero(addr, level) && addr.Part(level) == 0
      requires Consistent(Now(), root) && WritableIffOwned(Now(), root)
      requires entry.present && entry == Slot(mem, root, level, key)
      modifies `mem, `free, `owner
      ensures Released(old(Now()), Now(), root, level, First(level, key), First(level, key + 1))
      ensures Node(mem, root, level + 1, key / 512) == Node(old(mem), root, level + 1, key / 512)
      ensures Slot(mem, root, level, key) == Slot(old(mem), root, level, key)
      decreases level, 2
    {
      hide *;
      ghost var s := Now();
      NowIs();
      NodeOfSlot(s, root, level, key);
      EntryStartFacts(level, key);
      var err := CleanPageMap(entry.addr, level, addr, root, key);
      NowIs();
      ReleasedKeepsParent(s, Now(), root, level, key, First(level, key), First(level, key + 1));
    }

    /** One iteration of the loop of CleanPageMap. */
    method CleanEntry(pageMap: nat, i: nat, level: nat, addr: LinearAddress, ghost root: nat, ghost key: nat)
      requires level < 4 && addr.Valid() && i == key % 512 && (level == 3 ==> key >= 256)
      requires LowPartsZero(addr, level + 1)
      requires Consistent(Now(), root) && WritableIffOwned(Now(), root)
      requires Node(mem, root, level + 1, key / 512) == Some(pageMap)
      modifies `mem, `free, `owner
      ensures Released(old(Now()), Now(), root, level + 1, First(level, key), First(level, key + 1))
      decreases level, 3
    {
      hide *;
      ghost var s := Now();
      NowIs();
      EntryAt(s, root, level, key);
      var entry := At(mem, pageMap)[i];
      if !entry.present {
        ReleasedAbsent(s, root, level, key);
        return;
      }
      if level > 0 {
        LowParts(addr, level + 1);
        CleanBelow(entry, level, addr, root, key);
      }
      ghost var s1 := Now();
      ClearEntry(pageMap, i, entry, root, level, key);
      ReleasedSubtree(s, s1, Now(), pageMap, root, level, key);
    }

    /** Unmap what the table maps from `addr` on, and free every frame an entry marks writable. */
    method CleanPageMap(pageMap: nat, level: nat, addr: LinearAddress, ghost root: nat, ghost key: nat) returns (err: Error)
      requires 1 <= level <= 4 && addr.Valid() && (level == 4 ==> addr.pml4 >= 256)
      requires LowPartsZero(addr, level)
      requires Consistent(Now(), root) && WritableIffOwned(Now(), root)
      requires Node(mem, root, level, key) == Some(pageMap)
      modifies `mem, `free, `owner
      ensures err.Success?
      ensures Released(old(Now()), Now(), root, level, EntryStart(level, key, addr.Part(level)), First(level, key + 1))
      decreases level, 1
    {
      ghost var s0 := Now();
      var start: nat := addr.Part(level);
      ghost var lo := EntryStart(level, key, start);
      PartBound(addr, level);
      hide *;
      ReleasedNothing(s0, root, level, lo);
      var i: nat := start;
      while i < 512
        invariant start <= i <= 512
        invariant Released(s0, Now(), root, level, lo, EntryStart(level, key, i))
      {
        ghost var s, k: nat := Now(), 512 * key + i;
        CleanReady(s0, s, root, level, key, start, i, k);
        CleanEntry(pageMap, i, level - 1, addr, root, k);
        var next: nat := i + 1;
        CleanAdvances(s0, s, Now(), root, level, key, start, i, k, next);
        i := next;
      }
      EntryStartFacts(level, key);
      assert EntryStart(level, key, i) == First(level, key + 1);
      return Success;
    }

    /** Point the leaf entry of a mapped address at `content` and make it writable. */
    method SetPageContent(table: nat, part: nat, addr: LinearAddress, content: nat, ghost root: nat)
      requires 1 <= part <= 4 && addr.Valid() && addr.pml4 >= 256
      requires Node(mem, root, part, addr.Key(part)) == Some(table)
      requires Slot(mem, root, 0, addr.Key(0)).present
      modifies `mem, `free, `owner
      ensures free == old(free) && owner == old(owner)
      ensures Node(old(mem), root, 1, addr.Key(1)).Some?
      ensures mem == SetEntry(old(mem), Node(old(mem), root, 1, addr.Key(1)).value, addr.page,
                              Slot(old(mem), root, 0, addr.Key(0)).(addr := content, writable := true))
      decreases part
    {
      hide *;
      OnThePath(mem, root, addr, part, table);
      var i := addr.Part(part);
      if part == 1 {
        ghost var m := mem;
        ghost var e := At(mem, table)[i];
        mem := SetEntry(mem, table, i, At(mem, table)[i].(addr := content));
        mem := SetEntry(mem, table, i, At(mem, table)[i].(writable := true));
        SetEntryTwice(m, table, i, e.(addr := content), e.(addr := content, writable := true));
        return;
      }
      SetPageContent(At(mem, table)[i].addr, part - 1, addr, content, root);
    }

    /** The entry of a mapped address in the table of a level: the next table, or the leaf itself. */
    static lemma OnThePath(mem: Memory, root: nat, addr: LinearAddress, part: nat, table: nat)
      requires 1 <= part <= 4 && addr.Valid() && addr.pml4 >= 256
      requires Node(mem, root, part, addr.Key(part)) == Some(table) && Slot(mem, root, 0, addr.Key(0)).present
      ensures addr.Part(part) < 512
      ensures part > 1 ==> Node(mem, root, part - 1, addr.Key(part - 1)) == Some(At(mem, table)[addr.Part(part)].addr)
      ensures part == 1 ==>
        && addr.Part(1) == addr.page && Slot(mem, root, 0, addr.Key(0)) == At(mem, table)[addr.page]
        && Node(mem, root, 1, addr.Key(1)) == Some(table)
    {
      var s := World(mem, {}, map[]);
      KeyFacts(part, addr);
      PartBound(addr, part);
      PathPresent(mem, root, addr, part - 1);
      hide Node, Slot, LinearAddress.Key;
      EntryAt(s, root, part - 1, addr.Key(part - 1));
      NodeOfSlot(s, root, part - 1, addr.Key(part - 1));
    }

    // ---- Page faults ---------------------------------------------------------------

    ghost predicate Valid()
      reads this
    {
      AllOk(Now(), apps, templates)
    }

    /** Since the old state only space r has changed, and all spaces are in order. */
    twostate predicate OnlySpace(r: nat)
      reads this
    {
      && Undisturbed(old(Now()), Now(), r)
      && OthersUnchanged(old(Now()), Now(), apps, templates, r)
      && Valid()
    }

    /** A write to a shared page gets a private copy of it. */
    method CopyOnePage(addr: LinearAddress) returns (err: Error)
      requires Valid() && cr3 in apps && addr.Valid() && addr.pml4 >= 256
      requires Slot(mem, cr3, 0, addr.Key(0)).present && !Slot(mem, cr3, 0, addr.Key(0)).writable
      modifies `mem, `free, `owner
      ensures OnlySpace(cr3) && PagesKept(old(Now()), Now(), cr3) && free <= old(free)
      ensures err.Success? ==> Slot(mem, cr3, 0, addr.Key(0)).present && Slot(mem, cr3, 0, addr.Key(0)).writable
      ensures !err.Success? ==> err == NoEnoughMemory && Now() == old(Now()) && free == {}
    {
      hide AllOk, AppOk, TemplateOk, Slot, Node, Consistent, Undisturbed, OthersUnchanged, PagesKept, PageRemapped, LinearAddress.Key;
      ghost var s, k, t := Now(), addr.Key(0), apps[cr3];
      AllOkAt(s, apps, templates, cr3);
      NodeOfSlot(s, cr3, 0, addr.Key(0));
      var p := NewPageMap();
      if p.None? {
        NothingDisturbed(s, apps, templates, cr3);
        return NoEnoughMemory;
      }
      PageNotFree(s, cr3, t, k);
      FreshWriteInvisible(s, mem, cr3, p.value, 0, k);
      mem := mem[p.value := At(mem, Node(mem, cr3, 0, addr.Key(0)).value)];
      FreshWriteInvisible(s, mem, cr3, p.value, 0, k);
      FreshWriteInvisible(s, mem, cr3, p.value, 1, addr.Key(1));
      RootNode(mem, cr3);
      KeyFacts(1, addr);
      KeyAtTop(addr);
      SetPageContent(cr3, 4, addr, p.value, cr3);
      owner := owner[p.value := Leaf(cr3, k)];
      CopyWritten(s, Now(), cr3, t, Node(s.mem, cr3, 1, addr.Key(1)).value, k, p.value);
      AppAfterCopy(s, Now(), cr3, t, k, p.value);
      SpaceStep(s, Now(), apps, templates, cr3);
      return Success;
    }

    method SetupPageMaps(addr: LinearAddress, num: nat, writable: bool) returns (err: Error, ghost done: nat)
      requires addr.Valid() && addr.pml4 >= 256 && addr.Key(0) + num <= END
      requires Consistent(Now(), cr3)
      modifies `mem, `free, `owner
      ensures err.Success? ==> done == num
      ensures err.Success? ==>
        Built(old(Now()), Now(), cr3, 4, addr.Key(0), addr.Key(0) + num, addr.Key(0) + num, writable)
      ensures free <= old(free)
      ensures !err.Success? ==>
        && err == NoEnoughMemory && free == {} && done < num
        && Built(old(Now()), Now(), cr3, 4, addr.Key(0), addr.Key(0) + done, addr.Key(0) + done + 1, writable)
    {
      RootNode(mem, cr3);
      KeyAtTop(addr);
      UpperBounds();
      hide Consistent, Built, Slot, Node, LinearAddress.Key;
      var remain;
      ghost var s := Now();
      remain, err, done := SetupPageMap(cr3, 4, addr, num, writable, cr3);
      NothingFreed(s, Now(), cr3, addr.Key(0), addr.Key(0) + done, if err.Success? then addr.Key(0) + done else addr.Key(0) + done + 1, writable);
    }

    lemma NothingFreed(s: World, s': World, root: nat, a: nat, b: nat, c: nat, writable: bool)
      requires Built(s, s', root, 4, a, b, c, writable)
      ensures s'.free <= s.free
    {
    }

    /** Map one absent page of the current program, writable and zeroed. */
    method MapFreshPage(addr: LinearAddress) returns (err: Error)
      requires Valid() && cr3 in apps && addr.Valid() && addr.pml4 >= 256
      requires !Slot(mem, cr3, 0, addr.Key(0)).present
      modifies `mem, `free, `owner
      ensures OnlySpace(cr3) && free <= old(free)
      ensures err.Success? ==> Slot(mem, cr3, 0, addr.Key(0)).present && Slot(mem, cr3, 0, addr.Key(0)).writable
      ensures !err.Success? ==> err == NoEnoughMemory && free == {}
      ensures OnlyPage(old(mem), mem, cr3, addr.Key(0), if err.Success? then Some(ZeroPage()) else None)
    {
      hide AllOk, AppOk, TemplateOk, Slot, Consistent, Built, Undisturbed, OthersUnchanged, LinearAddress.Key;
      ghost var s, k, t := Now(), addr.Key(0), apps[cr3];
      AllOkAt(s, apps, templates, cr3);
      KeyBelowEnd(addr);
      ghost var done;
      err, done := SetupPageMaps(addr, 1, true);
      if err.Success? {
        AppAfterSetup(s, Now(), cr3, t, k, k + 1, k + 1);
        BuiltPage(s, Now(), cr3, 4, k, k + 1, k + 1, true, k);
      } else {
        assert Built(s, Now(), cr3, 4, k, k + done, k + done + 1, true);
        AppAfterSetup(s, Now(), cr3, t, k, k, k + 1);
      }
      SpaceStep(s, Now(), apps, templates, cr3);
    }

    method FindFileMapping(maps: seq<FileMapping>, v: int) returns (r: Option<FileMapping>)
      ensures r == FirstMapping(maps, v)
    {
      var i := 0;
      while i < |maps|
        invariant 0 <= i <= |maps|
        invariant FirstMapping(maps, v) == FirstMapping(maps[i..], v)
      {
        assert maps[i..][1..] == maps[i + 1..];
        if maps[i].begin <= v < maps[i].end {
          return Some(maps[i]);
        }
        i := i + 1;
      }
      return None;
    }

    /** Map the page and load it from the file. */
    method PreparePageCache(m: FileMapping, addr: LinearAddress) returns (err: Error)
      requires Valid() && cr3 in apps && addr.Valid() && addr.pml4 >= 256
      requires !Slot(mem, cr3, 0, addr.Key(0)).present
      modifies `mem, `free, `owner
      ensures OnlySpace(cr3) && free <= old(free)
      ensures err.Success? ==> Slot(mem, cr3, 0, addr.Key(0)).present && Slot(mem, cr3, 0, addr.Key(0)).writable
      ensures !err.Success? ==> err == NoEnoughMemory && free == {}
      ensures OnlyPage(old(mem), mem, cr3, addr.Key(0),
                       if err.Success? then Some(FilePage(files(m.fd), addr.Key(0) * 4096 - m.begin)) else None)
    {
      hide AllOk, AppOk, TemplateOk, Slot, Consistent, Undisturbed, OthersUnchanged, LinearAddress.Key;
      ghost var s0 := Now();
      var page := addr.(offset := 0);
      OffsetIrrelevant(addr);
      err := MapFreshPage(page);
      if !err.Success? {
        return;
      }
      ghost var s1, k, t := Now(), addr.Key(0), apps[cr3];
      var offset := Value(page) - m.begin;
      var buffer := BytesOf(ReadPage(mem, cr3, addr.Key(0)).value);
      ZeroPageBytes();
      StorePage(addr, PageOf(LoadedInto(files(m.fd), offset, buffer)));
      OnlySpaceTwice(s0, s1, Now(), apps, templates, cr3);
    }

    /** Fill a page the current program owns: what the kernel does through the page's own address. */
    method StorePage(addr: LinearAddress, content: Page)
      requires Valid() && cr3 in apps && addr.Valid() && addr.pml4 >= 256
      requires Slot(mem, cr3, 0, addr.Key(0)).present && Slot(mem, cr3, 0, addr.Key(0)).writable
      modifies `mem
      ensures OnlySpace(cr3)
      ensures Slot(mem, cr3, 0, addr.Key(0)).present && Slot(mem, cr3, 0, addr.Key(0)).writable
      ensures OnlyPage(old(mem), mem, cr3, addr.Key(0), Some(content))
    {
      hide AllOk, AppOk, TemplateOk, Slot, Node, Consistent, Undisturbed, OthersUnchanged, LinearAddress.Key;
      ghost var s, k, t := Now(), addr.Key(0), apps[cr3];
      AllOkAt(s, apps, templates, cr3);
      NodeOfSlot(s, cr3, 0, addr.Key(0));
      mem := mem[Node(mem, cr3, 0, addr.Key(0)).value := content];
      AppAfterStore(s, Now(), cr3, t, k, content);
      SpaceStep(s, Now(), apps, templates, cr3);
    }

    /** The page fault handler. The requires are what the processor guarantees: the present bit of the error code
        tells whether the page is mapped, and a user write faults on a mapped page only if it is read-only. */
    method HandlePageFault(present: bool, rw: bool, user: bool, addr: LinearAddress) returns (err: Error)
      requires Valid() && cr3 in apps && cr3 in tasks && addr.Valid() && addr.pml4 >= 256
      requires present <==> Slot(mem, cr3, 0, addr.Key(0)).present
      requires present && rw && user ==> !Slot(mem, cr3, 0, addr.Key(0)).writable
      modifies `mem, `free, `owner
      ensures OnlySpace(cr3) && free <= old(free)
      ensures err.Success? ==> Slot(mem, cr3, 0, addr.Key(0)).present && Slot(mem, cr3, 0, addr.Key(0)).writable
      ensures present && !(rw && user) ==> err == AlreadyAllocated && Now() == old(Now())
      ensures present && rw && user ==> err in {Success, NoEnoughMemory} && PagesKept(old(Now()), Now(), cr3)
      ensures !present ==> (err == IndexOutOfRange <==> FreshContent(tasks[cr3], files, addr).None?)
      ensures !present ==> err in {Success, NoEnoughMemory, IndexOutOfRange}
      ensures err == NoEnoughMemory ==> free == {}
      ensures !present ==>
        OnlyPage(old(mem), mem, cr3, addr.Key(0), if err.Success? then FreshContent(tasks[cr3], files, addr) else None)
      ensures !present ==> (err == IndexOutOfRange <==> !Fillable(tasks[cr3], addr))
      ensures !present && err.Success? ==>
        exists p :: Filled(tasks[cr3], files, addr, p) && OnlyPage(old(mem), mem, cr3, addr.Key(0), Some(p))
    {
      hide AllOk, AppOk, TemplateOk, Slot, Consistent, Undisturbed, OthersUnchanged, LinearAddress.Key, Fillable, Filled, OnlyPage,
        PagesKept, FilePage;
      FreshContentIs(tasks[cr3], files, addr);
      if present && rw && user {
        err := CopyOnePage(addr);
        return;
      } else if present {
        ghost var s := Now();
        AllOkAt(s, apps, templates, cr3);
        NothingDisturbed(s, apps, templates, cr3);
        return AlreadyAllocated;
      }
      var task := tasks[cr3];
      if task.dpBegin <= Value(addr) < task.dpEnd {
        err := MapFreshPage(addr);
        if err.Success? {
          FaultFills(task, files, addr, old(mem), mem, cr3);
        }
        return;
      }
      var m := FindFileMapping(task.maps, Value(addr));
      if m.Some? {
        err := PreparePageCache(m.value, addr);
        if err.Success? {
          FaultFills(task, files, addr, old(mem), mem, cr3);
        }
        return;
      }
      ghost var s := Now();
      AllOkAt(s, apps, templates, cr3);
      NothingDisturbed(s, apps, templates, cr3);
      AbsentStays(mem, cr3, addr.Key(0));
      return IndexOutOfRange;
    }

    // ---- Runs of programs -------------------------------------------------------------

    /** A load or store of the current program, carried out or not. */
    method Access(addr: LinearAddress, write: bool, index: nat, word: Word) returns (ok: bool)
      requires Valid() && cr3 in apps && cr3 in tasks && addr.Valid() && addr.pml4 >= 256 && index < 512
      modifies `mem, `free, `owner
      ensures OnlySpace(cr3) && free <= old(free)
      ensures ok ==> Accessed(tasks[cr3], files, addr, old(mem), mem, cr3, write, index, word)
      ensures !ok ==> OnlyPage(old(mem), mem, cr3, addr.Key(0), ReadPage(old(mem), cr3, addr.Key(0)))
      ensures var content := ReadPage(old(mem), cr3, addr.Key(0)).Some? || Fillable(tasks[cr3], addr);
        (ok ==> content) && (!ok ==> free == {} || !content)
      ensures ok ==> OnlyPage(old(mem), mem, cr3, addr.Key(0),
        PageAfterAccess(ReadPage(old(mem), cr3, addr.Key(0)), FreshContent(tasks[cr3], files, addr), write, index, word))
    {
      ghost var mem0 := mem;
      hide *;
      FreshContentIs(tasks[cr3], files, addr);
      ok := TryAccess(addr, write, index, word);
      if ok {
        AccessIs(tasks[cr3], files, addr, mem0, mem, cr3, write, index, word);
      }
    }

    /** A load or store of the current program: the processor checks the page tables,
        calls the fault handler if it must, and retries. */
    method TryAccess(addr: LinearAddress, write: bool, index: nat, word: Word) returns (ok: bool)
      requires Valid() && cr3 in apps && cr3 in tasks && addr.Valid() && addr.pml4 >= 256 && index < 512
      modifies `mem, `free, `owner
      ensures OnlySpace(cr3) && free <= old(free)
      ensures OnlyPage(old(mem), mem, cr3, addr.Key(0),
        if ok then PageAfterAccess(ReadPage(old(mem), cr3, addr.Key(0)), FreshContent(tasks[cr3], files, addr), write, index, word)
        else ReadPage(old(mem), cr3, addr.Key(0)))
      ensures
        var content := ReadPage(old(mem), cr3, addr.Key(0)).Some? || FreshContent(tasks[cr3], files, addr).Some?;
        (ok ==> content) && (!ok ==> free == {} || !content)
    {
      hide AllOk, AppOk, TemplateOk, Slot, Consistent, Undisturbed, OthersUnchanged, LinearAddress.Key;
      ghost var s0 := Now();
      AllOkAt(s0, apps, templates, cr3);
      NothingDisturbed(s0, apps, templates, cr3);
      LeafDecides(s0, cr3, apps[cr3], 0, addr.Key(0), write);
      if !UserMay(mem, cr3, 0, addr.Key(0), write) {
        var err := HandlePageFault(Slot(mem, cr3, 0, addr.Key(0)).present, write, true, addr);
        if !err.Success? {
          return false;
        }
      }
      ghost var s1 := Now();
      if write {
        var page := At(mem, Slot(mem, cr3, 0, addr.Key(0)).addr);
        StorePage(addr, page[index := word]);
        OnlySpaceTwice(s0, s1, Now(), apps, templates, cr3);
      }
      return true;
    }

    /** Any interleaving of accesses, faults and mapping calls of several programs. */
    method Run(events: seq<Event>) returns (done: seq<bool>)
      requires Valid() && apps.Keys <= tasks.Keys
      requires forall e | e in events :: e.root in apps && ValidEvent(e)
      modifies `mem, `free, `owner, `cr3, `tasks
      ensures Valid() && |done| == |events|
      ensures ReadsOwnEvents(old(mem), mem, apps, old(tasks), files, events, done)
      ensures Outcomes(old(mem), old(tasks), files, events, done, free)
      ensures forall t | t in templates :: SlotsKept(old(Now()), Now(), t) && PagesKept(old(Now()), Now(), t)
      ensures forall r | r in apps :: r in tasks && tasks[r] == TaskAfter(files, old(tasks[r]), events, r, |events|)
      ensures forall r | AllBy(events, r) :: Undisturbed(old(Now()), Now(), r)
    {
      done := [];
      ghost var s0, tasks0 := Now(), tasks;
      RunStarts(s0, apps, templates, tasks, files, events);
      hide *;
      while |done| < |events|
        invariant |done| <= |events| && Valid()
        invariant SoFar(s0, Now(), apps, templates, tasks0, tasks, files, events, done)
      {
        var ok := RunOne(events, done, s0, tasks0);
        done := done + [ok];
      }
      RunEnds(s0, Now(), apps, templates, tasks0, tasks, files, events, done);
    }

    /** One event of a run. */
    method RunOne(events: seq<Event>, done: seq<bool>, ghost s0: World, ghost tasks0: map<nat, Task>) returns (ok: bool)
      requires Valid() && |done| < |events|
      requires SoFar(s0, Now(), apps, templates, tasks0, tasks, files, events, done)
      modifies `mem, `free, `owner, `cr3, `tasks
      ensures Valid() && SoFar(s0, Now(), apps, templates, tasks0, tasks, files, events, done + [ok])
    {
      var e := events[|done|];
      assert e in events;
      ghost var s := Now();
      hide AllOk, AppOk, Slot, Undisturbed, OthersUnchanged, ReadPage, ReadsOwnEvents, OnlyPage, PagesKept, SlotsKept, LinearAddress.Key,
        Accessed, Fillable, Filled, FreshContent;
      match e.op {
        case Access(addr, write, index, word) =>
          cr3 := e.root;
          FreshContentIs(tasks[cr3], files, addr);
          ok := Access(addr, write, index, word);
          AccessCounts(s0, s, Now(), apps, templates, tasks0, tasks, files, events, done, ok);
        case _ =>
          CallCounts(s0, s, apps, templates, tasks0, tasks, files, events, done);
          tasks := tasks[e.root := TaskStep(files, tasks[e.root], e.op)];
          ok := true;
      }
    }

    // ---- The life of a program ----------------------------------------------------------

    /** A new PML4 that shares the kernel's half with the current one. */
    method SetupPML4() returns (r: Option<nat>)
      requires free !! owner.Keys && RootsOwned(Now())
      modifies `mem, `free, `owner, `cr3
      ensures r.None? ==> free == {} && Now() == old(Now()) && cr3 == old(cr3)
      ensures r.Some? ==>
        && cr3 == r.value && r.value in old(free)
        && Consistent(Now(), r.value) && Undisturbed(old(Now()), Now(), r.value)
        && (forall l: nat, k: nat | l < 4 :: Slot(mem, r.value, l, k) == ZERO)
        && (forall f | f in owner && owner[f].root == r.value :: f == r.value)
        && At(mem, r.value)[..256] == old(At(mem, cr3))[..256]
    {
      ghost var s := Now();
      var lower := At(mem, cr3)[..256];
      r := NewPageMap();
      if r.None? {
        return;
      }
      mem := mem[r.value := lower + At(mem, r.value)[256..]];
      cr3 := r.value;
      owner := owner[r.value := Table(r.value, 4, 0)];
      NewSpace(s, Now(), r.value);
    }

    /** Start a program from a loaded template: copy the template's tables, then map a page for the
        arguments at the top of the address space and sixteen pages of stack below it. */
    method Launch(t: nat, vaddrEnd: int) returns (err: Error, r: nat)
      requires Valid() && t in templates && apps.Keys <= tasks.Keys
      requires forall k: nat | END - 17 <= k < END :: ReadPage(mem, t, k).None?
      modifies `mem, `free, `owner, `cr3, `apps, `tasks
      ensures Valid() && apps.Keys <= tasks.Keys
      ensures !err.Success? ==> err == NoEnoughMemory && free == {} && apps == old(apps)
      ensures err.Success? ==> apps == old(apps)[r := t] && cr3 == r && r in old(free)
      ensures Undisturbed(old(Now()), Now(), r) && OthersUnchanged(old(Now()), Now(), old(apps), templates, r)
      ensures !err.Success? ==> old(free) == {} || r in old(free)
      ensures err.Success? ==> LaunchedPages(old(mem), mem, r, t)
      ensures !err.Success? ==> tasks == old(tasks)
      ensures err.Success? ==> r in tasks && tasks == old(tasks)[r := tasks[r]] && LaunchedTask(tasks[r], vaddrEnd)
    {
      hide AllOk, AppOk, TemplateOk, Slot, Node, Consistent, Built, Undisturbed, OthersUnchanged, ReadPage, EmptyBelow,
           Copying, CopiedRange, CopiedInPart, LinearAddress.Key, LaunchedTask, Value;
      ghost var s0 := Now();
      TemplateAt(s0, apps, templates, t);
      var pml4 := SetupPML4();
      if pml4.None? {
        r := 0;
        NothingDisturbed(s0, apps, templates, r);
        return NoEnoughMemory, r;
      }
      r := pml4.value;
      NotARoot(s0, apps, templates, r);
      ghost var s1 := Now();
      LaunchKeeps(s0, s1, apps, templates, r);
      TemplateKept(s0, s1, r, t);
      TemplateAt(s1, apps, templates, t);
      RootNode(mem, r);
      RootNode(mem, t);
      UpperBounds();
      EmptyBelowAll(s1, r, 4, UPPER, END);
      err := CopyPageMaps(r, t, 4, 256, r, t, 0);
      ghost var s2 := Now();
      CopyUndisturbed(s0, s1, s2, r, t);
      LaunchKeeps(s0, s2, apps, templates, r);
      if !err.Success? {
        return;
      }
      AppAfterLaunch(s1, s2, r, t);
      KeptPages(s0, s1, t);
      TopPages();
      ghost var done;
      err, done := SetupPageMaps(LinearAddress(0, 511, 511, 511, 511), 1, true);
      ghost var s3 := Now();
      SetupUndisturbed(s0, s2, s3, r, t, END - 1, END - 1 + done, if err.Success? then END else END - 1 + done + 1);
      LaunchKeeps(s0, s3, apps, templates, r);
      if !err.Success? {
        return;
      }
      err, done := SetupPageMaps(LinearAddress(0, 495, 511, 511, 511), 16, true);
      SetupUndisturbed(s0, s3, Now(), r, t, END - 17, END - 17 + done, if err.Success? then END - 1 else END - 17 + done + 1);
      LaunchKeeps(s0, Now(), apps, templates, r);
      if !err.Success? {
        return;
      }
      apps := apps[r := t];
      var dp := (vaddrEnd + 4095) / 4096 * 4096;
      LaunchedIs(vaddrEnd);
      tasks := tasks[r := Task(dp, dp, Value(LinearAddress(0, 495, 511, 511, 511)), [])];
    }

    /** The end of ExecuteFile: CleanPageMaps on the upper half, then FreePML4. */
    method Exit()
      requires Valid() && cr3 in apps
      modifies `mem, `free, `owner, `cr3, `apps
      ensures Valid() && cr3 == kernelPml4 && apps == old(apps) - {old(cr3)}
      ensures Undisturbed(old(Now()), Now(), old(cr3)) && OthersUnchanged(old(Now()), Now(), old(apps), templates, old(cr3))
      ensures forall f :: f in owner <==> f in old(owner) && old(owner)[f].root != old(cr3)
      ensures forall f :: f in free <==> f in old(free) || (f in old(owner) && old(owner)[f].root == old(cr3))
    {
      hide AllOk, AppOk, Slot, Node, Consistent, WritableIffOwned, Released, Undisturbed, OthersUnchanged;
      ghost var s := Now();
      var r := cr3;
      AllOkAt(s, apps, templates, r);
      AppConsistent(s, r, apps[r]);
      RootNode(mem, r);
      UpperBounds();
      var err := CleanPageMap(r, 4, LinearAddress(0, 0, 0, 0, 256), r, 0);
      ghost var s1 := Now();
      cr3 := kernelPml4;
      free := free + {r};
      owner := owner - {r};
      ExitKeeps(s, s1, Now(), apps, templates, r);
      apps := apps - {r};
    }

    /** From launch to exit, whatever the program does in between: every frame is back where it was. A launch that fails has
        taken every frame that was free, and they stay with its space. */
    method RunApp(t: nat, vaddrEnd: int, ops: seq<Op>) returns (err: Error, ghost r: nat)
      requires Valid() && t in templates && apps.Keys <= tasks.Keys
      requires forall k: nat | END - 17 <= k < END :: ReadPage(mem, t, k).None?
      requires forall op | op in ops :: ValidOp(op)
      modifies `mem, `free, `owner, `cr3, `apps, `tasks
      ensures Valid()
      ensures !err.Success? ==> err == NoEnoughMemory && apps == old(apps) && TakesAll(old(Now()), Now(), r)
      ensures !err.Success? ==> (old(free) == {} || r in old(free)) && OthersUnchanged(old(Now()), Now(), apps, templates, r)
      ensures err.Success? ==> free == old(free) && owner == old(owner) && apps == old(apps)
      ensures err.Success? ==> forall q | q in apps :: PagesKept(old(Now()), Now(), q)
      ensures err.Success? ==> forall q | q in templates :: SlotsKept(old(Now()), Now(), q) && PagesKept(old(Now()), Now(), q)
    {
      hide AllOk, Undisturbed, OthersUnchanged, PagesKept, SlotsKept, ReadsOwnEvents, LaunchedPages, ReadPage, ValidOp, RootsOwned;
      ghost var s0, apps0 := Now(), apps;
      TemplateAt(s0, apps, templates, t);
      var root;
      err, root := Launch(t, vaddrEnd);
      r := root;
      if !err.Success? {
        AllTaken(s0, Now(), r);
        return;
      }
      NotARoot(s0, apps0, templates, r);
      ghost var s1 := Now();
      var events := EventsOf(root, ops);
      var done := Run(events);
      ghost var s2 := Now();
      cr3 := root;
      Exit();
      UndisturbedTransitive(s0, s1, s2, r);
      NothingLeaked(s0, s2, Now(), r);
      AllRootsOwned(Now(), apps, templates);
      UndisturbedTransitive(s0, s2, Now(), r);
      ExitOthers(s0, Now(), apps0, templates, r);
      OthersAt(s0, Now(), apps0, templates, r);
      assert apps == apps0;
    }
  }
}
