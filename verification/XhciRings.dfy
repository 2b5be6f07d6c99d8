/** The rings of Kernel/usb/xhci/ring.{hpp,cpp} as protocols between driver and controller,
    word by word. A cycle bit in the last word of a TRB tells the consumer whether the slot
    is new (eXtensible Host Controller Interface specification, sections 4.9.2 to 4.9.4). */
module TrbFormat {
  import opened NumberBits

  /** A 32-bit word as a number. */
  newtype Word32 = w: int | 0 <= w < 0x1_0000_0000

  /** The four words of a transfer request block. */
  datatype Trb = Trb(d0: Word32, d1: Word32, d2: Word32, d3: Word32)

  const ZERO_TRB := Trb(0, 0, 0, 0)

  /** Bit 0 of the last word. */
  predicate CycleBit(t: Trb) {
    t.d3 % 2 == 1
  }

  /** Bits 10 to 15 of the last word. */
  predicate IsLink(t: Trb) {
    t.d3 / 1024 % 64 == 6
  }

  /** Bit 1 of the last word. */
  predicate TogglesCycle(t: Trb) {
    t.d3 / 2 % 2 == 1
  }

  /** d3 & 0xfffffffe, or-ed with the cycle bit. */
  function WithCycle(d3: Word32, cycle: bool): Word32 {
    d3 - d3 % 2 + (if cycle then 1 else 0)
  }

  /** A TRB without its cycle bit: what the consumer takes from it. */
  function Payload(t: Trb): Trb {
    t.(d3 := WithCycle(t.d3, false))
  }

  /** An address with its low four bits cleared. */
  function SegmentPointer(lo: Word32): Word32 {
    lo - lo % 16
  }

  /** LinkTRB{buf_} with toggle_cycle set; `lo` and `hi` are the address of the ring. */
  function LinkTrb(lo: Word32, hi: Word32): Trb {
    Trb(SegmentPointer(lo), hi, 0, 6 * 1024 + 2)
  }

  /** All of a TRB but its cycle bit is in what is taken from it. */
  lemma PayloadIs(t: Trb)
    ensures
      var p := Payload(t);
      && p.d0 == t.d0 && p.d1 == t.d1 && p.d2 == t.d2
      && p.d3 / 2 == t.d3 / 2 && p.d3 % 2 == 0
  {
  }

  /** The Link TRB (section 6.4.4.1): the address of the segment, which has four low bits of zero, in words 0 and 1; in word 3
      the TRB type 6, the toggle-cycle bit, and nothing else. */
  lemma LinkIs(lo: Word32, hi: Word32)
    requires lo % 16 == 0
    ensures var t := LinkTrb(lo, hi);
      && t.d0 == lo && t.d1 == hi && t.d2 == 0
      && t.d3 / 1024 == 6 && t.d3 / 2 % 512 == 1 && t.d3 % 2 == 0 && IsLink(t) && TogglesCycle(t)
  {
  }

  /** The mask and the or are those of the driver: (d3 & 0xfffffffe) | cycle. */
  lemma MaskedCycle(d3: Word32, cycle: bool)
    ensures Or(And(d3 as nat, 0xffff_fffe, 32), if cycle then 1 else 0, 32) == WithCycle(d3, cycle) as nat
  {
    WordSize();
    NotOne(32);
    hide And, Or, Not, Pow2;
    LowestBit(d3 as nat, if cycle then 1 else 0, 32);
    assert d3 as nat / 2 * 2 == d3 as nat - d3 as nat % 2;
  }

  lemma WordSize()
    ensures Pow2(32) == 0x1_0000_0000
  {
    PowAdd(1, 1);
    PowAdd(2, 2);
    PowAdd(4, 4);
    PowAdd(8, 8);
    PowAdd(16, 16);
  }

  lemma CycleFacts(t: Trb, cycle: bool)
    ensures CycleBit(t.(d3 := WithCycle(t.d3, cycle))) == cycle
    ensures Payload(t.(d3 := WithCycle(t.d3, cycle))) == Payload(t)
    ensures IsLink(t.(d3 := WithCycle(t.d3, cycle))) == IsLink(t)
    ensures TogglesCycle(t.(d3 := WithCycle(t.d3, cycle))) == TogglesCycle(t)
  {
  }

  /** Write word i of a slot. */
  function SetWord(t: Trb, i: nat, w: Word32): Trb {
    match i
    case 0 => t.(d0 := w)
    case 1 => t.(d1 := w)
    case 2 => t.(d2 := w)
    case _ => t.(d3 := w)
  }

  function Word(t: Trb, i: nat): Word32 {
    match i
    case 0 => t.d0
    case 1 => t.d1
    case 2 => t.d2
    case _ => t.d3
  }
}

/** Command and transfer rings: the driver produces, the controller consumes. */
module ProducerRing {
  import opened TrbFormat

  /** Where the driver is in Push: between calls, or about to write word `word` of the TRB or of the Link TRB. */
  datatype Pc = Idle | Data(trb: Trb, word: nat) | Link(word: nat)

  /** The ring in memory with its address, the driver's fields, and the controller's dequeue index and cycle state.
      `pushed` and `taken` are the TRBs pushed and consumed so far, without cycle bits. */
  datatype State = State(
    buf: seq<Trb>, lo: Word32, hi: Word32,
    writeIndex: nat, cycle: bool, pc: Pc,
    dequeue: nat, ccs: bool,
    pushed: seq<Trb>, taken: seq<Trb>)

  function SetSlotWord(buf: seq<Trb>, i: nat, word: nat, w: Word32): seq<Trb>
    requires i < |buf|
  {
    buf[i := SetWord(buf[i], word, w)]
  }

  // ---- The driver ---------------------------------------------------------------

  /** One store of the driver while it is in Push. */
  function DriverStep(s: State): State
    requires |s.buf| >= 2 && s.writeIndex < |s.buf|
    requires s.pc.Data? ==> s.pc.word < 4
    requires s.pc.Link? ==> s.pc.word < 4
  {
    match s.pc
    case Idle => s
    case Data(trb, word) =>
      if word < 3 then
        s.(buf := SetSlotWord(s.buf, s.writeIndex, word, Word(trb, word)), pc := Data(trb, word + 1))
      else
        var s1 := s.(buf := SetSlotWord(s.buf, s.writeIndex, 3, WithCycle(trb.d3, s.cycle)),
                     writeIndex := s.writeIndex + 1, pushed := s.pushed + [Payload(trb)]);
        if s1.writeIndex == |s.buf| - 1 then s1.(pc := Link(0)) else s1.(pc := Idle)
    case Link(word) =>
      var link := LinkTrb(s.lo, s.hi);
      if word < 3 then
        s.(buf := SetSlotWord(s.buf, s.writeIndex, word, Word(link, word)), pc := Link(word + 1))
      else
        s.(buf := SetSlotWord(s.buf, s.writeIndex, 3, WithCycle(link.d3, s.cycle)),
           writeIndex := 0, cycle := !s.cycle, pc := Idle)
  }

  // ---- The controller -------------------------------------------------------------

  /** The controller fetches the TRB at its dequeue pointer. */
  function Slot(s: State): Trb
    requires s.dequeue < |s.buf|
  {
    s.buf[s.dequeue]
  }

  predicate Trusted(s: State)
    requires s.dequeue < |s.buf|
  {
    CycleBit(Slot(s)) == s.ccs
  }

  /** It acts on the TRB only if the cycle bit is the expected one, and follows a Link TRB back to the ring. */
  function ControllerStep(s: State): State
    requires s.dequeue < |s.buf|
  {
    var t := Slot(s);
    if !Trusted(s) then s
    else if IsLink(t) then
      if t.d0 == SegmentPointer(s.lo) && t.d1 == s.hi then
        s.(dequeue := 0, ccs := if TogglesCycle(t) then !s.ccs else s.ccs)
      else s
    else if s.dequeue + 1 < |s.buf| then
      s.(dequeue := s.dequeue + 1, taken := s.taken + [Payload(t)])
    else s
  }

  // ---- The protocol ------------------------------------------------------------------

  datatype Event = Push(trb: Trb) | DriverStores | ControllerLooks

  /** A push starts only between pushes, with a TRB that is no Link TRB, and leaves at most |buf| - 2 TRBs outstanding. */
  predicate Enabled(s: State, e: Event) {
    match e
    case Push(trb) => s.pc.Idle? && !IsLink(trb) && |s.pushed| - |s.taken| < |s.buf| - 2
    case DriverStores => !s.pc.Idle?
    case ControllerLooks => true
  }

  function Step(s: State, e: Event): State
    requires Shape(s)
  {
    match e
    case Push(trb) => s.(pc := Data(trb, 0))
    case DriverStores => DriverStep(s)
    case ControllerLooks => ControllerStep(s)
  }

  predicate Shape(s: State) {
    && |s.buf| >= 2 && s.dequeue < |s.buf|
    && (if s.pc.Link? then s.writeIndex == |s.buf| - 1 else s.writeIndex < |s.buf| - 1)
    && (s.pc.Data? ==> s.pc.word < 4 && !IsLink(s.pc.trb))
    && (s.pc.Link? ==> s.pc.word < 4)
  }

  /** Slots the driver has written on this lap carry its cycle bit, all others the opposite one. */
  ghost predicate CycleBits(s: State)
    requires Shape(s)
  {
    forall j | 0 <= j < |s.buf| :: CycleBit(s.buf[j]) == (if j < s.writeIndex then s.cycle else !s.cycle)
  }

  /** Slot j holds pushed TRB number j + shift. */
  ghost predicate Holds(s: State, j: nat, shift: int)
    requires j < |s.buf|
  {
    0 <= j + shift < |s.pushed| && Payload(s.buf[j]) == s.pushed[j + shift] && !IsLink(s.buf[j])
  }

  ghost predicate HoldAll(s: State, from: nat, to: nat, shift: int)
    requires to <= |s.buf|
  {
    forall j: nat | from <= j < to :: Holds(s, j, shift)
  }

  ghost predicate LinkReady(s: State)
    requires |s.buf| > 0
  {
    var t := s.buf[|s.buf| - 1];
    IsLink(t) && TogglesCycle(t) && t.d0 == SegmentPointer(s.lo) && t.d1 == s.hi
  }

  /** The outstanding TRBs, in order, from the dequeue index to the write index, across the Link TRB
      if the controller is a lap behind. */
  ghost predicate Outstanding(s: State)
    requires Shape(s)
  {
    var d, w, n, c := s.dequeue, s.writeIndex, |s.buf| - 1, |s.taken|;
    if s.ccs == s.cycle then
      && d <= w && |s.pushed| == c + (w - d)
      && HoldAll(s, d, w, c - d)
    else
      && w < d && |s.pushed| == c + (n - d) + w
      && LinkReady(s)
      && HoldAll(s, d, n, c - d) && HoldAll(s, 0, w, c - d + n)
  }

  /** While the Link TRB is written, its words appear in order. */
  ghost predicate LinkInProgress(s: State)
    requires Shape(s)
  {
    s.pc.Link? ==>
      forall i: nat | i < s.pc.word :: Word(s.buf[|s.buf| - 1], i) == Word(LinkTrb(s.lo, s.hi), i)
  }

  ghost predicate DataInProgress(s: State)
    requires Shape(s)
  {
    s.pc.Data? ==> forall i: nat | i < s.pc.word :: Word(s.buf[s.writeIndex], i) == Word(s.pc.trb, i)
  }

  ghost predicate Inv(s: State) {
    && Shape(s)
    && s.taken <= s.pushed
    && |s.pushed| - |s.taken| + (if s.pc.Data? then 1 else 0) <= |s.buf| - 2
    && CycleBits(s) && Outstanding(s) && LinkInProgress(s) && DataInProgress(s)
  }

  /** Ring::Initialize: a zeroed ring. */
  function Initial(size: nat, lo: Word32, hi: Word32): State {
    State(seq(size, _ => ZERO_TRB), lo, hi, 0, true, Idle, 0, true, [], [])
  }

  lemma InitialInv(size: nat, lo: Word32, hi: Word32)
    requires size >= 2
    ensures Inv(Initial(size, lo, hi))
  {
  }

  lemma PushInv(s: State, trb: Trb)
    requires Inv(s) && Enabled(s, Push(trb))
    ensures Inv(Step(s, Push(trb)))
  {
    hide CycleBit, IsLink, TogglesCycle, WithCycle, Payload;
    var s' := Step(s, Push(trb));
    assert forall j: nat, shift: int | j < |s.buf| :: Holds(s, j, shift) ==> Holds(s', j, shift);
  }

  /** A store that does not complete a TRB touches a slot nobody trusts. */
  lemma WordInv(s: State)
    requires Inv(s) && !s.pc.Idle? && s.pc.word < 3
    ensures Inv(DriverStep(s))
  {
    var s' := DriverStep(s);
    hide CycleBit, IsLink, TogglesCycle, WithCycle, Payload, LinkTrb;
    assert s'.buf[s.writeIndex].d3 == s.buf[s.writeIndex].d3;
    SameCycle(s'.buf[s.writeIndex], s.buf[s.writeIndex]);
    assert forall j: nat, shift: int | j < |s.buf| && j != s.writeIndex :: Holds(s, j, shift) ==> Holds(s', j, shift);
  }

  lemma SameCycle(t: Trb, t': Trb)
    requires t.d3 == t'.d3
    ensures CycleBit(t) == CycleBit(t')
  {
  }

  /** The last word of a TRB makes it visible. */
  lemma CompleteInv(s: State)
    requires Inv(s) && s.pc.Data? && s.pc.word == 3
    ensures Inv(DriverStep(s))
  {
    LastWord(s);
    hide CycleBit, IsLink, TogglesCycle, WithCycle, Payload, LinkTrb, DriverStep;
    var s', w := DriverStep(s), s.writeIndex;
    assert forall j: nat, shift: int | j < w || w < j < |s.buf| :: Holds(s, j, shift) ==> Holds(s', j, shift);
    assert Holds(s', w, |s.pushed| - w);
  }

  lemma LastWord(s: State)
    requires Inv(s) && s.pc.Data? && s.pc.word == 3
    ensures var trb, w := s.pc.trb, s.writeIndex;
      var t := trb.(d3 := WithCycle(trb.d3, s.cycle));
      && CycleBit(t) == s.cycle && Payload(t) == Payload(trb) && !IsLink(t)
      && DriverStep(s) == s.(buf := s.buf[w := t], writeIndex := w + 1, pushed := s.pushed + [Payload(trb)],
                             pc := if w + 1 == |s.buf| - 1 then Link(0) else Idle)
  {
    var w, trb := s.writeIndex, s.pc.trb;
    CycleFacts(trb, s.cycle);
    hide Outstanding, CycleBits, LinkInProgress, CycleBit, IsLink, TogglesCycle, WithCycle, Payload, LinkTrb;
    assert forall i: nat | i < 3 :: Word(s.buf[w], i) == Word(trb, i);
    assert Word(s.buf[w], 0) == trb.d0 && Word(s.buf[w], 1) == trb.d1 && Word(s.buf[w], 2) == trb.d2;
  }

  /** The last word of the Link TRB closes the lap. */
  lemma LapInv(s: State)
    requires Inv(s) && s.pc.Link? && s.pc.word == 3
    ensures Inv(DriverStep(s))
  {
    var s', w, link := DriverStep(s), s.writeIndex, LinkTrb(s.lo, s.hi);
    assert forall i: nat | i < 3 :: Word(s.buf[w], i) == Word(link, i);
    assert Word(s.buf[w], 0) == link.d0 && Word(s.buf[w], 1) == link.d1 && Word(s.buf[w], 2) == link.d2;
    assert s'.buf[w] == link.(d3 := WithCycle(link.d3, s.cycle));
    CycleFacts(link, s.cycle);
    assert IsLink(link) && TogglesCycle(link);
    hide CycleBit, IsLink, TogglesCycle, WithCycle, Payload;
    assert forall j: nat, shift: int | j < w :: Holds(s, j, shift) ==> Holds(s', j, shift);
  }

  lemma ControllerInv(s: State)
    requires Inv(s)
    ensures Inv(ControllerStep(s))
  {
    var s' := ControllerStep(s);
    if Trusted(s) {
      hide CycleBit, IsLink, TogglesCycle, WithCycle, Payload, LinkTrb;
      assert forall j: nat, shift: int | j < |s.buf| :: Holds(s', j, shift) <==> Holds(s, j, shift);
      if s.dequeue < |s.buf| - 1 {
        assert Holds(s, s.dequeue, |s.taken| - s.dequeue);
      }
    }
  }

  lemma StepInv(s: State, e: Event)
    requires Inv(s) && Enabled(s, e)
    ensures Inv(Step(s, e))
  {
    hide Inv;
    match e
    case Push(trb) => PushInv(s, trb);
    case DriverStores => DriverInv(s);
    case ControllerLooks => ControllerInv(s);
  }

  lemma DriverInv(s: State)
    requires Inv(s) && !s.pc.Idle?
    ensures Inv(DriverStep(s))
  {
    if s.pc.word < 3 {
      WordInv(s);
    } else if s.pc.Data? {
      CompleteInv(s);
    } else {
      LapInv(s);
    }
  }

  // ---- What holds in every run ------------------------------------------------------

  predicate ValidRun(s: State, events: seq<Event>)
    decreases |events|
  {
    events == [] || (Shape(s) && Enabled(s, events[0]) && ValidRun(Step(s, events[0]), events[1..]))
  }

  function After(s: State, events: seq<Event>): State
    requires ValidRun(s, events)
    decreases |events|
  {
    if events == [] then s else After(Step(s, events[0]), events[1..])
  }

  lemma {:induction false} RunInv(s: State, events: seq<Event>)
    requires Inv(s) && ValidRun(s, events)
    ensures Inv(After(s, events))
    decreases |events|
  {
    if events != [] {
      StepInv(s, events[0]);
      RunInv(Step(s, events[0]), events[1..]);
    }
  }

  /** Whatever the interleaving of stores and looks, over however many laps: what the controller has taken
      is a prefix of what was pushed, and a TRB it trusts is the next one, complete. */
  lemma TakenInOrder(size: nat, lo: Word32, hi: Word32, events: seq<Event>)
    requires size >= 2 && ValidRun(Initial(size, lo, hi), events)
    ensures var s := After(Initial(size, lo, hi), events);
      && s.taken <= s.pushed
      && s.dequeue < |s.buf|
      && (Trusted(s) && s.dequeue < size - 1 ==> |s.taken| < |s.pushed| && Payload(Slot(s)) == s.pushed[|s.taken|])
      && (Trusted(s) && s.dequeue == size - 1 ==> LinkReady(s))
  {
    InitialInv(size, lo, hi);
    RunInv(Initial(size, lo, hi), events);
    var s := After(Initial(size, lo, hi), events);
    RunSize(Initial(size, lo, hi), events);
    if Trusted(s) {
      TrustedIsNext(s);
    }
  }

  /** The TRB the driver is writing. */
  ghost predicate Underway(s: State, all: seq<Trb>) {
    if s.pc.Data? then all == s.pushed + [Payload(s.pc.trb)] else all == s.pushed
  }

  /** The pushes of a run, in their order: what the ring counts as pushed, with the TRB being written. */
  ghost predicate Pushes(events: seq<Event>, at: seq<nat>, all: seq<Trb>) {
    && |at| == |all|
    && (forall k | 0 <= k < |at| :: at[k] < |events| && events[at[k]].Push? && all[k] == Payload(events[at[k]].trb))
    && (forall j, k | 0 <= j < k < |at| :: at[j] < at[k])
    && (forall i: nat | i < |events| && events[i].Push? :: i in at)
  }

  /** In every run, exactly the TRBs of the pushes are pushed, each once and in order. */
  lemma {:induction false} PushedInOrder(size: nat, lo: Word32, hi: Word32, events: seq<Event>)
    returns (at: seq<nat>, all: seq<Trb>)
    requires size >= 2 && ValidRun(Initial(size, lo, hi), events)
    ensures Underway(After(Initial(size, lo, hi), events), all) && Pushes(events, at, all)
    decreases |events|
  {
    var s0 := Initial(size, lo, hi);
    if events == [] {
      at, all := [], [];
    } else {
      var n := |events| - 1;
      var before, e := events[..n], events[n];
      assert before + [e] == events;
      RunsSplit(s0, before, e);
      at, all := PushedInOrder(size, lo, hi, before);
      StepCounts(After(s0, before), e, all);
      hide *;
      at, all := MorePushes(before, e, at, all);
    }
  }

  lemma StepCounts(s: State, e: Event, all: seq<Trb>)
    requires Shape(s) && Enabled(s, e) && Underway(s, all)
    ensures Underway(Step(s, e), if e.Push? then all + [Payload(e.trb)] else all)
  {
    hide Payload, WithCycle, IsLink;
  }

  lemma MorePushes(events: seq<Event>, e: Event, at: seq<nat>, all: seq<Trb>) returns (at': seq<nat>, all': seq<Trb>)
    requires Pushes(events, at, all)
    ensures Pushes(events + [e], at', all') && all' == if e.Push? then all + [Payload(e.trb)] else all
  {
    hide Payload;
    var more, n := events + [e], |events|;
    at', all' := if e.Push? then at + [n] else at, if e.Push? then all + [Payload(e.trb)] else all;
    forall k | 0 <= k < |at'|
      ensures at'[k] < |more| && more[at'[k]].Push? && all'[k] == Payload(more[at'[k]].trb)
    {
      assert k < |at| ==> at'[k] == at[k] && more[at[k]] == events[at[k]];
    }
    forall i: nat | i < |more| && more[i].Push?
      ensures i in at'
    {
      if i < n {
        assert events[i].Push?;
        var k :| 0 <= k < |at| && at[k] == i;
        assert at'[k] == i;
      } else {
        assert at'[|at|] == i;
      }
    }
  }

  lemma {:induction false} RunsSplit(s: State, events: seq<Event>, e: Event)
    requires ValidRun(s, events + [e])
    ensures ValidRun(s, events) && Shape(After(s, events)) && Enabled(After(s, events), e)
    ensures After(s, events + [e]) == Step(After(s, events), e)
    decreases |events|
  {
    if events == [] {
      assert events + [e] == [e] && [e][1..] == [];
    } else {
      assert (events + [e])[1..] == events[1..] + [e];
      RunsSplit(Step(s, events[0]), events[1..], e);
    }
  }

  lemma {:induction false} RunSize(s: State, events: seq<Event>)
    requires ValidRun(s, events)
    ensures |After(s, events).buf| == |s.buf|
    decreases |events|
  {
    if events != [] {
      RunSize(Step(s, events[0]), events[1..]);
    }
  }

  lemma TrustedIsNext(s: State)
    requires Inv(s) && Trusted(s)
    ensures s.dequeue < |s.buf| - 1 ==>
      |s.taken| < |s.pushed| && Payload(Slot(s)) == s.pushed[|s.taken|] && !IsLink(Slot(s))
    ensures s.dequeue == |s.buf| - 1 ==> LinkReady(s) && s.ccs != s.cycle
  {
    hide CycleBit, IsLink, TogglesCycle, WithCycle, Payload, LinkTrb;
    if s.dequeue < |s.buf| - 1 {
      assert Holds(s, s.dequeue, |s.taken| - s.dequeue);
    }
  }

  /** Between pushes the controller never stalls on an outstanding TRB: it takes the next one at once,
      or follows the Link TRB first. */
  lemma NoStall(s: State)
    requires Inv(s) && s.pc.Idle? && |s.taken| < |s.pushed|
    ensures var s1 := ControllerStep(s);
      |s1.taken| == |s.taken| + 1 || (s1.dequeue < |s1.buf| && |ControllerStep(s1).taken| == |s.taken| + 1)
  {
    OutstandingTrusted(s);
    TrustedIsNext(s);
    var s1 := ControllerStep(s);
    if s.dequeue == |s.buf| - 1 {
      ControllerInv(s);
      OutstandingTrusted(s1);
      TrustedIsNext(s1);
    }
  }

  lemma OutstandingTrusted(s: State)
    requires Inv(s) && s.pc.Idle? && |s.taken| < |s.pushed|
    ensures Trusted(s)
  {
    hide CycleBit, IsLink, TogglesCycle, WithCycle, Payload, LinkTrb;
  }

  /** The driver runs until Push returns. */
  function Completed(s: State): State
    requires Shape(s)
    decreases if s.pc.Idle? then 0 else if s.pc.Link? then 4 - s.pc.word else 9 - s.pc.word
  {
    if s.pc.Idle? then s else Completed(DriverStep(s))
  }

  lemma {:induction false} CompletedInv(s: State)
    requires Inv(s)
    ensures Inv(Completed(s)) && Completed(s).pc.Idle?
    decreases if s.pc.Idle? then 0 else if s.pc.Link? then 4 - s.pc.word else 9 - s.pc.word
  {
    if !s.pc.Idle? {
      DriverInv(s);
      CompletedInv(DriverStep(s));
    }
  }

  /** Why |buf| - 2 is the limit: one more TRB outstanding stops the controller if and only if it still stands before the
      Link TRB of the lap before. Closing the lap has overwritten that Link TRB. */
  lemma OneTooManyStalls(s: State, trb: Trb)
    requires Inv(s) && s.pc.Idle? && !IsLink(trb) && |s.pushed| - |s.taken| == |s.buf| - 2
    ensures var s' := Completed(Step(s, Push(trb)));
      && |s'.pushed| - |s'.taken| == |s.buf| - 1 && s'.dequeue < |s'.buf|
      && (!Trusted(s') <==> s.dequeue == |s.buf| - 1)
      && (ControllerStep(s') == s' <==> s.dequeue == |s.buf| - 1)
  {
    CompletedIs(s, trb);
    CycleFacts(LinkTrb(s.lo, s.hi), s.cycle);
    CycleFacts(trb, s.cycle);
    if |s.taken| < |s.pushed| {
      OutstandingTrusted(s);
      TrustedIsNext(s);
    }
    hide WithCycle, CycleBit, IsLink, LinkTrb, Payload, Completed;
  }

  // ---- A run to the stall

  function StoreEvents(s: State): seq<Event>
    requires Shape(s)
    decreases if s.pc.Idle? then 0 else if s.pc.Link? then 4 - s.pc.word else 9 - s.pc.word
  {
    if s.pc.Idle? then [] else [DriverStores] + StoreEvents(DriverStep(s))
  }

  lemma {:induction false} StoresRun(s: State)
    requires Shape(s)
    ensures ValidRun(s, StoreEvents(s)) && After(s, StoreEvents(s)) == Completed(s)
    decreases if s.pc.Idle? then 0 else if s.pc.Link? then 4 - s.pc.word else 9 - s.pc.word
  {
    if !s.pc.Idle? {
      StoresRun(DriverStep(s));
      assert StoreEvents(s)[1..] == StoreEvents(DriverStep(s));
    }
  }

  lemma {:induction false} RunsOn(s: State, a: seq<Event>, b: seq<Event>)
    requires ValidRun(s, a) && ValidRun(After(s, a), b)
    ensures ValidRun(s, a + b) && After(s, a + b) == After(After(s, a), b)
    decreases |a|
  {
    if a == [] {
      assert a + b == b;
    } else {
      assert (a + b)[1..] == a[1..] + b;
      RunsOn(Step(s, a[0]), a[1..], b);
    }
  }

  /** A push run to its end, in a state where it may start. */
  lemma PushRuns(s: State, trb: Trb)
    requires Inv(s) && Enabled(s, Push(trb))
    ensures
      var events := [Push(trb)] + StoreEvents(Step(s, Push(trb)));
      ValidRun(s, events) && After(s, events) == Completed(Step(s, Push(trb)))
    ensures
      var s' := Completed(Step(s, Push(trb)));
      && Inv(s') && s'.pc.Idle? && |s'.pushed| == |s.pushed| + 1 && s'.taken == s.taken
      && s'.dequeue == s.dequeue && |s'.buf| == |s.buf|
  {
    PushInv(s, trb);
    CompletedInv(Step(s, Push(trb)));
    CompletedIs(s, trb);
    StoresRun(Step(s, Push(trb)));
    hide Completed, Inv, StoreEvents;
    var stores := StoreEvents(Step(s, Push(trb)));
    assert ([Push(trb)] + stores)[1..] == stores;
  }

  lemma LookRuns(s: State)
    requires Inv(s) && s.pc.Idle? && |s.taken| < |s.pushed| && s.dequeue < |s.buf| - 1
    ensures ValidRun(s, [ControllerLooks]) && After(s, [ControllerLooks]) == ControllerStep(s)
    ensures
      var s' := ControllerStep(s);
      && Inv(s') && s'.pc.Idle? && s'.pushed == s.pushed && |s'.taken| == |s.taken| + 1
      && s'.dequeue == s.dequeue + 1 && |s'.buf| == |s.buf|
  {
    ControllerInv(s);
    OutstandingTrusted(s);
    TrustedIsNext(s);
    assert [ControllerLooks][1..] == [];
  }

  /** Each TRB taken at once: the controller comes to any slot of the first lap. */
  lemma {:induction false} LookedTo(size: nat, lo: Word32, hi: Word32, d: nat) returns (events: seq<Event>)
    requires size >= 3 && d < size
    ensures ValidRun(Initial(size, lo, hi), events)
    ensures var s := After(Initial(size, lo, hi), events);
      Inv(s) && s.pc.Idle? && |s.pushed| == |s.taken| && s.dequeue == d && |s.buf| == size
  {
    var s0 := Initial(size, lo, hi);
    InitialInv(size, lo, hi);
    if d == 0 {
      return [];
    }
    var before := LookedTo(size, lo, hi, d - 1);
    hide Inv, Completed, ControllerStep, StoreEvents, ValidRun, After;
    var s := After(s0, before);
    ZeroIsNoLink();
    PushRuns(s, ZERO_TRB);
    var push := [Push(ZERO_TRB)] + StoreEvents(Step(s, Push(ZERO_TRB)));
    RunsOn(s0, before, push);
    LookRuns(After(s0, before + push));
    RunsOn(s0, before + push, [ControllerLooks]);
    events := before + push + [ControllerLooks];
  }

  lemma ZeroIsNoLink()
    ensures !IsLink(ZERO_TRB)
  {
  }

  /** In a ring of any size, allowed runs lead to the state where one TRB more stops the controller. */
  lemma {:induction false} StallReached(size: nat, lo: Word32, hi: Word32, n: nat) returns (events: seq<Event>)
    requires size >= 3 && n <= size - 2
    ensures ValidRun(Initial(size, lo, hi), events)
    ensures var s := After(Initial(size, lo, hi), events);
      Inv(s) && s.pc.Idle? && |s.pushed| - |s.taken| == n && s.dequeue == size - 1 == |s.buf| - 1
    decreases n
  {
    var s0 := Initial(size, lo, hi);
    if n == 0 {
      events := LookedTo(size, lo, hi, size - 1);
    } else {
      var before := StallReached(size, lo, hi, n - 1);
      hide Inv, Completed, StoreEvents, ValidRun, After;
      var s := After(s0, before);
      ZeroIsNoLink();
      PushRuns(s, ZERO_TRB);
      var push := [Push(ZERO_TRB)] + StoreEvents(Step(s, Push(ZERO_TRB)));
      RunsOn(s0, before, push);
      events := before + push;
    }
  }

  /** Push writes the TRB with the producer's cycle bit and, at the end of the ring, the Link TRB. */
  lemma CompletedIs(s: State, trb: Trb)
    requires Shape(s) && s.pc.Idle? && !IsLink(trb)
    ensures var w, s' := s.writeIndex, Completed(Step(s, Push(trb)));
      var buf := s.buf[w := trb.(d3 := WithCycle(trb.d3, s.cycle))];
      s' == if w + 1 == |s.buf| - 1
        then var link := LinkTrb(s.lo, s.hi);
          s.(buf := buf[w + 1 := link.(d3 := WithCycle(link.d3, s.cycle))], writeIndex := 0, cycle := !s.cycle,
             pushed := s.pushed + [Payload(trb)])
        else s.(buf := buf, writeIndex := w + 1, pushed := s.pushed + [Payload(trb)])
  {
    hide CycleBit, IsLink, TogglesCycle, WithCycle, Payload, LinkTrb;
    var s4 := s.(buf := s.buf[s.writeIndex := trb.(d3 := WithCycle(trb.d3, s.cycle))], writeIndex := s.writeIndex + 1,
                 pushed := s.pushed + [Payload(trb)],
                 pc := if s.writeIndex + 1 == |s.buf| - 1 then Link(0) else Idle);
    DataStored(s, trb, s4);
    if s4.pc.Link? {
      LinkStored(s4);
    }
  }

  lemma DataStored(s: State, trb: Trb, s4: State)
    requires Shape(s) && s.pc.Idle? && !IsLink(trb)
    requires s4 == s.(buf := s.buf[s.writeIndex := trb.(d3 := WithCycle(trb.d3, s.cycle))], writeIndex := s.writeIndex + 1,
                      pushed := s.pushed + [Payload(trb)],
                      pc := if s.writeIndex + 1 == |s.buf| - 1 then Link(0) else Idle)
    ensures Completed(Step(s, Push(trb))) == Completed(s4)
  {
    hide CycleBit, IsLink, TogglesCycle, WithCycle, Payload, LinkTrb;
    var s0 := Step(s, Push(trb));
    var s3 := DriverStep(DriverStep(DriverStep(s0)));
    assert Completed(s0) == Completed(DriverStep(s0)) == Completed(DriverStep(DriverStep(s0))) == Completed(s3);
    assert DriverStep(s3) == s4;
  }

  lemma LinkStored(s: State)
    requires Shape(s) && s.pc == Link(0)
    ensures var link := LinkTrb(s.lo, s.hi);
      Completed(s) == s.(buf := s.buf[s.writeIndex := link.(d3 := WithCycle(link.d3, s.cycle))], writeIndex := 0,
                         cycle := !s.cycle, pc := Idle)
  {
    hide CycleBit, IsLink, TogglesCycle, WithCycle, Payload, LinkTrb;
    var s3 := DriverStep(DriverStep(DriverStep(s)));
    assert Completed(s) == Completed(DriverStep(s)) == Completed(DriverStep(DriverStep(s))) == Completed(s3);
    assert Completed(s3) == DriverStep(s3);
  }

  // ---- The driver's class -----------------------------------------------------------

  class Ring {
    const buf: array<Trb>
    const lo: Word32
    const hi: Word32
    var cycleBit: bool
    var writeIndex: nat

    /** The fields and the ring in memory are those of state s. */
    ghost predicate Matches(s: State)
      reads this, buf
    {
      buf[..] == s.buf && lo == s.lo && hi == s.hi && cycleBit == s.cycle && writeIndex == s.writeIndex
    }

    constructor (size: nat, lo: Word32, hi: Word32)
      requires size >= 2
      ensures Matches(Initial(size, lo, hi)) && fresh(buf)
    {
      buf := new Trb[size](_ => ZERO_TRB);
      this.lo, this.hi := lo, hi;
      cycleBit := true;
      writeIndex := 0;
    }

    /** Write a TRB with the cycle bit to the write index, its last word last. */
    method CopyToLast(data: Trb)
      requires writeIndex < buf.Length
      modifies buf
      ensures buf[..] == old(buf[..])[writeIndex := data.(d3 := WithCycle(data.d3, cycleBit))]
    {
      var i := 0;
      while i < 3
        invariant 0 <= i <= 3
        invariant forall j | 0 <= j < buf.Length && j != writeIndex :: buf[j] == old(buf[j])
        invariant forall k: nat | k < i :: Word(buf[writeIndex], k) == Word(data, k)
      {
        buf[writeIndex] := SetWord(buf[writeIndex], i, Word(data, i));
        i := i + 1;
      }
      assert Word(buf[writeIndex], 0) == data.d0 && Word(buf[writeIndex], 1) == data.d1 && Word(buf[writeIndex], 2) == data.d2;
      buf[writeIndex] := SetWord(buf[writeIndex], 3, WithCycle(data.d3, cycleBit));
      assert buf[..] == old(buf[..])[writeIndex := data.(d3 := WithCycle(data.d3, cycleBit))];
    }

    /** Push is the driver's steps of the protocol run to completion; the result is the slot written. */
    method Push(data: Trb, ghost s: State) returns (slot: nat)
      requires Shape(s) && s.pc.Idle? && Matches(s) && !IsLink(data)
      modifies this, buf
      ensures slot == old(writeIndex)
      ensures Matches(Completed(Step(s, Event.Push(data))))
      ensures Inv(s) && Enabled(s, Event.Push(data)) ==> Inv(Completed(Step(s, Event.Push(data))))
    {
      CompletedIs(s, data);
      if Inv(s) && Enabled(s, Event.Push(data)) {
        PushInv(s, data);
        CompletedInv(Step(s, Event.Push(data)));
      }
      hide CycleBit, IsLink, TogglesCycle, WithCycle, Payload, LinkTrb, Completed;
      slot := writeIndex;
      CopyToLast(data);
      writeIndex := writeIndex + 1;
      if writeIndex == buf.Length - 1 {
        var link := LinkTrb(lo, hi);
        CopyToLast(link);
        writeIndex := 0;
        cycleBit := !cycleBit;
      }
    }
  }
}

/** The event ring: the controller produces, the driver consumes; there is no Link TRB. */
module EventRings {
  import opened Options
  import opened TrbFormat

  /** The ring segment, the controller's enqueue index and cycle state with the words of the event it is writing,
      and the driver's dequeue pointer and cycle bit. */
  datatype State = State(
    buf: seq<Trb>,
    enqueue: nat, pcs: bool, writing: Option<(Trb, nat)>,
    dequeue: nat, cycle: bool,
    produced: seq<Trb>, handled: seq<Trb>)

  /** The controller starts an event, stores its next word (the last one makes it visible), or the driver pops. */
  datatype Event = Begin(trb: Trb) | Store | Pop

  predicate Shape(s: State) {
    && |s.buf| > 0 && s.enqueue < |s.buf| && s.dequeue < |s.buf|
    && (s.writing.Some? ==> s.writing.value.1 < 4)
  }

  /** HasFront. */
  predicate HasFront(s: State)
    requires s.dequeue < |s.buf|
  {
    CycleBit(s.buf[s.dequeue]) == s.cycle
  }

  /** A conforming controller starts an event only if the ring has room. */
  predicate Enabled(s: State, e: Event)
    requires Shape(s)
  {
    match e
    case Begin(_) => s.writing.None? && |s.produced| - |s.handled| < |s.buf|
    case Store => s.writing.Some?
    case Pop => HasFront(s)
  }

  function Step(s: State, e: Event): State
    requires Shape(s) && Enabled(s, e)
  {
    match e
    case Begin(trb) => s.(writing := Some((trb, 0)))
    case Store =>
      var (trb, word) := s.writing.value;
      if word < 3 then
        s.(buf := s.buf[s.enqueue := SetWord(s.buf[s.enqueue], word, Word(trb, word))], writing := Some((trb, word + 1)))
      else
        var wraps := s.enqueue + 1 == |s.buf|;
        s.(buf := s.buf[s.enqueue := SetWord(s.buf[s.enqueue], 3, WithCycle(trb.d3, s.pcs))], writing := None,
           enqueue := if wraps then 0 else s.enqueue + 1, pcs := if wraps then !s.pcs else s.pcs,
           produced := s.produced + [Payload(trb)])
    case Pop =>
      var wraps := s.dequeue + 1 == |s.buf|;
      s.(dequeue := if wraps then 0 else s.dequeue + 1, cycle := if wraps then !s.cycle else s.cycle,
         handled := s.handled + [Payload(s.buf[s.dequeue])])
  }

  ghost predicate Holds(s: State, j: nat, shift: int)
    requires j < |s.buf|
  {
    0 <= j + shift < |s.produced| && Payload(s.buf[j]) == s.produced[j + shift]
  }

  ghost predicate HoldAll(s: State, from: nat, to: nat, shift: int)
    requires to <= |s.buf|
  {
    forall j: nat | from <= j < to :: Holds(s, j, shift)
  }

  ghost predicate Inv(s: State) {
    && Shape(s)
    && s.handled <= s.produced
    && (forall j | 0 <= j < |s.buf| :: CycleBit(s.buf[j]) == (if j < s.enqueue then s.pcs else !s.pcs))
    && (if s.cycle == s.pcs then
          s.dequeue <= s.enqueue && |s.produced| == |s.handled| + (s.enqueue - s.dequeue)
          && HoldAll(s, s.dequeue, s.enqueue, |s.handled| - s.dequeue)
        else
          s.enqueue <= s.dequeue && |s.produced| == |s.handled| + (|s.buf| - s.dequeue) + s.enqueue
          && HoldAll(s, s.dequeue, |s.buf|, |s.handled| - s.dequeue)
          && HoldAll(s, 0, s.enqueue, |s.handled| - s.dequeue + |s.buf|))
    && (s.writing.Some? ==>
          && |s.produced| - |s.handled| < |s.buf|
          && forall i: nat | i < s.writing.value.1 :: Word(s.buf[s.enqueue], i) == Word(s.writing.value.0, i))
  }

  /** EventRing::Initialize and the controller's initial state. */
  function Initial(size: nat): State {
    State(seq(size, _ => ZERO_TRB), 0, true, None, 0, true, [], [])
  }

  lemma StepInv(s: State, e: Event)
    requires Inv(s) && Enabled(s, e)
    ensures Inv(Step(s, e))
  {
    var s' := Step(s, e);
    match e
    case Begin(trb) =>
      assert forall j: nat, shift: int | j < |s.buf| :: Holds(s, j, shift) ==> Holds(s', j, shift);
      hide CycleBit, WithCycle, Payload;
    case Store => StoreInv(s);
    case Pop =>
      hide CycleBit, WithCycle, Payload;
      assert forall j: nat, shift: int | j < |s.buf| :: Holds(s, j, shift) <==> Holds(s', j, shift);
      assert Holds(s, s.dequeue, |s.handled| - s.dequeue);
  }

  lemma StoreInv(s: State)
    requires Inv(s) && s.writing.Some?
    ensures Inv(Step(s, Store))
  {
    var (trb, word) := s.writing.value;
    var s', w := Step(s, Store), s.enqueue;
    if word < 3 {
      assert s'.buf[w].d3 == s.buf[w].d3;
      assert CycleBit(s'.buf[w]) == CycleBit(s.buf[w]);
    } else {
      assert forall i: nat | i < 3 :: Word(s.buf[w], i) == Word(trb, i);
      assert Word(s.buf[w], 0) == trb.d0 && Word(s.buf[w], 1) == trb.d1 && Word(s.buf[w], 2) == trb.d2;
      assert s'.buf[w] == trb.(d3 := WithCycle(trb.d3, s.pcs));
      CycleFacts(trb, s.pcs);
      assert Holds(s', w, |s.produced| - w);
    }
    hide CycleBit, WithCycle, Payload;
    assert forall j: nat, shift: int | j < |s.buf| && j != w :: Holds(s, j, shift) ==> Holds(s', j, shift);
  }

  ghost predicate ValidRun(s: State, events: seq<Event>)
    decreases |events|
  {
    events == [] || (Shape(s) && Enabled(s, events[0]) && ValidRun(Step(s, events[0]), events[1..]))
  }

  ghost function After(s: State, events: seq<Event>): State
    requires ValidRun(s, events)
    decreases |events|
  {
    if events == [] then s else After(Step(s, events[0]), events[1..])
  }

  lemma {:induction false} RunInv(s: State, events: seq<Event>)
    requires Inv(s) && ValidRun(s, events)
    ensures Inv(After(s, events))
    decreases |events|
  {
    if events != [] {
      StepInv(s, events[0]);
      RunInv(Step(s, events[0]), events[1..]);
    }
  }

  /** The event the controller is writing. */
  ghost predicate Underway(s: State, all: seq<Trb>) {
    if s.writing.Some? then all == s.produced + [Payload(s.writing.value.0)] else all == s.produced
  }

  /** The events the controller begins in a run, in their order. */
  ghost predicate Begins(events: seq<Event>, at: seq<nat>, all: seq<Trb>) {
    && |at| == |all|
    && (forall k | 0 <= k < |at| :: at[k] < |events| && events[at[k]].Begin? && all[k] == Payload(events[at[k]].trb))
    && (forall j, k | 0 <= j < k < |at| :: at[j] < at[k])
    && (forall i: nat | i < |events| && events[i].Begin? :: i in at)
  }

  /** In every run, exactly the events the controller begins are produced, each once and in order, and each pop handles one. */
  lemma {:induction false} ProducedInOrder(size: nat, events: seq<Event>) returns (at: seq<nat>, all: seq<Trb>)
    requires size > 0 && ValidRun(Initial(size), events)
    ensures Underway(After(Initial(size), events), all) && Begins(events, at, all)
    ensures |After(Initial(size), events).handled| == multiset(events)[Pop]
    decreases |events|
  {
    var s0 := Initial(size);
    if events == [] {
      at, all := [], [];
    } else {
      var n := |events| - 1;
      var before, e := events[..n], events[n];
      assert before + [e] == events;
      RunsSplit(s0, before, e);
      at, all := ProducedInOrder(size, before);
      StepCounts(After(s0, before), e, all);
      assert multiset(events) == multiset(before) + multiset{e};
      hide *;
      at, all := MoreBegins(before, e, at, all);
    }
  }

  lemma MoreBegins(events: seq<Event>, e: Event, at: seq<nat>, all: seq<Trb>) returns (at': seq<nat>, all': seq<Trb>)
    requires Begins(events, at, all)
    ensures Begins(events + [e], at', all') && all' == if e.Begin? then all + [Payload(e.trb)] else all
  {
    hide Payload;
    var more, n := events + [e], |events|;
    at', all' := if e.Begin? then at + [n] else at, if e.Begin? then all + [Payload(e.trb)] else all;
    forall k | 0 <= k < |at'|
      ensures at'[k] < |more| && more[at'[k]].Begin? && all'[k] == Payload(more[at'[k]].trb)
    {
      assert k < |at| ==> at'[k] == at[k] && more[at[k]] == events[at[k]];
    }
    forall i: nat | i < |more| && more[i].Begin?
      ensures i in at'
    {
      if i < n {
        assert events[i].Begin?;
        var k :| 0 <= k < |at| && at[k] == i;
        assert at'[k] == i;
      } else {
        assert at'[|at|] == i;
      }
    }
  }

  lemma StepCounts(s: State, e: Event, all: seq<Trb>)
    requires Shape(s) && Enabled(s, e) && Underway(s, all)
    ensures Underway(Step(s, e), if e.Begin? then all + [Payload(e.trb)] else all)
    ensures |Step(s, e).handled| == |s.handled| + if e.Pop? then 1 else 0
  {
    hide Payload, WithCycle;
  }

  lemma {:induction false} RunsSplit(s: State, events: seq<Event>, e: Event)
    requires ValidRun(s, events + [e])
    ensures ValidRun(s, events) && Shape(After(s, events)) && Enabled(After(s, events), e)
    ensures After(s, events + [e]) == Step(After(s, events), e)
    decreases |events|
  {
    if events == [] {
      assert events + [e] == [e] && [e][1..] == [];
    } else {
      assert (events + [e])[1..] == events[1..] + [e];
      RunsSplit(Step(s, events[0]), events[1..], e);
    }
  }

  /** The driver handles exactly the events the controller produced, in order: it has a front exactly when
      an event is complete and not handled, and the front is that event. */
  lemma EventsInOrder(size: nat, events: seq<Event>)
    requires size > 0 && ValidRun(Initial(size), events)
    ensures var s := After(Initial(size), events);
      && s.dequeue < |s.buf| && s.handled <= s.produced
      && (HasFront(s) <==> |s.handled| < |s.produced|)
      && (HasFront(s) ==> Payload(s.buf[s.dequeue]) == s.produced[|s.handled|])
  {
    var s0 := Initial(size);
    assert Inv(s0);
    RunInv(s0, events);
    var s := After(s0, events);
    hide CycleBit, WithCycle, Payload;
    assert |s.handled| < |s.produced| ==> Holds(s, s.dequeue, |s.handled| - s.dequeue);
  }

  /** The driver's side. The dequeue pointer lives in a register of the controller. */
  class EventRing {
    const buf: array<Trb>
    var erdp: nat
    var cycleBit: bool

    ghost predicate Matches(s: State)
      reads this, buf
    {
      buf[..] == s.buf && erdp == s.dequeue && cycleBit == s.cycle
    }

    constructor (size: nat)
      requires size > 0
      ensures Matches(Initial(size)) && fresh(buf)
    {
      buf := new Trb[size](_ => ZERO_TRB);
      erdp := 0;
      cycleBit := true;
    }

    method Front(ghost s: State) returns (hasFront: bool, t: Trb)
      requires Matches(s) && Shape(s)
      ensures hasFront == HasFront(s) && t == s.buf[s.dequeue]
    {
      t := buf[erdp];
      hasFront := CycleBit(t) == cycleBit;
    }

    method PopFront(ghost s: State)
      requires Matches(s) && Shape(s) && HasFront(s)
      modifies this
      ensures Matches(Step(s, Pop))
    {
      var p := erdp + 1;
      if p == buf.Length {
        p := 0;
        cycleBit := !cycleBit;
      }
      erdp := p;
    }
  }
}
