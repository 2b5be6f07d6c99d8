/** Bringing up root hub ports, Kernel/usb/xhci/xhci.cpp: from the reset of a port until its device has an
    address no other port may be handled (eXtensible Host Controller Interface specification, section 4.6.5). */
module PortBringUp {

  datatype Phase =
    | NotConnected
    | WaitingAddressed
    | ResettingPort
    | EnablingSlot
    | AddressingDevice
    | InitializingDevice
    | ConfiguringEndpoints
    | Configured

  datatype Error = Success | InvalidPhase | InvalidSlotID | UnknownSpeed | DeviceError | NotImplemented

  function Rank(p: Phase): nat {
    match p
    case NotConnected => 0
    case WaitingAddressed => 1
    case ResettingPort => 2
    case EnablingSlot => 3
    case AddressingDevice => 4
    case InitializingDevice => 5
    case ConfiguringEndpoints => 6
    case Configured => 7
  }

  datatype State = State(phases: seq<Phase>, addressing: nat)

  /** What the driver finds when an event arrives: the events themselves, the status bits of the port,
      whether the slot has a device, which port its context names, and what the device driver answers. */
  datatype Event =
    | ConfigurePort(port: nat, connected: bool)
    | PortStatusChange(port: nat, connected: bool, enabled: bool, resetChanged: bool)
    | EnableSlotCompleted(slotFound: bool)
    | AddressDeviceCompleted(found: bool, port: nat, plugged: set<nat>)
    | ConfigureEndpointCompleted(found: bool, port: nat)
    | OtherCommandCompleted
    | TransferCompleted(found: bool, deviceOk: bool, initialized: bool, port: nat, speedKnown: bool)
    | OtherEvent

  /** Ports are numbered from 1; a device context names some port of the table. */
  predicate ValidEvent(e: Event) {
    match e
    case ConfigurePort(p, _) => 0 < p < 256
    case PortStatusChange(p, _, _, _) => 0 < p < 256
    case AddressDeviceCompleted(_, p, _) => p < 256
    case ConfigureEndpointCompleted(_, p) => p < 256
    case TransferCompleted(_, _, _, p, _) => p < 256
    case _ => true
  }

  predicate Shape(s: State) {
    |s.phases| == 256 && s.addressing < 256
  }

  function Set(s: State, port: nat, p: Phase): State
    requires Shape(s) && port < 256
  {
    s.(phases := s.phases[port := p])
  }

  // ---- The handlers ----------------------------------------------------------------

  function ResetPort(s: State, port: nat, connected: bool): (State, Error)
    requires Shape(s) && port < 256
  {
    if !connected then (s, Success)
    else if s.addressing != 0 then (Set(s, port, WaitingAddressed), Success)
    else if s.phases[port] != NotConnected && s.phases[port] != WaitingAddressed then (s, InvalidPhase)
    else (Set(s.(addressing := port), port, ResettingPort), Success)
  }

  /** The first port that waits for its turn, or 256. */
  function FirstWaiting(phases: seq<Phase>, i: nat): nat
    requires i <= |phases|
    decreases |phases| - i
  {
    if i == |phases| then i else if phases[i] == WaitingAddressed then i else FirstWaiting(phases, i + 1)
  }

  /** The address is assigned: the next waiting port may be reset, then this device is initialised. */
  function Addressed(s: State, port: nat, plugged: set<nat>): (State, Error)
    requires Shape(s) && port < 256
  {
    var s0 := s.(addressing := 0);
    var w := FirstWaiting(s.phases, 0);
    if w < |s.phases| then
      var (s1, err) := ResetPort(s0, w, w in plugged);
      if err != Success then (s1, err) else (Set(s1, port, InitializingDevice), Success)
    else (Set(s0, port, InitializingDevice), Success)
  }

  function Handle(s: State, e: Event): (State, Error)
    requires Shape(s) && ValidEvent(e)
  {
    match e
    case ConfigurePort(port, connected) =>
      if s.phases[port] == NotConnected then ResetPort(s, port, connected) else (s, Success)
    case PortStatusChange(port, connected, enabled, resetChanged) =>
      if s.phases[port] == NotConnected then ResetPort(s, port, connected)
      else if s.phases[port] == ResettingPort then
        (if enabled && resetChanged then Set(s, port, EnablingSlot) else s, Success)
      else (s, InvalidPhase)
    case EnableSlotCompleted(slotFound) =>
      if s.phases[s.addressing] != EnablingSlot then (s, InvalidPhase)
      else if !slotFound then (s, InvalidSlotID)
      else (Set(s, s.addressing, AddressingDevice), Success)
    case AddressDeviceCompleted(found, port, plugged) =>
      if !found then (s, InvalidSlotID)
      else if port != s.addressing then (s, InvalidPhase)
      else if s.phases[port] != AddressingDevice then (s, InvalidPhase)
      else Addressed(s, port, plugged)
    case ConfigureEndpointCompleted(found, port) =>
      if !found then (s, InvalidSlotID)
      else if s.phases[port] != ConfiguringEndpoints then (s, InvalidPhase)
      else (Set(s, port, Configured), Success)
    case OtherCommandCompleted => (s, InvalidPhase)
    case TransferCompleted(found, deviceOk, initialized, port, speedKnown) =>
      if !found then (s, InvalidSlotID)
      else if !deviceOk then (s, DeviceError)
      else if initialized && s.phases[port] == InitializingDevice then
        if !speedKnown then (s, UnknownSpeed) else (Set(s, port, ConfiguringEndpoints), Success)
      else (s, Success)
    case OtherEvent => (s, NotImplemented)
  }

  // ---- Only one port at a time --------------------------------------------------------

  predicate Busy(p: Phase) {
    p == ResettingPort || p == EnablingSlot || p == AddressingDevice
  }

  /** A port is between reset and address exactly if it is the addressing port. */
  ghost predicate Inv(s: State) {
    && Shape(s)
    && s.phases[0] == NotConnected
    && forall p | 0 <= p < 256 :: Busy(s.phases[p]) <==> p == s.addressing && p != 0
  }

  function Boot(): State {
    State(seq(256, _ => NotConnected), 0)
  }

  lemma BootInv()
    ensures Inv(Boot())
  {
  }

  lemma {:induction false} FirstWaitingIs(phases: seq<Phase>, i: nat)
    requires i <= |phases|
    ensures var w := FirstWaiting(phases, i);
      && i <= w <= |phases|
      && (w < |phases| ==> phases[w] == WaitingAddressed)
      && (forall j | i <= j < w :: phases[j] != WaitingAddressed)
    decreases |phases| - i
  {
    if i < |phases| && phases[i] != WaitingAddressed {
      FirstWaitingIs(phases, i + 1);
    }
  }

  /** No phase goes back, and if any changes, one goes up. */
  ghost predicate Raised(a: seq<Phase>, b: seq<Phase>) {
    && |a| == |b|
    && (forall p | 0 <= p < |a| :: Rank(a[p]) <= Rank(b[p]))
  }

  lemma HandleInv(s: State, e: Event)
    requires Inv(s) && ValidEvent(e)
    ensures Inv(Handle(s, e).0) && Raised(s.phases, Handle(s, e).0.phases)
    ensures Handle(s, e).1 != Success ==> Handle(s, e).0 == s
  {
    match e
    case AddressDeviceCompleted(found, port, plugged) =>
      if found && port == s.addressing && s.phases[port] == AddressingDevice {
        AddressedInv(s, port, plugged);
      }
      hide Addressed;
    case PortStatusChange(_, _, _, _) => hide Addressed, FirstWaiting;
    case _ => hide Addressed, FirstWaiting;
  }

  lemma AddressedInv(s: State, port: nat, plugged: set<nat>)
    requires Inv(s) && port < 256 && port == s.addressing && s.phases[port] == AddressingDevice
    ensures Inv(Addressed(s, port, plugged).0) && Raised(s.phases, Addressed(s, port, plugged).0.phases)
    ensures Addressed(s, port, plugged).1 == Success
  {
    FirstWaitingIs(s.phases, 0);
  }

  // ---- What each event does -----------------------------------------------------------

  /** The port has a device and no phase yet, and the driver is told so. */
  ghost predicate Plugged(s: State, e: Event, p: nat)
    requires Shape(s) && p < 256
  {
    s.phases[p] == NotConnected && (e == ConfigurePort(p, true) || (e.PortStatusChange? && e.port == p && e.connected))
  }

  /** The device of the addressing port has got its address. */
  ghost predicate GotAddress(s: State, e: Event)
    requires Shape(s)
  {
    e.AddressDeviceCompleted? && e.found && e.port == s.addressing && s.phases[s.addressing] == AddressingDevice
  }

  /** The port is the first of those that wait. */
  ghost predicate FirstToWait(s: State, p: nat)
    requires Shape(s)
  {
    p < 256 && s.phases[p] == WaitingAddressed && forall j | 0 <= j < p :: s.phases[j] != WaitingAddressed
  }

  ghost predicate Enters(s: State, s': State, p: nat, phase: Phase)
    requires Shape(s) && Shape(s') && p < 256
  {
    s.phases[p] != phase && s'.phases[p] == phase
  }

  /** Which phases a port enters, each with the events and phases before that are the only ones to lead there. */
  ghost predicate PortReacts(s: State, s': State, e: Event, p: nat)
    requires Shape(s) && Shape(s') && p < 256
  {
    var was := s.phases[p];
    && !Enters(s, s', p, NotConnected)
    && (Enters(s, s', p, WaitingAddressed) <==> Plugged(s, e, p) && s.addressing != 0)
    && (Enters(s, s', p, ResettingPort) <==>
          || (Plugged(s, e, p) && s.addressing == 0)
          || (GotAddress(s, e) && FirstToWait(s, p) && p in e.plugged))
    && (Enters(s, s', p, EnablingSlot) <==>
          was == ResettingPort && e.PortStatusChange? && e.port == p && e.enabled && e.resetChanged)
    && (Enters(s, s', p, AddressingDevice) <==> was == EnablingSlot && p == s.addressing && e == EnableSlotCompleted(true))
    && (Enters(s, s', p, InitializingDevice) <==> p == s.addressing && GotAddress(s, e))
    && (Enters(s, s', p, ConfiguringEndpoints) <==>
          was == InitializingDevice && e == TransferCompleted(true, true, true, p, true))
    && (Enters(s, s', p, Configured) <==> was == ConfiguringEndpoints && e == ConfigureEndpointCompleted(true, p))
  }

  /** Who has the turn afterwards. */
  ghost predicate TurnReacts(s: State, s': State, e: Event)
    requires Shape(s) && Shape(s')
  {
    if s.addressing == 0 then
      && (forall p: nat | p < 256 && Plugged(s, e, p) :: s'.addressing == p)
      && ((forall p: nat | p < 256 :: !Plugged(s, e, p)) ==> s'.addressing == 0)
    else if GotAddress(s, e) then
      && (forall p | FirstToWait(s, p) && p in e.plugged :: s'.addressing == p)
      && ((forall p | FirstToWait(s, p) :: p !in e.plugged) ==> s'.addressing == 0)
    else s'.addressing == s.addressing
  }

  /** What the driver answers. */
  ghost predicate Answers(s: State, e: Event, err: Error)
    requires Shape(s) && ValidEvent(e)
  {
    && (err == InvalidSlotID <==>
          || (e == EnableSlotCompleted(false) && s.phases[s.addressing] == EnablingSlot)
          || (e.AddressDeviceCompleted? && !e.found) || (e.ConfigureEndpointCompleted? && !e.found)
          || (e.TransferCompleted? && !e.found))
    && (err == DeviceError <==> e.TransferCompleted? && e.found && !e.deviceOk)
    && (err == UnknownSpeed <==>
          e.TransferCompleted? && e.found && e.deviceOk && e.initialized && s.phases[e.port] == InitializingDevice && !e.speedKnown)
    && (err == NotImplemented <==> e.OtherEvent?)
    && (err == InvalidPhase <==>
          || e.OtherCommandCompleted?
          || (e.PortStatusChange? && s.phases[e.port] != NotConnected && s.phases[e.port] != ResettingPort)
          || (e.EnableSlotCompleted? && s.phases[s.addressing] != EnablingSlot)
          || (e.AddressDeviceCompleted? && e.found && !GotAddress(s, e))
          || (e.ConfigureEndpointCompleted? && e.found && s.phases[e.port] != ConfiguringEndpoints))
  }

  /** All of it, for every event in every state. */
  ghost predicate Reacts(s: State, s': State, e: Event, err: Error)
    requires Shape(s) && Shape(s') && ValidEvent(e)
  {
    (forall p: nat | p < 256 :: PortReacts(s, s', e, p)) && TurnReacts(s, s', e) && Answers(s, e, err)
  }

  lemma HandleReacts(s: State, e: Event)
    requires Inv(s) && ValidEvent(e)
    ensures Shape(Handle(s, e).0) && Reacts(s, Handle(s, e).0, e, Handle(s, e).1)
  {
    HandleInv(s, e);
    var s' := Handle(s, e).0;
    hide Addressed;
    forall p: nat | p < 256
      ensures PortReacts(s, s', e, p)
    {
      if e.AddressDeviceCompleted? {
        PassedOn(s, e, p);
      }
    }
    TurnPasses(s, e);
    hide PortReacts, TurnReacts, Handle;
    HandleAnswers(s, e);
  }

  lemma TurnPasses(s: State, e: Event)
    requires Inv(s) && ValidEvent(e)
    ensures Shape(Handle(s, e).0) && TurnReacts(s, Handle(s, e).0, e)
  {
    HandleInv(s, e);
    if e.AddressDeviceCompleted? {
      PassedOn(s, e, 0);
    } else if e.ConfigurePort? {
      assert Plugged(s, e, e.port) <==> s.phases[e.port] == NotConnected && e.connected;
    } else if e.PortStatusChange? {
      assert Plugged(s, e, e.port) <==> s.phases[e.port] == NotConnected && e.connected;
    }
  }

  lemma HandleAnswers(s: State, e: Event)
    requires Inv(s) && ValidEvent(e)
    ensures Answers(s, e, Handle(s, e).1)
  {
    if e.AddressDeviceCompleted? {
      PassedOn(s, e, 0);
    }
  }

  lemma PassedOn(s: State, e: Event, p: nat)
    requires Inv(s) && ValidEvent(e) && e.AddressDeviceCompleted? && p < 256
    ensures Shape(Handle(s, e).0)
    ensures PortReacts(s, Handle(s, e).0, e, p) && TurnReacts(s, Handle(s, e).0, e) && Answers(s, e, Handle(s, e).1)
  {
    FirstWaitingIs(s.phases, 0);
    HandleInv(s, e);
  }

  // ---- How long it can take ------------------------------------------------------------

  function Total(phases: seq<Phase>): nat {
    if phases == [] then 0 else Rank(phases[0]) + Total(phases[1..])
  }

  lemma {:induction false} TotalBound(phases: seq<Phase>)
    ensures Total(phases) <= 7 * |phases|
  {
    if phases != [] {
      TotalBound(phases[1..]);
    }
  }

  lemma {:induction false} TotalRaised(a: seq<Phase>, b: seq<Phase>)
    requires Raised(a, b)
    ensures Total(a) <= Total(b) && (a != b ==> Total(a) < Total(b))
  {
    if a != [] {
      TotalRaised(a[1..], b[1..]);
      assert a == [a[0]] + a[1..] && b == [b[0]] + b[1..];
      assert Rank(a[0]) == Rank(b[0]) ==> a[0] == b[0];
    }
  }

  function After(s: State, events: seq<Event>): (s': State)
    requires Shape(s) && forall e | e in events :: ValidEvent(e)
    ensures Shape(s')
    decreases |events|
  {
    if events == [] then s
    else
      assert events[0] in events;
      After(HandleShape(s, events[0]), events[1..])
  }

  function HandleShape(s: State, e: Event): (s': State)
    requires Shape(s) && ValidEvent(e)
    ensures Shape(s')
  {
    FirstWaitingIs(s.phases, 0);
    Handle(s, e).0
  }

  /** How many events of the run change some phase. */
  function Changes(s: State, events: seq<Event>): nat
    requires Shape(s) && forall e | e in events :: ValidEvent(e)
    decreases |events|
  {
    if events == [] then 0
    else
      assert events[0] in events;
      var s' := HandleShape(s, events[0]);
      (if s'.phases != s.phases then 1 else 0) + Changes(s', events[1..])
  }

  /** An event more counts if some phase is not what it was. */
  lemma {:induction false} ChangesIs(s: State, events: seq<Event>, e: Event)
    requires Shape(s) && ValidEvent(e) && forall x | x in events :: ValidEvent(x)
    ensures Changes(s, []) == 0 && After(s, []) == s
    ensures
      var before, after := After(s, events), HandleShape(After(s, events), e);
      && After(s, events + [e]) == after
      && Changes(s, events + [e]) == Changes(s, events) + if after.phases != before.phases then 1 else 0
    decreases |events|
  {
    hide HandleShape;
    OneMore(s, events, e);
    if events == [] {
      assert events + [e] == [e] && [e][1..] == [];
    } else {
      assert events[0] in events;
      assert (events + [e])[1..] == events[1..] + [e];
      ChangesIs(HandleShape(s, events[0]), events[1..], e);
    }
  }

  lemma {:induction false} EveryRun(s: State, events: seq<Event>)
    requires Inv(s) && forall e | e in events :: ValidEvent(e)
    ensures Inv(After(s, events))
    ensures Total(s.phases) + Changes(s, events) <= Total(After(s, events).phases)
    decreases |events|
  {
    if events != [] {
      assert events[0] in events;
      HandleInv(s, events[0]);
      TotalRaised(s.phases, Handle(s, events[0]).0.phases);
      EveryRun(HandleShape(s, events[0]), events[1..]);
    }
  }

  /** From boot, at any time at most one port is being reset or addressed, and it is the addressing port;
      and no run changes phases more than seven times for each of the 255 ports. */
  lemma BringUp(events: seq<Event>)
    requires forall e | e in events :: ValidEvent(e)
    ensures Inv(After(Boot(), events)) && Changes(Boot(), events) <= 7 * 255
    ensures var s := After(Boot(), events);
      forall p, q | 0 <= p < 256 && 0 <= q < 256 && Busy(s.phases[p]) && Busy(s.phases[q]) :: p == q == s.addressing
  {
    BootInv();
    EveryRun(Boot(), events);
    TotalBound(After(Boot(), events).phases[1..]);
  }

  // ---- Waiting ports --------------------------------------------------------------------

  /** A port that waits has somebody to wait for. */
  ghost predicate WaitingServed(s: State)
    requires Shape(s)
  {
    (exists p :: 0 <= p < 256 && s.phases[p] == WaitingAddressed) ==> s.addressing != 0
  }

  /** The turn passes to a waiting port that has been unplugged in the meantime. */
  predicate TurnLost(s: State, e: Event)
    requires Shape(s)
  {
    && e.AddressDeviceCompleted? && e.found && e.port == s.addressing
    && e.port < 256 && s.phases[e.port] == AddressingDevice
    && FirstWaiting(s.phases, 0) < 256 && FirstWaiting(s.phases, 0) !in e.plugged
  }

  /** That is the one way in which waiting ports are left with nobody to wait for. */
  lemma WaitingServedExactly(s: State, e: Event)
    requires Inv(s) && ValidEvent(e) && WaitingServed(s)
    ensures Shape(Handle(s, e).0) && (WaitingServed(Handle(s, e).0) <==> !TurnLost(s, e))
  {
    HandleInv(s, e);
    FirstWaitingIs(s.phases, 0);
    var s', w := Handle(s, e).0, FirstWaiting(s.phases, 0);
    if TurnLost(s, e) {
      assert s'.phases[w] == WaitingAddressed;
    } else if exists p :: 0 <= p < 256 && s'.phases[p] == WaitingAddressed {
      var p :| 0 <= p < 256 && s'.phases[p] == WaitingAddressed;
      assert s.phases[p] == WaitingAddressed || s.addressing != 0;
    }
  }

  /** A run from boot in which it happens: port 2 waits for port 1 and is unplugged before port 1 has its address. */
  lemma TurnIsLost()
    ensures
      var events := [ConfigurePort(1, true), ConfigurePort(2, true), PortStatusChange(1, true, true, true),
                     EnableSlotCompleted(true), AddressDeviceCompleted(true, 1, {})];
      && (forall e | e in events :: ValidEvent(e))
      && WaitingServed(After(Boot(), events[..4])) && TurnLost(After(Boot(), events[..4]), events[4])
      && var s := After(Boot(), events);
         !WaitingServed(s) && s.phases[2] == WaitingAddressed && s.addressing == 0
  {
    var events := [ConfigurePort(1, true), ConfigurePort(2, true), PortStatusChange(1, true, true, true),
                   EnableSlotCompleted(true), AddressDeviceCompleted(true, 1, {})];
    hide Addressed, FirstWaiting, WaitingServed;
    var s1 := HandleShape(Boot(), events[0]);
    var s2 := HandleShape(s1, events[1]);
    var s3 := HandleShape(s2, events[2]);
    var s4 := HandleShape(s3, events[3]);
    assert s4.phases == Boot().phases[1 := AddressingDevice][2 := WaitingAddressed] && s4.addressing == 1;
    FirstWaitingIs(s4.phases, 0);
    assert FirstWaiting(s4.phases, 0) == 2;
    FourEvents(Boot(), events[0], events[1], events[2], events[3]);
    assert events[..4] == [events[0], events[1], events[2], events[3]];
    OneMore(Boot(), events[..4], events[4]);
    assert events[..4] + [events[4]] == events;
    ServedWhile(s4);
    LostTurn(s4);
  }

  lemma ServedWhile(s: State)
    requires Shape(s) && s.addressing != 0
    ensures WaitingServed(s)
  {
  }

  lemma LostTurn(s: State)
    requires Shape(s) && s.addressing == 1 && s.phases[1] == AddressingDevice && s.phases[2] == WaitingAddressed
    requires FirstWaiting(s.phases, 0) == 2
    ensures
      var s' := HandleShape(s, AddressDeviceCompleted(true, 1, {}));
      !WaitingServed(s') && s'.phases[2] == WaitingAddressed && s'.addressing == 0
  {
    var s' := HandleShape(s, AddressDeviceCompleted(true, 1, {}));
    assert s'.phases[2] == WaitingAddressed && s'.addressing == 0;
  }

  lemma FourEvents(s: State, a: Event, b: Event, c: Event, d: Event)
    requires Shape(s) && ValidEvent(a) && ValidEvent(b) && ValidEvent(c) && ValidEvent(d)
    ensures After(s, [a, b, c, d]) == HandleShape(HandleShape(HandleShape(HandleShape(s, a), b), c), d)
  {
    hide HandleShape;
    assert [a, b, c, d][1..] == [b, c, d] && [b, c, d][1..] == [c, d] && [c, d][1..] == [d] && [d][1..] == [];
    var s1 := HandleShape(s, a);
    var s2 := HandleShape(s1, b);
    var s3 := HandleShape(s2, c);
    assert After(s3, [d]) == HandleShape(s3, d);
    assert After(s2, [c, d]) == After(s3, [d]);
    assert After(s1, [b, c, d]) == After(s2, [c, d]);
  }

  lemma {:induction false} OneMore(s: State, events: seq<Event>, e: Event)
    requires Shape(s) && ValidEvent(e) && forall x | x in events :: ValidEvent(x)
    ensures After(s, events + [e]) == HandleShape(After(s, events), e)
    decreases |events|
  {
    hide HandleShape;
    if events == [] {
      assert events + [e] == [e] && [e][1..] == [];
    } else {
      assert events[0] in events;
      assert (events + [e])[1..] == events[1..] + [e];
      OneMore(HandleShape(s, events[0]), events[1..], e);
    }
  }

  // ---- Progress ---------------------------------------------------------------------------

  /** A port for which the driver waits for an answer of the hardware. */
  predicate Pending(s: State, port: nat)
    requires Shape(s)
  {
    0 < port < 256 && 2 <= Rank(s.phases[port]) <= 6
  }

  /** That answer, if nothing goes wrong; the plugged ports have a device. */
  function Answer(s: State, port: nat, plugged: set<nat>): Event
    requires Shape(s) && Pending(s, port)
  {
    match s.phases[port]
    case ResettingPort => PortStatusChange(port, true, true, true)
    case EnablingSlot => EnableSlotCompleted(true)
    case AddressingDevice => AddressDeviceCompleted(true, port, plugged)
    case InitializingDevice => TransferCompleted(true, true, true, port, true)
    case ConfiguringEndpoints => ConfigureEndpointCompleted(true, port)
  }

  /** Each answer takes its port exactly one phase further. When a device has got its address, the first waiting port, if
      it is plugged, has its turn; all other ports stay as they are. */
  lemma AnswerAdvances(s: State, port: nat, plugged: set<nat>)
    requires Inv(s) && Pending(s, port)
    ensures ValidEvent(Answer(s, port, plugged)) && Inv(Handle(s, Answer(s, port, plugged)).0)
    ensures
      var (s', err) := Handle(s, Answer(s, port, plugged));
      var w := FirstWaiting(s.phases, 0);
      var turn := s.phases[port] == AddressingDevice && w < 256 && w in plugged;
      && err == Success && Rank(s'.phases[port]) == Rank(s.phases[port]) + 1
      && (turn ==> s'.phases[w] == ResettingPort && s'.addressing == w)
      && forall q | 0 <= q < 256 && q != port && (turn ==> q != w) :: s'.phases[q] == s.phases[q]
  {
    HandleInv(s, Answer(s, port, plugged));
    FirstWaitingIs(s.phases, 0);
    assert Busy(s.phases[port]) ==> port == s.addressing;
  }

  /** The hardware answers for one pending port after the other, in any order. */
  ghost predicate Answering(s: State, ports: seq<nat>, plugged: set<nat>)
    decreases |ports|
  {
    && Inv(s)
    && (ports != [] ==>
          && Pending(s, ports[0]) && ValidEvent(Answer(s, ports[0], plugged))
          && Answering(Handle(s, Answer(s, ports[0], plugged)).0, ports[1..], plugged))
  }

  ghost function Answered(s: State, ports: seq<nat>, plugged: set<nat>): State
    requires Answering(s, ports, plugged)
    decreases |ports|
  {
    if ports == [] then s else Answered(Handle(s, Answer(s, ports[0], plugged)).0, ports[1..], plugged)
  }

  /** Nobody waits in vain, and ports that wait stay plugged. */
  ghost predicate Hopeful(s: State, plugged: set<nat>) {
    Inv(s) && WaitingServed(s) && forall p | 0 <= p < 256 && s.phases[p] == WaitingAddressed :: p in plugged
  }

  lemma AnswerKeepsHope(s: State, port: nat, plugged: set<nat>)
    requires Hopeful(s, plugged) && Pending(s, port)
    ensures ValidEvent(Answer(s, port, plugged)) && Hopeful(Handle(s, Answer(s, port, plugged)).0, plugged)
    ensures
      var s' := Handle(s, Answer(s, port, plugged)).0;
      Raised(s.phases, s'.phases) && Total(s'.phases) > Total(s.phases)
  {
    AnswerAdvances(s, port, plugged);
    var e := Answer(s, port, plugged);
    FirstWaitingIs(s.phases, 0);
    WaitingServedExactly(s, e);
    HandleInv(s, e);
    TotalRaised(s.phases, Handle(s, e).0.phases);
  }

  /** A port that gets connected is reset at once, or waits while another one has its turn. */
  lemma ConnectedPort(s: State, port: nat, enabled: bool, resetChanged: bool, plugged: set<nat>)
    requires Hopeful(s, plugged) && 0 < port < 256 && s.phases[port] == NotConnected && port in plugged
    ensures
      var (s', err) := Handle(s, PortStatusChange(port, true, enabled, resetChanged));
      && err == Success && Hopeful(s', plugged)
      && s'.phases == s.phases[port := if s.addressing == 0 then ResettingPort else WaitingAddressed]
      && (s.addressing == 0 ==> s'.addressing == port)
  {
    var e := PortStatusChange(port, true, enabled, resetChanged);
    HandleInv(s, e);
    WaitingServedExactly(s, e);
  }

  /** However the answers come, there are at most 7 * 256 of them, and when none is due any more, every port that was
      connected is configured. */
  lemma {:induction false} EveryPortConfigured(s: State, ports: seq<nat>, plugged: set<nat>)
    requires Hopeful(s, plugged) && Answering(s, ports, plugged)
    ensures |ports| + Total(s.phases) <= 7 * 256
    ensures
      var s' := Answered(s, ports, plugged);
      && Inv(s') && Raised(s.phases, s'.phases)
      && ((forall p: nat :: !Pending(s', p)) ==>
            forall p | 0 <= p < 256 && s.phases[p] != NotConnected :: s'.phases[p] == Configured)
    decreases |ports|
  {
    TotalBound(s.phases);
    if ports != [] {
      AnswerKeepsHope(s, ports[0], plugged);
      EveryPortConfigured(Handle(s, Answer(s, ports[0], plugged)).0, ports[1..], plugged);
    } else if forall p: nat :: !Pending(s, p) {
      NobodyWaits(s, plugged);
    }
  }

  lemma NobodyWaits(s: State, plugged: set<nat>)
    requires Hopeful(s, plugged) && forall p: nat :: !Pending(s, p)
    ensures forall p | 0 <= p < 256 && s.phases[p] != NotConnected :: s.phases[p] == Configured
  {
    assert !Pending(s, s.addressing);
    forall p | 0 <= p < 256 && s.phases[p] != NotConnected
      ensures s.phases[p] == Configured
    {
      assert !Pending(s, p);
    }
  }

  // ---- The driver -------------------------------------------------------------------------

  class PortConfigurator {
    const phases: array<Phase>
    var addressingPort: nat

    ghost function Now(): State
      reads this, phases
    {
      State(phases[..], addressingPort)
    }

    constructor ()
      ensures Now() == Boot() && fresh(phases)
    {
      phases := new Phase[256](_ => NotConnected);
      addressingPort := 0;
    }

    method ResetPortNow(port: nat, connected: bool) returns (err: Error)
      requires Shape(Now()) && port < 256
      modifies this, phases
      ensures (Now(), err) == ResetPort(old(Now()), port, connected)
    {
      if !connected {
        return Success;
      }
      if addressingPort != 0 {
        phases[port] := WaitingAddressed;
      } else {
        var phase := phases[port];
        if phase != NotConnected && phase != WaitingAddressed {
          return InvalidPhase;
        }
        addressingPort := port;
        phases[port] := ResettingPort;
      }
      return Success;
    }

    method OnAddressed(port: nat, plugged: set<nat>) returns (err: Error)
      requires Inv(Now()) && port < 256 && port == addressingPort
      modifies this, phases
      ensures (Now(), err) == Addressed(old(Now()), port, plugged)
    {
      FirstWaitingIs(phases[..], 0);
      ghost var w := FirstWaiting(phases[..], 0);
      addressingPort := 0;
      var i := 0;
      while i < phases.Length && phases[i] != WaitingAddressed
        invariant 0 <= i <= w
      {
        i := i + 1;
      }
      if i < phases.Length {
        err := ResetPortNow(i, i in plugged);
        if err != Success {
          return;
        }
      }
      phases[port] := InitializingDevice;
      return Success;
    }

    method OnEvent(e: Event) returns (err: Error)
      requires Inv(Now()) && ValidEvent(e)
      modifies this, phases
      ensures (Now(), err) == Handle(old(Now()), e) && Inv(Now())
      ensures Reacts(old(Now()), Now(), e, err)
    {
      HandleInv(Now(), e);
      HandleReacts(Now(), e);
      hide Reacts;
      match e
      case ConfigurePort(port, connected) =>
        err := Success;
        if phases[port] == NotConnected {
          err := ResetPortNow(port, connected);
        }
      case PortStatusChange(port, connected, enabled, resetChanged) =>
        err := InvalidPhase;
        if phases[port] == NotConnected {
          err := ResetPortNow(port, connected);
        } else if phases[port] == ResettingPort {
          if enabled && resetChanged {
            phases[port] := EnablingSlot;
          }
          err := Success;
        }
      case EnableSlotCompleted(slotFound) =>
        if phases[addressingPort] != EnablingSlot {
          return InvalidPhase;
        }
        if !slotFound {
          return InvalidSlotID;
        }
        phases[addressingPort] := AddressingDevice;
        err := Success;
      case AddressDeviceCompleted(found, port, plugged) =>
        if !found {
          return InvalidSlotID;
        }
        if port != addressingPort || phases[port] != AddressingDevice {
          return InvalidPhase;
        }
        err := OnAddressed(port, plugged);
      case ConfigureEndpointCompleted(found, port) =>
        if !found {
          return InvalidSlotID;
        }
        if phases[port] != ConfiguringEndpoints {
          return InvalidPhase;
        }
        phases[port] := Configured;
        err := Success;
      case OtherCommandCompleted => err := InvalidPhase;
      case TransferCompleted(found, deviceOk, initialized, port, speedKnown) =>
        if !found {
          return InvalidSlotID;
        }
        if !deviceOk {
          return DeviceError;
        }
        if initialized && phases[port] == InitializingDevice {
          if !speedKnown {
            return UnknownSpeed;
          }
          phases[port] := ConfiguringEndpoints;
        }
        err := Success;
      case OtherEvent => err := NotImplemented;
    }
  }
}
