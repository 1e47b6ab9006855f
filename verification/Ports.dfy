/** The bring-up of root hub ports: from the reset of a port until its device has an address, no other
    port may be in between (section 4.3 of the xHCI specification). */
module Ports {
  datatype Phase =
    | NotConnected
    | WaitingAddressed
    | ResettingPort
    | EnablingSlot
    | AddressingDevice
    | InitializingDevice
    | ConfiguringEndpoints
    | Configured

  type Port = p: nat | p < 256 witness 0

  datatype Outcome = Success | InvalidPhase | InvalidSlotID | UnknownSpeed | TransferError

  /** The phase of each port, and the port being addressed; 0 means none. */
  datatype Hub = Hub(phases: seq<Phase>, addressing: Port)

  /** What the driver hears, with what it then reads from the controller: whether a port is connected, has
      been reset and enabled, which port a device hangs on and whether the device is known. */
  datatype Event =
    | Configure(port: Port, connected: Port -> bool)
    | PortStatus(port: Port, connected: Port -> bool, enabled: bool, reset: bool)
    | Transfer(known: bool, error: bool, port: Port, initialized: bool, speedOk: bool)
    | SlotEnabled(known: bool)
    | DeviceAddressed(known: bool, port: Port, connected: Port -> bool)
    | EndpointsConfigured(known: bool, port: Port)
    | OtherCommand

  predicate Shaped(h: Hub) { |h.phases| == 256 }

  function SetPhase(h: Hub, p: Port, phase: Phase): (r: Hub)
    requires Shaped(h)
    ensures Shaped(r)
  {
    h.(phases := h.phases[p := phase])
  }

  function ResetPort(h: Hub, p: Port, connected: bool): (r: (Outcome, Hub))
    requires Shaped(h)
    ensures Shaped(r.1)
  {
    if !connected then (Success, h)
    else if h.addressing != 0 then (Success, SetPhase(h, p, WaitingAddressed))
    else if h.phases[p] != NotConnected && h.phases[p] != WaitingAddressed then (InvalidPhase, h)
    else (Success, SetPhase(h, p, ResettingPort).(addressing := p))
  }

  /** The first waiting port from `i` on, 256 if there is none. */
  function FirstWaiting(h: Hub, i: nat): (r: nat)
    requires Shaped(h) && i <= 256
    ensures i <= r <= 256 && (r < 256 ==> h.phases[r] == WaitingAddressed)
    ensures forall j :: i <= j < r ==> h.phases[j] != WaitingAddressed
    decreases 256 - i
  {
    if i == 256 || h.phases[i] == WaitingAddressed then i else FirstWaiting(h, i + 1)
  }

  /** The completion of an Address Device command: the next waiting port is reset, then this port's
      device is initialised. The flag tells whether the error of that reset was returned. */
  function Addressed(h: Hub, p: Port, connected: Port -> bool): (r: ((Outcome, Hub), bool))
    requires Shaped(h)
    ensures Shaped(r.0.1)
  {
    var free := h.(addressing := 0);
    var w := FirstWaiting(free, 0);
    var (err, next) := if w < 256 then ResetPort(free, w, connected(w)) else (Success, free);
    if err != Success then ((err, next), true)
    else ((Success, SetPhase(next, p, InitializingDevice)), false)
  }

  function Handle(h: Hub, e: Event): (r: (Outcome, Hub))
    requires Shaped(h)
    ensures Shaped(r.1)
  {
    match e
    case Configure(p, connected) => if h.phases[p] == NotConnected then ResetPort(h, p, connected(p)) else (Success, h)
    case PortStatus(p, connected, enabled, reset) =>
      (match h.phases[p]
       case NotConnected => ResetPort(h, p, connected(p))
       case ResettingPort => if enabled && reset then (Success, SetPhase(h, p, EnablingSlot)) else (Success, h)
       case _ => (InvalidPhase, h))
    case Transfer(known, error, p, initialized, speedOk) =>
      if !known then (InvalidSlotID, h)
      else if error then (TransferError, h)
      else if initialized && h.phases[p] == InitializingDevice then
        if speedOk then (Success, SetPhase(h, p, ConfiguringEndpoints)) else (UnknownSpeed, h)
      else (Success, h)
    case SlotEnabled(known) =>
      if h.phases[h.addressing] != EnablingSlot then (InvalidPhase, h)
      else if !known then (InvalidSlotID, h)
      else (Success, SetPhase(h, h.addressing, AddressingDevice))
    case DeviceAddressed(known, p, connected) =>
      if !known then (InvalidSlotID, h)
      else if p != h.addressing || h.phases[p] != AddressingDevice then (InvalidPhase, h)
      else Addressed(h, p, connected).0
    case EndpointsConfigured(known, p) =>
      if !known then (InvalidSlotID, h)
      else if h.phases[p] != ConfiguringEndpoints then (InvalidPhase, h)
      else (Success, SetPhase(h, p, Configured))
    case OtherCommand => (InvalidPhase, h)
  }

  /** Ports are numbered from 1; the controller reports no other. */
  predicate FromHardware(e: Event) {
    (e.Configure? || e.PortStatus?) ==> e.port != 0
  }

  predicate Exclusive(phase: Phase) {
    phase.ResettingPort? || phase.EnablingSlot? || phase.AddressingDevice?
  }

  /** A port is between reset and address exactly when it is the one being addressed. */
  ghost predicate Inv(h: Hub) {
    && Shaped(h) && h.phases[0] == NotConnected
    && forall p: Port {:trigger h.phases[p]} :: Exclusive(h.phases[p]) <==> p == h.addressing && p != 0
  }

  /** The phase that may follow a phase: the steps of the bring-up, none of which can be left out. */
  predicate Follows(before: Phase, after: Phase) {
    match after
    case NotConnected => false
    case WaitingAddressed => before == NotConnected
    case ResettingPort => before == NotConnected || before == WaitingAddressed
    case EnablingSlot => before == ResettingPort
    case AddressingDevice => before == EnablingSlot
    case InitializingDevice => before == AddressingDevice
    case ConfiguringEndpoints => before == InitializingDevice
    case Configured => before == ConfiguringEndpoints
  }

  function Rank(phase: Phase): nat {
    match phase
    case NotConnected => 0
    case WaitingAddressed => 1
    case ResettingPort => 2
    case EnablingSlot => 3
    case AddressingDevice => 4
    case InitializingDevice => 5
    case ConfiguringEndpoints => 6
    case Configured => 7
  }

  /** The initial state of the driver. */
  function Init(): Hub { Hub(seq(256, _ => NotConnected), 0) }

  /** Every port's phase stays, or is followed by the next one. */
  predicate Forward(h: Hub, g: Hub) {
    Shaped(h) && Shaped(g) && forall p: Port {:trigger g.phases[p]} :: g.phases[p] == h.phases[p] || Follows(h.phases[p], g.phases[p])
  }

  /** The phases of a port over a run. */
  function History(h: Hub, es: seq<Event>, p: Port): (r: seq<Phase>)
    requires Shaped(h)
    ensures |r| == |es| + 1 && r[0] == h.phases[p]
    decreases |es|
  {
    [h.phases[p]] + if es == [] then [] else History(Handle(h, es[0]).1, es[1..], p)
  }

  /** The reset of a waiting port cannot fail once no port is being addressed, so that the early return
      before the device is initialised is never taken. */
  lemma EarlyReturnUnreachable(h: Hub, p: Port, connected: Port -> bool)
    requires Inv(h) && p == h.addressing && h.phases[p] == AddressingDevice
    ensures !Addressed(h, p, connected).1 && Addressed(h, p, connected).0.0 == Success
    ensures Inv(Addressed(h, p, connected).0.1) && Forward(h, Addressed(h, p, connected).0.1)
  {
  }

  /** Every event keeps the bring-up serial and moves phases forward only. */
  lemma HandleInv(h: Hub, e: Event)
    requires Inv(h) && FromHardware(e)
    ensures Inv(Handle(h, e).1) && Forward(h, Handle(h, e).1)
  {
    if e.DeviceAddressed? && e.known && e.port == h.addressing && h.phases[e.port] == AddressingDevice {
      EarlyReturnUnreachable(h, e.port, e.connected);
    }
  }

  /** The controller announces port `p`, which is connected. */
  predicate Announced(e: Event, p: Port) {
    (e.Configure? || e.PortStatus?) && e.port == p && e.connected(p)
  }

  /** The device of port `p` has got its address. */
  predicate GotAddress(h: Hub, e: Event, p: Port)
    requires Shaped(h)
  {
    e.DeviceAddressed? && e.known && e.port == p && h.addressing == p && h.phases[p] == AddressingDevice
  }

  /** Port `p` is the lowest of those that wait. */
  predicate FirstInLine(h: Hub, p: Port)
    requires Shaped(h)
  {
    h.phases[p] == WaitingAddressed && forall q: Port {:trigger h.phases[q]} :: q < p ==> h.phases[q] != WaitingAddressed
  }

  /** What makes port `p` take the step to a phase. */
  predicate Steps(h: Hub, e: Event, p: Port, to: Phase)
    requires Shaped(h)
  {
    match to
    case NotConnected => false
    case WaitingAddressed => h.phases[p] == NotConnected && Announced(e, p) && h.addressing != 0
    case ResettingPort =>
      || (h.phases[p] == NotConnected && Announced(e, p) && h.addressing == 0)
      || (FirstInLine(h, p) && e.DeviceAddressed? && GotAddress(h, e, e.port) && e.connected(p))
    case EnablingSlot => h.phases[p] == ResettingPort && e.PortStatus? && e.port == p && e.enabled && e.reset
    case AddressingDevice => h.phases[p] == EnablingSlot && e == SlotEnabled(true)
    case InitializingDevice => GotAddress(h, e, p)
    case ConfiguringEndpoints => h.phases[p] == InitializingDevice && e == Transfer(true, false, p, true, true)
    case Configured => h.phases[p] == ConfiguringEndpoints && e == EndpointsConfigured(true, p)
  }

  /** Every port takes exactly the steps that the protocol gives it, and no other port moves. */
  lemma EveryStep(h: Hub, e: Event, p: Port, to: Phase)
    requires Inv(h) && FromHardware(e) && to != h.phases[p]
    ensures Handle(h, e).1.phases[p] == to <==> Steps(h, e, p, to)
  {
    if e.DeviceAddressed? && GotAddress(h, e, e.port) { NextInLine(h, e, p, to); }
  }

  /** Of an address that has been got: the port is initialised, and the next one in line is reset. */
  lemma NextInLine(h: Hub, e: Event, p: Port, to: Phase)
    requires Inv(h) && e.DeviceAddressed? && GotAddress(h, e, e.port) && to != h.phases[p]
    ensures Handle(h, e).1.phases[p] == to <==> Steps(h, e, p, to)
  {
    var w := FirstWaiting(h.(addressing := 0), 0);
    assert forall q: Port :: FirstInLine(h, q) <==> q == w;
  }

  /** The port being addressed afterwards is the one that has been reset and has no address yet. */
  lemma WhoIsAddressed(h: Hub, e: Event)
    requires Inv(h) && FromHardware(e)
    ensures var g := Handle(h, e).1;
      && (g.addressing != 0 ==> Exclusive(g.phases[g.addressing]))
      && (g.addressing == 0 <==> forall p: Port {:trigger g.phases[p]} :: !Exclusive(g.phases[p]))
  {
    HandleInv(h, e);
  }

  /** What the driver answers to an event that is not in order; the event then changes nothing. */
  function Complaint(h: Hub, e: Event): Outcome
    requires Shaped(h)
  {
    match e
    case Configure(_, _) => Success
    case PortStatus(p, _, _, _) => if h.phases[p] in {NotConnected, ResettingPort} then Success else InvalidPhase
    case Transfer(known, error, p, initialized, speedOk) =>
      if !known then InvalidSlotID else if error then TransferError
      else if h.phases[p] == InitializingDevice && initialized && !speedOk then UnknownSpeed else Success
    case SlotEnabled(known) =>
      if h.addressing == 0 || h.phases[h.addressing] != EnablingSlot then InvalidPhase
      else if !known then InvalidSlotID else Success
    case DeviceAddressed(known, p, _) => if !known then InvalidSlotID else if GotAddress(h, e, p) then Success else InvalidPhase
    case EndpointsConfigured(known, p) =>
      if !known then InvalidSlotID else if h.phases[p] == ConfiguringEndpoints then Success else InvalidPhase
    case OtherCommand => InvalidPhase
  }

  lemma Answers(h: Hub, e: Event)
    requires Inv(h) && FromHardware(e)
    ensures Handle(h, e).0 == Complaint(h, e)
    ensures Complaint(h, e) != Success ==> Handle(h, e).1 == h
  {
    if e.DeviceAddressed? && GotAddress(h, e, e.port) { EarlyReturnUnreachable(h, e.port, e.connected); }
  }

  function Run(h: Hub, es: seq<Event>): (r: Hub)
    requires Shaped(h)
    ensures Shaped(r)
    decreases |es|
  {
    if es == [] then h else Run(Handle(h, es[0]).1, es[1..])
  }

  /** How often the phase of a port changes in a run. */
  function Changes(h: Hub, es: seq<Event>, p: Port): nat
    requires Shaped(h)
    decreases |es|
  {
    if es == [] then 0
    else
      var g := Handle(h, es[0]).1;
      (if g.phases[p] == h.phases[p] then 0 else 1) + Changes(g, es[1..], p)
  }

  /** Over every sequence of events at most one port is between reset and address, and no port's phase
      changes more than seven times. */
  lemma {:induction false} SerialBringUp(h: Hub, es: seq<Event>, p: Port)
    requires Inv(h) && forall e <- es :: FromHardware(e)
    ensures Inv(Run(h, es)) && Rank(h.phases[p]) + Changes(h, es, p) <= Rank(Run(h, es).phases[p])
    ensures Changes(h, es, p) <= 7
    decreases |es|
  {
    hide Handle;
    if es != [] {
      HandleInv(h, es[0]);
      SerialBringUp(Handle(h, es[0]).1, es[1..], p);
    }
  }

  /** A port that is configured in the end has been through every step from its reset on, in order. */
  lemma {:induction false} NoStepLeftOut(h: Hub, es: seq<Event>, p: Port)
    requires Inv(h) && forall e <- es :: FromHardware(e)
    ensures forall i {:trigger History(h, es, p)[i]} :: 0 <= i < |es| ==>
      History(h, es, p)[i + 1] == History(h, es, p)[i] || Follows(History(h, es, p)[i], History(h, es, p)[i + 1])
    ensures History(h, es, p)[|es|] == Run(h, es).phases[p]
    decreases |es|
  {
    hide Handle;
    if es != [] {
      var g := Handle(h, es[0]).1;
      HandleInv(h, es[0]);
      NoStepLeftOut(g, es[1..], p);
      forall i | 0 <= i < |es|
        ensures History(h, es, p)[i + 1] == History(h, es, p)[i] || Follows(History(h, es, p)[i], History(h, es, p)[i + 1])
      {
        assert i > 0 ==> History(h, es, p)[i] == History(g, es[1..], p)[i - 1];
        assert History(h, es, p)[i + 1] == History(g, es[1..], p)[i];
      }
    }
  }

  lemma InitInv()
    ensures Inv(Init())
  {
  }

  /** The driver's tables, changed in place by its handlers. */
  class PortConfig {
    const phases: array<Phase>
    var addressing_port: Port

    ghost predicate Valid() { phases.Length == 256 }

    ghost function Now(): (h: Hub)
      reads this, phases
      requires Valid()
      ensures Shaped(h)
    {
      Hub(phases[..], addressing_port)
    }

    constructor ()
      ensures Valid() && fresh(phases) && Now() == Init() && Inv(Now())
    {
      phases := new Phase[256](_ => NotConnected);
      addressing_port := 0;
      new;
      assert phases[..] == Init().phases;
    }

    method Reset(port: Port, connected: bool) returns (err: Outcome)
      requires Valid()
      modifies this, phases
      ensures (err, Now()) == ResetPort(old(Now()), port, connected)
    {
      if !connected {
        return Success;
      }
      if addressing_port != 0 {
        phases[port] := WaitingAddressed;
      } else {
        var port_phase := phases[port];
        if port_phase != NotConnected && port_phase != WaitingAddressed {
          return InvalidPhase;
        }
        addressing_port := port;
        phases[port] := ResettingPort;
      }
      err := Success;
    }

    /** ConfigurePort. */
    method ConfigurePort(port: Port, connected: Port -> bool) returns (err: Outcome)
      requires Valid() && Inv(Now()) && port != 0
      modifies this, phases
      ensures (err, Now()) == Handle(old(Now()), Configure(port, connected)) && Inv(Now())
    {
      hide Inv;
      HandleInv(Now(), Configure(port, connected));
      err := Success;
      if phases[port] == NotConnected {
        err := Reset(port, connected(port));
      }
    }

    /** OnEvent of a port status change; with EnableSlot. */
    method OnPortStatus(port: Port, connected: Port -> bool, enabled: bool, reset: bool) returns (err: Outcome)
      requires Valid() && Inv(Now()) && port != 0
      modifies this, phases
      ensures (err, Now()) == Handle(old(Now()), PortStatus(port, connected, enabled, reset)) && Inv(Now())
    {
      hide Inv;
      HandleInv(Now(), PortStatus(port, connected, enabled, reset));
      if phases[port] == NotConnected {
        err := Reset(port, connected(port));
      } else if phases[port] == ResettingPort {
        if enabled && reset {
          phases[port] := EnablingSlot;
        }
        err := Success;
      } else {
        err := InvalidPhase;
      }
    }

    /** OnEvent of a transfer; with ConfigureEndpoints. */
    method OnTransfer(known: bool, error: bool, port: Port, initialized: bool, speedOk: bool) returns (err: Outcome)
      requires Valid() && Inv(Now())
      modifies this, phases
      ensures (err, Now()) == Handle(old(Now()), Transfer(known, error, port, initialized, speedOk)) && Inv(Now())
    {
      hide Inv;
      HandleInv(Now(), Transfer(known, error, port, initialized, speedOk));
      if !known {
        return InvalidSlotID;
      }
      if error {
        return TransferError;
      }
      if initialized && phases[port] == InitializingDevice {
        if !speedOk {
          return UnknownSpeed;
        }
        phases[port] := ConfiguringEndpoints;
      }
      err := Success;
    }

    /** OnEvent of an Enable Slot command's completion; with AddressDevice. */
    method OnSlotEnabled(known: bool) returns (err: Outcome)
      requires Valid() && Inv(Now())
      modifies this, phases
      ensures (err, Now()) == Handle(old(Now()), SlotEnabled(known)) && Inv(Now())
    {
      hide Inv;
      HandleInv(Now(), SlotEnabled(known));
      if phases[addressing_port] != EnablingSlot {
        return InvalidPhase;
      }
      if !known {
        return InvalidSlotID;
      }
      phases[addressing_port] := AddressingDevice;
      err := Success;
    }

    /** OnEvent of an Address Device command's completion; with InitializeDevice. */
    method OnDeviceAddressed(known: bool, port: Port, connected: Port -> bool) returns (err: Outcome)
      requires Valid() && Inv(Now())
      modifies this, phases
      ensures (err, Now()) == Handle(old(Now()), DeviceAddressed(known, port, connected)) && Inv(Now())
    {
      hide Inv;
      HandleInv(Now(), DeviceAddressed(known, port, connected));
      if !known {
        return InvalidSlotID;
      }
      if port != addressing_port || phases[port] != AddressingDevice {
        return InvalidPhase;
      }
      addressing_port := 0;
      ghost var free := Now();
      var i := 0;
      while i < 256
        invariant i <= 256 && Now() == free && FirstWaiting(free, 0) == FirstWaiting(free, i)
        decreases 256 - i
      {
        if phases[i] == WaitingAddressed {
          break;
        }
        i := i + 1;
      }
      if i < 256 {
        err := Reset(i, connected(i));
        if err != Success {
          return err;
        }
      }
      phases[port] := InitializingDevice;
      err := Success;
    }

    /** OnEvent of a Configure Endpoint command's completion; with CompleteConfiguration. */
    method OnEndpointsConfigured(known: bool, port: Port) returns (err: Outcome)
      requires Valid() && Inv(Now())
      modifies this, phases
      ensures (err, Now()) == Handle(old(Now()), EndpointsConfigured(known, port)) && Inv(Now())
    {
      hide Inv;
      HandleInv(Now(), EndpointsConfigured(known, port));
      if !known {
        return InvalidSlotID;
      }
      if phases[port] != ConfiguringEndpoints {
        return InvalidPhase;
      }
      phases[port] := Configured;
      err := Success;
    }
  }
}
