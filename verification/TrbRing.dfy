/** The command and transfer rings of the xHCI driver: one producer that stores a TRB word by word,
    and the host controller reading behind it (section 4.9 of the xHCI specification). */
module TrbRing {
  import opened Wrappers

  datatype Trb = Trb(w0: bv32, w1: bv32, w2: bv32, w3: bv32)

  predicate CycleBit(w3: bv32) { w3 & 1 == 1 }
  predicate ToggleCycle(w3: bv32) { w3 & 2 == 2 }
  predicate LinkType(w3: bv32) { (w3 >> 10) & 63 == 6 }

  /** A word without its cycle bit. */
  function Cleared(w3: bv32): bv32 { w3 & 0xfffffffe }

  /** The last word as CopyToLast stores it. */
  function Stamped(w3: bv32, cycle: bool): bv32 {
    if cycle then Cleared(w3) | 1 else Cleared(w3)
  }

  /** A TRB without its cycle bit, which belongs to the ring. */
  function Payload(t: Trb): Trb {
    t.(w3 := Cleared(t.w3))
  }

  function Payloads(ts: seq<Trb>): (r: seq<Trb>)
    ensures |r| == |ts|
  {
    seq(|ts|, i requires 0 <= i < |ts| => Payload(ts[i]))
  }

  /** The Link TRB back to the start of the segment, whose address is in two words. */
  function Link(base0: bv32, base1: bv32): Trb {
    Trb(base0, base1, 0, 0x1802)
  }

  lemma StampCycle(w: bv32, cycle: bool)
    ensures CycleBit(Stamped(w, cycle)) == cycle
  {
  }

  lemma StampToggle(w: bv32, cycle: bool)
    ensures ToggleCycle(Stamped(w, cycle)) == ToggleCycle(w)
  {
  }

  lemma StampType(w: bv32, cycle: bool)
    ensures LinkType(Stamped(w, cycle)) == LinkType(w)
  {
  }

  lemma StampCleared(w: bv32, cycle: bool)
    ensures Cleared(Stamped(w, cycle)) == Cleared(w)
  {
  }

  lemma StampFacts(w3: bv32, cycle: bool)
    ensures CycleBit(Stamped(w3, cycle)) == cycle
    ensures LinkType(Stamped(w3, cycle)) == LinkType(w3) && ToggleCycle(Stamped(w3, cycle)) == ToggleCycle(w3)
    ensures Cleared(Stamped(w3, cycle)) == Cleared(w3)
  {
    hide CycleBit, LinkType, ToggleCycle, Stamped, Cleared;
    StampCycle(w3, cycle);
    StampToggle(w3, cycle);
    StampType(w3, cycle);
    StampCleared(w3, cycle);
  }

  lemma LinkFacts()
    ensures LinkType(0x1802) && ToggleCycle(0x1802) && !CycleBit(0)
  {
  }

  /** The producer between two stores: `Writing` is about to store word `k`. */
  datatype Pc = Idle | Writing(trb: Trb, k: nat)

  /** `seen` is the word the consumer has found to carry its cycle bit; `pushed` are the TRBs whose
      last word has been stored. */
  datatype State = State(base0: bv32, base1: bv32, buf: seq<Trb>, write: nat, cycle: bool, pc: Pc, pushed: seq<Trb>,
                         read: nat, ccs: bool, seen: Option<bv32>, consumed: seq<Trb>, lost: bool)

  function Init(base0: bv32, base1: bv32, size: nat): State {
    State(base0, base1, seq(size, _ => Trb(0, 0, 0, 0)), 0, true, Idle, [], 0, true, None, [], false)
  }

  function PutWord(t: Trb, k: nat, v: bv32): Trb {
    if k == 0 then t.(w0 := v) else if k == 1 then t.(w1 := v) else if k == 2 then t.(w2 := v) else t.(w3 := v)
  }

  function Word(t: Trb, k: nat): bv32 {
    if k == 0 then t.w0 else if k == 1 then t.w1 else if k == 2 then t.w2 else t.w3
  }

  /** One store of CopyToLast; the last one also moves the producer on. */
  function Store(s: State): State
    requires s.write < |s.buf|
  {
    if s.pc.Idle? then s
    else
      var slot := s.buf[s.write];
      if s.pc.k < 3 then
        s.(buf := s.buf[s.write := PutWord(slot, s.pc.k, Word(s.pc.trb, s.pc.k))], pc := Writing(s.pc.trb, s.pc.k + 1))
      else
        var t := s.(buf := s.buf[s.write := slot.(w3 := Stamped(s.pc.trb.w3, s.cycle))]);
        if s.write == |s.buf| - 1 then t.(write := 0, cycle := !s.cycle, pc := Idle)
        else t.(write := s.write + 1, pushed := s.pushed + [Payload(s.pc.trb)],
                pc := if s.write + 1 == |s.buf| - 1 then Writing(Link(s.base0, s.base1), 0) else Idle)
  }

  /** The consumer takes the entry whose cycle bit it has seen; it follows Link TRBs. */
  function Take(s: State): State
    requires s.seen.Some? && s.read < |s.buf|
  {
    var t := s.buf[s.read].(w3 := s.seen.value);
    if LinkType(t.w3) then
      if t.w0 == s.base0 && t.w1 == s.base1 then
        s.(read := 0, ccs := if ToggleCycle(t.w3) then !s.ccs else s.ccs, seen := None)
      else s.(lost := true, seen := None)
    else if s.read + 1 == |s.buf| then s.(lost := true, seen := None)
    else s.(read := s.read + 1, consumed := s.consumed + [Payload(t)], seen := None)
  }

  predicate HasFront(s: State)
    requires s.read < |s.buf|
  {
    CycleBit(s.buf[s.read].w3) == s.ccs
  }

  datatype Event = Push(trb: Trb) | StoreWord | Look | Accept

  /** A push overwrites nothing that is still to be read. */
  predicate Room(s: State) {
    s.cycle == s.ccs || (s.write < s.read && s.write + 2 < |s.buf|)
  }

  /** The driver pushes only TRBs that are not Link TRBs, and only into room. */
  predicate Enabled(s: State, e: Event) {
    match e
    case Push(t) => s.pc.Idle? && !LinkType(t.w3) && Room(s)
    case StoreWord => s.pc.Writing?
    case Look => s.seen.None? && s.read < |s.buf| && HasFront(s)
    case Accept => s.seen.Some?
  }

  function Step(s: State, e: Event): State
    requires s.write < |s.buf| && s.read < |s.buf| && Enabled(s, e)
  {
    match e
    case Push(t) => s.(pc := Writing(t, 0))
    case StoreWord => Store(s)
    case Look => s.(seen := Some(s.buf[s.read].w3))
    case Accept => Take(s)
  }

  /** Entries behind the producer carry its cycle bit, the others the opposite one. */
  ghost predicate Bits(s: State) {
    forall i {:trigger s.buf[i]} :: 0 <= i < |s.buf| ==> (CycleBit(s.buf[i].w3) <==> (s.cycle <==> i < s.write))
  }

  /** The entries between consumer and producer. */
  predicate Pending(s: State, i: nat) {
    i < |s.buf| && if s.cycle == s.ccs then s.read <= i < s.write else s.read <= i || i < s.write
  }

  function Queue(s: State): seq<Trb>
    requires s.read < |s.buf| && s.write < |s.buf| && (s.cycle == s.ccs ==> s.read <= s.write)
  {
    if s.cycle == s.ccs then Payloads(s.buf[s.read..s.write])
    else Payloads(s.buf[s.read..|s.buf| - 1]) + Payloads(s.buf[..s.write])
  }

  ghost predicate Contents(s: State) {
    forall i: nat {:trigger s.buf[i]} :: Pending(s, i) ==>
      if i == |s.buf| - 1 then s.buf[i] == Link(s.base0, s.base1).(w3 := s.buf[i].w3) && LinkType(s.buf[i].w3) && ToggleCycle(s.buf[i].w3)
      else !LinkType(s.buf[i].w3)
  }

  predicate Indices(s: State) {
    && |s.buf| >= 2 && s.write < |s.buf| && s.read < |s.buf| && !s.lost
    && (if s.cycle == s.ccs then s.read <= s.write else s.write <= s.read)
    && (s.write == |s.buf| - 1 ==> s.pc.Writing?)
  }

  ghost predicate Producing(s: State)
    requires s.write < |s.buf|
  {
    s.pc.Writing? ==>
      && Room(s) && s.pc.k <= 3
      && (if s.write == |s.buf| - 1 then s.pc.trb == Link(s.base0, s.base1) else !LinkType(s.pc.trb.w3))
      && forall k: nat {:trigger Word(s.pc.trb, k)} :: k < s.pc.k ==> Word(s.buf[s.write], k) == Word(s.pc.trb, k)
  }

  ghost predicate Inv(s: State) {
    && Indices(s) && Bits(s) && Contents(s) && Producing(s)
    && s.pushed == s.consumed + Queue(s)
    && (s.seen.Some? ==> HasFront(s) && s.seen.value == s.buf[s.read].w3)
  }

  lemma InitInv(base0: bv32, base1: bv32, size: nat)
    requires size >= 2
    ensures Inv(Init(base0, base1, size))
  {
    var s := Init(base0, base1, size);
    assert s.buf[s.read..s.write] == [];
    LinkFacts();
  }

  /** There is something to read exactly when the entry at the consumer carries its bit. */
  lemma FrontIsPending(s: State)
    requires Indices(s) && Bits(s)
    ensures HasFront(s) <==> Pending(s, s.read)
  {
    hide CycleBit;
    assert CycleBit(s.buf[s.read].w3) <==> (s.cycle <==> s.read < s.write);
  }

  lemma PayloadsSnoc(ts: seq<Trb>, t: Trb)
    ensures Payloads(ts + [t]) == Payloads(ts) + [Payload(t)]
  {
  }

  /** Storing a word below the last one changes nothing that the consumer may read. */
  lemma StoreEarly(s: State)
    requires Inv(s) && s.pc.Writing? && s.pc.k < 3
    ensures Inv(Store(s))
  {
    hide CycleBit, LinkType, ToggleCycle, Payload;
    var t := Store(s);
    assert !Pending(s, s.write);
    assert Queue(t) == Queue(s);
    assert s.read == s.write ==> s.cycle == s.ccs;
    FrontIsPending(s);
  }

  /** The last word of a data TRB publishes it. */
  lemma StoreLast(s: State)
    requires Inv(s) && s.pc.Writing? && s.pc.k == 3 && s.write < |s.buf| - 1
    ensures Inv(Store(s)) && Store(s).pushed == s.pushed + [Payload(s.pc.trb)]
  {
    hide CycleBit, LinkType, ToggleCycle, Stamped, Payload, Payloads, Queue;
    var t, w := Store(s), s.write;
    StampFacts(s.pc.trb.w3, s.cycle);
    SamePayload(s.pc.trb, s.cycle);
    assert !Pending(s, w);
    FrontIsPending(s);
    WordsStored(s.buf[w], s.pc.trb);
    assert t.buf[w] == s.pc.trb.(w3 := Stamped(s.pc.trb.w3, s.cycle));
    assert Payload(t.buf[w]) == Payload(s.pc.trb);
    QueueGrows(s, t);
  }

  lemma SamePayload(t: Trb, cycle: bool)
    ensures Payload(t.(w3 := Stamped(t.w3, cycle))) == Payload(t)
  {
    hide Stamped, Cleared, CycleBit, LinkType, ToggleCycle;
    StampFacts(t.w3, cycle);
  }

  lemma WordsStored(slot: Trb, trb: Trb)
    requires forall k: nat {:trigger Word(trb, k)} :: k < 3 ==> Word(slot, k) == Word(trb, k)
    ensures slot == trb.(w3 := slot.w3)
  {
    assert Word(slot, 0) == Word(trb, 0) && Word(slot, 1) == Word(trb, 1) && Word(slot, 2) == Word(trb, 2);
  }

  lemma QueueGrows(s: State, t: State)
    requires Indices(s) && Indices(t) && s.write < |s.buf| - 1 && t.write == s.write + 1 && t.read == s.read
    requires t.cycle == s.cycle && t.ccs == s.ccs && (s.cycle != s.ccs ==> s.write < s.read)
    requires |t.buf| == |s.buf| && t.buf == s.buf[s.write := t.buf[s.write]]
    ensures Queue(t) == Queue(s) + [Payload(t.buf[s.write])]
  {
    hide Payload;
    var w := s.write;
    if s.cycle == s.ccs {
      assert t.buf[s.read..w + 1] == s.buf[s.read..w] + [t.buf[w]];
      PayloadsSnoc(s.buf[s.read..w], t.buf[w]);
    } else {
      assert t.buf[..w + 1] == s.buf[..w] + [t.buf[w]];
      assert t.buf[s.read..|s.buf| - 1] == s.buf[s.read..|s.buf| - 1];
      PayloadsSnoc(s.buf[..w], t.buf[w]);
    }
  }

  /** The last word of the Link TRB starts the producer's next pass. */
  lemma StoreLink(s: State)
    requires Inv(s) && s.pc.Writing? && s.pc.k == 3 && s.write == |s.buf| - 1
    ensures Inv(Store(s)) && Store(s).pushed == s.pushed
  {
    hide CycleBit, LinkType, ToggleCycle, Stamped, Payload;
    var t, w := Store(s), s.write;
    StampFacts(s.pc.trb.w3, s.cycle);
    LinkFacts();
    FrontIsPending(s);
    WordsStored(s.buf[w], s.pc.trb);
    assert t.buf[s.read..w] == s.buf[s.read..w] && t.buf[..0] == [];
    assert Queue(t) == Queue(s);
  }

  lemma TakeInv(s: State)
    requires Inv(s) && s.seen.Some?
    ensures Inv(Take(s))
    ensures Take(s).consumed == s.consumed || (|s.consumed| < |s.pushed| && Take(s).consumed == s.pushed[..|s.consumed| + 1])
  {
    hide CycleBit, LinkType, ToggleCycle, Payload, Payloads;
    FrontIsPending(s);
    var t, r := Take(s), s.read;
    assert s.buf[r].(w3 := s.seen.value) == s.buf[r];
    if r == |s.buf| - 1 {
      assert s.buf[r..r] == [];
      assert Queue(t) == Queue(s);
    } else {
      assert Pending(s, r);
      QueueShrinks(s, t);
    }
  }

  lemma QueueShrinks(s: State, t: State)
    requires Indices(s) && Indices(t) && s.read < |s.buf| - 1 && Pending(s, s.read)
    requires t.read == s.read + 1 && t.write == s.write && t.cycle == s.cycle && t.ccs == s.ccs && t.buf == s.buf
    ensures Queue(s) == [Payload(s.buf[s.read])] + Queue(t)
  {
    hide Payload;
    var r := s.read;
    if s.cycle == s.ccs {
      assert s.buf[r..s.write] == [s.buf[r]] + s.buf[r + 1..s.write];
    } else {
      assert s.buf[r..|s.buf| - 1] == [s.buf[r]] + s.buf[r + 1..|s.buf| - 1];
    }
  }

  lemma PushInv(s: State, trb: Trb)
    requires Inv(s) && Enabled(s, Push(trb))
    ensures Inv(s.(pc := Writing(trb, 0)))
  {
    hide CycleBit, LinkType, ToggleCycle, Payloads;
    assert Queue(s.(pc := Writing(trb, 0))) == Queue(s);
  }

  lemma LookInv(s: State)
    requires Inv(s) && Enabled(s, Look)
    ensures Inv(s.(seen := Some(s.buf[s.read].w3)))
  {
    hide CycleBit, LinkType, ToggleCycle, Payloads;
    assert Queue(s.(seen := Some(s.buf[s.read].w3))) == Queue(s);
  }

  /** The TRBs handed to Push so far, the one still being stored included. */
  function Handed(s: State): seq<Trb> {
    if s.pc.Writing? && s.write + 1 < |s.buf| then s.pushed + [Payload(s.pc.trb)] else s.pushed
  }

  /** Every step keeps the ring in order. */
  lemma StepInv(s: State, e: Event)
    requires Inv(s) && Enabled(s, e)
    ensures Inv(Step(s, e))
    ensures Handed(Step(s, e)) == if e.Push? then Handed(s) + [Payload(e.trb)] else Handed(s)
  {
    hide CycleBit, LinkType, ToggleCycle, Stamped, Payload, Payloads, Bits, Contents, Queue, PutWord;
    match e
    case Push(t) => PushInv(s, t);
    case StoreWord =>
      if s.pc.k < 3 { StoreEarly(s); } else if s.write == |s.buf| - 1 { StoreLink(s); } else { StoreLast(s); }
    case Look => LookInv(s);
    case Accept => TakeInv(s);
  }

  predicate RunOk(s: State, es: seq<Event>)
    decreases |es|
  {
    es == [] || (s.write < |s.buf| && s.read < |s.buf| && Enabled(s, es[0]) && RunOk(Step(s, es[0]), es[1..]))
  }

  function Run(s: State, es: seq<Event>): State
    requires RunOk(s, es)
    decreases |es|
  {
    if es == [] then s else Run(Step(s, es[0]), es[1..])
  }

  /** The TRBs that a run hands to Push. */
  function Pushes(es: seq<Event>): seq<Trb> {
    if es == [] then []
    else (if es[0].Push? then [Payload(es[0].trb)] else []) + Pushes(es[1..])
  }

  lemma {:induction false} RunInv(s: State, es: seq<Event>)
    requires Inv(s) && RunOk(s, es)
    ensures Inv(Run(s, es)) && Handed(Run(s, es)) == Handed(s) + Pushes(es)
    decreases |es|
  {
    hide Inv, Enabled, Step, Handed, Payload;
    if es != [] {
      StepInv(s, es[0]);
      RunInv(Step(s, es[0]), es[1..]);
    }
  }

  /** The ring is a first-in first-out queue: in every interleaving of the producer's stores and the
      consumer's reads, what has been consumed is a prefix of what was handed to Push, each TRB whole,
      and what has been published but not consumed waits in the ring, in order. */
  lemma RingIsFifo(base0: bv32, base1: bv32, size: nat, es: seq<Event>)
    requires size >= 2 && RunOk(Init(base0, base1, size), es)
    ensures var s := Run(Init(base0, base1, size), es);
      && s.consumed <= s.pushed <= Pushes(es) && |Pushes(es)| <= |s.pushed| + 1 && !s.lost
      && (s.pc.Idle? ==> s.pushed == Pushes(es))
      && Inv(s)
  {
    hide RunOk, Run, Pushes, Payload, Bits, Contents, Producing, Queue;
    InitInv(base0, base1, size);
    RunInv(Init(base0, base1, size), es);
    assert [] + Pushes(es) == Pushes(es);
  }

  /** One look and one accept. */
  function Round(s: State): State
    requires s.read < |s.buf|
  {
    Take(s.(seen := Some(s.buf[s.read].w3)))
  }

  lemma RoundTakes(s: State)
    requires Inv(s) && s.seen.None? && s.consumed != s.pushed
    ensures HasFront(s) && Inv(Round(s)) && Round(s).seen.None? && Round(s).pushed == s.pushed
    ensures if s.read == |s.buf| - 1 then Round(s).consumed == s.consumed && Round(s).read == 0
            else Round(s).consumed == s.pushed[..|s.consumed| + 1]
  {
    hide CycleBit, LinkType, ToggleCycle, Payload, Payloads;
    FrontIsPending(s);
    LookInv(s);
    var t := s.(seen := Some(s.buf[s.read].w3));
    TakeInv(t);
    assert s.buf[s.read].(w3 := t.seen.value) == s.buf[s.read];
  }

  lemma TwoEvents(s: State, es: seq<Event>)
    requires s.write < |s.buf| && s.read < |s.buf| && s.seen.None? && HasFront(s) && RunOk(Round(s), es)
    ensures RunOk(s, [Look, Accept] + es) && Run(s, [Look, Accept] + es) == Run(Round(s), es)
  {
    hide CycleBit, Take;
    var all := [Look, Accept] + es;
    assert all[1..] == [Accept] + es && all[1..][1..] == es;
    assert Step(s, Look) == s.(seen := Some(s.buf[s.read].w3));
  }

  /** A TRB that waits can be read: at once, or after following one Link TRB. */
  lemma WaitingIsRead(s: State) returns (es: seq<Event>)
    requires Inv(s) && s.seen.None? && s.consumed != s.pushed
    ensures |es| <= 4 && RunOk(s, es) && Run(s, es).consumed == s.pushed[..|s.consumed| + 1]
    ensures forall e <- es :: e.Look? || e.Accept?
  {
    hide HasFront, Round, Bits, Contents, Producing, Queue, Step, Enabled;
    RoundTakes(s);
    if s.read == |s.buf| - 1 {
      var t := Round(s);
      RoundTakes(t);
      TwoEvents(t, []);
      TwoEvents(s, [Look, Accept] + []);
      es := [Look, Accept] + ([Look, Accept] + []);
    } else {
      TwoEvents(s, []);
      es := [Look, Accept] + [];
    }
  }

  lemma {:induction false} QueueSize(s: State)
    requires Inv(s)
    ensures |s.pushed| - |s.consumed| == if s.cycle == s.ccs then s.write - s.read else |s.buf| - 1 - s.read + s.write
  {
    hide CycleBit, LinkType, Bits, Contents, Producing;
  }

  /** There is room for a TRB while fewer than N - 2 wait in a ring of N entries; one more fits
      unless the consumer still has to follow the Link TRB. */
  lemma RoomIs(s: State)
    requires Inv(s) && s.pc.Idle?
    ensures Room(s) <==> |s.pushed| - |s.consumed| < if s.read == |s.buf| - 1 then |s.buf| - 2 else |s.buf| - 1
  {
    hide Bits, Contents, Producing, Queue;
    QueueSize(s);
  }

  /** The stores of one push, run to its end. */
  function Finish(s: State): (r: State)
    requires s.write < |s.buf|
    ensures |r.buf| == |s.buf| && r.read == s.read && r.write < |r.buf|
    decreases if s.pc.Idle? then 0 else if s.write == |s.buf| - 1 then 5 - s.pc.k else 10 - s.pc.k
  {
    if s.pc.Idle? || s.pc.k > 3 then s else Finish(Store(s))
  }

  function PushAll(s: State, trb: Trb): (r: State)
    requires s.write < |s.buf|
    ensures |r.buf| == |s.buf| && r.read == s.read && r.write < |r.buf|
  {
    Finish(s.(pc := Writing(trb, 0)))
  }

  /** Whatever the consumer has read, a finished push leaves the producer in this state. */
  lemma {:induction false} FinishBits(s: State)
    requires Bits(s) && s.write < |s.buf| && (s.pc.Writing? ==> s.pc.k <= 3) && |s.buf| >= 2
    requires s.write == |s.buf| - 1 ==> s.pc.Writing?
    ensures var t := Finish(s);
      && Bits(t) && |t.buf| == |s.buf| && t.read == s.read && t.ccs == s.ccs && t.pc.Idle?
      && if s.pc.Idle? then t == s
         else if s.write + 2 < |s.buf| then t.write == s.write + 1 && t.cycle == s.cycle
         else t.write == 0 && t.cycle == !s.cycle
    decreases if s.pc.Idle? then 0 else if s.write == |s.buf| - 1 then 5 - s.pc.k else 10 - s.pc.k
  {
    hide CycleBit, Stamped;
    if s.pc.Writing? {
      StampFacts(s.pc.trb.w3, s.cycle);
      FinishBits(Store(s));
    }
  }

  /** Without room a push overwrites what has not been read, the Link TRB included: the consumer then
      finds nothing at its place although the ring is full. With room it finds what waits. */
  lemma PushNeedsRoom(s: State, trb: Trb)
    requires Inv(s) && s.pc.Idle? && !LinkType(trb.w3)
    ensures HasFront(PushAll(s, trb)) <==> Room(s)
  {
    hide CycleBit, LinkType, Contents, Producing, Queue, Finish;
    var t := PushAll(s, trb);
    FinishBits(s.(pc := Writing(trb, 0)));
    assert t.buf[t.read] == t.buf[s.read];
  }

  /** A finished push keeps the ring in order. */
  lemma {:induction false} FinishInv(s: State)
    requires Inv(s)
    ensures Inv(Finish(s))
    decreases if s.pc.Idle? then 0 else if s.write == |s.buf| - 1 then 5 - s.pc.k else 10 - s.pc.k
  {
    hide CycleBit, Stamped, LinkType, Payload, Payloads, Queue;
    if s.pc.Writing? {
      StepInv(s, StoreWord);
      FinishInv(Store(s));
    }
  }

  /** A ring of three entries after two pushes that nobody has read: the first TRB waits, there is no room,
      and a third push makes the ring look empty. */
  lemma FullRing(base0: bv32, base1: bv32, trb: Trb)
    requires !LinkType(trb.w3)
    ensures var s := PushAll(PushAll(Init(base0, base1, 3), trb), trb);
      && Inv(s) && s.pc.Idle? && !Room(s) && HasFront(s) && s.consumed == [] && !HasFront(PushAll(s, trb))
  {
    hide CycleBit, LinkType, Finish, Stamped, Contents, Producing, Queue;
    var s0 := Init(base0, base1, 3);
    InitInv(base0, base1, 3);
    PushInv(s0, trb);
    var s1 := PushAll(s0, trb);
    FinishInv(s0.(pc := Writing(trb, 0)));
    FinishBits(s0.(pc := Writing(trb, 0)));
    PushInv(s1, trb);
    var s2 := PushAll(s1, trb);
    FinishInv(s1.(pc := Writing(trb, 0)));
    FinishBits(s1.(pc := Writing(trb, 0)));
    FinishKeeps(s0.(pc := Writing(trb, 0)));
    FinishKeeps(s1.(pc := Writing(trb, 0)));
    PushNeedsRoom(s2, trb);
    assert CycleBit(s2.buf[0].w3) <==> (s2.cycle <==> 0 < s2.write);
  }

  lemma {:induction false} FinishKeeps(s: State)
    requires s.write < |s.buf|
    ensures Finish(s).consumed == s.consumed
    decreases if s.pc.Idle? then 0 else if s.write == |s.buf| - 1 then 5 - s.pc.k else 10 - s.pc.k
  {
    if s.pc.Writing? && s.pc.k <= 3 { FinishKeeps(Store(s)); }
  }

  /** Four stores put the whole TRB in place, with the producer's cycle bit. */
  function Placed(s: State): State
    requires s.write < |s.buf| && s.pc.Writing? && s.pc.k == 0
  {
    Store(Store(Store(Store(s))))
  }

  lemma FourStores(s: State)
    requires s.write < |s.buf| && s.pc.Writing? && s.pc.k == 0
    ensures Finish(s) == Finish(Placed(s))
    ensures Placed(s).buf == s.buf[s.write := s.pc.trb.(w3 := Stamped(s.pc.trb.w3, s.cycle))]
    ensures Placed(s).base0 == s.base0 && Placed(s).base1 == s.base1
    ensures s.write == |s.buf| - 1 ==> Placed(s).write == 0 && Placed(s).cycle == !s.cycle && Placed(s).pc == Idle
    ensures s.write < |s.buf| - 1 ==> Placed(s).write == s.write + 1 && Placed(s).cycle == s.cycle
    ensures s.write < |s.buf| - 2 ==> Placed(s).pc == Idle
    ensures s.write == |s.buf| - 2 ==> Placed(s).pc == Writing(Link(s.base0, s.base1), 0)
  {
    hide Stamped;
    var s1 := Store(s);
    var s2 := Store(s1);
    var s3 := Store(s2);
    assert Finish(s) == Finish(s1) && Finish(s1) == Finish(s2) && Finish(s2) == Finish(s3);
  }

  /** The driver's side of the ring, in memory that it shares with the controller. */
  class Ring {
    const buf: array2<bv32>
    var cycleBit: bool
    var writeIndex: nat
    /** The two words of the address of `buf`, whose low four bits are zero. */
    const base0: bv32
    const base1: bv32

    ghost predicate Valid()
      reads this
    {
      buf.Length0 >= 2 && buf.Length1 == 4 && writeIndex < buf.Length0 - 1
    }

    ghost function Entry(i: nat): Trb
      reads buf
      requires i < buf.Length0 && buf.Length1 == 4
    {
      Trb(buf[i, 0], buf[i, 1], buf[i, 2], buf[i, 3])
    }

    ghost function Entries(): seq<Trb>
      reads buf
      requires buf.Length1 == 4
    {
      seq(buf.Length0, i requires 0 <= i < buf.Length0 && buf.Length1 == 4 reads buf => Entry(i))
    }

    /** The ring as the state machine sees it, with a consumer that has read nothing yet. */
    ghost function Model(): State
      reads this, buf
      requires buf.Length1 == 4
    {
      State(base0, base1, Entries(), writeIndex, cycleBit, Idle, [], 0, true, None, [], false)
    }

    /** Ring::Initialize, once its memory has been allocated. */
    constructor (bufSize: nat, base0: bv32, base1: bv32)
      requires bufSize >= 2
      ensures Valid() && fresh(buf) && this.base0 == base0 && this.base1 == base1
      ensures Model() == Init(base0, base1, bufSize)
    {
      this.base0, this.base1 := base0, base1;
      cycleBit, writeIndex := true, 0;
      buf := new bv32[bufSize, 4]((_, _) => 0);
    }

    /** Ring::CopyToLast: the last word, which carries the cycle bit, is stored last. */
    method CopyToLast(data: Trb)
      requires buf.Length1 == 4 && writeIndex < buf.Length0
      modifies buf
      ensures Entries() == old(Entries())[writeIndex := data.(w3 := Stamped(data.w3, cycleBit))]
    {
      for i := 0 to 3
        invariant forall r, c :: 0 <= r < buf.Length0 && 0 <= c < 4 ==>
          buf[r, c] == if r == writeIndex && c < i then Word(data, c) else old(buf[r, c])
      {
        buf[writeIndex, i] := Word(data, i);
      }
      buf[writeIndex, 3] := Stamped(data.w3, cycleBit);
    }

    /** Ring::Push: the same stores as the state machine's, and the place of the new TRB. */
    method Push(data: Trb) returns (slot: nat)
      requires Valid()
      modifies this`writeIndex, this`cycleBit, buf
      ensures Valid() && slot == old(writeIndex)
      ensures var t := PushAll(old(Model()), data); Entries() == t.buf && writeIndex == t.write && cycleBit == t.cycle
    {
      hide Stamped, Finish;
      ghost var s := Model().(pc := Writing(data, 0));
      FourStores(s);
      slot := writeIndex;
      CopyToLast(data);
      writeIndex := writeIndex + 1;
      if writeIndex == buf.Length0 - 1 {
        FourStores(Placed(s));
        CopyToLast(Link(base0, base1));
        writeIndex := 0;
        cycleBit := !cycleBit;
        FinishIdle(Placed(Placed(s)));
      } else {
        FinishIdle(Placed(s));
      }
    }
  }

  lemma FinishIdle(s: State)
    requires s.write < |s.buf| && s.pc.Idle?
    ensures Finish(s) == s
  {
  }
}
