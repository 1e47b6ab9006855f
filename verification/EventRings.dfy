/** The event ring of the xHCI driver: the controller stores behind the driver, which reads and has no
    Link TRB to follow (section 4.9.4 of the xHCI specification). */
module EventRings {
  import opened TrbRing

  /** The controller's side is `write`, its cycle state `pcs`, the store it is at, and what it has
      published; the driver's is `read`, its cycle bit `ccs`, and what it has popped. */
  datatype Events = Events(buf: seq<Trb>, write: nat, pcs: bool, pc: Pc, posted: seq<Trb>,
                           read: nat, ccs: bool, popped: seq<Trb>)

  datatype Action = Post(trb: Trb) | StoreNext | PopFront

  function Empty(size: nat): Events {
    Events(seq(size, _ => Trb(0, 0, 0, 0)), 0, true, Idle, [], 0, true, [])
  }

  /** The controller stops at a full ring. */
  predicate Free(s: Events) { s.pcs == s.ccs || s.write < s.read }

  predicate FrontThere(s: Events)
    requires s.read < |s.buf|
  {
    CycleBit(s.buf[s.read].w3) == s.ccs
  }

  predicate May(s: Events, a: Action) {
    match a
    case Post(_) => s.pc.Idle? && Free(s)
    case StoreNext => s.pc.Writing?
    case PopFront => s.read < |s.buf| && FrontThere(s)
  }

  /** A store of the controller: the word with the cycle bit is the last. */
  function Stored(s: Events): Events
    requires s.write < |s.buf| && s.pc.Writing?
  {
    var slot := s.buf[s.write];
    if s.pc.k < 3 then
      s.(buf := s.buf[s.write := PutWord(slot, s.pc.k, Word(s.pc.trb, s.pc.k))], pc := Writing(s.pc.trb, s.pc.k + 1))
    else
      var t := s.(buf := s.buf[s.write := slot.(w3 := Stamped(s.pc.trb.w3, s.pcs))],
                  pc := Idle, posted := s.posted + [Payload(s.pc.trb)]);
      if s.write + 1 == |s.buf| then t.(write := 0, pcs := !s.pcs) else t.(write := s.write + 1)
  }

  /** EventRing::Pop, after the front has been read. */
  function Popped(s: Events): Events
    requires s.read < |s.buf|
  {
    var t := s.(popped := s.popped + [Payload(s.buf[s.read])]);
    if s.read + 1 == |s.buf| then t.(read := 0, ccs := !s.ccs) else t.(read := s.read + 1)
  }

  function Act(s: Events, a: Action): Events
    requires s.write < |s.buf| && s.read < |s.buf| && May(s, a)
  {
    match a
    case Post(t) => s.(pc := Writing(t, 0))
    case StoreNext => Stored(s)
    case PopFront => Popped(s)
  }

  function Waiting(s: Events): seq<Trb>
    requires s.read < |s.buf| && s.write < |s.buf| && (s.pcs == s.ccs ==> s.read <= s.write)
  {
    if s.pcs == s.ccs then Payloads(s.buf[s.read..s.write])
    else Payloads(s.buf[s.read..]) + Payloads(s.buf[..s.write])
  }

  predicate Placed(s: Events) {
    && s.write < |s.buf| && s.read < |s.buf| && (if s.pcs == s.ccs then s.read <= s.write else s.write <= s.read)
  }

  /** Entries behind the controller carry its cycle state, the others the opposite one. */
  ghost predicate Marks(s: Events) {
    forall i {:trigger s.buf[i]} :: 0 <= i < |s.buf| ==> (CycleBit(s.buf[i].w3) <==> (s.pcs <==> i < s.write))
  }

  ghost predicate Storing(s: Events)
    requires s.write < |s.buf|
  {
    s.pc.Writing? ==>
      && Free(s) && s.pc.k <= 3
      && forall k: nat {:trigger Word(s.pc.trb, k)} :: k < s.pc.k ==> Word(s.buf[s.write], k) == Word(s.pc.trb, k)
  }

  ghost predicate Ordered(s: Events) {
    Placed(s) && Marks(s) && Storing(s) && s.posted == s.popped + Waiting(s)
  }

  lemma EmptyOrdered(size: nat)
    requires size >= 1
    ensures Ordered(Empty(size))
  {
    LinkFacts();
    assert Empty(size).buf[0..0] == [];
  }

  lemma FrontIsWaiting(s: Events)
    requires Placed(s) && Marks(s)
    ensures FrontThere(s) <==> Waiting(s) != []
  {
    hide CycleBit;
    assert CycleBit(s.buf[s.read].w3) <==> (s.pcs <==> s.read < s.write);
  }

  lemma EarlyStoreOrdered(s: Events)
    requires Ordered(s) && s.pc.Writing? && s.pc.k < 3
    ensures Ordered(Stored(s))
  {
    hide CycleBit, Payload;
    assert Waiting(Stored(s)) == Waiting(s);
  }

  lemma LastStoreOrdered(s: Events)
    requires Ordered(s) && s.pc.Writing? && s.pc.k == 3
    ensures Ordered(Stored(s))
  {
    hide CycleBit, Stamped, Payload, Payloads, Waiting;
    var t, w := Stored(s), s.write;
    StampFacts(s.pc.trb.w3, s.pcs);
    SamePayload(s.pc.trb, s.pcs);
    WordsStored(s.buf[w], s.pc.trb);
    assert t.buf[w] == s.pc.trb.(w3 := Stamped(s.pc.trb.w3, s.pcs));
    WaitingGrows(s, t);
  }

  lemma WaitingGrows(s: Events, t: Events)
    requires Placed(s) && Placed(t) && Free(s) && |t.buf| == |s.buf|
    requires t.buf == s.buf[s.write := t.buf[s.write]] && t.read == s.read && t.ccs == s.ccs
    requires if s.write + 1 == |s.buf| then t.write == 0 && t.pcs == !s.pcs else t.write == s.write + 1 && t.pcs == s.pcs
    ensures Waiting(t) == Waiting(s) + [Payload(t.buf[s.write])]
  {
    hide Payload;
    var w := s.write;
    if s.pcs == s.ccs {
      assert t.buf[s.read..w + 1] == s.buf[s.read..w] + [t.buf[w]];
      PayloadsSnoc(s.buf[s.read..w], t.buf[w]);
      assert w + 1 == |s.buf| ==> t.buf[s.read..] == t.buf[s.read..w + 1] && t.buf[..0] == [];
    } else {
      assert t.buf[..w + 1] == s.buf[..w] + [t.buf[w]] && t.buf[s.read..] == s.buf[s.read..];
      PayloadsSnoc(s.buf[..w], t.buf[w]);
    }
  }

  lemma PayloadsCons(t: Trb, ts: seq<Trb>)
    ensures Payloads([t] + ts) == [Payload(t)] + Payloads(ts)
  {
  }

  lemma WaitingShrinks(s: Events)
    requires Placed(s) && Waiting(s) != []
    ensures Placed(Popped(s)) && Waiting(s) == [Payload(s.buf[s.read])] + Waiting(Popped(s))
  {
    hide Payload, Payloads;
    var r := s.read;
    if s.pcs == s.ccs {
      assert s.buf[r..s.write] == [s.buf[r]] + s.buf[r + 1..s.write];
      PayloadsCons(s.buf[r], s.buf[r + 1..s.write]);
    } else {
      assert s.buf[r..] == [s.buf[r]] + s.buf[r + 1..];
      PayloadsCons(s.buf[r], s.buf[r + 1..]);
      if r + 1 == |s.buf| {
        assert s.buf[0..s.write] == s.buf[..s.write] && Payloads(s.buf[r + 1..]) == [];
      }
    }
  }

  lemma PopOrdered(s: Events)
    requires Ordered(s) && FrontThere(s)
    ensures Ordered(Popped(s)) && Waiting(s) == [Payload(s.buf[s.read])] + Waiting(Popped(s))
  {
    hide CycleBit, Payload, Waiting;
    FrontIsWaiting(s);
    WaitingShrinks(s);
  }

  lemma ActOrdered(s: Events, a: Action)
    requires Ordered(s) && May(s, a)
    ensures Ordered(Act(s, a))
    ensures PostedSoFar(Act(s, a)) == if a.Post? then PostedSoFar(s) + [Payload(a.trb)] else PostedSoFar(s)
  {
    hide CycleBit, Stamped, Payload, Payloads, Marks, PutWord;
    match a
    case Post(t) =>
      var r := s.(pc := Writing(t, 0));
      assert Waiting(r) == Waiting(s) && Marks(r) == Marks(s) by { SameMarks(s, r); }
    case StoreNext => if s.pc.k < 3 { EarlyStoreOrdered(s); } else { LastStoreOrdered(s); }
    case PopFront => PopOrdered(s);
  }

  lemma SameMarks(s: Events, t: Events)
    requires s.buf == t.buf && s.write == t.write && s.pcs == t.pcs
    ensures Marks(s) == Marks(t)
  {
  }

  /** The events that the controller has begun to store. */
  function PostedSoFar(s: Events): seq<Trb> {
    if s.pc.Writing? then s.posted + [Payload(s.pc.trb)] else s.posted
  }

  predicate ActsOk(s: Events, es: seq<Action>)
    decreases |es|
  {
    es == [] || (s.write < |s.buf| && s.read < |s.buf| && May(s, es[0]) && ActsOk(Act(s, es[0]), es[1..]))
  }

  function Acts(s: Events, es: seq<Action>): Events
    requires ActsOk(s, es)
    decreases |es|
  {
    if es == [] then s else Acts(Act(s, es[0]), es[1..])
  }

  function Posts(es: seq<Action>): seq<Trb> {
    if es == [] then []
    else (if es[0].Post? then [Payload(es[0].trb)] else []) + Posts(es[1..])
  }

  lemma {:induction false} ActsOrdered(s: Events, es: seq<Action>)
    requires Ordered(s) && ActsOk(s, es)
    ensures Ordered(Acts(s, es)) && PostedSoFar(Acts(s, es)) == PostedSoFar(s) + Posts(es)
    decreases |es|
  {
    hide Ordered, May, Act, PostedSoFar, Payload;
    if es != [] {
      ActOrdered(s, es[0]);
      ActsOrdered(Act(s, es[0]), es[1..]);
    }
  }

  /** In every interleaving with the controller's stores the driver pops the events whole, in order, once
      each, and it sees a front exactly when there is one. */
  lemma EventsInOrder(size: nat, es: seq<Action>)
    requires size >= 1 && ActsOk(Empty(size), es)
    ensures var s := Acts(Empty(size), es);
      && s.popped <= s.posted <= Posts(es) && |Posts(es)| <= |s.posted| + 1 && s.read < |s.buf|
      && (FrontThere(s) <==> s.popped != s.posted)
      && (FrontThere(s) ==> Payload(s.buf[s.read]) == s.posted[|s.popped|])
  {
    hide ActsOk, Acts, Posts, Payload, Marks, Storing, Waiting, FrontThere;
    EmptyOrdered(size);
    ActsOrdered(Empty(size), es);
    var s := Acts(Empty(size), es);
    FrontIsWaiting(s);
    if FrontThere(s) { PopOrdered(s); }
    assert [] + Posts(es) == Posts(es);
  }

  /** The driver's side. ERDP, the register with the dequeue pointer, holds the index of an entry. */
  class EventRing {
    const buf: array2<bv32>
    var cycleBit: bool
    var erdp: nat

    ghost predicate Valid()
      reads this
    {
      buf.Length1 == 4 && erdp < buf.Length0
    }

    ghost function Model(): Events
      reads this, buf
      requires Valid()
    {
      Empty(buf.Length0).(
        buf := seq(buf.Length0, i requires 0 <= i < buf.Length0 && buf.Length1 == 4 reads buf => Trb(buf[i, 0], buf[i, 1], buf[i, 2], buf[i, 3])),
        read := erdp, ccs := cycleBit)
    }

    /** EventRing::Initialize, once its memory has been allocated. */
    constructor (bufSize: nat)
      requires 1 <= bufSize < 0x1_0000
      ensures Valid() && fresh(buf) && Model() == Empty(bufSize)
    {
      cycleBit, erdp := true, 0;
      buf := new bv32[bufSize, 4]((_, _) => 0);
    }

    function HasFront(): (r: bool)
      requires Valid()
      reads this, buf
      ensures r == FrontThere(Model())
    {
      CycleBit(buf[erdp, 3]) == cycleBit
    }

    /** EventRing::Pop. */
    method Pop()
      requires Valid()
      modifies this
      ensures Valid() && Model() == Popped(old(Model())).(popped := [])
    {
      var p := erdp + 1;
      if p == buf.Length0 {
        p := 0;
        cycleBit := !cycleBit;
      }
      erdp := p;
    }
  }
}
