/** Each event of a run, step by step, against the simple machine. */
module Programs {
  import opened Wrappers
  import opened FrameSearch
  import opened PhysicalMemory
  import opened PageTables
  import opened Ownership
  import opened Mapping
  import opened Sharing
  import opened Reclaim
  import opened Faults
  import opened Lifecycle
  import opened IdentityMap
  import opened Spaces
  import opened Refinement

  lemma FillZeroIdle(sp: map<nat, Frame>, u: nat)
    requires u in sp
    ensures FillZero(sp, u, u + 1) == sp
  {
  }

  /** The user half of a running program in terms of the owning tables. */
  lemma SpaceAt(os: Os, g: Ghost, r: nat, a: LinearAddress)
    requires OsInv(os, g) && r in g.origin && UserAddress(a)
    ensures Walk(os.s, r, 4, a) == Flat(os.s, g, r, a.Vpn())
    ensures a.Vpn() in SpaceOf(os.s, r) <==> Flat(os.s, g, r, a.Vpn()).Some?
  {
    WalkIsFlat(os.s, g, r, a);
    VpnBounds(a);
    SpaceIsContent(os.s, g, r);
    assert Content(os.s, g, r, a.Vpn()).Some? <==> Flat(os.s, g, r, a.Vpn()).Some?;
  }

  /** What an access leaves behind. */
  ghost predicate AccessDone(os: Os, g: Ghost, o: Outcome, g': Ghost, r: nat, a: LinearAddress, write: bool) {
    && OsInv(os.(s := o.s, cr3 := r), g') && Private(os, g, os.(s := o.s, cr3 := r), g', r)
    && SpaceOf(o.s, r) == (if o.ok then FillZero(SpaceOf(os.s, r), a.Vpn(), a.Vpn() + 1) else SpaceOf(os.s, r))
    && (o.ok ==> Flat(o.s, g', r, a.Vpn()).Some? && (write ==> Flat(o.s, g', r, a.Vpn()).value.writeable))
  }

  /** Outside the user half the processor permits a program nothing, and where the handler refuses, too,
      nothing changes. */
  lemma OutsideAccess(os: Os, g: Ghost, r: nat, a: LinearAddress)
    requires OsInv(os, g) && Running(os, r) && !UserAddress(a)
    ensures Walk(os.s, r, 4, a) == if Identical(a) then Some(LargeEntry(Base(a) + a.pTable)) else None
    ensures forall write :: !Permits(os.s, r, 4, a, write)
  {
    var p := Place(r, 4, 0);
    assert RootOk(g, r) && PlaceOk(os.s, g, p) && EntryOk(os.s, g, p, a.pml4);
    KernelWalk(os.s, os.kernel, r, a);
  }

  lemma RefusedAccess(os: Os, g: Ghost, r: nat, a: LinearAddress, write: bool)
    requires OsInv(os, g) && Running(os, r) && !UserAddress(a) && Refused(os, r, a, write)
    ensures Access(os.s, r, os.apps[r].demand, a, write) == Outcome(os.s, false)
    ensures AccessDone(os, g, Outcome(os.s, false), g, r, a, write)
  {
    OutsideAccess(os, g, r, a);
    NothingGiven(os, g, r, a, write);
  }

  /** An access to the user half succeeds or is refused for want of memory or of a right to the page; one
      outside it that the handler refuses changes nothing. */
  lemma AccessStep(os: Os, g: Ghost, r: nat, a: LinearAddress, write: bool) returns (g': Ghost)
    requires OsInv(os, g) && Running(os, r) && (UserAddress(a) || Refused(os, r, a, write))
    ensures var o := Access(os.s, r, os.apps[r].demand, a, write);
      && AccessDone(os, g, o, g', r, a, write) && AccessPossible(os, r, a, write, o.ok, Full(o.s))
      && (UserAddress(a) && !Entitled(os, r, a) ==> o == Outcome(os.s, false))
      && (UserAddress(a) && AtHand(os.s, r, a, write) ==> o == Outcome(os.s, true))
  {
    if UserAddress(a) {
      g' := UserAccess(os, g, r, a, write);
    } else {
      RefusedAccess(os, g, r, a, write);
      g' := g;
    }
  }

  lemma UserAccess(os: Os, g: Ghost, r: nat, a: LinearAddress, write: bool) returns (g': Ghost)
    requires OsInv(os, g) && Running(os, r) && UserAddress(a)
    ensures var o := Access(os.s, r, os.apps[r].demand, a, write);
      && AccessDone(os, g, o, g', r, a, write) && AccessPossible(os, r, a, write, o.ok, Full(o.s))
      && (UserAddress(a) && !Entitled(os, r, a) ==> o == Outcome(os.s, false))
      && (UserAddress(a) && AtHand(os.s, r, a, write) ==> o == Outcome(os.s, true))
  {
    PermitsIsFlat(os.s, g, r, a, write);
    SpaceAt(os, g, r, a);
    hide Inv, Permits, CopyOnePage, SetupPageMaps, SpaceOf, Flat, Walk;
    if Permits(os.s, r, 4, a, write) {
      g' := g;
      NoFault(os, g, r, a, write);
    } else if Walk(os.s, r, 4, a).Some? {
      hide AccessDone;
      g' := WriteFault(os, g, r, a);
    } else {
      hide AccessDone;
      g' := DemandFault(os, g, r, a, write);
    }
  }

  lemma NoFault(os: Os, g: Ghost, r: nat, a: LinearAddress, write: bool)
    requires OsInv(os, g) && Running(os, r) && UserAddress(a)
    requires Flat(os.s, g, r, a.Vpn()).Some? && (write ==> Flat(os.s, g, r, a.Vpn()).value.writeable) && a.Vpn() in SpaceOf(os.s, r)
    ensures AccessDone(os, g, Outcome(os.s, true), g, r, a, write)
  {
    NothingDone(os.s, g, r, 0, false);
    assert r in g.origin;
    hide Inv, Grown, SpaceOf, Private, FillZero, Content, Flat;
    OsKept(os, g, os.s, g, r);
    FillZeroIdle(SpaceOf(os.s, r), a.Vpn());
    PrivateIf(os, g, os.s, g, r);
    hide OsInv;
  }

  lemma WriteFault(os: Os, g: Ghost, r: nat, a: LinearAddress) returns (g': Ghost)
    requires OsInv(os, g) && Running(os, r) && UserAddress(a)
    requires Flat(os.s, g, r, a.Vpn()).Some? && !Flat(os.s, g, r, a.Vpn()).value.writeable && a.Vpn() in SpaceOf(os.s, r)
    ensures var o := CopyOnePage(os.s, r, a);
      && AccessDone(os, g, o, g', r, a, true) && (!o.ok ==> Full(o.s))
  {
    hide CopyOnePage, Inv, Grown, SpaceOf, Private, FillZero, Content, Full, Flat, OsInv, Sized, IsTemplate;
    var o := CopyOnePage(os.s, r, a);
    RunningKnown(os, g, r);
    CowFails(os.s, r, a);
    g' := CowStep(os.s, g, r, a);
    CowKept(os, g, o, g', r, a);
    FillZeroIdle(SpaceOf(os.s, r), a.Vpn());
  }

  lemma RunningKnown(os: Os, g: Ghost, r: nat)
    requires OsInv(os, g) && Running(os, r)
    ensures Sized(os.s) && Inv(os.s, g) && g.detached.None? && r in g.origin && !IsTemplate(g, r)
    ensures g.origin[r] == os.apps[r].template
  {
  }

  lemma CowFails(s: Phys, r: nat, a: LinearAddress)
    requires Sized(s)
    ensures !CopyOnePage(s, r, a).ok ==> Full(s)
  {
    NewPageMapFacts(s);
  }

  /** The write fault seen from the whole system: nobody's memory has changed. */
  lemma CowKept(os: Os, g: Ghost, o: Outcome, g': Ghost, r: nat, a: LinearAddress)
    requires OsInv(os, g) && Running(os, r) && Inv(o.s, g') && Grown(os.s, g, o.s, g', r)
    requires forall q, u: nat {:trigger Content(o.s, g', q, u)} :: q in g.origin ==> Content(o.s, g', q, u) == Content(os.s, g, q, u)
    ensures OsInv(os.(s := o.s, cr3 := r), g') && Private(os, g, os.(s := o.s, cr3 := r), g', r)
    ensures SpaceOf(o.s, r) == SpaceOf(os.s, r)
  {
    RunningKnown(os, g, r);
    OsKept(os, g, o.s, g', r);
    SpaceUnchanged(os.s, g, r, o.s, g', r);
    PrivateIf(os, g, o.s, g', r);
  }

  lemma DemandFault(os: Os, g: Ghost, r: nat, a: LinearAddress, write: bool) returns (g': Ghost)
    requires OsInv(os, g) && Running(os, r) && UserAddress(a)
    requires Flat(os.s, g, r, a.Vpn()).None? && a.Vpn() !in SpaceOf(os.s, r) && Walk(os.s, r, 4, a).None?
    ensures var o := HandlePageFault(os.s, r, os.apps[r].demand, false, write, true, a);
      && AccessDone(os, g, o, g', r, a, write) && AccessPossible(os, r, a, write, o.ok, Full(o.s))
      && (!Entitled(os, r, a) ==> o == Outcome(os.s, false))
  {
    hide AccessDone, Inv, SetupPageMaps, CopyOnePage, Flat, Walk, SpaceOf, Full;
    var d := os.apps[r].demand;
    if d.begin <= Value(a) < d.end {
      g' := DemandPage(os, g, r, a, write);
    } else {
      g' := g;
      NothingGiven(os, g, r, a, write);
    }
  }

  /** The state after an access that was turned down. */
  lemma NothingGiven(os: Os, g: Ghost, r: nat, a: LinearAddress, write: bool)
    requires OsInv(os, g) && Running(os, r)
    ensures AccessDone(os, g, Outcome(os.s, false), g, r, a, write)
  {
    NothingDone(os.s, g, r, 0, false);
    assert r in g.origin;
    hide Inv, Grown, SpaceOf, Private, FillZero, Content, Flat;
    OsKept(os, g, os.s, g, r);
    PrivateIf(os, g, os.s, g, r);
  }

  lemma DemandPage(os: Os, g: Ghost, r: nat, a: LinearAddress, write: bool) returns (g': Ghost)
    requires OsInv(os, g) && Running(os, r) && UserAddress(a)
    requires Flat(os.s, g, r, a.Vpn()).None?
    ensures var q := SetupPageMaps(os.s, r, a, 1, true);
      && AccessDone(os, g, Outcome(q.s, q.ok), g', r, a, write) && (!q.ok ==> Full(q.s))
  {
    hide SetupPageMaps;
    var v := a.Vpn();
    VpnBounds(a);
    OnlyPage(os, g, r, a);
    var m: nat;
    g', m := MapStep(os, g, r, a, 1, true);
    var q := SetupPageMaps(os.s, r, a, 1, true);
    assert Flat(q.s, g', r, v) == Flat(q.s, g', r, v);
    FillZeroNothing(SpaceOf(os.s, r), v);
    hide OsInv, Private, SpaceOf, FillZero, Full;
  }

  lemma FillZeroNothing(sp: map<nat, Frame>, v: nat)
    ensures FillZero(sp, v, v) == sp
  {
  }

  lemma OnlyPage(os: Os, g: Ghost, r: nat, a: LinearAddress)
    requires OsInv(os, g) && Running(os, r) && UserAddress(a) && Flat(os.s, g, r, a.Vpn()).None?
    ensures Mappable(os, g, r, a, 1, true)
  {
    VpnBounds(a);
    forall u | a.Vpn() <= u < a.Vpn() + 1 && u < USER_END ensures Walk(os.s, r, 4, PageAddress(u)).None? {
      PageAddressVpn(u);
      WalkIsFlat(os.s, g, r, PageAddress(u));
    }
  }

  /** A word written to a page that no other space can reach. */
  lemma WritePage(os: Os, g: Ghost, r: nat, a: LinearAddress, off: Index, word: PageMapEntry)
    requires OsInv(os, g) && UserAddress(a) && (Running(os, r) || r in os.building)
    requires Flat(os.s, g, r, a.Vpn()).Some? && (Running(os, r) ==> Flat(os.s, g, r, a.Vpn()).value.writeable)
    ensures
      var s' := Put(os.s, Flat(os.s, g, r, a.Vpn()).value.addr, off, word);
      && OsInv(os.(s := s', cr3 := r), g) && Private(os, g, os.(s := s', cr3 := r), g, r)
      && SpaceOf(s', r) == PutWord(SpaceOf(os.s, r), a.Vpn(), off, word)
  {
    var s := os.s;
    var v := a.Vpn();
    var f := Flat(s, g, r, v).value.addr;
    var s' := Put(s, f, off, word);
    PageFrame(s, g, r, v);
    assert g.own[f] == Place(r, 0, v);
    PageWriteInv(s, g, f, off, word);
    BootedKept(os, g, s', g, r);
    forall x | 0 <= x < |s.used| ensures s'.used[x] <==> s.used[x] || x in g.own { OwnedFrameUsed(s, g, x); }
    forall q, u: nat | q in g.origin
      ensures Content(s', g, q, u) ==
              if q == r && u == v then Some(Load(s, f)[off := word]) else Content(s, g, q, u)
    {
      FlatSame(s, g, f, off, word, q, u);
      if Flat(s, g, q, u).Some? { PageFrame(s, g, q, u); }
    }
    WrittenSpace(os, g, r, v, s', Load(s, f)[off := word], off, word);
  }

  lemma FlatSame(s: Phys, g: Ghost, f: nat, off: Index, word: PageMapEntry, q: nat, u: nat)
    requires Inv(s, g) && f in g.own && g.own[f].level == 0
    ensures Flat(Put(s, f, off, word), g, q, u) == Flat(s, g, q, u)
  {
    var p := Place(q, 1, u / 512);
    if p in g.tab { assert PlaceOk(s, g, p); }
  }

  lemma PageWriteInv(s: Phys, g: Ghost, f: nat, off: Index, word: PageMapEntry)
    requires Inv(s, g) && f in g.own && g.own[f].level == 0
    ensures Inv(Put(s, f, off, word), g)
  {
    var s' := Put(s, f, off, word);
    forall q | q in g.tab ensures PlaceOk(s', g, q) { assert PlaceOk(s, g, q); }
    forall q, j: Index | q in g.tab && 1 <= q.level && q.root in g.origin ensures EntryOk(s', g, q, j) {
      assert EntryOk(s, g, q, j) && PlaceOk(s, g, q);
      EntryFrame(s, g, s', g, q, j);
    }
  }

  lemma WrittenSpace(os: Os, g: Ghost, r: nat, v: nat, s': Phys, x: Frame, off: Index, word: PageMapEntry)
    requires OsInv(os, g) && r in g.origin && Inv(s', g) && USER_BEGIN <= v < USER_END
    requires Content(os.s, g, r, v).Some? && x == Content(os.s, g, r, v).value[off := word]
    requires forall u: nat {:trigger Content(s', g, r, u)} ::
      Content(s', g, r, u) == if u == v then Some(x) else Content(os.s, g, r, u)
    ensures SpaceOf(s', r) == PutWord(SpaceOf(os.s, r), v, off, word)
  {
    SpaceIsContent(os.s, g, r);
    SpaceIsContent(s', g, r);
    var sp := PutWord(SpaceOf(os.s, r), v, off, word);
    assert Content(os.s, g, r, v) == Content(os.s, g, r, v);
    assert v in SpaceOf(os.s, r) && sp == SpaceOf(os.s, r)[v := x];
    hide *;
    forall u: nat | USER_BEGIN <= u < USER_END
      ensures (u in SpaceOf(s', r) <==> u in sp) && (u in sp ==> SpaceOf(s', r)[u] == sp[u])
    {
      assert Content(s', g, r, u) == if u == v then Some(x) else Content(os.s, g, r, u);
    }
    SameSpace(SpaceOf(s', r), sp);
  }
}
