/** Every run of guarded events is a run of the simple machine. */
module Runs {
  import opened Wrappers
  import opened FrameSearch
  import opened PhysicalMemory
  import opened PageTables
  import opened Ownership
  import opened Mapping
  import opened Sharing
  import opened Reclaim
  import opened Faults
  import opened Lifecycle
  import opened IdentityMap
  import opened Spaces
  import opened Refinement
  import opened Programs
  import opened KernelStores

  /** An event has done to the real memories what it does to the simple machine. */
  ghost predicate EventDone(os: Os, g: Ghost, ev: Event, g': Ghost, h: Chance) {
    OsInv(Step(os, ev), g') && Abs(Step(os, ev)) == SpecStep(Abs(os), ev, h) && Possible(os, ev, h)
  }

  lemma Idle(os: Os, r: nat)
    ensures r in Abs(os) ==> Abs(os)[r := Abs(os)[r]] == Abs(os)
  {
  }

  lemma MapEvent(os: Os, g: Ghost, r: nat, a: LinearAddress, n: nat, w: bool) returns (g': Ghost, h: Chance)
    requires Mappable(os, g, r, a, n, w)
    ensures EventDone(os, g, if w then MapPages(r, a, n) else MapImage(r, a, n), g', h)
  {
    hide SetupPageMaps, Inv, SetupOk, SpaceOf, FillZero, NoSharedPage;
    var m: nat;
    g', m := MapStep(os, g, r, a, n, w);
    h := Chance(0, m, true);
    AbsChanges(os, g, os.(s := SetupPageMaps(os.s, r, a, n, w).s, cr3 := r), g', r);
  }

  lemma VoidMap(os: Os, g: Ghost, r: nat, a: LinearAddress, n: nat, w: bool) returns (h: Chance)
    requires OsInv(os, g) && !(UserAddress(a) && if w then Running(os, r) else r in os.building)
    ensures EventDone(os, g, if w then MapPages(r, a, n) else MapImage(r, a, n), g, h)
  {
    h := Chance(0, a.Vpn(), true);
    if r in Abs(os) {
      FillZeroNothing(Abs(os)[r], a.Vpn());
      Idle(os, r);
    }
  }

  lemma WriteImageEvent(os: Os, g: Ghost, t: nat, a: LinearAddress, off: Index, word: PageMapEntry) returns (h: Chance)
    requires OsInv(os, g)
    ensures EventDone(os, g, WriteImage(t, a, off, word), g, h)
  {
    hide Inv, SpaceOf;
    h := Chance(0, 0, UserAddress(a) && t in os.building);
    if h.ok {
      SpaceAt(os, g, t, a);
      if Walk(os.s, t, 4, a).Some? {
        WritePage(os, g, t, a, off, word);
        AbsChanges(os, g, Step(os, WriteImage(t, a, off, word)), g, t);
      }
    }
  }

  lemma ReadEvent(os: Os, g: Ghost, r: nat, a: LinearAddress) returns (g': Ghost, h: Chance)
    requires OsInv(os, g) && Running(os, r) && UserAddress(a)
    ensures EventDone(os, g, Read(r, a), g', h)
  {
    hide Inv, SpaceOf, Access, FillZero;
    g' := AccessStep(os, g, r, a, false);
    var o := Access(os.s, r, os.apps[r].demand, a, false);
    h := Chance(0, 0, o.ok);
    AbsChanges(os, g, os.(s := o.s, cr3 := r), g', r);
    Idle(os, r);
  }

  lemma WriteEvent(os: Os, g: Ghost, r: nat, a: LinearAddress, off: Index, word: PageMapEntry) returns (g': Ghost, h: Chance)
    requires OsInv(os, g) && Running(os, r) && UserAddress(a)
    ensures EventDone(os, g, Write(r, a, off, word), g', h)
  {
    hide Inv, SpaceOf, Access, FillZero, Permits, Walk, PutWord;
    g' := AccessStep(os, g, r, a, true);
    var o := Access(os.s, r, os.apps[r].demand, a, true);
    var os1 := os.(s := o.s, cr3 := r);
    h := Chance(0, 0, o.ok);
    AbsChanges(os, g, os1, g', r);
    if o.ok {
      PermitsIsFlat(o.s, g', r, a, true);
      SpaceAt(os1, g', r, a);
      WritePage(os1, g', r, a, off, word);
      AbsChanges(os1, g', os1.(s := Put(o.s, Flat(o.s, g', r, a.Vpn()).value.addr, off, word)), g', r);
    } else {
      Idle(os, r);
    }
  }

  /** The books after a new space has been made. */
  ghost predicate Born(os: Os, g: Ghost, s1: Phys, g1: Ghost, f: nat, t: nat) {
    && Inv(s1, g1) && g1.detached.None? && g1.origin == g.origin[f := t] && f !in g.origin && f < |os.s.used| && !os.s.used[f]
    && Booted(os.(s := s1, cr3 := f), g1) && OthersKept(os.s, g, s1, g1, f)
  }

  lemma NewSpaceStep(os: Os, g: Ghost, t: Option<nat>) returns (g1: Ghost)
    requires OsInv(os, g) && SetupPML4(os.s, os.cr3).frame.Some? && (t.Some? ==> t.value in os.templates)
    ensures var n := SetupPML4(os.s, os.cr3);
      var f := n.frame.value;
      && g1 == WithRoot(g, f, if t.Some? then t.value else f)
      && Born(os, g, n.s, g1, f, if t.Some? then t.value else f)
      && (forall u: nat :: Flat(n.s, g1, f, u).None?) && (forall i: Index :: i >= 256 ==> Get(n.s, f, i) == ZERO_ENTRY)
  {
    hide Inv, SetupPML4;
    CurrentTable(os, g);
    g1 := NewSpace(os.s, g, os.cr3, t);
    var n := SetupPML4(os.s, os.cr3);
    forall f <- Static(os.kernel) ensures f != n.frame.value && Load(n.s, f) == Load(os.s, f) {}
    BootedKept(os, g, n.s, g1, n.frame.value);
  }

  lemma SetupFull(s: Phys, cr3: nat)
    requires Sized(s)
    ensures SetupPML4(s, cr3).frame.None? ==> SetupPML4(s, cr3).s == s && Full(s)
  {
    NewPageMapFacts(s);
  }

  lemma LiveKept(os: Os, g: Ghost, s1: Phys, g1: Ghost, f: nat, q: nat)
    requires OsInv(os, g) && Inv(s1, g1) && g1.detached.None? && OthersKept(os.s, g, s1, g1, f) && f !in g.origin && q in Live(os)
    requires q in g1.origin
    ensures SpaceOf(s1, q) == SpaceOf(os.s, q)
  {
    SpaceUnchanged(os.s, g, q, s1, g1, q);
  }

  lemma BuildingInv(os: Os, g: Ghost, s1: Phys, g1: Ghost, f: nat)
    requires OsInv(os, g) && Born(os, g, s1, g1, f, f)
    ensures OsInv(os.(s := s1, cr3 := f, building := os.building + {f}), g1)
  {
    hide Inv, Identity, KernelHalf, OthersKept;
  }

  lemma NewTemplateEvent(os: Os, g: Ghost) returns (g': Ghost, h: Chance)
    requires OsInv(os, g)
    ensures EventDone(os, g, NewTemplate, g', h)
  {
    hide Inv, SetupPML4, SpaceOf;
    InvSized(os.s, g);
    SetupFull(os.s, os.cr3);
    var n := SetupPML4(os.s, os.cr3);
    if n.frame.None? {
      g' := g;
      h := Chance(0, 0, false);
    } else {
      var f := n.frame.value;
      g' := NewSpaceStep(os, g, None);
      h := Chance(f, 0, true);
      BuildingInv(os, g, n.s, g', f);
      hide OsInv, Flat, OriginOf;
      EmptySpace(n.s, g', f);
      forall q | q in Live(os) ensures SpaceOf(n.s, q) == SpaceOf(os.s, q) { LiveKept(os, g, n.s, g', f, q); }
      assert Live(Step(os, NewTemplate)) == Live(os) + {f};
    }
  }

  lemma InvSized(s: Phys, g: Ghost)
    requires Inv(s, g)
    ensures Sized(s)
  {
  }

  lemma EmptySpace(s: Phys, g: Ghost, f: nat)
    requires Inv(s, g) && g.detached.None? && f in g.origin && forall u: nat :: Flat(s, g, f, u).None?
    ensures SpaceOf(s, f) == NoPages()
  {
    SpaceIsContent(s, g, f);
    forall u: nat | USER_BEGIN <= u < USER_END ensures u !in SpaceOf(s, f) {
      assert Content(s, g, f, u).None?;
    }
    SameSpace(SpaceOf(s, f), NoPages());
  }

  /** CopyPageMaps makes the new space read exactly what the template holds. */
  lemma LaunchCopy(os: Os, g: Ghost, s1: Phys, g1: Ghost, f: nat, t: nat) returns (g2: Ghost)
    requires OsInv(os, g) && t in os.templates && Born(os, g, s1, g1, f, t) && g1 == WithRoot(g, f, t)
    requires (forall u: nat :: Flat(s1, g1, f, u).None?) && (forall i: Index :: i >= 256 ==> Get(s1, f, i) == ZERO_ENTRY)
    ensures var c := CopyPageMaps(s1, f, t, 4, 256);
      && Born(os, g, c.s, g2, f, t) && Claimed(s1, g1, c.s, g2, f)
      && (c.ok ==> SpaceOf(c.s, f) == SpaceOf(os.s, t)) && (!c.ok ==> Full(c.s))
  {
    hide CopyPageMaps;
    var c := CopyPageMaps(s1, f, t, 4, 256);
    assert RootOk(g1, f) && RootOk(g1, t) && PlaceOk(s1, g1, Place(f, 4, 0)) && PlaceOk(s1, g1, Place(t, 4, 0));
    assert Bare(s1, g1, Place(f, 4, 0), 256);
    g2 := CopyKeeps(s1, g1, f, 4, 0, f, t, 256);
    CopyFails(s1, f, t, 4, 256);
    NoneIsFull(c.s);
    forall x <- Static(os.kernel) ensures Load(c.s, x) == Load(s1, x) && x !in g2.own && c.s.used[x] { assert !IsTable(g1, f, x); }
    BootedKept(os.(s := s1, cr3 := f), g1, c.s, g2, f);
    forall q, u: nat | q in g.origin && q != f ensures Content(c.s, g2, q, u) == Content(os.s, g, q, u) {
      GrownContent(s1, g1, c.s, g2, f, q, u);
      assert Content(s1, g1, q, u) == Content(os.s, g, q, u);
    }
    if c.ok {
      LaunchSpace(os, g, s1, g1, c.s, g2, f, t);
    }
  }

  lemma LaunchSpace(os: Os, g: Ghost, s1: Phys, g1: Ghost, s2: Phys, g2: Ghost, f: nat, t: nat)
    requires OsInv(os, g) && t in os.templates && t != f && f in g1.origin && t in g1.origin && g1.origin == g2.origin
    requires Inv(s1, g1) && Inv(s2, g2) && g2.detached.None? && Grown(s1, g1, s2, g2, f)
    requires Copied(s1, g1, s2, g2, f, t, 4, 0, 256, true)
    requires forall u: nat :: Flat(s1, g1, f, u).None?
    requires OthersKept(os.s, g, s2, g2, f)
    ensures SpaceOf(s2, f) == SpaceOf(os.s, t)
  {
    SpaceIsContent(os.s, g, t);
    SpaceIsContent(s2, g2, f);
    forall u: nat | USER_BEGIN <= u < USER_END ensures Content(s2, g2, f, u) == Content(os.s, g, t, u) {
      LaunchPage(os, g, s1, g1, s2, g2, f, t, u);
    }
    hide *;
    forall u: nat | USER_BEGIN <= u < USER_END
      ensures (u in SpaceOf(s2, f) <==> u in SpaceOf(os.s, t)) && (u in SpaceOf(s2, f) ==> SpaceOf(s2, f)[u] == SpaceOf(os.s, t)[u])
    {
      assert Content(s2, g2, f, u) == Content(os.s, g, t, u);
    }
    SameSpace(SpaceOf(s2, f), SpaceOf(os.s, t));
  }

  lemma LaunchPage(os: Os, g: Ghost, s1: Phys, g1: Ghost, s2: Phys, g2: Ghost, f: nat, t: nat, u: nat)
    requires t != f && t in g.origin && Inv(s1, g1) && Grown(s1, g1, s2, g2, f) && Copied(s1, g1, s2, g2, f, t, 4, 0, 256, true)
    requires OthersKept(os.s, g, s2, g2, f) && USER_BEGIN <= u < USER_END
    ensures Content(s2, g2, f, u) == Content(os.s, g, t, u)
  {
    UserLift(u);
    assert PageCopied(s1, g1, s2, g2, f, t, 4, 0, 256, true, u);
    OtherSpace(s1, g1, s2, g2, f, t, u);
    assert Content(s2, g2, t, u) == Content(os.s, g, t, u);
  }

  lemma UserLift(u: nat)
    requires USER_BEGIN <= u < USER_END
    ensures Lift(u, 4) == 0 && Lift(u, 3) >= 256
  {
    PageAddressVpn(u);
    PrefixIsLift(PageAddress(u), 4);
    PrefixIsLift(PageAddress(u), 3);
  }

  /** The kernel's books after a program has been entered in them. */
  function WithApp(os: Os, s: Phys, f: nat, t: nat, ok: bool): Os {
    os.(s := s, cr3 := f, apps := os.apps[f := App(t, DemandRange(0, 0), ok)])
  }

  lemma WithAppInv(os: Os, g: Ghost, s: Phys, g': Ghost, f: nat, t: nat, ok: bool)
    requires OsInv(os, g) && t in os.templates && Born(os, g, s, g', f, t)
    ensures OsInv(WithApp(os, s, f, t, ok), g') && f !in Live(os)
    ensures Live(WithApp(os, s, f, t, ok)) == if ok then Live(os) + {f} else Live(os)
  {
    hide Inv, Identity;
  }

  lemma WithAppAbs(os: Os, g: Ghost, s: Phys, g': Ghost, f: nat, t: nat, ok: bool)
    requires OsInv(os, g) && t in os.templates && Born(os, g, s, g', f, t) && (ok ==> SpaceOf(s, f) == SpaceOf(os.s, t))
    ensures Abs(WithApp(os, s, f, t, ok)) == if ok then Abs(os)[f := Abs(os)[t]] else Abs(os)
  {
    hide Inv, Identity, SpaceOf, OthersKept;
    WithAppInv(os, g, s, g', f, t, ok);
    forall q | q in Live(os) ensures SpaceOf(s, q) == SpaceOf(os.s, q) { LiveKept(os, g, s, g', f, q); }
  }

  lemma LaunchEvent(os: Os, g: Ghost, t: nat) returns (g': Ghost, h: Chance)
    requires OsInv(os, g) && t in os.templates
    ensures EventDone(os, g, Launch(t), g', h)
  {
    hide Inv, SetupPML4, CopyPageMaps, SpaceOf, OsInv, Born;
    assert Sized(os.s) by { InvOf(os, g); }
    SetupFull(os.s, os.cr3);
    var n := SetupPML4(os.s, os.cr3);
    if n.frame.None? {
      g' := g;
      h := Chance(0, 0, false);
      assert Step(os, Launch(t)) == os;
    } else {
      var f := n.frame.value;
      var g1 := NewSpaceStep(os, g, Some(t));
      var c := CopyPageMaps(n.s, f, t, 4, 256);
      g' := LaunchCopy(os, g, n.s, g1, f, t);
      h := Chance(f, 0, c.ok);
      WithAppInv(os, g, c.s, g', f, t, c.ok);
      WithAppAbs(os, g, c.s, g', f, t, c.ok);
      assert t in Abs(os);
    }
  }

  lemma InvOf(os: Os, g: Ghost)
    requires OsInv(os, g)
    ensures Inv(os.s, g) && Sized(os.s)
  {
  }

  lemma RegisterEvent(os: Os, g: Ghost, t: nat) returns (h: Chance)
    requires OsInv(os, g)
    ensures EventDone(os, g, Register(t), g, h)
  {
    hide Inv, SpaceOf;
    h := Chance(0, 0, true);
    assert Live(Step(os, Register(t))) == Live(os);
  }

  lemma SetDemandEvent(os: Os, g: Ghost, r: nat, d: DemandRange) returns (h: Chance)
    requires OsInv(os, g)
    ensures EventDone(os, g, SetDemand(r, d), g, h)
  {
    hide Inv, SpaceOf;
    h := Chance(0, 0, true);
    assert Live(Step(os, SetDemand(r, d))) == Live(os);
  }

  /** CleanPageMaps and FreePML4 remove one space and touch no other. */
  lemma ExitStep(os: Os, g: Ghost, r: nat) returns (g1: Ghost)
    requires OsInv(os, g) && Running(os, r) && (Get(os.s, r, 256).present || ZeroIdle(os.s))
    ensures
      var s1 := CleanPageMaps(os.s, r, 256);
      var s2 := Free(s1, r);
      && Inv(s1, g1) && g1.detached.None? && g1.origin == g.origin && Freed(os.s, g, s1, g1, r, 4, 0, 256, 257)
      && Inv(s2, WithoutSpace(g1, r)) && OthersKept(os.s, g, s2, WithoutSpace(g1, r), r)
      && Booted(os.(s := s2, cr3 := os.kernel.pml4), WithoutSpace(g1, r))
  {
    hide CleanPageMaps;
    RunningKnown(os, g, r);
    g1 := CleanSlot(os.s, g, r, 256);
    var s1 := CleanPageMaps(os.s, r, 256);
    DropSpace(s1, g1, r);
    DropContent(s1, g1, r);
    RootUsed(os.s, g, r);
    forall f <- Static(os.kernel) ensures f != r && Load(s1, f) == Load(os.s, f) && s1.used[f] && f !in g1.own {
      assert !IsTable(g, r, f);
    }
    BootedKept(os, g, Free(s1, r), WithoutSpace(g1, r), os.kernel.pml4);
    forall q, u: nat | q in g.origin && q != r
      ensures Content(Free(s1, r), WithoutSpace(g1, r), q, u) == Content(os.s, g, q, u)
    {
      assert Content(s1, g1, q, u) == Content(os.s, g, q, u);
    }
  }

  lemma ExitInv(os: Os, g: Ghost, r: nat, s2: Phys, g1: Ghost)
    requires OsInv(os, g) && Running(os, r) && g1.origin == g.origin && g1.detached.None?
    requires Inv(s2, WithoutSpace(g1, r)) && Booted(os.(s := s2, cr3 := os.kernel.pml4), WithoutSpace(g1, r))
    ensures OsInv(os.(s := s2, cr3 := os.kernel.pml4, apps := os.apps - {r}), WithoutSpace(g1, r))
    ensures forall q :: q in g.origin && q != r <==> q in WithoutSpace(g1, r).origin
    ensures forall q :: q in Live(os) ==> q in g.origin
    ensures g.detached.None? && Inv(os.s, g)
  {
    hide Inv, Identity, KernelHalf;
  }

  lemma ExitEvent(os: Os, g: Ghost, r: nat) returns (g': Ghost, h: Chance)
    requires OsInv(os, g) && Running(os, r) && (Get(os.s, r, 256).present || ZeroIdle(os.s))
    ensures EventDone(os, g, Exit(r), g', h)
  {
    hide Inv, CleanPageMaps, SpaceOf, Freed, ZeroIdle;
    var g1 := ExitStep(os, g, r);
    g' := WithoutSpace(g1, r);
    h := Chance(0, 0, true);
    var os' := Step(os, Exit(r));
    ExitInv(os, g, r, os'.s, g1);
    hide OsInv, OriginOf;
    assert Live(os') == Live(os) - {r};
    forall q | q in Live(os') ensures SpaceOf(os'.s, q) == SpaceOf(os.s, q) {
      SpaceUnchanged(os.s, g, q, os'.s, g', q);
    }
  }

  /** An access outside the user half that is refused. */
  lemma RefusedEvent(os: Os, g: Ghost, r: nat, a: LinearAddress, write: bool) returns (h: Chance)
    requires OsInv(os, g) && Running(os, r) && !UserAddress(a) && Refused(os, r, a, write)
    ensures !write ==> EventDone(os, g, Read(r, a), g, h)
    ensures write ==> forall off: Index, word :: EventDone(os, g, Write(r, a, off, word), g, h)
  {
    hide Inv, SpaceOf, Access, Permits, Walk;
    RefusedAccess(os, g, r, a, write);
    OutsideAccess(os, g, r, a);
    h := Chance(0, 0, false);
    assert Live(os.(cr3 := r)) == Live(os);
  }

  /** A store to the first 2 MiB. */
  lemma LowStoreEvent(os: Os, g: Ghost, r: nat, a: LinearAddress, off: Index, word: PageMapEntry) returns (h: Chance)
    requires OsInv(os, g) && Running(os, r) && Lowest(a)
    ensures EventDone(os, g, Write(r, a, off, word), g, h)
  {
    hide Inv, SpaceOf, UserStore, Booted;
    LowStore(os, g, r, a, off, word);
    h := Chance(0, 0, false);
    assert Live(Step(os, Write(r, a, off, word))) == Live(os);
    forall q | q in Live(os) ensures q in g.origin {}
  }

  lemma VoidAccess(os: Os, g: Ghost, r: nat, a: LinearAddress) returns (h: Chance)
    requires OsInv(os, g) && !Running(os, r)
    ensures EventDone(os, g, Read(r, a), g, h) && forall off: Index, word :: EventDone(os, g, Write(r, a, off, word), g, h)
  {
    h := Chance(0, 0, false);
  }

  /** One event, whatever it is, does to the real memories what it does to private ones. */
  lemma StepRefines(os: Os, g: Ghost, ev: Event) returns (g': Ghost, h: Chance)
    requires OsInv(os, g) && Guarded(os, ev)
    ensures EventDone(os, g, ev, g', h)
  {
    hide Inv, OsInv, EventDone, Step;
    g' := g;
    match ev
    case NewTemplate => g', h := NewTemplateEvent(os, g);
    case MapImage(t, a, n) =>
      if UserAddress(a) && t in os.building { g', h := MapEvent(os, g, t, a, n, false); } else { h := VoidMap(os, g, t, a, n, false); }
    case WriteImage(t, a, off, word) => h := WriteImageEvent(os, g, t, a, off, word);
    case Register(t) => h := RegisterEvent(os, g, t);
    case Launch(t) => if t in os.templates { g', h := LaunchEvent(os, g, t); } else { h := VoidLaunch(os, g, t); }
    case MapPages(r, a, n) =>
      if UserAddress(a) && Running(os, r) { g', h := MapEvent(os, g, r, a, n, true); } else { h := VoidMap(os, g, r, a, n, true); }
    case SetDemand(r, d) => h := SetDemandEvent(os, g, r, d);
    case Read(r, a) =>
      if !Running(os, r) { h := VoidAccess(os, g, r, a); }
      else if UserAddress(a) { g', h := ReadEvent(os, g, r, a); }
      else { h := RefusedEvent(os, g, r, a, false); }
    case Write(r, a, off, word) =>
      if !Running(os, r) { h := VoidAccess(os, g, r, a); }
      else if UserAddress(a) { g', h := WriteEvent(os, g, r, a, off, word); }
      else if Refused(os, r, a, true) { h := RefusedEvent(os, g, r, a, true); }
      else { h := LowStoreEvent(os, g, r, a, off, word); }
    case Exit(r) => if Running(os, r) { g', h := ExitEvent(os, g, r); } else { h := VoidExit(os, g, r); }
  }

  lemma VoidLaunch(os: Os, g: Ghost, t: nat) returns (h: Chance)
    requires OsInv(os, g) && t !in os.templates
    ensures EventDone(os, g, Launch(t), g, h)
  {
    h := Chance(0, 0, false);
  }

  lemma VoidExit(os: Os, g: Ghost, r: nat) returns (h: Chance)
    requires OsInv(os, g) && !Running(os, r)
    ensures EventDone(os, g, Exit(r), g, h)
  {
    h := Chance(0, 0, false);
  }

  function Run(os: Os, evs: seq<Event>): Os
    decreases |evs|
  {
    if evs == [] then os else Run(Step(os, evs[0]), evs[1..])
  }

  predicate GuardedRun(os: Os, evs: seq<Event>)
    decreases |evs|
  {
    evs == [] || (Guarded(os, evs[0]) && GuardedRun(Step(os, evs[0]), evs[1..]))
  }

  function SpecRun(m: map<nat, map<nat, Frame>>, evs: seq<Event>, hs: seq<Chance>): map<nat, map<nat, Frame>>
    requires |hs| == |evs|
    decreases |evs|
  {
    if evs == [] then m else SpecRun(SpecStep(m, evs[0], hs[0]), evs[1..], hs[1..])
  }

  ghost predicate PossibleRun(os: Os, evs: seq<Event>, hs: seq<Chance>)
    requires |hs| == |evs|
    decreases |evs|
  {
    evs == [] || (Possible(os, evs[0], hs[0]) && PossibleRun(Step(os, evs[0]), evs[1..], hs[1..]))
  }

  /** Copy-on-write memory refines private memory, over every guarded run. */
  lemma RunRefines(os: Os, g: Ghost, evs: seq<Event>) returns (g': Ghost, hs: seq<Chance>)
    requires OsInv(os, g) && GuardedRun(os, evs)
    ensures OsInv(Run(os, evs), g')
    ensures |hs| == |evs| && PossibleRun(os, evs, hs) && Abs(Run(os, evs)) == SpecRun(Abs(os), evs, hs)
    decreases |evs|
  {
    hide OsInv, Step, Guarded, Possible, Abs, SpecStep;
    if evs == [] {
      g', hs := g, [];
    } else {
      var g1, h := StepRefines(os, g, evs[0]);
      var rest;
      g', rest := RunRefines(Step(os, evs[0]), g1, evs[1..]);
      hs := [h] + rest;
      assert hs[1..] == rest;
    }
  }

  /** The space that an event is about. */
  predicate Concerns(ev: Event, r: nat) {
    match ev
    case NewTemplate => false
    case MapImage(t, _, _) => t == r
    case WriteImage(t, _, _, _) => t == r
    case Register(_) => false
    case Launch(_) => false
    case MapPages(q, _, _) => q == r
    case SetDemand(_, _) => false
    case Read(q, _) => q == r
    case Write(q, _, _, _) => q == r
    case Exit(q) => q == r
  }

  lemma SpecIsolation(os: Os, ev: Event, h: Chance, r: nat)
    requires Possible(os, ev, h) && r in Live(os) && !Concerns(ev, r)
    ensures r in SpecStep(Abs(os), ev, h) && SpecStep(Abs(os), ev, h)[r] == Abs(os)[r]
  {
    hide SpaceOf, FillZero, PutWord, AccessPossible, Full, Step;
  }

  /** No run of other spaces' events changes a single word that space `r` reads. */
  lemma Isolation(os: Os, g: Ghost, evs: seq<Event>, r: nat)
    requires OsInv(os, g) && GuardedRun(os, evs) && r in Live(os)
    requires forall k :: 0 <= k < |evs| ==> !Concerns(evs[k], r)
    ensures r in Live(Run(os, evs)) && SpaceOf(Run(os, evs).s, r) == SpaceOf(os.s, r)
    decreases |evs|
  {
    hide OsInv, Step, Guarded, Possible, SpecStep, Live, SpaceOf;
    if evs != [] {
      var g1, h := StepRefines(os, g, evs[0]);
      SpecIsolation(os, evs[0], h, r);
      assert Abs(Step(os, evs[0]))[r] == Abs(os)[r];
      Isolation(Step(os, evs[0]), g1, evs[1..], r);
    }
  }

  /** Memory at the end of boot: the allocator is set up and the kernel's tables hold the identity map. */
  ghost predicate AtBoot(s: Phys, k: KernelTables) {
    Sized(s) && Identity(s, k) && forall f <- Static(k) :: 0 < f < |s.used| && s.used[f]
  }

  /** After boot there are no spaces, and the kernel's own table is the one in use. */
  function BootOs(s: Phys, k: KernelTables): Os { Os(s, k, k.pml4, {}, {}, map[]) }

  lemma BootInv(s: Phys, k: KernelTables) returns (g: Ghost)
    requires AtBoot(s, k)
    ensures OsInv(BootOs(s, k), g)
  {
    g := Ghost(map[], map[], map[], None, Load(s, k.pml4));
  }

  /** Everything that happens after boot is a run of the simple machine from no spaces at all. */
  lemma FromBoot(s: Phys, k: KernelTables, evs: seq<Event>) returns (hs: seq<Chance>)
    requires AtBoot(s, k) && GuardedRun(BootOs(s, k), evs)
    ensures |hs| == |evs| && PossibleRun(BootOs(s, k), evs, hs)
    ensures Abs(Run(BootOs(s, k), evs)) == SpecRun(map[], evs, hs)
  {
    hide OsInv, PossibleRun, SpecRun, Run, GuardedRun;
    var g := BootInv(s, k);
    var g';
    g', hs := RunRefines(BootOs(s, k), g, evs);
    assert Abs(BootOs(s, k)) == map[];
  }
}
