/** What a program's accesses outside the user half do: exactly which of them the kernel gets wrong. */
module Outside {
  import opened Wrappers
  import opened FrameSearch
  import opened PhysicalMemory
  import opened PageTables
  import opened Ownership
  import opened Mapping
  import opened Faults
  import opened Lifecycle
  import opened IdentityMap
  import opened Spaces
  import opened Refinement
  import opened Programs
  import opened KernelStores
  import opened Runs
  import opened FirstRun

  /** SetupPageMap of one page below an empty entry writes its own table and new frames only, and the page is
      one of those. */
  ghost predicate AddedBelow(s: Phys, q: Setup, t: nat, level: nat, a: LinearAddress)
    requires 1 <= level <= 4
  {
    && Undisturbed(s, q.s, t) && (if NewPageMap(s).frame.None? then q.s == s && !q.ok else Get(q.s, t, a.At(level)).user)
    && (q.ok ==> FreshPage(s, Walk(q.s, t, level, a)))
  }

  predicate FreshPage(s: Phys, e: Option<PageMapEntry>) {
    e.Some? && e.value.addr < |s.used| && !s.used[e.value.addr]
  }

  lemma EnteredAbsent(s: Phys, t: nat, level: nat, a: LinearAddress, w: bool)
    requires Sized(s) && 1 <= level <= 4 && t < |s.mem| && s.used[t] && Get(s, t, a.At(level)) == ZERO_ENTRY
    requires NewPageMap(s).frame.Some?
    ensures var s1 := Entered(s, t, level, a, w);
      var f := NewPageMap(s).frame.value;
      && SetNewPageMapIfNotPresent(s, t, a.At(level)).frame == Some(f) && Sized(s1) && Undisturbed(s, s1, t)
      && f < |s1.mem| && !s.used[f] && s1.used[f] && Load(s1, f) == ZeroFrame()
      && Get(s1, t, a.At(level)) == if level == 1 then Leaf(f, w) else Link(f)
  {
    NewPageMapFacts(s);
    FreshEntry(s, t, a.At(level), if level == 1 then w else true);
  }

  lemma {:induction false} SetupAbsent(s: Phys, t: nat, level: nat, a: LinearAddress, w: bool)
    requires Sized(s) && 1 <= level <= 4 && t < |s.mem| && s.used[t] && Get(s, t, a.At(level)) == ZERO_ENTRY
    ensures AddedBelow(s, SetupPageMap(s, t, level, a, 1, w), t, level, a)
    decreases level
  {
    NewPageMapFacts(s);
    if NewPageMap(s).frame.Some? {
      var f := NewPageMap(s).frame.value;
      var s1 := Entered(s, t, level, a, w);
      EnteredAbsent(s, t, level, a, w);
      if level > 1 {
        SetupAbsent(s1, f, level - 1, a, w);
        var sub := SetupPageMap(s1, f, level - 1, a, 1, w);
        SetupDone(s1, f, level - 1, a, w);
        SetupOnce(s, t, level, a, w);
        AddedAbove(s, s1, sub, t, level, a, f);
        hide SetupPageMap, Entered, Sized, AddedBelow;
      }
    }
  }

  lemma AddedAbove(s: Phys, s1: Phys, sub: Setup, t: nat, level: nat, a: LinearAddress, f: nat)
    requires 2 <= level <= 4 && |s.mem| == |s.used| && t < |s.mem| && s.used[t] && f < |s.mem| && !s.used[f]
    requires NewPageMap(s).frame.Some?
    requires Undisturbed(s, s1, t) && s1.used[f] && Get(s1, t, a.At(level)) == Link(f) && AddedBelow(s1, sub, f, level - 1, a)
    ensures AddedBelow(s, sub, t, level, a)
  {
    assert Load(sub.s, t) == Load(s1, t);
    assert sub.ok ==> Walk(sub.s, t, level, a) == Walk(sub.s, f, level - 1, a);
  }

  /** What is left after the table below has been filled. */
  lemma SetupOnce(s: Phys, t: nat, level: nat, a: LinearAddress, w: bool)
    requires 2 <= level <= 4 && SetNewPageMapIfNotPresent(s, t, a.At(level)).frame.Some?
    requires var f := SetNewPageMapIfNotPresent(s, t, a.At(level)).frame.value;
      var sub := SetupPageMap(Entered(s, t, level, a, w), f, level - 1, a, 1, w);
      sub.ok ==> sub.remain == 0
    ensures SetupPageMap(s, t, level, a, 1, w).s ==
            SetupPageMap(Entered(s, t, level, a, w), SetNewPageMapIfNotPresent(s, t, a.At(level)).frame.value, level - 1, a, 1, w).s
    ensures var q := SetupPageMap(s, t, level, a, 1, w); q.ok ==> q.remain == 0
    ensures SetupPageMap(s, t, level, a, 1, w).ok ==
            SetupPageMap(Entered(s, t, level, a, w), SetNewPageMapIfNotPresent(s, t, a.At(level)).frame.value, level - 1, a, 1, w).ok
  {
  }

  /** A demand fault outside the user half: only the table of `r`, the kernel's second table and new frames
      are written. */
  lemma DemandOutside(os: Os, g: Ghost, r: nat, a: LinearAddress)
    requires OsInv(os, g) && Running(os, r) && !UserAddress(a) && !Identical(a)
    ensures var q := SetupPageMaps(os.s, r, a, 1, true);
      && (forall f :: 0 <= f < |os.s.used| && os.s.used[f] && f != r && f != os.kernel.pdp ==> Load(q.s, f) == Load(os.s, f))
      && |q.s.mem| == |os.s.mem| && (q.s == os.s <==> NewPageMap(os.s).frame.None? && a.pml4 != 0)
      && (q.ok ==> FreshPage(os.s, Walk(q.s, r, 4, a)))
  {
    var s := os.s;
    TopEntry(os, g, r, a.pml4);
    RunningKnown(os, g, r);
    if a.pml4 != 0 {
      SetupAbsent(s, r, 4, a, true);
    } else {
      assert os.kernel.pdp in Static(os.kernel) && os.kernel.pdp != r;
      assert Get(s, os.kernel.pdp, a.pDirPointer) == ZERO_ENTRY;
      DemandThrough(s, r, a, os.kernel.pdp);
    }
  }

  lemma DemandThrough(s: Phys, r: nat, a: LinearAddress, pdp: nat)
    requires Sized(s) && a.pml4 == 0 && Get(s, r, 0) == TableEntry(pdp) && r != pdp && r < |s.mem| && pdp < |s.mem|
    requires s.used[r] && s.used[pdp] && Get(s, pdp, a.pDirPointer) == ZERO_ENTRY
    ensures var q := SetupPageMaps(s, r, a, 1, true);
      && (forall f :: 0 <= f < |s.used| && s.used[f] && f != r && f != pdp ==> Load(q.s, f) == Load(s, f))
      && |q.s.mem| == |s.mem| && q.s != s && (q.ok ==> FreshPage(s, Walk(q.s, r, 4, a)))
  {
    var s1 := SetFlags(s, r, 0, true);
    SetupDone(s1, pdp, 3, a, true);
    SetupOnce(s, r, 4, a, true);
    assert Get(s1, pdp, a.pDirPointer) == ZERO_ENTRY && Get(s1, r, 0) == Link(pdp);
    SetupAbsent(s1, pdp, 3, a, true);
    var q := SetupPageMap(s1, pdp, 3, a, 1, true);
    hide SetupPageMap;
    assert Load(q.s, r) == Load(s1, r);
    assert Get(q.s, r, 0).user && !Get(s, r, 0).user;
    assert q.ok ==> Walk(q.s, r, 4, a) == Walk(q.s, pdp, 3, a);
  }

  lemma {:induction false} SetupDone(s: Phys, t: nat, level: nat, a: LinearAddress, w: bool)
    requires 1 <= level <= 4
    ensures var q := SetupPageMap(s, t, level, a, 1, w); q.ok ==> q.remain == 0
    decreases level
  {
    var child := SetNewPageMapIfNotPresent(s, t, a.At(level));
    if child.frame.Some? && level > 1 {
      SetupDone(Entered(s, t, level, a, w), child.frame.value, level - 1, a, w);
      SetupOnce(s, t, level, a, w);
      hide SetupPageMap;
    }
  }

  /** Exactly which accesses outside the user half leave memory and allocator as they were: those that are
      refused and, when no frame is free, those that fail before they have changed anything. */
  lemma HarmlessIff(os: Os, g: Ghost, r: nat, a: LinearAddress, write: bool)
    requires OsInv(os, g) && Running(os, r) && !UserAddress(a)
    ensures Access(os.s, r, os.apps[r].demand, a, write).s == os.s <==>
            Refused(os, r, a, write) || (NewPageMap(os.s).frame.None? && (Identical(a) || a.pml4 != 0))
  {
    OutsideAccess(os, g, r, a);
    if Identical(a) {
      if write { StoreFault(os, g, r, a); }
    } else {
      DemandOutside(os, g, r, a);
    }
  }

  /** What other spaces read lies in frames that they or their templates own. */
  lemma OthersRead(os: Os, g: Ghost, r: nat, s': Phys, q: nat)
    requires OsInv(os, g) && q in g.origin && r in g.origin && q != r
    requires forall f <- g.own :: f != r ==> Load(s', f) == Load(os.s, f)
    ensures SpaceOf(s', q) == SpaceOf(os.s, q)
  {
    forall u: nat | USER_BEGIN <= u < USER_END ensures Visible(s', q, PageAddress(u)) == Visible(os.s, q, PageAddress(u)) {
      OthersPage(os.s, g, r, s', q, u);
    }
  }

  lemma OthersPage(s: Phys, g: Ghost, r: nat, s': Phys, q: nat, u: nat)
    requires Inv(s, g) && g.detached.None? && q in g.origin && r in g.origin && q != r && USER_BEGIN <= u < USER_END
    requires forall f <- g.own :: f != r ==> Load(s', f) == Load(s, f)
    ensures Visible(s', q, PageAddress(u)) == Visible(s, q, PageAddress(u))
  {
    var a := PageAddress(u);
    PageAddressVpn(u);
    WalkIsFlat(s, g, q, a);
    assert RootOk(g, q) && PlaceOk(s, g, Place(q, 4, 0));
    OthersWalk(s, g, r, s', q, 4, a);
    RootUsed(s, g, r);
    if Flat(s, g, q, u).Some? { PageFrame(s, g, q, u); }
  }

  lemma OthersWalk(s: Phys, g: Ghost, r: nat, s': Phys, q: nat, level: nat, a: LinearAddress)
    requires Inv(s, g) && g.detached.None? && q in g.origin && r in g.origin && q != r && 1 <= level <= 4 && a.pml4 >= 256
    requires Place(q, level, a.Prefix(level)) in g.tab
    requires forall f <- g.own :: f != r ==> Load(s', f) == Load(s, f)
    ensures var t := g.tab[Place(q, level, a.Prefix(level))]; Walk(s', t, level, a) == Walk(s, t, level, a)
    decreases level
  {
    var p := Place(q, level, a.Prefix(level));
    assert EntryOk(s, g, p, a.At(level)) && PlaceOk(s, g, p);
    assert p.level == 4 ==> g.tab[p] == q;
    RootUsed(s, g, r);
    Digit(a, level);
    hide LinearAddress.Prefix;
    if level > 1 && Child(p, a.At(level)) in g.tab {
      OthersWalk(s, g, r, s', q, level - 1, a);
    }
  }

  /** The stores outside the user half that can reach another space's memory: those to an address that the
      kernel maps, beyond the first 2 MiB. */
  predicate Reaches(a: LinearAddress) { Identical(a) && !Lowest(a) }

  /** No other store does. */
  lemma StoreMisses(os: Os, g: Ghost, r: nat, a: LinearAddress, off: Index, word: PageMapEntry, q: nat)
    requires OsInv(os, g) && Running(os, r) && !UserAddress(a) && !Reaches(a) && q in Live(os) && q != r
    ensures SpaceOf(Step(os, Write(r, a, off, word)).s, q) == SpaceOf(os.s, q)
  {
    hide SpaceOf, Inv, Identity, Walk, Permits, SetupPageMaps;
    var s' := UserStore(os.s, r, os.apps[r].demand, a, off, word).s;
    RunningKnown(os, g, r);
    LiveKnown(os, g, q);
    OutsideAccess(os, g, r, a);
    forall f <- g.own ensures f != 0 && (f < |os.s.used| ==> os.s.used[f]) && f < |os.s.used| { OwnedUsed(os.s, g, f); }
    if Identical(a) {
      StoreFault(os, g, r, a);
    } else if os.apps[r].demand.begin <= Value(a) < os.apps[r].demand.end {
      DemandOutside(os, g, r, a);
      assert os.kernel.pdp in Static(os.kernel);
    }
    forall f <- g.own | f != r ensures Load(s', f) == Load(os.s, f) {}
    OthersRead(os, g, r, s', q);
  }

  /** In any one state: a store to an identity-mapped address leaves every frame of the other spaces as it is if
      and only if no frame is free, or the 2 MiB page does not begin with one of theirs, or the word that the
      handler writes is there already. */
  lemma StoreSparesIff(os: Os, g: Ghost, r: nat, a: LinearAddress, off: Index, word: PageMapEntry)
    requires OsInv(os, g) && Running(os, r) && Identical(a)
    ensures var s' := Step(os, Write(r, a, off, word)).s;
      (forall f <- g.own :: g.own[f].root != r ==> Load(s', f) == Load(os.s, f)) <==>
      match NewPageMap(os.s).frame
      case None => true
      case Some(f) => (Base(a) in g.own ==> g.own[Base(a)].root == r)
                      || Get(os.s, Base(a), a.pTable) == Get(os.s, Base(a), a.pTable).SetPtr(f).(writeable := true)
  {
    hide Inv, Identity, NewPageMap, PageMapEntry.SetPtr;
    RunningKnown(os, g, r);
    StoreFault(os, g, r, a);
    forall f <- g.own ensures f < |os.s.used| && os.s.used[f] { OwnedUsed(os.s, g, f); }
    if NewPageMap(os.s).frame.Some? {
      var f := NewPageMap(os.s).frame.value;
      var s' := Redirected(Taken(os.s, a, f), a, f);
      forall x <- g.own ensures Load(s', x) == if x == Base(a)
        then Load(os.s, x)[a.pTable := Get(os.s, x, a.pTable).SetPtr(f).(writeable := true)] else Load(os.s, x) {}
      if Base(a) in g.own { assert Get(s', Base(a), a.pTable) == Get(os.s, Base(a), a.pTable).SetPtr(f).(writeable := true); }
    }
  }

  /** The program of the first run stores to any such address: the word of its template's page that has the
      address's page number changes, though the template is another space. */
  lemma StoreReaches(a: LinearAddress, zero: Frame, off: Index, word: PageMapEntry) returns (os: Os, g: Ghost, v: nat)
    requires Reaches(a)
    ensures OsInv(os, g) && os == StartOs(zero, Base(a), SlotStart(256)) && Running(os, Base(a) + 1) && 1 in Live(os)
    ensures var s' := Step(os, Write(Base(a) + 1, a, off, word)).s;
      && v in SpaceOf(os.s, 1) && v in SpaceOf(s', 1) && SpaceOf(os.s, 1)[v][a.pTable] == ZERO_ENTRY
      && SpaceOf(s', 1)[v][a.pTable] == PageMapEntry(false, true, false, false, 0, Base(a) + 5)
  {
    hide *;
    os := StartOs(zero, Base(a), SlotStart(256));
    ReachBounds(a);
    g := Starts(zero, Base(a), SlotStart(256));
    v := SlotStart(256).Vpn();
    StartedRuns(os, zero, Base(a), SlotStart(256));
    ReachingStore(os, g, a, zero, off, word);
    RedirectedPage(os.s, a);
    PageRead(os.s, 1, Base(a));
    PageRead(Step(os, Write(Base(a) + 1, a, off, word)).s, 1, Base(a));
    ZeroWord(a.pTable);
  }

  lemma ReachBounds(a: LinearAddress)
    ensures Reaches(a) ==> 512 <= Base(a) && Base(a) + 14 <= FRAME_COUNT && Identical(a)
  {
  }

  lemma ZeroWord(i: Index)
    ensures ZeroFrame()[i] == ZERO_ENTRY
  {
  }

  lemma ReachingStore(os: Os, g: Ghost, a: LinearAddress, zero: Frame, off: Index, word: PageMapEntry)
    requires OsInv(os, g) && Running(os, Base(a) + 1) && Identical(a) && NewPageMap(os.s).frame == Some(Base(a) + 5)
    ensures Step(os, Write(Base(a) + 1, a, off, word)).s == Redirected(Taken(os.s, a, Base(a) + 5), a, Base(a) + 5)
  {
    hide OsInv, Redirected, Taken, UserStore, Access;
    StoreFault(os, g, Base(a) + 1, a);
  }

  /** The template's page before and after. */
  lemma RedirectedPage(s: Phys, a: LinearAddress)
    requires Reaches(a) && Base(a) + 14 <= FRAME_COUNT && |s.mem| == FRAME_COUNT && |s.used| == FRAME_COUNT
    requires Chain(s, 1, 4, SlotStart(256), [2, 3, 4, Base(a)], false) && Load(s, Base(a)) == ZeroFrame()
    ensures var s' := Redirected(Taken(s, a, Base(a) + 5), a, Base(a) + 5);
      && Chain(s', 1, 4, SlotStart(256), [2, 3, 4, Base(a)], false)
      && Load(s', Base(a))[a.pTable] == PageMapEntry(false, true, false, false, 0, Base(a) + 5)
  {
    var s' := Redirected(Taken(s, a, Base(a) + 5), a, Base(a) + 5);
    hide Chain;
    ChainKept(s, s', 1, 1, 4, SlotStart(256), [2, 3, 4, Base(a)], false);
  }

  lemma PageRead(s: Phys, t: nat, page: nat)
    requires Chain(s, t, 4, SlotStart(256), [2, 3, 4, page], false)
    ensures var v := SlotStart(256).Vpn(); v in SpaceOf(s, t) && SpaceOf(s, t)[v] == Load(s, page)
  {
    ChainWalk(s, t, 4, SlotStart(256), [2, 3, 4, page], false);
    SlotPage();
  }

  lemma SlotPage()
    ensures USER_BEGIN <= SlotStart(256).Vpn() < USER_END && PageAddress(SlotStart(256).Vpn()) == SlotStart(256)
  {
  }

  /** A user store outside the user half leaves every other space's memory unchanged, whatever the state of
      the system, if and only if its address is not one that reaches it. */
  lemma ForeignIff(a: LinearAddress)
    requires !UserAddress(a)
    ensures (forall os: Os, g: Ghost, r: nat, off: Index, word: PageMapEntry, q: nat
               {:trigger OsInv(os, g), Write(r, a, off, word), SpaceOf(os.s, q)} ::
               OsInv(os, g) && Running(os, r) && q in Live(os) && q != r ==>
                 SpaceOf(Step(os, Write(r, a, off, word)).s, q) == SpaceOf(os.s, q))
            <==> !Reaches(a)
  {
    hide OsInv, SpaceOf, Step;
    if Reaches(a) {
      var os, g, v := StoreReaches(a, ZeroFrame(), 0, ZERO_ENTRY);
      assert SpaceOf(Step(os, Write(Base(a) + 1, a, 0, ZERO_ENTRY)).s, 1) != SpaceOf(os.s, 1);
    } else {
      forall os: Os, g: Ghost, r: nat, off: Index, word: PageMapEntry, q: nat
        | OsInv(os, g) && Running(os, r) && q in Live(os) && q != r
        ensures SpaceOf(Step(os, Write(r, a, off, word)).s, q) == SpaceOf(os.s, q)
      {
        StoreMisses(os, g, r, a, off, word, q);
      }
    }
  }
}
