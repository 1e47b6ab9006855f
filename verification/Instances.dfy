/** Runs from boot that show what goes wrong where a condition of the memory properties does not hold. */
module Instances {
  import opened Wrappers
  import opened FrameSearch
  import opened PhysicalMemory
  import opened PageTables
  import opened Ownership
  import opened Mapping
  import opened Reclaim
  import opened Faults
  import opened Lifecycle
  import opened IdentityMap
  import opened Spaces
  import opened Refinement
  import opened Programs
  import opened Runs
  import opened Conservation
  import opened Exposure
  import opened FirstRun

  /** What the firmware has left in frame 0: a word that reads as an entry naming frame `f`. */
  function Leftover(f: nat): Frame { ZeroFrame()[0 := Link(f)] }

  /** Cleaning frame 0 as a table of tables frees the frame that its word names. */
  lemma CleanLeftover(s: Phys, page: nat)
    requires |s.mem| == |s.used| && 0 < page < |s.used| && Load(s, 0) == Leftover(page) && Load(s, page) == ZeroFrame()
    ensures |CleanPageMap(s, 0, 3, 0).used| == |s.used| && !CleanPageMap(s, 0, 3, 0).used[page]
    ensures forall f :: 0 < f < |s.mem| ==> Load(CleanPageMap(s, 0, 3, 0), f) == Load(s, f)
  {
    CleanUnfold(s, 0, 3, 0);
    assert Get(s, 0, 0) == Link(page);
    CleanNothing(s, page, 2, 0);
    var s1 := CleanEntry(s, 0, 3, 0);
    assert forall j: Index :: 1 <= j ==> Get(s1, 0, j) == ZERO_ENTRY;
    CleanNothing(s1, 0, 3, 1);
  }

  lemma CleanMissing(s: Phys, r: nat, slot: Index)
    requires r < |s.mem| && Get(s, r, slot) == ZERO_ENTRY
    ensures CleanPageMaps(s, r, slot) == Free(CleanPageMap(s, 0, 3, 0), 0)
  {
    assert Load(s, r)[slot := ZERO_ENTRY] == Load(s, r);
    assert Put(s, r, slot, ZERO_ENTRY) == s;
  }

  /** A program linked at the start of slot 257 exits: slot 256 is not in use, frame 0 is cleaned instead,
      and the page of the template, which still maps it, is given back to the allocator. */
  lemma ExitFreesTemplatePage(page: nat)
    requires 512 <= page && page + 14 <= FRAME_COUNT
    ensures var os := StartOs(Leftover(page), page, SlotStart(257));
      var os' := Step(os, Exit(page + 1));
      && Running(os, page + 1) && !Get(os.s, page + 1, 256).present && 1 in Live(os')
      && Walk(os'.s, 1, 4, SlotStart(257)) == Some(Leaf(page, false)) && page < |os'.s.used| && !os'.s.used[page]
  {
    hide *;
    var os := StartOs(Leftover(page), page, SlotStart(257));
    TemplateReady(Leftover(page), page, SlotStart(257));
    StartedRuns(os, Leftover(page), page, SlotStart(257));
    ExitEffect(os, page);
  }

  lemma ExitEffect(os: Os, page: nat)
    requires 512 <= page && page + 14 <= FRAME_COUNT && Running(os, page + 1) && 1 in os.templates
    requires |os.s.mem| == |os.s.used| == FRAME_COUNT && OnlySlot(os.s, page + 1, 257) && Load(os.s, 0) == Leftover(page)
    requires Chain(os.s, 1, 4, SlotStart(257), [2, 3, 4, page], false) && Load(os.s, page) == ZeroFrame()
    ensures var os' := Step(os, Exit(page + 1));
      && !Get(os.s, page + 1, 256).present && 1 in Live(os')
      && Walk(os'.s, 1, 4, SlotStart(257)) == Some(Leaf(page, false)) && page < |os'.s.used| && !os'.s.used[page]
  {
    hide CleanPageMap, Chain, OnlySlot, CleanPageMaps;
    var s, r := os.s, page + 1;
    Only(s, r, 257, 256);
    CleanMissing(s, r, 256);
    CleanLeftover(s, page);
    var s' := Free(Free(CleanPageMap(s, 0, 3, 0), 0), r);
    ChainKept(s, s', 1, 1, 4, SlotStart(257), [2, 3, 4, page], false);
    ChainWalk(s', 1, 4, SlotStart(257), [2, 3, 4, page], false);
  }

  lemma Only(s: Phys, t: nat, slot: Index, j: Index)
    requires OnlySlot(s, t, slot) && j >= 256 && j != slot
    ensures Get(s, t, j) == ZERO_ENTRY
  {
  }

  /** So CleanPageMaps has not done what it should. */
  lemma ExitInstance(page: nat) returns (g: Ghost)
    requires 512 <= page && page + 14 <= FRAME_COUNT
    ensures var os := StartOs(Leftover(page), page, SlotStart(257));
      && OsInv(os, g) && Running(os, page + 1) && !Guarded(os, Exit(page + 1))
      && !GivesBack(os.s, g, CleanPageMaps(os.s, page + 1, 256), page + 1, 256)
  {
    hide StartOs, CleanPageMaps, GivesBack, FreeList, Chain, OsInv, Inv, Started, GuardedRun;
    var os := StartOs(Leftover(page), page, SlotStart(257));
    g := Starts(Leftover(page), page, SlotStart(257));
    StartedRuns(os, Leftover(page), page, SlotStart(257));
    assert Get(os.s, page + 1, 256) == ZERO_ENTRY && Get(os.s, 0, 0).present;
    RunningKnown(os, g, page + 1);
    CleanSlotIff(os.s, g, page + 1, 256);
  }

  /** 0xffff'ffff'ffff'f000, where the arguments of a program are. */
  function ArgumentPage(): LinearAddress { LinearAddress(0, 511, 511, 511, 511) }

  lemma ArgumentShared(s: Phys, r: nat)
    requires Walk(s, r, 4, ArgumentPage()).Some? && !Walk(s, r, 4, ArgumentPage()).value.writeable
    ensures var v := ArgumentPage().Vpn(); !NoSharedPage(s, r, v, Min(v + 1, USER_END))
  {
    assert PageAddress(ArgumentPage().Vpn()) == ArgumentPage();
  }

  /** An image with a loadable segment in the page of arguments: the kernel's request for that page finds it
      shared, and the template reads a word that the program stores there. */
  lemma SharedStoreInstance(zero: Frame, off: Index, word: PageMapEntry) returns (g: Ghost)
    ensures var os := StartOs(zero, 512, ArgumentPage());
      var a := ArgumentPage();
      && OsInv(os, g) && Running(os, 513) && !Guarded(os, MapPages(513, a, 1))
      && Visible(os.s, 1, a) == Some(ZeroFrame())
      && Visible(UserStore(SetupPageMaps(os.s, 513, a, 1, true).s, 513, os.apps[513].demand, a, off, word).s, 1, a)
         == Some(ZeroFrame()[off := word])
  {
    hide StartOs, SetupPageMaps, FreeList, Chain, UserStore, OsInv, NoSharedPage, Started, GuardedRun;
    var os, a := StartOs(zero, 512, ArgumentPage()), ArgumentPage();
    g := Starts(zero, 512, ArgumentPage());
    StartedRuns(os, zero, 512, ArgumentPage());
    ChainWalk(os.s, 1, 4, a, [2, 3, 4, 512], false);
    SharedStoreLeaks(os, g, 513, a, off, word);
    ArgumentShared(os.s, 513);
  }

  /** Every program is given the page of arguments, which lies in slot 511. */
  function OwnEvents(): seq<Event> { [MapPages(513, ArgumentPage(), 1)] }

  /** With it, a program that does nothing else does not give everything back. */
  lemma ExitKeepsFrames(zero: Frame) returns (g: Ghost)
    ensures var os := TemplateOs(zero, 512, SlotStart(256));
      && OsInv(os, g) && GuardedRun(Step(os, Launch(1)), OwnEvents())
      && var os2 := Run(Step(os, Launch(1)), OwnEvents());
        && Running(os2, 513) && Guarded(os2, Exit(513)) && Step(os2, Exit(513)).s.used != os.s.used
  {
    hide StartOs, TemplateOs, SetupPML4, SetupPageMaps, FreeList, Chain, OsInv, Filled, StartEvents, BootPhys;
    var os := TemplateOs(zero, 512, SlotStart(256));
    TemplateReady(zero, 512, SlotStart(256));
    StartFour(zero, 512, SlotStart(256));
    g := Reached(zero, 512, SlotStart(256), 3);
    var os1 := Step(os, Launch(1));
    StartedRuns(os1, zero, 512, SlotStart(256));
    ArgumentsMapped(os1, zero);
    var os2 := Run(os1, OwnEvents());
    LaunchTop(os, zero);
    ProgramConserves(os, g, 1, OwnEvents());
  }

  lemma LaunchTop(os: Os, zero: Frame)
    requires Filled(os.s, zero, 512, SlotStart(256)) && os == FilledOs(os.s)
    ensures SetupPML4(os.s, os.cr3).frame == Some(513) && 1 in os.templates
  {
    NextFrame(os.s, FreeAtBoot(512)[5..]);
  }

  lemma ArgumentsMapped(os: Os, zero: Frame)
    requires Started(os, zero, 512, SlotStart(256))
    ensures GuardedRun(os, OwnEvents()) && Running(os, 513)
    ensures var os2 := Run(os, OwnEvents());
      Running(os2, 513) && Get(os2.s, 513, 511).present && Get(os2.s, 513, 256).present
  {
    hide *;
    StartedRuns(os, zero, 512, SlotStart(256));
    Only(os.s, 513, 256, 511);
    OnePage(os.s, 513, FreeAtBoot(512)[9..]);
    ArgumentStep(os);
    OneEvent(os, OwnEvents());
  }

  lemma OnePage(s: Phys, r: nat, fs: seq<nat>)
    requires FreeList(s, fs) && |fs| >= 4 && r < |s.mem| && r < |s.used| && s.used[r] && Get(s, r, 511) == ZERO_ENTRY
    requires Walk(s, r, 4, SlotStart(256)).Some?
    ensures var s' := SetupPageMaps(s, r, ArgumentPage(), 1, true).s; Get(s', r, 511).present && Get(s', r, 256).present
    ensures NoSharedPage(s, r, ArgumentPage().Vpn(), ArgumentPage().Vpn() + 1)
  {
    hide FreeList, SetupPageMap;
    SetupOne(s, r, 4, ArgumentPage(), fs, true);
    assert Get(s, r, 256).present;
    NothingShared(s, r);
  }

  lemma NothingShared(s: Phys, r: nat)
    requires Get(s, r, 511) == ZERO_ENTRY
    ensures NoSharedPage(s, r, ArgumentPage().Vpn(), ArgumentPage().Vpn() + 1)
  {
    assert PageAddress(ArgumentPage().Vpn()) == ArgumentPage();
  }

  lemma OneEvent(os: Os, evs: seq<Event>)
    requires |evs| == 1
    ensures Run(os, evs) == Step(os, evs[0]) && (GuardedRun(os, evs) <==> Guarded(os, evs[0]))
  {
    hide Step, Guarded;
    assert evs[1..] == [];
    assert Run(Step(os, evs[0]), []) == Step(os, evs[0]) && GuardedRun(Step(os, evs[0]), []);
  }

  lemma ArgumentStep(os: Os)
    requires Running(os, 513) && NoSharedPage(os.s, 513, ArgumentPage().Vpn(), ArgumentPage().Vpn() + 1)
    ensures |OwnEvents()| == 1 && Guarded(os, OwnEvents()[0])
    ensures Step(os, OwnEvents()[0]) == os.(s := SetupPageMaps(os.s, 513, ArgumentPage(), 1, true).s, cr3 := 513)
    ensures Running(Step(os, OwnEvents()[0]), 513)
  {
    hide SetupPageMaps, Walk;
  }
}
