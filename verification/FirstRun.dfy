/** A run from boot, worked out word by word: a template with one page, and a program started from it. */
module FirstRun {
  import opened Wrappers
  import opened FrameSearch
  import opened PhysicalMemory
  import opened PageTables
  import opened Ownership
  import opened Mapping
  import opened Faults
  import opened IdentityMap
  import opened Spaces
  import opened Refinement
  import opened Runs

  predicate Increasing(fs: seq<nat>) { forall i, j :: 0 <= i < j < |fs| ==> fs[i] < fs[j] }

  /** The free frames, lowest first. */
  ghost predicate FreeList(s: Phys, fs: seq<nat>) {
    && Sized(s) && Increasing(fs) && (forall f <- fs :: s.lo <= f < s.hi)
    && forall f :: s.lo <= f < s.hi ==> (!s.used[f] <==> f in fs)
  }

  lemma NextFrame(s: Phys, fs: seq<nat>)
    requires FreeList(s, fs) && fs != []
    ensures fs[0] < |s.mem| && !s.used[fs[0]] && fs[0] % ADDR_LIMIT == fs[0]
    ensures NewPageMap(s) == NewFrame(s.(used := s.used[fs[0] := true], mem := s.mem[fs[0] := ZeroFrame()]), Some(fs[0]))
    ensures FreeList(NewPageMap(s).s, fs[1..])
  {
    NewPageMapFacts(s);
    assert fs[0] in fs && FreeRun(s.used, fs[0], 1, s.hi);
    var f := NewPageMap(s).frame.value;
    assert f in fs;
    var i :| 0 <= i < |fs| && fs[i] == f;
    assert f == fs[0];
    forall x | s.lo <= x < s.hi ensures x in fs[1..] <==> x in fs && x != fs[0] {
      if x in fs && x != fs[0] {
        var k :| 0 <= k < |fs| && fs[k] == x;
        assert fs[1..][k - 1] == x;
      }
    }
    assert forall x <- fs[1..] :: x in fs;
    assert Increasing(fs[1..]) && Sized(NewPageMap(s).s);
  }

  function Link(f: nat): PageMapEntry { PageMapEntry(true, true, true, false, 0, f) }
  function Leaf(f: nat, w: bool): PageMapEntry { PageMapEntry(true, w, true, false, 0, f) }

  /** From table `t` a single chain of tables, in the frames `fs`, leads to the page of `a`, in the last of them. */
  ghost predicate Chain(s: Phys, t: nat, level: nat, a: LinearAddress, fs: seq<nat>, w: bool)
    requires 1 <= level <= |fs|
    decreases level
  {
    && Get(s, t, a.At(level)) == (if level == 1 then Leaf(fs[0], w) else Link(fs[0]))
    && (level > 1 ==>
      && (forall j: Index :: j != a.At(level - 1) ==> Get(s, fs[0], j) == ZERO_ENTRY)
      && Chain(s, fs[0], level - 1, a, fs[1..], w))
  }

  lemma {:induction false} ChainWalk(s: Phys, t: nat, level: nat, a: LinearAddress, fs: seq<nat>, w: bool)
    requires 1 <= level <= 4 && level <= |fs| && Chain(s, t, level, a, fs, w)
    ensures Walk(s, t, level, a) == Some(Leaf(fs[level - 1], w))
    decreases level
  {
    if level > 1 { ChainWalk(s, fs[0], level - 1, a, fs[1..], w); }
  }

  lemma {:induction false} ChainKept(s: Phys, s': Phys, t: nat, t': nat, level: nat, a: LinearAddress, fs: seq<nat>, w: bool)
    requires 1 <= level <= |fs| && Chain(s, t, level, a, fs, w) && Get(s', t', a.At(level)) == Get(s, t, a.At(level))
    requires forall k :: 0 <= k < level - 1 ==> Load(s', fs[k]) == Load(s, fs[k])
    ensures Chain(s', t', level, a, fs, w)
    decreases level
  {
    if level > 1 {
      forall j: Index ensures Get(s', fs[0], j) == Get(s, fs[0], j) {}
      ChainKept(s, s', fs[0], fs[0], level - 1, a, fs[1..], w);
    }
  }

  /** Frames in use, other than `t`, are as they were. */
  ghost predicate Undisturbed(s: Phys, s': Phys, t: nat) {
    && |s'.mem| == |s.mem| && |s'.used| == |s.used| && s'.lo == s.lo && s'.hi == s.hi
    && forall f :: 0 <= f < |s.used| && s.used[f] ==> s'.used[f] && (f != t ==> Load(s', f) == Load(s, f))
  }

  ghost predicate SetUpOne(s: Phys, q: Setup, t: nat, level: nat, a: LinearAddress, fs: seq<nat>, w: bool)
    requires 1 <= level <= 4 && level <= |fs|
  {
    && q.ok && q.remain == 0 && FreeList(q.s, fs[level..]) && Undisturbed(s, q.s, t) && Chain(q.s, t, level, a, fs, w)
    && (forall j: Index :: j != a.At(level) ==> Get(q.s, t, j) == Get(s, t, j)) && Load(q.s, fs[level - 1]) == ZeroFrame()
    && forall k :: 0 <= k < level ==> fs[k] < |q.s.used| && q.s.used[fs[k]]
  }

  /** The table after its entry for `a` has been given the first free frame. */
  function Entered(s: Phys, t: nat, level: nat, a: LinearAddress, w: bool): Phys {
    SetFlags(SetNewPageMapIfNotPresent(s, t, a.At(level)).s, t, a.At(level), if level == 1 then w else true)
  }

  lemma EnteredFacts(s: Phys, t: nat, level: nat, a: LinearAddress, fs: seq<nat>, w: bool)
    requires 1 <= level <= 4 && fs != [] && FreeList(s, fs) && t < |s.mem| && s.used[t] && Get(s, t, a.At(level)) == ZERO_ENTRY
    ensures var s1 := Entered(s, t, level, a, w);
      && SetNewPageMapIfNotPresent(s, t, a.At(level)).frame == Some(fs[0]) && fs[0] < |s.mem| && !s.used[fs[0]]
      && FreeList(s1, fs[1..]) && Undisturbed(s, s1, t) && s1.used[fs[0]] && Load(s1, fs[0]) == ZeroFrame()
      && Get(s1, t, a.At(level)) == (if level == 1 then Leaf(fs[0], w) else Link(fs[0]))
      && forall j: Index :: j != a.At(level) ==> Get(s1, t, j) == Get(s, t, j)
  {
    NextFrame(s, fs);
    FreshEntry(s, t, a.At(level), if level == 1 then w else true);
  }

  /** Mapping one page where nothing is mapped. */
  lemma {:induction false} SetupOne(s: Phys, t: nat, level: nat, a: LinearAddress, fs: seq<nat>, w: bool)
    requires 1 <= level <= 4 && level <= |fs| && FreeList(s, fs) && t < |s.mem| && s.used[t] && Get(s, t, a.At(level)) == ZERO_ENTRY
    ensures SetUpOne(s, SetupPageMap(s, t, level, a, 1, w), t, level, a, fs, w)
    decreases level
  {
    EnteredFacts(s, t, level, a, fs, w);
    var s1 := Entered(s, t, level, a, w);
    if level > 1 {
      SetupOne(s1, fs[0], level - 1, a, fs[1..], w);
      SetupBelow(s, s1, SetupPageMap(s1, fs[0], level - 1, a, 1, w).s, t, level, a, fs, w);
    }
    SetupPath(s, t, level, a, fs[0], w);
    hide SetupPageMap, Entered, FreeList, Undisturbed, Chain;
  }

  lemma SetupPath(s: Phys, t: nat, level: nat, a: LinearAddress, f: nat, w: bool)
    requires 1 <= level <= 4 && SetNewPageMapIfNotPresent(s, t, a.At(level)).frame == Some(f)
    requires level > 1 ==> var sub := SetupPageMap(Entered(s, t, level, a, w), f, level - 1, a, 1, w); sub.ok && sub.remain == 0
    ensures SetupPageMap(s, t, level, a, 1, w) ==
            if level == 1 then Setup(Entered(s, t, level, a, w), 0, true)
            else Setup(SetupPageMap(Entered(s, t, level, a, w), f, level - 1, a, 1, w).s, 0, true)
  {
  }

  lemma SetupBelow(s: Phys, s1: Phys, s2: Phys, t: nat, level: nat, a: LinearAddress, fs: seq<nat>, w: bool)
    requires 1 < level <= 4 && level <= |fs| && t < |s.mem| && |s.used| == |s.mem| && s.used[t] && fs[0] < |s.mem| && !s.used[fs[0]]
    requires Undisturbed(s, s1, t) && s1.used[fs[0]] && Load(s1, fs[0]) == ZeroFrame()
    requires Get(s1, t, a.At(level)) == Link(fs[0]) && forall j: Index :: j != a.At(level) ==> Get(s1, t, j) == Get(s, t, j)
    requires SetUpOne(s1, Setup(s2, 0, true), fs[0], level - 1, a, fs[1..], w)
    ensures SetUpOne(s, Setup(s2, 0, true), t, level, a, fs, w)
  {
    hide FreeList;
    assert fs[1..][level - 1..] == fs[level..] && fs[1..][level - 2] == fs[level - 1];
    assert Load(s2, t) == Load(s1, t);
    forall k | 0 <= k < level ensures fs[k] < |s2.used| && s2.used[fs[k]] {
      if k > 0 { assert fs[1..][k - 1] == fs[k]; }
    }
    forall j: Index | j != a.At(level - 1) ensures Get(s2, fs[0], j) == ZERO_ENTRY { assert Get(s1, fs[0], j) == ZERO_ENTRY; }
  }

  /** Before CopyPageMaps reaches the one entry that is present, that of `a`. */
  ghost predicate CopyReady(s: Phys, dst: nat, src: nat, level: nat, i: nat, a: LinearAddress, fs: seq<nat>, gs: seq<nat>) {
    && 1 <= level <= 4 && level <= |fs| && level <= |gs| + 1 && FreeList(s, gs) && Chain(s, src, level, a, fs, false)
    && dst < |s.mem| && s.used[dst] && src < |s.mem| && s.used[src] && src != dst && i <= a.At(level)
    && (forall k :: 0 <= k < level - 1 ==> fs[k] < |s.mem| && s.used[fs[k]] && fs[k] != dst)
    && forall j: Index :: i <= j && j != a.At(level) ==> !Get(s, src, j).present
  }

  ghost predicate CopiedOne(s: Phys, c: Outcome, dst: nat, level: nat, a: LinearAddress, fs: seq<nat>, gs: seq<nat>)
    requires 1 <= level <= 4 && level <= |fs| && level <= |gs| + 1
  {
    && c.ok && FreeList(c.s, gs[level - 1..]) && Undisturbed(s, c.s, dst)
    && Walk(c.s, dst, level, a) == Some(Leaf(fs[level - 1], false))
    && (forall j: Index :: j != a.At(level) ==> Get(c.s, dst, j) == Get(s, dst, j))
  }

  /** Copying a table in which only the entry of `a` is present: the page is shared, read-only. */
  lemma {:induction false} CopyOne(s: Phys, dst: nat, src: nat, level: nat, i: nat, a: LinearAddress, fs: seq<nat>, gs: seq<nat>)
    requires CopyReady(s, dst, src, level, i, a, fs, gs)
    ensures CopiedOne(s, CopyPageMaps(s, dst, src, level, i), dst, level, a, fs, gs)
    decreases level, 512 - i
  {
    if i < a.At(level) {
      CopyOne(s, dst, src, level, i + 1, a, fs, gs);
    } else if level == 1 {
      CopyLast(s, dst, src, a, fs, gs);
    } else {
      NextFrame(s, gs);
      var s1 := Linked(s, dst, src, i);
      LinkedReady(s, dst, src, level, a, fs, gs);
      CopyOne(s1, gs[0], fs[0], level - 1, 0, a, fs[1..], gs[1..]);
      CopyEnd(s, dst, src, level, a, fs, gs);
    }
  }

  lemma CopyLast(s: Phys, dst: nat, src: nat, a: LinearAddress, fs: seq<nat>, gs: seq<nat>)
    requires CopyReady(s, dst, src, 1, a.At(1), a, fs, gs)
    ensures CopiedOne(s, CopyPageMaps(s, dst, src, 1, a.At(1)), dst, 1, a, fs, gs)
  {
    var i := a.At(1);
    var s1 := Put(s, dst, i, Get(s, src, i).(writeable := false));
    assert Load(s1, src) == Load(s, src);
    forall j: Index | i + 1 <= j ensures !Get(s1, src, j).present { assert !Get(s, src, j).present; }
    CopyRest(s1, dst, src, 1, i + 1);
  }

  /** A new table in the place of the one that is copied. */
  function Linked(s: Phys, dst: nat, src: nat, i: Index): Phys {
    var n := NewPageMap(s);
    if n.frame.None? then n.s else Put(n.s, dst, i, Get(n.s, src, i).SetPtr(n.frame.value))
  }

  lemma LinkedReady(s: Phys, dst: nat, src: nat, level: nat, a: LinearAddress, fs: seq<nat>, gs: seq<nat>)
    requires level > 1 && CopyReady(s, dst, src, level, a.At(level), a, fs, gs)
    ensures var s1 := Linked(s, dst, src, a.At(level));
      && CopyReady(s1, gs[0], fs[0], level - 1, 0, a, fs[1..], gs[1..]) && Undisturbed(s, s1, dst)
      && s1.used[gs[0]] && !s.used[gs[0]]
      && Get(s1, dst, a.At(level)) == Link(gs[0]) && forall j: Index :: j != a.At(level) ==> Get(s1, dst, j) == Get(s, dst, j)
  {
    NextFrame(s, gs);
    var s1 := Linked(s, dst, src, a.At(level));
    assert gs[0] != dst && gs[0] != src && NewPageMap(s).frame == Some(gs[0]);
    assert Get(NewPageMap(s).s, src, a.At(level)) == Link(fs[0]);
    assert forall k :: 0 <= k < level - 1 ==> Load(s1, fs[k]) == Load(s, fs[k]);
    ChainKept(s, s1, fs[0], fs[0], level - 1, a, fs[1..], false);
    forall j: Index | j != a.At(level - 1) ensures !Get(s1, fs[0], j).present { assert Get(s, fs[0], j) == ZERO_ENTRY; }
  }

  lemma KeptFrame(s: Phys, s': Phys, t: nat, f: nat)
    requires Undisturbed(s, s', t) && f < |s.used| && s.used[f] && f != t
    ensures Load(s', f) == Load(s, f)
  {
  }

  lemma CopyEnd(s: Phys, dst: nat, src: nat, level: nat, a: LinearAddress, fs: seq<nat>, gs: seq<nat>)
    requires level > 1 && CopyReady(s, dst, src, level, a.At(level), a, fs, gs)
    requires var s1 := Linked(s, dst, src, a.At(level));
      CopiedOne(s1, CopyPageMaps(s1, gs[0], fs[0], level - 1, 0), gs[0], level - 1, a, fs[1..], gs[1..])
    ensures CopiedOne(s, CopyPageMaps(s, dst, src, level, a.At(level)), dst, level, a, fs, gs)
  {
    var i := a.At(level);
    NextFrame(s, gs);
    LinkedReady(s, dst, src, level, a, fs, gs);
    var s1 := Linked(s, dst, src, i);
    assert Get(s1, src, i) == Get(s, src, i);
    var sub := CopyPageMaps(s1, gs[0], fs[0], level - 1, 0);
    assert CopyPageMaps(s, dst, src, level, i) == CopyPageMaps(sub.s, dst, src, level, i + 1);
    hide CopyPageMaps, Chain, FreeList, Linked;
    assert gs[1..][level - 2..] == gs[level - 1..];
    KeptFrame(s, s1, dst, src);
    KeptFrame(s1, sub.s, gs[0], src);
    KeptFrame(s1, sub.s, gs[0], dst);
    forall j: Index | i + 1 <= j ensures !Get(sub.s, src, j).present { assert !Get(s, src, j).present; }
    CopyRest(sub.s, dst, src, level, i + 1);
  }

  lemma {:induction false} CopyRest(s: Phys, dst: nat, src: nat, level: nat, i: nat)
    requires 1 <= level <= 4 && forall j: Index :: i <= j ==> !Get(s, src, j).present
    ensures CopyPageMaps(s, dst, src, level, i) == Outcome(s, true)
    decreases 512 - i
  {
    if i < 512 { CopyRest(s, dst, src, level, i + 1); }
  }

  /** SetupPML4: a table with the lower half of the current one. */
  lemma NewTop(s: Phys, cr3: nat, fs: seq<nat>)
    requires FreeList(s, fs) && fs != [] && cr3 < |s.mem| && s.used[cr3]
    ensures var n := SetupPML4(s, cr3);
      && n.frame == Some(fs[0]) && FreeList(n.s, fs[1..]) && Undisturbed(s, n.s, fs[0]) && n.s.used[fs[0]]
      && fs[0] < |s.mem| && !s.used[fs[0]]
      && (forall j: Index :: j >= 256 ==> Get(n.s, fs[0], j) == ZERO_ENTRY)
  {
    NextFrame(s, fs);
  }

  function BootTables(): KernelTables { KernelTables(100, 101, seq(PAGE_DIR_COUNT, i requires 0 <= i => 200 + i)) }

  function LargeAt(i: nat, j: nat): PageMapEntry { LargeEntry((i * 512 + j) * 512) }

  function DirFrame(i: nat): Frame { seq(512, j requires 0 <= j => LargeAt(i, j)) }

  /** Memory at boot: the kernel's tables, and in frame 0 whatever the firmware has left there. */
  function BootFrame(zero: Frame, f: nat): Frame {
    if f == 0 then zero
    else if f == 100 then seq(512, i requires 0 <= i => if i == 0 then TableEntry(101) else ZERO_ENTRY)
    else if f == 101 then seq(512, i requires 0 <= i => if i < PAGE_DIR_COUNT then TableEntry(200 + i) else ZERO_ENTRY)
    else if 200 <= f < 264 then DirFrame(f - 200)
    else ZeroFrame()
  }

  /** Frames 1 to 4 and the fourteen from `page` on are free. */
  function BootPhys(zero: Frame, page: nat): Phys {
    Phys(seq(FRAME_COUNT, f requires 0 <= f => BootFrame(zero, f)), seq(FRAME_COUNT, f => !(1 <= f <= 4 || page <= f)), 1, page + 14)
  }

  function FreeAtBoot(page: nat): seq<nat> { [1, 2, 3, 4] + seq(14, i requires 0 <= i => page + i) }

  lemma BootState(zero: Frame, page: nat)
    requires 512 <= page && page + 14 <= FRAME_COUNT
    ensures AtBoot(BootPhys(zero, page), BootTables()) && FreeList(BootPhys(zero, page), FreeAtBoot(page))
  {
    var s := BootPhys(zero, page);
    assert forall f: nat :: f < FRAME_COUNT ==> Load(s, f) == BootFrame(zero, f);
    assert Identity(s, BootTables());
    var fs := FreeAtBoot(page);
    assert forall f <- fs :: 1 <= f < page + 14;
    forall f | 1 <= f < page + 14 ensures !s.used[f] <==> f in fs {
      if 1 <= f <= 4 { assert fs[f - 1] == f; }
      if page <= f { assert fs[4 + f - page] == f; }
    }
  }

  /** The first page of a slot of the top table. */
  function SlotStart(slot: Index): (a: LinearAddress)
    ensures a.pml4 == slot
  {
    LinearAddress(0, 0, 0, 0, slot)
  }

  /** A template is filled with one page and registered, and a program is started from it. */
  function StartEvents(a: LinearAddress): seq<Event> {
    [NewTemplate, MapImage(1, a, 1), Register(1), Launch(1)]
  }

  function StartOs(zero: Frame, page: nat, a: LinearAddress): Os {
    Run(BootOs(BootPhys(zero, page), BootTables()), StartEvents(a))
  }

  /** No other user slot of table `t` is in use. */
  predicate OnlySlot(s: Phys, t: nat, slot: Index) {
    forall j: Index :: j >= 256 && j != slot ==> Get(s, t, j) == ZERO_ENTRY
  }

  /** The template is the space of frame 1, its page lies in frame `page`, the program is the space of the
      next frame and shares it. */
  ghost predicate Started(os: Os, zero: Frame, page: nat, a: LinearAddress) {
    && 512 <= page && page + 14 <= FRAME_COUNT && os.templates == {1} && os.building == {}
    && os.apps == map[page + 1 := App(1, DemandRange(0, 0), true)]
    && os.kernel == BootTables() && FreeList(os.s, FreeAtBoot(page)[9..]) && |os.s.mem| == FRAME_COUNT
    && Chain(os.s, 1, 4, a, [2, 3, 4, page], false) && Load(os.s, page) == ZeroFrame() && os.s.used[page]
    && Walk(os.s, page + 1, 4, a) == Some(Leaf(page, false))
    && OnlySlot(os.s, page + 1, a.pml4)
    && Load(os.s, 0) == zero && os.s.used[0] && os.s.used[page + 1]
  }

  lemma StartedRuns(os: Os, zero: Frame, page: nat, a: LinearAddress)
    requires Started(os, zero, page, a)
    ensures Running(os, page + 1) && 1 in Live(os) && 1 in os.templates && os.apps[page + 1].template == 1
    ensures |os.s.mem| == |os.s.used| == FRAME_COUNT && OnlySlot(os.s, page + 1, a.pml4) && Load(os.s, 0) == zero
    ensures Chain(os.s, 1, 4, a, [2, 3, 4, page], false) && Load(os.s, page) == ZeroFrame()
    ensures |FreeAtBoot(page)| == 18 && NewPageMap(os.s).frame == Some(page + 5) && FreeList(os.s, FreeAtBoot(page)[9..])
    ensures Walk(os.s, page + 1, 4, a) == Some(Leaf(page, false)) && page + 1 < |os.s.used| && os.s.used[page + 1]
  {
    NextFrame(os.s, FreeAtBoot(page)[9..]);
  }

  /** What is known of the memory once the template is filled. */
  ghost predicate Filled(s: Phys, zero: Frame, page: nat, a: LinearAddress) {
    && 512 <= page && page + 14 <= FRAME_COUNT && FreeList(s, FreeAtBoot(page)[5..]) && |s.mem| == FRAME_COUNT
    && s.used[0] && Load(s, 0) == zero
    && s.used[1] && s.used[2] && s.used[3] && s.used[4] && s.used[page] && Load(s, page) == ZeroFrame()
    && Chain(s, 1, 4, a, [2, 3, 4, page], false)
    && OnlySlot(s, 1, a.pml4)
  }

  lemma FillTemplate(zero: Frame, page: nat, a: LinearAddress)
    requires 512 <= page && page + 14 <= FRAME_COUNT && a.pml4 >= 256
    ensures var n := SetupPML4(BootPhys(zero, page), 100);
      n.frame == Some(1) && Filled(SetupPageMaps(n.s, 1, a, 1, false).s, zero, page, a)
  {
    hide SetupPageMap, SetupPML4;
    var s, fs := BootPhys(zero, page), FreeAtBoot(page);
    BootState(zero, page);
    assert 100 in Static(BootTables());
    hide AtBoot, BootPhys, Chain, FreeList;
    NewTop(s, 100, fs);
    var n := SetupPML4(s, 100);
    SetupOne(n.s, 1, 4, a, fs[1..], false);
    var q := SetupPageMaps(n.s, 1, a, 1, false);
    assert fs[1..][4..] == fs[5..];
    BootZero(zero, page);
    ChainFrames(q.s, page, a, fs);
  }

  lemma BootZero(zero: Frame, page: nat)
    requires 512 <= page && page + 14 <= FRAME_COUNT
    ensures var s := BootPhys(zero, page); |s.mem| == FRAME_COUNT && s.used[0] && Load(s, 0) == zero
  {
  }

  lemma ChainFrames(s: Phys, page: nat, a: LinearAddress, fs: seq<nat>)
    requires fs == FreeAtBoot(page) && Chain(s, 1, 4, a, fs[1..], false)
    ensures Chain(s, 1, 4, a, [2, 3, 4, page], false)
  {
  }

  /** The state with the template registered. */
  function FilledOs(s: Phys): Os { Os(s, BootTables(), 1, {}, {1}, map[]) }

  /** Launching the program from the filled template. */
  lemma LaunchFirst(s: Phys, zero: Frame, page: nat, a: LinearAddress)
    requires Filled(s, zero, page, a) && a.pml4 >= 256
    ensures Started(Step(FilledOs(s), Launch(1)), zero, page, a)
  {
    hide SetupPML4, CopyPageMaps, Undisturbed, FreeList;
    var fs := FreeAtBoot(page)[5..];
    var path := [2, 3, 4, page];
    SizedFirst(s, zero, page, a);
    NewTop(s, 1, fs);
    var n := SetupPML4(s, 1);
    assert fs[0] == page + 1;
    KeptFilled(s, n.s, zero, page, a);
    ChainKept(s, n.s, 1, 1, 4, a, path, false);
    assert CopyReady(n.s, page + 1, 1, 4, 256, a, path, fs[1..]);
    CopyOne(n.s, page + 1, 1, 4, 256, a, path, fs[1..]);
    var c := CopyPageMaps(n.s, page + 1, 1, 4, 256);
    assert fs[1..][3..] == FreeAtBoot(page)[9..];
    KeptFilled(n.s, c.s, zero, page, a);
    ChainKept(n.s, c.s, 1, 1, 4, a, path, false);
  }

  lemma SizedFirst(s: Phys, zero: Frame, page: nat, a: LinearAddress)
    requires Filled(s, zero, page, a)
    ensures Sized(s)
  {
  }

  /** The frames that the template lies in stay as they are when the program's are filled. */
  lemma KeptFilled(s: Phys, s': Phys, zero: Frame, page: nat, a: LinearAddress)
    requires 512 <= page && page + 14 <= FRAME_COUNT && |s.mem| == |s.used| == FRAME_COUNT && s.used[0] && Load(s, 0) == zero
    requires s.used[1] && s.used[2] && s.used[3] && s.used[4] && s.used[page] && Load(s, page) == ZeroFrame()
    requires OnlySlot(s, 1, a.pml4)
    requires Undisturbed(s, s', page + 1)
    ensures |s'.mem| == |s'.used| == FRAME_COUNT && s'.used[0] && Load(s', 0) == zero
    ensures s'.used[1] && s'.used[2] && s'.used[3] && s'.used[4] && s'.used[page]
    ensures Load(s', page) == ZeroFrame() && OnlySlot(s', 1, a.pml4)
    ensures forall f <- {1, 2, 3, 4, page} :: Load(s', f) == Load(s, f)
    ensures s.used[page + 1] ==> s'.used[page + 1]
  {
    assert Load(s', 1) == Load(s, 1);
    forall j: Index ensures Get(s', 1, j) == Get(s, 1, j) {}
  }

  /** The state before the program is launched. */
  function TemplateOs(zero: Frame, page: nat, a: LinearAddress): Os {
    FilledOs(SetupPageMaps(SetupPML4(BootPhys(zero, page), 100).s, 1, a, 1, false).s)
  }

  lemma TemplateReady(zero: Frame, page: nat, a: LinearAddress)
    requires 512 <= page && page + 14 <= FRAME_COUNT && a.pml4 >= 256
    ensures Filled(TemplateOs(zero, page, a).s, zero, page, a)
    ensures TemplateOs(zero, page, a) == FilledOs(TemplateOs(zero, page, a).s)
    ensures Started(StartOs(zero, page, a), zero, page, a)
    ensures var os0 := BootOs(BootPhys(zero, page), BootTables());
      && StartOs(zero, page, a) == Step(TemplateOs(zero, page, a), Launch(1)) && GuardedRun(os0, StartEvents(a))
      && TemplateOs(zero, page, a) == Run(os0, StartEvents(a)[..3]) && GuardedRun(os0, StartEvents(a)[..3])
  {
    hide SetupPML4, SetupPageMaps, CopyPageMaps, Started, Filled, BootPhys;
    var os0 := BootOs(BootPhys(zero, page), BootTables());
    FillTemplate(zero, page, a);
    var evs := StartEvents(a);
    var os1 := Step(os0, NewTemplate);
    var os2 := Step(os1, MapImage(1, a, 1));
    assert Step(os2, Register(1)) == TemplateOs(zero, page, a);
    LaunchFirst(TemplateOs(zero, page, a).s, zero, page, a);
    FourSteps(os0, evs);
  }

  /** The run starts the program, unguarded as it is. */
  lemma Starts(zero: Frame, page: nat, a: LinearAddress) returns (g: Ghost)
    requires 512 <= page && page + 14 <= FRAME_COUNT && a.pml4 >= 256
    ensures Started(StartOs(zero, page, a), zero, page, a) && OsInv(StartOs(zero, page, a), g)
    ensures GuardedRun(BootOs(BootPhys(zero, page), BootTables()), StartEvents(a))
  {
    hide *;
    TemplateReady(zero, page, a);
    StartFour(zero, page, a);
    assert StartEvents(a)[..4] == StartEvents(a);
    g := Reached(zero, page, a, 4);
  }

  lemma StartFour(zero: Frame, page: nat, a: LinearAddress)
    ensures |StartEvents(a)| == 4
    ensures StartOs(zero, page, a) == Run(BootOs(BootPhys(zero, page), BootTables()), StartEvents(a))
  {
  }

  /** After any number of its events the run satisfies the invariant. */
  lemma Reached(zero: Frame, page: nat, a: LinearAddress, n: nat) returns (g: Ghost)
    requires 512 <= page && page + 14 <= FRAME_COUNT && n <= |StartEvents(a)|
    requires GuardedRun(BootOs(BootPhys(zero, page), BootTables()), StartEvents(a)[..n])
    ensures OsInv(Run(BootOs(BootPhys(zero, page), BootTables()), StartEvents(a)[..n]), g)
  {
    hide *;
    BootState(zero, page);
    var g0 := BootInv(BootPhys(zero, page), BootTables());
    var hs;
    g, hs := RunRefines(BootOs(BootPhys(zero, page), BootTables()), g0, StartEvents(a)[..n]);
  }

  lemma FourSteps(os: Os, evs: seq<Event>)
    requires |evs| == 4 && forall ev <- evs :: !ev.MapPages? && !ev.Read? && !ev.Write? && !ev.Exit?
    ensures Run(os, evs) == Step(Step(Step(Step(os, evs[0]), evs[1]), evs[2]), evs[3]) && GuardedRun(os, evs)
    ensures Run(os, evs[..3]) == Step(Step(Step(os, evs[0]), evs[1]), evs[2]) && GuardedRun(os, evs[..3])
  {
    hide Step;
    var a := Step(os, evs[0]);
    var b := Step(a, evs[1]);
    var c := Step(b, evs[2]);
    var d := Step(c, evs[3]);
    assert evs[3..][1..] == [] && evs[2..][1..] == evs[3..] && evs[1..][1..] == evs[2..];
    assert Run(d, []) == d && Run(c, evs[3..]) == Run(d, []) && GuardedRun(d, []);
    assert Run(b, evs[2..]) == Run(c, evs[3..]) && Run(a, evs[1..]) == Run(b, evs[2..]);
    assert GuardedRun(c, evs[3..]) && GuardedRun(b, evs[2..]) && GuardedRun(a, evs[1..]);
    var three := evs[..3];
    assert three[1..] == evs[1..3] && evs[1..3][1..] == evs[2..3] && evs[2..3][1..] == [];
    assert Run(c, []) == c && Run(b, evs[2..3]) == Run(c, []) && Run(a, evs[1..3]) == Run(b, evs[2..3]);
    assert GuardedRun(c, []) && GuardedRun(b, evs[2..3]) && GuardedRun(a, evs[1..3]);
  }
}
