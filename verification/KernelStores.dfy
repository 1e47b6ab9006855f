/** What a program's store to an address of the identity map does. */
module KernelStores {
  import opened Wrappers
  import opened FrameSearch
  import opened PhysicalMemory
  import opened PageTables
  import opened Ownership
  import opened Mapping
  import opened Faults
  import opened Lifecycle
  import opened IdentityMap
  import opened Spaces
  import opened Refinement
  import opened Programs

  lemma TopEntry(os: Os, g: Ghost, r: nat, i: Index)
    requires OsInv(os, g) && Running(os, r) && i < 256
    ensures r < |os.s.mem| && os.s.used[r] && r in g.own
    ensures Get(os.s, r, i) == if i == 0 then TableEntry(os.kernel.pdp) else ZERO_ENTRY
  {
    var p := Place(r, 4, 0);
    assert RootOk(g, r) && PlaceOk(os.s, g, p) && EntryOk(os.s, g, p, i);
    assert Get(os.s, os.kernel.pml4, i) == g.kernel[i];
  }

  /** The word that SetPageContent writes for an identity-mapped address. */
  function Redirected(s: Phys, a: LinearAddress, f: nat): Phys {
    Put(s, Base(a), a.pTable, Get(s, Base(a), a.pTable).SetPtr(f).(writeable := true))
  }

  /** The two tables that a walk of an identity-mapped address goes through, and its large page. */
  lemma IdentityPath(s: Phys, k: KernelTables, t: nat, a: LinearAddress, f: nat)
    requires Identity(s, k) && Identical(a) && Get(s, t, 0) == TableEntry(k.pdp)
    ensures SetPageContent(s, t, 4, a, f) == Redirected(s, a, f)
  {
    var dir := k.dirs[a.pDirPointer];
    assert Get(s, k.dirs[a.pDirPointer], a.pDirectory) == LargeEntry(Base(a));
    assert Get(s, k.pdp, a.pDirPointer) == TableEntry(dir);
    assert SetPageContent(s, dir, 2, a, f) == Redirected(s, a, f);
    assert SetPageContent(s, k.pdp, 3, a, f) == SetPageContent(s, dir, 2, a, f);
  }

  /** CopyOnePage for such an address. */
  lemma CopyIdentical(s: Phys, k: KernelTables, r: nat, a: LinearAddress, f: nat)
    requires Sized(s) && Identity(s, k) && Identical(a) && Get(s, r, 0) == TableEntry(k.pdp)
    requires NewPageMap(s).frame == Some(f) && f != r && f !in Static(k)
    ensures f < |s.used| && !s.used[f] && CopyOnePage(s, r, a) == Outcome(Redirected(Taken(s, a, f), a, f), true)
    ensures !Get(Redirected(Taken(s, a, f), a, f), r, 0).user
  {
    NewPageMapFacts(s);
    var s0, s1 := NewPageMap(s).s, Taken(s, a, f);
    IdentityKept(s, s0, k);
    IdentityKept(s, s1, k);
    KernelWalk(s0, k, r, a);
    IdentityPath(s1, k, r, a, f);
    assert s1 == Store(s0, f, Load(s0, Base(a) + a.pTable));
    assert Load(s1, r) == Load(s, r);
  }

  /** Frame `f` taken and filled with the bytes at `a`. */
  function Taken(s: Phys, a: LinearAddress, f: nat): Phys {
    Store(s.(used := Mark(s.used, f, 1, true)), f, Load(NewPageMap(s).s, Base(a) + a.pTable))
  }

  /** A user store to an identity-mapped address: the handler takes a frame, copies the bytes there and
      writes its number into a word of the frame at which the 2 MiB page begins. The store itself is
      not done: retried, it faults again. */
  lemma StoreFault(os: Os, g: Ghost, r: nat, a: LinearAddress)
    requires OsInv(os, g) && Running(os, r) && Identical(a)
    ensures var o := Access(os.s, r, os.apps[r].demand, a, true);
      && (forall off: Index, word :: UserStore(os.s, r, os.apps[r].demand, a, off, word) == Outcome(o.s, false))
      && match NewPageMap(os.s).frame
         case None => o == Outcome(os.s, false)
         case Some(f) => f < |os.s.used| && !os.s.used[f] && o == Outcome(Redirected(Taken(os.s, a, f), a, f), true)
  {
    hide Identity, Inv, Redirected, Taken, Walk, NewPageMap, SetPageContent, Store;
    OutsideAccess(os, g, r, a);
    TopEntry(os, g, r, 0);
    RunningKnown(os, g, r);
    NewPageMapFacts(os.s);
    if NewPageMap(os.s).frame.Some? {
      StaticFrames(os, g, NewPageMap(os.s).frame.value);
      CopyIdentical(os.s, os.kernel, r, a, NewPageMap(os.s).frame.value);
    }
  }

  /** A frame that the allocator gives out is none of the kernel's tables, nor the table of a space. */
  lemma StaticFrames(os: Os, g: Ghost, f: nat)
    requires OsInv(os, g) && f < |os.s.used| && !os.s.used[f]
    ensures f !in Static(os.kernel) && f !in g.own
  {
    OwnedFrameUsed(os.s, g, f);
  }

  lemma OwnedUsed(s: Phys, g: Ghost, f: nat)
    requires Inv(s, g) && f in g.own
    ensures 0 < f < |s.used| && s.used[f]
  {
    assert OwnerOk(g, f) && PlaceOk(s, g, g.own[f]);
  }

  /** Frames that serve nobody may change, and be taken, without harm. */
  lemma UnownedKept(s: Phys, g: Ghost, s': Phys)
    requires Inv(s, g) && g.detached.None?
    requires |s'.mem| == |s.mem| && |s'.used| == |s.used| && s'.lo == s.lo && s'.hi == s.hi
    requires forall f <- g.own :: Load(s', f) == Load(s, f) && (f < |s.used| && s.used[f] ==> s'.used[f])
    ensures Inv(s', g) && forall q, u: nat {:trigger Content(s', g, q, u)} :: q in g.origin ==> Content(s', g, q, u) == Content(s, g, q, u)
  {
    forall q | q in g.tab ensures PlaceOk(s', g, q) { assert PlaceOk(s, g, q); }
    forall q, j: Index | q in g.tab && 1 <= q.level && q.root in g.origin ensures EntryOk(s', g, q, j) {
      assert EntryOk(s, g, q, j) && PlaceOk(s, g, q);
      EntryFrame(s, g, s', g, q, j);
    }
    forall q, u: nat | q in g.origin ensures Content(s', g, q, u) == Content(s, g, q, u) {
      var p := Place(q, 1, u / 512);
      if p in g.tab { assert PlaceOk(s, g, p); }
      assert Flat(s', g, q, u) == Flat(s, g, q, u);
      if Flat(s, g, q, u).Some? { PageFrame(s, g, q, u); }
    }
  }

  /** A store to the first 2 MiB costs a frame, and changes frame 0, but nothing that a space reads. */
  lemma LowStore(os: Os, g: Ghost, r: nat, a: LinearAddress, off: Index, word: PageMapEntry)
    requires OsInv(os, g) && Running(os, r) && Lowest(a)
    ensures OsInv(Step(os, Write(r, a, off, word)), g)
    ensures forall q :: q in g.origin ==> SpaceOf(Step(os, Write(r, a, off, word)).s, q) == SpaceOf(os.s, q)
  {
    hide Inv, Identity, SpaceOf, UserStore, Access, Content, NewPageMap;
    RunningKnown(os, g, r);
    StoreFault(os, g, r, a);
    forall f <- g.own ensures 0 < f < |os.s.used| && os.s.used[f] { OwnedUsed(os.s, g, f); }
    var s' := UserStore(os.s, r, os.apps[r].demand, a, off, word).s;
    UnownedKept(os.s, g, s');
    BootedKept(os, g, s', g, r);
    forall q | q in g.origin ensures SpaceOf(s', q) == SpaceOf(os.s, q) { SpaceUnchanged(os.s, g, q, s', g, q); }
  }
}
