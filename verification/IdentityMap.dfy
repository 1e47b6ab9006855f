/** The kernel half of every address space: the identity map of the first 64 GiB, for the kernel alone. */
module IdentityMap {
  import opened Wrappers
  import opened FrameSearch
  import opened PhysicalMemory
  import opened PageTables
  import opened Faults

  /** The frames of the static tables pml4_table, pdp_table and page_dir. */
  datatype KernelTables = KernelTables(pml4: nat, pdp: nat, dirs: seq<nat>)

  const PAGE_DIR_COUNT: nat := 64

  /** The words `| 0x003` and `| 0x083`. */
  function TableEntry(f: nat): PageMapEntry { PageMapEntry(true, true, false, false, 0, f) }
  function LargeEntry(f: nat): PageMapEntry { PageMapEntry(true, true, false, true, 0, f) }

  /** What SetupIdentityPageTable leaves in the three tables. */
  predicate Identity(s: Phys, k: KernelTables) {
    && |k.dirs| == PAGE_DIR_COUNT
    && (forall i: Index {:trigger Get(s, k.pml4, i)} :: Get(s, k.pml4, i) == if i == 0 then TableEntry(k.pdp) else ZERO_ENTRY)
    && (forall i: Index {:trigger Get(s, k.pdp, i)} :: Get(s, k.pdp, i) == if i < PAGE_DIR_COUNT then TableEntry(k.dirs[i]) else ZERO_ENTRY)
    && (forall i, j: Index {:trigger Get(s, k.dirs[i], j)} :: 0 <= i < PAGE_DIR_COUNT ==>
          Get(s, k.dirs[i], j) == LargeEntry((i * 512 + j) * 512))
  }

  /** The same as far as the first `i` directories. */
  predicate DirectoriesFilled(s: Phys, k: KernelTables, i: nat) {
    && i <= |k.dirs| == PAGE_DIR_COUNT
    && (forall n: Index {:trigger Get(s, k.pml4, n)} :: Get(s, k.pml4, n) == if n == 0 then TableEntry(k.pdp) else ZERO_ENTRY)
    && (forall n: Index {:trigger Get(s, k.pdp, n)} :: Get(s, k.pdp, n) == if n < i then TableEntry(k.dirs[n]) else ZERO_ENTRY)
    && (forall m, n: Index {:trigger Get(s, k.dirs[m], n)} :: 0 <= m < i ==> Get(s, k.dirs[m], n) == LargeEntry((m * 512 + n) * 512))
  }

  /** One more directory, which no table before it is. */
  lemma NextDirectory(s: Phys, s': Phys, k: KernelTables, i: nat)
    requires DirectoriesFilled(s, k, i) && i < PAGE_DIR_COUNT && k.pml4 != k.pdp
    requires forall m :: 0 <= m < PAGE_DIR_COUNT ==> k.dirs[m] != k.pml4 && k.dirs[m] != k.pdp
    requires forall m :: 0 <= m < i ==> k.dirs[m] != k.dirs[i]
    requires forall f: nat :: f != k.pdp && f != k.dirs[i] ==> Load(s', f) == Load(s, f)
    requires forall n: Index :: Get(s', k.dirs[i], n) == LargeEntry((i * 512 + n) * 512)
    requires Load(s', k.pdp) == Load(s, k.pdp)[i := TableEntry(k.dirs[i])]
    ensures DirectoriesFilled(s', k, i + 1)
  {
    hide TableEntry, LargeEntry;
    forall n: Index ensures Get(s', k.pml4, n) == Get(s, k.pml4, n) {}
    forall n: Index ensures Get(s', k.pdp, n) == if n == i then TableEntry(k.dirs[i]) else Get(s, k.pdp, n) {}
    forall m, n: Index | 0 <= m < i ensures Get(s', k.dirs[m], n) == LargeEntry((m * 512 + n) * 512) {
      assert Get(s, k.dirs[m], n) == LargeEntry((m * 512 + n) * 512);
    }
  }

  lemma NoDirectories(s: Phys, k: KernelTables)
    requires |k.dirs| == PAGE_DIR_COUNT && Load(s, k.pml4) == ZeroFrame()[0 := TableEntry(k.pdp)] && Load(s, k.pdp) == ZeroFrame()
    ensures DirectoriesFilled(s, k, 0)
  {
  }

  lemma AllDirectories(s: Phys, k: KernelTables)
    requires DirectoriesFilled(s, k, PAGE_DIR_COUNT)
    ensures Identity(s, k)
  {
  }

  lemma StaticHas(k: KernelTables)
    ensures k.pml4 in Static(k) && k.pdp in Static(k) && forall i :: 0 <= i < |k.dirs| ==> k.dirs[i] in Static(k)
  {
  }

  function Static(k: KernelTables): set<nat> { {k.pml4, k.pdp} + set i | 0 <= i < |k.dirs| :: k.dirs[i] }

  lemma IdentityKept(s: Phys, s': Phys, k: KernelTables)
    requires Identity(s, k) && forall f <- Static(k) :: Load(s', f) == Load(s, f)
    ensures Identity(s', k)
  {
    forall i: Index ensures Get(s', k.pml4, i) == Get(s, k.pml4, i) && Get(s', k.pdp, i) == Get(s, k.pdp, i) {}
    forall i, j: Index | 0 <= i < PAGE_DIR_COUNT ensures Get(s', k.dirs[i], j) == LargeEntry((i * 512 + j) * 512) {
      assert k.dirs[i] in Static(k) && Get(s', k.dirs[i], j) == Get(s, k.dirs[i], j);
    }
  }

  /** The addresses below 64 GiB. */
  predicate Identical(a: LinearAddress) { a.pml4 == 0 && a.pDirPointer < PAGE_DIR_COUNT }

  /** The first frame of the 2 MiB page that such an address lies in. */
  function Base(a: LinearAddress): nat { (a.pDirPointer * 512 + a.pDirectory) * 512 }

  /** The addresses of the first large page, which begins with frame 0. */
  predicate Lowest(a: LinearAddress) { Identical(a) && Base(a) == 0 }

  /** In any table with the kernel's lower half, they are all that is mapped there, and not for users. */
  lemma KernelWalk(s: Phys, k: KernelTables, t: nat, a: LinearAddress)
    requires Identity(s, k) && a.pml4 < 256 && Get(s, t, a.pml4) == Get(s, k.pml4, a.pml4)
    ensures Walk(s, t, 4, a) == if Identical(a) then Some(LargeEntry(Base(a) + a.pTable)) else None
    ensures forall write :: !Permits(s, t, 4, a, write)
  {
    if Identical(a) {
      var dir := k.dirs[a.pDirPointer];
      assert Get(s, k.dirs[a.pDirPointer], a.pDirectory) == LargeEntry(Base(a));
      assert Walk(s, dir, 2, a) == Some(LargeEntry(Base(a) + a.pTable));
      assert Get(s, k.pdp, a.pDirPointer) == TableEntry(dir);
      assert Walk(s, k.pdp, 3, a) == Walk(s, dir, 2, a);
    } else if a.pml4 == 0 {
      assert Get(s, k.pdp, a.pDirPointer) == ZERO_ENTRY;
    }
  }

  /** The frames of the first 64 GiB. */
  const IDENTITY_FRAMES: nat := 0x100_0000

  /** Where the kernel looks for frame `f`. */
  function FrameAddress(f: nat): LinearAddress {
    LinearAddress(0, f % 512, f / 512 % 512, f / 512 / 512 % 512, f / 512 / 512 / 512 % 512)
  }

  lemma FrameMapped(s: Phys, k: KernelTables, t: nat, f: nat)
    requires Identity(s, k) && Get(s, t, 0) == Get(s, k.pml4, 0) && f < FRAME_COUNT
    ensures Walk(s, t, 4, FrameAddress(f)) == if f < IDENTITY_FRAMES then Some(LargeEntry(f)) else None
  {
    hide Identity, Walk;
    var a := FrameAddress(f);
    assert f == (a.pDirPointer * 512 + a.pDirectory) * 512 + a.pTable && a.pml4 == 0;
    KernelWalk(s, k, t, a);
  }

  /** NewPageMap, which clears the frame that it takes, finds the frame where table `t` is in use. */
  predicate Clears(s: Phys, t: nat) {
    match NewPageMap(s).frame
    case None => true
    case Some(f) => Walk(s, t, 4, FrameAddress(f)).Some?
  }

  /** It does so whatever frames are free if and only if the allocator manages none beyond 64 GiB. */
  lemma ClearsIff(s: Phys, k: KernelTables, t: nat)
    requires Sized(s) && Identity(s, k) && Get(s, t, 0) == Get(s, k.pml4, 0)
    ensures (forall used: seq<bool> :: |used| == |s.used| ==> Clears(s.(used := used), t)) <==>
            s.hi <= IDENTITY_FRAMES || s.hi <= s.lo
  {
    hide Walk, FrameAddress;
    forall used: seq<bool> | |used| == |s.used| && NewPageMap(s.(used := used)).frame.Some?
      ensures var f := NewPageMap(s.(used := used)).frame.value;
        s.lo <= f < s.hi && !used[f] && (Clears(s.(used := used), t) <==> f < IDENTITY_FRAMES)
    {
      var s' := s.(used := used);
      NewPageMapFacts(s');
      IdentityKept(s, s', k);
      assert Get(s', t, 0) == Get(s', k.pml4, 0);
      FrameMapped(s', k, t, NewPageMap(s').frame.value);
    }
    if s.lo < s.hi && IDENTITY_FRAMES < s.hi {
      var used := seq(|s.used|, f => f != s.hi - 1);
      NewPageMapFacts(s.(used := used));
      assert |used| == |s.used| && !used[s.hi - 1];
      assert NewPageMap(s.(used := used)).frame.Some?;
      assert !Clears(s.(used := used), t);
    }
  }
}
