/** InitializeMemoryManager: which frames the firmware's memory map leaves free. */
module BootMemory {
  import opened Wrappers
  import opened FrameSearch
  import opened FrameAllocator
  import opened IdentityMap

  datatype MemoryDescriptor = MemoryDescriptor(kind: nat, physical_start: nat, number_of_pages: nat)
  {
    function End(): nat { physical_start + number_of_pages * 4096 }

    /** Boot-services code and data, and conventional memory. */
    predicate Available() { kind == 3 || kind == 4 || kind == 7 }

    /** Frame `k` lies in the region. */
    predicate Has(k: nat) { physical_start / 4096 <= k < physical_start / 4096 + number_of_pages }
  }

  /** The memory types of the UEFI specification, section 7.2, in the order of their numbers. */
  datatype MemoryType =
    | Reserved | LoaderCode | LoaderData | BootServicesCode | BootServicesData | RuntimeServicesCode | RuntimeServicesData
    | ConventionalMemory | UnusableMemory | ACPIReclaimMemory | ACPIMemoryNVS | MemoryMappedIO | MemoryMappedIOPortSpace
    | PalCode | PersistentMemory

  function MemoryTypes(): seq<MemoryType> {
    [Reserved, LoaderCode, LoaderData, BootServicesCode, BootServicesData, RuntimeServicesCode, RuntimeServicesData,
     ConventionalMemory, UnusableMemory, ACPIReclaimMemory, ACPIMemoryNVS, MemoryMappedIO, MemoryMappedIOPortSpace,
     PalCode, PersistentMemory]
  }

  /** The memory that nobody needs once the firmware's boot services have ended, and no other. */
  lemma AvailableTypes(d: MemoryDescriptor)
    ensures d.kind < |MemoryTypes()| ==>
      (d.Available() <==> MemoryTypes()[d.kind] in {BootServicesCode, BootServicesData, ConventionalMemory})
    ensures d.kind >= |MemoryTypes()| ==> !d.Available()
  {
  }

  /** 128 MiB of frames for the kernel heap. */
  const HEAP_FRAMES: nat := 0x8000

  /** The descriptors of a map come in address order, page aligned, without overlap. */
  predicate Sorted(map_: seq<MemoryDescriptor>) {
    && (forall i :: 0 <= i < |map_| ==> map_[i].physical_start % 4096 == 0)
    && (forall i, j :: 0 <= i < j < |map_| ==> map_[i].End() <= map_[j].physical_start)
  }

  /** Some available region of the map has frame `k`. */
  predicate Covered(map_: seq<MemoryDescriptor>, k: nat) {
    exists i :: 0 <= i < |map_| && map_[i].Available() && map_[i].Has(k)
  }

  /** The end of the last available region among the first `n`. */
  function AvailableEnd(map_: seq<MemoryDescriptor>, n: nat): nat
    requires n <= |map_|
  {
    if n == 0 then 0
    else if map_[n - 1].Available() then map_[n - 1].End()
    else AvailableEnd(map_, n - 1)
  }

  /** In a sorted map the last available region ends where or before the next region starts. */
  lemma {:induction false} AvailableEndBefore(map_: seq<MemoryDescriptor>, n: nat, i: nat)
    requires Sorted(map_) && n <= i < |map_|
    ensures AvailableEnd(map_, n) <= map_[i].physical_start && AvailableEnd(map_, n) % 4096 == 0
  {
    if n > 0 && !map_[n - 1].Available() {
      AvailableEndBefore(map_, n - 1, i);
    }
  }

  lemma {:induction false} AvailableEndAligned(map_: seq<MemoryDescriptor>, n: nat)
    requires Sorted(map_) && n <= |map_|
    ensures AvailableEnd(map_, n) % 4096 == 0
    ensures forall i :: 0 <= i < n && map_[i].Available() ==> map_[i].End() <= AvailableEnd(map_, n)
  {
    if n > 0 {
      AvailableEndAligned(map_, n - 1);
      if map_[n - 1].Available() {
        assert forall i :: 0 <= i < n - 1 ==> map_[i].End() <= map_[n - 1].physical_start;
      }
    }
  }

  /** Frame `k` once the first `n` descriptors have been seen: up to the end of the last available
      one it is marked unless an available region has it; nothing is marked past the last one. */
  ghost predicate FrameMarked(map_: seq<MemoryDescriptor>, n: nat, used: seq<bool>, k: nat)
    requires n <= |map_| && k < |used|
  {
    if k < AvailableEnd(map_, n) / 4096 then used[k] <==> !Covered(map_[..n], k)
    else used[k] ==> n > 0 && k < map_[n - 1].End() / 4096
  }

  ghost predicate MarkedUpTo(map_: seq<MemoryDescriptor>, n: nat, used: seq<bool>)
    requires n <= |map_|
  {
    |used| == FRAME_COUNT && forall k: nat {:trigger FrameMarked(map_, n, used, k)} :: k < FRAME_COUNT ==> FrameMarked(map_, n, used, k)
  }

  /** One round of the loop on the allocation bits. */
  function MarkDescriptor(used: seq<bool>, available_end: nat, d: MemoryDescriptor): seq<bool> {
    var gap := if available_end < d.physical_start
               then Mark(used, available_end / 4096, (d.physical_start - available_end) / 4096, true) else used;
    if d.Available() then gap else Mark(gap, d.physical_start / 4096, d.number_of_pages, true)
  }

  lemma CoveredNext(map_: seq<MemoryDescriptor>, n: nat, k: nat)
    requires n < |map_|
    ensures Covered(map_[..n + 1], k) <==> Covered(map_[..n], k) || (map_[n].Available() && map_[n].Has(k))
  {
    if Covered(map_[..n], k) {
      var i :| 0 <= i < n && map_[..n][i].Available() && map_[..n][i].Has(k);
      assert map_[..n + 1][i] == map_[i];
    }
    if map_[n].Available() && map_[n].Has(k) {
      assert map_[..n + 1][n] == map_[n];
    }
  }

  lemma MarkNext(map_: seq<MemoryDescriptor>, n: nat, used: seq<bool>)
    requires Sorted(map_) && n < |map_| && MarkedUpTo(map_, n, used)
    ensures MarkedUpTo(map_, n + 1, MarkDescriptor(used, AvailableEnd(map_, n), map_[n]))
  {
    var after := MarkDescriptor(used, AvailableEnd(map_, n), map_[n]);
    var m := n + 1;
    forall k: nat | k < FRAME_COUNT ensures FrameMarked(map_, m, after, k) {
      MarkNextFrame(map_, n, used, k);
    }
  }

  lemma MarkNextFrame(map_: seq<MemoryDescriptor>, n: nat, used: seq<bool>, k: nat)
    requires Sorted(map_) && n < |map_| && k < |used| && FrameMarked(map_, n, used, k)
    ensures FrameMarked(map_, n + 1, MarkDescriptor(used, AvailableEnd(map_, n), map_[n]), k)
  {
    hide MarkDescriptor, Mark, Sorted, Covered;
    var d := map_[n];
    assert d.physical_start % 4096 == 0 by { SortedAt(map_, n, n); }
    AvailableEndBefore(map_, n, n);
    CoveredNext(map_, n, k);
    NotCoveredBeyond(map_, n, k);
    MarkFrame(used, AvailableEnd(map_, n), d, k);
    FrameBounds(d, AvailableEnd(map_, n));
    if n > 0 {
      SortedAt(map_, n - 1, n);
      FrameBounds(d, map_[n - 1].End());
    }
    hide MemoryDescriptor.End;
  }

  lemma FrameBounds(d: MemoryDescriptor, before: nat)
    requires before <= d.physical_start && d.physical_start % 4096 == 0
    ensures before / 4096 <= d.physical_start / 4096 && d.End() / 4096 == d.physical_start / 4096 + d.number_of_pages
  {
  }

  lemma SortedAt(map_: seq<MemoryDescriptor>, i: nat, j: nat)
    requires Sorted(map_) && i <= j < |map_|
    ensures map_[i].physical_start % 4096 == 0 && map_[j].physical_start % 4096 == 0
    ensures i < j ==> map_[i].End() <= map_[j].physical_start
  {
  }

  lemma MarkFrame(used: seq<bool>, e: nat, d: MemoryDescriptor, k: nat)
    requires k < |used| && e % 4096 == 0 && d.physical_start % 4096 == 0 && e <= d.physical_start
    ensures MarkDescriptor(used, e, d)[k] <==> used[k] || e / 4096 <= k < d.physical_start / 4096 || (!d.Available() && d.Has(k))
  {
    assert (d.physical_start - e) / 4096 == d.physical_start / 4096 - e / 4096;
  }

  lemma NotCoveredBeyond(map_: seq<MemoryDescriptor>, n: nat, k: nat)
    requires Sorted(map_) && n <= |map_|
    ensures AvailableEnd(map_, n) / 4096 <= k ==> !Covered(map_[..n], k)
  {
    AvailableEndAligned(map_, n);
    forall i | 0 <= i < n && map_[i].Available() ensures map_[i].Has(k) ==> k < AvailableEnd(map_, n) / 4096 {
      assert map_[i].End() / 4096 == map_[i].physical_start / 4096 + map_[i].number_of_pages;
    }
  }

  /** What descriptor `n` has marked, the gap before it and itself unless it is available, lies in the bitmap,
      which ends at 128 GiB. */
  predicate MarksInside(map_: seq<MemoryDescriptor>, n: nat)
    requires n < |map_|
  {
    var d := map_[n];
    && (AvailableEnd(map_, n) < d.physical_start ==> d.physical_start <= FRAME_COUNT * 4096)
    && (!d.Available() && d.number_of_pages > 0 ==> d.End() <= FRAME_COUNT * 4096)
  }

  /** So does everything that the map has marked, and the range that is managed in the end. */
  predicate Inside(map_: seq<MemoryDescriptor>) {
    (forall n: nat :: n < |map_| ==> MarksInside(map_, n)) && AvailableEnd(map_, |map_|) <= FRAME_COUNT * 4096
  }

  /** A map as firmware gives it: memory up to 1 GiB and a reserved region at 256 GiB. */
  lemma HighRegion()
    ensures var map_ := [MemoryDescriptor(7, 0, 0x4_0000), MemoryDescriptor(0, 0x40_0000_0000, 16)];
      Sorted(map_) && !Inside(map_)
  {
    var map_ := [MemoryDescriptor(7, 0, 0x4_0000), MemoryDescriptor(0, 0x40_0000_0000, 16)];
    assert !MarksInside(map_, 1);
  }

  /** A machine with 96 GiB of memory: the loop sets up an allocator whose last frames the kernel's identity map
      does not reach. */
  lemma LargeMachine()
    ensures var map_ := [MemoryDescriptor(7, 0, 0x180_0000)];
      Sorted(map_) && Inside(map_) && AvailableEnd(map_, 1) / 4096 > IDENTITY_FRAMES
  {
    var map_ := [MemoryDescriptor(7, 0, 0x180_0000)];
    assert AvailableEnd(map_, 1) == map_[0].End();
    assert forall n: nat :: n < |map_| ==> MarksInside(map_, n);
  }

  lemma NothingSeen(map_: seq<MemoryDescriptor>, used: seq<bool>)
    requires |used| == FRAME_COUNT && forall k :: 0 <= k < FRAME_COUNT ==> !used[k]
    ensures MarkedUpTo(map_, 0, used)
  {
  }

  lemma AllMarked(map_: seq<MemoryDescriptor>, used: seq<bool>)
    requires MarkedUpTo(map_, |map_|, used) && AvailableEnd(map_, |map_|) <= FRAME_COUNT * 4096
    ensures |used| == FRAME_COUNT
    ensures forall k :: 0 <= k < AvailableEnd(map_, |map_|) / 4096 ==> (used[k] <==> !Covered(map_, k))
  {
    hide Covered;
    assert map_[..|map_|] == map_;
    forall k: nat | k < AvailableEnd(map_, |map_|) / 4096 ensures used[k] <==> !Covered(map_, k) {
      assert FrameMarked(map_, |map_|, used, k);
    }
  }

  lemma MarkNothing(used: seq<bool>, start: nat)
    ensures Mark(used, start, 0, true) == used
  {
  }

  /** The loop over the memory map, and then the range: frame 0 is never given out. The answer is false
      where the next bit to be marked, or the managed range, would lie outside the bitmap. */
  method MarkMemoryMap(map_: seq<MemoryDescriptor>, manager: BitmapMemoryManager) returns (inside: bool)
    requires Sorted(map_) && manager.Valid() && forall k :: 0 <= k < FRAME_COUNT ==> !manager.Used()[k]
    modifies manager, manager.alloc_map
    ensures inside <==> Inside(map_)
    ensures inside ==> manager.Valid() && manager.range_begin == 1 && manager.range_end == AvailableEnd(map_, |map_|) / 4096
    ensures inside ==> forall k :: 1 <= k < manager.range_end ==> (manager.Used()[k] <==> !Covered(map_, k))
  {
    hide Covered, Mark, Sorted, MarkedUpTo, FrameMarked;
    var available_end := 0;
    NothingSeen(map_, manager.Used());
    for n := 0 to |map_|
      invariant manager.Valid() && available_end == AvailableEnd(map_, n)
      invariant MarkedUpTo(map_, n, manager.Used()) && forall i: nat :: i < n ==> MarksInside(map_, i)
      modifies manager.alloc_map
    {
      ghost var before := manager.Used();
      var d := map_[n];
      SortedAt(map_, n, n);
      AvailableEndBefore(map_, n, n);
      FrameBounds(d, available_end);
      if available_end < d.physical_start {
        if d.physical_start > FRAME_COUNT * 4096 {
          assert !MarksInside(map_, n);
          return false;
        }
        manager.MarkAllocated(available_end / 4096, (d.physical_start - available_end) / 4096);
      }
      if d.Available() {
        available_end := d.End();
      } else {
        if d.number_of_pages > 0 && d.End() > FRAME_COUNT * 4096 {
          assert !MarksInside(map_, n);
          return false;
        }
        if d.number_of_pages > 0 {
          manager.MarkAllocated(d.physical_start / 4096, d.number_of_pages);
        } else {
          MarkNothing(manager.Used(), d.physical_start / 4096);
        }
      }
      assert manager.Used() == MarkDescriptor(before, AvailableEnd(map_, n), d);
      MarkNext(map_, n, before);
    }
    AvailableEndAligned(map_, |map_|);
    if available_end > FRAME_COUNT * 4096 {
      return false;
    }
    inside := true;
    ghost var marked := manager.Used();
    manager.SetMemoryRange(1, available_end / 4096);
    AllMarked(map_, marked);
  }

  /** Every frame of the heap-sized run at `h` is covered. */
  predicate CoveredRun(map_: seq<MemoryDescriptor>, h: nat) {
    forall k :: h <= k < h + HEAP_FRAMES ==> Covered(map_, k)
  }

  lemma FreeIsCovered(map_: seq<MemoryDescriptor>, used: seq<bool>, hi: nat, h: nat)
    requires 1 <= h && hi <= |used| && forall k :: 1 <= k < hi ==> (used[k] <==> !Covered(map_, k))
    ensures FreeRun(used, h, HEAP_FRAMES, hi) <==> h + HEAP_FRAMES <= hi && CoveredRun(map_, h)
  {
    hide Covered;
    if h + HEAP_FRAMES <= hi && !CoveredRun(map_, h) {
      var k: nat :| h <= k < h + HEAP_FRAMES && !Covered(map_, k);
      assert used[k];
    }
  }

  /** The whole of InitializeMemoryManager. The heap is the lowest run of 128 MiB of covered frames;
      without one the kernel stops. Beyond the heap a frame is free exactly when it is covered. */
  method InitializeMemoryManager(map_: seq<MemoryDescriptor>) returns (inside: bool,
                                 manager: BitmapMemoryManager, heap: Option<nat>)
    requires Sorted(map_)
    ensures inside <==> Inside(map_)
    ensures fresh(manager) && fresh(manager.alloc_map)
    ensures inside ==> manager.Valid() && manager.range_begin == 1 && manager.range_end == AvailableEnd(map_, |map_|) / 4096
    ensures inside && heap.Some? ==>
      1 <= heap.value && heap.value + HEAP_FRAMES <= manager.range_end && CoveredRun(map_, heap.value)
    ensures inside ==> forall h :: 1 <= h && h + HEAP_FRAMES <= manager.range_end && CoveredRun(map_, h) ==>
      heap.Some? && heap.value <= h
    ensures inside ==> forall k :: 1 <= k < manager.range_end ==>
      (manager.Used()[k] <==> !Covered(map_, k) || (heap.Some? && heap.value <= k < heap.value + HEAP_FRAMES))
  {
    hide Covered, CoveredRun, Sorted, Inside;
    manager := new BitmapMemoryManager();
    heap := None;
    inside := MarkMemoryMap(map_, manager);
    if !inside {
      return;
    }
    ghost var used := manager.Used();
    heap := manager.Allocate(HEAP_FRAMES);
    if heap.Some? {
      FreeIsCovered(map_, used, manager.range_end, heap.value);
    }
    forall h | 1 <= h && h + HEAP_FRAMES <= manager.range_end && CoveredRun(map_, h) ensures heap.Some? && heap.value <= h {
      FreeIsCovered(map_, used, manager.range_end, h);
    }
  }
}
