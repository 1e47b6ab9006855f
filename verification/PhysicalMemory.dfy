/** Physical memory as the paging code sees it: an array of 4 KiB frames, each read either as a
    table of 512 page-map entries or as 512 words of page contents, together with the bits of the
    frame allocator. */
module PhysicalMemory {
  import opened Wrappers
  import opened FrameSearch

  /** The `addr` field of an entry is 40 bits wide. */
  const ADDR_LIMIT: nat := 0x100_0000_0000

  type Index = i: nat | i < 512

  /** The bit fields of a 64-bit entry. The paging code never looks at `huge`, which the processor does,
      nor at `rest`, the 20 bits of the other flags above `user` and of the two unnamed fields. */
  datatype PageMapEntry = PageMapEntry(present: bool, writeable: bool, user: bool, huge: bool, rest: nat, addr: nat)
  {
    /** SetPtr: the frame number is truncated to the 40 bits of the field. */
    function SetPtr(frame: nat): PageMapEntry {
      PageMapEntry(present, writeable, user, huge, rest, frame % ADDR_LIMIT)
    }
  }

  /** The entry whose `data` is zero. */
  const ZERO_ENTRY := PageMapEntry(false, false, false, false, 0, 0)

  type Frame = f: seq<PageMapEntry> | |f| == 512 witness seq(512, _ => ZERO_ENTRY)

  /** A frame after `memset` to zero. */
  function ZeroFrame(): Frame { seq(512, _ => ZERO_ENTRY) }

  datatype Phys = Phys(mem: seq<Frame>, used: seq<bool>, lo: nat, hi: nat)

  /** Frame 0 is outside the range that the allocator manages. */
  ghost predicate Sized(s: Phys) {
    |s.mem| == |s.used| <= FRAME_COUNT && s.hi <= |s.used| && 1 <= s.lo
  }

  function Load(s: Phys, f: nat): Frame {
    if f < |s.mem| then s.mem[f] else ZeroFrame()
  }

  function Store(s: Phys, f: nat, x: Frame): Phys {
    if f < |s.mem| then s.(mem := s.mem[f := x]) else s
  }

  function Get(s: Phys, f: nat, i: Index): PageMapEntry {
    Load(s, f)[i]
  }

  function Put(s: Phys, f: nat, i: Index, e: PageMapEntry): Phys {
    Store(s, f, Load(s, f)[i := e])
  }

  /** Memory after an allocation, and the frame it yielded unless memory is exhausted. */
  datatype NewFrame = NewFrame(s: Phys, frame: Option<nat>)

  /** NewPageMap: take the lowest free frame and clear it. */
  function NewPageMap(s: Phys): NewFrame {
    match FirstFit(s.used, s.lo, s.hi, 1)
    case Some(f) => NewFrame(Store(s.(used := Mark(s.used, f, 1, true)), f, ZeroFrame()), Some(f))
    case None => NewFrame(s, None)
  }

  /** Free of a single frame. */
  function Free(s: Phys, f: nat): Phys {
    s.(used := Mark(s.used, f, 1, false))
  }

  function SetNewPageMapIfNotPresent(s: Phys, t: nat, i: Index): NewFrame {
    if Get(s, t, i).present then NewFrame(s, Some(Get(s, t, i).addr))
    else
      var n := NewPageMap(s);
      if n.frame.None? then n
      else
        var e := Get(n.s, t, i).SetPtr(n.frame.value).(present := true);
        NewFrame(Put(n.s, t, i, e), Some(e.addr))
  }

  /** A linear address split into its fields. */
  datatype LinearAddress = LinearAddress(offset: nat, pTable: Index, pDirectory: Index, pDirPointer: Index, pml4: Index)
  {
    function At(level: nat): Index {
      if level <= 1 then pTable else if level == 2 then pDirectory else if level == 3 then pDirPointer else pml4
    }

    /** Advance field `level` and clear the table fields below it. */
    function Next(level: nat): LinearAddress
      requires 1 <= level <= 4 && At(level) < 511
    {
      if level == 1 then LinearAddress(offset, pTable + 1, pDirectory, pDirPointer, pml4)
      else if level == 2 then LinearAddress(offset, 0, pDirectory + 1, pDirPointer, pml4)
      else if level == 3 then LinearAddress(offset, 0, 0, pDirPointer + 1, pml4)
      else LinearAddress(offset, 0, 0, 0, pml4 + 1)
    }

    /** The digits above `level`: the number, among the tables of that level, of the table that
        holds this address. Level 0 is the page itself. */
    function Prefix(level: nat): nat {
      if level >= 4 then 0
      else if level == 3 then pml4
      else if level == 2 then pml4 * 512 + pDirPointer
      else if level == 1 then (pml4 * 512 + pDirPointer) * 512 + pDirectory
      else ((pml4 * 512 + pDirPointer) * 512 + pDirectory) * 512 + pTable
    }

    /** The virtual page number. */
    function Vpn(): nat { Prefix(0) }

    /** One past the last page that the table of `level` holding this address can map. */
    function TableEnd(level: nat): nat {
      if level == 0 then Prefix(0) + 1
      else if level == 1 then (Prefix(1) + 1) * 512
      else if level == 2 then (Prefix(2) + 1) * 0x4_0000
      else if level == 3 then (Prefix(3) + 1) * 0x800_0000
      else 0x10_0000_0000
    }
  }

  /** How one step of the walk through a table relates to the pages it covers. */
  lemma AddressStep(a: LinearAddress, level: nat)
    requires 1 <= level <= 4
    ensures a.Prefix(level - 1) == a.Prefix(level) * 512 + a.At(level)
    ensures a.Vpn() < a.TableEnd(level - 1) <= a.TableEnd(level)
    ensures a.At(level) == 511 <==> a.TableEnd(level - 1) == a.TableEnd(level)
    ensures a.At(level) < 511 ==>
      var b := a.Next(level);
      && b.Vpn() == a.TableEnd(level - 1) && b.Prefix(level) == a.Prefix(level)
      && b.TableEnd(level) == a.TableEnd(level) && b.At(level) == a.At(level) + 1
  {
    if level == 1 {
    } else if level == 2 {
    } else if level == 3 {
    } else {
    }
  }

  lemma NewPageMapFacts(s: Phys)
    requires Sized(s)
    ensures NewPageMap(s).frame.None? ==> NewPageMap(s).s == s && forall f :: s.lo <= f < s.hi ==> s.used[f]
    ensures NewPageMap(s).frame.Some? ==>
      var f := NewPageMap(s).frame.value;
      && 0 < f < |s.used| && !s.used[f] && s.lo <= f < s.hi && f % ADDR_LIMIT == f
      && NewPageMap(s).s == s.(used := s.used[f := true], mem := s.mem[f := ZeroFrame()])
  {
    match FirstFit(s.used, s.lo, s.hi, 1)
    case None =>
      forall f | s.lo <= f < s.hi ensures s.used[f] {
        assert !FreeRun(s.used, f, 1, s.hi);
      }
    case Some(f) =>
      assert FreeRun(s.used, f, 1, s.hi);
      assert !s.used[f];
      assert Mark(s.used, f, 1, true) == s.used[f := true];
  }

  lemma PutTwice(s: Phys, t: nat, i: Index, a: PageMapEntry, b: PageMapEntry)
    ensures Put(Put(s, t, i, a), t, i, b) == Put(s, t, i, b)
    ensures t < |s.mem| ==> Get(Put(s, t, i, a), t, i) == a
  {
    if t < |s.mem| {
      assert Load(s, t)[i := a][i := b] == Load(s, t)[i := b];
      var x: Frame := Load(s, t)[i := a];
      var y: Frame := Load(s, t)[i := b];
      assert s.mem[t := x][t := y] == s.mem[t := y];
    }
  }
}
