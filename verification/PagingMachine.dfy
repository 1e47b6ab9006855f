/** paging.cpp as it runs: page tables and allocation bits rewritten in place. Each method is proved
    to do what the function of the same name in PageTables and Faults says. */
module PagingMachine {
  import opened Wrappers
  import opened FrameSearch
  import opened PhysicalMemory
  import PageTables
  import Faults
  import opened IdentityMap
  import opened FrameAllocator

  class Machine {
    var mem: seq<Frame>
    var cr3: nat
    const manager: BitmapMemoryManager

    ghost predicate Valid()
      reads this, manager
    {
      manager.Valid() && |mem| == FRAME_COUNT
    }

    ghost function State(): Phys
      reads this, manager, manager.alloc_map
      requires Valid()
    {
      Phys(mem, manager.Used(), manager.range_begin, manager.range_end)
    }

    constructor (manager: BitmapMemoryManager, mem: seq<Frame>, boot: nat)
      requires manager.Valid() && |mem| == FRAME_COUNT
      ensures this.manager == manager && this.mem == mem && cr3 == boot && Valid()
    {
      this.manager := manager;
      this.mem := mem;
      cr3 := boot;
    }

    /** SetupIdentityPageTable: the static tables, which are distinct and zero at first, become the identity
        map of the first 64 GiB, and the processor uses it. */
    method SetupIdentityPageTable(k: KernelTables)
      requires Valid() && |k.dirs| == PAGE_DIR_COUNT && k.pml4 != k.pdp
      requires forall i :: 0 <= i < PAGE_DIR_COUNT ==> k.dirs[i] != k.pml4 && k.dirs[i] != k.pdp
      requires forall i, j :: 0 <= i < j < PAGE_DIR_COUNT ==> k.dirs[i] != k.dirs[j]
      requires forall f <- Static(k) :: f < FRAME_COUNT
      requires Load(State(), k.pml4) == ZeroFrame() && Load(State(), k.pdp) == ZeroFrame()
      modifies this`mem, this`cr3
      ensures Valid() && Identity(State(), k) && cr3 == k.pml4
      ensures forall f: nat :: f !in Static(k) ==> Load(State(), f) == old(Load(State(), f))
    {
      hide TableEntry, LargeEntry, Static, DirectoriesFilled, Identity;
      StaticHas(k);
      WriteEntry(k.pml4, 0, TableEntry(k.pdp));
      NoDirectories(State(), k);
      for i := 0 to PAGE_DIR_COUNT
        invariant Valid() && DirectoriesFilled(State(), k, i)
        invariant forall f: nat :: f !in Static(k) ==> Load(State(), f) == old(Load(State(), f))
        modifies this`mem
      {
        ghost var before := State();
        WriteEntry(k.pdp, i, TableEntry(k.dirs[i]));
        FillDirectory(k.dirs[i], i);
        assert Load(State(), k.pdp) == Load(before, k.pdp)[i := TableEntry(k.dirs[i])];
        NextDirectory(before, State(), k, i);
      }
      AllDirectories(State(), k);
      cr3 := k.pml4;
    }

    /** The 512 entries of directory `i`, 2 MiB apart. */
    method FillDirectory(dir: nat, i: nat)
      requires Valid() && dir < FRAME_COUNT
      modifies this`mem
      ensures Valid() && forall f: nat :: f != dir ==> Load(State(), f) == old(Load(State(), f))
      ensures forall n: Index :: Get(State(), dir, n) == LargeEntry((i * 512 + n) * 512)
    {
      for j := 0 to 512
        invariant Valid() && (forall f: nat :: f != dir ==> Load(State(), f) == old(Load(State(), f)))
        invariant forall n: Index :: n < j ==> Get(State(), dir, n) == LargeEntry((i * 512 + n) * 512)
        modifies this`mem
      {
        ghost var before := State();
        WriteEntry(dir, j, LargeEntry((i * 512 + j) * 512));
        forall n: Index ensures Get(State(), dir, n) == if n == j then LargeEntry((i * 512 + j) * 512) else Get(before, dir, n) {}
      }
    }

    /** A store to physical memory; there is nothing beyond the last frame. */
    method WriteFrame(f: nat, x: Frame)
      requires Valid()
      modifies this`mem
      ensures Valid() && State() == Store(old(State()), f, x)
    {
      if f < |mem| {
        mem := mem[f := x];
      }
    }

    function ReadFrame(f: nat): (x: Frame)
      requires Valid()
      reads this, manager, manager.alloc_map
      ensures x == Load(State(), f)
    {
      if f < |mem| then mem[f] else ZeroFrame()
    }

    method WriteEntry(t: nat, i: Index, e: PageMapEntry)
      requires Valid()
      modifies this`mem
      ensures Valid() && State() == Put(old(State()), t, i, e)
    {
      WriteFrame(t, ReadFrame(t)[i := e]);
    }

    method FreeFrame(f: nat)
      requires Valid()
      modifies manager.alloc_map
      ensures Valid() && State() == PhysicalMemory.Free(old(State()), f)
    {
      if f < FRAME_COUNT {
        manager.Free(f, 1);
      } else {
        assert Mark(manager.Used(), f, 1, false) == manager.Used();
      }
    }

    method NewPageMap() returns (r: Option<nat>)
      requires Valid()
      modifies this`mem, manager.alloc_map
      ensures Valid() && NewFrame(State(), r) == PhysicalMemory.NewPageMap(old(State()))
    {
      r := manager.Allocate(1);
      if r.Some? {
        WriteFrame(r.value, ZeroFrame());
      }
    }

    method SetNewPageMapIfNotPresent(t: nat, i: Index) returns (r: Option<nat>)
      requires Valid()
      modifies this`mem, manager.alloc_map
      ensures Valid() && NewFrame(State(), r) == PhysicalMemory.SetNewPageMapIfNotPresent(old(State()), t, i)
    {
      if ReadFrame(t)[i].present {
        return Some(ReadFrame(t)[i].addr);
      }
      var child_map := NewPageMap();
      if child_map.None? {
        return None;
      }
      var e := ReadFrame(t)[i].SetPtr(child_map.value).(present := true);
      WriteEntry(t, i, e);
      return Some(e.addr);
    }

    method SetupPageMap(t: nat, level: nat, addr: LinearAddress, num_4kpages: nat, writeable: bool) returns (remain: nat, ok: bool)
      requires Valid() && 1 <= level <= 4
      modifies this`mem, manager.alloc_map
      ensures Valid()
      ensures PageTables.Setup(State(), remain, ok) == PageTables.SetupPageMap(old(State()), t, level, addr, num_4kpages, writeable)
      decreases level
    {
      hide PhysicalMemory.SetNewPageMapIfNotPresent, Put;
      ghost var goal := PageTables.SetupPageMap(State(), t, level, addr, num_4kpages, writeable);
      var a := addr;
      remain := num_4kpages;
      while remain > 0
        invariant Valid() && PageTables.SetupPageMap(State(), t, level, a, remain, writeable) == goal
        decreases 512 - a.At(level)
      {
        var i := a.At(level);
        var child := SetNewPageMapIfNotPresent(t, i);
        if child.None? {
          return remain, false;
        }
        if level == 1 {
          WriteEntry(t, i, ReadFrame(t)[i].(user := true, writeable := writeable));
          remain := remain - 1;
        } else {
          WriteEntry(t, i, ReadFrame(t)[i].(user := true, writeable := true));
          var sub, fine := SetupPageMap(child.value, level - 1, a, remain, writeable);
          if !fine {
            return remain, false;
          }
          remain := sub;
        }
        if i == 511 {
          return remain, true;
        }
        a := a.Next(level);
      }
      return remain, true;
    }

    /** SetupPageMaps reports only whether an error occurred. */
    method SetupPageMaps(addr: LinearAddress, num_4kpages: nat, writeable: bool) returns (ok: bool)
      requires Valid()
      modifies this`mem, manager.alloc_map
      ensures Valid()
      ensures var q := PageTables.SetupPageMaps(old(State()), cr3, addr, num_4kpages, writeable);
              State() == q.s && ok == q.ok
    {
      var remain;
      remain, ok := SetupPageMap(cr3, 4, addr, num_4kpages, writeable);
    }

    method CopyPageMaps(dst: nat, src: nat, level: nat, start: nat) returns (ok: bool)
      requires Valid() && 1 <= level <= 4 && start <= 512
      modifies this`mem, manager.alloc_map
      ensures Valid() && PageTables.Outcome(State(), ok) == PageTables.CopyPageMaps(old(State()), dst, src, level, start)
      decreases level
    {
      ghost var goal := PageTables.CopyPageMaps(State(), dst, src, level, start);
      for i := start to 512
        invariant Valid() && PageTables.CopyPageMaps(State(), dst, src, level, i) == goal
      {
        if !ReadFrame(src)[i].present {
          continue;
        }
        if level == 1 {
          WriteEntry(dst, i, ReadFrame(src)[i].(writeable := false));
        } else {
          var table := NewPageMap();
          if table.None? {
            return false;
          }
          WriteEntry(dst, i, ReadFrame(src)[i].SetPtr(table.value));
          var fine := CopyPageMaps(table.value, ReadFrame(src)[i].addr, level - 1, 0);
          if !fine {
            return false;
          }
        }
      }
      return true;
    }

    method CleanPageMap(t: nat, level: nat)
      requires Valid() && 1 <= level <= 4
      modifies this`mem, manager.alloc_map
      ensures Valid() && State() == PageTables.CleanPageMap(old(State()), t, level, 0)
      decreases level
    {
      ghost var goal := PageTables.CleanPageMap(State(), t, level, 0);
      for i := 0 to 512
        invariant Valid() && PageTables.CleanPageMap(State(), t, level, i) == goal
      {
        var entry := ReadFrame(t)[i];
        if !entry.present {
          continue;
        }
        if level > 1 {
          CleanPageMap(entry.addr, level - 1);
        }
        if entry.writeable {
          FreeFrame(entry.addr);
        }
        WriteEntry(t, i, ZERO_ENTRY);
      }
    }

    method CleanPageMaps(slot: Index)
      requires Valid()
      modifies this`mem, manager.alloc_map
      ensures Valid() && State() == PageTables.CleanPageMaps(old(State()), cr3, slot)
    {
      var pdp_table := ReadFrame(cr3)[slot].addr;
      WriteEntry(cr3, slot, ZERO_ENTRY);
      CleanPageMap(pdp_table, 3);
      FreeFrame(pdp_table);
    }

    method SetupPML4() returns (r: Option<nat>)
      requires Valid()
      modifies this, manager.alloc_map
      ensures Valid() && NewFrame(State(), r) == PageTables.SetupPML4(old(State()), old(cr3))
      ensures cr3 == if r.Some? then r.value else old(cr3)
    {
      r := NewPageMap();
      if r.Some? {
        WriteFrame(r.value, ReadFrame(cr3)[..256] + ReadFrame(r.value)[256..]);
        cr3 := r.value;
      }
    }

    /** FreePML4 of the current space, after which the kernel's own table is in force. */
    method FreePML4(boot: nat)
      requires Valid()
      modifies this, manager.alloc_map
      ensures Valid() && State() == PhysicalMemory.Free(old(State()), old(cr3)) && cr3 == boot
    {
      var frame := cr3;
      cr3 := boot;
      FreeFrame(frame);
    }

    method SetPageContent(table: nat, part: nat, addr: LinearAddress, content: nat)
      requires Valid() && 1 <= part <= 4
      modifies this`mem
      ensures Valid() && State() == PageTables.SetPageContent(old(State()), table, part, addr, content)
      decreases part
    {
      var e := ReadFrame(table)[addr.At(part)];
      if part == 1 {
        WriteEntry(table, addr.At(1), e.SetPtr(content).(writeable := true));
      } else {
        SetPageContent(e.addr, part - 1, addr, content);
      }
    }

    /** What a load through the current table reads. */
    function Translate(addr: LinearAddress): (r: Option<Frame>)
      requires Valid()
      reads this, manager, manager.alloc_map
      ensures r == PageTables.Visible(State(), cr3, addr)
    {
      TranslateFrom(cr3, 4, addr)
    }

    function TranslateFrom(t: nat, level: nat, addr: LinearAddress): (r: Option<Frame>)
      requires Valid() && 1 <= level <= 4
      reads this, manager, manager.alloc_map
      ensures r.None? <==> PageTables.Walk(State(), t, level, addr).None?
      ensures r.Some? ==> r.value == Load(State(), PageTables.Walk(State(), t, level, addr).value.addr)
      decreases level
    {
      var e := ReadFrame(t)[addr.At(level)];
      if !e.present then None
      else if level == 1 then Some(ReadFrame(e.addr))
      else if PageTables.Large(e, level) then Some(ReadFrame(e.addr + PageTables.Within(addr, level)))
      else TranslateFrom(e.addr, level - 1, addr)
    }

    method CopyOnePage(addr: LinearAddress) returns (ok: bool)
      requires Valid()
      modifies this`mem, manager.alloc_map
      ensures Valid() && PageTables.Outcome(State(), ok) == PageTables.CopyOnePage(old(State()), cr3, addr)
    {
      var p := NewPageMap();
      if p.None? {
        return false;
      }
      var bytes := Translate(addr);
      WriteFrame(p.value, if bytes.Some? then bytes.value else ZeroFrame());
      SetPageContent(cr3, 4, addr, p.value);
      return true;
    }

    method HandlePageFault(d: Faults.DemandRange, present: bool, rw: bool, user: bool, cr2: LinearAddress) returns (ok: bool)
      requires Valid()
      modifies this`mem, manager.alloc_map
      ensures Valid()
      ensures PageTables.Outcome(State(), ok) == Faults.HandlePageFault(old(State()), cr3, d, present, rw, user, cr2)
    {
      if present && rw && user {
        ok := CopyOnePage(cr2);
        return;
      } else if present {
        return false;
      }
      if d.begin <= Faults.Value(cr2) < d.end {
        ok := SetupPageMaps(cr2, 1, true);
        return;
      }
      return false;
    }
  }
}
