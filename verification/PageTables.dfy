/** The page-table operations of paging.cpp as functions on physical memory. A loop over the
    entries of a table is a function of the index it has reached. */
module PageTables {
  import opened Wrappers
  import opened PhysicalMemory

  /** The outcome of SetupPageMap: the pages still to be mapped, and whether memory sufficed. */
  datatype Setup = Setup(s: Phys, remain: nat, ok: bool)

  function SetupPageMap(s: Phys, t: nat, level: nat, a: LinearAddress, n: nat, writeable: bool): Setup
    requires 1 <= level <= 4
    decreases level, 512 - a.At(level)
  {
    if n == 0 then Setup(s, 0, true)
    else
      var i := a.At(level);
      var child := SetNewPageMapIfNotPresent(s, t, i);
      if child.frame.None? then Setup(child.s, n, false)
      else if level == 1 then
        var s1 := SetFlags(child.s, t, i, writeable);
        if i == 511 then Setup(s1, n - 1, true)
        else SetupPageMap(s1, t, level, a.Next(level), n - 1, writeable)
      else
        var s1 := SetFlags(child.s, t, i, true);
        var sub := SetupPageMap(s1, child.frame.value, level - 1, a, n, writeable);
        if !sub.ok then Setup(sub.s, n, false)
        else if i == 511 then sub
        else SetupPageMap(sub.s, t, level, a.Next(level), sub.remain, writeable)
  }

  /** The `user` and `writeable` bits that SetupPageMap stores in the entry it visits. */
  function SetFlags(s: Phys, t: nat, i: Index, writeable: bool): Phys {
    Put(s, t, i, Get(s, t, i).(user := true, writeable := writeable))
  }

  /** SetupPageMaps drops the count of unmapped pages and keeps only the error. */
  function SetupPageMaps(s: Phys, cr3: nat, a: LinearAddress, n: nat, writeable: bool): Setup {
    SetupPageMap(s, cr3, 4, a, n, writeable)
  }

  datatype Outcome = Outcome(s: Phys, ok: bool)

  /** CopyPageMaps from entry `i` on: the tables are duplicated, the pages shared read-only. */
  function CopyPageMaps(s: Phys, dst: nat, src: nat, level: nat, i: nat): Outcome
    requires 1 <= level <= 4
    decreases level, 512 - i
  {
    if i >= 512 then Outcome(s, true)
    else
      var e := Get(s, src, i);
      if !e.present then CopyPageMaps(s, dst, src, level, i + 1)
      else if level == 1 then
        CopyPageMaps(Put(s, dst, i, e.(writeable := false)), dst, src, level, i + 1)
      else
        var table := NewPageMap(s);
        if table.frame.None? then Outcome(table.s, false)
        else
          var s1 := Put(table.s, dst, i, Get(table.s, src, i).SetPtr(table.frame.value));
          var sub := CopyPageMaps(s1, table.frame.value, Get(s1, src, i).addr, level - 1, 0);
          if !sub.ok then sub else CopyPageMaps(sub.s, dst, src, level, i + 1)
  }

  /** CleanPageMap from entry `i` on: frees what the entries own and clears them. */
  function CleanPageMap(s: Phys, t: nat, level: nat, i: nat): Phys
    requires 1 <= level <= 4
    decreases level, 512 - i
  {
    if i >= 512 then s
    else
      var e := Get(s, t, i);
      if !e.present then CleanPageMap(s, t, level, i + 1)
      else
        var s1 := if level > 1 then CleanPageMap(s, e.addr, level - 1, 0) else s;
        var s2 := if e.writeable then Free(s1, e.addr) else s1;
        CleanPageMap(Put(s2, t, i, ZERO_ENTRY), t, level, i + 1)
  }

  function CleanPageMaps(s: Phys, cr3: nat, slot: Index): Phys {
    var pdp := Get(s, cr3, slot).addr;
    Free(CleanPageMap(Put(s, cr3, slot, ZERO_ENTRY), pdp, 3, 0), pdp)
  }

  /** SetPageContent: redirect the page of `a` to `content`, writeable. */
  function SetPageContent(s: Phys, t: nat, part: nat, a: LinearAddress, content: nat): Phys
    requires 1 <= part <= 4
    decreases part
  {
    var e := Get(s, t, a.At(part));
    if part == 1 then Put(s, t, a.At(1), e.SetPtr(content).(writeable := true))
    else SetPageContent(s, e.addr, part - 1, a, content)
  }

  /** An entry that maps a page of 2 MiB or 1 GiB itself, for the processor though not for the paging code. */
  predicate Large(e: PageMapEntry, level: nat) { e.huge && 2 <= level <= 3 }

  /** The 4 KiB page of `a` within such a page. */
  function Within(a: LinearAddress, level: nat): nat {
    if level == 2 then a.pTable else a.pDirectory * 512 + a.pTable
  }

  /** The processor's walk: the entry that maps the page of `a`, if every level is present. */
  function Walk(s: Phys, t: nat, level: nat, a: LinearAddress): Option<PageMapEntry>
    requires 1 <= level <= 4
    decreases level
  {
    var e := Get(s, t, a.At(level));
    if !e.present then None
    else if level == 1 then Some(e)
    else if Large(e, level) then Some(e.(addr := e.addr + Within(a, level)))
    else Walk(s, e.addr, level - 1, a)
  }

  /** The bytes a program sees in the page of `a`. */
  function Visible(s: Phys, cr3: nat, a: LinearAddress): Option<Frame> {
    match Walk(s, cr3, 4, a)
    case Some(e) => Some(Load(s, e.addr))
    case None => None
  }

  /** CopyOnePage: a fresh frame takes the bytes now visible at `a` and replaces the page. */
  function CopyOnePage(s: Phys, cr3: nat, a: LinearAddress): Outcome {
    var p := NewPageMap(s);
    if p.frame.None? then Outcome(p.s, false)
    else
      var bytes := Visible(p.s, cr3, a);
      var s1 := Store(p.s, p.frame.value, if bytes.Some? then bytes.value else ZeroFrame());
      Outcome(SetPageContent(s1, cr3, 4, a, p.frame.value), true)
  }

  /** SetupPML4: a new top table that shares the lower (kernel) half of the current one. */
  function SetupPML4(s: Phys, cr3: nat): NewFrame {
    var p := NewPageMap(s);
    if p.frame.None? then p
    else NewFrame(Store(p.s, p.frame.value, Load(p.s, cr3)[..256] + Load(p.s, p.frame.value)[256..]), p.frame)
  }
}
