/** Runs of the kernel's memory events, and the simple machine they implement: every program has
    its own private copy of the image it was started from, and sees nobody else's writes. */
module Spaces {
  import opened Wrappers
  import opened FrameSearch
  import opened PhysicalMemory
  import opened PageTables
  import opened Ownership
  import opened Mapping
  import opened Sharing
  import opened Reclaim
  import opened Faults
  import opened Lifecycle
  import opened IdentityMap

  /** Pages of the user half: PML4 slots 256 to 511. */
  const USER_BEGIN: nat := 0x8_0000_0000
  const USER_END: nat := 0x10_0000_0000

  /** A started program: its template, the range it may fault in, and whether its launch succeeded. */
  datatype App = App(template: nat, demand: DemandRange, running: bool)

  /** `building` are the spaces that LoadApp is filling from an executable file, `templates` the
      finished ones it has registered in app_loads. `kernel` are the kernel's own tables. */
  datatype Os = Os(s: Phys, kernel: KernelTables, cr3: nat, building: set<nat>, templates: set<nat>, apps: map<nat, App>)

  datatype Event =
    | NewTemplate
    | MapImage(t: nat, a: LinearAddress, n: nat)
    | WriteImage(t: nat, a: LinearAddress, off: Index, word: PageMapEntry)
    | Register(t: nat)
    | Launch(t: nat)
    | MapPages(r: nat, a: LinearAddress, n: nat)
    | SetDemand(r: nat, d: DemandRange)
    | Read(r: nat, a: LinearAddress)
    | Write(r: nat, a: LinearAddress, off: Index, word: PageMapEntry)
    | Exit(r: nat)

  predicate Running(os: Os, r: nat) {
    r in os.apps && os.apps[r].running
  }

  predicate UserAddress(a: LinearAddress) {
    a.pml4 >= 256
  }

  /** One event. An event that names no live space is void. LoadApp and the kernel map user addresses only. */
  function Step(os: Os, ev: Event): Os {
    match ev
    case NewTemplate =>
      var n := SetupPML4(os.s, os.cr3);
      if n.frame.None? then os.(s := n.s)
      else os.(s := n.s, cr3 := n.frame.value, building := os.building + {n.frame.value})
    case MapImage(t, a, n) =>
      if t in os.building && UserAddress(a) then os.(s := SetupPageMaps(os.s, t, a, n, false).s, cr3 := t) else os
    case WriteImage(t, a, off, word) =>
      if t in os.building && UserAddress(a) && Walk(os.s, t, 4, a).Some?
      then os.(s := Put(os.s, Walk(os.s, t, 4, a).value.addr, off, word), cr3 := t) else os
    case Register(t) =>
      if t in os.building then os.(building := os.building - {t}, templates := os.templates + {t}) else os
    case Launch(t) =>
      if t !in os.templates then os
      else
        var n := SetupPML4(os.s, os.cr3);
        if n.frame.None? then os.(s := n.s)
        else
          var c := CopyPageMaps(n.s, n.frame.value, t, 4, 256);
          os.(s := c.s, cr3 := n.frame.value, apps := os.apps[n.frame.value := App(t, DemandRange(0, 0), c.ok)])
    case MapPages(r, a, n) =>
      if Running(os, r) && UserAddress(a) then os.(s := SetupPageMaps(os.s, r, a, n, true).s, cr3 := r) else os
    case SetDemand(r, d) =>
      if Running(os, r) then os.(apps := os.apps[r := os.apps[r].(demand := d)]) else os
    case Read(r, a) =>
      if Running(os, r) then os.(s := Access(os.s, r, os.apps[r].demand, a, false).s, cr3 := r) else os
    case Write(r, a, off, word) =>
      if Running(os, r) then os.(s := UserStore(os.s, r, os.apps[r].demand, a, off, word).s, cr3 := r) else os
    case Exit(r) =>
      if Running(os, r)
      then os.(s := Free(CleanPageMaps(os.s, r, 256), r), cr3 := os.kernel.pml4, apps := os.apps - {r}) else os
  }

  /** The page-fault handler turns an access down: the page is present and the access a load, or it is
      absent and not in the range that the program may fault in. */
  predicate Refused(os: Os, r: nat, a: LinearAddress, write: bool)
    requires r in os.apps
  {
    if Walk(os.s, r, 4, a).Some? then !write
    else !(os.apps[r].demand.begin <= Value(a) < os.apps[r].demand.end)
  }

  /** What must hold before an event: pages are mapped writeable only where none is shared with
      the template, an access outside the user half is one that is refused or a store to the first 2 MiB, and a program that exits
      has something in the slot that is cleaned, or nothing is lost by cleaning frame 0 instead. */
  predicate Guarded(os: Os, ev: Event) {
    match ev
    case MapPages(r, a, n) => Running(os, r) && UserAddress(a) ==> NoSharedPage(os.s, r, a.Vpn(), Min(a.Vpn() + n, USER_END))
    case Read(r, a) => Running(os, r) && !UserAddress(a) ==> Refused(os, r, a, false)
    case Write(r, a, _, _) => Running(os, r) && !UserAddress(a) ==> Refused(os, r, a, true) || Lowest(a)
    case Exit(r) => Running(os, r) ==> Get(os.s, r, 256).present || ZeroIdle(os.s)
    case _ => true
  }

  /** The address of the first byte of user page `u`. */
  function PageAddress(u: nat): LinearAddress
    requires u < USER_END
  {
    LinearAddress(0, u % 512, u / 512 % 512, u / 512 / 512 % 512, u / 512 / 512 / 512)
  }

  predicate NoSharedPage(s: Phys, r: nat, v: nat, m: nat) {
    forall u {:trigger PageAddress(u)} :: v <= u < m && u < USER_END && Walk(s, r, 4, PageAddress(u)).Some? ==>
      Walk(s, r, 4, PageAddress(u)).value.writeable
  }

  /** The user memory of space `r`, as its own loads would read it. */
  function SpaceOf(s: Phys, r: nat): map<nat, Frame> {
    map u: nat {:trigger PageAddress(u)} | USER_BEGIN <= u < USER_END && Visible(s, r, PageAddress(u)).Some? ::
      Visible(s, r, PageAddress(u)).value
  }

  /** The spaces that the simple machine knows. */
  function Live(os: Os): set<nat> {
    os.building + os.templates + set r | r in os.apps && os.apps[r].running
  }

  function Abs(os: Os): map<nat, map<nat, Frame>> {
    map r | r in Live(os) :: SpaceOf(os.s, r)
  }

  /** What memory exhaustion and the allocator decide: the name of a new space, how far a mapping
      got, and whether an access succeeded. */
  datatype Chance = Chance(frame: nat, upto: nat, ok: bool)

  /** Cleared pages are added where nothing was mapped. */
  function FillZero(sp: map<nat, Frame>, v: nat, m: nat): map<nat, Frame> {
    (map u: nat | v <= u < m && InRange(u, v, m) :: ZeroFrame()) + sp
  }

  predicate InRange(u: nat, v: nat, m: nat) { v <= u < m }

  function PutWord(sp: map<nat, Frame>, u: nat, off: Index, word: PageMapEntry): map<nat, Frame> {
    if u in sp then var x: Frame := sp[u][off := word]; sp[u := x] else sp
  }

  function NoPages(): map<nat, Frame> { map[] }

  /** The simple machine: private memories, nothing shared, no page tables. */
  function SpecStep(m: map<nat, map<nat, Frame>>, ev: Event, h: Chance): map<nat, map<nat, Frame>> {
    match ev
    case NewTemplate => if h.ok then m[h.frame := NoPages()] else m
    case MapImage(t, a, n) => if t in m then m[t := FillZero(m[t], a.Vpn(), h.upto)] else m
    case WriteImage(t, a, off, word) =>
      if t in m && h.ok && a.Vpn() in m[t] then m[t := PutWord(m[t], a.Vpn(), off, word)] else m
    case Register(t) => m
    case Launch(t) => if t in m && h.ok then m[h.frame := m[t]] else m
    case MapPages(r, a, n) => if r in m then m[r := FillZero(m[r], a.Vpn(), h.upto)] else m
    case SetDemand(r, d) => m
    case Read(r, a) => if r in m && h.ok then m[r := FillZero(m[r], a.Vpn(), a.Vpn() + 1)] else m
    case Write(r, a, off, word) =>
      if r in m && h.ok
      then m[r := PutWord(FillZero(m[r], a.Vpn(), a.Vpn() + 1), a.Vpn(), off, word)]
      else m
    case Exit(r) => if h.ok then m - {r} else m
  }

  /** No frame is left for the allocator to give out. */
  ghost predicate Full(s: Phys) {
    forall f :: s.lo <= f < s.hi && f < |s.used| ==> s.used[f]
  }

  /** The outcomes that the simple machine allows: a request falls short only when memory is full
      or the program has no right to the page. */
  ghost predicate Possible(os: Os, ev: Event, h: Chance) {
    var full := Full(Step(os, ev).s);
    match ev
    case NewTemplate => if h.ok then h.frame !in Live(os) else full
    case Launch(t) => if h.ok then h.frame !in Live(os) else full || t !in os.templates
    case MapImage(t, a, n) =>
      h.upto == Min(a.Vpn() + n, USER_END) || (h.upto < Min(a.Vpn() + n, USER_END) && full) || t !in os.building || !UserAddress(a)
    case MapPages(r, a, n) =>
      h.upto == Min(a.Vpn() + n, USER_END) || (h.upto < Min(a.Vpn() + n, USER_END) && full) || !Running(os, r) || !UserAddress(a)
    case WriteImage(t, a, _, _) => h.ok <==> UserAddress(a) && t in os.building
    case Read(r, a) => AccessPossible(os, r, a, false, h.ok, full)
    case Write(r, a, _, _) => AccessPossible(os, r, a, true, h.ok, full)
    case Exit(r) => h.ok <==> Running(os, r)
    case _ => true
  }

  /** What entitles a program to a page of its user half: that it has the page, or may fault it in. */
  ghost predicate Entitled(os: Os, r: nat, a: LinearAddress)
    requires r in os.apps
  {
    a.Vpn() in SpaceOf(os.s, r) || os.apps[r].demand.begin <= Value(a) < os.apps[r].demand.end
  }

  /** The page is there, and for a store it is writeable: no fault is needed. */
  predicate AtHand(s: Phys, r: nat, a: LinearAddress, write: bool) {
    Walk(s, r, 4, a).Some? && (write ==> Walk(s, r, 4, a).value.writeable)
  }

  /** An access of a running program to its user half succeeds if it needs no fault, fails if the program is
      not entitled to the page, and otherwise fails only when memory is full. */
  ghost predicate AccessPossible(os: Os, r: nat, a: LinearAddress, write: bool, ok: bool, full: bool) {
    if !Running(os, r) || !UserAddress(a) then !ok
    else
      && (AtHand(os.s, r, a, write) ==> ok)
      && (!Entitled(os, r, a) ==> !ok)
      && (Entitled(os, r, a) && !ok ==> full)
  }
}
