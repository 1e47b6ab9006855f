/** What a user program sees of its memory, and what the page-fault handler does to it. */
module Faults {
  import opened Wrappers
  import opened PhysicalMemory
  import opened PageTables
  import opened Ownership
  import opened Mapping
  import opened Sharing

  /** The processor's permission check: every level must allow a user access of this kind. */
  function Permits(s: Phys, t: nat, level: nat, a: LinearAddress, write: bool): bool
    requires 1 <= level <= 4
    decreases level
  {
    var e := Get(s, t, a.At(level));
    e.present && e.user && (write ==> e.writeable) && (level == 1 || Large(e, level) || Permits(s, e.addr, level - 1, a, write))
  }

  /** The range of addresses that a task may fault in on demand. */
  datatype DemandRange = DemandRange(begin: nat, end: nat)

  /** The 64-bit value of a canonical address. */
  function Value(a: LinearAddress): nat {
    (if a.pml4 < 256 then 0 else 0xffff_0000_0000_0000) + a.Vpn() * 4096 + a.offset
  }

  /** Its fields are twelve bits and four times nine, lowest first, below sixteen copies of the highest one. */
  lemma ValueFields(a: LinearAddress)
    requires a.offset < 4096
    ensures var v := Value(a);
      && v % 4096 == a.offset && v / 4096 % 512 == a.pTable && v / 4096 / 512 % 512 == a.pDirectory
      && v / 4096 / 512 / 512 % 512 == a.pDirPointer && v / 4096 / 512 / 512 / 512 % 512 == a.pml4
      && v / 4096 / 512 / 512 / 512 / 512 == if a.pml4 < 256 then 0 else 0xffff
  {
    var high := if a.pml4 < 256 then 0 else 0xffff;
    var p := high * 512 + a.pml4;
    var q := p * 512 + a.pDirPointer;
    var r := q * 512 + a.pDirectory;
    var page := r * 512 + a.pTable;
    assert Value(a) == page * 4096 + a.offset;
    LowDigit(page, 4096, a.offset);
    LowDigit(r, 512, a.pTable);
    LowDigit(q, 512, a.pDirectory);
    LowDigit(p, 512, a.pDirPointer);
    LowDigit(high, 512, a.pml4);
  }

  lemma LowDigit(q: nat, d: nat, r: nat)
    requires d in {512, 4096} && r < d
    ensures (q * d + r) / d == q && (q * d + r) % d == r
  {
    if d == 512 { } else { }
  }

  /** HandlePageFault without its file-mapping branch. */
  function HandlePageFault(s: Phys, cr3: nat, d: DemandRange, present: bool, rw: bool, user: bool, a: LinearAddress): Outcome {
    if present && rw && user then CopyOnePage(s, cr3, a)
    else if present then Outcome(s, false)
    else if d.begin <= Value(a) < d.end then
      var q := SetupPageMaps(s, cr3, a, 1, true);
      Outcome(q.s, q.ok)
    else Outcome(s, false)
  }

  /** The handler turns down, and changes nothing for, every fault but two: a user's store to a page that is
      present, and an access to one that is absent and in the range. */
  lemma FaultRefused(s: Phys, cr3: nat, d: DemandRange, present: bool, rw: bool, user: bool, a: LinearAddress)
    requires if present then !rw || !user else Value(a) < d.begin || Value(a) >= d.end
    ensures HandlePageFault(s, cr3, d, present, rw, user, a) == Outcome(s, false)
  {
  }

  /** A user access: if the processor refuses it, the fault handler runs, told by the processor whether
      every level was present, and if it succeeds the instruction is retried. */
  function Access(s: Phys, cr3: nat, d: DemandRange, a: LinearAddress, write: bool): Outcome {
    if Permits(s, cr3, 4, a, write) then Outcome(s, true)
    else HandlePageFault(s, cr3, d, Walk(s, cr3, 4, a).Some?, write, true, a)
  }

  /** A user store of one word. A retry that faults again is another store. */
  function UserStore(s: Phys, cr3: nat, d: DemandRange, a: LinearAddress, off: Index, word: PageMapEntry): Outcome {
    var o := Access(s, cr3, d, a, true);
    if o.ok && Permits(o.s, cr3, 4, a, true) && Walk(o.s, cr3, 4, a).Some?
    then Outcome(Put(o.s, Walk(o.s, cr3, 4, a).value.addr, off, word), true)
    else Outcome(o.s, false)
  }

  /** The bytes of page `u` of space `r`. */
  ghost function Content(s: Phys, g: Ghost, r: nat, u: nat): Option<Frame> {
    match Flat(s, g, r, u)
    case Some(e) => Some(Load(s, e.addr))
    case None => None
  }

  /** The frame behind a translation is a page, private to the space or owned by its template. */
  lemma PageFrame(s: Phys, g: Ghost, r: nat, u: nat)
    requires Inv(s, g) && r in g.origin && Flat(s, g, r, u).Some?
    ensures var e := Flat(s, g, r, u).value;
      && e.present && e.user && e.addr < |s.used| && s.used[e.addr] && e.addr in g.own
      && g.own[e.addr] == (if Place(r, 0, u) in g.tab then Place(r, 0, u) else Place(g.origin[r], 0, u))
      && (e.writeable <==> Place(r, 0, u) in g.tab && !IsTemplate(g, r))
      && (Place(r, 0, u) in g.tab ==> g.tab[Place(r, 0, u)] == e.addr)
  {
    var p := Place(r, 1, u / 512);
    var c := Child(p, u % 512);
    assert c == Place(r, 0, u);
    assert EntryOk(s, g, p, u % 512);
    if c in g.tab { assert PlaceOk(s, g, c); } else { assert PlaceOk(s, g, TemplatePlace(g, c)); }
  }

  lemma GrownContent(s: Phys, g: Ghost, s': Phys, g': Ghost, r: nat, q: nat, u: nat)
    requires Inv(s, g) && Grown(s, g, s', g', r) && q in g.origin
    requires Flat(s', g', q, u) == Flat(s, g, q, u) || q != r
    ensures Content(s', g', q, u) == Content(s, g, q, u)
  {
    if q != r { OtherSpace(s, g, s', g', r, q, u); }
    if Flat(s, g, q, u).Some? {
      PageFrame(s, g, q, u);
      assert !IsTable(g, r, Flat(s, g, q, u).value.addr);
    }
  }

  /** What the pages of every space hold after SetupPageMap has mapped [v, m) in space `r`. */
  lemma SetupContent(s: Phys, g: Ghost, s': Phys, g': Ghost, r: nat, v: nat, m: nat, w: bool)
    requires Inv(s, g) && Grown(s, g, s', g', r) && Remapped(s, g, s', g', r, v, m, w) && r in g.origin
    ensures forall q, u: nat {:trigger Content(s', g', q, u)} :: q in g.origin ==>
      Content(s', g', q, u) == if q == r && v <= u < m && Content(s, g, r, u).None? then Some(ZeroFrame()) else Content(s, g, q, u)
  {
    forall q, u: nat | q in g.origin
      ensures Content(s', g', q, u) == if q == r && v <= u < m && Content(s, g, r, u).None? then Some(ZeroFrame()) else Content(s, g, q, u)
    {
      assert Flat(s', g', r, u) == Flat(s', g', r, u);
      if q != r || !(v <= u < m) {
        GrownContent(s, g, s', g', r, q, u);
      } else if Flat(s, g, r, u).Some? {
        PageFrame(s, g, r, u);
        assert !IsTable(g, r, Flat(s, g, r, u).value.addr);
      }
    }
  }

  lemma PermitsFrom(s: Phys, g: Ghost, r: nat, a: LinearAddress, level: nat, write: bool)
    requires Inv(s, g) && g.detached.None? && r in g.origin && 1 <= level <= 4 && a.pml4 >= 256
    requires Place(r, level, a.Prefix(level)) in g.tab
    ensures Permits(s, g.tab[Place(r, level, a.Prefix(level))], level, a, write) <==>
            Flat(s, g, r, a.Vpn()).Some? && (write ==> Flat(s, g, r, a.Vpn()).value.writeable)
    decreases level
  {
    var p := Place(r, level, a.Prefix(level));
    assert EntryOk(s, g, p, a.At(level));
    Digit(a, level);
    hide LinearAddress.Prefix;
    if level > 1 {
      if Child(p, a.At(level)) in g.tab {
        PermitsFrom(s, g, r, a, level - 1, write);
      } else {
        PrefixIsLift(a, level - 1);
        MissingTable(s, g, r, a.Vpn(), level - 1);
      }
    }
  }

  /** A user access is permitted exactly when the page is mapped and, for a write, private. */
  lemma PermitsIsFlat(s: Phys, g: Ghost, r: nat, a: LinearAddress, write: bool)
    requires Inv(s, g) && g.detached.None? && r in g.origin && a.pml4 >= 256
    ensures Permits(s, r, 4, a, write) <==>
            Flat(s, g, r, a.Vpn()).Some? && (write ==> Flat(s, g, r, a.Vpn()).value.writeable)
  {
    assert RootOk(g, r);
    assert PlaceOk(s, g, Place(r, 4, 0));
    PermitsFrom(s, g, r, a, 4, write);
  }

  /** The frames that hold tables. */
  ghost predicate TableFrame(g: Ghost, f: nat) {
    f in g.own && g.own[f].level >= 1
  }

  lemma TablesElsewhere(s: Phys, g: Ghost, f: nat, p: Place)
    requires Inv(s, g) && !TableFrame(g, f) && p in g.tab && p.level >= 1
    ensures g.tab[p] != f && g.tab[p] < |s.mem|
  {
    assert PlaceOk(s, g, p);
  }

  /** SetPageContent ends at the level-1 table that owns the page; the walk there may have been
      made after a frame that is no table was filled. */
  lemma SetPageContentIsPut(s: Phys, g: Ghost, s1: Phys, f: nat, r: nat, level: nat, a: LinearAddress, content: nat)
    requires Inv(s, g) && g.detached.None? && r in g.origin && 1 <= level <= 4 && a.pml4 >= 256
    requires Place(r, level, a.Prefix(level)) in g.tab && Flat(s, g, r, a.Vpn()).Some?
    requires !TableFrame(g, f) && |s1.mem| == |s.mem| && forall x: nat :: x != f ==> Load(s1, x) == Load(s, x)
    ensures Place(r, 1, a.Prefix(1)) in g.tab
    ensures SetPageContent(s1, g.tab[Place(r, level, a.Prefix(level))], level, a, content) ==
            Put(s1, g.tab[Place(r, 1, a.Prefix(1))], a.At(1), Flat(s, g, r, a.Vpn()).value.SetPtr(content).(writeable := true))
    decreases level
  {
    var p := Place(r, level, a.Prefix(level));
    assert EntryOk(s, g, p, a.At(level));
    TablesElsewhere(s, g, f, p);
    Digit(a, level);
    hide LinearAddress.Prefix;
    if level > 1 {
      if Child(p, a.At(level)) in g.tab {
        SetPageContentIsPut(s, g, s1, f, r, level - 1, a, content);
      } else {
        PrefixIsLift(a, level - 1);
        MissingTable(s, g, r, a.Vpn(), level - 1);
      }
    }
  }

  /** A write fault on a shared page gives the space a private copy with the same bytes. */
  lemma CowStep(s: Phys, g: Ghost, r: nat, a: LinearAddress) returns (g': Ghost)
    requires Inv(s, g) && g.detached.None? && r in g.origin && !IsTemplate(g, r) && a.pml4 >= 256
    requires Flat(s, g, r, a.Vpn()).Some? && !Flat(s, g, r, a.Vpn()).value.writeable
    ensures var o := CopyOnePage(s, r, a);
      && Inv(o.s, g') && Grown(s, g, o.s, g', r) && (!o.ok ==> o.s == s && g' == g)
      && (forall q, u: nat {:trigger Content(o.s, g', q, u)} :: q in g.origin ==> Content(o.s, g', q, u) == Content(s, g, q, u))
      && (o.ok ==> Flat(o.s, g', r, a.Vpn()).Some? && Flat(o.s, g', r, a.Vpn()).value.writeable)
  {
    NewPageMapFacts(s);
    NothingDone(s, g, r, 0, false);
    if NewPageMap(s).frame.None? {
      g' := g;
    } else {
      var f := NewPageMap(s).frame.value;
      var p := Place(r, 1, a.Prefix(1));
      var e := Flat(s, g, r, a.Vpn()).value;
      CowWalk(s, g, r, a);
      Digit(a, 1);
      PageFrame(s, g, r, a.Vpn());
      assert Child(p, a.At(1)) == Place(r, 0, a.Vpn());
      var x := Load(s, e.addr);
      var e' := e.SetPtr(f).(writeable := true);
      var s' := CopyOnePage(s, r, a).s;
      g' := Claim(g, Child(p, a.At(1)), f);
      MapPage(s, g, p, a.At(1), f, x, e', s');
      MapEffect(s, g, p, a.At(1), f, x, e', s');
      CowContent(s, g, s', g', r, a.Vpn());
    }
  }

  lemma CowContent(s: Phys, g: Ghost, s': Phys, g': Ghost, r: nat, v: nat)
    requires Inv(s, g) && r in g.origin && Grown(s, g, s', g', r)
    requires Flat(s, g, r, v).Some? && Flat(s', g', r, v).Some?
    requires Load(s', Flat(s', g', r, v).value.addr) == Load(s, Flat(s, g, r, v).value.addr)
    requires forall u: nat :: u != v ==> Flat(s', g', r, u) == Flat(s, g, r, u)
    ensures forall q, u: nat {:trigger Content(s', g', q, u)} :: q in g.origin ==> Content(s', g', q, u) == Content(s, g, q, u)
  {
    forall q, u: nat | q in g.origin ensures Content(s', g', q, u) == Content(s, g, q, u) {
      if q != r || u != v {
        GrownContent(s, g, s', g', r, q, u);
      }
    }
  }

  /** The state that CopyOnePage reaches, spelled out. */
  lemma CowWalk(s: Phys, g: Ghost, r: nat, a: LinearAddress)
    requires Inv(s, g) && g.detached.None? && r in g.origin && a.pml4 >= 256
    requires Flat(s, g, r, a.Vpn()).Some? && NewPageMap(s).frame.Some?
    ensures var f := NewPageMap(s).frame.value;
      var e := Flat(s, g, r, a.Vpn()).value;
      var p := Place(r, 1, a.Prefix(1));
      && f < |s.used| && !s.used[f] && e.SetPtr(f).addr == f && p in g.tab
      && CopyOnePage(s, r, a) ==
         Outcome(Put(s.(used := s.used[f := true], mem := s.mem[f := Load(s, e.addr)]), g.tab[p], a.At(1),
                     e.SetPtr(f).(writeable := true)), true)
  {
    NewPageMapFacts(s);
    var f := NewPageMap(s).frame.value;
    var s0 := NewPageMap(s).s;
    FreeFrameUnclaimed(s, g, f);
    assert RootOk(g, r) && PlaceOk(s, g, Place(r, 4, 0));
    WalkAfter(s, g, s0, f, r, 4, a);
    WalkIsFlat(s, g, r, a);
    PageFrame(s, g, r, a.Vpn());
    var x := Load(s, Flat(s, g, r, a.Vpn()).value.addr);
    var s1 := Store(s0, f, x);
    assert s1 == s.(used := s.used[f := true], mem := s.mem[f := x]);
    SetPageContentIsPut(s, g, s1, f, r, 4, a, f);
  }

  /** Clearing a frame that is no table does not disturb the walk. */
  lemma WalkAfter(s: Phys, g: Ghost, s1: Phys, f: nat, r: nat, level: nat, a: LinearAddress)
    requires Inv(s, g) && g.detached.None? && r in g.origin && 1 <= level <= 4 && a.pml4 >= 256
    requires Place(r, level, a.Prefix(level)) in g.tab
    requires !TableFrame(g, f) && |s1.mem| == |s.mem| && forall x: nat :: x != f ==> Load(s1, x) == Load(s, x)
    ensures Walk(s1, g.tab[Place(r, level, a.Prefix(level))], level, a) == Walk(s, g.tab[Place(r, level, a.Prefix(level))], level, a)
    decreases level
  {
    var p := Place(r, level, a.Prefix(level));
    assert EntryOk(s, g, p, a.At(level));
    TablesElsewhere(s, g, f, p);
    Digit(a, level);
    hide LinearAddress.Prefix;
    if level > 1 && Child(p, a.At(level)) in g.tab {
      WalkAfter(s, g, s1, f, r, level - 1, a);
    }
  }
}
