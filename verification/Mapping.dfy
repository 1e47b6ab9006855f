/** SetupPageMaps adds exactly the requested pages and disturbs nothing else. */
module Mapping {
  import opened Wrappers
  import opened PhysicalMemory
  import opened PageTables
  import opened Ownership

  /** The translation of virtual page `u` in the space `r`, read off the table that owns it. */
  ghost function Flat(s: Phys, g: Ghost, r: nat, u: nat): Option<PageMapEntry> {
    var p := Place(r, 1, u / 512);
    if p in g.tab && Get(s, g.tab[p], u % 512).present then Some(Get(s, g.tab[p], u % 512)) else None
  }

  /** `x` with its last `k` base-512 digits dropped: the table of level `k` above page `x`. */
  function Lift(x: nat, k: nat): nat {
    if k == 0 then x else Lift(x, k - 1) / 512
  }

  lemma PrefixIsLift(a: LinearAddress, level: nat)
    requires level <= 4
    ensures a.Prefix(level) == Lift(a.Vpn(), level)
  {
    if level > 0 {
      PrefixIsLift(a, level - 1);
      AddressStep(a, level);
    }
  }

  /** Where a table is missing, so are all the tables below it. */
  lemma MissingTable(s: Phys, g: Ghost, r: nat, u: nat, level: nat)
    requires PlacesOk(s, g) && 1 <= level <= 4
    requires Place(r, level, Lift(u, level)) !in g.tab
    ensures Flat(s, g, r, u).None?
    decreases level
  {
    if level > 1 {
      var q := Place(r, level - 1, Lift(u, level - 1));
      assert q in g.tab ==> PlaceOk(s, g, q) && Parent(q) == Place(r, level, Lift(u, level));
      MissingTable(s, g, r, u, level - 1);
    } else {
      assert Lift(u, 1) == Lift(u, 0) / 512;
    }
  }

  lemma Digit(a: LinearAddress, level: nat)
    requires 1 <= level <= 4
    ensures a.Prefix(level - 1) == a.Prefix(level) * 512 + a.At(level)
    ensures level == 1 ==> a.Vpn() / 512 == a.Prefix(1) && a.Vpn() % 512 == a.At(1)
  {
    AddressStep(a, level);
  }

  lemma WalkFrom(s: Phys, g: Ghost, r: nat, a: LinearAddress, level: nat)
    requires Inv(s, g) && g.detached.None? && r in g.origin && 1 <= level <= 4 && a.pml4 >= 256
    requires Place(r, level, a.Prefix(level)) in g.tab
    ensures Walk(s, g.tab[Place(r, level, a.Prefix(level))], level, a) == Flat(s, g, r, a.Vpn())
    decreases level
  {
    var p := Place(r, level, a.Prefix(level));
    assert EntryOk(s, g, p, a.At(level));
    Digit(a, level);
    hide LinearAddress.Prefix;
    if level > 1 {
      if Child(p, a.At(level)) in g.tab {
        WalkFrom(s, g, r, a, level - 1);
      } else {
        PrefixIsLift(a, level - 1);
        MissingTable(s, g, r, a.Vpn(), level - 1);
      }
    }
  }

  /** The processor's four-level walk reaches the entry of the table that owns the page. */
  lemma WalkIsFlat(s: Phys, g: Ghost, r: nat, a: LinearAddress)
    requires Inv(s, g) && g.detached.None? && r in g.origin && a.pml4 >= 256
    ensures Walk(s, r, 4, a) == Flat(s, g, r, a.Vpn())
  {
    assert RootOk(g, r);
    assert PlaceOk(s, g, Place(r, 4, 0));
    WalkFrom(s, g, r, a, 4);
  }

  /** Only fresh frames are claimed, only for space `r`, and no frame in use changes except the
      tables of `r`. */
  ghost predicate Grown(s: Phys, g: Ghost, s': Phys, g': Ghost, r: nat) {
    && s'.lo == s.lo && s'.hi == s.hi && |s'.mem| == |s.mem| && |s'.used| == |s.used|
    && g'.origin == g.origin && g'.kernel == g.kernel && g'.detached == g.detached
    && (forall p :: p in g.tab ==> p in g'.tab && g'.tab[p] == g.tab[p])
    && (forall p :: p in g'.tab && p !in g.tab ==> p.root == r && g'.tab[p] < |s.used| && !s.used[g'.tab[p]])
    && (forall f :: f in g.own ==> f in g'.own && g'.own[f] == g.own[f])
    && (forall f :: f in g'.own && f !in g.own ==> f < |s.used| && !s.used[f] && g'.own[f].root == r)
    && (forall f :: 0 <= f < |s.used| ==> (s'.used[f] <==> s.used[f] || f in g'.own))
    && (forall f :: 0 <= f < |s.used| && s.used[f] && !IsTable(g, r, f) ==> Load(s', f) == Load(s, f))
  }

  ghost predicate IsTable(g: Ghost, r: nat, f: nat) {
    f in g.own && g.own[f].root == r && g.own[f].level >= 1
  }

  /** Page `u` is mapped: the frame it had if it had one, else a fresh cleared one of its own. */
  ghost predicate PageMapped(s: Phys, g: Ghost, s': Phys, g': Ghost, r: nat, u: nat, w: bool) {
    var e' := Flat(s', g', r, u);
    && e'.Some? && e'.value.user && e'.value.writeable == w
    && match Flat(s, g, r, u)
       case Some(e) => e'.value.addr == e.addr
       case None =>
         var f := e'.value.addr;
         f < |s.used| && !s.used[f] && f in g'.own && g'.own[f] == Place(r, 0, u) && Load(s', f) == ZeroFrame()
  }

  ghost predicate Remapped(s: Phys, g: Ghost, s': Phys, g': Ghost, r: nat, v: nat, m: nat, w: bool) {
    forall u: nat {:trigger Flat(s', g', r, u)} ::
      if v <= u < m then PageMapped(s, g, s', g', r, u, w) else Flat(s', g', r, u) == Flat(s, g, r, u)
  }

  lemma GrownTransitive(s: Phys, g: Ghost, s1: Phys, g1: Ghost, s2: Phys, g2: Ghost, r: nat)
    requires Inv(s, g) && Inv(s1, g1)
    requires Grown(s, g, s1, g1, r) && Grown(s1, g1, s2, g2, r)
    ensures Grown(s, g, s2, g2, r)
  {
    forall f | f in g1.own ensures f in g2.own {}
    forall f | 0 <= f < |s.used| && s.used[f] && !IsTable(g, r, f) ensures Load(s2, f) == Load(s, f) {
      assert !IsTable(g1, r, f);
    }
  }

  lemma RemappedTransitive(s: Phys, g: Ghost, s1: Phys, g1: Ghost, s2: Phys, g2: Ghost, r: nat, v: nat, m1: nat, m2: nat, w: bool)
    requires Inv(s1, g1) && v <= m1 <= m2
    requires Grown(s, g, s1, g1, r) && Grown(s1, g1, s2, g2, r)
    requires Remapped(s, g, s1, g1, r, v, m1, w) && Remapped(s1, g1, s2, g2, r, m1, m2, w)
    ensures Remapped(s, g, s2, g2, r, v, m2, w)
  {
    forall u: nat
      ensures if v <= u < m2 then PageMapped(s, g, s2, g2, r, u, w) else Flat(s2, g2, r, u) == Flat(s, g, r, u)
    {
      assert Flat(s2, g2, r, u) == Flat(s2, g2, r, u) && Flat(s1, g1, r, u) == Flat(s1, g1, r, u);
      if v <= u < m1 && Flat(s, g, r, u).None? {
        var f := Flat(s1, g1, r, u).value.addr;
        assert s1.used[f] && !IsTable(g1, r, f);
      }
    }
  }

  /** The entry that SetupPageMap writes for an absent page or table. */
  lemma FreshEntry(s: Phys, t: nat, i: Index, w: bool)
    requires Sized(s) && t < |s.mem| && s.used[t]
    requires !Get(s, t, i).present && NewPageMap(s).frame.Some?
    ensures var f := NewPageMap(s).frame.value;
      var n := SetNewPageMapIfNotPresent(s, t, i);
      && 0 < f < |s.used| && !s.used[f] && n.frame == Some(f)
      && SetFlags(n.s, t, i, w) ==
         Put(s.(used := s.used[f := true], mem := s.mem[f := ZeroFrame()]), t, i,
             Get(s, t, i).SetPtr(f).(present := true, user := true, writeable := w))
      && Get(s, t, i).SetPtr(f).addr == f
  {
    NewPageMapFacts(s);
    var f := NewPageMap(s).frame.value;
    var s0 := NewPageMap(s).s;
    var e0 := Get(s0, t, i).SetPtr(f).(present := true);
    PutTwice(s0, t, i, e0, e0.(user := true, writeable := w));
  }

  /** Linking an empty table changes no translation. */
  lemma LinkEffect(s: Phys, g: Ghost, p: Place, i: Index, f: nat, e: PageMapEntry, s1: Phys)
    requires Inv(s, g) && p in g.tab && 2 <= p.level
    requires Child(p, i) !in g.tab && f < |s.used| && !s.used[f]
    requires s1 == Put(s.(used := s.used[f := true], mem := s.mem[f := ZeroFrame()]), g.tab[p], i, e)
    ensures Grown(s, g, s1, Claim(g, Child(p, i), f), p.root)
    ensures forall u: nat :: Flat(s1, Claim(g, Child(p, i), f), p.root, u) == Flat(s, g, p.root, u)
  {
    var g1 := Claim(g, Child(p, i), f);
    FreeFrameUnclaimed(s, g, f);
    assert PlaceOk(s, g, p);
    assert IsTable(g, p.root, g.tab[p]);
    forall x | 0 <= x < |s.used| ensures s1.used[x] <==> s.used[x] || x in g1.own {
      OwnedFrameUsed(s, g, x);
    }
    forall u: nat ensures Flat(s1, g1, p.root, u) == Flat(s, g, p.root, u) {
      var q := Place(p.root, 1, u / 512);
      if q in g.tab { PlacesApart(s, g, p, q); }
    }
  }

  /** Mapping a fresh page changes the translation of that page only. */
  lemma MapEffect(s: Phys, g: Ghost, p: Place, i: Index, f: nat, x: Frame, e: PageMapEntry, s1: Phys)
    requires Inv(s, g) && p in g.tab && p.level == 1
    requires Child(p, i) !in g.tab && f < |s.used| && !s.used[f] && e.present
    requires s1 == Put(s.(used := s.used[f := true], mem := s.mem[f := x]), g.tab[p], i, e)
    ensures Grown(s, g, s1, Claim(g, Child(p, i), f), p.root) && Load(s1, f) == x
    ensures forall u: nat ::
      Flat(s1, Claim(g, Child(p, i), f), p.root, u) == if u == p.prefix * 512 + i then Some(e) else Flat(s, g, p.root, u)
  {
    var g1 := Claim(g, Child(p, i), f);
    FreeFrameUnclaimed(s, g, f);
    assert PlaceOk(s, g, p);
    assert IsTable(g, p.root, g.tab[p]);
    forall x | 0 <= x < |s.used| ensures s1.used[x] <==> s.used[x] || x in g1.own {
      OwnedFrameUsed(s, g, x);
    }
    forall u: nat
      ensures Flat(s1, g1, p.root, u) == if u == p.prefix * 512 + i then Some(e) else Flat(s, g, p.root, u)
    {
      var q := Place(p.root, 1, u / 512);
      if q in g.tab { PlacesApart(s, g, p, q); }
    }
  }

  /** Where SetupPageMap leaves an interior entry: its table exists and no translation changed. */
  lemma TableStep(s: Phys, g: Ghost, p: Place, i: Index, v: nat, w: bool) returns (g1: Ghost)
    requires Inv(s, g) && g.detached.None? && p in g.tab && 2 <= p.level && (p.level == 4 ==> i >= 256)
    requires SetNewPageMapIfNotPresent(s, g.tab[p], i).frame.Some?
    ensures var child := SetNewPageMapIfNotPresent(s, g.tab[p], i);
      var s1 := SetFlags(child.s, g.tab[p], i, true);
      && Inv(s1, g1) && Child(p, i) in g1.tab && g1.tab[Child(p, i)] == child.frame.value
      && Grown(s, g, s1, g1, p.root)
      && Remapped(s, g, s1, g1, p.root, v, v, w)
      && p in g1.tab && g1.tab[p] == g.tab[p] && g1.origin == g.origin && g1.detached.None?
  {
    var t := g.tab[p];
    var c := Child(p, i);
    assert PlaceOk(s, g, p);
    assert EntryOk(s, g, p, i);
    if Get(s, t, i).present {
      g1 := g;
      assert s.mem[t][i := Get(s, t, i)] == s.mem[t];
      assert SetFlags(s, t, i, true) == s;
      forall f | 0 <= f < |s.used| ensures s.used[f] <==> s.used[f] || f in g.own {
        OwnedFrameUsed(s, g, f);
      }
    } else {
      var f := NewPageMap(s).frame.value;
      FreshEntry(s, t, i, true);
      FreeFrameUnclaimed(s, g, f);
      var s1 := SetFlags(SetNewPageMapIfNotPresent(s, t, i).s, t, i, true);
      var e := Get(s, t, i).SetPtr(f).(present := true, user := true, writeable := true);
      LinkTable(s, g, p, i, f, e, s1);
      g1 := Claim(g, c, f);
      LinkEffect(s, g, p, i, f, e, s1);
    }
  }

  /** Where SetupPageMap leaves a leaf entry: its page, and no other, is mapped. */
  lemma LeafStep(s: Phys, g: Ghost, p: Place, i: Index, w: bool) returns (g1: Ghost)
    requires Inv(s, g) && p in g.tab && p.level == 1 && p.root in g.origin && (w <==> !IsTemplate(g, p.root))
    requires SetNewPageMapIfNotPresent(s, g.tab[p], i).frame.Some?
    requires w && Get(s, g.tab[p], i).present ==> Get(s, g.tab[p], i).writeable
    ensures var s1 := SetFlags(SetNewPageMapIfNotPresent(s, g.tab[p], i).s, g.tab[p], i, w);
      var u := p.prefix * 512 + i;
      && Inv(s1, g1) && Grown(s, g, s1, g1, p.root)
      && Remapped(s, g, s1, g1, p.root, u, u + 1, w)
  {
    var t := g.tab[p];
    var r := p.root;
    assert PlaceOk(s, g, p);
    assert EntryOk(s, g, p, i);
    var s1 := SetFlags(SetNewPageMapIfNotPresent(s, t, i).s, t, i, w);
    if Get(s, t, i).present {
      g1 := g;
      LeafRewritten(s, g, p, i, w);
    } else {
      var f := NewPageMap(s).frame.value;
      FreshEntry(s, t, i, w);
      var e := Get(s, t, i).SetPtr(f).(present := true, user := true, writeable := w);
      MapPage(s, g, p, i, f, ZeroFrame(), e, s1);
      g1 := Claim(g, Child(p, i), f);
      MapEffect(s, g, p, i, f, ZeroFrame(), e, s1);
    }
  }

  /** A page that is already mapped only has its permission rewritten. */
  lemma LeafRewritten(s: Phys, g: Ghost, p: Place, i: Index, w: bool)
    requires Inv(s, g) && p in g.tab && p.level == 1 && p.root in g.origin && (w <==> !IsTemplate(g, p.root))
    requires Get(s, g.tab[p], i).present && (w ==> Get(s, g.tab[p], i).writeable)
    ensures var s1 := SetFlags(s, g.tab[p], i, w);
      var u := p.prefix * 512 + i;
      && Inv(s1, g) && Grown(s, g, s1, g, p.root) && Remapped(s, g, s1, g, p.root, u, u + 1, w)
  {
    var r := p.root;
    var s1 := SetFlags(s, g.tab[p], i, w);
    assert PlaceOk(s, g, p);
    assert IsTable(g, r, g.tab[p]);
    assert EntryOk(s, g, p, i);
    PutLeaf(s, g, p, i, Get(s, g.tab[p], i).(user := true, writeable := w));
    forall f | 0 <= f < |s.used| ensures s1.used[f] <==> s.used[f] || f in g.own {
      OwnedFrameUsed(s, g, f);
    }
    forall u: nat
      ensures if u == p.prefix * 512 + i then PageMapped(s, g, s1, g, r, u, w) else Flat(s1, g, r, u) == Flat(s, g, r, u)
    {
      var q := Place(r, 1, u / 512);
      if q in g.tab { PlacesApart(s, g, p, q); }
    }
  }

  /** No page of [v, m) is a read-only one shared with a template. */
  ghost predicate Unshared(s: Phys, g: Ghost, r: nat, v: nat, m: nat) {
    forall u: nat {:trigger Flat(s, g, r, u)} :: v <= u < m && Flat(s, g, r, u).Some? ==> Flat(s, g, r, u).value.writeable
  }

  /** What SetupPageMap does from address `a` on, inside one table: it maps a prefix [v, m) of the
      requested pages, all of those that fall into the table unless memory ran out. */
  ghost predicate SetupOk(s: Phys, g: Ghost, q: Setup, g': Ghost, m: nat, r: nat, level: nat, a: LinearAddress, n: nat, w: bool) {
    var end := Min(a.Vpn() + n, a.TableEnd(level));
    && Inv(q.s, g') && Grown(s, g, q.s, g', r) && Remapped(s, g, q.s, g', r, a.Vpn(), m, w)
    && a.Vpn() <= m <= end && (q.ok <==> m == end) && (q.ok ==> q.remain == a.Vpn() + n - m)
  }

  lemma NothingDone(s: Phys, g: Ghost, r: nat, v: nat, w: bool)
    requires Inv(s, g)
    ensures Grown(s, g, s, g, r) && Remapped(s, g, s, g, r, v, v, w)
  {
    forall f | 0 <= f < |s.used| ensures s.used[f] <==> s.used[f] || f in g.own {
      OwnedFrameUsed(s, g, f);
    }
  }

  /** Table `t` is the one of `level` that holds address `a` in the space `r`. */
  ghost predicate TableAt(s: Phys, g: Ghost, r: nat, level: nat, a: LinearAddress, t: nat) {
    && Inv(s, g) && g.detached.None? && r in g.origin && 1 <= level <= 4 && a.pml4 >= 256
    && Place(r, level, a.Prefix(level)) in g.tab && g.tab[Place(r, level, a.Prefix(level))] == t
  }

  /** Templates are filled read-only, other spaces writeable and only where nothing is shared. */
  ghost predicate Allowed(s: Phys, g: Ghost, r: nat, v: nat, end: nat, w: bool) {
    (w <==> !IsTemplate(g, r)) && (w ==> Unshared(s, g, r, v, end))
  }

  lemma AllowedRest(s: Phys, g: Ghost, s1: Phys, g1: Ghost, r: nat, v: nat, m: nat, end: nat, end1: nat, w: bool)
    requires Grown(s, g, s1, g1, r) && Remapped(s, g, s1, g1, r, v, m, w) && v <= m && end1 <= end
    requires Allowed(s, g, r, v, end, w)
    ensures Allowed(s1, g1, r, m, end1, w)
  {
    forall u: nat | w && m <= u < end1 && Flat(s1, g1, r, u).Some? ensures Flat(s1, g1, r, u).value.writeable {
      assert Flat(s1, g1, r, u) == Flat(s, g, r, u);
    }
  }

  lemma TableStays(s: Phys, g: Ghost, s1: Phys, g1: Ghost, r: nat, level: nat, a: LinearAddress, t: nat)
    requires TableAt(s, g, r, level, a, t) && Inv(s1, g1) && Grown(s, g, s1, g1, r)
    ensures TableAt(s1, g1, r, level, a, t)
  {
  }

  function SetupAfter(s: Phys, t: nat, level: nat, a: LinearAddress, remain: nat, w: bool): Setup
    requires 1 <= level <= 4
  {
    if a.At(level) == 511 then Setup(s, remain, true) else SetupPageMap(s, t, level, a.Next(level), remain, w)
  }

  /** SetupPageMap unfolded by one entry. */
  lemma SetupUnfold(s: Phys, t: nat, level: nat, a: LinearAddress, n: nat, w: bool)
    requires 1 <= level <= 4
    ensures
      var child := SetNewPageMapIfNotPresent(s, t, a.At(level));
      var s1 := SetFlags(child.s, t, a.At(level), if level == 1 then w else true);
      SetupPageMap(s, t, level, a, n, w) ==
      if n == 0 then Setup(s, 0, true)
      else if child.frame.None? then Setup(child.s, n, false)
      else if level == 1 then SetupAfter(s1, t, level, a, n - 1, w)
      else
        var sub := SetupPageMap(s1, child.frame.value, level - 1, a, n, w);
        if sub.ok then SetupAfter(sub.s, t, level, a, sub.remain, w) else Setup(sub.s, n, false)
  {
  }

  /** The rest of a table after its first entry, or nothing when that was the last one. */
  lemma SetupRest(s: Phys, g: Ghost, s1: Phys, g1: Ghost, r: nat, level: nat, a: LinearAddress, t: nat, m1: nat, n: nat, w: bool)
    returns (g2: Ghost, m: nat)
    requires Inv(s, g) && TableAt(s1, g1, r, level, a, t)
    requires Grown(s, g, s1, g1, r) && Remapped(s, g, s1, g1, r, a.Vpn(), m1, w)
    requires m1 == Min(a.Vpn() + n, a.TableEnd(level - 1)) && n > 0
    requires Allowed(s, g, r, a.Vpn(), Min(a.Vpn() + n, a.TableEnd(level)), w)
    ensures SetupOk(s, g, SetupAfter(s1, t, level, a, a.Vpn() + n - m1, w), g2, m, r, level, a, n, w)
    decreases level, 512 - a.At(level), 0
  {
    hide SetupPageMap;
    AddressStep(a, level);
    var remain := a.Vpn() + n - m1;
    if a.At(level) == 511 {
      g2, m := g1, m1;
    } else if remain == 0 {
      SetupUnfold(s1, t, level, a.Next(level), 0, w);
      g2, m := g1, m1;
    } else {
      var b := a.Next(level);
      AllowedRest(s, g, s1, g1, r, a.Vpn(), m1, Min(a.Vpn() + n, a.TableEnd(level)), Min(b.Vpn() + remain, b.TableEnd(level)), w);
      g2, m := SetupKeeps(s1, g1, r, level, b, t, remain, w);
      var q := SetupPageMap(s1, t, level, b, remain, w);
      GrownTransitive(s, g, s1, g1, q.s, g2, r);
      RemappedTransitive(s, g, s1, g1, q.s, g2, r, a.Vpn(), m1, m, w);
    }
  }

  lemma NothingMapped(s: Phys, g: Ghost, r: nat, level: nat, a: LinearAddress, n: nat, w: bool)
    requires Inv(s, g) && 1 <= level <= 4
    ensures SetupOk(s, g, Setup(s, n, n == 0), g, a.Vpn(), r, level, a, n, w)
  {
    AddressStep(a, level);
    NothingDone(s, g, r, a.Vpn(), w);
  }

  /** SetupPageMap, at every level of the tree and for every run of pages. */
  lemma SetupKeeps(s: Phys, g: Ghost, r: nat, level: nat, a: LinearAddress, t: nat, n: nat, w: bool) returns (g': Ghost, m: nat)
    requires TableAt(s, g, r, level, a, t)
    requires Allowed(s, g, r, a.Vpn(), Min(a.Vpn() + n, a.TableEnd(level)), w)
    ensures SetupOk(s, g, SetupPageMap(s, t, level, a, n, w), g', m, r, level, a, n, w)
    decreases level, 512 - a.At(level), 2
  {
    SetupUnfold(s, t, level, a, n, w);
    var child := SetNewPageMapIfNotPresent(s, t, a.At(level));
    if n == 0 || child.frame.None? {
      NewPageMapFacts(s);
      hide SetupPageMap, SetupOk;
      NothingMapped(s, g, r, level, a, n, w);
      g', m := g, a.Vpn();
    } else if level == 1 {
      hide SetupPageMap, SetupOk, SetupAfter;
      g', m := SetupLeaf(s, g, r, a, t, n, w);
    } else {
      hide SetupPageMap, SetupOk, SetupAfter, Allowed;
      g', m := SetupBelow(s, g, r, level, a, t, n, w);
    }
  }

  /** The page of the first entry of a level-1 table, then the rest. */
  lemma SetupLeaf(s: Phys, g: Ghost, r: nat, a: LinearAddress, t: nat, n: nat, w: bool) returns (g': Ghost, m: nat)
    requires TableAt(s, g, r, 1, a, t) && n > 0
    requires SetNewPageMapIfNotPresent(s, t, a.At(1)).frame.Some?
    requires Allowed(s, g, r, a.Vpn(), Min(a.Vpn() + n, a.TableEnd(1)), w)
    ensures SetupOk(s, g, SetupAfter(SetFlags(SetNewPageMapIfNotPresent(s, t, a.At(1)).s, t, a.At(1), w), t, 1, a, n - 1, w),
                    g', m, r, 1, a, n, w)
    decreases 1, 512 - a.At(1), 1
  {
    hide SetupPageMap, SetupAfter, SetupOk;
    AddressStep(a, 1);
    assert Get(s, t, a.At(1)).present ==> Flat(s, g, r, a.Vpn()) == Some(Get(s, t, a.At(1)));
    var g1 := LeafStep(s, g, Place(r, 1, a.Prefix(1)), a.At(1), w);
    var s1 := SetFlags(SetNewPageMapIfNotPresent(s, t, a.At(1)).s, t, a.At(1), w);
    TableStays(s, g, s1, g1, r, 1, a, t);
    g', m := SetupRest(s, g, s1, g1, r, 1, a, t, a.Vpn() + 1, n, w);
  }

  /** The table below the first entry, then the rest. */
  lemma SetupBelow(s: Phys, g: Ghost, r: nat, level: nat, a: LinearAddress, t: nat, n: nat, w: bool) returns (g': Ghost, m: nat)
    requires 2 <= level <= 4 && Inv(s, g) && TableAt(s, g, r, level, a, t) && n > 0
    requires SetNewPageMapIfNotPresent(s, t, a.At(level)).frame.Some?
    requires Allowed(s, g, r, a.Vpn(), Min(a.Vpn() + n, a.TableEnd(level)), w)
    ensures
      var child := SetNewPageMapIfNotPresent(s, t, a.At(level));
      var sub := SetupPageMap(SetFlags(child.s, t, a.At(level), true), child.frame.value, level - 1, a, n, w);
      var q := if sub.ok then SetupAfter(sub.s, t, level, a, sub.remain, w) else Setup(sub.s, n, false);
      SetupOk(s, g, q, g', m, r, level, a, n, w)
    decreases level, 512 - a.At(level), 1
  {
    hide *;
    var child := SetNewPageMapIfNotPresent(s, t, a.At(level));
    var s1 := SetFlags(child.s, t, a.At(level), true);
    var g1 := TableBelow(s, g, r, level, a, t, n, w);
    g', m := SetupKeeps(s1, g1, r, level - 1, a, child.frame.value, n, w);
    var sub := SetupPageMap(s1, child.frame.value, level - 1, a, n, w);
    LiftBelow(s, g, s1, g1, sub, g', m, r, level, a, t, n, w);
    if sub.ok {
      g', m := SetupRest(s, g, sub.s, g', r, level, a, t, m, n, w);
    }
  }

  lemma TableBelow(s: Phys, g: Ghost, r: nat, level: nat, a: LinearAddress, t: nat, n: nat, w: bool) returns (g1: Ghost)
    requires 2 <= level && TableAt(s, g, r, level, a, t)
    requires SetNewPageMapIfNotPresent(s, t, a.At(level)).frame.Some?
    requires Allowed(s, g, r, a.Vpn(), Min(a.Vpn() + n, a.TableEnd(level)), w)
    ensures
      var child := SetNewPageMapIfNotPresent(s, t, a.At(level));
      var s1 := SetFlags(child.s, t, a.At(level), true);
      && TableAt(s1, g1, r, level, a, t) && TableAt(s1, g1, r, level - 1, a, child.frame.value)
      && Grown(s, g, s1, g1, r) && Remapped(s, g, s1, g1, r, a.Vpn(), a.Vpn(), w)
      && Allowed(s1, g1, r, a.Vpn(), Min(a.Vpn() + n, a.TableEnd(level - 1)), w)
  {
    hide SetNewPageMapIfNotPresent, SetFlags;
    AddressStep(a, level);
    var child := SetNewPageMapIfNotPresent(s, t, a.At(level));
    var s1 := SetFlags(child.s, t, a.At(level), true);
    g1 := TableStep(s, g, Place(r, level, a.Prefix(level)), a.At(level), a.Vpn(), w);
    AllowedRest(s, g, s1, g1, r, a.Vpn(), a.Vpn(), Min(a.Vpn() + n, a.TableEnd(level)), Min(a.Vpn() + n, a.TableEnd(level - 1)), w);
  }

  /** What was done below an entry, seen from the table that holds the entry. */
  lemma LiftBelow(s: Phys, g: Ghost, s1: Phys, g1: Ghost, sub: Setup, g': Ghost, m: nat, r: nat, level: nat,
                  a: LinearAddress, t: nat, n: nat, w: bool)
    requires Inv(s, g) && TableAt(s1, g1, r, level, a, t) && 2 <= level
    requires Grown(s, g, s1, g1, r) && Remapped(s, g, s1, g1, r, a.Vpn(), a.Vpn(), w)
    requires SetupOk(s1, g1, sub, g', m, r, level - 1, a, n, w)
    ensures TableAt(sub.s, g', r, level, a, t) && Grown(s, g, sub.s, g', r) && Remapped(s, g, sub.s, g', r, a.Vpn(), m, w)
    ensures sub.ok ==> m == Min(a.Vpn() + n, a.TableEnd(level - 1)) && sub.remain == a.Vpn() + n - m
    ensures !sub.ok ==> SetupOk(s, g, Setup(sub.s, n, false), g', m, r, level, a, n, w)
  {
    AddressStep(a, level);
    GrownTransitive(s, g, s1, g1, sub.s, g', r);
    RemappedTransitive(s, g, s1, g1, sub.s, g', r, a.Vpn(), a.Vpn(), m, w);
  }
}
