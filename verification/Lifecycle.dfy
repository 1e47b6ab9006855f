/** The birth and the end of an address space. */
module Lifecycle {
  import opened Wrappers
  import opened FrameSearch
  import opened PhysicalMemory
  import opened PageTables
  import opened Ownership
  import opened Mapping
  import opened Sharing
  import opened Reclaim
  import opened Faults

  /** The ghost state with a new, empty space `f` made from template `t` (or itself a template). */
  function WithRoot(g: Ghost, f: nat, t: nat): Ghost {
    g.(tab := g.tab[Place(f, 4, 0) := f], own := g.own[f := Place(f, 4, 0)], origin := g.origin[f := t])
  }

  ghost predicate KernelHalf(s: Phys, g: Ghost, f: nat) {
    forall i: Index :: i < 256 ==> Get(s, f, i) == g.kernel[i]
  }

  /** No content of any other space changes. */
  ghost predicate OthersKept(s: Phys, g: Ghost, s': Phys, g': Ghost, r: nat) {
    forall q, u: nat {:trigger Content(s', g', q, u)} :: q in g.origin && q != r ==> Content(s', g', q, u) == Content(s, g, q, u)
  }

  lemma RootUsed(s: Phys, g: Ghost, r: nat)
    requires Inv(s, g)
    ensures r in g.origin ==> r < |s.used| && s.used[r] && r in g.own && g.own[r] == Place(r, 4, 0)
  {
    if r in g.origin {
      assert RootOk(g, r) && PlaceOk(s, g, Place(r, 4, 0));
    }
  }

  lemma RootUnknown(s: Phys, g: Ghost, f: nat)
    requires Inv(s, g) && f < |s.used| && !s.used[f]
    ensures f !in g.origin && forall p :: p in g.tab ==> p.root != f
  {
    RootUsed(s, g, f);
    forall p | p in g.tab ensures p.root != f {
      assert PlaceOk(s, g, p);
      RootUsed(s, g, p.root);
    }
  }

  /** SetupPML4 makes a space that sees the kernel and nothing else. */
  lemma NewSpace(s: Phys, g: Ghost, cr3: nat, t: Option<nat>) returns (g': Ghost)
    requires Inv(s, g) && g.detached.None? && KernelHalf(s, g, cr3) && cr3 < |s.used| && s.used[cr3]
    requires t.Some? ==> IsTemplate(g, t.value)
    requires SetupPML4(s, cr3).frame.Some?
    ensures
      var f := SetupPML4(s, cr3).frame.value;
      var s' := SetupPML4(s, cr3).s;
      && f < |s.used| && !s.used[f] && f !in g.origin && g' == WithRoot(g, f, if t.Some? then t.value else f)
      && Inv(s', g') && KernelHalf(s', g', f) && s'.used == s.used[f := true] && |s'.mem| == |s.mem|
      && (forall x: nat :: x != f ==> Load(s', x) == Load(s, x))
      && OthersKept(s, g, s', g', f) && (forall u: nat :: Flat(s', g', f, u).None?)
      && (forall i: Index :: i >= 256 ==> Get(s', f, i) == ZERO_ENTRY)
      && s'.lo == s.lo && s'.hi == s.hi
  {
    NewPageMapFacts(s);
    var f := SetupPML4(s, cr3).frame.value;
    var s' := SetupPML4(s, cr3).s;
    g' := WithRoot(g, f, if t.Some? then t.value else f);
    RootUnknown(s, g, f);
    FreeFrameUnclaimed(s, g, f);
    NewSpaceInv(s, g, s', f, if t.Some? then t.value else f);
    forall q, u: nat | q in g.origin && q != f ensures Content(s', g', q, u) == Content(s, g, q, u) {
      if Flat(s, g, q, u).Some? { PageFrame(s, g, q, u); }
    }
  }

  lemma NewSpaceInv(s: Phys, g: Ghost, s': Phys, f: nat, t: nat)
    requires Inv(s, g) && g.detached.None? && f < |s.used| && !s.used[f]
    requires t == f || IsTemplate(g, t)
    requires |s'.mem| == |s.mem| && s'.used == s.used[f := true] && s'.hi == s.hi && s'.lo == s.lo
    requires 0 < f && forall x: nat :: x != f ==> Load(s', x) == Load(s, x)
    requires KernelHalf(s', g, f) && forall i: Index :: i >= 256 ==> Get(s', f, i) == ZERO_ENTRY
    ensures Inv(s', WithRoot(g, f, t))
  {
    var g' := WithRoot(g, f, t);
    RootUnknown(s, g, f);
    FreeFrameUnclaimed(s, g, f);
    forall p | p in g'.tab ensures PlaceOk(s', g', p) {
      if p.root != f { assert PlaceOk(s, g, p); }
    }
    forall x | x in g'.own ensures OwnerOk(g', x) {
      if x != f { assert OwnerOk(g, x); }
    }
    forall r | r in g'.origin ensures RootOk(g', r) {
      if r != f { assert RootOk(g, r); }
    }
    forall p, i: Index | p in g'.tab && 1 <= p.level && p.root in g'.origin ensures EntryOk(s', g', p, i) {
      if p.root != f {
        assert PlaceOk(s, g, p) && EntryOk(s, g, p, i) && RootOk(g, p.root);
        OldEntry(s, g, s', f, t, p, i);
      }
    }
  }

  lemma OldEntry(s: Phys, g: Ghost, s': Phys, f: nat, t: nat, p: Place, i: Index)
    requires p in g.tab && 1 <= p.level && p.root in g.origin && EntryOk(s, g, p, i)
    requires f !in g.origin && g.tab[p] != f && p.root != f && (forall q :: q in g.tab ==> q.root != f)
    requires Load(s', g.tab[p]) == Load(s, g.tab[p])
    ensures EntryOk(s', WithRoot(g, f, t), p, i)
  {
  }

  /** The ghost state without the space `r`. */
  function WithoutSpace(g: Ghost, r: nat): Ghost {
    g.(tab := map p | p in g.tab && p.root != r :: g.tab[p],
       own := map f | f in g.own && g.own[f].root != r :: g.own[f],
       origin := map q | q in g.origin && q != r :: g.origin[q])
  }

  /** FreePML4 forgets a space; whatever it still owned stays allocated but serves no place. */
  lemma DropSpace(s: Phys, g: Ghost, r: nat)
    requires Inv(s, g) && g.detached.None? && r in g.origin && !IsTemplate(g, r)
    ensures Inv(Free(s, r), WithoutSpace(g, r))
  {
    var s' := Free(s, r);
    var g' := WithoutSpace(g, r);
    assert RootOk(g, r) && PlaceOk(s, g, Place(r, 4, 0));
    forall p | p in g'.tab ensures PlaceOk(s', g', p) {
      assert PlaceOk(s, g, p);
      PlacesApart(s, g, p, Place(r, 4, 0));
    }
    forall x | x in g'.own ensures OwnerOk(g', x) { assert OwnerOk(g, x); }
    forall q | q in g'.origin ensures RootOk(g', q) {
      assert RootOk(g, q);
      assert g.origin[q] != r;
    }
    forall p, i: Index | p in g'.tab && 1 <= p.level && p.root in g'.origin ensures EntryOk(s', g', p, i) {
      assert EntryOk(s, g, p, i) && RootOk(g, p.root);
      DropEntry(s, g, r, p, i);
    }
  }

  lemma DropContent(s: Phys, g: Ghost, r: nat)
    ensures OthersKept(s, g, Free(s, r), WithoutSpace(g, r), r)
  {
  }

  lemma DropEntry(s: Phys, g: Ghost, r: nat, p: Place, i: Index)
    requires p in g.tab && 1 <= p.level && p.root in g.origin && p.root != r && r in g.origin && !IsTemplate(g, r)
    requires EntryOk(s, g, p, i) && RootOk(g, p.root)
    ensures EntryOk(Free(s, r), WithoutSpace(g, r), p, i)
  {
  }

  /** The slot of a top table is cleared before the table below it is freed. */
  lemma Detach(s: Phys, g: Ghost, r: nat, slot: Index)
    requires Inv(s, g) && g.detached.None? && r in g.origin && slot >= 256 && Get(s, r, slot).present
    ensures var c := Place(r, 3, slot);
      && c in g.tab && g.tab[c] == Get(s, r, slot).addr
      && Inv(Put(s, r, slot, ZERO_ENTRY), g.(detached := Some(c)))
  {
    var p := Place(r, 4, 0);
    var c := Child(p, slot);
    assert RootOk(g, r) && PlaceOk(s, g, p) && EntryOk(s, g, p, slot);
    var s' := Put(s, r, slot, ZERO_ENTRY);
    var g' := g.(detached := Some(c));
    DetachPlaces(s, g, r, slot, s', g');
    hide EntryOk, PlacesOk;
    forall q, j: Index | q in g'.tab && 1 <= q.level && q.root in g'.origin ensures EntryOk(s', g', q, j) {
      DetachEntry(s, g, r, slot, q, j);
    }
  }

  lemma DetachPlaces(s: Phys, g: Ghost, r: nat, slot: Index, s': Phys, g': Ghost)
    requires PlacesOk(s, g) && s' == Put(s, r, slot, ZERO_ENTRY) && g' == g.(detached := g'.detached)
    ensures PlacesOk(s', g')
  {
    forall q | q in g'.tab ensures PlaceOk(s', g', q) { assert PlaceOk(s, g, q); }
    forall x | x in g'.own ensures OwnerOk(g', x) { assert OwnerOk(g, x); }
    forall q | q in g'.origin ensures RootOk(g', q) { assert RootOk(g, q); }
  }

  lemma DetachEntry(s: Phys, g: Ghost, r: nat, slot: Index, q: Place, j: Index)
    requires Inv(s, g) && g.detached.None? && r in g.origin && slot >= 256
    requires Place(r, 4, 0) in g.tab && g.tab[Place(r, 4, 0)] == r && q in g.tab && 1 <= q.level && q.root in g.origin
    ensures EntryOk(Put(s, r, slot, ZERO_ENTRY), g.(detached := Some(Place(r, 3, slot))), q, j)
  {
    var p := Place(r, 4, 0);
    assert EntryOk(s, g, q, j) && PlaceOk(s, g, q);
    PlacesApart(s, g, p, q);
    SameChild(p, slot, q, j);
    if q != p || j != slot {
      EntryFrame(s, g, Put(s, r, slot, ZERO_ENTRY), g.(detached := Some(Place(r, 3, slot))), q, j);
    }
  }

  /** Exactly the places below one slot of the top table of `r`. */
  predicate InSlot(p: Place, r: nat, slot: nat) {
    Below(p, r, 4, 0, slot, slot + 1)
  }

  /** What CleanPageMaps should do: it frees each frame that `r` owns below the slot and no other, and
      writes no frame but the tables of `r`. */
  ghost predicate GivesBack(s: Phys, g: Ghost, s': Phys, r: nat, slot: nat) {
    && |s'.used| == |s.used|
    && (forall f :: 0 <= f < |s.used| ==> (s'.used[f] <==> s.used[f] && !(f in g.own && InSlot(g.own[f], r, slot))))
    && (forall f :: 0 <= f < |s.used| && !IsTable(g, r, f) ==> Load(s', f) == Load(s, f))
  }

  /** Frame 0 is marked free and holds nothing that reads as a present entry. */
  predicate ZeroIdle(s: Phys) {
    (|s.used| > 0 ==> !s.used[0]) && forall i: Index :: !Get(s, 0, i).present
  }

  /** CleanPageMaps frees each frame that `r` owns below the slot, and no other. If the slot is not in use
      it cleans and frees frame 0 instead, which does no harm only where there is nothing to lose. */
  lemma CleanSlot(s: Phys, g: Ghost, r: nat, slot: Index) returns (g': Ghost)
    requires Inv(s, g) && g.detached.None? && r in g.origin && !IsTemplate(g, r) && slot >= 256
    requires Get(s, r, slot).present || ZeroIdle(s)
    ensures
      var s' := CleanPageMaps(s, r, slot);
      && Inv(s', g') && g'.detached.None? && g'.origin == g.origin && g'.kernel == g.kernel
      && Freed(s, g.(detached := None), s', g', r, 4, 0, slot, slot + 1)
      && GivesBack(s, g, s', r, slot) && OthersKept(s, g, s', g', r)
  {
    if Get(s, r, slot).present {
      g' := CleanUsed(s, g, r, slot);
    } else {
      CleanUnused(s, g, r, slot);
      CleanNothing(s, 0, 3, 0);
      assert Mark(s.used, 0, 1, false) == s.used;
      g' := g;
    }
  }

  /** The call does what it should if and only if the slot is in use or frame 0 has nothing to lose. */
  lemma CleanSlotIff(s: Phys, g: Ghost, r: nat, slot: Index)
    requires Inv(s, g) && g.detached.None? && r in g.origin && !IsTemplate(g, r) && slot >= 256
    ensures GivesBack(s, g, CleanPageMaps(s, r, slot), r, slot) <==> Get(s, r, slot).present || ZeroIdle(s)
  {
    if Get(s, r, slot).present || ZeroIdle(s) {
      var g' := CleanSlot(s, g, r, slot);
    } else {
      RootUsed(s, g, r);
      CleanUnused(s, g, r, slot);
      var s1 := CleanPageMap(s, 0, 3, 0);
      CleanWipes(s, 0, 3, 0);
      forall f | f in g.own ensures f != 0 { assert OwnerOk(g, f) && PlaceOk(s, g, g.own[f]); }
      if i: Index :| Get(s, 0, i).present {
        assert !Get(s1, 0, i).present && Get(Free(s1, 0), 0, i) == Get(s1, 0, i);
        assert Load(CleanPageMaps(s, r, slot), 0) != Load(s, 0);
      } else {
        assert !CleanPageMaps(s, r, slot).used[0];
      }
    }
  }

  /** Below a slot that is not in use the space owns nothing. */
  lemma CleanUnused(s: Phys, g: Ghost, r: nat, slot: Index)
    requires Inv(s, g) && g.detached.None? && r in g.origin && slot >= 256 && !Get(s, r, slot).present
    ensures CleanPageMaps(s, r, slot) == Free(CleanPageMap(s, 0, 3, 0), 0)
    ensures forall q :: q in g.tab ==> !InSlot(q, r, slot)
    ensures forall f :: f in g.own ==> !InSlot(g.own[f], r, slot)
  {
    var p := Place(r, 4, 0);
    assert RootOk(g, r) && PlaceOk(s, g, p) && EntryOk(s, g, p, slot);
    assert s.mem[r][slot := ZERO_ENTRY] == s.mem[r];
    assert Put(s, r, slot, ZERO_ENTRY) == s;
    forall q | q in g.tab && q.level < 4 ensures !InSlot(q, r, slot) {
      Ancestor(s, g, q, 3 - q.level);
    }
    forall f | f in g.own ensures !InSlot(g.own[f], r, slot) { assert OwnerOk(g, f); }
  }

  lemma {:induction false} CleanNothing(s: Phys, t: nat, level: nat, i: nat)
    requires 1 <= level <= 4 && forall j: Index :: i <= j ==> !Get(s, t, j).present
    ensures CleanPageMap(s, t, level, i) == s
    decreases 512 - i
  {
    if i < 512 { CleanNothing(s, t, level, i + 1); }
  }

  /** No word has changed but to zero, and no frame has been taken. */
  ghost predicate Wiped(s: Phys, s': Phys) {
    && |s'.mem| == |s.mem| && |s'.used| == |s.used|
    && (forall f, j: Index {:trigger Get(s', f, j)} :: Get(s', f, j) == Get(s, f, j) || Get(s', f, j) == ZERO_ENTRY)
  }

  lemma WipedTwice(s: Phys, s1: Phys, s2: Phys)
    requires Wiped(s, s1) && Wiped(s1, s2)
    ensures Wiped(s, s2)
  {
    forall f, j: Index ensures Get(s2, f, j) == Get(s, f, j) || Get(s2, f, j) == ZERO_ENTRY {
      assert Get(s1, f, j) == Get(s, f, j) || Get(s1, f, j) == ZERO_ENTRY;
    }
  }

  /** Whatever the memory holds, CleanPageMap only wipes, and leaves no entry of its table present. */
  lemma {:induction false} CleanWipes(s: Phys, t: nat, level: nat, i: nat)
    requires 1 <= level <= 4
    ensures Wiped(s, CleanPageMap(s, t, level, i))
    ensures t < |s.mem| ==> forall j: Index :: i <= j ==> !Get(CleanPageMap(s, t, level, i), t, j).present
    decreases level, 512 - i
  {
    if i < 512 {
      var s1 := CleanEntry(s, t, level, i);
      CleanUnfold(s, t, level, i);
      CleanEntryWipes(s, t, level, i);
      CleanWipes(s1, t, level, i + 1);
      hide CleanPageMap, CleanEntry;
      WipedTwice(s, s1, CleanPageMap(s1, t, level, i + 1));
    }
  }

  lemma {:induction false} CleanEntryWipes(s: Phys, t: nat, level: nat, i: Index)
    requires 1 <= level <= 4
    ensures Wiped(s, CleanEntry(s, t, level, i)) && (t < |s.mem| ==> !Get(CleanEntry(s, t, level, i), t, i).present)
    decreases level, 512 - i, 0
  {
    var e := Get(s, t, i);
    if e.present {
      if level > 1 { CleanWipes(s, e.addr, level - 1, 0); }
      hide CleanPageMap;
      var s1 := if level > 1 then CleanPageMap(s, e.addr, level - 1, 0) else s;
      var s2 := if e.writeable then Free(s1, e.addr) else s1;
      forall f, j: Index
        ensures Get(Put(s2, t, i, ZERO_ENTRY), f, j) == if f == t && j == i && t < |s.mem| then ZERO_ENTRY else Get(s1, f, j) {}
    }
  }

  lemma CleanUsed(s: Phys, g: Ghost, r: nat, slot: Index) returns (g': Ghost)
    requires Inv(s, g) && g.detached.None? && r in g.origin && !IsTemplate(g, r) && slot >= 256 && Get(s, r, slot).present
    ensures
      var s' := CleanPageMaps(s, r, slot);
      && Inv(s', g') && g'.detached.None? && g'.origin == g.origin && g'.kernel == g.kernel
      && Freed(s, g.(detached := None), s', g', r, 4, 0, slot, slot + 1)
      && (forall f :: 0 <= f < |s.used| && !IsTable(g, r, f) ==> Load(s', f) == Load(s, f))
      && OthersKept(s, g, s', g', r)
  {
    var c := Place(r, 3, slot);
    var pdp := Get(s, r, slot).addr;
    assert RootOk(g, r) && PlaceOk(s, g, Place(r, 4, 0));
    Detach(s, g, r, slot);
    var s1 := Put(s, r, slot, ZERO_ENTRY);
    var g1 := g.(detached := Some(c));
    var g2 := CleanKeeps(s1, g1, r, 3, slot, pdp, 0);
    var s2 := CleanPageMap(s1, pdp, 3, 0);
    hide CleanPageMap;
    g' := Disclaim(g2, c);
    CleanSlotInv(s, g, s1, g1, s2, g2, r, slot);
    CleanSlotFreed(s, g, s1, g1, s2, g2, r, slot);
    CleanSlotContent(s, g, s1, g1, s2, g2, r, slot);
  }

  lemma CleanSlotInv(s: Phys, g: Ghost, s1: Phys, g1: Ghost, s2: Phys, g2: Ghost, r: nat, slot: Index)
    requires Inv(s, g) && g.detached.None? && r in g.origin && slot >= 256
    requires Place(r, 3, slot) in g.tab && Inv(s1, g1)
    requires s1 == Put(s, r, slot, ZERO_ENTRY) && g1 == g.(detached := Some(Place(r, 3, slot)))
    requires Cleaned(s1, g1, s2, g2, r, 3, slot, g.tab[Place(r, 3, slot)], 0, 512)
    ensures Place(r, 3, slot) in g2.tab && g2.tab[Place(r, 3, slot)] == g.tab[Place(r, 3, slot)]
    ensures Inv(Free(s2, g.tab[Place(r, 3, slot)]), Disclaim(g2, Place(r, 3, slot)))
  {
    var p := Place(r, 4, 0);
    var c := Child(p, slot);
    assert RootOk(g, r) && PlaceOk(s, g, p);
    forall j: Index ensures Child(c, j) !in g2.tab {
      assert Lift(c.prefix * 512 + j, 0) == c.prefix * 512 + j;
      assert Below(Child(c, j), r, 3, slot, 0, 512);
    }
    assert Load(s2, g1.tab[p]) == Load(s1, g1.tab[p]);
    var s3 := Free(s2, g2.tab[c]);
    assert Load(s3, r)[slot := ZERO_ENTRY] == Load(s3, r);
    assert Put(s3, g2.tab[p], slot, ZERO_ENTRY) == s3;
    Release(s2, g2, p, slot, s3);
  }

  lemma CleanSlotFreed(s: Phys, g: Ghost, s1: Phys, g1: Ghost, s2: Phys, g2: Ghost, r: nat, slot: Index)
    requires Inv(s, g) && g.detached.None? && r in g.origin && slot >= 256
    requires Place(r, 3, slot) in g.tab && Place(r, 3, slot) in g2.tab
    requires s1 == Put(s, r, slot, ZERO_ENTRY) && g1 == g.(detached := Some(Place(r, 3, slot)))
    requires Freed(s1, g1, s2, g2, r, 3, slot, 0, 512)
    ensures Freed(s, g, Free(s2, g.tab[Place(r, 3, slot)]), Disclaim(g2, Place(r, 3, slot)), r, 4, 0, slot, slot + 1)
  {
    var c := Place(r, 3, slot);
    assert PlaceOk(s, g, c);
    forall q | q in g.tab ensures Below(q, r, 4, 0, slot, slot + 1) <==> q == c || Below(q, r, 3, slot, 0, 512) {
      SplitBelow(q, r, 4, 0, slot);
    }
    forall f | f in g.own
      ensures Below(g.own[f], r, 4, 0, slot, slot + 1) <==> f == g.tab[c] || Below(g.own[f], r, 3, slot, 0, 512)
    {
      assert OwnerOk(g, f);
      SplitBelow(g.own[f], r, 4, 0, slot);
    }
  }

  lemma CleanSlotContent(s: Phys, g: Ghost, s1: Phys, g1: Ghost, s2: Phys, g2: Ghost, r: nat, slot: Index)
    requires Inv(s, g) && g.detached.None? && r in g.origin && slot >= 256
    requires Place(r, 3, slot) in g.tab && Place(r, 3, slot) in g2.tab
    requires s1 == Put(s, r, slot, ZERO_ENTRY) && g1 == g.(detached := Some(Place(r, 3, slot)))
    requires Freed(s1, g1, s2, g2, r, 3, slot, 0, 512) && OnlyTables(s1, g1, s2, r, 3)
    ensures OthersKept(s, g, Free(s2, g.tab[Place(r, 3, slot)]), Disclaim(g2, Place(r, 3, slot)), r)
    ensures forall f :: 0 <= f < |s.used| && !IsTable(g, r, f) ==> Load(s2, f) == Load(s, f)
  {
    var c := Place(r, 3, slot);
    var s3 := Free(s2, g.tab[c]);
    var g3 := Disclaim(g2, c);
    assert RootOk(g, r) && PlaceOk(s, g, Place(r, 4, 0)) && IsTable(g, r, r);
    forall f | 0 <= f < |s.used| && !IsTable(g, r, f) ensures Load(s2, f) == Load(s, f) {
      assert !IsTable(g1, r, f);
    }
    forall q, u: nat | q in g.origin && q != r ensures Content(s3, g3, q, u) == Content(s, g, q, u) {
      var p := Place(q, 1, u / 512);
      if p in g.tab { assert PlaceOk(s, g, p) && !IsTable(g, r, g.tab[p]); }
      if Flat(s, g, q, u).Some? {
        PageFrame(s, g, q, u);
        assert !IsTable(g, r, Flat(s, g, q, u).value.addr);
      }
    }
  }
}
