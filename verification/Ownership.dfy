/** Who owns which frame. The ghost state assigns every page table and every private page the one
    place in one address space that it serves, so that separation is a local fact about entries. */
module Ownership {
  import opened Wrappers
  import opened FrameSearch
  import opened PhysicalMemory
  import opened PageTables

  /** The table of `level` (or, at level 0, the page) whose address digits are `prefix`, in the
      address space whose top table is the frame `root`. */
  datatype Place = Place(root: nat, level: nat, prefix: nat)

  /** `tab` and `own` are inverse. `origin` maps each space to the template it was copied from, a
      template to itself. `detached` is a table whose entry has already been cleared because it is
      about to be freed. `kernel` holds the entries that every top table shares. */
  datatype Ghost = Ghost(tab: map<Place, nat>, own: map<nat, Place>, origin: map<nat, nat>,
                         detached: Option<Place>, kernel: Frame)

  function Child(p: Place, i: Index): Place
    requires p.level > 0
  {
    Place(p.root, p.level - 1, p.prefix * 512 + i)
  }

  function Parent(p: Place): Place {
    Place(p.root, p.level + 1, p.prefix / 512)
  }

  function TemplatePlace(g: Ghost, p: Place): Place
    requires p.root in g.origin
  {
    Place(g.origin[p.root], p.level, p.prefix)
  }

  ghost predicate IsTemplate(g: Ghost, r: nat) {
    r in g.origin && g.origin[r] == r
  }

  ghost predicate PlaceOk(s: Phys, g: Ghost, p: Place)
    requires p in g.tab
  {
    && p.level <= 4 && p.root in g.origin
    && 0 < g.tab[p] < |s.mem| && g.tab[p] < |s.used| && s.used[g.tab[p]]
    && g.tab[p] in g.own && g.own[g.tab[p]] == p
    && (p.level == 4 ==> p.prefix == 0 && g.tab[p] == p.root)
    && (p.level == 3 ==> 256 <= p.prefix < 512)
    && (p.level < 4 ==> Parent(p) in g.tab)
  }

  ghost predicate RootOk(g: Ghost, r: nat)
    requires r in g.origin
  {
    Place(r, 4, 0) in g.tab && g.origin[r] in g.origin && IsTemplate(g, g.origin[r])
  }

  /** A level-1 entry either maps a page its space owns (writeable unless the space is a
      template) or shares a page of the template read-only. */
  ghost predicate LeafOk(g: Ghost, c: Place, e: PageMapEntry)
    requires c.root in g.origin
  {
    var tc := TemplatePlace(g, c);
    && (e.present ==> e.user)
    && (c in g.tab ==> e.present && e.addr == g.tab[c] && (e.writeable <==> !IsTemplate(g, c.root)))
    && (c !in g.tab && e.present ==> !e.writeable && tc in g.tab && e.addr == g.tab[tc])
  }

  ghost predicate LinkOk(g: Ghost, c: Place, e: PageMapEntry) {
    if c in g.tab && Some(c) != g.detached then e.present && e.addr == g.tab[c] && e.writeable && e.user && !e.huge
    else e == ZERO_ENTRY
  }

  ghost predicate EntryOk(s: Phys, g: Ghost, p: Place, i: Index)
    requires p in g.tab && 1 <= p.level && p.root in g.origin
  {
    var e := Get(s, g.tab[p], i);
    if p.level == 4 && i < 256 then e == g.kernel[i]
    else if p.level == 1 then LeafOk(g, Child(p, i), e)
    else LinkOk(g, Child(p, i), e)
  }

  ghost predicate OwnerOk(g: Ghost, f: nat)
    requires f in g.own
  {
    g.own[f] in g.tab && g.tab[g.own[f]] == f
  }

  ghost predicate PlacesOk(s: Phys, g: Ghost) {
    && (forall p {:trigger PlaceOk(s, g, p)} :: p in g.tab ==> PlaceOk(s, g, p))
    && (forall f {:trigger OwnerOk(g, f)} :: f in g.own ==> OwnerOk(g, f))
    && (forall r {:trigger RootOk(g, r)} :: r in g.origin ==> RootOk(g, r))
  }

  ghost predicate Inv(s: Phys, g: Ghost) {
    && Sized(s)
    && PlacesOk(s, g)
    && (forall p, i: Index {:trigger EntryOk(s, g, p, i)} ::
          p in g.tab && 1 <= p.level && p.root in g.origin ==> EntryOk(s, g, p, i))
    && (g.detached.Some? ==> g.detached.value.level > 0)
  }

  /** The ghost state once frame `f` serves place `c`. */
  function Claim(g: Ghost, c: Place, f: nat): Ghost {
    g.(tab := g.tab[c := f], own := g.own[f := c])
  }

  /** An entry whose word and whose related places are unchanged stays in order. */
  lemma EntryFrame(s: Phys, g: Ghost, s': Phys, g': Ghost, q: Place, j: Index)
    requires q in g.tab && q in g'.tab && 1 <= q.level && q.root in g.origin
    requires g'.origin == g.origin && g'.kernel == g.kernel
    requires Get(s', g'.tab[q], j) == Get(s, g.tab[q], j)
    requires Child(q, j) in g'.tab <==> Child(q, j) in g.tab
    requires Child(q, j) in g.tab ==> g'.tab[Child(q, j)] == g.tab[Child(q, j)]
    requires q.level > 1 ==> (Some(Child(q, j)) == g'.detached <==> Some(Child(q, j)) == g.detached)
    requires q.level == 1 ==>
      var tc := TemplatePlace(g, Child(q, j));
      tc in g.tab ==> tc in g'.tab && g'.tab[tc] == g.tab[tc]
    requires EntryOk(s, g, q, j)
    ensures EntryOk(s', g', q, j)
  {
  }

  lemma OwnedFrameUsed(s: Phys, g: Ghost, f: nat)
    requires PlacesOk(s, g)
    ensures f in g.own && f < |s.used| ==> s.used[f]
  {
    if f in g.own {
      assert OwnerOk(g, f) && PlaceOk(s, g, g.own[f]);
    }
  }

  /** A frame the allocator holds free serves no place. */
  lemma FreeFrameUnclaimed(s: Phys, g: Ghost, f: nat)
    requires PlacesOk(s, g) && f < |s.used| && !s.used[f]
    ensures f !in g.own && forall q :: q in g.tab ==> g.tab[q] != f
  {
    OwnedFrameUsed(s, g, f);
    forall q | q in g.tab ensures g.tab[q] != f {
      assert PlaceOk(s, g, q);
    }
  }

  /** Two places never share a frame. */
  lemma PlacesApart(s: Phys, g: Ghost, p: Place, q: Place)
    requires PlacesOk(s, g) && p in g.tab && q in g.tab
    ensures g.tab[p] == g.tab[q] ==> p == q
  {
    assert PlaceOk(s, g, p) && PlaceOk(s, g, q);
  }

  lemma ChildOfParent(p: Place, i: Index)
    requires p.level > 0
    ensures Parent(Child(p, i)) == p
  {
  }

  lemma ParentOfChild(q: Place)
    ensures Child(Parent(q), q.prefix % 512) == q
  {
  }

  lemma SameChild(p: Place, i: Index, q: Place, j: Index)
    requires p.level > 0 && q.level > 0
    ensures Child(p, i) == Child(q, j) ==> p == q && i == j
  {
    ChildOfParent(p, i);
    ChildOfParent(q, j);
  }

  /** The places of a state after frame `f` is claimed by a child of `p`. */
  lemma ClaimPlaces(s: Phys, g: Ghost, p: Place, i: Index, f: nat, s': Phys)
    requires Inv(s, g) && p in g.tab && 1 <= p.level && (p.level == 4 ==> i >= 256)
    requires Child(p, i) !in g.tab && 0 < f < |s.used| && !s.used[f]
    requires |s'.mem| == |s.mem| && s'.used == s.used[f := true]
    ensures PlacesOk(s', Claim(g, Child(p, i), f))
  {
    var c := Child(p, i);
    var g' := Claim(g, c, f);
    FreeFrameUnclaimed(s, g, f);
    ChildOfParent(p, i);
    assert PlaceOk(s, g, p);
    forall q | q in g'.tab ensures PlaceOk(s', g', q) {
      if q != c { assert PlaceOk(s, g, q); }
    }
    forall x | x in g'.own ensures OwnerOk(g', x) {
      if x != f {
        assert OwnerOk(g, x);
      }
    }
    forall r | r in g'.origin ensures RootOk(g', r) {
      assert RootOk(g, r);
    }
  }

  /** Entries other than the one written, in tables other than the one claimed. */
  lemma ClaimEntry(s: Phys, g: Ghost, p: Place, i: Index, f: nat, x: Frame, e: PageMapEntry, s': Phys, q: Place, j: Index)
    requires Inv(s, g) && p in g.tab && 1 <= p.level && (p.level > 1 ==> g.detached.None?)
    requires Child(p, i) !in g.tab && f < |s.used| && !s.used[f]
    requires s' == Put(s.(used := s.used[f := true], mem := s.mem[f := x]), g.tab[p], i, e)
    requires q in g.tab && 1 <= q.level && q.root in g.origin && (q != p || j != i)
    ensures EntryOk(s', Claim(g, Child(p, i), f), q, j)
  {
    assert PlaceOk(s, g, p) && PlaceOk(s, g, q) && EntryOk(s, g, q, j);
    FreeFrameUnclaimed(s, g, f);
    PlacesApart(s, g, p, q);
    SameChild(p, i, q, j);
    EntryFrame(s, g, s', Claim(g, Child(p, i), f), q, j);
  }

  /** A fresh, cleared table `f` is linked into entry `i` of table `p`. */
  lemma LinkTable(s: Phys, g: Ghost, p: Place, i: Index, f: nat, e: PageMapEntry, s': Phys)
    requires Inv(s, g) && p in g.tab && 2 <= p.level && (p.level == 4 ==> i >= 256)
    requires Child(p, i) !in g.tab && g.detached.None?
    requires 0 < f < |s.used| && !s.used[f]
    requires e.present && e.writeable && e.user && !e.huge && e.addr == f
    requires s' == Put(s.(used := s.used[f := true], mem := s.mem[f := ZeroFrame()]), g.tab[p], i, e)
    ensures Inv(s', Claim(g, Child(p, i), f))
  {
    var c := Child(p, i);
    var g' := Claim(g, c, f);
    FreeFrameUnclaimed(s, g, f);
    ClaimPlaces(s, g, p, i, f, s');
    assert PlaceOk(s, g, p);
    forall q, j: Index | q in g'.tab && 1 <= q.level && q.root in g'.origin ensures EntryOk(s', g', q, j) {
      if q == c {
        ChildOfParent(q, j);
        assert Child(q, j) in g.tab ==> PlaceOk(s, g, Child(q, j));
      } else if q != p || j != i {
        ClaimEntry(s, g, p, i, f, ZeroFrame(), e, s', q, j);
      }
    }
  }

  /** A fresh page `f` with any contents is mapped by entry `i` of the level-1 table `p`. */
  lemma MapPage(s: Phys, g: Ghost, p: Place, i: Index, f: nat, x: Frame, e: PageMapEntry, s': Phys)
    requires Inv(s, g) && p in g.tab && p.level == 1
    requires Child(p, i) !in g.tab
    requires 0 < f < |s.used| && !s.used[f]
    requires e.present && e.user && e.addr == f && p.root in g.origin && (e.writeable <==> !IsTemplate(g, p.root))
    requires s' == Put(s.(used := s.used[f := true], mem := s.mem[f := x]), g.tab[p], i, e)
    ensures Inv(s', Claim(g, Child(p, i), f))
  {
    var c := Child(p, i);
    var g' := Claim(g, c, f);
    FreeFrameUnclaimed(s, g, f);
    ClaimPlaces(s, g, p, i, f, s');
    assert PlaceOk(s, g, p);
    forall q, j: Index | q in g'.tab && 1 <= q.level && q.root in g'.origin ensures EntryOk(s', g', q, j) {
      if q != p || j != i {
        ClaimEntry(s, g, p, i, f, x, e, s', q, j);
      }
    }
  }

  /** A level-1 entry is replaced by one that also obeys the sharing rule. */
  lemma PutLeaf(s: Phys, g: Ghost, p: Place, i: Index, e: PageMapEntry)
    requires Inv(s, g) && p in g.tab && p.level == 1 && p.root in g.origin
    requires LeafOk(g, Child(p, i), e)
    ensures Inv(Put(s, g.tab[p], i, e), g)
  {
    var s' := Put(s, g.tab[p], i, e);
    forall q | q in g.tab ensures PlaceOk(s', g, q) {
      assert PlaceOk(s, g, q);
    }
    forall r | r in g.origin ensures RootOk(g, r) {
      assert RootOk(g, r);
    }
    forall q, j: Index | q in g.tab && 1 <= q.level && q.root in g.origin ensures EntryOk(s', g, q, j) {
      assert EntryOk(s, g, q, j);
      PlacesApart(s, g, p, q);
    }
  }

  /** The ghost state once place `c` is given up. */
  function Disclaim(g: Ghost, c: Place): Ghost
    requires c in g.tab
  {
    g.(tab := map q | q in g.tab && q != c :: g.tab[q],
       own := map f | f in g.own && f != g.tab[c] :: g.own[f],
       detached := if g.detached == Some(c) then None else g.detached)
  }

  lemma ReleasePlaces(s: Phys, g: Ghost, p: Place, i: Index, s': Phys)
    requires Inv(s, g) && p in g.tab && 1 <= p.level && (p.level == 4 ==> i >= 256)
    requires Child(p, i) in g.tab
    requires p.level > 1 ==> forall j: Index :: Child(Child(p, i), j) !in g.tab
    requires |s'.mem| == |s.mem| && s'.used == Mark(s.used, g.tab[Child(p, i)], 1, false)
    ensures PlacesOk(s', Disclaim(g, Child(p, i)))
  {
    var c := Child(p, i);
    var g' := Disclaim(g, c);
    ChildOfParent(p, i);
    assert PlaceOk(s, g, p) && PlaceOk(s, g, c);
    forall q | q in g'.tab ensures PlaceOk(s', g', q) {
      assert PlaceOk(s, g, q);
      PlacesApart(s, g, q, c);
      if q.level < 4 {
        ParentOfChild(q);
      }
    }
    forall x | x in g'.own ensures OwnerOk(g', x) {
      assert OwnerOk(g, x);
    }
    forall r | r in g'.origin ensures RootOk(g', r) {
      assert RootOk(g, r);
    }
  }

  /** An empty table, or a page that is nobody's template, is freed and its entry cleared. */
  lemma Release(s: Phys, g: Ghost, p: Place, i: Index, s': Phys)
    requires Inv(s, g) && p in g.tab && 1 <= p.level && p.root in g.origin && (p.level == 4 ==> i >= 256)
    requires Child(p, i) in g.tab
    requires p.level == 1 ==> !IsTemplate(g, p.root)
    requires p.level > 1 ==> forall j: Index :: Child(Child(p, i), j) !in g.tab
    requires s' == Put(Free(s, g.tab[Child(p, i)]), g.tab[p], i, ZERO_ENTRY)
    ensures Inv(s', Disclaim(g, Child(p, i)))
  {
    var c := Child(p, i);
    var g' := Disclaim(g, c);
    ReleasePlaces(s, g, p, i, s');
    forall q, j: Index | q in g'.tab && 1 <= q.level && q.root in g'.origin ensures EntryOk(s', g', q, j) {
      assert PlaceOk(s, g, q) && EntryOk(s, g, q, j);
      SameChild(p, i, q, j);
      PlacesApart(s, g, p, q);
      if q != p || j != i {
        assert q.level == 1 ==> RootOk(g, q.root);
        EntryFrame(s, g, s', g', q, j);
      }
    }
  }
}
