/** CleanPageMaps gives back exactly the frames that a space owns below one top-level entry. */
module Reclaim {
  import opened Wrappers
  import opened FrameSearch
  import opened PhysicalMemory
  import opened PageTables
  import opened Ownership
  import opened Mapping
  import opened Sharing

  /** Place `p` hangs off one of the entries [i, k) of the table `P` of `level`. */
  predicate Below(p: Place, r: nat, level: nat, P: nat, i: nat, k: nat) {
    p.root == r && p.level < level && P * 512 + i <= Lift(p.prefix, level - 1 - p.level) < P * 512 + k
  }

  /** Exactly the places below those entries, and their frames, have been given up. */
  ghost predicate Freed(s: Phys, g: Ghost, s': Phys, g': Ghost, r: nat, level: nat, P: nat, i: nat, k: nat) {
    && s'.lo == s.lo && s'.hi == s.hi && |s'.mem| == |s.mem| && |s'.used| == |s.used|
    && g'.origin == g.origin && g'.kernel == g.kernel && g'.detached == g.detached
    && (forall p :: p in g'.tab <==> p in g.tab && !Below(p, r, level, P, i, k))
    && (forall p :: p in g'.tab ==> g'.tab[p] == g.tab[p])
    && (forall f :: f in g'.own <==> f in g.own && !Below(g.own[f], r, level, P, i, k))
    && (forall f :: f in g'.own ==> g'.own[f] == g.own[f])
    && (forall f :: 0 <= f < |s.used| ==> (s'.used[f] <==> s.used[f] && !(f in g.own && Below(g.own[f], r, level, P, i, k))))
  }

  /** Only tables of `r` no higher than `level` have been written. */
  ghost predicate OnlyTables(s: Phys, g: Ghost, s': Phys, r: nat, level: nat) {
    && (forall f :: 0 <= f < |s.used| && !IsTable(g, r, f) ==> Load(s', f) == Load(s, f))
    && UpperKept(s, g, s', r, level)
  }

  ghost predicate Cleared(s: Phys, s': Phys, t: nat, i: nat, k: nat) {
    forall j: Index :: if i <= j < k then !Get(s', t, j).present else Get(s', t, j) == Get(s, t, j)
  }

  predicate Spans(level: nat, P: nat, i: nat, k: nat, u: nat)
    requires 1 <= level
  {
    P * 512 + i <= Lift(u, level - 1) < P * 512 + k
  }

  ghost predicate Unmapped(s: Phys, g: Ghost, s': Phys, g': Ghost, r: nat, level: nat, P: nat, i: nat, k: nat)
    requires 1 <= level
  {
    forall u: nat {:trigger Flat(s', g', r, u)} ::
      Flat(s', g', r, u) == if Spans(level, P, i, k, u) then None else Flat(s, g, r, u)
  }

  ghost predicate CleanAt(s: Phys, g: Ghost, r: nat, level: nat, P: nat, t: nat) {
    && Inv(s, g) && 1 <= level <= 3 && r in g.origin && !IsTemplate(g, r)
    && Place(r, level, P) in g.tab && g.tab[Place(r, level, P)] == t
    && (g.detached.Some? ==> g.detached.value.level >= level)
  }

  ghost predicate Cleaned(s: Phys, g: Ghost, s': Phys, g': Ghost, r: nat, level: nat, P: nat, t: nat, i: nat, k: nat)
    requires 1 <= level
  {
    && Inv(s', g') && Freed(s, g, s', g', r, level, P, i, k) && OnlyTables(s, g, s', r, level)
    && Cleared(s, s', t, i, k) && Unmapped(s, g, s', g', r, level, P, i, k)
  }

  /** Every table above a place exists. */
  lemma Ancestor(s: Phys, g: Ghost, q: Place, k: nat)
    requires PlacesOk(s, g) && q in g.tab && q.level + k <= 4
    ensures Place(q.root, q.level + k, Lift(q.prefix, k)) in g.tab
  {
    if k > 0 {
      Ancestor(s, g, q, k - 1);
      assert PlaceOk(s, g, Place(q.root, q.level + k - 1, Lift(q.prefix, k - 1)));
    }
  }

  lemma FreedTransitive(s: Phys, g: Ghost, s1: Phys, g1: Ghost, s2: Phys, g2: Ghost, r: nat, level: nat, P: nat,
                        i: nat, m: nat, k: nat)
    requires 1 <= level && i <= m <= k
    requires Freed(s, g, s1, g1, r, level, P, i, m) && Freed(s1, g1, s2, g2, r, level, P, m, k)
    ensures Freed(s, g, s2, g2, r, level, P, i, k)
    ensures |s1.used| == |s.used| && forall f :: IsTable(g1, r, f) ==> IsTable(g, r, f)
    ensures forall q :: q in g.tab && q.level > level && q.root == r ==> q in g1.tab && g1.tab[q] == g.tab[q]
  {
    forall p ensures Below(p, r, level, P, i, k) <==> Below(p, r, level, P, i, m) || Below(p, r, level, P, m, k) {}
  }

  lemma SpansJoin(level: nat, P: nat, i: nat, m: nat, k: nat)
    requires 1 <= level && i <= m <= k
    ensures forall u: nat :: Spans(level, P, i, k, u) <==> Spans(level, P, i, m, u) || Spans(level, P, m, k, u)
  {
  }

  lemma CleanTransitive(s: Phys, g: Ghost, s1: Phys, g1: Ghost, s2: Phys, g2: Ghost, r: nat, level: nat, P: nat,
                        t: nat, i: nat, m: nat, k: nat)
    requires CleanAt(s, g, r, level, P, t) && i <= m <= k
    requires Cleaned(s, g, s1, g1, r, level, P, t, i, m) && Cleaned(s1, g1, s2, g2, r, level, P, t, m, k)
    ensures Cleaned(s, g, s2, g2, r, level, P, t, i, k)
  {
    hide Inv, Below, Spans;
    FreedTransitive(s, g, s1, g1, s2, g2, r, level, P, i, m, k);
    SpansJoin(level, P, i, m, k);
    hide Freed;
    forall f | 0 <= f < |s.used| && !IsTable(g, r, f) ensures Load(s2, f) == Load(s, f) {
      assert !IsTable(g1, r, f);
    }
    forall q | q in g.tab && q.root == r && q.level > level ensures Load(s2, g.tab[q]) == Load(s, g.tab[q]) {
      assert q in g1.tab && g1.tab[q] == g.tab[q];
    }
    forall u: nat ensures Flat(s2, g2, r, u) == if Spans(level, P, i, k, u) then None else Flat(s, g, r, u) {
      assert Flat(s2, g2, r, u) == if Spans(level, P, m, k, u) then None else Flat(s1, g1, r, u);
    }
  }

  lemma NothingCleaned(s: Phys, g: Ghost, r: nat, level: nat, P: nat, t: nat, i: nat)
    requires CleanAt(s, g, r, level, P, t)
    ensures Cleaned(s, g, s, g, r, level, P, t, i, i)
  {
  }

  /** An absent entry has nothing below it. */
  lemma CleanAbsent(s: Phys, g: Ghost, r: nat, level: nat, P: nat, t: nat, i: Index)
    requires CleanAt(s, g, r, level, P, t) && !Get(s, t, i).present
    ensures Cleaned(s, g, s, g, r, level, P, t, i, i + 1)
  {
    var p := Place(r, level, P);
    assert EntryOk(s, g, p, i);
    forall q | q in g.tab ensures !Below(q, r, level, P, i, i + 1) {
      if q.level < level {
        Ancestor(s, g, q, level - 1 - q.level);
      }
    }
    forall f | f in g.own ensures !Below(g.own[f], r, level, P, i, i + 1) {
      assert OwnerOk(g, f);
    }
    forall u: nat | Spans(level, P, i, i + 1, u) ensures Flat(s, g, r, u).None? {
      if level == 1 { assert Lift(u, 0) == u; } else { MissingTable(s, g, r, u, level - 1); }
    }
  }

  /** A shared page is forgotten, a private one freed. */
  lemma CleanLeaf(s: Phys, g: Ghost, r: nat, P: nat, t: nat, i: Index) returns (g': Ghost)
    requires CleanAt(s, g, r, 1, P, t) && Get(s, t, i).present
    ensures
      var e := Get(s, t, i);
      var s2 := if e.writeable then Free(s, e.addr) else s;
      Cleaned(s, g, Put(s2, t, i, ZERO_ENTRY), g', r, 1, P, t, i, i + 1)
  {
    var p := Place(r, 1, P);
    var c := Child(p, i);
    var e := Get(s, t, i);
    assert EntryOk(s, g, p, i);
    assert PlaceOk(s, g, p) && IsTable(g, r, t);
    var s' := Put(if e.writeable then Free(s, e.addr) else s, t, i, ZERO_ENTRY);
    if e.writeable {
      Release(s, g, p, i, s');
      g' := Disclaim(g, c);
      assert PlaceOk(s, g, c);
    } else {
      PutLeaf(s, g, p, i, ZERO_ENTRY);
      g' := g;
    }
    LeafBelow(s, g, r, P, i);
    forall u: nat ensures Flat(s', g', r, u) == if Spans(1, P, i, i + 1, u) then None else Flat(s, g, r, u) {
      var q := Place(r, 1, u / 512);
      assert Lift(u, 0) == u;
      if q in g.tab { PlacesApart(s, g, p, q); }
    }
    forall q | q in g.tab && q.root == r && q.level > 1 ensures Load(s', g.tab[q]) == Load(s, g.tab[q]) {
      PlacesApart(s, g, p, q);
    }
  }

  lemma LeafBelow(s: Phys, g: Ghost, r: nat, P: nat, i: Index)
    requires Inv(s, g)
    ensures forall q :: q in g.tab ==> (Below(q, r, 1, P, i, i + 1) <==> q == Child(Place(r, 1, P), i))
    ensures forall f :: f in g.own ==> (Below(g.own[f], r, 1, P, i, i + 1) <==> g.own[f] == Child(Place(r, 1, P), i))
    ensures forall f :: f in g.own ==> OwnerOk(g, f)
  {
    forall q | q in g.tab ensures Below(q, r, 1, P, i, i + 1) <==> q == Child(Place(r, 1, P), i) {
      assert q.level == 0 ==> Lift(q.prefix, 0) == q.prefix;
    }
    forall f | f in g.own ensures OwnerOk(g, f) {}
  }

  /** A cleaned table is freed and its entry cleared. */
  lemma CleanLink(s: Phys, g: Ghost, s1: Phys, g1: Ghost, r: nat, level: nat, P: nat, t: nat, i: Index) returns (g': Ghost)
    requires CleanAt(s, g, r, level, P, t) && level > 1 && Get(s, t, i).present
    requires Cleaned(s, g, s1, g1, r, level - 1, P * 512 + i, Get(s, t, i).addr, 0, 512)
    ensures
      var e := Get(s, t, i);
      Cleaned(s, g, Put(if e.writeable then Free(s1, e.addr) else s1, t, i, ZERO_ENTRY), g', r, level, P, t, i, i + 1)
  {
    var p := Place(r, level, P);
    var c := Child(p, i);
    var e := Get(s, t, i);
    assert EntryOk(s, g, p, i) && PlaceOk(s, g, p) && IsTable(g, r, t);
    var s' := Put(Free(s1, e.addr), t, i, ZERO_ENTRY);
    hide Spans, Flat, Unmapped, Inv, Freed, PlaceOk, EntryOk, Below, TemplatePlace, LinkOk;
    CleanLinkInv(s, g, s1, g1, r, level, P, t, i);
    g' := Disclaim(g1, c);
    CleanLinkFreed(s, g, s1, g1, r, level, P, t, i);
    assert Load(s1, t) == Load(s, t);
    forall q | q in g.tab && q.root == r && q.level > level ensures Load(s', g.tab[q]) == Load(s, g.tab[q]) {
      PlacesApart(s, g, p, q);
    }
    CleanLinkUnmapped(s, g, s1, g1, r, level, P, t, i);
  }

  lemma CleanLinkUnmapped(s: Phys, g: Ghost, s1: Phys, g1: Ghost, r: nat, level: nat, P: nat, t: nat, i: Index)
    requires CleanAt(s, g, r, level, P, t) && level > 1 && Get(s, t, i).present
    requires Inv(s1, g1) && Unmapped(s, g, s1, g1, r, level - 1, P * 512 + i, 0, 512)
    requires Place(r, level, P) in g1.tab && g1.tab[Place(r, level, P)] == t
    requires Child(Place(r, level, P), i) in g1.tab && g1.tab[Child(Place(r, level, P), i)] == Get(s, t, i).addr
    ensures Unmapped(s, g, Put(Free(s1, Get(s, t, i).addr), t, i, ZERO_ENTRY),
                     Disclaim(g1, Child(Place(r, level, P), i)), r, level, P, i, i + 1)
  {
    var p := Place(r, level, P);
    var c := Child(p, i);
    var s' := Put(Free(s1, g1.tab[c]), t, i, ZERO_ENTRY);
    var g' := Disclaim(g1, c);
    forall u: nat ensures Flat(s', g', r, u) == if Spans(level, P, i, i + 1, u) then None else Flat(s, g, r, u) {
      assert Flat(s1, g1, r, u) == if Spans(level - 1, P * 512 + i, 0, 512, u) then None else Flat(s, g, r, u);
      assert Lift(u, level - 1) == Lift(u, level - 2) / 512;
      assert level == 2 ==> Lift(u, 0) == u;
      var q := Place(r, 1, u / 512);
      if q in g1.tab { PlacesApart(s1, g1, p, q); PlacesApart(s1, g1, c, q); }
    }
  }

  lemma CleanLinkInv(s: Phys, g: Ghost, s1: Phys, g1: Ghost, r: nat, level: nat, P: nat, t: nat, i: Index)
    requires CleanAt(s, g, r, level, P, t) && level > 1 && Get(s, t, i).present
    requires Inv(s1, g1) && Freed(s, g, s1, g1, r, level - 1, P * 512 + i, 0, 512)
    ensures var c := Child(Place(r, level, P), i);
      && c in g.tab && g.tab[c] == Get(s, t, i).addr && c in g1.tab && g1.tab[c] == g.tab[c]
      && Inv(Put(Free(s1, g1.tab[c]), t, i, ZERO_ENTRY), Disclaim(g1, c))
  {
    var p := Place(r, level, P);
    var c := Child(p, i);
    assert EntryOk(s, g, p, i);
    forall j: Index ensures Child(c, j) !in g1.tab {
      assert Lift(c.prefix * 512 + j, 0) == c.prefix * 512 + j;
      assert Below(Child(c, j), r, level - 1, P * 512 + i, 0, 512);
    }
    Release(s1, g1, p, i, Put(Free(s1, g1.tab[c]), t, i, ZERO_ENTRY));
  }

  lemma CleanLinkFreed(s: Phys, g: Ghost, s1: Phys, g1: Ghost, r: nat, level: nat, P: nat, t: nat, i: Index)
    requires CleanAt(s, g, r, level, P, t) && level > 1
    requires Freed(s, g, s1, g1, r, level - 1, P * 512 + i, 0, 512)
    requires Child(Place(r, level, P), i) in g1.tab
    ensures var c := Child(Place(r, level, P), i);
      Freed(s, g, Put(Free(s1, g1.tab[c]), t, i, ZERO_ENTRY), Disclaim(g1, c), r, level, P, i, i + 1)
  {
    var c := Child(Place(r, level, P), i);
    assert PlaceOk(s, g, c);
    forall q | q in g.tab
      ensures Below(q, r, level, P, i, i + 1) <==> q == c || Below(q, r, level - 1, P * 512 + i, 0, 512)
    {
      SplitBelow(q, r, level, P, i);
    }
    forall f | f in g.own
      ensures Below(g.own[f], r, level, P, i, i + 1) <==> f == g.tab[c] || Below(g.own[f], r, level - 1, P * 512 + i, 0, 512)
    {
      assert OwnerOk(g, f);
      SplitBelow(g.own[f], r, level, P, i);
    }
  }

  /** Below one entry: the table it points to, and what is below that table. */
  lemma SplitBelow(q: Place, r: nat, level: nat, P: nat, i: Index)
    requires level > 1
    ensures Below(q, r, level, P, i, i + 1) <==>
            q == Place(r, level - 1, P * 512 + i) || Below(q, r, level - 1, P * 512 + i, 0, 512)
  {
    if q.level < level - 1 {
      assert Lift(q.prefix, level - 1 - q.level) == Lift(q.prefix, level - 2 - q.level) / 512;
    } else {
      assert Lift(q.prefix, 0) == q.prefix;
    }
  }

  /** One round of the loop of CleanPageMap. */
  function CleanEntry(s: Phys, t: nat, level: nat, i: Index): Phys
    requires 1 <= level <= 4
  {
    var e := Get(s, t, i);
    if !e.present then s
    else
      var s1 := if level > 1 then CleanPageMap(s, e.addr, level - 1, 0) else s;
      Put(if e.writeable then Free(s1, e.addr) else s1, t, i, ZERO_ENTRY)
  }

  lemma CleanUnfold(s: Phys, t: nat, level: nat, i: Index)
    requires 1 <= level <= 4
    ensures CleanPageMap(s, t, level, i) == CleanPageMap(CleanEntry(s, t, level, i), t, level, i + 1)
  {
  }

  lemma CleanOne(s: Phys, g: Ghost, r: nat, level: nat, P: nat, t: nat, i: Index) returns (g': Ghost)
    requires CleanAt(s, g, r, level, P, t)
    ensures Cleaned(s, g, CleanEntry(s, t, level, i), g', r, level, P, t, i, i + 1)
    decreases level, 512 - i, 0
  {
    hide CleanPageMap, Cleaned;
    if !Get(s, t, i).present {
      CleanAbsent(s, g, r, level, P, t, i);
      g' := g;
    } else if level == 1 {
      g' := CleanLeaf(s, g, r, P, t, i);
    } else {
      assert EntryOk(s, g, Place(r, level, P), i);
      var below := Get(s, t, i).addr;
      var g0 := CleanKeeps(s, g, r, level - 1, P * 512 + i, below, 0);
      g' := CleanLink(s, g, CleanPageMap(s, below, level - 1, 0), g0, r, level, P, t, i);
    }
  }

  /** CleanPageMap, at every level below the top and from every entry. */
  lemma CleanKeeps(s: Phys, g: Ghost, r: nat, level: nat, P: nat, t: nat, i: nat) returns (g': Ghost)
    requires CleanAt(s, g, r, level, P, t) && i <= 512
    ensures Cleaned(s, g, CleanPageMap(s, t, level, i), g', r, level, P, t, i, 512)
    decreases level, 512 - i, 1
  {
    if i == 512 {
      NothingCleaned(s, g, r, level, P, t, i);
      g' := g;
    } else {
      CleanUnfold(s, t, level, i);
      hide CleanPageMap, CleanEntry;
      var g1 := CleanOne(s, g, r, level, P, t, i);
      var s1 := CleanEntry(s, t, level, i);
      g' := CleanKeeps(s1, g1, r, level, P, t, i + 1);
      CleanTransitive(s, g, s1, g1, CleanPageMap(s1, t, level, i + 1), g', r, level, P, t, i, i + 1, 512);
    }
  }
}
