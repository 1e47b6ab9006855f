/** CopyPageMaps gives a new space its own tables and, read-only, the pages of its template. */
module Sharing {
  import opened Wrappers
  import opened PhysicalMemory
  import opened PageTables
  import opened Ownership
  import opened Mapping

  /** The copy keeps the frame of a template's page and drops the permission to write. */
  function ReadOnly(e: Option<PageMapEntry>): Option<PageMapEntry> {
    match e
    case Some(x) => Some(x.(writeable := false))
    case None => None
  }

  /** Page `u` is reached through an entry, at or after `i`, of the table `P` of `level`. */
  predicate Covers(level: nat, P: nat, i: nat, u: nat)
    requires 1 <= level
  {
    Lift(u, level) == P && Lift(u, level - 1) >= P * 512 + i
  }

  ghost predicate PageCopied(s: Phys, g: Ghost, s': Phys, g': Ghost, r: nat, t: nat, level: nat, P: nat, i: nat, ok: bool, u: nat)
    requires 1 <= level
  {
    if Covers(level, P, i, u)
    then Flat(s', g', r, u) == ReadOnly(Flat(s, g, t, u)) || (!ok && Flat(s', g', r, u) == Flat(s, g, r, u))
    else Flat(s', g', r, u) == Flat(s, g, r, u)
  }

  ghost predicate Copied(s: Phys, g: Ghost, s': Phys, g': Ghost, r: nat, t: nat, level: nat, P: nat, i: nat, ok: bool)
    requires 1 <= level
  {
    forall u: nat {:trigger Flat(s', g', r, u)} :: PageCopied(s, g, s', g', r, t, level, P, i, ok, u)
  }

  /** Tables of `r` above `level` are left alone. */
  ghost predicate UpperKept(s: Phys, g: Ghost, s': Phys, r: nat, level: nat) {
    forall q {:trigger g.tab[q]} :: q in g.tab && q.root == r && q.level > level ==> Load(s', g.tab[q]) == Load(s, g.tab[q])
  }

  /** Entries of table `p` from `i` on are empty. */
  ghost predicate Bare(s: Phys, g: Ghost, p: Place, i: nat)
    requires p in g.tab
  {
    forall j: Index {:trigger Get(s, g.tab[p], j)} :: i <= j ==> !Get(s, g.tab[p], j).present
  }

  /** Changes to one space are invisible in another. */
  lemma OtherSpace(s: Phys, g: Ghost, s': Phys, g': Ghost, r: nat, q: nat, u: nat)
    requires Inv(s, g) && Grown(s, g, s', g', r) && q != r
    ensures Flat(s', g', q, u) == Flat(s, g, q, u)
  {
    var p := Place(q, 1, u / 512);
    if p in g.tab {
      assert PlaceOk(s, g, p);
      assert !IsTable(g, r, g.tab[p]);
    }
  }

  /** Under an empty entry nothing is mapped. */
  lemma NothingBelow(s: Phys, g: Ghost, p: Place, i: Index, u: nat)
    requires Inv(s, g) && g.detached.None? && p in g.tab && 1 <= p.level <= 4 && p.root in g.origin && (p.level == 4 ==> i >= 256)
    requires !Get(s, g.tab[p], i).present && Lift(u, p.level - 1) == p.prefix * 512 + i
    ensures Flat(s, g, p.root, u).None?
  {
    assert EntryOk(s, g, p, i);
    if p.level == 1 {
      assert Lift(u, 0) == u;
    } else {
      MissingTable(s, g, p.root, u, p.level - 1);
    }
  }

  /** What CopyPageMaps works on: `dst` and `src` are the tables of the same digits in a space and
      in the template that it was made from. */
  ghost predicate CopyAt(s: Phys, g: Ghost, r: nat, level: nat, P: nat, dst: nat, src: nat, i: nat) {
    && Inv(s, g) && g.detached.None? && 1 <= level <= 4 && r in g.origin && !IsTemplate(g, r) && (level == 4 ==> i >= 256)
    && Place(r, level, P) in g.tab && g.tab[Place(r, level, P)] == dst
    && Place(g.origin[r], level, P) in g.tab && g.tab[Place(g.origin[r], level, P)] == src
    && Bare(s, g, Place(r, level, P), i)
  }

  ghost predicate CopyDone(s: Phys, g: Ghost, q: Outcome, g': Ghost, r: nat, level: nat, P: nat, i: nat)
    requires r in g.origin && 1 <= level
  {
    && Inv(q.s, g') && Grown(s, g, q.s, g', r) && UpperKept(s, g, q.s, r, level)
    && Copied(s, g, q.s, g', r, g.origin[r], level, P, i, q.ok)
  }

  lemma NothingCopied(s: Phys, g: Ghost, r: nat, level: nat, P: nat, dst: nat, src: nat, i: nat, ok: bool)
    requires CopyAt(s, g, r, level, P, dst, src, i) && (ok ==> i >= 512)
    ensures CopyDone(s, g, Outcome(s, ok), g, r, level, P, i)
  {
    NothingDone(s, g, r, 0, false);
    forall u: nat ensures PageCopied(s, g, s, g, r, g.origin[r], level, P, i, ok, u) {
      assert Lift(u, level) == Lift(u, level - 1) / 512;
    }
  }

  /** A first step that handles entry `i` and a second one that handles the rest. */
  lemma CopyTransitive(s: Phys, g: Ghost, s1: Phys, g1: Ghost, q: Outcome, g2: Ghost, r: nat, level: nat, P: nat, i: nat)
    requires Inv(s, g) && r in g.origin && !IsTemplate(g, r) && 1 <= level
    requires Inv(s1, g1) && Grown(s, g, s1, g1, r) && UpperKept(s, g, s1, r, level)
    requires forall u: nat {:trigger Flat(s1, g1, r, u)} ::
               Flat(s1, g1, r, u) == if Covers(level, P, i, u) && Lift(u, level - 1) == P * 512 + i
                                     then ReadOnly(Flat(s, g, g.origin[r], u)) else Flat(s, g, r, u)
    requires CopyDone(s1, g1, q, g2, r, level, P, i + 1)
    ensures CopyDone(s, g, q, g2, r, level, P, i)
  {
    GrownTransitive(s, g, s1, g1, q.s, g2, r);
    forall u: nat ensures PageCopied(s, g, q.s, g2, r, g.origin[r], level, P, i, q.ok, u) {
      OtherSpace(s, g, s1, g1, r, g.origin[r], u);
      assert PageCopied(s1, g1, q.s, g2, r, g.origin[r], level, P, i + 1, q.ok, u);
      assert Flat(s1, g1, r, u) == Flat(s1, g1, r, u);
    }
  }

  /** An entry that is absent in the template is skipped. */
  lemma SkipEntry(s: Phys, g: Ghost, q: Outcome, g': Ghost, r: nat, level: nat, P: nat, dst: nat, src: nat, i: Index)
    requires CopyAt(s, g, r, level, P, dst, src, i) && !Get(s, src, i).present
    requires CopyDone(s, g, q, g', r, level, P, i + 1)
    ensures CopyDone(s, g, q, g', r, level, P, i)
  {
    var t := g.origin[r];
    NothingDone(s, g, r, 0, false);
    forall u: nat | Covers(level, P, i, u) && Lift(u, level - 1) == P * 512 + i
      ensures Flat(s, g, r, u) == ReadOnly(Flat(s, g, t, u))
    {
      assert RootOk(g, r);
      NothingBelow(s, g, Place(t, level, P), i, u);
      NothingBelow(s, g, Place(r, level, P), i, u);
    }
    CopyTransitive(s, g, s, g, q, g', r, level, P, i);
  }

  /** A page of the template is shared by entry `i` of a level-1 table. */
  lemma CopyLeaf(s: Phys, g: Ghost, r: nat, P: nat, dst: nat, src: nat, i: Index)
    requires CopyAt(s, g, r, 1, P, dst, src, i) && Get(s, src, i).present
    ensures
      var s1 := Put(s, dst, i, Get(s, src, i).(writeable := false));
      && CopyAt(s1, g, r, 1, P, dst, src, i + 1) && Grown(s, g, s1, g, r) && UpperKept(s, g, s1, r, 1)
      && forall u: nat {:trigger Flat(s1, g, r, u)} ::
           Flat(s1, g, r, u) == if Covers(1, P, i, u) && Lift(u, 0) == P * 512 + i
                                then ReadOnly(Flat(s, g, g.origin[r], u)) else Flat(s, g, r, u)
  {
    var t := g.origin[r];
    var e := Get(s, src, i).(writeable := false);
    var s1 := Put(s, dst, i, e);
    var p := Place(r, 1, P);
    assert RootOk(g, r) && EntryOk(s, g, Place(t, 1, P), i) && EntryOk(s, g, p, i);
    assert PlaceOk(s, g, p) && IsTable(g, r, dst);
    PutLeaf(s, g, p, i, e);
    forall j: Index | i + 1 <= j ensures !Get(s1, dst, j).present {
      assert !Get(s, dst, j).present;
    }
    PlacesApart(s, g, p, Place(t, 1, P));
    forall f | 0 <= f < |s.used| ensures s1.used[f] <==> s.used[f] || f in g.own {
      OwnedFrameUsed(s, g, f);
    }
    forall u: nat
      ensures Flat(s1, g, r, u) == if Covers(1, P, i, u) && Lift(u, 0) == P * 512 + i
                                   then ReadOnly(Flat(s, g, t, u)) else Flat(s, g, r, u)
    {
      var q := Place(r, 1, u / 512);
      assert Lift(u, 0) == u && Lift(u, 1) == u / 512;
      if q in g.tab { PlacesApart(s, g, p, q); }
    }
    forall q | q in g.tab && q.root == r && q.level > 1 ensures Load(s1, g.tab[q]) == Load(s, g.tab[q]) {
      PlacesApart(s, g, p, q);
    }
  }

  /** A new table for entry `i`, before anything is copied into it. */
  lemma CopyLink(s: Phys, g: Ghost, r: nat, level: nat, P: nat, dst: nat, src: nat, i: Index) returns (g1: Ghost)
    requires CopyAt(s, g, r, level, P, dst, src, i) && level > 1 && Get(s, src, i).present && NewPageMap(s).frame.Some?
    ensures
      var f := NewPageMap(s).frame.value;
      var s1 := Put(NewPageMap(s).s, dst, i, Get(NewPageMap(s).s, src, i).SetPtr(f));
      && CopyAt(s1, g1, r, level - 1, P * 512 + i, f, Get(s1, src, i).addr, 0)
      && Grown(s, g, s1, g1, r) && UpperKept(s, g, s1, r, level)
      && dst < |s1.mem| && (forall j: Index :: j != i ==> Get(s1, dst, j) == Get(s, dst, j))
      && forall u: nat {:trigger Flat(s1, g1, r, u)} :: Flat(s1, g1, r, u) == Flat(s, g, r, u)
  {
    hide Inv, PlacesOk, Flat, Grown, EntryOk, PlaceOk, LinkOk, LeafOk, NewPageMap;
    var p := Place(r, level, P);
    var f := NewPageMap(s).frame.value;
    CopyLinkFacts(s, g, r, level, P, dst, src, i);
    var e := Get(s, src, i).SetPtr(f);
    var s1 := Put(NewPageMap(s).s, dst, i, e);
    LinkTable(s, g, p, i, f, e, s1);
    LinkEffect(s, g, p, i, f, e, s1);
    g1 := Claim(g, Child(p, i), f);
    forall q | q in g.tab && q.root == r && q.level > level ensures Load(s1, g.tab[q]) == Load(s, g.tab[q]) {
      PlacesApart(s, g, p, q);
    }
  }

  /** The template has a table where the copy has none, and the new frame is nobody's. */
  lemma CopyLinkFacts(s: Phys, g: Ghost, r: nat, level: nat, P: nat, dst: nat, src: nat, i: Index)
    requires CopyAt(s, g, r, level, P, dst, src, i) && level > 1 && Get(s, src, i).present && NewPageMap(s).frame.Some?
    ensures
      var p, tp, f := Place(r, level, P), Place(g.origin[r], level, P), NewPageMap(s).frame.value;
      && PlacesOk(s, g) && f % ADDR_LIMIT == f && NewPageMap(s).s == s.(used := s.used[f := true], mem := s.mem[f := ZeroFrame()])
      && 0 < f < |s.used| && |s.mem| == |s.used| && !s.used[f] && f !in g.own && dst != src && f != dst && f != src
      && dst < |s.mem| && src < |s.mem| && g.origin[r] in g.origin && g.origin[g.origin[r]] == g.origin[r]
      && EntryOk(s, g, p, i) && !Get(s, dst, i).present && Child(p, i) !in g.tab
      && Get(s, src, i).writeable && Get(s, src, i).user && !Get(s, src, i).huge
      && Child(tp, i) in g.tab && g.tab[Child(tp, i)] == Get(s, src, i).addr
      && forall q :: q in g.tab ==> g.tab[q] != f && g.tab[q] < |s.mem|
  {
    hide TemplatePlace;
    var p, tp := Place(r, level, P), Place(g.origin[r], level, P);
    NewPageMapFacts(s);
    FreeFrameUnclaimed(s, g, NewPageMap(s).frame.value);
    assert RootOk(g, r) && EntryOk(s, g, tp, i) && EntryOk(s, g, p, i);
    assert PlaceOk(s, g, p) && PlaceOk(s, g, tp);
    PlacesApart(s, g, p, tp);
    forall q | q in g.tab ensures g.tab[q] != NewPageMap(s).frame.value && g.tab[q] < |s.mem| { assert PlaceOk(s, g, q); }
  }

  /** The table below entry `i`, then the rest. */
  lemma CopyBelow(s: Phys, g: Ghost, r: nat, level: nat, P: nat, dst: nat, src: nat, i: Index) returns (g': Ghost)
    requires CopyAt(s, g, r, level, P, dst, src, i) && level > 1 && Get(s, src, i).present && NewPageMap(s).frame.Some?
    ensures
      var f := NewPageMap(s).frame.value;
      var s1 := Put(NewPageMap(s).s, dst, i, Get(NewPageMap(s).s, src, i).SetPtr(f));
      var sub := CopyPageMaps(s1, f, Get(s1, src, i).addr, level - 1, 0);
      CopyDone(s, g, if sub.ok then CopyPageMaps(sub.s, dst, src, level, i + 1) else sub, g', r, level, P, i)
    decreases level, 512 - i, 0
  {
    hide CopyPageMaps, CopyDone, Inv, Grown, UpperKept, Bare;
    var f := NewPageMap(s).frame.value;
    var s1 := Put(NewPageMap(s).s, dst, i, Get(NewPageMap(s).s, src, i).SetPtr(f));
    var g1 := CopyLink(s, g, r, level, P, dst, src, i);
    var below := Get(s1, src, i).addr;
    var sub := CopyPageMaps(s1, f, below, level - 1, 0);
    var g2 := CopyKeeps(s1, g1, r, level - 1, P * 512 + i, f, below, 0);
    CopyEntry(s, g, s1, g1, sub, g2, r, level, P, dst, src, i);
    hide *;
    if sub.ok {
      g' := CopyKeeps(sub.s, g2, r, level, P, dst, src, i + 1);
      CopyTransitive(s, g, sub.s, g2, CopyPageMaps(sub.s, dst, src, level, i + 1), g', r, level, P, i);
    } else {
      g' := g2;
    }
  }

  /** The copy made below entry `i`, seen from the table that holds the entry. */
  lemma CopyEntry(s: Phys, g: Ghost, s1: Phys, g1: Ghost, sub: Outcome, g2: Ghost, r: nat, level: nat, P: nat,
                  dst: nat, src: nat, i: Index)
    requires CopyAt(s, g, r, level, P, dst, src, i) && level > 1
    requires Inv(s1, g1) && Grown(s, g, s1, g1, r) && UpperKept(s, g, s1, r, level)
    requires forall j: Index :: j != i ==> Get(s1, dst, j) == Get(s, dst, j)
    requires forall u: nat {:trigger Flat(s1, g1, r, u)} :: Flat(s1, g1, r, u) == Flat(s, g, r, u)
    requires CopyDone(s1, g1, sub, g2, r, level - 1, P * 512 + i, 0)
    ensures !sub.ok ==> CopyDone(s, g, sub, g2, r, level, P, i)
    ensures sub.ok ==>
      && CopyAt(sub.s, g2, r, level, P, dst, src, i + 1) && Grown(s, g, sub.s, g2, r) && UpperKept(s, g, sub.s, r, level)
      && forall u: nat {:trigger Flat(sub.s, g2, r, u)} ::
           Flat(sub.s, g2, r, u) == if Covers(level, P, i, u) && Lift(u, level - 1) == P * 512 + i
                                    then ReadOnly(Flat(s, g, g.origin[r], u)) else Flat(s, g, r, u)
  {
    GrownTransitive(s, g, s1, g1, sub.s, g2, r);
    var t := g.origin[r];
    var p := Place(r, level, P);
    assert p in g1.tab && Load(sub.s, g1.tab[p]) == Load(s1, g1.tab[p]);
    forall j: Index | i + 1 <= j ensures !Get(sub.s, dst, j).present {
      assert !Get(s, dst, j).present;
    }
    forall u: nat
      ensures !sub.ok ==> PageCopied(s, g, sub.s, g2, r, t, level, P, i, sub.ok, u)
      ensures sub.ok ==>
        Flat(sub.s, g2, r, u) == if Covers(level, P, i, u) && Lift(u, level - 1) == P * 512 + i
                                 then ReadOnly(Flat(s, g, t, u)) else Flat(s, g, r, u)
    {
      OtherSpace(s, g, s1, g1, r, t, u);
      assert PageCopied(s1, g1, sub.s, g2, r, t, level - 1, P * 512 + i, 0, sub.ok, u);
      assert Flat(s1, g1, r, u) == Flat(s, g, r, u);
      assert Lift(u, level - 1) == Lift(u, level - 2) / 512 && Lift(u, level) == Lift(u, level - 1) / 512;
    }
  }

  /** CopyPageMaps, at every level of the tree and from every entry. */
  lemma CopyKeeps(s: Phys, g: Ghost, r: nat, level: nat, P: nat, dst: nat, src: nat, i: nat) returns (g': Ghost)
    requires CopyAt(s, g, r, level, P, dst, src, i)
    ensures CopyDone(s, g, CopyPageMaps(s, dst, src, level, i), g', r, level, P, i)
    decreases level, 512 - i, 1
  {
    if i >= 512 {
      NothingCopied(s, g, r, level, P, dst, src, i, true);
      g' := g;
    } else if !Get(s, src, i).present {
      g' := CopyKeeps(s, g, r, level, P, dst, src, i + 1);
      hide CopyPageMaps;
      SkipEntry(s, g, CopyPageMaps(s, dst, src, level, i + 1), g', r, level, P, dst, src, i);
    } else if level == 1 {
      var s1 := Put(s, dst, i, Get(s, src, i).(writeable := false));
      CopyLeaf(s, g, r, P, dst, src, i);
      g' := CopyKeeps(s1, g, r, level, P, dst, src, i + 1);
      CopyTransitive(s, g, s1, g, CopyPageMaps(s1, dst, src, level, i + 1), g', r, level, P, i);
    } else if NewPageMap(s).frame.None? {
      NewPageMapFacts(s);
      NothingCopied(s, g, r, level, P, dst, src, i, false);
      g' := g;
    } else {
      g' := CopyBelow(s, g, r, level, P, dst, src, i);
    }
  }
}
