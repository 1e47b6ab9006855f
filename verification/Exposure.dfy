/** Where SetupPageMaps breaks the isolation that copy-on-write gives: a page that is still shared
    with the template and is asked for again, writeable. */
module Exposure {
  import opened Wrappers
  import opened PhysicalMemory
  import opened PageTables
  import opened Ownership
  import opened Mapping
  import opened Sharing
  import opened Faults
  import opened Lifecycle
  import opened IdentityMap
  import opened Spaces
  import opened Refinement
  import opened Programs

  /** Asking for a page that is mapped only rewrites the flags of its leaf entry. */
  lemma SetupMapped(s: Phys, g: Ghost, r: nat, level: nat, a: LinearAddress, t: nat)
    requires TableAt(s, g, r, level, a, t) && Flat(s, g, r, a.Vpn()).Some?
    ensures Place(r, 1, a.Prefix(1)) in g.tab
    ensures SetupPageMap(s, t, level, a, 1, true) == Setup(SetFlags(s, g.tab[Place(r, 1, a.Prefix(1))], a.At(1), true), 0, true)
    decreases level
  {
    var p := Place(r, level, a.Prefix(level));
    assert EntryOk(s, g, p, a.At(level)) && PlaceOk(s, g, p);
    Digit(a, level);
    hide LinearAddress.Prefix;
    if level > 1 {
      if Child(p, a.At(level)) in g.tab {
        var e := Get(s, t, a.At(level));
        assert s.mem[t][a.At(level) := e] == s.mem[t];
        assert SetFlags(s, t, a.At(level), true) == s;
        SetupMapped(s, g, r, level - 1, a, e.addr);
      } else {
        PrefixIsLift(a, level - 1);
        MissingTable(s, g, r, a.Vpn(), level - 1);
      }
    }
  }

  /** The frame through which space `r` reaches the page of `a`, if any. */
  function FrameOf(s: Phys, r: nat, a: LinearAddress): Option<nat> {
    match Walk(s, r, 4, a)
    case Some(e) => Some(e.addr)
    case None => None
  }

  /** SetupPageMaps of a shared page: the program keeps the template's frame, now writeable. */
  lemma SharedMapped(os: Os, g: Ghost, r: nat, a: LinearAddress)
    requires OsInv(os, g) && Running(os, r) && UserAddress(a)
    requires Walk(os.s, r, 4, a).Some? && !Walk(os.s, r, 4, a).value.writeable
    ensures
      var t := os.apps[r].template;
      var e := Walk(os.s, r, 4, a).value;
      var x := Place(r, 1, a.Prefix(1));
      && x in g.tab && e.addr in g.own && g.own[e.addr].level == 0 && e.addr < |os.s.mem|
      && g.tab[x] in g.own && g.own[g.tab[x]] == x
      && SetupPageMaps(os.s, r, a, 1, true).s == SetFlags(os.s, g.tab[x], a.At(1), true)
      && t in g.origin && t != r && FrameOf(os.s, t, a) == Some(e.addr)
  {
    hide LinearAddress.Prefix;
    var t := os.apps[r].template;
    RunningKnown(os, g, r);
    WalkIsFlat(os.s, g, r, a);
    WalkIsFlat(os.s, g, t, a);
    SharedFrame(os.s, g, r, a);
    PageFrame(os.s, g, r, a.Vpn());
    TopTable(os.s, g, r, a);
    SetupMapped(os.s, g, r, 4, a, r);
    assert PlaceOk(os.s, g, Place(r, 1, a.Prefix(1)));
  }

  /** What a later store through the exposed page does: the template reads the new word. */
  lemma SharedStoreLeaks(os: Os, g: Ghost, r: nat, a: LinearAddress, off: Index, word: PageMapEntry)
    requires OsInv(os, g) && Running(os, r) && UserAddress(a)
    requires Walk(os.s, r, 4, a).Some? && !Walk(os.s, r, 4, a).value.writeable
    ensures
      var t := os.apps[r].template;
      var s1 := SetupPageMaps(os.s, r, a, 1, true).s;
      var s2 := UserStore(s1, r, os.apps[r].demand, a, off, word).s;
      && FrameOf(s1, r, a) == FrameOf(os.s, t, a) && FrameOf(s1, r, a).Some?
      && Visible(os.s, t, a).Some? && Visible(s2, t, a) == Some(Visible(os.s, t, a).value[off := word])
  {
    hide LinearAddress.Prefix, SetupPageMaps, OsInv, Inv, Walk, Permits;
    var s := os.s;
    var t := os.apps[r].template;
    var e := Walk(s, r, 4, a).value;
    SharedMapped(os, g, r, a);
    RunningKnown(os, g, r);
    WalkIsFlat(s, g, r, a);
    TopTable(s, g, r, a);
    TopTable(s, g, t, a);
    var x := g.tab[Place(r, 1, a.Prefix(1))];
    var s1 := SetFlags(s, x, a.At(1), true);
    ExposedWalk(s, g, r, 4, a, r);
    var s2 := Put(s1, e.addr, off, word);
    assert UserStore(s1, r, os.apps[r].demand, a, off, word) == Outcome(s2, true);
    WalkOverPage(s, g, t, 4, a, t, s2, x, e.addr, r);
    assert Load(s2, e.addr) == Load(s, e.addr)[off := word];
  }

  lemma TopTable(s: Phys, g: Ghost, r: nat, a: LinearAddress)
    requires Inv(s, g) && g.detached.None? && r in g.origin && UserAddress(a)
    ensures TableAt(s, g, r, 4, a, r)
  {
    assert RootOk(g, r) && PlaceOk(s, g, Place(r, 4, 0));
  }

  /** A read-only page of a program is its template's own frame. */
  lemma SharedFrame(s: Phys, g: Ghost, r: nat, a: LinearAddress)
    requires Inv(s, g) && r in g.origin && !IsTemplate(g, r)
    requires Flat(s, g, r, a.Vpn()).Some? && !Flat(s, g, r, a.Vpn()).value.writeable
    ensures var e := Flat(s, g, r, a.Vpn()).value;
      && Flat(s, g, g.origin[r], a.Vpn()).Some? && Flat(s, g, g.origin[r], a.Vpn()).value.addr == e.addr
      && e.addr in g.own && g.own[e.addr] == Place(g.origin[r], 0, a.Vpn())
  {
    var v := a.Vpn();
    var t := g.origin[r];
    PageFrame(s, g, r, v);
    assert RootOk(g, r);
    var c := Place(t, 0, v);
    var f := Flat(s, g, r, v).value.addr;
    assert OwnerOk(g, f) && PlaceOk(s, g, c);
    assert EntryOk(s, g, Parent(c), v % 512);
    assert Child(Parent(c), v % 512) == c;
  }

  /** After the flags have been rewritten the program's walk ends in the same frame, writeable. */
  lemma ExposedWalk(s: Phys, g: Ghost, r: nat, level: nat, a: LinearAddress, t: nat)
    requires TableAt(s, g, r, level, a, t) && Flat(s, g, r, a.Vpn()).Some? && Place(r, 1, a.Prefix(1)) in g.tab
    ensures
      var s1 := SetFlags(s, g.tab[Place(r, 1, a.Prefix(1))], a.At(1), true);
      var e := Flat(s, g, r, a.Vpn()).value;
      Walk(s1, t, level, a) == Some(e.(user := true, writeable := true)) && Permits(s1, t, level, a, true)
    decreases level
  {
    var p := Place(r, level, a.Prefix(level));
    var q := Place(r, 1, a.Prefix(1));
    assert EntryOk(s, g, p, a.At(level)) && PlaceOk(s, g, p) && PlaceOk(s, g, q);
    PlacesApart(s, g, p, q);
    Digit(a, level);
    hide LinearAddress.Prefix;
    if level > 1 {
      if Child(p, a.At(level)) in g.tab {
        ExposedWalk(s, g, r, level - 1, a, Get(s, t, a.At(level)).addr);
      } else {
        PrefixIsLift(a, level - 1);
        MissingTable(s, g, r, a.Vpn(), level - 1);
      }
    }
  }

  /** A walk in another space meets neither the table nor the page that was written. */
  lemma WalkOverPage(s: Phys, g: Ghost, q: nat, level: nat, a: LinearAddress, t: nat, s2: Phys, x: nat, y: nat, r: nat)
    requires TableAt(s, g, q, level, a, t) && q != r && x in g.own && g.own[x].root == r && y in g.own && g.own[y].level == 0
    requires forall f: nat :: f != x && f != y ==> Load(s2, f) == Load(s, f)
    ensures Walk(s2, t, level, a) == Walk(s, t, level, a)
    decreases level
  {
    var p := Place(q, level, a.Prefix(level));
    assert EntryOk(s, g, p, a.At(level)) && PlaceOk(s, g, p);
    Digit(a, level);
    hide LinearAddress.Prefix;
    if level > 1 && Child(p, a.At(level)) in g.tab {
      WalkOverPage(s, g, q, level - 1, a, Get(s, t, a.At(level)).addr, s2, x, y, r);
    }
  }

  /** Mapping one page writeable leaves it private exactly when it was not a read-only page before. */
  lemma PrivateIffUnshared(os: Os, g: Ghost, r: nat, a: LinearAddress)
    requires OsInv(os, g) && Running(os, r) && UserAddress(a) && SetupPageMaps(os.s, r, a, 1, true).ok
    ensures
      var s1 := SetupPageMaps(os.s, r, a, 1, true).s;
      && FrameOf(s1, r, a).Some?
      && (FrameOf(s1, r, a) != FrameOf(os.s, os.apps[r].template, a) <==> NoSharedPage(os.s, r, a.Vpn(), a.Vpn() + 1))
  {
    hide SetupPageMaps, LinearAddress.Prefix;
    var t := os.apps[r].template;
    var v := a.Vpn();
    VpnBounds(a);
    PageAddressVpn(v);
    RunningKnown(os, g, r);
    WalkIsFlat(os.s, g, r, a);
    WalkIsFlat(os.s, g, r, PageAddress(v));
    if Flat(os.s, g, r, v).Some? && !Flat(os.s, g, r, v).value.writeable {
      SharedStoreLeaks(os, g, r, a, 0, ZERO_ENTRY);
    } else {
      forall u | v <= u < v + 1 && u < USER_END && Walk(os.s, r, 4, PageAddress(u)).Some?
        ensures Walk(os.s, r, 4, PageAddress(u)).value.writeable
      {
      }
      var g', m := MapStep(os, g, r, a, 1, true);
      var s1 := SetupPageMaps(os.s, r, a, 1, true).s;
      assert Flat(s1, g', r, v) == Flat(s1, g', r, v);
      WalkIsFlat(s1, g', r, a);
      WalkIsFlat(os.s, g, t, a);
      PrivateFrame(os.s, g, s1, g', r, t, v);
    }
  }

  lemma PrivateFrame(s: Phys, g: Ghost, s1: Phys, g1: Ghost, r: nat, t: nat, v: nat)
    requires Inv(s, g) && r in g.origin && g.origin[r] == t && t != r && t in g.origin
    requires PageMapped(s, g, s1, g1, r, v, true)
    requires Flat(s, g, r, v).Some? ==> Flat(s, g, r, v).value.writeable
    ensures Flat(s, g, t, v).Some? ==> Flat(s1, g1, r, v).value.addr != Flat(s, g, t, v).value.addr
  {
    if Flat(s, g, t, v).Some? { PageFrame(s, g, t, v); }
    if Flat(s, g, r, v).Some? { PageFrame(s, g, r, v); }
    assert RootOk(g, r);
  }
}
