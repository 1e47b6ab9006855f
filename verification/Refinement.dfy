/** Copy-on-write sharing implements private memories: whatever the events and however the memory
    runs out, what each space reads is what the simple machine holds for it. */
module Refinement {
  import opened Wrappers
  import opened FrameSearch
  import opened PhysicalMemory
  import opened PageTables
  import opened Ownership
  import opened Mapping
  import opened Sharing
  import opened Reclaim
  import opened Faults
  import opened Lifecycle
  import opened IdentityMap
  import opened Spaces

  function OriginOf(os: Os): map<nat, nat> {
    map r | r in os.building + os.templates + os.apps.Keys :: if r in os.apps then os.apps[r].template else r
  }

  /** The kernel's tables are in use, serve no space, and are what boot has left there. */
  ghost predicate Booted(os: Os, g: Ghost) {
    && (forall f <- Static(os.kernel) :: 0 < f < |os.s.used| && os.s.used[f] && f !in g.own)
    && Identity(os.s, os.kernel) && KernelHalf(os.s, g, os.kernel.pml4)
    && (os.cr3 == os.kernel.pml4 || os.cr3 in g.origin)
  }

  /** They stay so while the frames they lie in do not change. */
  lemma BootedKept(os: Os, g: Ghost, s': Phys, g': Ghost, cr3: nat)
    requires Booted(os, g) && g'.kernel == g.kernel && (cr3 == os.kernel.pml4 || cr3 in g'.origin)
    requires forall f <- Static(os.kernel) :: Load(s', f) == Load(os.s, f) && f < |s'.used| && s'.used[f] && f !in g'.own
    ensures Booted(os.(s := s', cr3 := cr3), g')
  {
    IdentityKept(os.s, s', os.kernel);
    assert os.kernel.pml4 in Static(os.kernel);
  }

  ghost predicate OsInv(os: Os, g: Ghost) {
    && Inv(os.s, g) && g.detached.None? && g.origin == OriginOf(os) && Booted(os, g)
    && os.building !! os.templates && (os.building + os.templates) !! os.apps.Keys
    && (forall r :: r in os.apps ==> os.apps[r].template in os.templates)
  }

  /** The kernel half of the table that the processor uses now. */
  lemma CurrentTable(os: Os, g: Ghost)
    requires OsInv(os, g)
    ensures os.cr3 < |os.s.used| && os.s.used[os.cr3] && KernelHalf(os.s, g, os.cr3)
  {
    assert os.kernel.pml4 in Static(os.kernel);
    if os.cr3 != os.kernel.pml4 {
      var p := Place(os.cr3, 4, 0);
      assert RootOk(g, os.cr3) && PlaceOk(os.s, g, p);
      forall i: Index | i < 256 ensures Get(os.s, os.cr3, i) == g.kernel[i] {
        assert EntryOk(os.s, g, p, i);
      }
    }
  }

  lemma PageAddressVpn(u: nat)
    requires u < USER_END
    ensures PageAddress(u).Vpn() == u && (u >= USER_BEGIN ==> PageAddress(u).pml4 >= 256)
  {
  }

  lemma VpnBounds(a: LinearAddress)
    requires a.pml4 >= 256
    ensures USER_BEGIN <= a.Vpn() < USER_END && a.TableEnd(4) == USER_END
  {
  }

  /** What a space reads through the processor's walk is its content. */
  lemma SpaceIsContent(s: Phys, g: Ghost, r: nat)
    requires Inv(s, g) && g.detached.None? && r in g.origin
    ensures forall u: nat {:trigger Content(s, g, r, u)} :: USER_BEGIN <= u < USER_END ==>
      (u in SpaceOf(s, r) <==> Content(s, g, r, u).Some?) && (u in SpaceOf(s, r) ==> SpaceOf(s, r)[u] == Content(s, g, r, u).value)
    ensures forall u: nat :: u in SpaceOf(s, r) ==> USER_BEGIN <= u < USER_END
  {
    forall u: nat | USER_BEGIN <= u < USER_END
      ensures (u in SpaceOf(s, r) <==> Content(s, g, r, u).Some?)
      ensures (u in SpaceOf(s, r) ==> SpaceOf(s, r)[u] == Content(s, g, r, u).value)
    {
      PageAddressVpn(u);
      WalkIsFlat(s, g, r, PageAddress(u));
    }
  }

  /** Two user memories with the same pages. */
  lemma SameSpace(x: map<nat, Frame>, y: map<nat, Frame>)
    requires forall u: nat :: u in x ==> USER_BEGIN <= u < USER_END
    requires forall u: nat :: u in y ==> USER_BEGIN <= u < USER_END
    requires forall u: nat :: USER_BEGIN <= u < USER_END ==> (u in x <==> u in y) && (u in x ==> x[u] == y[u])
    ensures x == y
  {
    assert x.Keys == y.Keys;
  }

  lemma FillZeroFacts(sp: map<nat, Frame>, v: nat, m: nat)
    ensures forall u: nat :: u in FillZero(sp, v, m) <==> u in sp || v <= u < m
    ensures forall u: nat :: u in FillZero(sp, v, m) ==> FillZero(sp, v, m)[u] == if u in sp then sp[u] else ZeroFrame()
  {
    forall u: nat ensures InRange(u, v, m) <==> v <= u < m {}
  }

  lemma SpaceUnchanged(s: Phys, g: Ghost, r: nat, s': Phys, g': Ghost, r': nat)
    requires Inv(s, g) && g.detached.None? && r in g.origin
    requires Inv(s', g') && g'.detached.None? && r' in g'.origin
    requires forall u: nat {:trigger Content(s', g', r', u)} :: Content(s', g', r', u) == Content(s, g, r, u)
    ensures SpaceOf(s', r') == SpaceOf(s, r)
  {
    SpaceIsContent(s, g, r);
    SpaceIsContent(s', g', r');
    hide *;
    forall u: nat | USER_BEGIN <= u < USER_END
      ensures (u in SpaceOf(s', r') <==> u in SpaceOf(s, r)) && (u in SpaceOf(s, r) ==> SpaceOf(s', r')[u] == SpaceOf(s, r)[u])
    {
      assert Content(s', g', r', u) == Content(s, g, r, u);
    }
    SameSpace(SpaceOf(s', r'), SpaceOf(s, r));
  }

  lemma SpaceFilled(s: Phys, g: Ghost, r: nat, s': Phys, g': Ghost, v: nat, m: nat)
    requires Inv(s, g) && g.detached.None? && r in g.origin
    requires Inv(s', g') && g'.detached.None? && r in g'.origin && USER_BEGIN <= v && m <= USER_END
    requires forall u: nat {:trigger Content(s', g', r, u)} ::
      Content(s', g', r, u) == if v <= u < m && Content(s, g, r, u).None? then Some(ZeroFrame()) else Content(s, g, r, u)
    ensures SpaceOf(s', r) == FillZero(SpaceOf(s, r), v, m)
  {
    SpaceIsContent(s, g, r);
    SpaceIsContent(s', g', r);
    var sp := FillZero(SpaceOf(s, r), v, m);
    FillZeroFacts(SpaceOf(s, r), v, m);
    hide *;
    forall u: nat | USER_BEGIN <= u < USER_END
      ensures (u in SpaceOf(s', r) <==> u in sp) && (u in sp ==> SpaceOf(s', r)[u] == sp[u])
    {
      assert Content(s', g', r, u) == if v <= u < m && Content(s, g, r, u).None? then Some(ZeroFrame()) else Content(s, g, r, u);
    }
    SameSpace(SpaceOf(s', r), sp);
  }

  /** Frames have been taken for space `r` only, and only free ones. */
  ghost predicate Claimed(s: Phys, g: Ghost, s': Phys, g': Ghost, r: nat) {
    && |s'.used| == |s.used|
    && (forall f :: f in g.own ==> f in g'.own && g'.own[f] == g.own[f])
    && (forall f :: f in g'.own && f !in g.own ==> f < |s.used| && !s.used[f] && g'.own[f].root == r)
    && (forall f :: 0 <= f < |s.used| ==> (s'.used[f] <==> s.used[f] || f in g'.own))
  }

  /** Only space `r` has changed. */
  ghost predicate Private(os: Os, g: Ghost, os': Os, g': Ghost, r: nat) {
    && Claimed(os.s, g, os'.s, g', r) && g'.origin == g.origin && g'.kernel == g.kernel && Live(os') == Live(os)
    && forall q, u: nat {:trigger Content(os'.s, g', q, u)} :: q in g.origin && q != r ==> Content(os'.s, g', q, u) == Content(os.s, g, q, u)
  }

  lemma LiveKnown(os: Os, g: Ghost, r: nat)
    requires OsInv(os, g) && r in Live(os)
    ensures r in g.origin
  {
  }

  lemma AbsChanges(os: Os, g: Ghost, os': Os, g': Ghost, r: nat)
    requires OsInv(os, g) && OsInv(os', g') && Private(os, g, os', g', r) && r in Live(os)
    ensures Abs(os') == Abs(os)[r := SpaceOf(os'.s, r)]
  {
    forall q | q in Live(os) ensures q != r ==> SpaceOf(os'.s, q) == SpaceOf(os.s, q) {
      LiveKnown(os, g, q);
      if q != r { SpaceUnchanged(os.s, g, q, os'.s, g', q); }
    }
  }

  lemma BootKept(os: Os, g: Ghost, s': Phys, g': Ghost, r: nat, cr3: nat)
    requires OsInv(os, g) && Grown(os.s, g, s', g', r) && (cr3 == os.kernel.pml4 || cr3 in g.origin)
    ensures Booted(os.(s := s', cr3 := cr3), g')
  {
    forall f <- Static(os.kernel) ensures Load(s', f) == Load(os.s, f) && s'.used[f] && f !in g'.own {
      assert !IsTable(g, r, f);
    }
    BootedKept(os, g, s', g', cr3);
  }

  /** A change that only adds frames to space `r` keeps the kernel's books in order. */
  lemma OsKept(os: Os, g: Ghost, s': Phys, g': Ghost, r: nat)
    requires OsInv(os, g) && Inv(s', g') && Grown(os.s, g, s', g', r) && r in g.origin
    ensures OsInv(os.(s := s', cr3 := r), g')
  {
    BootKept(os, g, s', g', r, r);
  }

  lemma PrivateIf(os: Os, g: Ghost, s': Phys, g': Ghost, r: nat)
    requires Claimed(os.s, g, s', g', r) && g'.origin == g.origin && g'.kernel == g.kernel
    requires forall q, u: nat {:trigger Content(s', g', q, u)} :: q in g.origin && q != r ==> Content(s', g', q, u) == Content(os.s, g, q, u)
    ensures Private(os, g, os.(s := s', cr3 := r), g', r)
  {
  }

  /** SetupPageMap gives up only when no frame is left. */
  lemma SetupFails(s: Phys, t: nat, level: nat, a: LinearAddress, n: nat, w: bool)
    requires 1 <= level <= 4
    ensures var q := SetupPageMap(s, t, level, a, n, w); !q.ok ==> NewPageMap(q.s).frame.None?
    decreases level, 512 - a.At(level)
  {
    SetupUnfold(s, t, level, a, n, w);
    var child := SetNewPageMapIfNotPresent(s, t, a.At(level));
    if n > 0 && child.frame.Some? {
      var s1 := SetFlags(child.s, t, a.At(level), if level == 1 then w else true);
      if level == 1 {
        if a.At(level) < 511 { SetupFails(s1, t, level, a.Next(level), n - 1, w); }
      } else {
        SetupFails(s1, child.frame.value, level - 1, a, n, w);
        var sub := SetupPageMap(s1, child.frame.value, level - 1, a, n, w);
        if a.At(level) < 511 { SetupFails(sub.s, t, level, a.Next(level), sub.remain, w); }
      }
    }
  }

  lemma CopyFails(s: Phys, dst: nat, src: nat, level: nat, i: nat)
    requires 1 <= level <= 4
    ensures var q := CopyPageMaps(s, dst, src, level, i); !q.ok ==> NewPageMap(q.s).frame.None?
    decreases level, 512 - i
  {
  }

  lemma NoneIsFull(s: Phys)
    requires Sized(s)
    ensures NewPageMap(s).frame.None? ==> Full(s)
  {
    NewPageMapFacts(s);
  }

  /** Space `r` may have pages added: a template under construction, or a running program where the
      pages asked for are not shared ones. */
  ghost predicate Mappable(os: Os, g: Ghost, r: nat, a: LinearAddress, n: nat, w: bool) {
    && OsInv(os, g) && UserAddress(a)
    && if w then Running(os, r) && NoSharedPage(os.s, r, a.Vpn(), Min(a.Vpn() + n, USER_END)) else r in os.building
  }

  lemma MapAllowed(os: Os, g: Ghost, r: nat, a: LinearAddress, n: nat, w: bool)
    requires Mappable(os, g, r, a, n, w)
    ensures TableAt(os.s, g, r, 4, a, r) && Allowed(os.s, g, r, a.Vpn(), Min(a.Vpn() + n, USER_END), w)
  {
    assert r in g.origin && RootOk(g, r) && PlaceOk(os.s, g, Place(r, 4, 0));
    if w {
      forall u: nat | a.Vpn() <= u < Min(a.Vpn() + n, USER_END) && Flat(os.s, g, r, u).Some?
        ensures Flat(os.s, g, r, u).value.writeable
      {
        VpnBounds(a);
        PageAddressVpn(u);
        WalkIsFlat(os.s, g, r, PageAddress(u));
      }
    }
  }

  /** SetupPageMaps adds cleared pages to one space: all that were asked for that lie in the address
      space, unless memory ran out. */
  lemma MapStep(os: Os, g: Ghost, r: nat, a: LinearAddress, n: nat, w: bool) returns (g': Ghost, m: nat)
    requires Mappable(os, g, r, a, n, w)
    ensures
      var q := SetupPageMaps(os.s, r, a, n, w);
      var os' := os.(s := q.s, cr3 := r);
      && OsInv(os', g') && Private(os, g, os', g', r) && SpaceOf(q.s, r) == FillZero(SpaceOf(os.s, r), a.Vpn(), m)
      && a.Vpn() <= m <= Min(a.Vpn() + n, USER_END) && (q.ok <==> m == Min(a.Vpn() + n, USER_END)) && (!q.ok ==> Full(q.s))
      && SetupOk(os.s, g, q, g', m, r, 4, a, n, w)
  {
    hide SetupPageMap;
    var s := os.s;
    var q := SetupPageMaps(s, r, a, n, w);
    VpnBounds(a);
    MapAllowed(os, g, r, a, n, w);
    g', m := SetupKeeps(s, g, r, 4, a, r, n, w);
    SetupFails(s, r, 4, a, n, w);
    NoneIsFull(q.s);
    OsKept(os, g, q.s, g', r);
    SetupContent(s, g, q.s, g', r, a.Vpn(), m, w);
    SpaceFilled(s, g, r, q.s, g', a.Vpn(), m);
  }
}
