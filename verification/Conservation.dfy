/** What a program's life costs: the frames that its exit does not give back. */
module Conservation {
  import opened Wrappers
  import opened FrameSearch
  import opened PhysicalMemory
  import opened PageTables
  import opened Ownership
  import opened Mapping
  import opened Sharing
  import opened Reclaim
  import opened Faults
  import opened Lifecycle
  import opened IdentityMap
  import opened Spaces
  import opened Refinement
  import opened Programs
  import opened Runs

  ghost predicate Held(g: Ghost, r: nat, f: nat) {
    f in g.own && g.own[f].root == r
  }

  /** Beyond the frames `u0` in use before its launch, only those that `r` holds are in use. */
  ghost predicate LifeOf(u0: seq<bool>, os: Os, g: Ghost, r: nat) {
    && |os.s.used| == |u0|
    && (forall f :: 0 <= f < |u0| ==> (os.s.used[f] <==> u0[f] || Held(g, r, f)))
    && (forall f :: 0 <= f < |u0| && u0[f] ==> !Held(g, r, f))
  }

  /** What a running program does to its own memory. A store to the first 2 MiB is none of it: it costs a frame. */
  predicate OwnEvent(ev: Event, r: nat) {
    match ev
    case MapPages(q, _, _) => q == r
    case SetDemand(q, _) => q == r
    case Read(q, _) => q == r
    case Write(q, a, _, _) => q == r && !Lowest(a)
    case _ => false
  }

  lemma LifeGrows(u0: seq<bool>, os: Os, g: Ghost, os': Os, g': Ghost, r: nat)
    requires LifeOf(u0, os, g, r) && Claimed(os.s, g, os'.s, g', r) && Inv(os.s, g)
    ensures LifeOf(u0, os', g', r)
  {
    forall f | 0 <= f < |u0| ensures os'.s.used[f] <==> u0[f] || Held(g', r, f) {
      OwnedFrameUsed(os.s, g, f);
    }
  }

  lemma NoClaim(s: Phys, g: Ghost, s': Phys, r: nat)
    requires Inv(s, g) && s'.used == s.used
    ensures Claimed(s, g, s', g, r)
  {
    forall f | 0 <= f < |s.used| ensures s'.used[f] <==> s.used[f] || f in g.own { OwnedFrameUsed(s, g, f); }
  }

  lemma OwnStep(u0: seq<bool>, os: Os, g: Ghost, r: nat, ev: Event) returns (g': Ghost)
    requires OsInv(os, g) && Running(os, r) && OwnEvent(ev, r) && Guarded(os, ev) && LifeOf(u0, os, g, r)
    ensures OsInv(Step(os, ev), g') && LifeOf(u0, Step(os, ev), g', r) && Running(Step(os, ev), r)
  {
    hide Inv, LifeOf, Access, SetupPageMaps, SpaceOf, Permits, Walk, FillZero;
    g' := g;
    RunningKnown(os, g, r);
    match ev {
      case MapPages(_, a, n) =>
        if UserAddress(a) {
          var m: nat;
          g', m := MapStep(os, g, r, a, n, true);
          LifeGrows(u0, os, g, Step(os, ev), g', r);
        }
      case SetDemand(_, d) =>
        var h := SetDemandEvent(os, g, r, d);
        NoClaim(os.s, g, os.s, r);
        LifeGrows(u0, os, g, Step(os, ev), g, r);
      case Read(_, a) =>
        g' := AccessStep(os, g, r, a, false);
        LifeGrows(u0, os, g, Step(os, ev), g', r);
      case Write(_, a, off, word) =>
        g' := AccessStep(os, g, r, a, true);
        var o := Access(os.s, r, os.apps[r].demand, a, true);
        var os1 := os.(s := o.s, cr3 := r);
        LifeGrows(u0, os, g, os1, g', r);
        if o.ok {
          PermitsIsFlat(o.s, g', r, a, true);
          SpaceAt(os1, g', r, a);
          WritePage(os1, g', r, a, off, word);
          LifeGrows(u0, os1, g', Step(os, ev), g', r);
        }
    }
  }

  lemma OwnRun(u0: seq<bool>, os: Os, g: Ghost, r: nat, evs: seq<Event>) returns (g': Ghost)
    requires OsInv(os, g) && Running(os, r) && GuardedRun(os, evs) && LifeOf(u0, os, g, r)
    requires forall k :: 0 <= k < |evs| ==> OwnEvent(evs[k], r)
    ensures OsInv(Run(os, evs), g') && LifeOf(u0, Run(os, evs), g', r) && Running(Run(os, evs), r)
    decreases |evs|
  {
    hide OsInv, Step, Guarded, LifeOf, Running;
    if evs == [] {
      g' := g;
    } else {
      var g1 := OwnStep(u0, os, g, r, evs[0]);
      g' := OwnRun(u0, Step(os, evs[0]), g1, r, evs[1..]);
    }
  }

  lemma LaunchLife(os: Os, g: Ghost, t: nat) returns (g': Ghost)
    requires OsInv(os, g) && t in os.templates && SetupPML4(os.s, os.cr3).frame.Some?
    ensures var f := SetupPML4(os.s, os.cr3).frame.value;
      OsInv(Step(os, Launch(t)), g') && LifeOf(os.s.used, Step(os, Launch(t)), g', f)
  {
    hide SetupPML4, CopyPageMaps, SpaceOf, Identity, KernelHalf, Flat, Content;
    CurrentTable(os, g);
    var n := SetupPML4(os.s, os.cr3);
    var f := n.frame.value;
    var g0 := NewSpace(os.s, g, os.cr3, Some(t));
    var g1 := NewSpaceStep(os, g, Some(t));
    g' := LaunchCopy(os, g, n.s, g1, f, t);
    var os1 := os.(s := n.s, cr3 := f);
    RootUnknownFrames(os, g, g1, f, t);
    assert LifeOf(os.s.used, os1, g1, f);
    LifeGrows(os.s.used, os1, g1, Step(os, Launch(t)), g', f);
    hide LifeOf, Inv, Claimed, OthersKept, Born;
  }

  lemma RootUnknownFrames(os: Os, g: Ghost, g1: Ghost, f: nat, t: nat)
    requires OsInv(os, g) && f < |os.s.used| && !os.s.used[f] && g1 == WithRoot(g, f, t)
    ensures forall x :: Held(g1, f, x) <==> x == f
  {
    RootUnknown(os.s, g, f);
    forall x | x in g.own ensures g.own[x].root != f {
      assert OwnerOk(g, x);
    }
  }

  /** Something that `r` holds lies outside slot 256 exactly when another user slot is in use. */
  lemma SlotsInUse(s: Phys, g: Ghost, r: nat)
    requires Inv(s, g) && g.detached.None? && r in g.origin
    ensures (forall f: nat :: Held(g, r, f) && f != r ==> InSlot(g.own[f], r, 256)) <==>
            (forall j: Index :: j > 256 ==> !Get(s, r, j).present)
  {
    var top := Place(r, 4, 0);
    assert RootOk(g, r) && PlaceOk(s, g, top);
    forall f: nat | Held(g, r, f) && f != r ensures exists j: Index :: j >= 256 && HeldInSlot(s, g, r, f, j) {
      var p := g.own[f];
      assert OwnerOk(g, f) && PlaceOk(s, g, p);
      Ancestor(s, g, p, 3 - p.level);
      var c := Place(r, 3, Lift(p.prefix, 3 - p.level));
      assert PlaceOk(s, g, c);
      assert EntryOk(s, g, top, c.prefix);
      assert HeldInSlot(s, g, r, f, c.prefix);
    }
    forall j: Index | j > 256 && Get(s, r, j).present ensures exists f: nat :: Held(g, r, f) && f != r && !InSlot(g.own[f], r, 256) {
      var c := Place(r, 3, j);
      assert EntryOk(s, g, top, j);
      assert PlaceOk(s, g, c);
      assert Lift(j, 0) == j;
      assert Held(g, r, g.tab[c]) && !InSlot(g.own[g.tab[c]], r, 256);
    }
  }

  ghost predicate HeldInSlot(s: Phys, g: Ghost, r: nat, f: nat, j: Index) {
    f in g.own && Get(s, r, j).present && (InSlot(g.own[f], r, 256) <==> j == 256)
  }

  /** From launch to exit, a program that minds its own memory leaves the allocator as it found it
      exactly when, on exit, slot 256 is the only user slot of its top table in use. */
  lemma ProgramConserves(os: Os, g: Ghost, t: nat, evs: seq<Event>)
    requires OsInv(os, g) && t in os.templates && SetupPML4(os.s, os.cr3).frame.Some?
    requires
      var r := SetupPML4(os.s, os.cr3).frame.value;
      var os1 := Step(os, Launch(t));
      && Running(os1, r) && GuardedRun(os1, evs) && (forall k :: 0 <= k < |evs| ==> OwnEvent(evs[k], r))
      && Guarded(Run(os1, evs), Exit(r))
    ensures
      var r := SetupPML4(os.s, os.cr3).frame.value;
      var os2 := Run(Step(os, Launch(t)), evs);
      Step(os2, Exit(r)).s.used == os.s.used <==> (forall j: Index :: j > 256 ==> !Get(os2.s, r, j).present)
  {
    hide SetupPML4;
    var r := SetupPML4(os.s, os.cr3).frame.value;
    var os1 := Step(os, Launch(t));
    var g1 := LaunchLife(os, g, t);
    var g2 := OwnRun(os.s.used, os1, g1, r, evs);
    ExitCost(os.s.used, Run(os1, evs), g2, r);
  }

  lemma ExitCost(u0: seq<bool>, os: Os, g: Ghost, r: nat)
    requires OsInv(os, g) && Running(os, r) && Guarded(os, Exit(r)) && LifeOf(u0, os, g, r)
    ensures Step(os, Exit(r)).s.used == u0 <==> (forall j: Index :: j > 256 ==> !Get(os.s, r, j).present)
  {
    hide Inv, CleanPageMaps;
    RunningKnown(os, g, r);
    var g1 := ExitStep(os, g, r);
    SlotsInUse(os.s, g, r);
    RootUsed(os.s, g, r);
    var u' := Step(os, Exit(r)).s.used;
    assert |u'| == |u0|;
    forall f | 0 <= f < |u0|
      ensures u'[f] == u0[f] <==> !(Held(g, r, f) && f != r && !InSlot(g.own[f], r, 256))
    {
    }
    if forall f: nat :: Held(g, r, f) && f != r ==> InSlot(g.own[f], r, 256) {
      assert u' == u0;
    } else {
      var f: nat :| Held(g, r, f) && f != r && !InSlot(g.own[f], r, 256);
      HeldFrame(os.s, g, r, f);
      assert u'[f] != u0[f];
    }
  }

  lemma HeldFrame(s: Phys, g: Ghost, r: nat, f: nat)
    requires Inv(s, g) && Held(g, r, f)
    ensures f < |s.used|
  {
    assert OwnerOk(g, f) && PlaceOk(s, g, g.own[f]);
  }
}
