/** The first-fit bitmap allocator of memory_manager.cpp. */
module FrameAllocator {
  import opened Wrappers
  import opened FrameSearch

  /** The word `1 << k`. */
  function OneHot(k: nat): bv64
  {
    if k == 0 then 1 else OneHot(k - 1) << 1
  }

  lemma Shifts(x: bv64)
    ensures (x << 1) << 1 == x << 2 && (x << 2) << 2 == x << 4 && (x << 4) << 4 == x << 8
  {
  }

  lemma One(k: nat, x: bv64)
    requires OneHot(k) == x
    ensures OneHot(k + 1) == x << 1
  {
  }

  lemma Two(k: nat, x: bv64)
    requires OneHot(k) == x
    ensures OneHot(k + 2) == x << 2
  {
    hide OneHot;
    One(k, x);
    One(k + 1, x << 1);
    Shifts(x);
  }

  lemma Four(k: nat, x: bv64)
    requires OneHot(k) == x
    ensures OneHot(k + 4) == x << 4
  {
    hide OneHot;
    Two(k, x);
    Two(k + 2, x << 2);
    Shifts(x);
  }

  lemma Eight(k: nat, x: bv64)
    requires OneHot(k) == x
    ensures OneHot(k + 8) == x << 8
  {
    hide OneHot;
    Four(k, x);
    Four(k + 4, x << 4);
    Shifts(x);
  }

  /** No bit is shifted out before the 64th. */
  lemma TopBit()
    ensures OneHot(63) == 0x8000_0000_0000_0000
  {
    assert OneHot(0) == 1;
    hide OneHot;
    Eight(0, 1);
    Eight(8, 1 << 8);
    Eight(16, 1 << 16);
    Eight(24, 1 << 24);
    Eight(32, 1 << 32);
    Eight(40, 1 << 40);
    Eight(48, 1 << 48);
    Four(56, 1 << 56);
    Two(60, 1 << 60);
    One(62, 1 << 62);
  }

  lemma {:induction false} OneHotNonzero(k: nat)
    requires k < 64
    ensures OneHot(k) != 0
    decreases 64 - k
  {
    if k < 63 {
      OneHotNonzero(k + 1);
    } else {
      TopBit();
    }
  }

  lemma {:induction false} OneHotDisjoint(j: nat, k: nat)
    requires j < k < 64
    ensures Disjoint(OneHot(j), OneHot(k))
  {
    hide And;
    if j == 0 {
      ShiftedEven(OneHot(k - 1));
    } else {
      OneHotDisjoint(j - 1, k - 1);
      ShiftedDisjoint(OneHot(j - 1), OneHot(k - 1));
    }
  }

  lemma ShiftedEven(x: bv64)
    ensures And(1, x << 1) == 0
  {
  }

  lemma ShiftedDisjoint(x: bv64, y: bv64)
    requires And(x, y) == 0
    ensures And(x << 1, y << 1) == 0
  {
  }

  function And(a: bv64, b: bv64): bv64 { a & b }

  predicate Disjoint(a: bv64, b: bv64) { And(a, b) == 0 }

  predicate Masked(w: bv64, mask: bv64) { And(w, mask) != 0 }

  function Masking(w: bv64, mask: bv64, value: bool): bv64 {
    if value then w | mask else w & !mask
  }

  predicate Bit(w: bv64, k: nat) {
    Masked(w, OneHot(k))
  }

  function WithBit(w: bv64, k: nat, value: bool): bv64 {
    Masking(w, OneHot(k), value)
  }

  lemma Absorb(w: bv64, a: bv64)
    ensures (w | a) & a == a && (w & !a) & a == 0
  {
  }

  lemma OtherMask(w: bv64, a: bv64, b: bv64, value: bool)
    requires Disjoint(a, b)
    ensures Masked(Masking(w, a, value), b) == Masked(w, b)
  {
    hide And;
    if value {
      SetApart(w, a, b);
    } else {
      ClearApart(w, a, b);
    }
  }

  lemma SetApart(w: bv64, a: bv64, b: bv64)
    requires And(a, b) == 0
    ensures And(w | a, b) == And(w, b)
  {
  }

  lemma ClearApart(w: bv64, a: bv64, b: bv64)
    requires And(a, b) == 0
    ensures And(w & !a, b) == And(w, b)
  {
  }

  lemma SameMask(w: bv64, a: bv64, value: bool)
    requires a != 0
    ensures Masked(Masking(w, a, value), a) == value
  {
    Absorb(w, a);
  }

  lemma Commute(a: bv64, b: bv64)
    ensures Disjoint(a, b) == Disjoint(b, a)
  {
  }

  /** Setting one bit of a map line changes that bit and no other. */
  lemma BitAfter(w: bv64, k: nat, value: bool, j: nat)
    requires k < 64 && j < 64
    ensures Bit(WithBit(w, k, value), j) == if j == k then value else Bit(w, j)
  {
    hide OneHot, Masked, Masking, Disjoint;
    if j < k {
      OneHotDisjoint(j, k);
      Commute(OneHot(j), OneHot(k));
      OtherMask(w, OneHot(k), OneHot(j), value);
    } else if k < j {
      OneHotDisjoint(k, j);
      OtherMask(w, OneHot(k), OneHot(j), value);
    } else {
      OneHotNonzero(k);
      SameMask(w, OneHot(k), value);
    }
  }

  /** The allocation bits of a bitmap, one per frame. */
  function Bits(lines: seq<bv64>): (r: seq<bool>)
    ensures |r| == |lines| * 64
    ensures forall k :: 0 <= k < |r| ==> r[k] == Bit(lines[k / 64], k % 64)
  {
    seq(|lines| * 64, k requires 0 <= k < |lines| * 64 => Bit(lines[k / 64], k % 64))
  }

  lemma BitsAfter(lines: seq<bv64>, frame: nat, value: bool)
    requires frame < |lines| * 64
    ensures Bits(lines[frame / 64 := WithBit(lines[frame / 64], frame % 64, value)]) == Bits(lines)[frame := value]
  {
    var after := lines[frame / 64 := WithBit(lines[frame / 64], frame % 64, value)];
    forall k | 0 <= k < |lines| * 64 ensures Bits(after)[k] == Bits(lines)[frame := value][k] {
      if k / 64 == frame / 64 {
        BitAfter(lines[frame / 64], frame % 64, value, k % 64);
      }
    }
  }

  /** The lowest free run is the one that FirstFit finds. */
  lemma LowestIsFirstFit(used: seq<bool>, lo: nat, hi: nat, n: nat, start: nat)
    requires lo <= start && FreeRun(used, start, n, hi)
    requires forall k :: lo <= k < start ==> !FreeRun(used, k, n, hi)
    ensures FirstFit(used, lo, hi, n) == Some(start)
  {
  }

  class BitmapMemoryManager {
    const alloc_map: array<bv64>
    var range_begin: nat
    var range_end: nat

    ghost predicate Valid()
      reads this
    {
      alloc_map.Length == FRAME_COUNT / 64 && range_begin <= FRAME_COUNT && range_end <= FRAME_COUNT
    }

    ghost function Used(): (r: seq<bool>)
      reads this, alloc_map
      requires Valid()
      ensures |r| == FRAME_COUNT
    {
      Bits(alloc_map[..])
    }

    constructor ()
      ensures Valid() && fresh(alloc_map) && range_begin == 0 && range_end == FRAME_COUNT
      ensures forall k :: 0 <= k < FRAME_COUNT ==> !Used()[k]
    {
      alloc_map := new bv64[FRAME_COUNT / 64](_ => 0);
      range_begin, range_end := 0, FRAME_COUNT;
    }

    function GetBit(frame: nat): (r: bool)
      requires Valid() && frame < FRAME_COUNT
      reads this, alloc_map
      ensures r == Used()[frame]
    {
      Bit(alloc_map[frame / 64], frame % 64)
    }

    method SetBit(frame: nat, taken: bool)
      requires Valid() && frame < FRAME_COUNT
      modifies alloc_map
      ensures Used() == old(Used())[frame := taken]
    {
      BitsAfter(alloc_map[..], frame, taken);
      ghost var lines := alloc_map[..];
      alloc_map[frame / 64] := WithBit(alloc_map[frame / 64], frame % 64, taken);
      assert alloc_map[..] == lines[frame / 64 := WithBit(lines[frame / 64], frame % 64, taken)];
    }

    method MarkAllocated(start: nat, num_frames: nat)
      requires Valid() && start + num_frames <= FRAME_COUNT
      modifies alloc_map
      ensures Used() == Mark(old(Used()), start, num_frames, true)
    {
      ghost var before := Used();
      for i := 0 to num_frames
        invariant Used() == Mark(before, start, i, true)
      {
        SetBit(start + i, true);
      }
    }

    method Free(start: nat, num_frames: nat)
      requires Valid() && start + num_frames <= FRAME_COUNT
      modifies alloc_map
      ensures Used() == Mark(old(Used()), start, num_frames, false)
    {
      ghost var before := Used();
      for i := 0 to num_frames
        invariant Used() == Mark(before, start, i, false)
      {
        SetBit(start + i, false);
      }
    }

    method SetMemoryRange(first: nat, last: nat)
      requires Valid() && first <= FRAME_COUNT && last <= FRAME_COUNT
      modifies this`range_begin, this`range_end
      ensures Valid() && range_begin == first && range_end == last && Used() == old(Used())
    {
      range_begin, range_end := first, last;
    }

    /** The lowest free run of `num_frames` frames inside the range, now marked; `None`, and nothing
        marked, exactly when there is no such run. */
    method Allocate(num_frames: nat) returns (r: Option<nat>)
      requires Valid()
      modifies alloc_map
      ensures r == FirstFit(old(Used()), range_begin, range_end, num_frames)
      ensures Used() == if r.Some? then Mark(old(Used()), r.value, num_frames, true) else old(Used())
    {
      ghost var used := Used();
      var start_frame_id := range_begin;
      while true
        invariant range_begin <= start_frame_id && (start_frame_id <= range_end || start_frame_id == range_begin)
        invariant Used() == used
        invariant forall k :: range_begin <= k < start_frame_id ==> !FreeRun(used, k, num_frames, range_end)
        decreases range_end - start_frame_id
      {
        var i := 0;
        while i < num_frames
          invariant 0 <= i <= num_frames
          invariant i > 0 ==> start_frame_id + i <= range_end
          invariant forall k :: start_frame_id <= k < start_frame_id + i ==> !used[k]
        {
          if start_frame_id + i >= range_end {
            forall k | start_frame_id <= k ensures !FreeRun(used, k, num_frames, range_end) {}
            return None;
          }
          if GetBit(start_frame_id + i) {
            break;
          }
          i := i + 1;
        }
        if i == num_frames {
          LowestIsFirstFit(used, range_begin, range_end, num_frames, start_frame_id);
          MarkAllocated(start_frame_id, num_frames);
          return Some(start_frame_id);
        }
        start_frame_id := start_frame_id + i + 1;
      }
    }
  }
}
