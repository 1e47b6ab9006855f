/** What `BitmapMemoryManager::Allocate` looks for, stated on the sequence of
    allocation bits: the lowest start of a free run inside the managed range. */
module FrameSearch {
  import opened Wrappers

  /** 128 GiB of 4 KiB frames. */
  const FRAME_COUNT: nat := 0x200_0000

  /** `start` begins a run of `n` free frames that ends at or before `hi`. */
  predicate FreeRun(used: seq<bool>, start: nat, n: nat, hi: nat) {
    && (n > 0 ==> start + n <= hi && start + n <= |used|)
    && forall k :: start <= k < start + n && k < |used| ==> !used[k]
  }

  /** The lowest free run at or above `start`, if there is one. */
  function FirstFit(used: seq<bool>, start: nat, hi: nat, n: nat): (r: Option<nat>)
    ensures r.Some? ==> start <= r.value && FreeRun(used, r.value, n, hi)
    ensures r.Some? ==> forall k :: start <= k < r.value ==> !FreeRun(used, k, n, hi)
    ensures r.None? ==> forall k :: start <= k ==> !FreeRun(used, k, n, hi)
    decreases hi - start
  {
    if FreeRun(used, start, n, hi) then Some(start)
    else if start >= hi then None
    else FirstFit(used, start + 1, hi, n)
  }

  /** The allocation bits after `n` frames from `start` have been set to `value`. */
  function Mark(used: seq<bool>, start: nat, n: nat, value: bool): (r: seq<bool>)
    ensures |r| == |used|
    ensures forall k :: 0 <= k < |used| ==> r[k] == if start <= k < start + n then value else used[k]
  {
    seq(|used|, k requires 0 <= k < |used| => if start <= k < start + n then value else used[k])
  }
}
