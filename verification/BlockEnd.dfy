/** When a compressed block ends: exactly which inputs the decoder never finishes. */
module BlockEnd {
  import opened Wrappers
  import opened BitOrder
  import opened CanonicalCode
  import opened Lz77
  import Words

  /** A capacity doubled until it reaches `need`. */
  function Doubled(limit: nat, need: nat): (r: nat)
    requires limit > 0
    ensures r >= need && r >= limit
    ensures need > limit ==> r < 2 * need
    decreases need - limit
  {
    if need > limit then Doubled(2 * limit, need) else limit
  }

  lemma {:induction false} DoubledTwice(limit: nat, m: nat, n: nat)
    requires limit > 0 && m <= n
    ensures Doubled(Doubled(limit, m), n) == Doubled(limit, n) && Doubled(limit, m) <= Doubled(limit, n)
    decreases m - limit
  {
    if m > limit { DoubledTwice(2 * limit, m, n); }
  }

  /** The output buffer: how large it is, whether it may grow, and the largest block that the heap has. */
  datatype Room = Room(capacity: nat, expandable: bool, heap: nat)

  /** The buffer can be made to hold `need` bytes. */
  predicate Holds(m: Room, need: nat) {
    need <= m.capacity || (m.capacity > 0 && m.expandable && Doubled(m.capacity, need) <= m.heap)
  }

  function Most(m: Room): nat { if m.heap > m.capacity then m.heap else m.capacity }

  lemma HoldsLess(m: Room, a: nat, b: nat)
    requires a <= b && Holds(m, b)
    ensures Holds(m, a) && b <= Most(m)
  {
    if a > m.capacity { DoubledTwice(m.capacity, a, b); }
  }

  /** The tokens that follow each other in the stream, each copy within the output, all of it with room. */
  predicate Goes(ll: Lengths, dl: Lengths, bits: nat, size: nat, m: Room, ts: seq<Token>) {
    StartsAll(ll, dl, bits, ts) && AllInWindow(size, ts) && Holds(m, size + Size(ts))
  }

  /** Where only zero bits are left the stream begins with a copy of no bytes: the code of zeros is one of the
      two length codes without a meaning, and a distance code of zeros does not reach too far. */
  ghost predicate EmptyAtZero(ll: Lengths, dl: Lengths, size: nat) {
    (Matches(ll, 0, 286) || Matches(ll, 0, 287)) && exists d: nat :: Matches(dl, 0, d) && DistBase(d) <= size
  }

  /** The block goes on until the input is used up, and then for ever. */
  ghost predicate Endless(ll: Lengths, dl: Lengths, bits: nat, size: nat, m: Room) {
    exists ts: seq<Token> :: Goes(ll, dl, bits, size, m, ts) && AfterAll(ll, dl, bits, ts) == 0 && EmptyAtZero(ll, dl, size + Size(ts))
  }

  /** The block has a run of `n` tokens. */
  ghost predicate GoesOn(ll: Lengths, dl: Lengths, bits: nat, size: nat, m: Room, n: nat) {
    exists ts: seq<Token> :: |ts| == n && Goes(ll, dl, bits, size, m, ts)
  }

  lemma ZeroBits(n: nat)
    ensures Drop(0, n) == 0 && Low(0, n) == 0
  {
    SmallMod(0, Pow2(n));
    assert 0 / Pow2(n) == 0 by { QuotientIs(0, Pow2(n), 0, 0); }
  }

  lemma DropHalves(x: nat, n: nat)
    ensures Drop(x, n) <= x && (n > 0 ==> 2 * Drop(x, n) <= x)
  {
    var u, r := Words.Euclid(x, Pow2(n));
    if n > 0 {
      assert Pow2(n) == 2 * Pow2(n - 1);
      Half(u, Pow2(n - 1), x, r);
    } else {
      assert Pow2(0) == 1;
    }
  }

  lemma Half(u: nat, p: nat, x: nat, r: nat)
    requires p > 0 && x == u * (2 * p) + r
    ensures 2 * u <= x && u <= x
  {
    assert u * (2 * p) == 2 * (u * p);
    assert u * p >= u by { assert u * (p - 1) >= 0; }
  }

  /** A token takes at least one bit. */
  lemma AfterHalves(ll: Lengths, dl: Lengths, bits: nat, t: Token)
    requires Starts(ll, dl, bits, t)
    ensures 2 * After(ll, dl, bits, t) <= bits
  {
    hide Drop, Low, Pow2, LengthExtra, DistExtra, Rev, Code;
    if t.Literal? {
      DropHalves(bits, ll[t.value]);
    } else {
      var b1 := AfterSymbol(ll, bits, 257 + t.lengthCode);
      var b2 := Drop(b1, LengthExtra(t.lengthCode));
      var b3 := AfterSymbol(dl, b2, t.distCode);
      DropHalves(bits, ll[257 + t.lengthCode]);
      DropHalves(b1, LengthExtra(t.lengthCode));
      DropHalves(b2, dl[t.distCode]);
      DropHalves(b3, DistExtra(t.distCode));
    }
  }

  lemma {:induction false} AfterAllBound(ll: Lengths, dl: Lengths, bits: nat, ts: seq<Token>)
    requires StartsAll(ll, dl, bits, ts)
    ensures AfterAll(ll, dl, bits, ts) * Pow2(|ts|) <= bits
  {
    hide Starts, After;
    if ts != [] {
      var n := |ts| - 1;
      AfterAllBound(ll, dl, bits, ts[..n]);
      var b, c := AfterAll(ll, dl, bits, ts[..n]), AfterAll(ll, dl, bits, ts);
      AfterHalves(ll, dl, b, ts[n]);
      Doubling(b, c, Pow2(n));
      assert Pow2(|ts|) == 2 * Pow2(n);
    } else {
      assert Pow2(0) == 1;
    }
  }

  lemma Doubling(b: nat, c: nat, p: nat)
    requires 2 * c <= b
    ensures c * (2 * p) <= b * p
  {
    assert (b - 2 * c) * p >= 0;
    assert c * (2 * p) == (2 * c) * p && b * p == (b - 2 * c) * p + (2 * c) * p;
  }

  /** After as many tokens as there are bits only zeros are left. */
  lemma UsedUp(ll: Lengths, dl: Lengths, bits: nat, ts: seq<Token>, n: nat)
    requires StartsAll(ll, dl, bits, ts) && bits < Pow2(n) && |ts| >= n
    ensures AfterAll(ll, dl, bits, ts) == 0
  {
    hide *;
    AfterAllBound(ll, dl, bits, ts);
    Pow2Monotone(n, |ts|);
    AtLeastOnce(AfterAll(ll, dl, bits, ts), Pow2(|ts|));
  }

  lemma AtLeastOnce(c: nat, p: nat)
    ensures c > 0 ==> c * p >= p
  {
  }

  lemma {:induction false} PrefixGoes(ll: Lengths, dl: Lengths, bits: nat, size: nat, m: Room, ts: seq<Token>, k: nat)
    requires Goes(ll, dl, bits, size, m, ts) && k <= |ts|
    ensures Goes(ll, dl, bits, size, m, ts[..k]) && Size(ts[..k]) <= Size(ts)
    ensures k < |ts| ==> Starts(ll, dl, AfterAll(ll, dl, bits, ts[..k]), ts[k]) && InWindow(size + Size(ts[..k]), ts[k])
    ensures k < |ts| ==> Holds(m, size + Size(ts[..k]) + Length(ts[k]))
    decreases |ts|
  {
    hide Starts, After, InWindow, Length, Holds;
    if k == |ts| {
      assert ts[..k] == ts;
    } else {
      var n := |ts| - 1;
      HoldsLess(m, size + Size(ts[..n]), size + Size(ts));
      if k == n {
        assert size + Size(ts[..k]) + Length(ts[k]) == size + Size(ts);
      } else {
        PrefixGoes(ll, dl, bits, size, m, ts[..n], k);
        assert ts[..n][..k] == ts[..k] && ts[..n][k] == ts[k];
      }
    }
  }

  /** A copy of no bytes where only zeros are left. */
  lemma EmptyToken(ll: Lengths, dl: Lengths, size: nat) returns (t: Token)
    requires EmptyAtZero(ll, dl, size)
    ensures Starts(ll, dl, 0, t) && Length(t) == 0 && InWindow(size, t) && After(ll, dl, 0, t) == 0
  {
    hide Rev, Code, Low, Drop, Pow2;
    var d: nat :| Matches(dl, 0, d) && DistBase(d) <= size;
    var c := if Matches(ll, 0, 286) then 29 else 30;
    t := Copy(c, 0, d, 0);
    forall n ensures Drop(0, n) == 0 && Low(0, n) == 0 { ZeroBits(n); }
  }

  /** Conversely such a copy is what the condition says. */
  lemma EmptyIs(ll: Lengths, dl: Lengths, size: nat, t: Token)
    requires |ll| <= 288 && Starts(ll, dl, 0, t) && Length(t) == 0 && InWindow(size, t)
    ensures EmptyAtZero(ll, dl, size)
  {
    hide Rev, Code, Low, Drop, Pow2, LengthExtra, DistExtra, LengthBase, DistBase;
    forall n ensures Drop(0, n) == 0 && Low(0, n) == 0 { ZeroBits(n); }
    if t.lengthCode < 29 { LengthRange(t.lengthCode); }
    assert Matches(dl, 0, t.distCode) && DistBase(t.distCode) <= size;
  }

  lemma OneMore(ll: Lengths, dl: Lengths, bits: nat, size: nat, m: Room, ts: seq<Token>, t: Token)
    requires Goes(ll, dl, bits, size, m, ts) && Starts(ll, dl, AfterAll(ll, dl, bits, ts), t)
    requires InWindow(size + Size(ts), t) && Holds(m, size + Size(ts) + Length(t))
    ensures Goes(ll, dl, bits, size, m, ts + [t]) && Size(ts + [t]) == Size(ts) + Length(t)
    ensures AfterAll(ll, dl, bits, ts + [t]) == After(ll, dl, AfterAll(ll, dl, bits, ts), t)
  {
    hide Starts, After, InWindow, Length, Holds;
    assert (ts + [t])[..|ts|] == ts;
  }

  /** Empty copies can follow each other for ever. */
  lemma {:induction false} EmptyForEver(ll: Lengths, dl: Lengths, bits: nat, size: nat, m: Room, ts: seq<Token>,
                                        k: nat) returns (us: seq<Token>)
    requires Goes(ll, dl, bits, size, m, ts) && AfterAll(ll, dl, bits, ts) == 0 && EmptyAtZero(ll, dl, size + Size(ts))
    ensures |us| == |ts| + k && Goes(ll, dl, bits, size, m, us) && AfterAll(ll, dl, bits, us) == 0 && Size(us) == Size(ts)
  {
    hide Goes, EmptyAtZero, Starts, After, InWindow, Length;
    us := ts;
    if k > 0 {
      us := EmptyForEver(ll, dl, bits, size, m, ts, k - 1);
      var t := EmptyToken(ll, dl, size + Size(us));
      GoesHolds(ll, dl, bits, size, m, us);
      OneMore(ll, dl, bits, size, m, us, t);
      us := us + [t];
    }
  }

  lemma GoesHolds(ll: Lengths, dl: Lengths, bits: nat, size: nat, m: Room, ts: seq<Token>)
    requires Goes(ll, dl, bits, size, m, ts)
    ensures Holds(m, size + Size(ts)) && size + Size(ts) <= Most(m) && StartsAll(ll, dl, bits, ts)
  {
    HoldsLess(m, size + Size(ts), size + Size(ts));
  }

  /** Tokens from the `k`th on, none of them empty, make the output grow by one each. */
  lemma {:induction false} Growing(ts: seq<Token>, k: nat)
    requires k <= |ts| && forall i :: k <= i < |ts| ==> Length(ts[i]) > 0
    ensures Size(ts) >= Size(ts[..k]) + |ts| - k
  {
    hide Length;
    if k == |ts| {
      assert ts[..k] == ts;
    } else {
      var n := |ts| - 1;
      Growing(ts[..n], k);
      assert ts[..n][..k] == ts[..k];
    }
  }

  /** A run of more tokens than there are bits and bytes of room has an empty copy after its last bit. */
  lemma LongRun(ll: Lengths, dl: Lengths, bits: nat, size: nat, m: Room, ts: seq<Token>, n: nat)
    requires |ll| <= 288 && Goes(ll, dl, bits, size, m, ts) && bits < Pow2(n) && |ts| > n + Most(m)
    ensures Endless(ll, dl, bits, size, m)
  {
    hide Goes, EmptyAtZero, Starts, After, InWindow, Length;
    GoesHolds(ll, dl, bits, size, m, ts);
    if forall i :: n <= i < |ts| ==> Length(ts[i]) > 0 {
      Growing(ts, n);
    } else {
      var i :| n <= i < |ts| && Length(ts[i]) == 0;
      PrefixGoes(ll, dl, bits, size, m, ts, i);
      GoesHolds(ll, dl, bits, size, m, ts[..i]);
      UsedUp(ll, dl, bits, ts[..i], n);
      EmptyIs(ll, dl, size + Size(ts[..i]), ts[i]);
    }
  }

  lemma {:induction false} BitsBound(bits: nat) returns (n: nat)
    ensures bits < Pow2(n)
  {
    n := 0;
    if bits > 0 {
      n := BitsBound(bits - 1);
      n := n + 1;
    }
  }

  /** The decoder goes on for ever exactly on the blocks that reach the end of the input and find a copy of
      no bytes there. */
  lemma EndlessIff(ll: Lengths, dl: Lengths, bits: nat, size: nat, m: Room)
    requires |ll| <= 288
    ensures (forall n: nat :: GoesOn(ll, dl, bits, size, m, n)) <==> Endless(ll, dl, bits, size, m)
  {
    hide Goes, EmptyAtZero;
    if Endless(ll, dl, bits, size, m) {
      var ts: seq<Token> :| Goes(ll, dl, bits, size, m, ts) && AfterAll(ll, dl, bits, ts) == 0 && EmptyAtZero(ll, dl, size + Size(ts));
      forall n: nat ensures GoesOn(ll, dl, bits, size, m, n) {
        var us := EmptyForEver(ll, dl, bits, size, m, ts, n);
        PrefixGoes(ll, dl, bits, size, m, us, n);
        assert |us[..n]| == n;
      }
    }
    if forall n: nat :: GoesOn(ll, dl, bits, size, m, n) {
      var k := BitsBound(bits);
      assert GoesOn(ll, dl, bits, size, m, k + Most(m) + 1);
      var ts: seq<Token> :| |ts| == k + Most(m) + 1 && Goes(ll, dl, bits, size, m, ts);
      LongRun(ll, dl, bits, size, m, ts, k);
    }
  }

  /** Every block that uses two tables ends, whatever the input and the output before it, if and only if the
      codes of zeros do not describe a copy of no bytes. */
  lemma TablesEndIff(ll: Lengths, dl: Lengths)
    ensures (forall bits: nat, size: nat, m: Room :: !Endless(ll, dl, bits, size, m)) <==>
            !((Matches(ll, 0, 286) || Matches(ll, 0, 287)) && exists d: nat :: Matches(dl, 0, d))
  {
    hide Matches, DistBase;
    if (Matches(ll, 0, 286) || Matches(ll, 0, 287)) && exists d: nat :: Matches(dl, 0, d) {
      var d: nat :| Matches(dl, 0, d);
      var size := DistBase(d);
      assert EmptyAtZero(ll, dl, size + Size([]));
      assert Goes(ll, dl, 0, size, Room(size, false, 0), []);
      assert Endless(ll, dl, 0, size, Room(size, false, 0));
    }
  }

  /** Tokens whose codes the format defines keep the output growing, whatever the tables. */
  lemma {:induction false} Grows(ts: seq<Token>)
    requires forall t <- ts :: Defined(t)
    ensures Size(ts) >= |ts|
  {
    hide LengthBase;
    if ts != [] {
      var t := ts[|ts| - 1];
      assert t in ts;
      if t.Copy? { LengthRange(t.lengthCode); }
      Grows(ts[..|ts| - 1]);
    }
  }

  /** A run after which no token can follow is the whole block, which therefore ends. */
  lemma Ends(ll: Lengths, dl: Lengths, bits: nat, size: nat, m: Room, ts: seq<Token>)
    requires Proper(ll) && Proper(dl) && Goes(ll, dl, bits, size, m, ts)
    requires forall t: Token :: Starts(ll, dl, AfterAll(ll, dl, bits, ts), t) ==>
      !(InWindow(size + Size(ts), t) && Holds(m, size + Size(ts) + Length(t)))
    ensures !Endless(ll, dl, bits, size, m)
  {
    hide Goes, EmptyAtZero, Starts, InWindow, Length, Holds, Endless, Proper;
    if Endless(ll, dl, bits, size, m) {
      assert |ll| <= 288 by { ProperSize(ll); }
      EndlessIff(ll, dl, bits, size, m);
      var n := |ts| + 1;
      assert GoesOn(ll, dl, bits, size, m, n);
      var us: seq<Token> :| |us| == n && Goes(ll, dl, bits, size, m, us);
      GoesHolds(ll, dl, bits, size, m, ts);
      GoesHolds(ll, dl, bits, size, m, us);
      TokensUnique(ll, dl, bits, ts, us);
      assert us[..|ts|] == ts;
      PrefixGoes(ll, dl, bits, size, m, us, |ts|);
    }
  }

  lemma ProperSize(lens: Lengths)
    requires Proper(lens)
    ensures |lens| <= 288
  {
  }

  /** What room for a token means once the buffer has grown to hold `size` bytes. */
  lemma RoomLeft(m: Room, size: nat, need: nat)
    requires m.capacity > 0 && Holds(m, size) && size <= need
    ensures Holds(m, need) <==> Holds(Room(Doubled(m.capacity, size), m.expandable, m.heap), need)
    ensures Doubled(Doubled(m.capacity, size), need) == Doubled(m.capacity, need)
  {
    DoubledTwice(m.capacity, size, need);
  }

  /** The code lengths of the fixed table, stbi__zdefault_length. */
  function FixedLengths(): Lengths { seq(288, i => if i < 144 then 8 else if i < 256 then 9 else if i < 280 then 7 else 8) }

  lemma {:induction false} ReverseZero(n: nat)
    ensures Rev(n, 0) == 0
  {
    if n > 0 { ReverseZero(n - 1); }
  }

  /** Zeros spell the end of a block that uses the fixed tables: it ends on every input, although the tables
      give codes to the symbols without a meaning. */
  lemma FixedEnds(dl: Lengths, bits: nat, size: nat, m: Room)
    ensures FixedLengths()[286] > 0 && FixedLengths()[287] > 0 && Matches(FixedLengths(), 0, 256)
    ensures !Endless(FixedLengths(), dl, bits, size, m)
  {
    hide Endless;
    var ll := FixedLengths();
    FirstCodeZero(ll, 7);
    NoneOf(ll, 256, 7);
    ReverseZero(7);
    assert Code(ll, 256) == 0;
    forall i | Matches(ll, 0, i) ensures i == 256 { MatchUnique(ll, 0, i, 256); }
    TablesEndIff(ll, dl);
  }
}
