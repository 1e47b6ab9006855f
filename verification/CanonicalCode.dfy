/** The canonical prefix code that a list of code lengths stands for (section 3.2.2 of RFC 1951). */
module CanonicalCode {
  import opened BitOrder

  type Lengths = seq<nat>

  predicate Bounded(lens: Lengths) {
    forall i :: 0 <= i < |lens| ==> lens[i] <= 16
  }

  /** Lengths of DEFLATE codes: at most 15 bits, at most 288 symbols. */
  predicate Proper(lens: Lengths) {
    |lens| <= 288 && forall i :: 0 <= i < |lens| ==> lens[i] <= 15
  }

  /** How many of the first `n` symbols have codes of length `s`. */
  function CountTo(lens: Lengths, n: nat, s: nat): nat
    requires n <= |lens|
  {
    if n == 0 then 0 else CountTo(lens, n - 1, s) + (if lens[n - 1] == s then 1 else 0)
  }

  function Count(lens: Lengths, s: nat): nat {
    CountTo(lens, |lens|, s)
  }

  /** The smallest code of length `s`. */
  function FirstCode(lens: Lengths, s: nat): nat {
    if s <= 1 then 0 else 2 * (FirstCode(lens, s - 1) + Count(lens, s - 1))
  }

  /** The number of symbols with codes shorter than `s`. */
  function FirstSymbol(lens: Lengths, s: nat): nat {
    if s <= 1 then 0 else FirstSymbol(lens, s - 1) + Count(lens, s - 1)
  }

  /** The code of symbol `i`: codes of one length are consecutive, in symbol order. */
  function Code(lens: Lengths, i: nat): nat
    requires i < |lens|
  {
    FirstCode(lens, lens[i]) + CountTo(lens, i, lens[i])
  }

  /** Where symbol `i` stands when symbols are sorted by their codes. */
  function Position(lens: Lengths, i: nat): nat
    requires i < |lens|
  {
    FirstSymbol(lens, lens[i]) + CountTo(lens, i, lens[i])
  }

  /** The lengths admit a code: no length has more codes than fit. */
  predicate Fits(lens: Lengths, s: nat) {
    Count(lens, s) > 0 ==> FirstCode(lens, s) + Count(lens, s) <= Pow2(s)
  }

  predicate Accepted(lens: Lengths) {
    forall s: nat {:trigger Fits(lens, s)} :: 1 <= s <= 15 ==> Count(lens, s) <= Pow2(s) && Fits(lens, s)
  }

  /** The end of the codes of length up to `s`, left-aligned in 16 bits. */
  function MaxCode(lens: Lengths, s: nat): nat
    requires s <= 16
  {
    if s == 0 then 0 else (FirstCode(lens, s) + Count(lens, s)) * Pow2(16 - s)
  }

  /** The stream whose next bits, read from the low end, are `bits` begins with the code of `i`. */
  predicate Matches(lens: Lengths, bits: nat, i: nat) {
    i < |lens| && lens[i] > 0 && Rev(lens[i], bits) == Code(lens, i)
  }

  lemma {:induction false} CountGrows(lens: Lengths, i: nat, n: nat, s: nat)
    requires i <= n <= |lens|
    ensures CountTo(lens, i, s) <= CountTo(lens, n, s)
    ensures i < n && lens[i] == s ==> CountTo(lens, i, s) < CountTo(lens, n, s)
  {
    if i < n { CountGrows(lens, i, n - 1, s); }
  }

  /** Symbols of one length have different ranks. */
  lemma RanksDiffer(lens: Lengths, i: nat, j: nat)
    requires i < |lens| && j < |lens| && i != j && lens[i] == lens[j]
    ensures CountTo(lens, i, lens[i]) != CountTo(lens, j, lens[j])
  {
    if i < j { CountGrows(lens, i, j, lens[i]); } else { CountGrows(lens, j, i, lens[i]); }
  }

  /** Every rank below the count is some symbol's. */
  lemma {:induction false} RankTaken(lens: Lengths, n: nat, s: nat, rank: nat) returns (i: nat)
    requires n <= |lens| && rank < CountTo(lens, n, s)
    ensures i < n && lens[i] == s && CountTo(lens, i, s) == rank
  {
    if lens[n - 1] == s && CountTo(lens, n - 1, s) == rank {
      i := n - 1;
    } else {
      i := RankTaken(lens, n - 1, s, rank);
    }
  }

  /** Symbol `j` comes next after symbol `i` in the order of lengths, and of symbols within a length. */
  ghost predicate NextSymbol(lens: Lengths, i: nat, j: nat)
    requires i < |lens| && j < |lens|
  {
    && 0 < lens[i] <= lens[j] && (lens[i] == lens[j] ==> i < j)
    && (forall k :: i < k < |lens| && lens[k] == lens[i] ==> lens[i] == lens[j] && k >= j)
    && (forall k :: 0 <= k < j && lens[k] == lens[j] ==> lens[i] == lens[j] && k <= i)
    && (forall k :: 0 <= k < |lens| ==> !(lens[i] < lens[k] < lens[j]))
  }

  /** The rules of section 3.2.2 of RFC 1951: the first of the shortest codes is zero, codes of one length are
      consecutive, in the order of their symbols, and the first longer one follows the last shorter one. */
  lemma CanonicalRules(lens: Lengths, i: nat, j: nat)
    requires i < |lens| && j < |lens|
    ensures lens[i] > 0 && (forall k :: 0 <= k < |lens| && lens[k] > 0 ==> lens[k] > lens[i] || (lens[k] == lens[i] && k >= i)) ==>
      Code(lens, i) == 0
    ensures NextSymbol(lens, i, j) ==> Code(lens, j) == (Code(lens, i) + 1) * Pow2(lens[j] - lens[i])
  {
    if lens[i] > 0 && forall k :: 0 <= k < |lens| && lens[k] > 0 ==> lens[k] > lens[i] || (lens[k] == lens[i] && k >= i) {
      NoneOf(lens, i, lens[i]);
      FirstCodeZero(lens, lens[i]);
    }
    if NextSymbol(lens, i, j) {
      assert Pow2(0) == 1;
      if lens[i] == lens[j] {
        CountOne(lens, i, j);
      } else {
        CountOne(lens, i, |lens|);
        NoneOf(lens, j, lens[j]);
        FirstCodeNext(lens, lens[i], lens[j]);
      }
    }
  }

  lemma {:induction false} NoneOf(lens: Lengths, n: nat, s: nat)
    requires n <= |lens| && forall i :: 0 <= i < n ==> lens[i] != s
    ensures CountTo(lens, n, s) == 0
  {
    if n > 0 { NoneOf(lens, n - 1, s); }
  }

  lemma {:induction false} CountOne(lens: Lengths, i: nat, j: nat)
    requires i < j <= |lens| && forall k :: i < k < j ==> lens[k] != lens[i]
    ensures CountTo(lens, j, lens[i]) == CountTo(lens, i, lens[i]) + 1
  {
    if i + 1 < j { CountOne(lens, i, j - 1); }
  }

  lemma {:induction false} FirstCodeZero(lens: Lengths, s: nat)
    requires forall k :: 0 <= k < |lens| && lens[k] > 0 ==> lens[k] >= s
    ensures FirstCode(lens, s) == 0
  {
    if s > 1 {
      NoneOf(lens, |lens|, s - 1);
      FirstCodeZero(lens, s - 1);
    }
  }

  /** Where there are no lengths in between the longer codes start behind the shorter ones. */
  lemma {:induction false} FirstCodeNext(lens: Lengths, s: nat, t: nat)
    requires 1 <= s < t && forall k :: 0 <= k < |lens| ==> !(s < lens[k] < t)
    ensures FirstCode(lens, t) == (FirstCode(lens, s) + Count(lens, s)) * Pow2(t - s)
    decreases t
  {
    var c := FirstCode(lens, s) + Count(lens, s);
    if s + 1 < t {
      FirstCodeNext(lens, s, t - 1);
      NoneOf(lens, |lens|, t - 1);
      TwiceTimes(c, Pow2(t - 1 - s));
    } else {
      assert Pow2(1) == 2 * Pow2(0) && Pow2(0) == 1;
    }
  }

  lemma TwiceTimes(c: nat, p: nat)
    ensures 2 * (c * p) == c * (2 * p)
  {
  }

  lemma {:induction false} FirstCodeBound(lens: Lengths, s: nat)
    requires s >= 1 && forall t: nat :: 1 <= t <= s ==> Fits(lens, t)
    ensures FirstCode(lens, s) + Count(lens, s) <= Pow2(s)
  {
    assert Fits(lens, s);
    if s > 1 { FirstCodeBound(lens, s - 1); }
  }

  /** The codes of length `s`, left-aligned, start where the shorter ones end. */
  lemma Aligned(lens: Lengths, s: nat)
    requires 1 <= s <= 16
    ensures FirstCode(lens, s) * Pow2(16 - s) == MaxCode(lens, s - 1)
  {
    if s > 1 {
      var c := FirstCode(lens, s - 1) + Count(lens, s - 1);
      assert Pow2(16 - (s - 1)) == 2 * Pow2(16 - s);
      Regroup(c, 2, Pow2(16 - s));
    }
  }

  lemma {:induction false} MaxCodeGrows(lens: Lengths, s: nat, t: nat)
    requires s <= t <= 16
    ensures MaxCode(lens, s) <= MaxCode(lens, t)
  {
    if s < t {
      MaxCodeGrows(lens, s, t - 1);
      Aligned(lens, t);
      assert FirstCode(lens, t) * Pow2(16 - t) <= (FirstCode(lens, t) + Count(lens, t)) * Pow2(16 - t);
    }
  }

  /** A 16-bit window of the stream, most significant bit first. */
  function Window(bits: nat): nat { Rev(16, bits) }

  lemma Interval(k: nat, p: nat, c: nat)
    requires p > 0
    ensures k / p == c <==> c * p <= k < (c + 1) * p
    ensures k / p < c <==> k < c * p
  {
    var q := k / p;
    assert k == q * p + k % p;
    assert q < c ==> (q + 1) * p <= c * p;
    assert q > c ==> (c + 1) * p <= q * p;
    assert (q + 1) * p == q * p + p && (c + 1) * p == c * p + p;
  }

  /** Codes of length `s` occupy exactly the windows between the two bounds. */
  lemma WindowOfLength(lens: Lengths, bits: nat, s: nat)
    requires 1 <= s <= 16
    ensures FirstCode(lens, s) <= Rev(s, bits) <==> MaxCode(lens, s - 1) <= Window(bits)
    ensures Rev(s, bits) < FirstCode(lens, s) + Count(lens, s) <==> Window(bits) < MaxCode(lens, s)
  {
    RevPrefix(16, s, bits);
    Aligned(lens, s);
    Interval(Window(bits), Pow2(16 - s), FirstCode(lens, s));
    Interval(Window(bits), Pow2(16 - s), FirstCode(lens, s) + Count(lens, s));
  }

  /** A matching symbol's length is the one whose window interval holds the stream. */
  lemma MatchWindow(lens: Lengths, bits: nat, i: nat)
    requires Bounded(lens) && Matches(lens, bits, i)
    ensures MaxCode(lens, lens[i] - 1) <= Window(bits) < MaxCode(lens, lens[i])
  {
    WindowOfLength(lens, bits, lens[i]);
    CountGrows(lens, i, |lens|, lens[i]);
  }

  /** The code is prefix-free: no stream begins with the codes of two symbols. */
  lemma MatchUnique(lens: Lengths, bits: nat, i: nat, j: nat)
    requires Bounded(lens) && Matches(lens, bits, i) && Matches(lens, bits, j)
    ensures i == j
  {
    MatchWindow(lens, bits, i);
    MatchWindow(lens, bits, j);
    if lens[i] < lens[j] { MaxCodeGrows(lens, lens[i], lens[j] - 1); }
    if lens[j] < lens[i] { MaxCodeGrows(lens, lens[j], lens[i] - 1); }
    if i != j && lens[i] == lens[j] { RanksDiffer(lens, i, j); }
  }

  /** A window inside the interval of length `s` begins with the code of a symbol of that length,
      the one whose rank is the distance from the first code. */
  lemma MatchExists(lens: Lengths, bits: nat, s: nat) returns (i: nat)
    requires 1 <= s <= 16 && MaxCode(lens, s - 1) <= Window(bits) < MaxCode(lens, s)
    ensures Matches(lens, bits, i) && lens[i] == s
    ensures Rev(s, bits) >= FirstCode(lens, s) && Position(lens, i) == Rev(s, bits) - FirstCode(lens, s) + FirstSymbol(lens, s)
  {
    WindowOfLength(lens, bits, s);
    i := RankTaken(lens, |lens|, s, Rev(s, bits) - FirstCode(lens, s));
  }

  /** The length whose interval holds a window that lies below all of them. */
  lemma {:induction false} LengthOf(lens: Lengths, bits: nat, t: nat) returns (s: nat)
    requires t <= 16 && Window(bits) < MaxCode(lens, t)
    ensures 1 <= s <= t && MaxCode(lens, s - 1) <= Window(bits) < MaxCode(lens, s)
  {
    if Window(bits) < MaxCode(lens, t - 1) {
      s := LengthOf(lens, bits, t - 1);
    } else {
      s := t;
    }
  }

  /** Some code begins the stream exactly when its window lies below the last interval's end. */
  lemma SomeMatch(lens: Lengths, bits: nat, t: nat)
    requires Bounded(lens) && t <= 16
    ensures Window(bits) < MaxCode(lens, t) <==> exists i: nat :: Matches(lens, bits, i) && lens[i] <= t
  {
    if Window(bits) < MaxCode(lens, t) {
      var s := LengthOf(lens, bits, t);
      var i := MatchExists(lens, bits, s);
    }
    forall i: nat | Matches(lens, bits, i) && lens[i] <= t ensures Window(bits) < MaxCode(lens, t) {
      MatchWindow(lens, bits, i);
      MaxCodeGrows(lens, lens[i], t);
    }
  }

  /** Positions are distinct, and below the number of symbols. */
  lemma PositionsDiffer(lens: Lengths, i: nat, j: nat)
    requires i < |lens| && j < |lens| && i != j && lens[i] > 0 && lens[j] > 0
    ensures Position(lens, i) != Position(lens, j)
  {
    if lens[i] == lens[j] {
      RanksDiffer(lens, i, j);
    } else if lens[i] < lens[j] {
      PositionsOrdered(lens, i, lens[j]);
    } else {
      PositionsOrdered(lens, j, lens[i]);
    }
  }

  lemma PositionsOrdered(lens: Lengths, i: nat, t: nat)
    requires i < |lens| && 0 < lens[i] < t
    ensures Position(lens, i) < FirstSymbol(lens, t)
  {
    CountGrows(lens, i, |lens|, lens[i]);
    FirstSymbolGrows(lens, lens[i] + 1, t);
  }

  lemma {:induction false} FirstSymbolGrows(lens: Lengths, s: nat, t: nat)
    requires s <= t
    ensures FirstSymbol(lens, s) <= FirstSymbol(lens, t)
  {
    if s < t { FirstSymbolGrows(lens, s, t - 1); }
  }

  /** Symbols with a code length below `s`, among the first `n`. */
  function CountBelow(lens: Lengths, n: nat, s: nat): nat
    requires n <= |lens|
  {
    if s <= 1 then 0 else CountBelow(lens, n, s - 1) + CountTo(lens, n, s - 1)
  }

  lemma {:induction false} CountBelowStep(lens: Lengths, n: nat, s: nat)
    requires n < |lens|
    ensures CountBelow(lens, n + 1, s) == CountBelow(lens, n, s) + (if 1 <= lens[n] < s then 1 else 0)
  {
    if s > 1 { CountBelowStep(lens, n, s - 1); }
  }

  lemma {:induction false} CountBelowBound(lens: Lengths, n: nat, s: nat)
    requires n <= |lens|
    ensures CountBelow(lens, n, s) <= n
  {
    if n == 0 {
      NoneBelow(lens, s);
    } else {
      CountBelowBound(lens, n - 1, s);
      CountBelowStep(lens, n - 1, s);
    }
  }

  lemma {:induction false} NoneBelow(lens: Lengths, s: nat)
    ensures CountBelow(lens, 0, s) == 0
  {
    if s > 1 { NoneBelow(lens, s - 1); }
  }

  lemma {:induction false} FirstSymbolIsBelow(lens: Lengths, s: nat)
    ensures FirstSymbol(lens, s) == CountBelow(lens, |lens|, s)
  {
    if s > 1 { FirstSymbolIsBelow(lens, s - 1); }
  }

  lemma PositionBound(lens: Lengths, i: nat)
    requires i < |lens| && lens[i] > 0
    ensures Position(lens, i) < |lens|
  {
    CountGrows(lens, i, |lens|, lens[i]);
    FirstSymbolIsBelow(lens, lens[i] + 1);
    CountBelowBound(lens, |lens|, lens[i] + 1);
  }

  /** Symbols listed in the order of their lengths, as JPEG lists them. */
  predicate Sorted(lens: Lengths) {
    (forall i :: 0 <= i < |lens| ==> 1 <= lens[i] <= 16) && forall i, j :: 0 <= i < j < |lens| ==> lens[i] <= lens[j]
  }

  lemma {:induction false} SortedBelow(lens: Lengths, n: nat, s: nat)
    requires Sorted(lens) && n <= |lens|
    ensures CountBelow(lens, n, s) <= n && forall i :: 0 <= i < n ==> (lens[i] < s <==> i < CountBelow(lens, n, s))
    ensures CountBelow(lens, n, s) < n ==> lens[CountBelow(lens, n, s)] >= s
  {
    if n == 0 {
      NoneBelow(lens, s);
    } else {
      SortedBelow(lens, n - 1, s);
      CountBelowStep(lens, n - 1, s);
    }
  }

  /** In a sorted list the symbols shorter than `s` are the first FirstSymbol(s) ones. */
  lemma SortedFirst(lens: Lengths, s: nat)
    requires Sorted(lens)
    ensures FirstSymbol(lens, s) <= |lens| && forall i :: 0 <= i < |lens| ==> (lens[i] < s <==> i < FirstSymbol(lens, s))
  {
    FirstSymbolIsBelow(lens, s);
    SortedBelow(lens, |lens|, s);
  }

  /** Each symbol of a sorted list is its own position. */
  lemma SortedPosition(lens: Lengths, i: nat)
    requires Sorted(lens) && i < |lens|
    ensures Position(lens, i) == i && Code(lens, i) == FirstCode(lens, lens[i]) + i - FirstSymbol(lens, lens[i])
  {
    var s := lens[i];
    SortedFirst(lens, s);
    SortedBelow(lens, i, s);
    SortedBelow(lens, i, s + 1);
    assert CountBelow(lens, i, s + 1) == CountBelow(lens, i, s) + CountTo(lens, i, s);
    AllBelow(lens, i, s);
  }

  lemma AllBelow(lens: Lengths, i: nat, s: nat)
    requires Sorted(lens) && i < |lens| && lens[i] == s
    ensures CountBelow(lens, i, s + 1) == i && CountBelow(lens, i, s) == FirstSymbol(lens, s)
  {
    SortedBelow(lens, i, s + 1);
    SortedBelow(lens, i, s);
    SortedBelow(lens, |lens|, s);
    FirstSymbolIsBelow(lens, s);
  }
}
