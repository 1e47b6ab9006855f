/** The Huffman tables of the JPEG reader (section C of ITU-T T.81). */
module JpegHuffman {
  import opened Wrappers
  import opened BitOrder
  import opened CanonicalCode
  import ZHuffman

  const FAST_BITS: nat := 9

  /** The code lengths, in order, of a table with `count[s - 1]` codes of length `s`. */
  function SizesTo(count: seq<nat>, n: nat): Lengths
    requires n <= |count|
  {
    if n == 0 then [] else SizesTo(count, n - 1) + seq(count[n - 1], _ => n)
  }

  lemma {:induction false} SizesSorted(count: seq<nat>, n: nat)
    requires n <= |count| && n <= 16
    ensures Sorted(SizesTo(count, n)) && forall i :: 0 <= i < |SizesTo(count, n)| ==> SizesTo(count, n)[i] <= n
    ensures forall s: nat :: s >= 1 ==> Count(SizesTo(count, n), s) == if s <= n then count[s - 1] else 0
  {
    if n > 0 {
      SizesSorted(count, n - 1);
      forall s: nat | s >= 1 ensures Count(SizesTo(count, n), s) == if s <= n then count[s - 1] else 0 {
        CountAppended(SizesTo(count, n - 1), n, count[n - 1], s);
      }
    }
  }

  lemma {:induction false} CountAppended(lens: Lengths, n: nat, c: nat, s: nat)
    ensures Count(lens + seq(c, _ => n), s) == Count(lens, s) + (if s == n then c else 0)
  {
    var all := lens + seq(c, _ => n);
    if c == 0 {
      assert all == lens;
    } else {
      assert all[..|all| - 1] == lens + seq(c - 1, _ => n);
      CountAppended(lens, n, c - 1, s);
      CountPrefix(all, all[..|all| - 1], |all| - 1, s);
    }
  }

  lemma {:induction false} CountPrefix(a: Lengths, b: Lengths, n: nat, s: nat)
    requires n <= |a| && n <= |b| && a[..n] == b[..n]
    ensures CountTo(a, n, s) == CountTo(b, n, s)
  {
    if n > 0 {
      assert a[n - 1] == a[..n][n - 1] && b[n - 1] == b[..n][n - 1];
      assert a[..n - 1] == a[..n][..n - 1] && b[..n - 1] == b[..n][..n - 1];
      CountPrefix(a, b, n - 1, s);
    }
  }

  /** The lengths admit a code. */
  predicate Admits(lens: Lengths) {
    forall s: nat {:trigger Fits(lens, s)} :: 1 <= s <= 16 ==> Fits(lens, s)
  }

  /** What a byte of the fast table says about a stream that begins with nine bits, first bit highest:
      255 if no symbol but the last possible one matches, else the symbol that does. */
  ghost predicate FastByte(lens: Lengths, n: nat, word: nat, x: nat) {
    if word == 255
    then forall i: nat {:trigger Matches(lens, Rev(9, x), i)} ::
           i < n && i < |lens| && i != 255 && lens[i] <= 9 ==> !Matches(lens, Rev(9, x), i)
    else word < 255 && word < n && word < |lens| && lens[word] <= 9 && Matches(lens, Rev(9, x), word)
  }

  ghost predicate FastTable(lens: Lengths, n: nat, fast: seq<nat>) {
    |fast| == 512 && forall x {:trigger fast[x]} :: 0 <= x < 512 ==> FastByte(lens, n, fast[x], x)
  }

  ghost predicate CodeTables(lens: Lengths, n: nat, maxcode: seq<nat>, delta: seq<int>) {
    && |maxcode| == 18 && |delta| == 17 && n <= 17
    && (forall j: nat {:trigger maxcode[j]} :: 1 <= j < n ==> maxcode[j] == MaxCode(lens, j))
    && (forall j: nat {:trigger delta[j]} :: 1 <= j < n ==> delta[j] == FirstSymbol(lens, j) - FirstCode(lens, j))
  }

  /** Entry `x` belongs to the `s`-bit code `c` exactly when it lies in the code's row of entries. */
  lemma InRow(s: nat, c: nat, x: nat)
    requires 1 <= s <= 9 && c < Pow2(s) && x < 512
    ensures Rev(s, Rev(9, x)) == c <==> c * Pow2(9 - s) <= x < c * Pow2(9 - s) + Pow2(9 - s)
    ensures c * Pow2(9 - s) + Pow2(9 - s) <= 512
  {
    ZHuffman.FastSize();
    RevTwice(9, x);
    SmallMod(x, 512);
    RevPrefix(9, s, Rev(9, x));
    Interval(x, Pow2(9 - s), c);
    Pow2Sum(s, 9 - s);
    Rows(c, Pow2(s), Pow2(9 - s));
  }

  lemma Rows(c: nat, n: nat, p: nat)
    requires c < n
    ensures (c + 1) * p == c * p + p <= n * p
  {
  }

  /** How stbi__build_huffman ends: by writing outside its lists, with an error, or with tables. */
  datatype Answer = Overrun | BadLengths | Finished

  class Huffman {
    const fast: array<nat>
    const code: array<nat>
    const values: array<byte>
    const size: array<nat>
    const maxcode: array<nat>
    const delta: array<int>

    ghost predicate Valid() {
      && fast.Length == 512 && code.Length == 256 && values.Length == 256 && size.Length == 257
      && maxcode.Length == 18 && delta.Length == 17
      && fast != code && fast != size && fast != maxcode && code != size && code != maxcode && size != maxcode
    }

    ghost predicate Sizes(lens: Lengths)
      reads size
      requires Valid()
    {
      |lens| <= 256 && (forall i :: 0 <= i < |lens| ==> size[i] == lens[i]) && size[|lens|] == 0
    }

    /** The tables decode the canonical code of `lens`. */
    ghost predicate Decodes(lens: Lengths)
      reads fast, size, maxcode, delta
    {
      && Valid() && Sorted(lens) && Admits(lens) && Sizes(lens)
      && FastTable(lens, |lens|, fast[..]) && CodeTables(lens, 17, maxcode[..], delta[..]) && maxcode[17] == 0xffff_ffff
    }

    constructor ()
      ensures Valid() && fresh(fast) && fresh(code) && fresh(values) && fresh(size) && fresh(maxcode) && fresh(delta)
    {
      fast := new nat[512](_ => 0);
      code := new nat[256](_ => 0);
      values := new byte[256](_ => 0);
      size := new nat[257](_ => 0);
      maxcode := new nat[18](_ => 0);
      delta := new int[17](_ => 0);
    }

    /** The size list. The marker code passes any sixteen bytes as counts; the answer is false where the next
        store would lie outside the list. */
    method FillSizes(count: seq<nat>) returns (inside: bool)
      requires Valid() && |count| == 16
      modifies size
      ensures inside <==> |SizesTo(count, 16)| <= 256
      ensures inside ==> Sizes(SizesTo(count, 16))
    {
      var k := 0;
      for i := 0 to 16
        invariant k == |SizesTo(count, i)| <= 257 && size[..k] == SizesTo(count, i)
      {
        Shorter(count, i + 1, 16);
        ghost var k0 := k;
        for j := 0 to count[i]
          invariant k == k0 + j <= 257 && size[..k] == SizesTo(count, i) + seq(j, _ => i + 1)
        {
          if k == size.Length {
            return false;
          }
          size[k] := i + 1;
          k := k + 1;
        }
      }
      if k == size.Length {
        return false;
      }
      size[k] := 0;
      inside := true;
    }

    /** First codes, differences and bounds of each length; false when the lengths fit no code. */
    method FillCodes(ghost lens: Lengths) returns (ok: bool, k: nat)
      requires Valid() && Sorted(lens) && Sizes(lens)
      modifies code, maxcode, delta
      ensures ok <==> Admits(lens)
      ensures ok ==> CodeTables(lens, 17, maxcode[..], delta[..]) && maxcode[17] == 0xffff_ffff
      ensures ok ==> k == |lens| && forall i :: 0 <= i < |lens| ==> code[i] == Code(lens, i)
    {
      hide Pow2, Count, CountTo, Fits, MaxCode, FirstCode, FirstSymbol, Code, Sorted;
      ZHuffman.FirstStart(lens);
      SortedFirst(lens, 1);
      var c := 0;
      k := 0;
      for j := 1 to 17
        invariant c == FirstCode(lens, j) && k == FirstSymbol(lens, j) <= |lens|
        invariant forall s: nat :: 1 <= s < j ==> Fits(lens, s)
        invariant CodeTables(lens, j, maxcode[..], delta[..])
        invariant forall i :: 0 <= i < k ==> code[i] == Code(lens, i)
        modifies code, maxcode, delta
      {
        delta[j] := k - c;
        ZHuffman.NextStart(lens, j);
        LengthHolds(lens, j);
        ZHuffman.LengthFits(lens, j);
        if size[k] == j {
          c, k := NumberCodes(lens, j, c, k);
          if c - 1 >= Pow2(j) {
            return false, k;
          }
        }
        maxcode[j] := c * Pow2(16 - j);
        c := c * 2;
      }
      SortedFirst(lens, 17);
      AllBounded(lens);
      maxcode[17] := 0xffff_ffff;
      ok := true;
    }

    /** The codes of length `j`, one after the other. */
    method NumberCodes(ghost lens: Lengths, j: nat, c0: nat, k0: nat) returns (c: nat, k: nat)
      requires Valid() && Sorted(lens) && Sizes(lens) && 1 <= j <= 16
      requires c0 == FirstCode(lens, j) && k0 == FirstSymbol(lens, j) <= |lens| && size[k0] == j
      modifies code
      ensures c == FirstCode(lens, j) + Count(lens, j) && k == FirstSymbol(lens, j + 1) <= |lens| && k > k0
      ensures forall i :: 0 <= i < k0 ==> code[i] == old(code[i])
      ensures forall i :: k0 <= i < k ==> code[i] == Code(lens, i)
    {
      hide FirstCode, Count, FirstSymbol, Code, Sorted;
      ZHuffman.NextStart(lens, j);
      LengthHolds(lens, j);
      c, k := c0, k0;
      while size[k] == j
        invariant k0 <= k <= FirstSymbol(lens, j + 1) && c == c0 + k - k0
        invariant forall i :: 0 <= i < k0 ==> code[i] == old(code[i])
        invariant forall i :: k0 <= i < k ==> code[i] == Code(lens, i)
        decreases FirstSymbol(lens, j + 1) - k
      {
        SortedPosition(lens, k);
        code[k] := c;
        k := k + 1;
        c := c + 1;
      }
    }

    /** The acceleration table. */
    method FillFast(ghost lens: Lengths, k: nat)
      requires Valid() && Sorted(lens) && Sizes(lens) && Admits(lens) && k == |lens|
      requires forall i :: 0 <= i < |lens| ==> code[i] == Code(lens, i)
      modifies fast
      ensures FastTable(lens, |lens|, fast[..])
    {
      hide Sorted, Admits, Code, Count, CountTo;
      forall x | 0 <= x < 512 { fast[x] := 255; }
      NoBytes(lens, fast[..]);
      for i := 0 to k
        invariant FastTable(lens, i, fast[..])
      {
        var s := size[i];
        ghost var before := fast[..];
        if s <= FAST_BITS {
          SymbolBound(lens, i);
          InRow(s, code[i], 0);
          var c, m := code[i] * Pow2(FAST_BITS - s), Pow2(FAST_BITS - s);
          for j := 0 to m
            invariant forall x :: 0 <= x < 512 ==> fast[x] == if c <= x < c + j then i else before[x]
          {
            fast[c + j] := i;
          }
        }
        AddByte(lens, i, before, fast[..]);
      }
    }

    /** stbi__build_huffman. */
    method Build(count: seq<nat>) returns (r: Answer)
      requires Valid() && |count| == 16
      modifies fast, code, size, maxcode, delta
      ensures r == Overrun <==> |SizesTo(count, 16)| > 256
      ensures r == Finished <==> |SizesTo(count, 16)| <= 256 && Admits(SizesTo(count, 16))
      ensures r == Finished ==> Decodes(SizesTo(count, 16))
    {
      ghost var lens := SizesTo(count, 16);
      SizesSorted(count, 16);
      var inside := FillSizes(count);
      if !inside {
        return Overrun;
      }
      var ok, k := FillCodes(lens);
      if !ok {
        return BadLengths;
      }
      FillFast(lens, k);
      return Finished;
    }
  }

  lemma {:induction false} Shorter(count: seq<nat>, n: nat, m: nat)
    requires n <= m <= |count|
    ensures |SizesTo(count, n)| <= |SizesTo(count, m)|
  {
    if n < m { Shorter(count, n, m - 1); }
  }

  /** Symbols of length `s` are those from FirstSymbol(s) to FirstSymbol(s + 1). */
  lemma LengthHolds(lens: Lengths, s: nat)
    requires Sorted(lens) && s >= 1
    ensures FirstSymbol(lens, s) <= FirstSymbol(lens, s + 1) <= |lens|
    ensures forall i :: 0 <= i < |lens| ==> (lens[i] == s <==> FirstSymbol(lens, s) <= i < FirstSymbol(lens, s + 1))
    ensures FirstSymbol(lens, s + 1) == FirstSymbol(lens, s) + Count(lens, s)
  {
    SortedFirst(lens, s);
    SortedFirst(lens, s + 1);
  }

  lemma AllBounded(lens: Lengths)
    requires Sorted(lens)
    ensures Bounded(lens) && FirstSymbol(lens, 17) == |lens|
  {
    SortedFirst(lens, 17);
  }

  lemma NoBytes(lens: Lengths, fast: seq<nat>)
    requires |fast| == 512 && forall x :: 0 <= x < 512 ==> fast[x] == 255
    ensures FastTable(lens, 0, fast)
  {
    forall x | 0 <= x < 512 ensures FastByte(lens, 0, fast[x], x) {}
  }

  lemma SymbolBound(lens: Lengths, i: nat)
    requires Sorted(lens) && Admits(lens) && i < |lens|
    ensures 1 <= lens[i] <= 16 && Code(lens, i) < Pow2(lens[i])
  {
    forall t: nat | 1 <= t <= lens[i] ensures Fits(lens, t) {}
    FirstCodeBound(lens, lens[i]);
    CountGrows(lens, i, |lens|, lens[i]);
  }

  lemma AddByte(lens: Lengths, i: nat, before: seq<nat>, after: seq<nat>)
    requires Sorted(lens) && Admits(lens) && i < |lens| <= 256 && FastTable(lens, i, before) && |after| == 512
    requires var c, m := Code(lens, i) * Pow2(if lens[i] <= 9 then 9 - lens[i] else 0), Pow2(if lens[i] <= 9 then 9 - lens[i] else 0);
      forall x :: 0 <= x < 512 ==> after[x] == if lens[i] <= 9 && c <= x < c + m then i else before[x]
    ensures FastTable(lens, i + 1, after)
  {
    hide Code, Pow2, Rev;
    SymbolBound(lens, i);
    forall x | 0 <= x < 512 ensures FastByte(lens, i + 1, after[x], x) {
      assert FastByte(lens, i, before[x], x);
      if lens[i] <= 9 {
        InRow(lens[i], Code(lens, i), x);
        if i == 255 && Matches(lens, Rev(9, x), i) {
          forall j: nat | j != 255 && Matches(lens, Rev(9, x), j) ensures false { MatchUnique(lens, Rev(9, x), i, j); }
        }
      }
    }
  }

  /** Counts of two successive lengths only. */
  predicate TwoSizes(count: seq<nat>, n: nat, a: nat, b: nat) {
    |count| == 16 && 1 <= n <= 15 && forall i :: 0 <= i < 16 ==> count[i] == if i == n - 1 then a else if i == n then b else 0
  }

  lemma {:induction false} TwoSizesList(count: seq<nat>, m: nat, n: nat, a: nat, b: nat)
    requires TwoSizes(count, n, a, b) && m <= 16
    ensures |SizesTo(count, m)| == (if n <= m then a else 0) + (if n + 1 <= m then b else 0)
    ensures forall i :: 0 <= i < |SizesTo(count, m)| ==> SizesTo(count, m)[i] == if i < a then n else n + 1
  {
    if m > 0 { TwoSizesList(count, m - 1, n, a, b); }
  }

  lemma {:induction false} TwoFirst(lens: Lengths, count: seq<nat>, s: nat, n: nat, a: nat, b: nat)
    requires TwoSizes(count, n, a, b) && lens == SizesTo(count, 16) && s <= n + 1
    ensures FirstCode(lens, s) == if s == n + 1 then 2 * a else 0
  {
    SizesSorted(count, 16);
    if s > 1 { TwoFirst(lens, count, s - 1, n, a, b); }
  }

  /** Such counts admit a code if both numbers of codes fit. */
  lemma TwoAdmit(count: seq<nat>, n: nat, a: nat, b: nat)
    requires TwoSizes(count, n, a, b) && a <= Pow2(n) && 2 * a + b <= Pow2(n + 1)
    ensures Admits(SizesTo(count, 16))
  {
    hide FirstCode;
    var lens := SizesTo(count, 16);
    SizesSorted(count, 16);
    TwoFirst(lens, count, n, n, a, b);
    TwoFirst(lens, count, n + 1, n, a, b);
  }

  function TwoCounts(n: nat, a: nat, b: nat): (r: seq<nat>)
    requires 1 <= n <= 15
    ensures TwoSizes(r, n, a, b)
  {
    seq(16, i => if i == n - 1 then a else if i == n then b else 0)
  }

  /** Bytes that count 510 codes, which admit a code: nothing but their number is wrong. */
  lemma ManySymbols() returns (count: seq<nat>)
    ensures |count| == 16 && (forall i :: 0 <= i < 16 ==> count[i] < 256)
    ensures |SizesTo(count, 16)| == 510 && Admits(SizesTo(count, 16))
  {
    count := TwoCounts(15, 255, 255);
    TwoSizesList(count, 16, 15, 255, 255);
    ZHuffman.FastSize();
    Pow2Monotone(9, 15);
    Pow2Monotone(10, 16);
    TwoAdmit(count, 15, 255, 255);
  }
}
