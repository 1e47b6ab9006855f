/** The DEFLATE Huffman tables of stb_image.h and the decoder that uses them. */
module ZHuffman {
  import opened BitOrder
  import opened CanonicalCode

  /** Codes of up to this many bits are found by one table lookup. */
  const ZFAST_BITS: nat := 9

  lemma FastSize()
    ensures Pow2(9) == 512 && Pow2(16) == 0x1_0000 && Pow2(15) == 0x8000
  {
    assert Pow2(4) == 16;
    Pow2Sum(4, 4);
    Pow2Sum(8, 8);
    Pow2Sum(8, 1);
  }

  /** What a fast-table word says about the streams that begin with the nine bits `x`: zero if none
      of the first `n` symbols with a short code matches, else the symbol that does and its length. */
  ghost predicate FastWord(lens: Lengths, n: nat, word: nat, x: nat) {
    if word == 0 then forall i: nat {:trigger Matches(lens, x, i)} :: i < n && i < |lens| && lens[i] <= 9 ==> !Matches(lens, x, i)
    else
      var i := word % 512;
      i < n && i < |lens| && lens[i] == word / 512 && lens[i] <= 9 && Matches(lens, x, i)
  }

  ghost predicate FastTable(lens: Lengths, n: nat, fast: seq<nat>) {
    |fast| == 512 && forall x {:trigger fast[x]} :: 0 <= x < 512 ==> FastWord(lens, n, fast[x], x)
  }

  ghost predicate SymbolTable(lens: Lengths, n: nat, size: seq<nat>, value: seq<nat>) {
    && |size| == 288 && |value| == 288
    && forall i: nat {:trigger Position(lens, i)} :: i < n && i < |lens| && lens[i] > 0 ==>
         Position(lens, i) < 288 && size[Position(lens, i)] == lens[i] && value[Position(lens, i)] == i
  }

  ghost predicate StartTables(lens: Lengths, m: nat, firstcode: seq<nat>, firstsymbol: seq<nat>, maxcode: seq<nat>) {
    && |firstcode| == 16 && |firstsymbol| == 16 && |maxcode| == 17
    && forall s: nat {:trigger FirstCode(lens, s)} {:trigger MaxCode(lens, s)} :: 1 <= s < m && s <= 15 ==>
         firstcode[s] == FirstCode(lens, s) && firstsymbol[s] == FirstSymbol(lens, s) && maxcode[s] == MaxCode(lens, s)
  }

  /** Two streams with the same low nine bits match the same short codes. */
  lemma ShortMatch(lens: Lengths, bits: nat, i: nat)
    requires i < |lens| && lens[i] <= 9
    ensures Matches(lens, bits % 512, i) <==> Matches(lens, bits, i)
  {
    FastSize();
    var s := lens[i];
    RevLow(s, bits);
    RevLow(s, bits % 512);
    Pow2Sum(s, 9 - s);
    ModMod(bits, Pow2(s), Pow2(9 - s));
  }

  lemma ModMod(x: nat, a: nat, b: nat)
    requires a > 0 && b > 0
    ensures a * b > 0 && x % (a * b) % a == x % a
  {
    var q := x / (a * b);
    var r := x % (a * b);
    assert x == q * (a * b) + r;
    assert q * (a * b) == (q * b) * a by { Regroup(q, b, a); Swap(a, b); }
    QuotientSum(q * b, r, a);
  }

  lemma Swap(a: nat, b: nat)
    ensures a * b == b * a
  {
  }

  /** Entries `j`, `j + p`, `j + 2p` and so on are the ones with remainder `r`. */
  lemma NextResidue(j: nat, p: nat, r: nat, x: nat)
    requires p > 0 && r < p && j % p == r && j <= x < j + p
    ensures x % p == r <==> x == j
    ensures (j + p) % p == r
  {
    var q, e := j / p, r + (x - j);
    assert j == q * p + r;
    if e < p {
      QuotientIs(x, p, q, e);
    } else {
      NextMultiple(q, p);
      QuotientIs(x, p, q + 1, e - p);
    }
    NextMultiple(q, p);
    QuotientIs(j + p, p, q + 1, r);
  }

  lemma NextMultiple(q: nat, p: nat)
    ensures (q + 1) * p == q * p + p
  {
  }

  lemma LengthFits(lens: Lengths, s: nat)
    requires 1 <= s <= 16
    ensures Fits(lens, s) <==> Count(lens, s) == 0 || FirstCode(lens, s) + Count(lens, s) - 1 < Pow2(s)
    ensures MaxCode(lens, s) == (FirstCode(lens, s) + Count(lens, s)) * Pow2(16 - s)
  {
  }

  lemma FirstStart(lens: Lengths)
    ensures FirstCode(lens, 1) == 0 && FirstSymbol(lens, 1) == 0
  {
  }

  lemma NextStart(lens: Lengths, s: nat)
    requires s >= 1
    ensures FirstCode(lens, s + 1) == (FirstCode(lens, s) + Count(lens, s)) * 2
    ensures FirstSymbol(lens, s + 1) == FirstSymbol(lens, s) + Count(lens, s)
  {
  }

  predicate Residue(x: nat, p: nat, r: nat)
    requires p > 0
  {
    x % p == r
  }

  lemma ResidueStart(p: nat, r: nat)
    requires r < p
    ensures Residue(r, p, r) && forall x: nat :: x < r ==> !Residue(x, p, r)
  {
    forall x: nat | x <= r ensures x % p == x { SmallMod(x, p); }
  }

  lemma ResidueGap(j: nat, p: nat, r: nat)
    requires r < p && Residue(j, p, r)
    ensures Residue(j + p, p, r) && forall x: nat :: j <= x < j + p ==> (Residue(x, p, r) <==> x == j)
  {
    forall x: nat | j <= x < j + p ensures (Residue(x, p, r) <==> x == j) { NextResidue(j, p, r, x); }
    NextResidue(j, p, r, j);
  }

  class Huffman {
    const fast: array<nat>
    const firstcode: array<nat>
    const maxcode: array<nat>
    const firstsymbol: array<nat>
    const size: array<nat>
    const value: array<nat>

    ghost predicate Valid() {
      && fast.Length == 512 && firstcode.Length == 16 && maxcode.Length == 17
      && firstsymbol.Length == 16 && size.Length == 288 && value.Length == 288
      && fast != firstcode && fast != maxcode && fast != firstsymbol && fast != size && fast != value
      && firstcode != maxcode && firstcode != firstsymbol && firstcode != size && firstcode != value
      && maxcode != firstsymbol && maxcode != size && maxcode != value
      && firstsymbol != size && firstsymbol != value && size != value
    }

    /** The tables decode the canonical code of `lens`. */
    ghost predicate Decodes(lens: Lengths)
      reads fast, firstcode, maxcode, firstsymbol, size, value
    {
      && Valid() && Proper(lens) && Accepted(lens)
      && FastTable(lens, |lens|, fast[..]) && SymbolTable(lens, |lens|, size[..], value[..])
      && StartTables(lens, 16, firstcode[..], firstsymbol[..], maxcode[..]) && maxcode[16] == 0x1_0000
    }

    constructor ()
      ensures Valid() && fresh(fast) && fresh(firstcode) && fresh(maxcode) && fresh(firstsymbol) && fresh(size) && fresh(value)
    {
      fast := new nat[512](_ => 0);
      firstcode := new nat[16](_ => 0);
      maxcode := new nat[17](_ => 0);
      firstsymbol := new nat[16](_ => 0);
      size := new nat[288](_ => 0);
      value := new nat[288](_ => 0);
    }

    /** The code lengths, counted; length zero means that a symbol has no code. */
    static method CountSizes(sizelist: Lengths) returns (sizes: array<nat>)
      requires Proper(sizelist)
      ensures fresh(sizes) && sizes.Length == 17 && sizes[0] == 0
      ensures forall s :: 1 <= s < 17 ==> sizes[s] == Count(sizelist, s)
    {
      sizes := new nat[17](_ => 0);
      for i := 0 to |sizelist|
        invariant forall s :: 0 <= s < 17 ==> sizes[s] == CountTo(sizelist, i, s)
      {
        sizes[sizelist[i]] := sizes[sizelist[i]] + 1;
      }
      sizes[0] := 0;
    }

    /** First codes, first symbols and bounds of each length; false when the lengths fit no code. */
    method CodeStarts(sizelist: Lengths, sizes: array<nat>, next_code: array<nat>) returns (ok: bool)
      requires Valid() && Proper(sizelist) && sizes.Length == 17 && next_code.Length == 16
      requires sizes != next_code && {sizes, next_code} !! {firstcode, maxcode, firstsymbol}
      requires forall s :: 1 <= s < 17 ==> sizes[s] == Count(sizelist, s)
      modifies firstcode, maxcode, firstsymbol, next_code
      ensures ok <==> forall s: nat :: 1 <= s <= 15 ==> Fits(sizelist, s)
      ensures ok ==> StartTables(sizelist, 16, firstcode[..], firstsymbol[..], maxcode[..]) && maxcode[16] == 0x1_0000
      ensures ok ==> forall s :: 1 <= s < 16 ==> next_code[s] == FirstCode(sizelist, s)
    {
      hide Pow2, CountTo, Count, Fits, MaxCode, FirstCode, FirstSymbol;
      FirstStart(sizelist);
      var code, k := 0, 0;
      for i := 1 to 16
        invariant code == FirstCode(sizelist, i) && k == FirstSymbol(sizelist, i)
        invariant forall s: nat :: 1 <= s < i ==> Fits(sizelist, s)
        invariant forall s: nat {:trigger firstcode[s]} :: 1 <= s < i ==> firstcode[s] == FirstCode(sizelist, s)
        invariant forall s: nat {:trigger firstsymbol[s]} :: 1 <= s < i ==> firstsymbol[s] == FirstSymbol(sizelist, s)
        invariant forall s: nat {:trigger maxcode[s]} :: 1 <= s < i ==> maxcode[s] == MaxCode(sizelist, s)
        invariant forall s :: 1 <= s < i ==> next_code[s] == FirstCode(sizelist, s)
        modifies firstcode, maxcode, firstsymbol, next_code
      {
        next_code[i] := code;
        firstcode[i] := code;
        firstsymbol[i] := k;
        code := code + sizes[i];
        LengthFits(sizelist, i);
        if sizes[i] != 0 && code - 1 >= Pow2(i) {
          return false;
        }
        maxcode[i] := code * Pow2(16 - i);
        code := code * 2;
        k := k + sizes[i];
        NextStart(sizelist, i);
      }
      maxcode[16] := 0x1_0000;
      return true;
    }

    /** Every fast-table entry whose low `s` bits are the reversed code gets the word. */
    method FillFast(s: nat, code: nat, fastv: nat)
      requires Valid() && 1 <= s <= 9 && code < Pow2(s)
      modifies fast
      ensures forall x :: 0 <= x < 512 ==> fast[x] == if Rev(s, x) == code then fastv else old(fast[x])
    {
      var j := BitReverse(code, s);
      BitReverseIsRev(code, s);
      RevBound(s, code);
      SmallMod(j, Pow2(s));
      forall x: nat | x < 512 ensures Residue(x, Pow2(s), j) <==> Rev(s, x) == code { EndsWith(s, x, code); }
      Stamp(Pow2(s), j, fastv);
    }

    /** The inner loop: every `p`-th entry from `first` on. */
    method Stamp(p: nat, first: nat, fastv: nat)
      requires Valid() && first < p
      modifies fast
      ensures forall x: nat {:trigger fast[x]} :: x < 512 ==> fast[x] == if Residue(x, p, first) then fastv else old(fast[x])
    {
      hide Residue;
      var j := first;
      ResidueStart(p, first);
      while j < 512
        invariant Residue(j, p, first)
        invariant forall x: nat {:trigger fast[x]} :: x < 512 ==> fast[x] == if x < j && Residue(x, p, first) then fastv else old(fast[x])
        decreases 512 - j
      {
        fast[j] := fastv;
        ResidueGap(j, p, first);
        j := j + p;
      }
    }

    /** stbi__zbuild_huffman. */
    method Build(sizelist: Lengths) returns (ok: bool)
      requires Valid() && Proper(sizelist)
      modifies fast, firstcode, maxcode, firstsymbol, size, value
      ensures ok <==> Accepted(sizelist)
      ensures ok ==> Decodes(sizelist)
    {
      hide Pow2, CountTo, Count, Fits;
      var next_code := new nat[16](_ => 0);
      var sizes := CountSizes(sizelist);
      for i := 1 to 16
        invariant forall s: nat :: 1 <= s < i ==> Count(sizelist, s) <= Pow2(s)
      {
        if sizes[i] > Pow2(i) {
          assert Fits(sizelist, i) || !Fits(sizelist, i);
          return false;
        }
      }
      ok := CodeStarts(sizelist, sizes, next_code);
      if ok {
        FillTables(sizelist, next_code);
      }
    }

    /** The loop over the symbols. */
    method FillTables(sizelist: Lengths, next_code: array<nat>)
      requires Valid() && Proper(sizelist) && Accepted(sizelist) && next_code.Length == 16
      requires next_code !in {fast, firstcode, maxcode, firstsymbol, size, value}
      requires StartTables(sizelist, 16, firstcode[..], firstsymbol[..], maxcode[..]) && maxcode[16] == 0x1_0000
      requires forall s :: 1 <= s < 16 ==> next_code[s] == FirstCode(sizelist, s)
      modifies fast, size, value, next_code
      ensures Decodes(sizelist)
    {
      hide Accepted, FirstCode, Proper, Count;
      forall x | 0 <= x < 512 { fast[x] := 0; }
      NoEntries(sizelist, fast[..], size[..], value[..]);
      assert firstcode[..] == old(firstcode[..]) && firstsymbol[..] == old(firstsymbol[..]) && maxcode[..] == old(maxcode[..]);
      for i := 0 to |sizelist|
        invariant StartTables(sizelist, 16, firstcode[..], firstsymbol[..], maxcode[..])
        invariant FastTable(sizelist, i, fast[..]) && SymbolTable(sizelist, i, size[..], value[..])
        invariant forall s :: 1 <= s < 16 ==> next_code[s] == FirstCode(sizelist, s) + CountTo(sizelist, i, s)
        modifies fast, size, value, next_code
      {
        var s := sizelist[i];
        assert s <= 15 by { ProperAt(sizelist, i); }
        if s != 0 {
          AddSymbol(sizelist, i, next_code[s]);
          next_code[s] := next_code[s] + 1;
        } else {
          SkipSymbol(sizelist, i, fast[..], size[..], value[..]);
        }
      }
    }

    /** The table entries of symbol `i`, whose code is `code`. */
    method AddSymbol(sizelist: Lengths, i: nat, code: nat)
      requires Valid() && Proper(sizelist) && Accepted(sizelist) && i < |sizelist| && sizelist[i] > 0 && code == Code(sizelist, i)
      requires StartTables(sizelist, 16, firstcode[..], firstsymbol[..], maxcode[..])
      requires FastTable(sizelist, i, fast[..]) && SymbolTable(sizelist, i, size[..], value[..])
      modifies fast, size, value
      ensures FastTable(sizelist, i + 1, fast[..]) && SymbolTable(sizelist, i + 1, size[..], value[..])
    {
      var s := sizelist[i];
      assert firstcode[s] == FirstCode(sizelist, s);
      var c := code - firstcode[s] + firstsymbol[s];
      PositionBound(sizelist, i);
      ghost var size0, value0, fast0 := size[..], value[..], fast[..];
      size[c] := s;
      value[c] := i;
      AddPosition(sizelist, i, size0, value0);
      CodeBound(sizelist, i);
      if s <= ZFAST_BITS {
        FillFast(s, code, s * 512 + i);
      }
      AddFast(sizelist, i, fast0, fast[..]);
    }
  }

  lemma ProperAt(lens: Lengths, i: nat)
    requires Proper(lens) && i < |lens|
    ensures lens[i] <= 15
  {
  }

  lemma NoEntries(lens: Lengths, fast: seq<nat>, size: seq<nat>, value: seq<nat>)
    requires |fast| == 512 && |size| == 288 && |value| == 288 && forall x :: 0 <= x < 512 ==> fast[x] == 0
    ensures FastTable(lens, 0, fast) && SymbolTable(lens, 0, size, value)
  {
    forall x | 0 <= x < 512 ensures FastWord(lens, 0, fast[x], x) {}
  }

  lemma CodeBound(lens: Lengths, i: nat)
    requires Accepted(lens) && Proper(lens) && i < |lens| && lens[i] > 0
    ensures Code(lens, i) < Pow2(lens[i])
  {
    forall t: nat | 1 <= t <= lens[i] ensures Fits(lens, t) {}
    FirstCodeBound(lens, lens[i]);
    CountGrows(lens, i, |lens|, lens[i]);
  }

  lemma AddPosition(lens: Lengths, i: nat, size: seq<nat>, value: seq<nat>)
    requires Proper(lens) && i < |lens| && lens[i] > 0 && SymbolTable(lens, i, size, value)
    ensures Position(lens, i) < 288
    ensures SymbolTable(lens, i + 1, size[Position(lens, i) := lens[i]], value[Position(lens, i) := i])
  {
    PositionBound(lens, i);
    var c := Position(lens, i);
    forall j: nat | j < i + 1 && j < |lens| && lens[j] > 0
      ensures Position(lens, j) < 288 && size[c := lens[i]][Position(lens, j)] == lens[j] && value[c := i][Position(lens, j)] == j
    {
      if j != i { PositionsDiffer(lens, i, j); }
    }
  }

  lemma AddFast(lens: Lengths, i: nat, before: seq<nat>, after: seq<nat>)
    requires Proper(lens) && i < |lens| && lens[i] > 0 && FastTable(lens, i, before) && |after| == 512
    requires forall x :: 0 <= x < 512 ==>
      after[x] == if lens[i] <= 9 && Rev(lens[i], x) == Code(lens, i) then lens[i] * 512 + i else before[x]
    ensures FastTable(lens, i + 1, after)
  {
    forall x | 0 <= x < 512 ensures FastWord(lens, i + 1, after[x], x) {
      assert FastWord(lens, i, before[x], x);
      if lens[i] <= 9 && Matches(lens, x, i) {
        assert after[x] % 512 == i && after[x] / 512 == lens[i];
      }
    }
  }

  lemma SkipSymbol(lens: Lengths, i: nat, fast: seq<nat>, size: seq<nat>, value: seq<nat>)
    requires i < |lens| && lens[i] == 0 && FastTable(lens, i, fast) && SymbolTable(lens, i, size, value)
    ensures FastTable(lens, i + 1, fast) && SymbolTable(lens, i + 1, size, value)
  {
    forall x | 0 <= x < 512 ensures FastWord(lens, i + 1, fast[x], x) {
      assert FastWord(lens, i, fast[x], x);
    }
  }
}
