/** The JPEG entropy decoder, changed in place, and the code that its tables decode. */
module JpegReader {
  import opened Wrappers
  import opened BitOrder
  import opened CanonicalCode
  import opened JpegHuffman
  import opened Words
  import opened JpegBits
  import ZHuffman

  /** A byte of the fast table cannot name the last of 256 symbols: its number is the mark for
      "not accelerated". */
  predicate NoLostSymbol(lens: Lengths) {
    |lens| <= 255 || lens[255] > FAST_BITS
  }

  /** The decoder finds the symbol whose canonical code begins the buffer, takes exactly that code,
      and finds none when there is none. */
  ghost predicate Right(s: State, h: Tables, lens: Lengths)
    requires Word32(s) && Built(h, lens)
  {
    var (r, t) := Decoded(s, h);
    && (forall i: nat :: Matches(lens, Ahead(s.buffer), i) ==>
          i < 256 && r == h.values[i] as int && t == s.(buffer := Shl(32, s.buffer, lens[i]), bits := s.bits - lens[i]))
    && ((forall i: nat :: !Matches(lens, Ahead(s.buffer), i)) ==> r == -1)
  }

  /** The fast table's byte for the top nine bits, said of the whole buffer. */
  lemma PeekMatches(x: nat, h: Tables, lens: Lengths)
    requires x < Pow2(32) && Built(h, lens)
    ensures var word := h.fast[Peek(x)];
      if word == 255 then forall i: nat {:trigger Matches(lens, Ahead(x), i)} :: Matches(lens, Ahead(x), i) && lens[i] <= 9 ==> i == 255
      else word < 255 && word < |lens| && Matches(lens, Ahead(x), word) && h.size[word] == lens[word] <= 9
  {
    hide Top, Rev, Code, Pow2, CodeTables, Admits, Sorted;
    var c, bits := Peek(x), Ahead(x);
    TopIsAhead(x, 9);
    RevTwice(9, bits);
    ZHuffman.FastSize();
    assert Rev(9, c) == bits % 512;
    var word := h.fast[c];
    assert FastByte(lens, |lens|, word, c);
    if word == 255 {
      forall i: nat | Matches(lens, bits, i) && lens[i] <= 9 ensures i == 255 { ZHuffman.ShortMatch(lens, bits, i); }
    } else {
      ZHuffman.ShortMatch(lens, bits, word);
      assert h.size[word] == h.size[..|lens|][word];
    }
  }

  /** The slow path's length and symbol. */
  lemma SlowMatches(x: nat, h: Tables, lens: Lengths)
    requires x < Pow2(32) && Built(h, lens) && MaxCode(lens, 9) <= Window(Ahead(x))
    ensures var n := SlowLength(h, Top(32, x, 16), 10);
      if n == 17 then forall i: nat :: !Matches(lens, Ahead(x), i)
      else
        var id := Top(32, x, n) + h.delta[n];
        0 <= id < |lens| && Matches(lens, Ahead(x), id) && lens[id] == n
  {
    hide Top, Rev, Pow2, FastTable, Code, Position, MaxCode, FirstCode, FirstSymbol, Count, Admits;
    var bits, n := Ahead(x), SlowLength(h, Top(32, x, 16), 10);
    TopIsAhead(x, 16);
    AllBounded(lens);
    if n == 17 {
      assert h.maxcode[16] == MaxCode(lens, 16);
      SomeMatch(lens, bits, 16);
    } else {
      assert h.maxcode[n] == MaxCode(lens, n) && (n > 10 ==> h.maxcode[n - 1] == MaxCode(lens, n - 1));
      var i := MatchExists(lens, bits, n);
      SortedPosition(lens, i);
      TopIsAhead(x, n);
      assert h.delta[n] == FirstSymbol(lens, n) - FirstCode(lens, n);
    }
  }

  lemma DecodeRight(s: State, h: Tables, lens: Lengths)
    requires Word32(s) && s.bits >= 16 && Built(h, lens) && NoLostSymbol(lens)
    ensures Right(s, h, lens)
  {
    hide Top, Rev, Pow2, Shl, FastTable, CodeTables, Admits, MaxCode, Code, Peek;
    var x := s.buffer;
    PeekMatches(x, h, lens);
    AllBounded(lens);
    if h.fast[Peek(x)] < 255 {
      forall i: nat | Matches(lens, Ahead(x), i) ensures i == h.fast[Peek(x)] { MatchUnique(lens, Ahead(x), i, h.fast[Peek(x)]); }
    } else {
      NoShort(x, lens);
      SlowMatches(x, h, lens);
      var n := SlowLength(h, Top(32, x, 16), 10);
      if n < 17 {
        var id := Top(32, x, n) + h.delta[n];
        forall i: nat | Matches(lens, Ahead(x), i) ensures i == id { MatchUnique(lens, Ahead(x), i, id); }
      }
    }
  }

  lemma NoShort(x: nat, lens: Lengths)
    requires Sorted(lens) && |lens| <= 256 && NoLostSymbol(lens)
    requires forall i: nat {:trigger Matches(lens, Ahead(x), i)} :: Matches(lens, Ahead(x), i) && lens[i] <= 9 ==> i == 255
    ensures MaxCode(lens, 9) <= Window(Ahead(x))
  {
    hide Rev, Pow2, MaxCode, Code;
    AllBounded(lens);
    SomeMatch(lens, Ahead(x), 9);
  }

  /** With 256 symbols of at most nine bits, the last one is found by the slow path, which takes ten bits. */
  lemma LastSymbolLost(s: State, h: Tables, lens: Lengths)
    requires Word32(s) && s.bits >= 16 && Built(h, lens) && !NoLostSymbol(lens) && Matches(lens, Ahead(s.buffer), 255)
    ensures Decoded(s, h).1.bits == s.bits - 10 && lens[255] < 10 && !Right(s, h, lens)
  {
    hide Top, Rev, Pow2, Shl, FastTable, Admits, MaxCode, Code, Peek;
    var x := s.buffer;
    PeekMatches(x, h, lens);
    AllBounded(lens);
    if h.fast[Peek(x)] < 255 { MatchUnique(lens, Ahead(x), 255, h.fast[Peek(x)]); }
    MatchWindow(lens, Ahead(x), 255);
    MaxCodeGrows(lens, lens[255], 10);
    TopIsAhead(x, 16);
    assert h.maxcode[10] == MaxCode(lens, 10);
  }

  /** A buffer that begins with the code of a symbol. */
  lemma CodeInBuffer(lens: Lengths, i: nat) returns (x: nat)
    requires Sorted(lens) && Admits(lens) && i < |lens|
    ensures x < Pow2(32) && Matches(lens, Ahead(x), i)
  {
    hide Rev, Code, Sorted, Admits;
    SymbolBound(lens, i);
    var n, c := lens[i], Code(lens, i);
    var p := Pow2(32 - n);
    x := c * p;
    Pow2Sum(n, 32 - n);
    Rows(c, Pow2(n), p);
    QuotientIs(x, p, c, 0);
    TopIsAhead(x, n);
  }

  /** The decoder is right on every buffer that holds sixteen bits if and only if no symbol is lost. */
  lemma DecodeRightIff(h: Tables, lens: Lengths)
    requires Built(h, lens)
    ensures (forall s: State :: Word32(s) && s.bits >= 16 ==> Right(s, h, lens)) <==> NoLostSymbol(lens)
  {
    hide Right, Decoded;
    if NoLostSymbol(lens) {
      forall s: State | Word32(s) && s.bits >= 16 ensures Right(s, h, lens) { DecodeRight(s, h, lens); }
    } else {
      var x := CodeInBuffer(lens, 255);
      LastSymbolLost(State(x, 16, false, 0, []), h, lens);
      assert Word32(State(x, 16, false, 0, []));
    }
  }

  /** The byte of the fast table for nine bits. */
  ghost function FastFor(lens: Lengths, x: nat): (word: nat)
    requires Sorted(lens) && Admits(lens) && |lens| <= 256
    ensures FastByte(lens, |lens|, word, x) && word <= 255
  {
    if i: nat :| i < |lens| && i != 255 && lens[i] <= 9 && Matches(lens, Rev(9, x), i) then i else 255
  }

  /** Every list of lengths that stbi__build_huffman accepts has tables. */
  lemma TablesExist(lens: Lengths, values: seq<byte>) returns (h: Tables)
    requires Sorted(lens) && Admits(lens) && |lens| <= 256 && |values| == 256
    ensures Built(h, lens) && h.values == values
  {
    hide Rev, MaxCode, FirstCode, FirstSymbol, Code, Admits;
    var fast := seq(512, x requires 0 <= x => FastFor(lens, x));
    var size := lens + seq(257 - |lens|, _ => 0);
    var maxcode := seq(18, j requires 0 <= j => if j <= 16 then MaxCode(lens, j) else 0xffff_ffff);
    var delta := seq(17, j requires 0 <= j => FirstSymbol(lens, j) - FirstCode(lens, j));
    h := Tables(fast, values, size, maxcode, delta);
    forall x | 0 <= x < 512 ensures FastByte(lens, |lens|, h.fast[x], x) && h.fast[x] <= 255 {}
    assert size[..|lens|] == lens;
  }

  /** 255 codes of eight bits and one of nine: a buffer that begins with the last one is not decoded right. */
  lemma LostSymbol() returns (h: Tables, lens: Lengths, s: State)
    ensures lens == SizesTo(TwoCounts(8, 255, 1), 16) && Built(h, lens) && Word32(s) && s.bits == 16
    ensures Matches(lens, Ahead(s.buffer), 255) && lens[255] == 9 && Decoded(s, h).1.bits == 6 && !Right(s, h, lens)
  {
    hide Right, Decoded, Built, Code, Rev;
    var count := TwoCounts(8, 255, 1);
    lens := SizesTo(count, 16);
    TwoSizesList(count, 16, 8, 255, 1);
    SizesSorted(count, 16);
    ZHuffman.FastSize();
    TwoAdmit(count, 8, 255, 1);
    h := TablesExist(lens, seq(256, _ => 0));
    var x := CodeInBuffer(lens, 255);
    s := State(x, 16, false, 0, []);
    LastSymbolLost(s, h, lens);
  }

  /** One code of one bit, which is zero. */
  lemma OneCode()
    ensures SizesTo(TwoCounts(1, 1, 0), 16) == [1] && Sorted([1]) && Admits([1])
  {
    var count := TwoCounts(1, 1, 0);
    TwoSizesList(count, 16, 1, 1, 0);
    SizesSorted(count, 16);
    assert Pow2(1) == 2 && Pow2(2) == 4;
    TwoAdmit(count, 1, 1, 0);
  }

  /** Nine zeros begin with it: the entry of the combined table, where its symbol asks for one bit of magnitude. */
  lemma ZeroEntry(h: Tables)
    requires Built(h, [1]) && h.values == seq(256, _ => 1)
    ensures h.fast[0] == 0 && h.size[0] == 1 && FastAc(h, 0) == -254
  {
    hide Top, Shl;
    assert FastByte([1], 1, h.fast[0], 0) && Pow2(0) == 1 && Pow2(1) == 2 && Rev(1, Rev(9, 0)) == 0;
    assert Matches([1], Rev(9, 0), 0);
    assert h.size[..1][0] == 1;
    ZeroWord(9, 1);
  }

  /** With these tables, data that ends at once with a marker: the fast path counts two bits less than none, the
      two steps count the zeros that were supplied in between. */
  lemma CountsDiffer() returns (h: Tables)
    ensures Built(h, SizesTo(TwoCounts(1, 1, 0), 16))
    ensures var s0 := Filled(State(0, 0, false, 0, [0xff, 0xd9]), 16);
      && Word32(s0) && Word32(Filled(s0, 16)) && FastAc(h, Peek(s0.buffer)) != 0
      && s0.bits == 0 && FastStep(s0, FastAc(h, Peek(s0.buffer))).2.bits == -2
      && var (rs, s1) := HuffDecode(s0, h); rs == 1 && ExtendReceive(s1, 1).1.bits == 30
  {
    hide Top, Shl, Low, Rotate, FastAc, Grow, FastTable, CodeTables;
    OneCode();
    h := TablesExist([1], seq(256, _ => 1));
    var s0 := State(0, 0, true, 0xd9, []);
    MarkerFirst();
    ZeroEntry(h);
    ZerosGrow(s0);
    ZeroWord(32, 9);
    ZeroWord(32, 1);
  }

  /** The tables of a Huffman object as values. */
  ghost function TablesOf(h: Huffman): Tables
    reads h.fast, h.values, h.size, h.maxcode, h.delta
  {
    Tables(h.fast[..], h.values[..], h.size[..], h.maxcode[..], h.delta[..])
  }

  lemma TablesBuilt(h: Huffman, lens: Lengths)
    requires h.Decodes(lens)
    ensures Built(TablesOf(h), lens)
  {
    forall x | 0 <= x < 512 ensures h.fast[x] <= 255 && (h.fast[x] < 255 ==> 1 <= h.size[h.fast[x]] <= 9) {
      assert FastByte(lens, |lens|, h.fast[..][x], x);
    }
  }

  class Jpeg {
    const input: seq<byte>
    var pos: nat
    var code_buffer: nat
    var code_bits: int
    var marker: byte
    var nomore: bool

    ghost predicate Valid()
      reads this
    {
      pos <= |input|
    }

    ghost function Now(): State
      reads this
      requires Valid()
    {
      State(code_buffer, code_bits, nomore, marker, input[pos..])
    }

    /** stbi__jpeg_reset. */
    constructor (input: seq<byte>)
      ensures Valid() && Now() == State(0, 0, false, 0, input)
    {
      this.input, pos := input, 0;
      code_buffer, code_bits, marker, nomore := 0, 0, 0, false;
      new;
      assert input[0..] == input;
    }

    /** stbi__get8. */
    method Get8() returns (b: byte)
      requires Valid()
      modifies this`pos
      ensures Valid() && b == NextByte(old(input[pos..])) && input[pos..] == Tail(old(input[pos..]))
    {
      if pos >= |input| {
        return 0;
      }
      b := input[pos];
      pos := pos + 1;
    }

    /** One turn of stbi__grow_buffer_unsafe. */
    method GrowByte() returns (stop: bool)
      requires Valid() && code_bits <= 24
      modifies this
      ensures Valid() && (Now(), stop) == JpegBits.GrowByte(old(Now())) && (stop || code_bits == old(code_bits) + 8)
    {
      hide Added;
      var b: byte := 0;
      if !nomore {
        b := Get8();
      }
      if b == 0xff {
        var c := SkipFillBytes();
        if c != 0 {
          marker := c;
          nomore := true;
          return true;
        }
      }
      code_buffer := Added(code_buffer, b, code_bits);
      code_bits := code_bits + 8;
      stop := false;
    }

    /** The byte after a 0xff and any fill bytes. */
    method SkipFillBytes() returns (c: byte)
      requires Valid()
      modifies this`pos
      ensures Valid() && (c, input[pos..]) == SkipFill(old(input[pos..]))
    {
      ghost var rest := input[pos..];
      c := Get8();
      while c == 0xff
        invariant Valid() && SkipFill(rest) == if c == 0xff then SkipFill(input[pos..]) else (c, input[pos..])
        decreases |input| - pos, c
      {
        c := Get8();
      }
    }

    /** stbi__grow_buffer_unsafe. */
    method GrowBuffer()
      requires Valid() && code_bits <= 24
      modifies this
      ensures Valid() && Now() == Grow(old(Now()))
    {
      hide JpegBits.GrowByte;
      ghost var s := Now();
      var stop := GrowByte();
      while !stop && code_bits <= 24
        invariant Valid() && Grow(s) == if !stop && code_bits <= 24 then Grow(Now()) else Now()
        decreases !stop, 32 - code_bits
      {
        stop := GrowByte();
      }
    }

    /** The search among the longer codes. */
    method SearchLength(h: Huffman, temp: nat) returns (k: nat)
      requires h.Valid() && Shaped(TablesOf(h))
      ensures k == SlowLength(TablesOf(h), temp, FAST_BITS + 1)
    {
      k := FAST_BITS + 1;
      while k < 17 && !(temp < h.maxcode[k])
        invariant 10 <= k <= 17 && SlowLength(TablesOf(h), temp, 10) == SlowLength(TablesOf(h), temp, k)
        decreases 17 - k
      {
        k := k + 1;
      }
    }

    /** stbi__jpeg_huff_decode. */
    method Decode(h: Huffman, ghost lens: Lengths) returns (r: int)
      requires Valid() && h.Decodes(lens) && h.Valid() && Word32(Filled(Now(), 16))
      modifies this
      ensures Valid() && Shaped(TablesOf(h)) && (r, Now()) == HuffDecode(old(Now()), TablesOf(h))
    {
      hide Shl, Top, Grow, Huffman.Decodes, FastTable, CodeTables, Pow2, Sorted, Admits, Peek;
      TablesBuilt(h, lens);
      if code_bits < 16 {
        GrowBuffer();
      }
      var c := Peek(code_buffer);
      var k: nat := h.fast[c];
      if k < 255 {
        var s := h.size[k];
        if s > code_bits {
          return -1;
        }
        code_buffer := Shl(32, code_buffer, s);
        code_bits := code_bits - s;
        return h.values[k];
      }
      k := SearchLength(h, Top(32, code_buffer, 16));
      if k == 17 {
        code_bits := code_bits - 16;
        return -1;
      }
      if k > code_bits {
        return -1;
      }
      var id := Top(32, code_buffer, k) + h.delta[k];
      code_bits := code_bits - k;
      code_buffer := Shl(32, code_buffer, k);
      r := if 0 <= id < 256 then h.values[id] else 0;
    }

    /** stbi__extend_receive. */
    method Receive(n: nat) returns (v: int)
      requires Valid() && 0 < n <= 15
      modifies this
      ensures Valid() && (v, Now()) == ExtendReceive(old(Now()), n)
    {
      hide Shl, Top, Grow;
      if code_bits < n {
        GrowBuffer();
      }
      var sgn := Top(32, code_buffer, 1) == 1;
      var k := Rotate(32, code_buffer, n);
      code_buffer := Quotient(k, Pow2(n)) * Pow2(n);
      code_bits := code_bits - n;
      v := Low(k, n) + (if sgn then 0 else 1 - Pow2(n));
    }

    /** stbi__build_fast_ac. */
    static method BuildFastAc(fast_ac: array<int>, h: Huffman, ghost lens: Lengths)
      requires fast_ac.Length == 512 && h.Decodes(lens) && fast_ac != h.delta
      modifies fast_ac
      ensures Shaped(TablesOf(h)) && forall i :: 0 <= i < 512 ==> fast_ac[i] == FastAc(TablesOf(h), i)
    {
      hide Shl, Top, Huffman.Decodes, Pow2;
      TablesBuilt(h, lens);
      for i := 0 to 512
        invariant Shaped(TablesOf(h)) && forall j :: 0 <= j < i ==> fast_ac[j] == FastAc(TablesOf(h), j)
      {
        var fast := h.fast[i];
        fast_ac[i] := 0;
        if fast < 255 {
          var rs := h.values[fast];
          var run, magbits, len := (rs / 16) % 16, rs % 16, h.size[fast];
          if magbits != 0 && len + magbits <= FAST_BITS {
            var k: int := Top(FAST_BITS, Shl(FAST_BITS, i, len), magbits);
            var m := Pow2(magbits - 1);
            if k < m {
              k := k - Pow2(magbits) + 1;
            }
            if k >= -128 && k <= 127 {
              fast_ac[i] := k * 256 + run * 16 + (len + magbits);
            }
          }
        }
      }
    }
  }
}
