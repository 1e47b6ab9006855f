/** The entropy decoder of the JPEG reader: its bit buffer, the two-step decoding of an AC coefficient,
    and the table that does both steps at once (section F.2.2 of ITU-T T.81). */
module JpegBits {
  import opened Wrappers
  import opened BitOrder
  import opened CanonicalCode
  import opened JpegHuffman
  import opened Words
  import ZHuffman

  /** The code buffer is read from its top bit; `bits` of it are valid, the others are zero. */
  datatype State = State(buffer: nat, bits: int, nomore: bool, marker: byte, rest: seq<byte>)

  datatype Tables = Tables(fast: seq<nat>, values: seq<byte>, size: seq<nat>, maxcode: seq<nat>, delta: seq<int>)

  predicate Word32(s: State) {
    s.buffer < Pow2(32)
  }

  function NextByte(rest: seq<byte>): byte { if rest == [] then 0 else rest[0] }
  function Tail(rest: seq<byte>): seq<byte> { if rest == [] then [] else rest[1..] }

  /** The bytes after a 0xff: fill bytes are skipped. */
  function SkipFill(rest: seq<byte>): (r: (byte, seq<byte>))
    ensures |r.1| <= |rest|
  {
    if NextByte(rest) == 0xff then SkipFill(Tail(rest)) else (NextByte(rest), Tail(rest))
  }

  /** One turn of stbi__grow_buffer_unsafe: a byte, or a marker, after which it stops. */
  function GrowByte(s: State): (r: (State, bool))
    requires s.bits <= 24
    ensures r.1 || r.0.bits == s.bits + 8
  {
    var b := if s.nomore then 0 else NextByte(s.rest);
    var rest := if s.nomore then s.rest else Tail(s.rest);
    var (c, rest') := if b == 0xff then SkipFill(rest) else (0, rest);
    if b == 0xff && c != 0 then (s.(marker := c, nomore := true, rest := rest'), true)
    else (s.(buffer := Added(s.buffer, b, s.bits), bits := s.bits + 8, rest := rest'), false)
  }

  /** stbi__grow_buffer_unsafe; after a marker it supplies zeros. */
  function Grow(s: State): State
    requires s.bits <= 24
    decreases 32 - s.bits
  {
    var (t, stop) := GrowByte(s);
    if stop || t.bits > 24 then t else Grow(t)
  }

  /** A byte below the valid bits, which are zero there. */
  function Added(buffer: nat, b: byte, bits: int): nat
    requires bits <= 24
  {
    buffer + Shl(32, b, 24 - bits)
  }

  function Filled(s: State, need: int): State {
    if s.bits < need && s.bits <= 24 then Grow(s) else s
  }

  /** Once a marker has been seen the buffer grows by zeros alone. */
  lemma {:induction false} GrowZeros(s: State)
    requires s.bits <= 24 && s.nomore
    ensures Grow(s) == s.(bits := Grow(s).bits) && Grow(s).bits > 24
    decreases 32 - s.bits
  {
    ZeroShift(s.bits);
    if s.bits + 8 <= 24 { GrowZeros(s.(bits := s.bits + 8)); }
  }

  lemma ZeroShift(bits: int)
    requires bits <= 24
    ensures Shl(32, 0, 24 - bits) == 0
  {
    assert 0 * Pow2(24 - bits) == 0;
    SmallMod(0, Pow2(32));
  }

  /** Growing ends with enough bits, or at a marker. */
  lemma {:induction false} GrowEnds(s: State)
    requires s.bits <= 24
    ensures Grow(s).bits > 24 || Grow(s).nomore
    ensures Grow(s).bits >= s.bits
    decreases 32 - s.bits
  {
    var (t, stop) := GrowByte(s);
    if !stop && t.bits <= 24 { GrowEnds(t); }
  }

  predicate Shaped(h: Tables) {
    && |h.fast| == 512 && |h.values| == 256 && |h.size| == 257 && |h.maxcode| == 18 && |h.delta| == 17
    && (forall i :: 0 <= i < 512 ==> h.fast[i] <= 255)
    && (forall i {:trigger h.fast[i]} :: 0 <= i < 512 && h.fast[i] < 255 ==> 1 <= h.size[h.fast[i]] <= 9)
    && h.maxcode[17] == 0xffff_ffff
  }

  /** The tables that stbi__build_huffman makes for `lens`. */
  ghost predicate Built(h: Tables, lens: Lengths) {
    && Shaped(h) && Sorted(lens) && Admits(lens) && |lens| <= 256 && h.size[..|lens|] == lens
    && FastTable(lens, |lens|, h.fast) && CodeTables(lens, 17, h.maxcode, h.delta)
  }

  /** The length that the slow path of stbi__jpeg_huff_decode finds, 17 when there is none. */
  function SlowLength(h: Tables, temp: nat, k: nat): (r: nat)
    requires Shaped(h) && k <= 17
    ensures k <= r <= 17 && (r < 17 ==> temp < h.maxcode[r])
    ensures forall j :: k <= j < r ==> temp >= h.maxcode[j]
    decreases 17 - k
  {
    if k == 17 || temp < h.maxcode[k] then k else SlowLength(h, temp, k + 1)
  }

  /** The nine bits that index the fast tables. */
  function Peek(buffer: nat): (c: nat)
    requires buffer < Pow2(32)
    ensures c < 512
  {
    TopBound(32, buffer, 9);
    ZHuffman.FastSize();
    Top(32, buffer, FAST_BITS)
  }

  /** stbi__jpeg_huff_decode on a filled buffer: the symbol, or -1. Tables that are not from
      stbi__build_huffman could lead outside the symbols; there nothing is promised. */
  function Decoded(s: State, h: Tables): (r: (int, State))
    requires Word32(s) && Shaped(h)
    ensures -1 <= r.0 < 256
  {
    var k := h.fast[Peek(s.buffer)];
    if k < 255 then
      if h.size[k] > s.bits then (-1, s)
      else (h.values[k] as int, s.(buffer := Shl(32, s.buffer, h.size[k]), bits := s.bits - h.size[k]))
    else
      var n := SlowLength(h, Top(32, s.buffer, 16), FAST_BITS + 1);
      if n == 17 then (-1, s.(bits := s.bits - 16))
      else if n > s.bits then (-1, s)
      else
        var id := Top(32, s.buffer, n) + h.delta[n];
        (if 0 <= id < 256 then h.values[id] as int else 0, s.(buffer := Shl(32, s.buffer, n), bits := s.bits - n))
  }

  function HuffDecode(s: State, h: Tables): (r: (int, State))
    requires Word32(Filled(s, 16)) && Shaped(h)
    ensures -1 <= r.0 < 256
  {
    Decoded(Filled(s, 16), h)
  }

  /** The signed value of `n` bits: the lower half stands for the negative values. */
  function Extend(v: nat, n: nat): int
    requires n > 0
  {
    if v < Pow2(n - 1) then v - Pow2(n) + 1 else v
  }

  /** stbi__extend_receive, by the rotation, the mask and the bias that it uses. */
  function ExtendReceive(s: State, n: nat): (int, State)
    requires 0 < n <= 15
  {
    var s1 := Filled(s, n);
    var k := Rotate(32, s1.buffer, n);
    var bias := if Top(32, s1.buffer, 1) == 1 then 0 else 1 - Pow2(n);
    (Low(k, n) + bias, s1.(buffer := Quotient(k, Pow2(n)) * Pow2(n), bits := s1.bits - n))
  }

  /** One entry of the combined table. */
  function FastAc(h: Tables, i: nat): int
    requires Shaped(h) && i < 512
  {
    if h.fast[i] == 255 then 0
    else
      var rs := h.values[h.fast[i]];
      var run, magbits, len := (rs / 16) % 16, rs % 16, h.size[h.fast[i]];
      if magbits == 0 || len + magbits > FAST_BITS then 0
      else
        var k := Top(FAST_BITS, Shl(FAST_BITS, i, len), magbits);
        var v := if k < Pow2(magbits - 1) then k - Pow2(magbits) + 1 else k;
        if -128 <= v <= 127 then v * 256 + run * 16 + (len + magbits) else 0
  }

  /** The fast path of the AC loop: the run, the value, and the state after the entry `r`. */
  function FastStep(s: State, r: int): (nat, int, State) {
    var run: nat := (r / 16) % 16;
    var n: nat := r % 16;
    (run, r / 256, s.(buffer := Shl(32, s.buffer, n), bits := s.bits - n))
  }

  /** The combined table's entry for nine bits that start with a symbol and its magnitude. */
  predicate Accelerated(h: Tables, i: nat)
    requires Shaped(h) && i < 512
  {
    h.fast[i] < 255 && h.values[h.fast[i]] % 16 != 0 && h.size[h.fast[i]] + h.values[h.fast[i]] % 16 <= FAST_BITS
  }

  lemma Unpack(v: int, run: nat, n: nat)
    requires run < 16 && n < 16
    ensures var r := v * 256 + run * 16 + n; r / 256 == v && (r / 16) % 16 == run && r % 16 == n
  {
    var r := v * 256 + run * 16 + n;
    assert r / 16 == v * 16 + run;
  }

  /** What the entry of the top nine bits holds, said of the word itself. */
  lemma EntryIs(h: Tables, x: nat)
    requires Shaped(h) && x < Pow2(32) && FastAc(h, Peek(x)) != 0
    ensures Accelerated(h, Peek(x))
    ensures var rs, len := h.values[h.fast[Peek(x)]], h.size[h.fast[Peek(x)]];
      FastAc(h, Peek(x)) == Extend(Low(Top(32, x, len + rs % 16), rs % 16), rs % 16) * 256 + (rs / 16) * 16 + (len + rs % 16)
  {
    hide Pow2, Drop, Low, Shl;
    var i := Peek(x);
    var rs, len := h.values[h.fast[i]], h.size[h.fast[i]];
    var mag := rs % 16;
    TopShl(FAST_BITS, i, len, mag);
    DropDrop(x, 32 - FAST_BITS, FAST_BITS - (len + mag));
  }

  /** Decoding a symbol whose code has at most nine bits. */
  lemma FastSymbol(s: State, h: Tables)
    requires Word32(s) && s.bits >= 9 && Shaped(h) && h.fast[Peek(s.buffer)] < 255
    ensures var id := h.fast[Peek(s.buffer)];
      Decoded(s, h) == (h.values[id] as int, s.(buffer := Shl(32, s.buffer, h.size[id]), bits := s.bits - h.size[id]))
  {
  }

  /** Receiving `n` bits that are all in the buffer. */
  lemma Received(s: State, n: nat)
    requires Word32(s) && 0 < n <= 15 && s.bits >= n
    ensures ExtendReceive(s, n) == (Extend(Top(32, s.buffer, n), n), s.(buffer := Shl(32, s.buffer, n), bits := s.bits - n))
  {
    hide Pow2, Low, Rotate, Top, Shl;
    RotateSplits(s.buffer, n);
    TopBit(s.buffer, n);
  }

  /** The two steps, when the table has an entry, on a buffer that holds both. */
  lemma TwoSteps(s: State, h: Tables)
    requires Word32(s) && s.bits >= 16 && Shaped(h) && FastAc(h, Peek(s.buffer)) != 0
    ensures var (run, v, t) := FastStep(s, FastAc(h, Peek(s.buffer)));
      var (rs, s1) := Decoded(s, h);
      rs >= 0 && rs / 16 == run && 0 < rs % 16 <= 15 && s1.bits >= rs % 16 && ExtendReceive(s1, rs % 16) == (v, t)
  {
    hide Pow2, Low, Top, Shl, FastAc, Decoded, ExtendReceive, Peek, Extend;
    var x := s.buffer;
    EntryIs(h, x);
    FastSymbol(s, h);
    var rs, len := h.values[h.fast[Peek(x)]], h.size[h.fast[Peek(x)]];
    var mag := rs % 16;
    Unpack(Extend(Low(Top(32, x, len + mag), mag), mag), rs / 16, len + mag);
    var s1 := s.(buffer := Shl(32, x, len), bits := s.bits - len);
    ShlIs(32, x, len);
    Received(s1, mag);
    TopShl(32, x, len, mag);
    ShlShl(32, x, len, mag);
  }

  /** The fast path and the two steps agree on the run, the value and the buffer, whatever the state; they
      agree on the number of valid bits exactly when there were sixteen, which is always so before the
      end of the data. */
  lemma FastAcAgrees(s: State, h: Tables)
    requires Word32(Filled(s, 16)) && Shaped(h) && FastAc(h, Peek(Filled(s, 16).buffer)) != 0
    ensures var s0 := Filled(s, 16);
      var (run, v, t) := FastStep(s0, FastAc(h, Peek(s0.buffer)));
      && Word32(Filled(s0, 16))
      && (s0.bits >= 16 || s0.nomore)
      && var (rs, s1) := HuffDecode(s0, h);
        && rs >= 0 && rs / 16 == run && 0 < rs % 16 <= 15
        && var (v', s2) := ExtendReceive(s1, rs % 16);
          && v' == v && s2 == t.(bits := s2.bits)
          && (s2 == t <==> s0.bits >= 16)
  {
    hide Pow2, Low, Top, Shl, FastAc, Decoded, ExtendReceive, Peek, Grow;
    var s0 := Filled(s, 16);
    if s0.bits < 16 {
      GrowEnds(s);
      GrowZeros(s0);
      var s0' := Grow(s0);
      TwoSteps(s0', h);
    } else {
      TwoSteps(s0, h);
    }
  }

  /** What every state of the reader satisfies: the bits below the valid ones are zero, and more bits have
      been used than there were only after a marker. */
  ghost predicate Padded(s: State) {
    && s.bits <= 32 && s.buffer < Pow2(32) && (s.bits < 0 ==> s.nomore)
    && s.buffer % Pow2(if s.bits < 0 then 32 else 32 - s.bits) == 0
  }

  lemma AddedPadded(s: State, b: byte)
    requires Padded(s) && s.bits <= 24 && (s.nomore ==> b == 0)
    ensures Padded(s.(buffer := Added(s.buffer, b, s.bits), bits := s.bits + 8))
  {
    hide Shl;
    if s.bits < 0 {
      SmallMod(s.buffer, Pow2(32));
      ZeroShift(s.bits);
      SmallMod(0, Pow2(if s.bits + 8 < 0 then 32 else 24 - s.bits));
    } else {
      ByteBelow(s.buffer, b, s.bits);
    }
  }

  /** A byte added below `n` valid bits. */
  lemma ByteBelow(x: nat, b: byte, n: nat)
    requires n <= 24 && x < Pow2(32) && x % Pow2(32 - n) == 0
    ensures Added(x, b, n) < Pow2(32) && Added(x, b, n) % Pow2(24 - n) == 0
  {
    hide Shl;
    var p, q := Pow2(24 - n), x / Pow2(32 - n);
    Eight();
    Pow2Sum(8, 24 - n);
    Pow2Sum(n, 32 - n);
    Pow2Sum(n + 8, 24 - n);
    Pow2Sum(n, 8);
    Interval(x, Pow2(32 - n), Pow2(n));
    ShlIs(32, b, 24 - n);
    Pow2Monotone(8, 8 + n);
    SmallMod(b, Pow2(8 + n));
    var u, r := Euclid(x, Pow2(32 - n));
    Stacked(u, b, p, Pow2(n));
    QuotientIs(Added(x, b, n), p, u * 256 + b, 0);
  }

  lemma Stacked(u: nat, b: nat, p: nat, m: nat)
    requires u < m && b < 256 && p > 0
    ensures u * (256 * p) + b * p == (u * 256 + b) * p < (m * 256) * p
  {
    Regroup(u, 256, p);
    Scale(u * 256 + b, m * 256, p);
    SumTimes(u * 256, b, p);
  }

  lemma SumTimes(a: nat, b: nat, p: nat)
    ensures (a + b) * p == a * p + b * p
  {
  }

  lemma {:induction false} GrowPadded(s: State)
    requires Padded(s) && s.bits <= 24
    ensures Padded(Grow(s))
    decreases 32 - s.bits
  {
    hide Padded, Added;
    GrowBytePadded(s);
    var (t, stop) := GrowByte(s);
    if !stop && t.bits <= 24 { GrowPadded(t); }
  }

  lemma GrowBytePadded(s: State)
    requires Padded(s) && s.bits <= 24
    ensures Padded(GrowByte(s).0)
  {
    hide Added;
    var b := if s.nomore then 0 else NextByte(s.rest);
    AddedPadded(s, b);
  }

  lemma FilledPadded(s: State, need: nat)
    requires Padded(s) && need <= 16
    ensures Padded(Filled(s, need)) && Word32(Filled(s, need))
    ensures Filled(s, need).bits >= need || Filled(s, need).nomore
  {
    hide Grow;
    if s.bits < need && s.bits <= 24 {
      GrowPadded(s);
      GrowEnds(s);
    }
  }

  /** Bits are used up from the top. */
  lemma ShlPadded(s: State, n: nat)
    requires Padded(s) && n <= 32 && (n > s.bits ==> s.nomore)
    ensures Padded(s.(buffer := Shl(32, s.buffer, n), bits := s.bits - n))
  {
    hide Shl;
    ShlIs(32, s.buffer, n);
    var x := s.buffer;
    if s.bits < n {
      var d := if s.bits < 0 then 32 else 32 - s.bits;
      Pow2Sum(d - (32 - n), 32 - n);
      LowZero(x, Pow2(d - (32 - n)), Pow2(32 - n));
      SmallMod(0, Pow2(32));
      assert 0 * Pow2(n) == 0;
    } else {
      Pow2Sum(32 - s.bits, n);
      Pow2Sum(s.bits - n, 32 - s.bits);
      LowMultiple(x, Pow2(32 - s.bits), Pow2(s.bits - n));
      TimesMultiple(Low(x, 32 - n), Pow2(32 - s.bits), Pow2(n));
    }
  }

  lemma LowZero(x: nat, a: nat, d: nat)
    requires a > 0 && d > 0 && a * d > 0 && x % (a * d) == 0
    ensures x % d == 0
  {
    var u, r := Euclid(x, a * d);
    Regroup(u, a, d);
    QuotientIs(x, d, u * a, 0);
  }

  lemma LowMultiple(x: nat, p: nat, q: nat)
    requires p > 0 && q > 0 && q * p > 0 && x % p == 0
    ensures (x % (q * p)) % p == 0
  {
    ZHuffman.Swap(p, q);
    ZHuffman.ModMod(x, p, q);
  }

  lemma TimesMultiple(y: nat, p: nat, n: nat)
    requires p > 0 && n > 0 && p * n > 0 && y % p == 0
    ensures (y * n) % (p * n) == 0
  {
    var u, r := Euclid(y, p);
    Regroup(u, p, n);
    QuotientIs(y * n, p * n, u, 0);
  }

  lemma ZeroWord(n: nat, k: nat)
    requires k <= n
    ensures Top(n, 0, k) == 0 && Shl(n, 0, k) == 0
  {
    var p := Pow2(n - k);
    QuotientIs(0, p, 0, 0);
    SmallMod(0, Pow2(n));
    assert 0 * Pow2(k) == 0;
  }

  /** After a marker an empty buffer is filled with 32 zeros. */
  lemma ZerosGrow(s: State)
    requires s.bits == 0 && s.nomore && s.buffer == 0
    ensures Grow(s) == s.(bits := 32)
  {
    hide Shl;
    ZeroShift(0);
    ZeroShift(8);
    ZeroShift(16);
    ZeroShift(24);
    var a := s.(bits := 8);
    var b := s.(bits := 16);
    var c := s.(bits := 24);
    assert GrowByte(s) == (a, false) && GrowByte(a) == (b, false) && GrowByte(b) == (c, false) && GrowByte(c) == (s.(bits := 32), false);
    assert Grow(c) == s.(bits := 32) && Grow(b) == Grow(c) && Grow(a) == Grow(b);
  }

  lemma MarkerFirst()
    ensures Filled(State(0, 0, false, 0, [0xff, 0xd9]), 16) == State(0, 0, true, 0xd9, [])
  {
    hide Shl;
    assert [0xff, 0xd9][1..] == [0xd9] && [0xd9][1..] == [];
    assert SkipFill([0xd9]) == (0xd9, []);
  }
}
