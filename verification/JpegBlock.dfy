/** The AC coefficients of a block: the loop with the combined table against the loop without it. */
module JpegBlock {
  import opened Wrappers
  import opened BitOrder
  import opened Words
  import opened JpegBits
  import opened JpegReader
  import opened JpegHuffman
  import opened CanonicalCode

  type place = x: nat | x < 64

  /** The places of eight coefficients of the zigzag order. */
  function Zigzag(i: nat): (row: seq<place>)
    requires i < 8
    ensures |row| == 8
  {
    if i == 0 then [0, 1, 8, 16, 9, 2, 3, 10]
    else if i == 1 then [17, 24, 32, 25, 18, 11, 4, 5]
    else if i == 2 then [12, 19, 26, 33, 40, 48, 41, 34]
    else if i == 3 then [27, 20, 13, 6, 7, 14, 21, 28]
    else if i == 4 then [35, 42, 49, 56, 57, 50, 43, 36]
    else if i == 5 then [29, 22, 15, 23, 30, 37, 44, 51]
    else if i == 6 then [58, 59, 52, 45, 38, 31, 39, 46]
    else [53, 60, 61, 54, 47, 55, 62, 63]
  }

  /** Where a coefficient of the zigzag order stands in the block; corrupt input may go past the end. */
  const DEZIGZAG: seq<place> :=
    Zigzag(0) + Zigzag(1) + Zigzag(2) + Zigzag(3) + Zigzag(4) + Zigzag(5) + Zigzag(6) + Zigzag(7) +
    [63, 63, 63, 63, 63, 63, 63, 63, 63, 63, 63, 63, 63, 63, 63]

  /** The place after place `p` on the zigzag walk of Figure A.6 of ITU-T T.81: along the anti-diagonals, upwards
      on those whose row and column add up to an even number, downwards on the others. */
  function NextPlace(p: place): nat {
    var row, col := p / 8, p % 8;
    if (row + col) % 2 == 0 then
      if col == 7 then p + 8 else if row == 0 then p + 1 else p - 7
    else
      if row == 7 then p + 1 else if col == 0 then p + 8 else p + 7
  }

  /** Within a row of the table, and on from its last place. */
  predicate RowWalks(i: nat, k: nat) {
    i < 8 && k < 8 ==>
      && (k < 7 ==> Zigzag(i)[k + 1] == NextPlace(Zigzag(i)[k]))
      && (k == 7 && i < 7 ==> Zigzag(i + 1)[0] == NextPlace(Zigzag(i)[7]))
  }

  lemma UpperRows(i: nat, k: nat)
    requires i < 4
    ensures RowWalks(i, k) && Zigzag(0)[0] == 0
  {
  }

  lemma LowerRows(i: nat, k: nat)
    requires 4 <= i
    ensures RowWalks(i, k) && Zigzag(7)[7] == 63
  {
  }

  /** The table follows the walk from the first place to the last, where it then stays. */
  lemma ZigzagWalk(k: nat)
    requires k < 79
    ensures DEZIGZAG[0] == 0 && DEZIGZAG[63] == 63
    ensures k < 63 ==> DEZIGZAG[k + 1] == NextPlace(DEZIGZAG[k])
    ensures k >= 63 ==> DEZIGZAG[k] == 63
  {
    hide Zigzag, NextPlace;
    UpperRows(0, 0);
    LowerRows(7, 7);
    if k < 63 {
      if k < 32 { UpperRows(k / 8, k % 8); } else { LowerRows(k / 8, k % 8); }
      assert DEZIGZAG[k] == Zigzag(k / 8)[k % 8] && DEZIGZAG[k + 1] == Zigzag((k + 1) / 8)[(k + 1) % 8];
    }
  }

  /** The cast to short. */
  function Short(x: int): (r: int)
    ensures -0x8000 <= r < 0x8000 && (x - r) % 0x1_0000 == 0
  {
    var m := x % 0x1_0000;
    if m < 0x8000 then m else m - 0x1_0000
  }

  predicate Block(data: seq<int>, dequant: seq<nat>) { |data| == 64 && |dequant| == 64 }

  /** A coefficient, dequantised, at place `k` of the zigzag order. */
  function PutAt(data: seq<int>, dequant: seq<nat>, k: nat, v: int): (r: seq<int>)
    requires Block(data, dequant) && k < 79
    ensures |r| == 64
  {
    var zig := DEZIGZAG[k];
    data[zig := Short(v * dequant[zig])]
  }

  /** After one coefficient, or at the end: whether no code was bad, the block, the reader, the next place. */
  datatype Result = Result(ok: bool, data: seq<int>, s: State, k: nat)

  /** One coefficient by a symbol and then its magnitude. */
  ghost function SlowTurn(s: State, h: Tables, k: nat, data: seq<int>, dequant: seq<nat>): (r: Result)
    requires Word32(Filled(s, 16)) && Shaped(h) && Block(data, dequant) && k < 64
    ensures r.k > k && |r.data| == 64
  {
    var (rs, s1) := HuffDecode(s, h);
    if rs < 0 then Result(false, data, s1, 64)
    else
      var n, run := rs % 16, rs / 16;
      if n == 0 then Result(true, data, s1, if rs != 0xf0 then 64 else k + 16)
      else
        var (v, s2) := ExtendReceive(s1, n);
        Result(true, PutAt(data, dequant, k + run, v), s2, k + run + 1)
  }

  /** One turn of the loop without the combined table. */
  ghost function PlainTurn(s: State, h: Tables, k: nat, data: seq<int>, dequant: seq<nat>): (r: Result)
    requires Padded(s) && Shaped(h) && Block(data, dequant) && k < 64
    ensures r.k > k && |r.data| == 64
  {
    FilledPadded(s, 16);
    FilledPadded(Filled(s, 16), 16);
    SlowTurn(Filled(s, 16), h, k, data, dequant)
  }

  /** One turn of the loop with it. */
  ghost function FastTurn(s: State, h: Tables, k: nat, data: seq<int>, dequant: seq<nat>): (r: Result)
    requires Padded(s) && Shaped(h) && Block(data, dequant) && k < 64
    ensures r.k > k && |r.data| == 64
  {
    FilledPadded(s, 16);
    var s0 := Filled(s, 16);
    var r := FastAc(h, Peek(s0.buffer));
    if r == 0 then PlainTurn(s, h, k, data, dequant)
    else
      var (run, v, t) := FastStep(s0, r);
      Result(true, PutAt(data, dequant, k + run, v), t, k + run + 1)
  }

  /** States that differ, if at all, in how many zeros they think are left after the end of the data. */
  ghost predicate Alike(s: State, t: State) {
    t == s.(bits := t.bits) && (s.bits == t.bits || s.nomore)
  }

  ghost predicate Same(a: Result, b: Result) {
    a.ok == b.ok && a.data == b.data && a.k == b.k && Alike(a.s, b.s)
  }

  lemma FilledAlike(s: State, t: State, need: nat)
    requires Alike(s, t) && need <= 16
    ensures Alike(Filled(s, need), Filled(t, need))
  {
    hide Grow;
    if s.nomore && s.bits <= 24 { GrowZeros(s); }
    if t.nomore && t.bits <= 24 { GrowZeros(t); }
  }

  /** Filling twice gives sixteen bits. */
  lemma FilledTwice(s: State)
    requires Padded(s)
    ensures var t := Filled(Filled(s, 16), 16); Padded(t) && Word32(t) && t.bits >= 16
  {
    hide Grow, Padded;
    FilledPadded(s, 16);
    var s0 := Filled(s, 16);
    FilledPadded(s0, 16);
    if s0.bits < 16 { GrowZeros(s0); }
  }

  lemma DecodedAlike(s: State, t: State, h: Tables)
    requires Alike(s, t) && Word32(s) && Word32(t) && s.bits >= 16 && t.bits >= 16 && Shaped(h)
    ensures Decoded(s, h).0 == Decoded(t, h).0 && Alike(Decoded(s, h).1, Decoded(t, h).1)
  {
    hide Top, Shl, Peek, Pow2;
  }

  /** A symbol that is found leaves a proper state. */
  lemma DecodedPadded(s: State, h: Tables)
    requires Padded(s) && Word32(s) && Shaped(h) && Decoded(s, h).0 >= 0
    ensures Padded(Decoded(s, h).1)
  {
    hide Top, Shl, Peek, Pow2, Padded;
    var n := s.bits - Decoded(s, h).1.bits;
    ShlPadded(s, n);
  }

  lemma ReceiveIs(s: State, n: nat)
    requires Padded(s) && 0 < n <= 15
    ensures var s1 := Filled(s, n); ExtendReceive(s, n).1 == s1.(buffer := Shl(32, s1.buffer, n), bits := s1.bits - n)
    ensures Padded(ExtendReceive(s, n).1)
  {
    hide Pow2, Low, Rotate, Top, Shl, Grow, Padded;
    FilledPadded(s, n);
    RotateSplits(Filled(s, n).buffer, n);
    ShlPadded(Filled(s, n), n);
  }

  lemma ReceiveAlike(s: State, t: State, n: nat)
    requires Alike(s, t) && 0 < n <= 15
    ensures ExtendReceive(s, n).0 == ExtendReceive(t, n).0 && Alike(ExtendReceive(s, n).1, ExtendReceive(t, n).1)
  {
    hide Pow2, Low, Rotate, Top, Filled;
    FilledAlike(s, t, n);
  }

  lemma PlainTurnAlike(s: State, t: State, h: Tables, k: nat, data: seq<int>, dequant: seq<nat>)
    requires Alike(s, t) && Padded(s) && Padded(t) && Shaped(h) && Block(data, dequant) && k < 64
    ensures Same(PlainTurn(s, h, k, data, dequant), PlainTurn(t, h, k, data, dequant))
  {
    hide Padded, Decoded, ExtendReceive, Filled, Shaped, PutAt, Short;
    FilledTwice(s);
    FilledTwice(t);
    FilledAlike(s, t, 16);
    FilledAlike(Filled(s, 16), Filled(t, 16), 16);
    var s0, t0 := Filled(Filled(s, 16), 16), Filled(Filled(t, 16), 16);
    DecodedAlike(s0, t0, h);
    var (rs, s1) := Decoded(s0, h);
    if rs >= 0 && rs % 16 != 0 { ReceiveAlike(s1, Decoded(t0, h).1, rs % 16); }
  }

  lemma PlainTurnPadded(s: State, h: Tables, k: nat, data: seq<int>, dequant: seq<nat>)
    requires Padded(s) && Shaped(h) && Block(data, dequant) && k < 64
    ensures var r := PlainTurn(s, h, k, data, dequant); r.ok ==> Padded(r.s)
  {
    hide Padded, Decoded, ExtendReceive, Filled, Shaped, PutAt, Short;
    FilledTwice(s);
    var s0 := Filled(Filled(s, 16), 16);
    var (rs, s1) := Decoded(s0, h);
    if rs >= 0 {
      DecodedPadded(s0, h);
      if rs % 16 != 0 { ReceiveIs(s1, rs % 16); }
    }
  }

  /** A turn with the table does what the turn without it does. */
  lemma TurnAgrees(s: State, h: Tables, k: nat, data: seq<int>, dequant: seq<nat>)
    requires Padded(s) && Shaped(h) && Block(data, dequant) && k < 64
    ensures var r := FastTurn(s, h, k, data, dequant);
      Same(r, PlainTurn(s, h, k, data, dequant)) && (r.ok ==> Padded(r.s))
  {
    hide Padded, Decoded, ExtendReceive, Filled, Shaped, PutAt, Short, FastAc, Peek, Shl;
    FilledPadded(s, 16);
    PlainTurnPadded(s, h, k, data, dequant);
    var s0 := Filled(s, 16);
    var r := FastAc(h, Peek(s0.buffer));
    if r != 0 {
      FastAcAgrees(s, h);
      ShlPadded(s0, r % 16);
    }
  }

  /** The AC loop of stbi__jpeg_decode_block, with the combined table. */
  ghost function FastLoop(s: State, h: Tables, k: nat, data: seq<int>, dequant: seq<nat>): (r: Result)
    requires Padded(s) && Shaped(h) && Block(data, dequant) && k < 64
    ensures |r.data| == 64
    decreases 64 - k
  {
    TurnAgrees(s, h, k, data, dequant);
    var r := FastTurn(s, h, k, data, dequant);
    if r.ok && r.k < 64 then FastLoop(r.s, h, r.k, r.data, dequant) else r
  }

  /** The same loop decoding every coefficient in two steps. */
  ghost function PlainLoop(s: State, h: Tables, k: nat, data: seq<int>, dequant: seq<nat>): (r: Result)
    requires Padded(s) && Shaped(h) && Block(data, dequant) && k < 64
    ensures |r.data| == 64
    decreases 64 - k
  {
    PlainTurnPadded(s, h, k, data, dequant);
    var r := PlainTurn(s, h, k, data, dequant);
    if r.ok && r.k < 64 then PlainLoop(r.s, h, r.k, r.data, dequant) else r
  }

  /** From states that are alike the two loops write the same coefficients, fail on the same codes and end
      in states that are alike: the same state, unless the data had ended. */
  lemma {:induction false} LoopsAgree(s: State, t: State, h: Tables, k: nat, data: seq<int>, dequant: seq<nat>)
    requires Alike(s, t) && Padded(s) && Padded(t) && Shaped(h) && Block(data, dequant) && k < 64
    ensures Same(FastLoop(s, h, k, data, dequant), PlainLoop(t, h, k, data, dequant))
    decreases 64 - k
  {
    hide Padded, FastTurn, PlainTurn, Shaped;
    TurnAgrees(s, h, k, data, dequant);
    PlainTurnAlike(s, t, h, k, data, dequant);
    PlainTurnPadded(t, h, k, data, dequant);
    var r, p := FastTurn(s, h, k, data, dequant), PlainTurn(t, h, k, data, dequant);
    if r.ok && r.k < 64 { LoopsAgree(r.s, p.s, h, r.k, r.data, dequant); }
  }

  /** The coefficients that a block codes from place `k` on (section F.2.2.2 of ITU-T T.81): a symbol stands
      for a run of zeros and then a coefficient, the symbol 0xf0 for sixteen zeros, and any other symbol of
      size 0 ends the block. A zero, None, leaves its place as it was. */
  ghost function Coefficients(s: State, h: Tables, k: nat): (r: seq<Option<int>>)
    requires Padded(s) && Shaped(h) && k < 64
    ensures |r| <= 79 - k
    decreases 64 - k
  {
    TurnReads(s, h, k);
    var (rs, s1) := HuffDecode(Filled(s, 16), h);
    if rs < 0 then []
    else if rs % 16 == 0 then
      if rs == 0xf0 then Zeros(16) + (if k + 16 < 64 then Coefficients(s1, h, k + 16) else []) else []
    else
      var (v, s2) := ExtendReceive(s1, rs % 16);
      var n := rs / 16 + 1;
      Zeros(rs / 16) + [Some(v)] + (if k + n < 64 then Coefficients(s2, h, k + n) else [])
  }

  function Zeros(n: nat): (r: seq<Option<int>>)
    ensures |r| == n
  {
    seq(n, _ => None)
  }

  lemma TurnReads(s: State, h: Tables, k: nat)
    requires Padded(s) && Shaped(h)
    ensures Word32(Filled(Filled(s, 16), 16))
    ensures var (rs, s1) := HuffDecode(Filled(s, 16), h);
      rs >= 0 ==> rs / 16 <= 15 && Padded(s1) && (rs % 16 != 0 ==> Padded(ExtendReceive(s1, rs % 16).1))
  {
    hide Padded, Decoded, ExtendReceive, Filled, Shaped;
    FilledTwice(s);
    var s0 := Filled(Filled(s, 16), 16);
    var (rs, s1) := Decoded(s0, h);
    if rs >= 0 {
      DecodedPadded(s0, h);
      if rs % 16 != 0 { ReceiveIs(s1, rs % 16); }
    }
  }

  /** Coefficients put into the block, one place after the other. */
  function PutAll(data: seq<int>, dequant: seq<nat>, k: nat, cs: seq<Option<int>>): (r: seq<int>)
    requires Block(data, dequant) && k + |cs| <= 79
    ensures |r| == 64
    decreases |cs|
  {
    if cs == [] then data
    else PutAll(if cs[0].Some? then PutAt(data, dequant, k, cs[0].value) else data, dequant, k + 1, cs[1..])
  }

  lemma {:induction false} ZerosKeep(data: seq<int>, dequant: seq<nat>, k: nat, n: nat, cs: seq<Option<int>>)
    requires Block(data, dequant) && k + n + |cs| <= 79
    ensures PutAll(data, dequant, k, Zeros(n) + cs) == PutAll(data, dequant, k + n, cs)
    decreases n
  {
    if n == 0 {
      assert Zeros(0) + cs == cs;
    } else {
      assert (Zeros(n) + cs)[1..] == Zeros(n - 1) + cs;
      ZerosKeep(data, dequant, k + 1, n - 1, cs);
    }
  }

  /** A run of zeros and then a coefficient. */
  lemma RunPuts(data: seq<int>, dequant: seq<nat>, k: nat, n: nat, v: int, cs: seq<Option<int>>)
    requires Block(data, dequant) && k + n + 1 + |cs| <= 79
    ensures PutAll(data, dequant, k, Zeros(n) + [Some(v)] + cs) == PutAll(PutAt(data, dequant, k + n, v), dequant, k + n + 1, cs)
  {
    hide PutAt;
    var rest := [Some(v)] + cs;
    assert Zeros(n) + [Some(v)] + cs == Zeros(n) + rest && rest[1..] == cs;
    ZerosKeep(data, dequant, k, n, rest);
  }

  /** The loop puts every coefficient that is coded at its place of the zigzag order, and nothing else. */
  lemma {:induction false} LoopPuts(s: State, h: Tables, k: nat, data: seq<int>, dequant: seq<nat>)
    requires Padded(s) && Shaped(h) && Block(data, dequant) && k < 64
    ensures PlainLoop(s, h, k, data, dequant).data == PutAll(data, dequant, k, Coefficients(s, h, k))
    decreases 64 - k
  {
    hide Padded, HuffDecode, ExtendReceive, Filled, Shaped, PutAt, Zeros;
    TurnReads(s, h, k);
    PlainTurnPadded(s, h, k, data, dequant);
    var (rs, s1) := HuffDecode(Filled(s, 16), h);
    if rs >= 0 && rs % 16 == 0 && rs == 0xf0 {
      if k + 16 < 64 { LoopPuts(s1, h, k + 16, data, dequant); }
      ZerosKeep(data, dequant, k, 16, if k + 16 < 64 then Coefficients(s1, h, k + 16) else []);
    } else if rs >= 0 && rs % 16 != 0 {
      var (v, s2) := ExtendReceive(s1, rs % 16);
      var run, n := rs / 16, rs / 16 + 1;
      if k + n < 64 { LoopPuts(s2, h, k + n, PutAt(data, dequant, k + run, v), dequant); }
      RunPuts(data, dequant, k, run, v, if k + n < 64 then Coefficients(s2, h, k + n) else []);
    }
  }

  /** What the loop needs: the tables of `lens`, the combined table made from them, and room for a block. */
  ghost predicate Ready(h: Huffman, lens: Lengths, fac: array<int>, data: array<int>, dequant: array<nat>)
    reads h.fast, h.values, h.size, h.maxcode, h.delta, fac
  {
    && h.Decodes(lens) && h.Valid() && data.Length == 64 && dequant.Length == 64 && data != fac && data != h.delta
    && Shaped(TablesOf(h)) && fac.Length == 512 && forall i :: 0 <= i < 512 ==> fac[i] == FastAc(TablesOf(h), i)
  }

  /** The path of the loop without an entry in the combined table. */
  method DecodeSymbol(j: Jpeg, data: array<int>, h: Huffman, ghost lens: Lengths, ghost fac: array<int>,
                      dequant: array<nat>, k: nat) returns (ok: bool, next: nat)
    requires j.Valid() && Word32(Filled(j.Now(), 16)) && Ready(h, lens, fac, data, dequant) && k < 64
    modifies j, data
    ensures j.Valid() && Ready(h, lens, fac, data, dequant) && TablesOf(h) == old(TablesOf(h))
    ensures Result(ok, data[..], j.Now(), next) == SlowTurn(old(j.Now()), TablesOf(h), k, old(data[..]), dequant[..])
  {
    hide Decoded, Filled, ExtendReceive, Shaped, FastAc, Huffman.Decodes, Short;
    next := k;
    ok := true;
    var rs := j.Decode(h, lens);
    if rs < 0 {
      return false, 64;
    }
    var s := rs % 16;
    if s == 0 {
      next := if rs != 0xf0 then 64 else next + 16;
    } else {
      next := next + rs / 16;
      var zig := DEZIGZAG[next];
      next := next + 1;
      var v := j.Receive(s);
      data[zig] := Short(v * dequant[zig]);
    }
  }

  /** The path with an entry `r` in the combined table. */
  method DecodeShort(j: Jpeg, data: array<int>, r: int, dequant: array<nat>, k: nat) returns (next: nat)
    requires j.Valid() && data.Length == 64 && dequant.Length == 64 && k < 64
    modifies j, data
    ensures j.Valid() && j.Now() == FastStep(old(j.Now()), r).2 && next == k + FastStep(old(j.Now()), r).0 + 1
    ensures data[..] == PutAt(old(data[..]), dequant[..], next - 1, r / 256)
  {
    hide Shl, Short;
    next := k + (r / 16) % 16;
    var s := r % 16;
    j.code_buffer := Shl(32, j.code_buffer, s);
    j.code_bits := j.code_bits - s;
    var zig := DEZIGZAG[next];
    next := next + 1;
    data[zig] := Short((r / 256) * dequant[zig]);
  }

  /** The body of the AC loop of stbi__jpeg_decode_block. */
  method DecodeCoefficient(j: Jpeg, data: array<int>, h: Huffman, ghost lens: Lengths, fac: array<int>,
                           dequant: array<nat>, k: nat) returns (ok: bool, next: nat)
    requires j.Valid() && Padded(j.Now()) && Ready(h, lens, fac, data, dequant) && k < 64
    modifies j, data
    ensures j.Valid() && Ready(h, lens, fac, data, dequant) && TablesOf(h) == old(TablesOf(h))
    ensures Result(ok, data[..], j.Now(), next) == FastTurn(old(j.Now()), TablesOf(h), k, old(data[..]), dequant[..])
  {
    hide Padded, Decoded, ExtendReceive, Grow, Shaped, FastAc, Peek, Shl, Top, Huffman.Decodes, Short;
    ghost var s0 := j.Now();
    FilledPadded(s0, 16);
    if j.code_bits < 16 {
      j.GrowBuffer();
    }
    var r := fac[Peek(j.code_buffer)];
    next := k;
    ok := true;
    if r != 0 {
      next := DecodeShort(j, data, r, dequant, k);
    } else {
      FilledPadded(Filled(s0, 16), 16);
      ok, next := DecodeSymbol(j, data, h, lens, fac, dequant, k);
    }
  }

  /** The AC loop: it writes what decoding every coefficient in two steps would write, which is every coded
      coefficient at its place. */
  method DecodeAc(j: Jpeg, data: array<int>, h: Huffman, ghost lens: Lengths, fac: array<int>,
                  dequant: array<nat>) returns (ok: bool)
    requires j.Valid() && Padded(j.Now()) && Ready(h, lens, fac, data, dequant)
    modifies j, data
    ensures j.Valid() && Ready(h, lens, fac, data, dequant)
    ensures var p := PlainLoop(old(j.Now()), TablesOf(h), 1, old(data[..]), dequant[..]);
      ok == p.ok && data[..] == p.data && Alike(j.Now(), p.s)
    ensures data[..] == PutAll(old(data[..]), dequant[..], 1, Coefficients(old(j.Now()), TablesOf(h), 1))
  {
    hide Padded, FastTurn, PlainTurn, Shaped, FastAc, Huffman.Decodes;
    var k: nat := 1;
    ok := true;
    ghost var tables, s0, data0 := TablesOf(h), j.Now(), data[..];
    LoopsAgree(s0, s0, tables, 1, data0, dequant[..]);
    LoopPuts(s0, tables, 1, data0, dequant[..]);
    while ok && k < 64
      invariant j.Valid() && Ready(h, lens, fac, data, dequant) && TablesOf(h) == tables
      invariant ok && k < 64 ==> Padded(j.Now())
      invariant FastLoop(s0, tables, 1, data0, dequant[..]) ==
                if ok && k < 64 then FastLoop(j.Now(), tables, k, data[..], dequant[..]) else Result(ok, data[..], j.Now(), k)
      decreases ok, 64 - k
    {
      TurnAgrees(j.Now(), tables, k, data[..], dequant[..]);
      ok, k := DecodeCoefficient(j, data, h, lens, fac, dequant, k);
    }
  }
}
