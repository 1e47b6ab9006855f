/** The bits that the JPEG bit buffer supplies, said of the data alone (section B.1.1.5 of ITU-T T.81): a 0xff
    in the data is followed by a zero, or by the code of a marker, and any number of 0xff may stand before either. */
module JpegStream {
  import opened Wrappers
  import opened BitOrder
  import opened CanonicalCode
  import opened JpegHuffman
  import opened Words
  import opened JpegBits
  import ZHuffman

  /** The data bytes before the first marker. */
  ghost function Unstuffed(rest: seq<byte>): seq<byte> {
    if rest == [] then []
    else if rest[0] != 0xff then [rest[0]] + Unstuffed(rest[1..])
    else if |rest| == 1 then [0xff]
    else if rest[1] == 0xff then Unstuffed(rest[1..])
    else if rest[1] == 0 then [0xff] + Unstuffed(rest[2..])
    else []
  }

  /** The first marker, 0 if there is none, and what comes after it. */
  ghost function MarkerOf(rest: seq<byte>): (byte, seq<byte>) {
    if |rest| <= 1 then (0, [])
    else if rest[0] == 0xff && 0 < rest[1] < 0xff then (rest[1], rest[2..])
    else if rest[0] == 0xff && rest[1] == 0 then MarkerOf(rest[2..])
    else MarkerOf(rest[1..])
  }

  /** Bit `i` of a word, and of a byte, the highest first. */
  function WordBit(x: nat, i: nat): bool
    requires i < 32
  {
    Drop(x, 31 - i) % 2 == 1
  }

  function ByteBit(b: byte, j: nat): bool
    requires j < 8
  {
    Drop(b, 7 - j) % 2 == 1
  }

  /** Bit `j` of the data, which zeros without end follow. */
  ghost function DataBit(data: seq<byte>, j: nat): bool {
    j / 8 < |data| && ByteBit(data[j / 8], j % 8)
  }

  ghost function Data(s: State): seq<byte> {
    if s.nomore then [] else Unstuffed(s.rest)
  }

  /** Bit `i` of those that are still to be read: the valid bits of the buffer, and then the data. */
  ghost function StreamBit(s: State, i: nat): bool
    requires s.bits <= 32
  {
    if i < s.bits then WordBit(s.buffer, i) else DataBit(Data(s), i - s.bits)
  }

  /** What follows a 0xff: fill bytes stand for nothing. */
  lemma {:induction false} AfterFill(rest: seq<byte>)
    ensures var (c, rest') := SkipFill(rest);
      && c != 0xff
      && Unstuffed([0xff] + rest) == (if c == 0 then [0xff] + Unstuffed(rest') else [])
      && (c == 0 ==> MarkerOf([0xff] + rest) == MarkerOf(rest'))
      && (c != 0 ==> MarkerOf([0xff] + rest) == (c, rest'))
    decreases |rest|
  {
    var all := [0xff] + rest;
    assert all[1..] == rest;
    if rest != [] {
      assert all[2..] == rest[1..];
      if rest[0] == 0xff {
        AfterFill(rest[1..]);
        assert [0xff] + rest[1..] == rest;
      }
    }
  }

  /** The byte that one turn takes is the first of the data; a marker is taken when there are none left. */
  lemma GrowByteData(s: State)
    requires s.bits <= 24 && !s.nomore
    ensures var (t, stop) := GrowByte(s);
      && (stop ==> Data(s) == [] && t == s.(nomore := true, marker := t.marker, rest := t.rest))
      && (stop ==> t.marker != 0 && (t.marker, t.rest) == MarkerOf(s.rest))
      && (!stop && Data(s) == [] ==> Data(t) == [] && t.buffer == Added(s.buffer, 0, s.bits))
      && (!stop && Data(s) != [] ==> Data(t) == Data(s)[1..] && t.buffer == Added(s.buffer, Data(s)[0], s.bits))
      && (!stop ==> !t.nomore && t.marker == s.marker && MarkerOf(t.rest) == MarkerOf(s.rest))
  {
    hide Added;
    if s.rest != [] && s.rest[0] == 0xff {
      AfterFill(s.rest[1..]);
      assert [0xff] + s.rest[1..] == s.rest;
    }
  }

  /** What the buffer is in units of its lowest valid bit, before and after a byte is added. */
  lemma AddedIs(x: nat, b: byte, n: nat) returns (u: nat)
    requires n <= 24 && x < Pow2(32) && x % Pow2(32 - n) == 0
    ensures x == u * Pow2(32 - n) && Added(x, b, n) == (u * 256 + b) * Pow2(24 - n)
  {
    hide Shl;
    Eight();
    Pow2Sum(8, 24 - n);
    Pow2Sum(n, 32 - n);
    Pow2Sum(n + 8, 24 - n);
    Pow2Sum(n, 8);
    Interval(x, Pow2(32 - n), Pow2(n));
    ShlIs(32, b, 24 - n);
    Pow2Monotone(8, 8 + n);
    SmallMod(b, Pow2(8 + n));
    var r;
    u, r := Euclid(x, Pow2(32 - n));
    Stacked(u, b, Pow2(24 - n), Pow2(n));
  }

  lemma DropShifted(z: nat, y: nat, m: nat, k: nat)
    requires z == y * Pow2(m) && m <= k
    ensures Drop(z, k) == Drop(y, k - m)
  {
    DropDrop(z, m, k - m);
    QuotientIs(z, Pow2(m), y, 0);
  }

  /** The bits of a word with a byte added below its `n` valid ones. */
  lemma AddedBits(x: nat, b: byte, n: nat, i: nat)
    requires n <= 24 && x < Pow2(32) && x % Pow2(32 - n) == 0 && i < n + 8
    ensures WordBit(Added(x, b, n), i) == if i < n then WordBit(x, i) else ByteBit(b, i - n)
  {
    hide Pow2, Drop, Added;
    var u := AddedIs(x, b, n);
    DropShifted(Added(x, b, n), u * 256 + b, 24 - n, 31 - i);
    if i < n {
      HighBits(u, b);
      DropDrop(u * 256 + b, 8, n - 1 - i);
      DropShifted(x, u, 32 - n, 31 - i);
    } else {
      LowBit(u, b, 7 - (i - n));
    }
  }

  lemma ZeroBits(i: nat)
    ensures (i < 32 ==> !WordBit(0, i)) && (i < 8 ==> !ByteBit(0, i))
  {
    if i < 32 { SmallMod(0, Pow2(31 - i)); }
    if i < 8 { SmallMod(0, Pow2(7 - i)); }
  }

  /** The first byte of the data, and the others. */
  lemma DataBits(data: seq<byte>, j: nat)
    requires data != []
    ensures DataBit(data, j) == if j < 8 then ByteBit(data[0], j) else DataBit(data[1..], j - 8)
  {
    hide ByteBit;
    assert j >= 8 ==> j / 8 == (j - 8) / 8 + 1 && j % 8 == (j - 8) % 8;
  }

  /** A byte on the way into the buffer is not lost, nor moved, nor are the others. */
  lemma GrowByteStream(s: State, i: nat)
    requires Padded(s) && s.bits <= 24
    ensures StreamBit(GrowByte(s).0, i) == StreamBit(s, i)
  {
    hide WordBit, ByteBit, DataBit, Added, Unstuffed, SkipFill, MarkerOf, Pow2;
    var (t, stop) := GrowByte(s);
    if s.nomore {
      ZeroAdded(s, i);
    } else {
      GrowByteData(s);
      if !stop { ByteTaken(s, t, i); }
    }
  }

  lemma ZeroAdded(s: State, i: nat)
    requires Padded(s) && s.bits <= 24
    ensures s.bits < 0 ==> Added(s.buffer, 0, s.bits) == s.buffer == 0
    ensures i < 32 && i < s.bits + 8 ==> WordBit(Added(s.buffer, 0, s.bits), i) == (i < s.bits && WordBit(s.buffer, i))
    ensures forall j: nat :: !DataBit([], j)
  {
    hide WordBit, ByteBit, Added;
    if s.bits < 0 {
      SmallMod(s.buffer, Pow2(32));
      NothingAdded(s.buffer, s.bits);
      ZeroBits(i);
    } else if i < s.bits + 8 {
      AddedBits(s.buffer, 0, s.bits, i);
      if i >= s.bits { ZeroBits(i - s.bits); }
    }
  }

  lemma NothingAdded(x: nat, bits: int)
    requires bits <= 24
    ensures Added(x, 0, bits) == x
  {
    ZeroShift(bits);
  }

  lemma ByteTaken(s: State, t: State, i: nat)
    requires Padded(s) && s.bits <= 24 && !s.nomore && !t.nomore && t.bits == s.bits + 8
    requires if Data(s) == [] then Data(t) == [] && t.buffer == Added(s.buffer, 0, s.bits)
             else Data(t) == Data(s)[1..] && t.buffer == Added(s.buffer, Data(s)[0], s.bits)
    ensures StreamBit(t, i) == StreamBit(s, i)
  {
    hide WordBit, ByteBit, DataBit, Added, Data, Pow2;
    if Data(s) == [] {
      ZeroAdded(s, i);
    } else {
      if i < s.bits + 8 { AddedBits(s.buffer, Data(s)[0], s.bits, i); }
      if i >= s.bits { DataBits(Data(s), i - s.bits); }
    }
  }

  /** stbi__grow_buffer_unsafe moves bits from the data to the buffer: those to be read stay the same ones, in
      the same order. If it has come upon a marker, that is the first one, and the place behind it. */
  lemma {:induction false} GrowStream(s: State)
    requires Padded(s) && s.bits <= 24
    ensures Padded(Grow(s)) && forall i: nat :: StreamBit(Grow(s), i) == StreamBit(s, i)
    ensures s.nomore ==> Grow(s) == s.(bits := Grow(s).bits)
    ensures !s.nomore && Grow(s).nomore ==> (Grow(s).marker, Grow(s).rest) == MarkerOf(s.rest) && Grow(s).marker != 0
    ensures !Grow(s).nomore ==> Grow(s).marker == s.marker && MarkerOf(Grow(s).rest) == MarkerOf(s.rest)
    decreases 32 - s.bits
  {
    hide Padded, StreamBit, GrowByte;
    GrowPadded(s);
    GrowBytePadded(s);
    GrowByteKind(s);
    var (t, stop) := GrowByte(s);
    forall i: nat ensures StreamBit(t, i) == StreamBit(s, i) { GrowByteStream(s, i); }
    if s.nomore { GrowZeros(s); }
    if !stop && t.bits <= 24 { GrowStream(t); }
  }

  lemma GrowByteKind(s: State)
    requires s.bits <= 24
    ensures var (t, stop) := GrowByte(s);
      && t.bits <= 32
      && (s.nomore ==> !stop && t.nomore)
      && (!s.nomore && stop ==> t.nomore && t.marker != 0 && (t.marker, t.rest) == MarkerOf(s.rest))
      && (!s.nomore && !stop ==> !t.nomore && t.marker == s.marker && MarkerOf(t.rest) == MarkerOf(s.rest))
  {
    hide Added, MarkerOf, SkipFill;
    if !s.nomore { GrowByteData(s); }
  }

  /** The first bits of a filled buffer are the first ones to be read, zeros behind the end of the data. */
  lemma FilledStream(s: State, need: nat, i: nat)
    requires Padded(s) && need <= 16 && i < need
    ensures WordBit(Filled(s, need).buffer, i) == StreamBit(s, i)
  {
    hide Padded, WordBit, DataBit, Unstuffed, Grow;
    var t := Filled(s, need);
    FilledPadded(s, need);
    PaddedBits(s);
    PaddedBits(t);
    if s.bits < need { GrowStream(s); }
    assert StreamBit(t, i) == StreamBit(s, i);
    if i >= t.bits { BeyondBits(t, i); }
  }

  lemma PaddedBits(s: State)
    requires Padded(s)
    ensures s.bits <= 32
  {
  }

  /** Behind the end of the data only zeros are read. */
  lemma BeyondBits(t: State, i: nat)
    requires Padded(t) && t.nomore && t.bits <= i < 32
    ensures !WordBit(t.buffer, i) && !StreamBit(t, i)
  {
    hide WordBit, Added, Pow2;
    if t.bits < 0 { NegativeZero(t); ZeroBits(i); }
    else if t.bits <= 24 && i < t.bits + 8 { NothingAdded(t.buffer, t.bits); ZeroAdded(t, i); }
    else { LowZeros(t.buffer, t.bits, i); }
  }

  lemma NegativeZero(t: State)
    requires Padded(t) && t.bits < 0
    ensures t.buffer == 0
  {
    SmallMod(t.buffer, Pow2(32));
  }

  /** Below the lowest valid bit a word has only zeros. */
  lemma LowZeros(x: nat, n: nat, i: nat)
    requires n <= i < 32 && x % Pow2(32 - n) == 0
    ensures !WordBit(x, i)
  {
    var u, r := Euclid(x, Pow2(32 - n));
    Pow2Sum(i - n + 1, 31 - i);
    Regroup(u, Pow2(i - n + 1), Pow2(31 - i));
    QuotientIs(x, Pow2(31 - i), u * Pow2(i - n + 1), 0);
    Even(u, Pow2(i - n), 0);
  }

  /** Bits that are used up are the first ones. */
  lemma ShlStream(s: State, n: nat, i: nat)
    requires Padded(s) && n <= 32 && (n > s.bits ==> s.nomore)
    ensures var t := s.(buffer := Shl(32, s.buffer, n), bits := s.bits - n);
      Padded(t) && StreamBit(t, i) == StreamBit(s, i + n)
  {
    hide Unstuffed, DataBit, WordBit, Pow2, Shl;
    ShlPadded(s, n);
    PaddedBits(s);
    if i < s.bits - n { ShlBit(s.buffer, n, i); }
  }

  lemma ShlBit(x: nat, n: nat, i: nat)
    requires i + n < 32
    ensures WordBit(Shl(32, x, n), i) == WordBit(x, i + n)
  {
    hide Pow2, Shl, Low;
    var m := 31 - i - n;
    ShlIs(32, x, n);
    DropShifted(Shl(32, x, n), Low(x, 32 - n), n, 31 - i);
    LowDrop(x, m, i + 1);
    LowOdd(Drop(x, m), i + 1);
  }

  lemma LowOdd(y: nat, k: nat)
    requires k > 0
    ensures Low(y, k) % 2 == y % 2
  {
    var u, r := Euclid(y, Pow2(k));
    assert Pow2(k) == 2 * Pow2(k - 1);
    Even(u, Pow2(k - 1), r);
  }

  /** Decoding a symbol, receiving bits and the combined step use up the first bits of the data and no others:
      as many as the count of valid bits goes down by, after the buffer has been filled. */
  ghost predicate UsesUp(s: State, t: State) {
    t.bits <= s.bits <= 32 && forall i: nat :: StreamBit(t, i) == StreamBit(s, i + (s.bits - t.bits))
  }

  lemma DecodeUses(s: State, h: Tables)
    requires Padded(s) && Shaped(h)
    ensures var s0 := Filled(s, 16);
      && Padded(s0) && (forall i: nat :: StreamBit(s0, i) == StreamBit(s, i))
      && Word32(s0) && (HuffDecode(s, h).0 >= 0 ==> UsesUp(s0, HuffDecode(s, h).1))
  {
    hide Padded, StreamBit, Shl, Top, Grow;
    var s0 := Filled(s, 16);
    FilledPadded(s, 16);
    if s.bits < 16 { PaddedBits(s); GrowStream(s); }
    var (r, t) := HuffDecode(s, h);
    if r >= 0 {
      var n := s0.bits - t.bits;
      PaddedBits(s0);
      forall i: nat ensures StreamBit(t, i) == StreamBit(s0, i + n) { ShlStream(s0, n, i); }
    }
  }

  lemma ReceiveUses(s: State, n: nat)
    requires Padded(s) && 0 < n <= 15
    ensures var s0 := Filled(s, n);
      && Padded(s0) && (forall i: nat :: StreamBit(s0, i) == StreamBit(s, i))
      && UsesUp(s0, ExtendReceive(s, n).1) && s0.bits - ExtendReceive(s, n).1.bits == n
  {
    hide Padded, StreamBit, Shl, Top, Grow, Rotate, Quotient;
    var s0 := Filled(s, n);
    FilledPadded(s, n);
    if s.bits < n { PaddedBits(s); GrowStream(s); }
    PaddedBits(s0);
    RotateSplits(s0.buffer, n);
    var t := ExtendReceive(s, n).1;
    forall i: nat ensures StreamBit(t, i) == StreamBit(s0, i + n) { ShlStream(s0, n, i); }
  }
}
