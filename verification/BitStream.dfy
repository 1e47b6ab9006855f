/** The bit reader of the zlib decoder, and its Huffman decoding. */
module BitStream {
  import opened Wrappers
  import opened BitOrder
  import opened CanonicalCode
  import opened ZHuffman
  import Words

  /** The bits of a byte string, first byte lowest, as a number; beyond the end they are zero. */
  function Little(s: seq<byte>): nat {
    if s == [] then 0 else s[0] + 256 * Little(s[1..])
  }

  /** Bit `i` of the stream is that of byte `i / 8`, whose lowest bit comes first (section 3.1.1 of RFC 1951). */
  lemma {:induction false} StreamBit(s: seq<byte>, i: nat)
    ensures Drop(Little(s), i) % 2 == if i / 8 < |s| then Drop(s[i / 8], i % 8) % 2 else 0
    decreases |s|
  {
    hide Pow2;
    if s == [] {
      SmallMod(0, Pow2(i));
    } else if i < 8 {
      Words.LowBit(Little(s[1..]), s[0], i);
    } else {
      Words.HighBits(Little(s[1..]), s[0]);
      Words.DropDrop(Little(s), 8, i - 8);
      StreamBit(s[1..], i - 8);
      assert i / 8 == (i - 8) / 8 + 1 && i % 8 == (i - 8) % 8;
    }
  }

  /** The bits still to be read: those in the buffer, then those of the unread bytes. */
  function Unread(code_buffer: nat, num_bits: nat, rest: seq<byte>): nat {
    code_buffer + Pow2(num_bits) * Little(rest)
  }

  lemma LoadByte(cb: nat, nb: nat, rest: seq<byte>, b: byte, rest': seq<byte>)
    requires rest == [] ==> b == 0 && rest' == []
    requires rest != [] ==> b == rest[0] && rest' == rest[1..]
    requires cb < Pow2(nb)
    ensures Unread(cb + b * Pow2(nb), nb + 8, rest') == Unread(cb, nb, rest)
    ensures cb + b * Pow2(nb) < Pow2(nb + 8)
  {
    assert Pow2(8) == 256 by { assert Pow2(4) == 16; Pow2Sum(4, 4); }
    Pow2Sum(nb, 8);
    var p, l := Pow2(nb), Little(rest');
    assert Little(rest) == b + 256 * l;
    Spread(p, b, l);
    assert (b + 1) * p <= 256 * p;
    assert (b + 1) * p == b * p + p;
  }

  lemma Spread(p: nat, b: nat, l: nat)
    ensures p * (b + 256 * l) == b * p + (p * 256) * l
  {
  }

  lemma {:induction false} LittleBound(s: seq<byte>)
    ensures Little(s) < Pow2(8 * |s|)
  {
    if s == [] {
      assert Pow2(0) == 1;
    } else {
      LittleBound(s[1..]);
      Pow2Sum(8, 8 * |s[1..]|);
      assert Pow2(8) == 256 by { assert Pow2(4) == 16; Pow2Sum(4, 4); }
    }
  }

  lemma Above(c: nat, p: nat, l: nat, q: nat)
    requires c < p && l < q
    ensures c + p * l < p * q
  {
    assert p * l + p == p * (l + 1);
    assert p * (q - (l + 1)) >= 0;
    assert p * q == p * (l + 1) + p * (q - (l + 1));
  }

  /** Taking `n` buffered bits off the low end. */
  lemma TakeBits(cb: nat, nb: nat, rest: seq<byte>, n: nat)
    requires n <= nb && cb < Pow2(nb)
    ensures Low(Unread(cb, nb, rest), n) == Low(cb, n)
    ensures Unread(Drop(cb, n), nb - n, rest) == Drop(Unread(cb, nb, rest), n)
    ensures Drop(cb, n) < Pow2(nb - n)
  {
    var d, e, l := Pow2(n), Pow2(nb - n), Little(rest);
    Pow2Sum(n, nb - n);
    assert Pow2(nb) * l == (e * l) * d by { Swap(d, e); Regroup(l, e, d); Swap(l, e); Swap(Pow2(nb), l); }
    QuotientSum(e * l, cb, d);
    Interval(cb, d, e);
    Swap(d, e);
  }

  /** The symbol with whose code a stream begins. */
  ghost predicate Begins(lens: Lengths, bits: nat, r: int) {
    if r == -1 then forall i: nat :: !Matches(lens, bits, i)
    else r >= 0 && Matches(lens, bits, r)
  }

  class BitReader {
    const zbuffer: seq<byte>
    var zpos: nat
    var num_bits: nat
    var code_buffer: nat

    ghost predicate Valid()
      reads this
    {
      zpos <= |zbuffer| && num_bits <= 32 && code_buffer < Pow2(num_bits)
    }

    /** All bits that are still to be read. */
    ghost function Bits(): nat
      reads this
      requires Valid()
    {
      Unread(code_buffer, num_bits, zbuffer[zpos..])
    }

    /** How many bits there are still to be read. */
    function Remaining(): nat
      reads this
      requires Valid()
    {
      num_bits + 8 * (|zbuffer| - zpos)
    }

    lemma RemainingBound()
      requires Valid()
      ensures Bits() < Pow2(Remaining())
    {
      LittleBound(zbuffer[zpos..]);
      Pow2Sum(num_bits, 8 * (|zbuffer| - zpos));
      Above(code_buffer, Pow2(num_bits), Little(zbuffer[zpos..]), Pow2(8 * (|zbuffer| - zpos)));
    }

    constructor (input: seq<byte>)
      ensures Valid() && zbuffer == input && Bits() == Little(input)
    {
      zbuffer := input;
      zpos, num_bits, code_buffer := 0, 0, 0;
      new;
      assert zbuffer[0..] == zbuffer;
    }

    method Get8() returns (b: byte)
      requires zpos <= |zbuffer|
      modifies this`zpos
      ensures zpos <= |zbuffer|
      ensures old(zbuffer[zpos..]) == [] ==> b == 0 && zbuffer[zpos..] == []
      ensures old(zbuffer[zpos..]) != [] ==> b == old(zbuffer[zpos..])[0] && zbuffer[zpos..] == old(zbuffer[zpos..])[1..]
    {
      if zpos >= |zbuffer| {
        return 0;
      }
      b := zbuffer[zpos];
      zpos := zpos + 1;
    }

    /** stbi__fill_bits: at least 25 bits are buffered afterwards, and nothing is lost. */
    method FillBits()
      requires Valid() && num_bits <= 24
      modifies this
      ensures Valid() && num_bits > 24 && Bits() == old(Bits())
    {
      hide Pow2, Low, Drop, Unread, Little;
      while true
        invariant Valid() && num_bits <= 24 && Bits() == old(Bits())
        decreases 32 - num_bits
      {
        ghost var rest := zbuffer[zpos..];
        var b := Get8();
        LoadByte(code_buffer, num_bits, rest, b, zbuffer[zpos..]);
        code_buffer := code_buffer + b * Pow2(num_bits);
        num_bits := num_bits + 8;
        if num_bits > 24 {
          break;
        }
      }
    }

    /** Drop `n` buffered bits. */
    method Skip(n: nat)
      requires Valid() && n <= num_bits
      modifies this`code_buffer, this`num_bits
      ensures Valid() && num_bits == old(num_bits) - n && Bits() == Drop(old(Bits()), n)
    {
      hide Pow2, Low, Drop, Unread, Little;
      TakeBits(code_buffer, num_bits, zbuffer[zpos..], n);
      code_buffer := Drop(code_buffer, n);
      num_bits := num_bits - n;
    }

    /** stbi__zreceive: the next `n` bits, lowest first. */
    method Receive(n: nat) returns (k: nat)
      requires Valid() && n <= 16
      modifies this
      ensures Valid() && k == Low(old(Bits()), n) && Bits() == Drop(old(Bits()), n)
    {
      hide Pow2, Low, Drop, Unread, Little;
      if num_bits < n {
        FillBits();
      }
      TakeBits(code_buffer, num_bits, zbuffer[zpos..], n);
      k := Low(code_buffer, n);
      Skip(n);
    }

    /** The loop of stbi__zhuffman_decode_slowpath: the first length whose bound lies above the window. */
    static method FindLength(z: Huffman, ghost lens: Lengths, k: nat) returns (s: nat)
      requires z.Decodes(lens) && MaxCode(lens, 9) <= k < 0x1_0000
      ensures 10 <= s <= 16 && MaxCode(lens, s - 1) <= k
      ensures s < 16 ==> k < MaxCode(lens, s)
    {
      hide MaxCode, Huffman.Decodes;
      s := ZFAST_BITS + 1;
      MaxAt(z, lens, s);
      while !(k < z.maxcode[s])
        invariant 10 <= s <= 16 && MaxCode(lens, s - 1) <= k
        invariant z.maxcode.Length == 17 && z.maxcode[s] == if s == 16 then 0x1_0000 else MaxCode(lens, s)
        decreases 16 - s
      {
        s := s + 1;
        MaxAt(z, lens, s);
      }
    }

    /** stbi__zhuffman_decode_slowpath, entered when no code of nine bits or fewer matches. The
        length stored for the entry it computes is always the length it has found. */
    method DecodeSlow(z: Huffman, ghost lens: Lengths) returns (r: int)
      requires Valid() && num_bits >= 16 && z.Decodes(lens)
      requires forall i: nat {:trigger Matches(lens, code_buffer, i)} :: Matches(lens, code_buffer, i) ==> lens[i] > 9
      modifies this`code_buffer, this`num_bits
      ensures Valid() && Begins(lens, old(code_buffer), r)
      ensures Bits() == if r == -1 then old(Bits()) else Drop(old(Bits()), lens[r])
    {
      hide Pow2, Low, Drop, Count, CountTo, FirstCode, FirstSymbol, MaxCode, Code, Position, Matches,
        Huffman.Decodes, Unread, Little, BitReverse;
      ghost var cb := code_buffer;
      var k := BitReverse(code_buffer, 16);
      WindowAbove(z, lens, cb);
      var s := FindLength(z, lens, k);
      if s == 16 {
        NoMatch(z, lens, cb);
        return -1;
      }
      ghost var i := SlowEntry(z, lens, cb, s);
      var b := Drop(k, 16 - s) - z.firstcode[s] + z.firstsymbol[s];
      assert z.size[b] == s;
      Skip(s);
      r := z.value[b];
    }

    /** stbi__zhuffman_decode: the symbol whose canonical code begins the stream, and exactly its
        bits are consumed; -1, and nothing is consumed, when there is none. */
    method Decode(z: Huffman, ghost lens: Lengths) returns (r: int)
      requires Valid() && z.Decodes(lens)
      modifies this
      ensures Valid() && Begins(lens, old(Bits()), r)
      ensures Bits() == if r == -1 then old(Bits()) else Drop(old(Bits()), lens[r])
    {
      hide Pow2, Low, Drop, Code, Accepted;
      if num_bits < 16 {
        FillBits();
      }
      SameMatches(lens, code_buffer, num_bits, zbuffer[zpos..]);
      ghost var cb := code_buffer;
      var b := z.fast[code_buffer % 512];
      FastLookup(z, lens, cb);
      if b != 0 {
        var s := b / 512;
        Skip(s);
        return b % 512;
      }
      r := DecodeSlow(z, lens);
    }
  }

  lemma MaxAt(z: Huffman, lens: Lengths, s: nat)
    requires z.Decodes(lens) && 1 <= s <= 16
    ensures z.maxcode.Length == 17 && z.maxcode[s] == if s == 16 then 0x1_0000 else MaxCode(lens, s)
    ensures z.firstcode.Length == 16 && z.firstsymbol.Length == 16
    ensures s <= 15 ==> z.firstcode[s] == FirstCode(lens, s) && z.firstsymbol[s] == FirstSymbol(lens, s)
  {
    hide FastTable, SymbolTable, Proper, Accepted;
    if s <= 15 {
      assert MaxCode(lens, s) == z.maxcode[..][s] && z.firstcode[..][s] == FirstCode(lens, s);
      assert z.firstsymbol[..][s] == FirstSymbol(lens, s);
    }
  }

  /** When no short code matches the window lies above all short codes. */
  lemma WindowAbove(z: Huffman, lens: Lengths, cb: nat)
    requires z.Decodes(lens)
    requires forall i: nat {:trigger Matches(lens, cb, i)} :: Matches(lens, cb, i) ==> lens[i] > 9
    ensures BitReverse(cb, 16) == Window(cb) && MaxCode(lens, 9) <= Window(cb) < 0x1_0000
  {
    hide FastTable, SymbolTable, StartTables, Accepted, MaxCode, Matches, BitReverse, Rev;
    BitReverseIsRev(cb, 16);
    RevBound(16, cb);
    FastSize();
    SomeMatch(lens, cb, 9);
  }

  lemma NoMatch(z: Huffman, lens: Lengths, cb: nat)
    requires z.Decodes(lens) && MaxCode(lens, 15) <= Window(cb)
    ensures forall i: nat :: !Matches(lens, cb, i)
  {
    hide FastTable, SymbolTable, StartTables, Accepted, MaxCode, Rev;
    SomeMatch(lens, cb, 15);
  }

  /** The table entry that the slow path computes is that of the matching symbol. */
  lemma SlowEntry(z: Huffman, lens: Lengths, cb: nat, s: nat) returns (i: nat)
    requires z.Decodes(lens) && 10 <= s <= 15 && MaxCode(lens, s - 1) <= Window(cb) < MaxCode(lens, s)
    ensures Matches(lens, cb, i) && lens[i] == s && z.size.Length == 288 && z.value.Length == 288
    ensures z.firstcode.Length == 16 && z.firstsymbol.Length == 16
    ensures var b := Drop(Window(cb), 16 - s) - z.firstcode[s] + z.firstsymbol[s];
      0 <= b < 288 && z.size[b] == s && z.value[b] == i
  {
    hide FastTable, StartTables, SymbolTable, Accepted, Proper, MaxCode, FirstCode, FirstSymbol, Code, Position, CountTo, Rev, Pow2;
    i := MatchExists(lens, cb, s);
    RevPrefix(16, s, cb);
    EntryAt(z, lens, i);
  }

  lemma EntryAt(z: Huffman, lens: Lengths, i: nat)
    requires z.Decodes(lens) && i < |lens| && 0 < lens[i] <= 15
    ensures Position(lens, i) < 288 && z.size[Position(lens, i)] == lens[i] && z.value[Position(lens, i)] == i
    ensures z.firstcode[lens[i]] == FirstCode(lens, lens[i]) && z.firstsymbol[lens[i]] == FirstSymbol(lens, lens[i])
  {
    MaxAt(z, lens, lens[i]);
  }

  /** What the fast table says about the buffered bits. */
  lemma FastLookup(z: Huffman, lens: Lengths, cb: nat)
    requires z.Decodes(lens)
    ensures var b := z.fast[cb % 512];
      && (b == 0 ==> forall i: nat {:trigger Matches(lens, cb, i)} :: Matches(lens, cb, i) ==> lens[i] > 9)
      && (b != 0 ==> Matches(lens, cb, b % 512) && lens[b % 512] == b / 512 <= 9)
  {
    var x := cb % 512;
    var b := z.fast[x];
    assert FastWord(lens, |lens|, z.fast[..][x], x);
    if b == 0 {
      forall i: nat | Matches(lens, cb, i) ensures lens[i] > 9 {
        if lens[i] <= 9 { ShortMatch(lens, cb, i); }
      }
    } else {
      ShortMatch(lens, cb, b % 512);
    }
  }

  /** With 16 bits buffered the buffer alone decides which code begins the stream. */
  lemma SameMatches(lens: Lengths, cb: nat, nb: nat, rest: seq<byte>)
    requires Proper(lens) && nb >= 16 && cb < Pow2(nb)
    ensures forall i: nat :: Matches(lens, cb, i) <==> Matches(lens, Unread(cb, nb, rest), i)
  {
    forall i: nat ensures Matches(lens, cb, i) <==> Matches(lens, Unread(cb, nb, rest), i) {
      if i < |lens| {
        TakeBits(cb, nb, rest, lens[i]);
        RevLow(lens[i], cb);
        RevLow(lens[i], Unread(cb, nb, rest));
      }
    }
  }
}
