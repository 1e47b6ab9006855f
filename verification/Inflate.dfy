/** The block decoder of stb_image.h: it expands a compressed block into a growing output buffer. */
module Inflate {
  import opened Wrappers
  import opened BitOrder
  import opened CanonicalCode
  import opened ZHuffman
  import opened BitStream
  import opened Lz77
  import opened BlockEnd

  /** How stbi__parse_huffman_block ends; `Running` is that it does not. */
  datatype Outcome = Done | BadCode | BadDist | NoRoom | Running

  /** No token starts here, because a code is not one of the table's. */
  ghost predicate NoToken(ll: Lengths, dl: Lengths, bits: nat) {
    Begins(ll, bits, -1)
    || exists c: nat :: c < 31 && Matches(ll, bits, 257 + c)
         && Begins(dl, Drop(AfterSymbol(ll, bits, 257 + c), LengthExtra(c)), -1)
  }

  /** The next token would reach back before the start of the output. */
  ghost predicate TooFar(ll: Lengths, dl: Lengths, bits: nat, size: nat) {
    exists t: Token :: Starts(ll, dl, bits, t) && !InWindow(size, t)
  }

  /** The next token does not fit, and the buffer may not or cannot grow to hold it. */
  ghost predicate TooBig(ll: Lengths, dl: Lengths, bits: nat, size: nat, m: Room) {
    exists t: Token :: Starts(ll, dl, bits, t) && !Holds(m, size + Length(t))
  }

  lemma {:induction false} NextBytes(before: seq<byte>, ts: seq<Token>, mid: seq<byte>, t: Token, after: seq<byte>)
    requires ExtendsAll(before, ts, mid) && Extends(mid, t, after) && InWindow(|mid|, t)
    requires AllInWindow(|before|, ts)
    ensures ExtendsAll(before, ts + [t], after) && AllInWindow(|before|, ts + [t])
  {
    hide Length, Distance;
    var us := ts + [t];
    assert us[..|us| - 1] == ts && after[..|after| - Length(t)] == mid;
    SizeAfter(before, ts, mid);
  }

  /** The input decides the block: its tokens, and if their codes are ones that the format defines, its bytes. */
  lemma BlockDecided(ll: Lengths, dl: Lengths, bits: nat, before: seq<byte>,
                     ts: seq<Token>, a: seq<byte>, us: seq<Token>, b: seq<byte>)
    requires Proper(ll) && Proper(dl)
    requires StartsAll(ll, dl, bits, ts) && Matches(ll, AfterAll(ll, dl, bits, ts), 256)
    requires StartsAll(ll, dl, bits, us) && Matches(ll, AfterAll(ll, dl, bits, us), 256)
    requires ExtendsAll(before, ts, a) && ExtendsAll(before, us, b) && AllInWindow(|before|, ts)
    ensures ts == us
    ensures (forall t <- ts :: Defined(t)) ==> a == b
  {
    hide Proper, AllInWindow, ExtendsAll, Matches, Defined;
    BlockUnique(ll, dl, bits, ts, us);
    if forall t <- ts :: Defined(t) {
      DefinedTokens(ll, dl, bits, ts);
      AllBytesUnique(before, ts, a, b);
    }
  }

  /** Tokens whose codes are defined are literals, or copies of 3 to 258 bytes from at most 32768 back. */
  lemma {:induction false} DefinedTokens(ll: Lengths, dl: Lengths, bits: nat, ts: seq<Token>)
    requires StartsAll(ll, dl, bits, ts) && forall t <- ts :: Defined(t)
    ensures forall k :: 0 <= k < |ts| && ts[k].Copy? ==> 3 <= Length(ts[k]) <= 258 && 1 <= Distance(ts[k]) <= 32768
  {
    hide Starts, Distance, Length, Defined;
    if ts != [] {
      var n := |ts| - 1;
      assert ts[n] in ts && forall t <- ts[..n] :: t in ts;
      DefinedTokens(ll, dl, bits, ts[..n]);
      if ts[n].Copy? { DefinedToken(ll, dl, AfterAll(ll, dl, bits, ts[..n]), ts[n]); }
    }
  }

  lemma DefinedToken(ll: Lengths, dl: Lengths, bits: nat, t: Token)
    requires Starts(ll, dl, bits, t) && Defined(t) && t.Copy?
    ensures 3 <= Length(t) <= 258 && 1 <= Distance(t) <= 32768
  {
    hide Pow2, Drop, LengthBase, LengthExtra, DistBase, DistExtra, Rev, Code, Length, Distance;
    DefinedBounds(t);
  }

  /** A table may give a code to symbol 286, which has no meaning in the format: the decoder's table of bases
      gives it the length zero. Where the two tables have no other codes than those of zeros, and the output
      is not empty, the decoder never finishes. */
  lemma EmptyCopies(m: Room)
    requires m.capacity >= 1
    ensures var ll, dl := seq(286, _ => 0) + [1], [1];
      Accepted(ll) && Accepted(dl) && Endless(ll, dl, 0, 1, m)
  {
    var ll: Lengths, dl: Lengths := seq(286, _ => 0) + [1], [1];
    OneCode(ll, 286);
    OneCode(dl, 0);
    assert DistBase(0) == 1 && Size([]) == 0;
    assert EmptyAtZero(ll, dl, 1 + Size([]));
    assert Goes(ll, dl, 0, 1, m, []);
  }

  /** A list with one code, of length one: it is the bit zero. */
  lemma OneCode(lens: Lengths, i: nat)
    requires |lens| == i + 1 && lens[i] == 1 && forall j :: 0 <= j < i ==> lens[j] == 0
    ensures Matches(lens, 0, i) && Accepted(lens)
  {
    NoneOf(lens, i, 1);
    assert Rev(1, 0) == 0;
    forall s: nat | 1 <= s <= 15 ensures Count(lens, s) <= Pow2(s) && Fits(lens, s) {
      NoneOf(lens, i, s);
      assert s == 1 ==> Pow2(s) == 2 && FirstCode(lens, s) == 0;
    }
  }

  class Inflater {
    const input: BitReader
    const z_length: Huffman
    const z_distance: Huffman
    /** Everything from zout_start to zout_end. */
    var buffer: array<byte>
    var zout: nat
    const z_expandable: bool
    /** The largest block that the heap can provide. */
    const heap: nat

    ghost predicate Valid()
      reads this, input
    {
      input.Valid() && zout <= buffer.Length && buffer.Length > 0
    }

    ghost function Output(): seq<byte>
      reads this, buffer
      requires zout <= buffer.Length
    {
      buffer[..zout]
    }

    constructor (input: BitReader, z_length: Huffman, z_distance: Huffman, obuf: array<byte>, expandable: bool, heap: nat)
      requires input.Valid() && obuf.Length > 0
      ensures Valid() && Output() == [] && buffer == obuf && this.input == input
      ensures this.z_length == z_length && this.z_distance == z_distance
      ensures z_expandable == expandable && this.heap == heap
    {
      this.input, this.z_length, this.z_distance := input, z_length, z_distance;
      buffer, zout, z_expandable, this.heap := obuf, 0, expandable, heap;
    }

    /** stbi__zexpand: a larger buffer with the same output, unless it may not or cannot grow. */
    method ZExpand(pos: nat, n: nat) returns (ok: bool)
      requires pos <= buffer.Length && buffer.Length > 0
      modifies this`zout, this`buffer
      ensures zout == pos
      ensures ok <==> z_expandable && Doubled(old(buffer.Length), pos + n) <= heap
      ensures ok ==> fresh(buffer) && buffer.Length == Doubled(old(buffer.Length), pos + n) && buffer[..pos] == old(buffer[..pos])
      ensures !ok ==> buffer == old(buffer)
    {
      zout := pos;
      if !z_expandable {
        return false;
      }
      var limit := buffer.Length;
      while pos + n > limit
        invariant limit > 0 && Doubled(limit, pos + n) == Doubled(buffer.Length, pos + n)
        invariant limit >= buffer.Length
        decreases pos + n - limit
      {
        limit := limit * 2;
      }
      if limit > heap {
        return false;
      }
      var q := new byte[limit];
      forall i | 0 <= i < buffer.Length { q[i] := buffer[i]; }
      assert q[..pos] == buffer[..pos];
      buffer := q;
      ok := true;
    }

    /** The copy loops: a run of one byte when `dist` is 1, else byte by byte from `dist` back. */
    method CopyBytes(pos: nat, len: nat, dist: nat)
      requires dist <= pos && pos + len <= buffer.Length
      modifies buffer
      ensures buffer[..pos + len][..pos] == old(buffer[..pos])
      ensures dist > 0 ==> Repeats(buffer[..pos + len], pos, dist)
    {
      var n: nat := len;
      var out := pos;
      if dist == 1 {
        var v := buffer[pos - 1];
        while n != 0
          invariant out + n == pos + len && pos <= out
          decreases n
          invariant buffer[..pos] == old(buffer[..pos])
          invariant forall k {:trigger buffer[k]} :: pos - 1 <= k < out ==> buffer[k] == v
        {
          buffer[out] := v;
          out := out + 1;
          n := n - 1;
        }
      } else {
        var p := pos - dist;
        while n != 0
          decreases n
          invariant out + n == pos + len && pos <= out && p == out - dist
          invariant buffer[..pos] == old(buffer[..pos])
          invariant dist > 0 ==> forall k {:trigger buffer[k]} :: pos <= k < out ==> buffer[k] == buffer[k - dist]
        {
          buffer[out] := buffer[p];
          p := p + 1;
          out := out + 1;
          n := n - 1;
        }
      }
    }

    /** Room for `n` more bytes after `pos`, growing the buffer if they do not fit. */
    method MakeRoom(pos: nat, n: nat) returns (ok: bool)
      requires pos <= buffer.Length && buffer.Length > 0
      modifies this`zout, this`buffer
      ensures (buffer == old(buffer) || fresh(buffer)) && (zout == pos || zout == old(zout))
      ensures ok <==> Holds(Room(old(buffer.Length), z_expandable, heap), pos + n)
      ensures ok ==> buffer.Length == Doubled(old(buffer.Length), pos + n) && buffer[..pos] == old(buffer[..pos])
      ensures !ok ==> buffer == old(buffer)
    {
      ok := true;
      if pos + n > buffer.Length {
        ok := ZExpand(pos, n);
      }
    }

    /** A literal byte at `pos`. */
    method AppendByte(pos: nat, v: byte) returns (ok: bool)
      requires pos <= buffer.Length && buffer.Length > 0
      modifies this`zout, this`buffer, buffer
      ensures (buffer == old(buffer) || fresh(buffer)) && (zout == pos || zout == old(zout))
      ensures ok <==> Holds(Room(old(buffer.Length), z_expandable, heap), pos + 1)
      ensures ok ==> buffer.Length == Doubled(old(buffer.Length), pos + 1) && Extends(old(buffer[..pos]), Literal(v), buffer[..pos + 1])
      ensures !ok ==> buffer == old(buffer)
    {
      ghost var out := buffer[..pos];
      ok := MakeRoom(pos, 1);
      if ok {
        buffer[pos] := v;
        assert buffer[..pos + 1][..pos] == out;
        LiteralExtends(out, v, buffer[..pos + 1]);
      }
    }

    /** A copy at `pos`. */
    method AppendCopy(pos: nat, len: nat, dist: nat, ghost t: Token) returns (ok: bool)
      requires pos <= buffer.Length && buffer.Length > 0
      requires t.Copy? && dist == Distance(t) <= pos && len == Length(t)
      modifies this`zout, this`buffer, buffer
      ensures (buffer == old(buffer) || fresh(buffer)) && (zout == pos || zout == old(zout))
      ensures ok <==> Holds(Room(old(buffer.Length), z_expandable, heap), pos + len)
      ensures ok ==> buffer.Length == Doubled(old(buffer.Length), pos + len) && Extends(old(buffer[..pos]), t, buffer[..pos + len])
      ensures !ok ==> buffer == old(buffer)
    {
      hide Length, Distance, Extends, Repeats;
      ghost var out := buffer[..pos];
      ok := MakeRoom(pos, len);
      if ok {
        CopyBytes(pos, len, dist);
        CopyExtends(out, t, buffer[..pos + len]);
      }
    }

    /** The part of a copy token after its length code `c`: -1 if there is no distance code, else
        its length and its distance. */
    method DecodeCopy(c: nat, ghost ll: Lengths, ghost dl: Lengths, ghost bits: nat)
      returns (len: int, dist: nat, ghost t: Token)
      requires input.Valid() && z_distance.Decodes(dl) && |dl| <= 32 && c < 31
      requires Matches(ll, bits, 257 + c) && input.Bits() == AfterSymbol(ll, bits, 257 + c)
      modifies input
      ensures input.Valid()
      ensures len == -1 ==> NoToken(ll, dl, bits)
      ensures len != -1 ==> t.Copy? && Starts(ll, dl, bits, t) && len == Length(t) && dist == Distance(t)
      ensures len != -1 ==> input.Bits() == After(ll, dl, bits, t)
    {
      hide Pow2, Low, Drop, Matches, Huffman.Decodes, Unread, ZLengthBase, ZLengthExtra, ZDistBase, ZDistExtra;
      len, dist, t := LengthBase(c), 0, Literal(0);
      ExtraBits(c);
      ghost var e, f := 0, 0;
      if LengthExtra(c) != 0 {
        var k := input.Receive(LengthExtra(c));
        len := len + k;
        e := k;
      }
      ghost var b2 := input.Bits();
      var d := input.Decode(z_distance, dl);
      if d < 0 {
        return -1, 0, t;
      }
      MatchInside(dl, b2, d);
      ExtraBits(d);
      dist := DistBase(d);
      if DistExtra(d) != 0 {
        var k := input.Receive(DistExtra(d));
        dist := dist + k;
        f := k;
      }
      t := Copy(c, e, d, f);
    }

    /** A literal byte that has been read: Running if the block goes on. */
    method LiteralToken(pos: nat, v: byte, ghost ll: Lengths, ghost dl: Lengths, ghost bits: nat, ghost m: Room)
      returns (r: Outcome, next: nat)
      requires Valid() && z_length.Decodes(ll) && z_distance.Decodes(dl) && pos <= buffer.Length
      requires Starts(ll, dl, bits, Literal(v))
      requires m.capacity > 0 && m.expandable == z_expandable && m.heap == heap
      requires Holds(m, pos) && buffer.Length == Doubled(m.capacity, pos)
      modifies this`zout, this`buffer, buffer
      ensures Valid() && (buffer == old(buffer) || fresh(buffer)) && next <= buffer.Length
      ensures z_length.Decodes(ll) && z_distance.Decodes(dl) && input.Bits() == old(input.Bits())
      ensures r == NoRoom || r == Running
      ensures r == NoRoom ==> TooBig(ll, dl, bits, pos, m)
      ensures r == Running ==> next == pos + 1 && Holds(m, next) && Extends(old(buffer[..pos]), Literal(v), buffer[..next])
      ensures buffer.Length == if r == Running then Doubled(old(buffer.Length), next) else old(buffer.Length)
    {
      hide Starts, Extends, TooBig, Huffman.Decodes, Holds, Doubled, Unread;
      RoomLeft(m, pos, pos + 1);
      var ok := AppendByte(pos, v);
      if !ok {
        IsTooBig(ll, dl, bits, Literal(v), pos, m);
        return NoRoom, pos;
      }
      return Running, pos + 1;
    }

    /** The whole of a copy token whose length code `c` has been read: Running if the block goes on. */
    method CopyToken(pos: nat, c: nat, ghost ll: Lengths, ghost dl: Lengths, ghost bits: nat, ghost m: Room)
      returns (r: Outcome, next: nat, ghost t: Token)
      requires Valid() && z_length.Decodes(ll) && z_distance.Decodes(dl) && |dl| <= 32 && c < 31 && pos <= buffer.Length
      requires Matches(ll, bits, 257 + c) && input.Bits() == AfterSymbol(ll, bits, 257 + c)
      requires m.capacity > 0 && m.expandable == z_expandable && m.heap == heap
      requires Holds(m, pos) && buffer.Length == Doubled(m.capacity, pos)
      modifies this`zout, this`buffer, input, buffer
      ensures Valid() && (buffer == old(buffer) || fresh(buffer)) && r != Done && next <= buffer.Length
      ensures z_length.Decodes(ll) && z_distance.Decodes(dl)
      ensures r == BadCode ==> NoToken(ll, dl, bits)
      ensures r == BadDist ==> TooFar(ll, dl, bits, pos)
      ensures r == NoRoom ==> TooBig(ll, dl, bits, pos, m)
      ensures r == Running ==> Starts(ll, dl, bits, t) && InWindow(pos, t) && next == pos + Length(t) && Holds(m, next)
      ensures r == Running ==> input.Bits() == After(ll, dl, bits, t) && Extends(old(buffer[..pos]), t, buffer[..next])
      ensures buffer.Length == if r == Running then Doubled(old(buffer.Length), next) else old(buffer.Length)
    {
      hide Matches, Starts, After, AfterSymbol, Length, Distance, Extends, InWindow, NoToken, TooFar, TooBig, Unread,
        Pow2, Drop, Low, Huffman.Decodes, Holds, Doubled;
      next := pos;
      var len, dist;
      len, dist, t := DecodeCopy(c, ll, dl, bits);
      if len < 0 {
        return BadCode, pos, t;
      }
      if pos < dist {
        IsTooFar(ll, dl, bits, t, pos);
        return BadDist, pos, t;
      }
      Reaches(pos, t);
      RoomLeft(m, pos, pos + len);
      var ok := AppendCopy(pos, len, dist, t);
      if !ok {
        IsTooBig(ll, dl, bits, t, pos, m);
        return NoRoom, pos, t;
      }
      return Running, pos + len, t;
    }

    /** stbi__parse_huffman_block. `ts` are the tokens it has read. Once they outnumber the bits and the bytes
        of room together it never returns: that is the answer Running. */
    method ParseHuffmanBlock(ghost ll: Lengths, ghost dl: Lengths) returns (r: Outcome, ghost ts: seq<Token>)
      requires Valid() && z_length.Decodes(ll) && z_distance.Decodes(dl) && |dl| <= 32
      modifies this, input, buffer
      ensures Valid() && StartsAll(ll, dl, old(input.Bits()), ts) && AllInWindow(old(zout), ts)
      ensures buffer.Length == Doubled(old(buffer.Length), old(zout) + Size(ts))
      ensures var rest := AfterAll(ll, dl, old(input.Bits()), ts);
        match r
        case Done => Matches(ll, rest, 256) && input.Bits() == AfterSymbol(ll, rest, 256)
                     && ExtendsAll(old(Output()), ts, Output())
        case BadCode => NoToken(ll, dl, rest)
        case BadDist => TooFar(ll, dl, rest, old(zout) + Size(ts))
        case NoRoom => TooBig(ll, dl, rest, old(zout) + Size(ts), Room(old(buffer.Length), z_expandable, heap))
        case Running => true
      ensures r == Running <==> Endless(ll, dl, old(input.Bits()), old(zout), Room(old(buffer.Length), z_expandable, heap))
    {
      hide Matches, Starts, StartsAll, After, AfterAll, AfterSymbol, Begins, Length, Distance, Size, Extends, ExtendsAll,
        AllInWindow, InWindow, NoToken, TooFar, TooBig, Repeats, Unread, Pow2, Drop, Low, LengthBase, LengthExtra, DistBase,
        DistExtra, Huffman.Decodes, Holds, Endless, Proper, Goes, Doubled, Reading;
      ghost var bits0, out0, m := input.Bits(), Output(), Room(buffer.Length, z_expandable, heap);
      var pos: nat := zout;
      ts := [];
      TablesProper(z_length, ll);
      TablesProper(z_distance, dl);
      StartReading(ll, dl, bits0, out0, m);
      var bound := input.Remaining() + (if heap > buffer.Length then heap else buffer.Length) + 1;
      ghost var bitCount := input.Remaining();
      assert bits0 < Pow2(bitCount) by { input.RemainingBound(); }
      var steps := 0;
      while steps < bound
        invariant steps == |ts| <= bound
        invariant Valid() && pos <= buffer.Length && (buffer == old(buffer) || fresh(buffer))
        invariant z_length.Decodes(ll) && z_distance.Decodes(dl)
        invariant Reading(ll, dl, bits0, out0, m, ts, input.Bits(), buffer[..pos], buffer.Length)
      {
        ghost var bits := input.Bits();
        ghost var out, room := buffer[..pos], buffer.Length;
        ReadingFacts(ll, dl, bits0, out0, m, ts, bits, out, room);
        var z := input.Decode(z_length, ll);
        SymbolFacts(z_length, ll, dl, bits, z);
        if z < 256 {
          if z < 0 {
            Stops(BadCode, ll, dl, bits0, |out0|, m, ts);
            return BadCode, ts;
          }
          r, pos := LiteralToken(pos, z, ll, dl, bits, m);
          if r != Running {
            Stops(r, ll, dl, bits0, |out0|, m, ts);
            return r, ts;
          }
          ReadingNext(ll, dl, bits0, out0, m, ts, bits, out, room, Literal(z), buffer[..pos]);
          ts := ts + [Literal(z)];
        } else {
          if z == 256 {
            Stops(Done, ll, dl, bits0, |out0|, m, ts);
            zout := pos;
            return Done, ts;
          }
          ghost var t;
          r, pos, t := CopyToken(pos, z - 257, ll, dl, bits, m);
          if r != Running {
            Stops(r, ll, dl, bits0, |out0|, m, ts);
            return r, ts;
          }
          ReadingNext(ll, dl, bits0, out0, m, ts, bits, out, room, t, buffer[..pos]);
          ts := ts + [t];
        }
        steps := steps + 1;
      }
      ReadingFacts(ll, dl, bits0, out0, m, ts, input.Bits(), buffer[..pos], buffer.Length);
      LongRun(ll, dl, bits0, |out0|, m, ts, bitCount);
      return Running, ts;
    }
  }

  /** The loop's state: from `bits0` and `out0` the tokens `ts` have been read and expanded, `bits` are what is
      left, `out` is the output and `capacity` the size of the buffer. */
  ghost predicate Reading(ll: Lengths, dl: Lengths, bits0: nat, out0: seq<byte>, m: Room, ts: seq<Token>,
                          bits: nat, out: seq<byte>, capacity: nat)
  {
    && Proper(ll) && Proper(dl) && m.capacity > 0 && Goes(ll, dl, bits0, |out0|, m, ts) && bits == AfterAll(ll, dl, bits0, ts)
    && ExtendsAll(out0, ts, out) && |out| == |out0| + Size(ts) && capacity == Doubled(m.capacity, |out|)
  }

  lemma StartReading(ll: Lengths, dl: Lengths, bits: nat, out: seq<byte>, m: Room)
    requires Proper(ll) && Proper(dl) && |out| <= m.capacity && m.capacity > 0
    ensures Reading(ll, dl, bits, out, m, [], bits, out, m.capacity)
  {
    NoTokens(ll, dl, bits, out);
  }

  lemma ReadingFacts(ll: Lengths, dl: Lengths, bits0: nat, out0: seq<byte>, m: Room, ts: seq<Token>,
                     bits: nat, out: seq<byte>, capacity: nat)
    requires Reading(ll, dl, bits0, out0, m, ts, bits, out, capacity)
    ensures Proper(ll) && Proper(dl) && m.capacity > 0 && Goes(ll, dl, bits0, |out0|, m, ts) && bits == AfterAll(ll, dl, bits0, ts)
    ensures StartsAll(ll, dl, bits0, ts) && AllInWindow(|out0|, ts) && Holds(m, |out|)
    ensures ExtendsAll(out0, ts, out) && |out| == |out0| + Size(ts) && capacity == Doubled(m.capacity, |out|)
  {
    hide Proper, ExtendsAll, Size, Doubled, StartsAll, AllInWindow, AfterAll, Holds;
  }

  lemma ReadingNext(ll: Lengths, dl: Lengths, bits0: nat, out0: seq<byte>, m: Room, ts: seq<Token>,
                    bits: nat, out: seq<byte>, capacity: nat, t: Token, after: seq<byte>)
    requires Reading(ll, dl, bits0, out0, m, ts, bits, out, capacity) && Starts(ll, dl, bits, t)
    requires Extends(out, t, after) && InWindow(|out|, t) && Holds(m, |out| + Length(t)) && |after| == |out| + Length(t)
    ensures Reading(ll, dl, bits0, out0, m, ts + [t], After(ll, dl, bits, t), after, Doubled(capacity, |after|))
  {
    hide Goes, Proper, Starts, After, AfterAll, ExtendsAll, Extends, InWindow, Length, Size, Holds, Doubled;
    ReadingFacts(ll, dl, bits0, out0, m, ts, bits, out, capacity);
    Append(ll, dl, bits0, out0, ts, out, t, after, m);
    RoomLeft(m, |out|, |after|);
  }

  lemma GoesParts(ll: Lengths, dl: Lengths, bits: nat, size: nat, m: Room, ts: seq<Token>)
    requires Goes(ll, dl, bits, size, m, ts)
    ensures StartsAll(ll, dl, bits, ts) && AllInWindow(size, ts) && Holds(m, size + Size(ts))
  {
  }

  lemma TablesProper(h: Huffman, lens: Lengths)
    requires h.Decodes(lens)
    ensures Proper(lens) && |lens| <= 288
  {
  }

  /** The ways in which a block ends: nothing can follow. */
  lemma DoneEnds(ll: Lengths, dl: Lengths, bits: nat, size: nat, m: Room, ts: seq<Token>)
    requires Proper(ll) && Proper(dl) && Goes(ll, dl, bits, size, m, ts) && Matches(ll, AfterAll(ll, dl, bits, ts), 256)
    ensures !Endless(ll, dl, bits, size, m)
  {
    hide Goes, Rev, Code, Drop, Low, Holds, InWindow, Length, Endless;
    var rest := AfterAll(ll, dl, bits, ts);
    forall t: Token ensures !Starts(ll, dl, rest, t) {
      if Starts(ll, dl, rest, t) { MatchUnique(ll, rest, Symbol(t), 256); }
    }
    Ends(ll, dl, bits, size, m, ts);
  }

  lemma NoTokenEnds(ll: Lengths, dl: Lengths, bits: nat, size: nat, m: Room, ts: seq<Token>)
    requires Proper(ll) && Proper(dl) && Goes(ll, dl, bits, size, m, ts) && NoToken(ll, dl, AfterAll(ll, dl, bits, ts))
    ensures !Endless(ll, dl, bits, size, m)
  {
    hide Goes, Rev, Code, Drop, Low, Holds, InWindow, Length, Endless, LengthExtra, DistExtra;
    var rest := AfterAll(ll, dl, bits, ts);
    forall t: Token ensures !Starts(ll, dl, rest, t) {
      if Starts(ll, dl, rest, t) {
        assert Matches(ll, rest, Symbol(t));
        var c: nat :| c < 31 && Matches(ll, rest, 257 + c) && Begins(dl, Drop(AfterSymbol(ll, rest, 257 + c), LengthExtra(c)), -1);
        MatchUnique(ll, rest, Symbol(t), 257 + c);
      }
    }
    Ends(ll, dl, bits, size, m, ts);
  }

  lemma TooFarEnds(ll: Lengths, dl: Lengths, bits: nat, size: nat, m: Room, ts: seq<Token>)
    requires Proper(ll) && Proper(dl) && Goes(ll, dl, bits, size, m, ts)
    requires TooFar(ll, dl, AfterAll(ll, dl, bits, ts), size + Size(ts))
    ensures !Endless(ll, dl, bits, size, m)
  {
    hide Goes, Starts, Holds, InWindow, Length, Endless, Proper;
    var rest := AfterAll(ll, dl, bits, ts);
    var u: Token :| Starts(ll, dl, rest, u) && !InWindow(size + Size(ts), u);
    forall t: Token | Starts(ll, dl, rest, t) ensures t == u { TokenUnique(ll, dl, rest, t, u); }
    Ends(ll, dl, bits, size, m, ts);
  }

  lemma NoRoomEnds(ll: Lengths, dl: Lengths, bits: nat, size: nat, m: Room, ts: seq<Token>)
    requires Proper(ll) && Proper(dl) && Goes(ll, dl, bits, size, m, ts)
    requires TooBig(ll, dl, AfterAll(ll, dl, bits, ts), size + Size(ts), m)
    ensures !Endless(ll, dl, bits, size, m)
  {
    hide Goes, Starts, Holds, InWindow, Length, Endless, Proper;
    var rest := AfterAll(ll, dl, bits, ts);
    var u: Token :| Starts(ll, dl, rest, u) && !Holds(m, size + Size(ts) + Length(u));
    forall t: Token | Starts(ll, dl, rest, t) ensures t == u { TokenUnique(ll, dl, rest, t, u); }
    Ends(ll, dl, bits, size, m, ts);
  }

  /** Each of the four answers means that the block ends. */
  lemma Stops(r: Outcome, ll: Lengths, dl: Lengths, bits: nat, size: nat, m: Room, ts: seq<Token>)
    requires Proper(ll) && Proper(dl) && Goes(ll, dl, bits, size, m, ts)
    requires var rest := AfterAll(ll, dl, bits, ts);
      match r
      case Done => Matches(ll, rest, 256)
      case BadCode => NoToken(ll, dl, rest)
      case BadDist => TooFar(ll, dl, rest, size + Size(ts))
      case NoRoom => TooBig(ll, dl, rest, size + Size(ts), m)
      case Running => false
    ensures !Endless(ll, dl, bits, size, m)
  {
    hide *;
    match r
    case Done => DoneEnds(ll, dl, bits, size, m, ts);
    case BadCode => NoTokenEnds(ll, dl, bits, size, m, ts);
    case BadDist => TooFarEnds(ll, dl, bits, size, m, ts);
    case NoRoom => NoRoomEnds(ll, dl, bits, size, m, ts);
    case Running => assert false;
  }

  lemma ExtraBits(c: nat)
    ensures LengthExtra(c) <= 5 && DistExtra(c) <= 13
    ensures forall bits: nat {:trigger Drop(bits, 0)} {:trigger Low(bits, 0)} :: Low(bits, 0) == 0 && Drop(bits, 0) == bits
  {
  }

  lemma MatchInside(lens: Lengths, bits: nat, i: nat)
    requires Matches(lens, bits, i)
    ensures i < |lens|
  {
  }

  lemma IsTooFar(ll: Lengths, dl: Lengths, bits: nat, t: Token, size: nat)
    requires Starts(ll, dl, bits, t) && t.Copy? && size < Distance(t)
    ensures TooFar(ll, dl, bits, size)
  {
    assert !InWindow(size, t);
  }

  lemma IsTooBig(ll: Lengths, dl: Lengths, bits: nat, t: Token, size: nat, m: Room)
    requires Starts(ll, dl, bits, t) && !Holds(m, size + Length(t))
    ensures TooBig(ll, dl, bits, size, m)
  {
  }

  lemma Reaches(size: nat, t: Token)
    ensures t.Copy? && Distance(t) <= size ==> InWindow(size, t)
    ensures t.Literal? ==> InWindow(size, t)
  {
  }

  /** One more token, in the reading and in the output. */
  lemma Append(ll: Lengths, dl: Lengths, bits: nat, before: seq<byte>, ts: seq<Token>, mid: seq<byte>, t: Token,
               after: seq<byte>, m: Room)
    requires Goes(ll, dl, bits, |before|, m, ts) && Starts(ll, dl, AfterAll(ll, dl, bits, ts), t)
    requires ExtendsAll(before, ts, mid) && Extends(mid, t, after) && InWindow(|mid|, t) && Holds(m, |mid| + Length(t))
    ensures Goes(ll, dl, bits, |before|, m, ts + [t]) && Size(ts + [t]) == Size(ts) + Length(t)
    ensures AfterAll(ll, dl, bits, ts + [t]) == After(ll, dl, AfterAll(ll, dl, bits, ts), t) && ExtendsAll(before, ts + [t], after)
  {
    hide Starts, After, Extends, InWindow, Length, Distance, Holds;
    GoesParts(ll, dl, bits, |before|, m, ts);
    SizeAfter(before, ts, mid);
    OneMore(ll, dl, bits, |before|, m, ts, t);
    NextBytes(before, ts, mid, t, after);
  }

  lemma NoTokens(ll: Lengths, dl: Lengths, bits: nat, out: seq<byte>)
    ensures StartsAll(ll, dl, bits, []) && AfterAll(ll, dl, bits, []) == bits
    ensures ExtendsAll(out, [], out) && AllInWindow(|out|, []) && Size([]) == 0
  {
  }

  /** What the decoded literal/length symbol says about the next token. */
  lemma SymbolFacts(h: Huffman, ll: Lengths, dl: Lengths, bits: nat, z: int)
    requires h.Decodes(ll) && Begins(ll, bits, z)
    ensures z >= -1 && (z == -1 ==> NoToken(ll, dl, bits))
    ensures 0 <= z < 256 ==> Starts(ll, dl, bits, Literal(z)) && After(ll, dl, bits, Literal(z)) == AfterSymbol(ll, bits, z)
    ensures 0 <= z < 256 ==> Length(Literal(z)) == 1 && forall n: nat :: InWindow(n, Literal(z))
    ensures z >= 0 ==> Matches(ll, bits, z) && z < 288 && Drop(bits, ll[z]) == AfterSymbol(ll, bits, z)
  {
    hide Code, Pow2, Drop, Rev;
  }

  lemma LiteralExtends(out: seq<byte>, v: byte, after: seq<byte>)
    requires |after| == |out| + 1 && after[..|out|] == out && after[|out|] == v
    ensures Extends(out, Literal(v), after)
  {
  }

  lemma CopyExtends(out: seq<byte>, t: Token, after: seq<byte>)
    requires t.Copy? && Distance(t) <= |out| && |after| == |out| + Length(t) && after[..|out|] == out
    requires Distance(t) > 0 ==> Repeats(after, |out|, Distance(t))
    ensures Extends(out, t, after)
  {
    hide Length, Distance;
  }
}
