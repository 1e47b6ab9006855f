/** The reference reading of a compressed DEFLATE block (section 3.2.5 of RFC 1951): the tokens that
    a bit stream spells, and the bytes that a run of tokens stands for. */
module Lz77 {
  import opened Wrappers
  import opened BitOrder
  import opened CanonicalCode

  /** A copy names its length and distance codes, each with the value of its extra bits. */
  datatype Token = Literal(value: byte) | Copy(lengthCode: nat, lengthExtra: nat, distCode: nat, distExtra: nat)

  function ZLengthBase(): seq<nat> {
    [3, 4, 5, 6, 7, 8, 9, 10, 11, 13, 15, 17, 19, 23, 27, 31, 35, 43, 51, 59,
     67, 83, 99, 115, 131, 163, 195, 227, 258, 0, 0]
  }

  function ZLengthExtra(): seq<nat> {
    [0, 0, 0, 0, 0, 0, 0, 0, 1, 1, 1, 1, 2, 2, 2, 2, 3, 3, 3, 3, 4, 4, 4, 4, 5, 5, 5, 5, 0, 0, 0]
  }

  function ZDistBase(): seq<nat> {
    [1, 2, 3, 4, 5, 7, 9, 13, 17, 25, 33, 49, 65, 97, 129, 193, 257, 385, 513, 769,
     1025, 1537, 2049, 3073, 4097, 6145, 8193, 12289, 16385, 24577, 0, 0]
  }

  function ZDistExtra(): seq<nat> {
    [0, 0, 0, 0, 1, 1, 2, 2, 3, 3, 4, 4, 5, 5, 6, 6, 7, 7, 8, 8, 9, 9, 10, 10, 11, 11, 12, 12, 13, 13, 0, 0]
  }

  function LengthBase(c: nat): nat { if c < 31 then ZLengthBase()[c] else 0 }
  function LengthExtra(c: nat): nat { if c < 31 then ZLengthExtra()[c] else 0 }
  function DistBase(d: nat): nat { if d < 32 then ZDistBase()[d] else 0 }
  function DistExtra(d: nat): nat { if d < 32 then ZDistExtra()[d] else 0 }

  function Length(t: Token): nat {
    if t.Literal? then 1 else LengthBase(t.lengthCode) + t.lengthExtra
  }

  function Distance(t: Token): nat
    requires t.Copy?
  {
    DistBase(t.distCode) + t.distExtra
  }

  /** Both codes of the token are ones that the format defines. */
  predicate Defined(t: Token) {
    t.Copy? ==> t.lengthCode < 29 && t.distCode < 30
  }

  /** The stream after the code of symbol `i`. */
  function AfterSymbol(lens: Lengths, bits: nat, i: nat): nat {
    if i < |lens| then Drop(bits, lens[i]) else bits
  }

  /** The stream begins with this token. */
  predicate Starts(ll: Lengths, dl: Lengths, bits: nat, t: Token) {
    match t
    case Literal(v) => Matches(ll, bits, v)
    case Copy(c, e, d, f) =>
      var b1 := AfterSymbol(ll, bits, 257 + c);
      var b2 := Drop(b1, LengthExtra(c));
      && Matches(ll, bits, 257 + c) && e == Low(b1, LengthExtra(c))
      && Matches(dl, b2, d) && f == Low(AfterSymbol(dl, b2, d), DistExtra(d))
  }

  function After(ll: Lengths, dl: Lengths, bits: nat, t: Token): nat {
    match t
    case Literal(v) => AfterSymbol(ll, bits, v)
    case Copy(c, e, d, f) =>
      Drop(AfterSymbol(dl, Drop(AfterSymbol(ll, bits, 257 + c), LengthExtra(c)), d), DistExtra(d))
  }

  function AfterAll(ll: Lengths, dl: Lengths, bits: nat, ts: seq<Token>): nat {
    if ts == [] then bits else After(ll, dl, AfterAll(ll, dl, bits, ts[..|ts| - 1]), ts[|ts| - 1])
  }

  /** The stream begins with these tokens. */
  predicate StartsAll(ll: Lengths, dl: Lengths, bits: nat, ts: seq<Token>) {
    ts == [] || (StartsAll(ll, dl, bits, ts[..|ts| - 1])
      && Starts(ll, dl, AfterAll(ll, dl, bits, ts[..|ts| - 1]), ts[|ts| - 1]))
  }

  /** From place `n` on every byte is the one `d` places before it. */
  predicate Repeats(s: seq<byte>, n: nat, d: nat)
    requires d <= n
  {
    forall k {:trigger s[k]} :: n <= k < |s| ==> s[k] == s[k - d]
  }

  /** `after` is `before` with the bytes of the token: a copied byte is the one `Distance` before it. */
  ghost predicate Extends(before: seq<byte>, t: Token, after: seq<byte>) {
    && |after| == |before| + Length(t) && after[..|before|] == before
    && (t.Literal? ==> after[|before|] == t.value)
    && (t.Copy? && 0 < Distance(t) <= |before| ==> Repeats(after, |before|, Distance(t)))
  }

  ghost predicate ExtendsAll(before: seq<byte>, ts: seq<Token>, after: seq<byte>) {
    if ts == [] then after == before
    else
      var t := ts[|ts| - 1];
      && |after| >= Length(t)
      && Extends(after[..|after| - Length(t)], t, after)
      && ExtendsAll(before, ts[..|ts| - 1], after[..|after| - Length(t)])
  }

  /** The bits decide the token. */
  lemma TokenUnique(ll: Lengths, dl: Lengths, bits: nat, t: Token, u: Token)
    requires Proper(ll) && Proper(dl) && Starts(ll, dl, bits, t) && Starts(ll, dl, bits, u)
    ensures t == u
  {
    hide Matches, Pow2, LengthExtra, DistExtra;
    MatchUnique(ll, bits, Symbol(t), Symbol(u));
    if t.Copy? {
      var b2 := Drop(AfterSymbol(ll, bits, 257 + t.lengthCode), LengthExtra(t.lengthCode));
      MatchUnique(dl, b2, t.distCode, u.distCode);
    }
  }

  function Symbol(t: Token): nat {
    if t.Literal? then t.value else 257 + t.lengthCode
  }

  /** The bits decide how many tokens there are before the end-of-block code, and which. */
  lemma {:induction false} TokensUnique(ll: Lengths, dl: Lengths, bits: nat, ts: seq<Token>, us: seq<Token>)
    requires Proper(ll) && Proper(dl) && StartsAll(ll, dl, bits, ts) && StartsAll(ll, dl, bits, us)
    ensures ts <= us || us <= ts
  {
    hide Proper, Starts, After;
    if ts != [] && us != [] {
      var n, m := |ts| - 1, |us| - 1;
      if n == m {
        TokensUnique(ll, dl, bits, ts[..n], us[..m]);
        assert ts[..n] == us[..m];
        TokenUnique(ll, dl, AfterAll(ll, dl, bits, ts[..n]), ts[n], us[m]);
      } else if n < m {
        TokensUnique(ll, dl, bits, ts, us[..m]);
      } else {
        TokensUnique(ll, dl, bits, ts[..n], us);
      }
    }
  }

  /** A block's end is unique too: no token starts where the end-of-block code does. */
  lemma BlockUnique(ll: Lengths, dl: Lengths, bits: nat, ts: seq<Token>, us: seq<Token>)
    requires Proper(ll) && Proper(dl) && StartsAll(ll, dl, bits, ts) && StartsAll(ll, dl, bits, us)
    requires Matches(ll, AfterAll(ll, dl, bits, ts), 256) && Matches(ll, AfterAll(ll, dl, bits, us), 256)
    ensures ts == us
  {
    TokensUnique(ll, dl, bits, ts, us);
    if ts < us {
      NoTokenAtEnd(ll, dl, bits, ts, us);
    } else if us < ts {
      NoTokenAtEnd(ll, dl, bits, us, ts);
    }
  }

  lemma {:induction false} NoTokenAtEnd(ll: Lengths, dl: Lengths, bits: nat, ts: seq<Token>, us: seq<Token>)
    requires Proper(ll) && StartsAll(ll, dl, bits, us) && ts < us
    ensures !Matches(ll, AfterAll(ll, dl, bits, ts), 256)
  {
    hide After, Matches;
    var m := |us| - 1;
    if |ts| == m {
      var b := AfterAll(ll, dl, bits, ts);
      assert us[..m] == ts;
      if Matches(ll, b, 256) { MatchUnique(ll, b, 256, Symbol(us[m])); }
    } else {
      NoTokenAtEnd(ll, dl, bits, ts, us[..m]);
    }
  }

  /** The tokens decide the bytes. */
  lemma {:induction false} BytesUnique(before: seq<byte>, t: Token, a: seq<byte>, b: seq<byte>)
    requires Extends(before, t, a) && Extends(before, t, b) && (t.Copy? ==> 0 < Distance(t) <= |before|)
    ensures a == b
  {
    hide Distance, LengthBase;
    if t.Copy? {
      SameBytes(before, Distance(t), a, b, |a|);
      assert a == a[..|a|] && b == b[..|a|];
    } else {
      assert a == before + [t.value] == b;
    }
  }

  lemma {:induction false} SameBytes(before: seq<byte>, d: nat, a: seq<byte>, b: seq<byte>, n: nat)
    requires 0 < d <= |before| <= |a| == |b| && a[..|before|] == before == b[..|before|] && n <= |a|
    requires Repeats(a, |before|, d) && Repeats(b, |before|, d)
    ensures a[..n] == b[..n]
  {
    if n > 0 {
      SameBytes(before, d, a, b, n - 1);
      var k := n - 1;
      assert k < |before| ==> a[k] == before[k] == b[k];
      assert k >= |before| ==> a[k] == a[..k][k - d] && b[k] == b[..k][k - d];
    }
  }

  lemma {:induction false} AllBytesUnique(before: seq<byte>, ts: seq<Token>, a: seq<byte>, b: seq<byte>)
    requires ExtendsAll(before, ts, a) && ExtendsAll(before, ts, b)
    requires forall k :: 0 <= k < |ts| && ts[k].Copy? ==> Distance(ts[k]) > 0
    requires AllInWindow(|before|, ts)
    ensures a == b
  {
    hide Length, Distance, Extends;
    if ts != [] {
      var n := |ts| - 1;
      var t := ts[n];
      AllBytesUnique(before, ts[..n], a[..|a| - Length(t)], b[..|b| - Length(t)]);
      SizeAfter(before, ts[..n], a[..|a| - Length(t)]);
      BytesUnique(a[..|a| - Length(t)], t, a, b);
    }
  }

  function Size(ts: seq<Token>): nat {
    if ts == [] then 0 else Size(ts[..|ts| - 1]) + Length(ts[|ts| - 1])
  }

  /** The token can be copied from an output of this size. */
  predicate InWindow(size: nat, t: Token) {
    t.Copy? ==> Distance(t) <= size
  }

  /** No copy reaches back before the start of the output. */
  predicate AllInWindow(size: nat, ts: seq<Token>) {
    ts == [] || (AllInWindow(size, ts[..|ts| - 1]) && InWindow(size + Size(ts[..|ts| - 1]), ts[|ts| - 1]))
  }

  lemma {:induction false} SizeAfter(before: seq<byte>, ts: seq<Token>, after: seq<byte>)
    requires ExtendsAll(before, ts, after)
    ensures |after| == |before| + Size(ts)
  {
    if ts != [] {
      SizeAfter(before, ts[..|ts| - 1], after[..|after| - Length(ts[|ts| - 1])]);
    }
  }

  predicate DistanceCode(d: nat, c: nat, e: nat) {
    c < 30 && e < Pow2(DistExtra(c)) && DistBase(c) + e == d
  }

  /** The tables give every distance from 1 to 32768 in exactly one way, and every length from 3 to 258. */
  lemma DistanceCoded(d: nat) returns (c: nat, e: nat)
    requires 1 <= d <= 32768
    ensures DistanceCode(d, c, e) && forall c': nat, e': nat :: DistanceCode(d, c', e') ==> c' == c && e' == e
  {
    hide DistBase, DistExtra, Pow2;
    DistanceEnds();
    c := 0;
    while c < 29 && DistBase(c + 1) <= d
      invariant c < 30 && DistBase(c) <= d
    {
      c := c + 1;
    }
    e := d - DistBase(c);
    if c < 29 { DistanceStep(c, c + 1); }
    forall c': nat, e': nat | DistanceCode(d, c', e') ensures c' == c && e' == e {
      if c' < c { DistanceStep(c', c); }
      if c < c' { DistanceStep(c, c'); }
    }
  }

  lemma DistanceEnds()
    ensures DistBase(0) == 1 && DistBase(29) + Pow2(DistExtra(29)) == 32769
  {
    Powers();
  }

  lemma Powers()
    ensures Pow2(0) == 1 && Pow2(1) == 2 && Pow2(2) == 4 && Pow2(3) == 8 && Pow2(4) == 16 && Pow2(5) == 32
    ensures Pow2(6) == 64 && Pow2(7) == 128 && Pow2(8) == 256 && Pow2(9) == 512 && Pow2(10) == 1024
    ensures Pow2(11) == 2048 && Pow2(12) == 4096 && Pow2(13) == 8192
  {
    assert Pow2(3) == 8;
    assert Pow2(6) == 64;
    assert Pow2(9) == 512;
    assert Pow2(12) == 4096;
  }

  /** The ranges of the distance codes are adjacent. */
  lemma {:induction false} DistanceStep(c: nat, c': nat)
    requires c < c' < 30
    ensures DistBase(c) + Pow2(DistExtra(c)) <= DistBase(c')
    ensures c' == c + 1 ==> DistBase(c) + Pow2(DistExtra(c)) == DistBase(c')
    decreases c' - c
  {
    hide Pow2, DistBase, DistExtra;
    if c' == c + 1 {
      DistanceRules(c);
    } else {
      DistanceStep(c, c' - 1);
      DistanceStep(c' - 1, c');
    }
  }

  predicate LengthCode(n: nat, c: nat, e: nat) {
    c < 29 && e < Pow2(LengthExtra(c)) && LengthBase(c) + e == n
  }

  /** Every length from 3 to 257 has exactly one of the first 28 codes, and 258 has the last one, to itself
      without extra bits. */
  lemma LengthCoded(n: nat) returns (c: nat, e: nat)
    requires 3 <= n <= 258
    ensures LengthCode(n, c, e) && (n == 258 <==> c == 28)
    ensures forall c': nat, e': nat :: LengthCode(n, c', e') && c' <= 28 && (n == 258 <==> c' == 28) ==> c' == c && e' == e
    ensures LengthCode(258, 27, 31)
  {
    hide LengthBase, LengthExtra, Pow2;
    LengthEnds();
    c := 0;
    while c < 28 && LengthBase(c + 1) <= n
      invariant c < 29 && LengthBase(c) <= n
    {
      c := c + 1;
    }
    e := n - LengthBase(c);
    if c < 27 { LengthStep(c, c + 1); }
    if c < 26 { LengthStep(c + 1, 27); }
    forall c': nat, e': nat | LengthCode(n, c', e') && (n == 258 <==> c' == 28) ensures c' == c && e' == e {
      if c' < c < 28 { LengthStep(c', c); }
      if c < c' < 28 { LengthStep(c, c'); }
    }
  }

  lemma LengthEnds()
    ensures LengthBase(0) == 3 && LengthBase(28) == 258 && LengthExtra(28) == 0 && Pow2(0) == 1
    ensures LengthBase(27) + Pow2(LengthExtra(27)) == 259 && LengthBase(27) + 31 == 258
  {
    Powers();
  }

  /** The rules of section 3.2.5 of RFC 1951 that make up its two tables: how many extra bits a code has, and
      that each code's range begins where the one before it ends, the last length being given a code of its own. */
  lemma LengthRules(c: nat)
    requires c < 28
    ensures LengthExtra(c) == if c < 8 then 0 else c / 4 - 1
    ensures c < 27 ==> LengthBase(c + 1) == LengthBase(c) + Pow2(LengthExtra(c))
    ensures LengthBase(0) == 3 && LengthBase(28) == 258 && LengthExtra(28) == 0
  {
    hide Pow2;
    Powers();
  }

  lemma DistanceRules(c: nat)
    requires c < 30
    ensures DistExtra(c) == if c < 4 then 0 else c / 2 - 1
    ensures c < 29 ==> DistBase(c + 1) == DistBase(c) + Pow2(DistExtra(c))
    ensures DistBase(0) == 1
  {
    hide Pow2;
    Powers();
  }

  /** The ranges of the length codes but the last are adjacent. */
  lemma {:induction false} LengthStep(c: nat, c': nat)
    requires c < c' < 28
    ensures LengthBase(c) + Pow2(LengthExtra(c)) <= LengthBase(c')
    ensures c' == c + 1 ==> LengthBase(c) + Pow2(LengthExtra(c)) == LengthBase(c')
    decreases c' - c
  {
    hide Pow2, LengthBase, LengthExtra;
    if c' == c + 1 {
      LengthRules(c);
    } else {
      LengthStep(c, c' - 1);
      LengthStep(c' - 1, c');
    }
  }

  lemma DefinedBounds(t: Token)
    requires t.Copy? && Defined(t)
    requires t.lengthExtra < Pow2(LengthExtra(t.lengthCode)) && t.distExtra < Pow2(DistExtra(t.distCode))
    ensures 3 <= Length(t) <= 258 && 1 <= Distance(t) <= 32768
  {
    hide Pow2, LengthBase, LengthExtra, DistBase, DistExtra;
    LengthRange(t.lengthCode);
    DistanceRange(t.distCode);
  }

  lemma LengthRange(c: nat)
    requires c < 29
    ensures 3 <= LengthBase(c) && LengthBase(c) + Pow2(LengthExtra(c)) <= 259
  {
    hide Pow2;
    Powers();
  }

  lemma DistanceRange(d: nat)
    requires d < 30
    ensures 1 <= DistBase(d) && DistBase(d) + Pow2(DistExtra(d)) <= 32769
  {
    hide Pow2;
    Powers();
  }
}
