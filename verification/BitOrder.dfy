/** Powers of two, and the reversal of bit order that DEFLATE needs: codes are packed from their
    most significant bit, everything else from the least significant one. */
module BitOrder {
  function Pow2(n: nat): (r: nat)
    ensures r > 0
  {
    if n == 0 then 1 else 2 * Pow2(n - 1)
  }

  function Quotient(x: nat, d: nat): nat
    requires d > 0
  {
    x / d
  }

  /** The low `n` bits of a stream, and the stream without them. */
  function Low(bits: nat, n: nat): nat { bits % Pow2(n) }

  function Drop(bits: nat, n: nat): nat { Quotient(bits, Pow2(n)) }

  lemma {:induction false} Pow2Sum(m: nat, n: nat)
    ensures Pow2(m + n) == Pow2(m) * Pow2(n)
  {
    if m > 0 {
      Pow2Sum(m - 1, n);
      assert Pow2(m + n) == 2 * (Pow2(m - 1) * Pow2(n)) == (2 * Pow2(m - 1)) * Pow2(n);
    }
  }

  lemma {:induction false} Pow2Monotone(m: nat, n: nat)
    requires m <= n
    ensures Pow2(m) <= Pow2(n)
  {
    if m < n { Pow2Monotone(m, n - 1); }
  }

  /** The low `n` bits of `x` in reverse order. */
  function Rev(n: nat, x: nat): nat {
    if n == 0 then 0 else Weight(x, n - 1) + Rev(n - 1, x / 2)
  }

  /** The low bit of `x`, moved to place `k`. */
  function Weight(x: nat, k: nat): nat {
    if x % 2 == 1 then Pow2(k) else 0
  }

  lemma {:induction false} RevBound(n: nat, x: nat)
    ensures Rev(n, x) < Pow2(n)
  {
    if n > 0 { RevBound(n - 1, x / 2); }
  }

  /** Division, from the quotient and the remainder. */
  lemma QuotientIs(x: nat, d: nat, q: nat, r: nat)
    requires d > 0 && x == q * d + r && r < d
    ensures x / d == q && x % d == r
  {
    var e: int := x / d - q;
    assert x == (x / d) * d + x % d;
    assert e * d == r - x % d by {
      assert (x / d) * d - q * d == e * d;
    }
    assert e >= 1 ==> e * d >= d;
    assert e <= -1 ==> e * d + d <= 0;
  }

  lemma QuotientSum(a: nat, b: nat, d: nat)
    requires d > 0
    ensures (a * d + b) / d == a + b / d && (a * d + b) % d == b % d
  {
    assert a * d + b == (a + b / d) * d + b % d by {
      assert b == (b / d) * d + b % d;
      assert (a + b / d) * d == a * d + (b / d) * d;
    }
    QuotientIs(a * d + b, d, a + b / d, b % d);
  }

  lemma SmallMod(x: nat, d: nat)
    requires x < d
    ensures x % d == x && x / d == 0
  {
    QuotientIs(x, d, 0, x);
  }

  /** The first bits of the reversed number are its leading digits. */
  lemma {:induction false} RevPrefix(n: nat, m: nat, x: nat)
    requires m <= n
    ensures Rev(n, x) / Pow2(n - m) == Rev(m, x)
  {
    if m == 0 {
      RevBound(n, x);
      SmallMod(Rev(n, x), Pow2(n));
    } else {
      RevPrefix(n - 1, m - 1, x / 2);
      Pow2Sum(m - 1, n - m);
      QuotientSum(Weight(x, m - 1), Rev(n - 1, x / 2), Pow2(n - m));
    }
  }

  lemma Regroup(a: nat, b: nat, c: nat)
    ensures a * (b * c) == (a * b) * c
  {
  }

  /** Only the low bits matter. */
  lemma {:induction false} RevLow(n: nat, x: nat)
    ensures Rev(n, x % Pow2(n)) == Rev(n, x)
  {
    if n > 0 {
      LowHalf(x, n);
      RevLow(n - 1, x / 2);
    }
  }

  lemma LowHalf(x: nat, n: nat)
    requires n > 0
    ensures x % Pow2(n) % 2 == x % 2 && x % Pow2(n) / 2 == x / 2 % Pow2(n - 1)
  {
    var p := Pow2(n - 1);
    var h := x / 2;
    assert h == (h / p) * p + h % p;
    assert x == (h / p) * (2 * p) + (2 * (h % p) + x % 2);
    QuotientIs(x, 2 * p, h / p, 2 * (h % p) + x % 2);
  }

  /** The last bit of the number is the first of its reversal. */
  lemma {:induction false} RevSnoc(n: nat, b: nat, z: nat)
    requires n > 0 && z < Pow2(n - 1)
    ensures Rev(n, Weight(b, n - 1) + z) == 2 * Rev(n - 1, z) + b % 2
  {
    var x := Weight(b, n - 1) + z;
    if n == 1 {
      assert x == b % 2;
    } else {
      assert Weight(b, n - 1) == 2 * Weight(b, n - 2);
      assert x % 2 == z % 2 && x / 2 == Weight(b, n - 2) + z / 2;
      assert Weight(x, n - 1) == 2 * Weight(z, n - 2);
      RevSnoc(n - 1, b, z / 2);
    }
  }

  /** Reversing twice restores the low bits. */
  lemma {:induction false} RevTwice(n: nat, x: nat)
    ensures Rev(n, Rev(n, x)) == x % Pow2(n)
  {
    if n > 0 {
      RevTwice(n - 1, x / 2);
      RevBound(n - 1, x / 2);
      RevSnoc(n, x, Rev(n - 1, x / 2));
      LowHalf(x, n);
    }
  }

  /** A number ends in the reversal of `c` exactly when its reversal is `c`. */
  lemma EndsWith(n: nat, x: nat, c: nat)
    requires c < Pow2(n)
    ensures x % Pow2(n) == Rev(n, c) <==> Rev(n, x) == c
  {
    RevTwice(n, x);
    RevTwice(n, c);
    RevLow(n, x);
    SmallMod(c, Pow2(n));
    hide Rev, Pow2;
  }

  /** stbi__bitreverse16 on a machine word. */
  function BitReverse16(v: bv16): bv16 {
    var a := ((v & 0xAAAA) >> 1) | ((v & 0x5555) << 1);
    var b := ((a & 0xCCCC) >> 2) | ((a & 0x3333) << 2);
    var c := ((b & 0xF0F0) >> 4) | ((b & 0x0F0F) << 4);
    ((c & 0xFF00) >> 8) | ((c & 0x00FF) << 8)
  }

  /** Bit `k` of a word. */
  predicate BitOf(v: bv16, k: nat) {
    if k == 0 then v & 1 == 1 else BitOf(v >> 1, k - 1)
  }

  /** Bit `k` of a word by a shift of `k` places. */
  predicate BitAt(v: bv16, k: bv16)
    requires k < 16
  {
    (v >> k) & 1 == 1
  }

  /** A bit index as a shift count. */
  function Places(k: nat): bv16 {
    if k == 0 then 0 else 1 + Places(k - 1)
  }

  lemma ShiftOnce(v: bv16, k: bv16)
    requires k < 15
    ensures BitAt(v >> 1, k) == BitAt(v, k + 1)
  {
  }

  lemma {:induction false} PlacesFacts(k: nat)
    requires k < 16
    ensures Places(k) <= 15 && Places(k) + Places(15 - k) == 15
    ensures k < 15 ==> Places(k) < 15
    decreases 16 - k
  {
    if k == 15 {
      TopPlace();
    } else {
      PlacesFacts(k + 1);
      assert Places(k + 1) == Places(k) + 1 && Places(15 - k) == Places(14 - k) + 1;
      NoWrap(Places(k), Places(14 - k));
    }
  }

  lemma NoWrap(a: bv16, b: bv16)
    requires a + 1 <= 15 && (a + 1) + b == 15 && a != 0xFFFF
    ensures a <= 15 && a < 15 && a + (b + 1) == 15
  {
  }

  lemma {:induction false} BitOfIsBitAt(v: bv16, k: nat)
    requires k < 16
    ensures Places(k) < 16 && BitOf(v, k) == BitAt(v, Places(k))
  {
    if k > 0 {
      BitOfIsBitAt(v >> 1, k - 1);
      PlacesFacts(k - 1);
      ShiftOnce(v, Places(k - 1));
    }
  }

  lemma SwapNetwork(v: bv16, k: bv16)
    requires k < 16
    ensures BitAt(BitReverse16(v), k) == BitAt(v, 15 - k)
  {
  }

  /** The swap network reverses the bits of the word. */
  lemma BitReversed(v: bv16, k: nat)
    requires k < 16
    ensures BitOf(BitReverse16(v), k) == BitOf(v, 15 - k)
  {
    hide BitReverse16, BitAt, BitOf;
    BitOfIsBitAt(BitReverse16(v), k);
    BitOfIsBitAt(v, 15 - k);
    PlacesFacts(k);
    SwapNetwork(v, Places(k));
    Complement(Places(k), Places(15 - k));
  }

  lemma Complement(a: bv16, b: bv16)
    requires a + b == 15
    ensures b == 15 - a
  {
  }

  /** The number that the low `n` bits of a word stand for. */
  function ToNat(v: bv16, n: nat): nat {
    if n == 0 then 0 else ToNat(v, n - 1) + (if BitOf(v, n - 1) then Pow2(n - 1) else 0)
  }

  /** The word that holds the low `n` bits of a number. */
  function ToWord(x: nat, n: nat): bv16 {
    if n == 0 then 0 else (ToWord(x / 2, n - 1) << 1) | (if x % 2 == 1 then 1 else 0)
  }

  predicate Digit(x: nat, k: nat) {
    if k == 0 then x % 2 == 1 else Digit(x / 2, k - 1)
  }

  lemma ShiftIn(w: bv16, b: bv16)
    requires b <= 1
    ensures ((w << 1) | b) & 1 == b
    ensures (w >> 15) & 1 != 1 ==> ((w << 1) | b) >> 1 == w
  {
  }

  /** Shifting a bit in moves the others up by one. */
  lemma ShiftInBits(w: bv16, b: bv16, k: nat)
    requires b <= 1 && !BitOf(w, 15)
    ensures BitOf((w << 1) | b, k) == if k == 0 then b == 1 else BitOf(w, k - 1)
  {
    BitOfIsBitAt(w, 15);
    TopPlace();
    ShiftIn(w, b);
  }

  lemma WordStep(x: nat, n: nat)
    ensures ToWord(x, 0) == 0
    ensures n > 0 ==> ToWord(x, n) == (ToWord(x / 2, n - 1) << 1) | (if x % 2 == 1 then 1 else 0)
  {
  }

  lemma {:induction false} WordDigit(x: nat, n: nat, k: nat)
    requires n <= 16 && k < 16
    ensures BitOf(ToWord(x, n), k) == (k < n && Digit(x, k))
  {
    hide BitOf, ToWord;
    WordStep(x, n);
    if n == 0 {
      ZeroBits(k);
    } else {
      WordDigit(x / 2, n - 1, 15);
      ShiftInBits(ToWord(x / 2, n - 1), if x % 2 == 1 then 1 else 0, k);
      if k > 0 { WordDigit(x / 2, n - 1, k - 1); }
    }
  }

  lemma TopPlace()
    ensures Places(15) == 15
  {
    assert Places(4) == 4;
    assert Places(8) == 8;
    assert Places(12) == 12;
  }

  lemma {:induction false} ZeroBits(k: nat)
    ensures !BitOf(0, k)
  {
    if k > 0 {
      assert (0 as bv16) >> 1 == 0;
      ZeroBits(k - 1);
    }
  }

  /** The digits of `x` below `n`, in reverse order, up to weight Pow2(m). */
  function Mirror(x: nat, n: nat, m: nat): nat
    requires m <= n
  {
    if m == 0 then 0 else Mirror(x, n, m - 1) + (if Digit(x, n - m) then Pow2(m - 1) else 0)
  }

  lemma {:induction false} MirrorHalf(x: nat, n: nat, m: nat)
    requires m < n
    ensures Mirror(x, n, m) == Mirror(x / 2, n - 1, m)
  {
    if m > 0 { MirrorHalf(x, n, m - 1); }
  }

  lemma {:induction false} MirrorIsRev(x: nat, n: nat)
    ensures Mirror(x, n, n) == Rev(n, x)
  {
    if n > 0 {
      MirrorHalf(x, n, n - 1);
      MirrorIsRev(x / 2, n - 1);
    }
  }

  lemma {:induction false} WordMirror(x: nat, m: nat)
    requires m <= 16
    ensures ToNat(BitReverse16(ToWord(x, 16)), m) == Mirror(x, 16, m)
  {
    if m > 0 {
      WordMirror(x, m - 1);
      BitReversed(ToWord(x, 16), m - 1);
      WordDigit(x, 16, 16 - m);
    }
  }

  /** stbi__bit_reverse, on the numbers that the decoder keeps. */
  function BitReverse(v: nat, bits: nat): nat
    requires bits <= 16
  {
    Drop(ToNat(BitReverse16(ToWord(v, 16)), 16), 16 - bits)
  }

  lemma BitReverseIsRev(v: nat, bits: nat)
    requires bits <= 16
    ensures BitReverse(v, bits) == Rev(bits, v)
  {
    WordMirror(v, 16);
    MirrorIsRev(v, 16);
    RevPrefix(16, bits, v);
  }
}
