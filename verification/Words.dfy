/** Words of a fixed width that are read from their top bit: shifts, rotations and top bits. */
module Words {
  import opened BitOrder
  import opened CanonicalCode
  import ZHuffman

  /** The shift to the left of a word of `w` bits. */
  function Shl(w: nat, x: nat, n: nat): nat {
    (x * Pow2(n)) % Pow2(w)
  }

  /** The top `n` bits of a word of `w` bits. */
  function Top(w: nat, x: nat, n: nat): nat
    requires n <= w
  {
    Drop(x, w - n)
  }

  /** The rotation that stbi_lrot makes. */
  function Rotate(w: nat, x: nat, n: nat): nat
    requires n <= w
  {
    Shl(w, x, n) + Top(w, x, n)
  }

  lemma TopBound(w: nat, x: nat, n: nat)
    requires n <= w && x < Pow2(w)
    ensures Top(w, x, n) < Pow2(n)
  {
    Pow2Sum(n, w - n);
    Interval(x, Pow2(w - n), Pow2(n));
  }

  lemma DropDrop(x: nat, a: nat, b: nat)
    ensures Drop(Drop(x, a), b) == Drop(x, a + b)
  {
    Pow2Sum(a, b);
    NestedQuotient(x, Pow2(a), Pow2(b));
  }

  lemma NestedQuotient(x: nat, p: nat, q: nat)
    requires p > 0 && q > 0
    ensures p * q > 0 && Quotient(Quotient(x, p), q) == Quotient(x, p * q)
  {
    ZHuffman.Swap(p, q);
    assert q * p > 0;
    var c := Quotient(x, q * p);
    Interval(x, q * p, c);
    Regroup(c, q, p);
    Regroup(c + 1, q, p);
    Interval(x, p, c * q);
    Interval(x, p, (c + 1) * q);
    Interval(Quotient(x, p), q, c);
  }

  /** Shifting left drops the top bits. */
  lemma ShlIs(w: nat, x: nat, n: nat)
    requires n <= w
    ensures Shl(w, x, n) == Low(x, w - n) * Pow2(n) < Pow2(w)
  {
    var p, m := Pow2(n), Pow2(w - n);
    Pow2Sum(w - n, n);
    LowTimes(x, m, p, Pow2(w));
  }

  lemma Euclid(x: nat, d: nat) returns (q: nat, r: nat)
    requires d > 0
    ensures x == q * d + r && r < d && q == x / d && r == x % d
  {
    q, r := x / d, x % d;
  }

  lemma LowTimes(x: nat, m: nat, p: nat, mp: nat)
    requires m > 0 && p > 0 && mp == m * p > 0
    ensures (x * p) % mp == (x % m) * p < mp
  {
    var q, r := Euclid(x, m);
    TimesOut(q, m, r, p, mp);
    QuotientIs(x * p, mp, q, r * p);
  }

  lemma TimesOut(q: nat, m: nat, r: nat, p: nat, mp: nat)
    requires mp == m * p && r < m && p > 0
    ensures (q * m + r) * p == q * mp + r * p && r * p < mp
  {
    Regroup(q, m, p);
    Scale(r + 1, m, p);
    assert (q * m + r) * p == (q * m) * p + r * p && (r + 1) * p == r * p + p;
  }

  /** The top bits after a shift. */
  lemma TopShl(w: nat, x: nat, a: nat, b: nat)
    requires a + b <= w
    ensures Top(w, Shl(w, x, a), b) == Low(Top(w, x, a + b), b)
  {
    ShlIs(w, x, a);
    var m := w - a - b;
    Pow2Sum(a, m);
    CancelQuotient(Low(x, m + b), Pow2(m), Pow2(a));
    ZHuffman.Swap(Pow2(a), Pow2(m));
    LowDrop(x, m, b);
  }

  lemma CancelQuotient(r: nat, m: nat, p: nat)
    requires m > 0 && p > 0
    ensures m * p > 0 && Quotient(r * p, m * p) == Quotient(r, m)
  {
    var c := Quotient(r, m);
    assert m * p > 0;
    Interval(r, m, c);
    Regroup(c, m, p);
    Regroup(c + 1, m, p);
    Scale(c * m, r, p);
    Scale(r, (c + 1) * m, p);
    Interval(r * p, m * p, c);
  }

  lemma Scale(a: nat, b: nat, p: nat)
    requires p > 0
    ensures (a <= b ==> a * p <= b * p) && (a < b ==> a * p < b * p)
  {
  }

  lemma LowDrop(x: nat, m: nat, b: nat)
    ensures Drop(Low(x, m + b), m) == Low(Drop(x, m), b)
  {
    Pow2Sum(b, m);
    ModQuotient(x, Pow2(m), Pow2(b), Pow2(m + b));
  }

  lemma ModQuotient(x: nat, p: nat, q: nat, d: nat)
    requires p > 0 && q > 0 && d == q * p > 0
    ensures (x % d) / p == (x / p) % q
  {
    var u, r := Euclid(x, d);
    var v, z := Euclid(r, p);
    Interval(r, p, q);
    Nested(u, v, z, p, q);
    QuotientIs(x, p, u * q + v, z);
    QuotientIs(u * q + v, q, u, v);
  }

  /** `(u * q + v) * p + z` is `u` in units of `q * p`. */
  lemma Nested(u: nat, v: nat, z: nat, p: nat, q: nat)
    ensures (u * q + v) * p + z == u * (q * p) + (v * p + z)
  {
    Regroup(u, q, p);
  }

  /** One shift after another. */
  lemma ShlShl(w: nat, x: nat, a: nat, b: nat)
    ensures Shl(w, Shl(w, x, a), b) == Shl(w, x, a + b)
  {
    Pow2Sum(a, b);
    Regroup(x, Pow2(a), Pow2(b));
    ModTimes(x * Pow2(a), Pow2(b), Pow2(w));
  }

  lemma ModTimes(y: nat, p: nat, m: nat)
    requires m > 0
    ensures ((y % m) * p) % m == (y * p) % m
  {
    var q, r := Euclid(y, m);
    Regroup(q, m, p);
    ZHuffman.Swap(m, p);
    Regroup(q, p, m);
    assert (q * m + r) * p == (q * m) * p + r * p;
    QuotientSum(q * p, r * p, m);
  }

  /** The bits of a word in the order in which they are read, the first one lowest. */
  function Ahead(x: nat): nat { Rev(32, x) }

  /** The top bits of a word are the first bits to be read, first bit highest. */
  lemma TopIsAhead(x: nat, n: nat)
    requires x < Pow2(32) && n <= 32
    ensures Top(32, x, n) == Rev(n, Ahead(x))
  {
    RevTwice(32, x);
    SmallMod(x, Pow2(32));
    RevPrefix(32, n, Ahead(x));
  }

  /** A rotation keeps the shifted word and brings the top bits to the low end. */
  lemma RotateSplits(x: nat, n: nat)
    requires x < Pow2(32) && n <= 32
    ensures Low(Rotate(32, x, n), n) == Top(32, x, n)
    ensures Quotient(Rotate(32, x, n), Pow2(n)) * Pow2(n) == Shl(32, x, n)
  {
    ShlIs(32, x, n);
    TopBound(32, x, n);
    QuotientIs(Rotate(32, x, n), Pow2(n), Low(x, 32 - n), Top(32, x, n));
  }

  /** The highest of `n` top bits. */
  lemma TopBit(x: nat, n: nat)
    requires x < Pow2(32) && 0 < n <= 32
    ensures Top(32, x, 1) == 1 <==> Top(32, x, n) >= Pow2(n - 1)
  {
    DropDrop(x, 32 - n, n - 1);
    Interval(Top(32, x, n), Pow2(n - 1), 1);
    TopBound(32, x, 1);
    assert Pow2(1) == 2;
  }

  lemma Eight()
    ensures Pow2(8) == 256
  {
    assert Pow2(4) == 16;
  }

  /** The bits of a number to which a byte has been added at the low end. */
  lemma LowBit(u: nat, b: nat, k: nat)
    requires k <= 7
    ensures Drop(u * 256 + b, k) % 2 == Drop(b, k) % 2
  {
    var p, q := Pow2(7 - k), Pow2(k);
    Eight();
    Pow2Sum(8 - k, k);
    Regroup(u, Pow2(8 - k), q);
    QuotientSum(u * Pow2(8 - k), b, q);
    Even(u, p, Drop(b, k));
  }

  lemma Even(u: nat, p: nat, d: nat)
    ensures (u * (2 * p) + d) % 2 == d % 2
  {
    assert u * (2 * p) == (u * p) * 2;
    QuotientSum(u * p, d, 2);
  }

  lemma HighBits(u: nat, b: nat)
    requires b < 256
    ensures Drop(u * 256 + b, 8) == u
  {
    Eight();
    QuotientIs(u * 256 + b, Pow2(8), u, b);
  }
}
