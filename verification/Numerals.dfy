/** Little-endian bit strings as numbers. */
module Numerals {
  import M = Montgomery
  import opened Powers

  function Number(bits: seq<bool>): nat {
    if |bits| == 0 then 0 else (if bits[0] then 1 else 0) + 2 * Number(bits[1..])
  }

  lemma {:induction false} NumberBelow(bits: seq<bool>)
    ensures Number(bits) < Pow2(|bits|)
  {
    if |bits| > 0 { NumberBelow(bits[1..]); }
  }

  /** The low `n` bits of `v`. */
  function Bits(n: nat, v: nat): (bits: seq<bool>)
    ensures |bits| == n
  {
    if n == 0 then [] else [v % 2 == 1] + Bits(n - 1, v / 2)
  }

  lemma {:induction false} NumberOfBits(n: nat, v: nat)
    ensures Number(Bits(n, v)) == v % Pow2(n)
    decreases n
  {
    if n == 0 {
      M.ModUnique(v, v, 0, 1);
    } else {
      NumberOfBits(n - 1, v / 2);
      assert Bits(n, v)[1..] == Bits(n - 1, v / 2);
      var half, p := v / 2, Pow2(n - 1);
      assert half == half / p * p + half % p;
      M.Assoc(half / p, p, 2);
      M.ModUnique(v, half / p, v % 2 + 2 * (half % p), 2 * p);
    }
  }

  lemma {:induction false} BitsOfNumber(bits: seq<bool>)
    ensures Bits(|bits|, Number(bits)) == bits
  {
    if |bits| > 0 {
      BitsOfNumber(bits[1..]);
      assert Number(bits) / 2 == Number(bits[1..]);
      assert bits == [bits[0]] + bits[1..];
    }
  }

  /** A number below `2^n` is the number of its bits. */
  lemma {:induction false} Exact(n: nat, v: nat)
    requires v < Pow2(n)
    ensures Number(Bits(n, v)) == v
  {
    NumberOfBits(n, v);
    M.ModUnique(v, 0, v, Pow2(n));
  }

  lemma {:induction false} NumberDetermines(a: seq<bool>, b: seq<bool>)
    requires |a| == |b| && Number(a) == Number(b)
    ensures a == b
  {
    BitsOfNumber(a);
    BitsOfNumber(b);
  }

  lemma {:induction false} NumberConcat(a: seq<bool>, b: seq<bool>)
    ensures Number(a + b) == Number(a) + Pow2(|a|) * Number(b)
    decreases |a|
  {
    if |a| == 0 {
      assert a + b == b;
    } else {
      NumberConcat(a[1..], b);
      assert (a + b)[1..] == a[1..] + b;
      M.Assoc(2, Pow2(|a| - 1), Number(b));
    }
  }

  /** The low bits are the number modulo a power of two. */
  lemma {:induction false} LowBits(bits: seq<bool>, n: nat)
    requires n <= |bits|
    ensures Number(bits[..n]) == Number(bits) % Pow2(n)
  {
    hide Number, Pow2;
    var low, high := Number(bits[..n]), Number(bits[n..]);
    NumberConcat(bits[..n], bits[n..]);
    assert bits[..n] + bits[n..] == bits;
    NumberBelow(bits[..n]);
    assert Number(bits) == high * Pow2(n) + low by { Flip(Pow2(n), high); }
    M.ModUnique(Number(bits), high, low, Pow2(n));
  }

  lemma {:induction false} Flip(a: int, b: int)
    ensures a * b == b * a
  {
  }

  /** More bits of the same number. */
  lemma {:induction false} BitsSplit(a: nat, b: nat, v: nat, high: nat)
    requires high == v / Pow2(a)
    ensures Bits(a + b, v) == Bits(a, v) + Bits(b, high)
    decreases a
  {
    if a == 0 {
      assert v / 1 == v;
    } else {
      NestedQuotient(v, Pow2(a - 1));
      BitsSplit(a - 1, b, v / 2, high);
    }
  }

  lemma {:induction false} NestedQuotient(v: nat, p: nat)
    requires p > 0
    ensures v / 2 / p == v / (2 * p)
  {
    var half := v / 2;
    var q, r := half / p, half % p;
    assert half == q * p + r;
    M.Assoc(q, 2, p);
    assert v == q * (2 * p) + (2 * r + v % 2) by { TwiceProduct(q, p); }
    M.ModUnique(v, q, 2 * r + v % 2, 2 * p);
  }

  lemma {:induction false} TwiceProduct(q: int, p: int)
    ensures q * (2 * p) == 2 * (q * p)
  {
  }

  lemma {:induction false} BitsModulo(n: nat, v: nat)
    ensures Bits(n, v % Pow2(n)) == Bits(n, v)
  {
    hide Number, Bits, Pow2;
    NumberOfBits(n, v);
    NumberBelow(Bits(n, v));
    Exact(n, v % Pow2(n));
    NumberDetermines(Bits(n, v % Pow2(n)), Bits(n, v));
  }

  lemma {:induction false} NoBits(n: nat)
    ensures Bits(n, 0) == seq(n, _ => false)
  {
    if n > 0 { NoBits(n - 1); }
  }

  /** A single set bit. */
  lemma {:induction false} TopBit(n: nat)
    ensures Bits(n + 1, Pow2(n)) == seq(n, _ => false) + [true]
    decreases n
  {
    if n > 0 { TopBit(n - 1); }
  }
}
