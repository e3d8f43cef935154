/** Unsigned big-endian values of bit sequences: the first bit is the most
    significant one, as in Python's `int(bits, 2)`. */
module Binary {

  function Pow2(n: nat): (r: nat)
    ensures r >= 1
  {
    if n == 0 then 1 else 2 * Pow2(n - 1)
  }

  function Bit(b: bool): nat
  {
    if b then 1 else 0
  }

  /** Horner evaluation from the most significant end. */
  function Value(bits: seq<bool>): nat
  {
    if |bits| == 0 then 0 else 2 * Value(bits[..|bits| - 1]) + Bit(bits[|bits| - 1])
  }

  /** `n` bits hold a value below 2^n. */
  lemma {:induction false} ValueBound(bits: seq<bool>)
    ensures Value(bits) < Pow2(|bits|)
  {
    if |bits| > 0 {
      ValueBound(bits[..|bits| - 1]);
    }
  }

  /** Appending `b` shifts the value of `a` left by `|b|` bits. */
  lemma {:induction false} ValueAppend(a: seq<bool>, b: seq<bool>)
    ensures Value(a + b) == Value(a) * Pow2(|b|) + Value(b)
    decreases |b|
  {
    if |b| == 0 {
      assert a + b == a;
    } else {
      var b' := b[..|b| - 1];
      assert (a + b)[..|a + b| - 1] == a + b';
      assert (a + b)[|a + b| - 1] == b[|b| - 1];
      ValueAppend(a, b');
      var va, p, vb, c := Value(a), Pow2(|b'|), Value(b'), Bit(b[|b| - 1]);
      assert Value(a + b) == 2 * Value(a + b') + c;
      assert Value(b) == 2 * vb + c;
      assert Pow2(|b|) == 2 * p;
      Regroup(va, p, vb, c);
    }
  }

  lemma Regroup(va: int, p: int, vb: int, c: int)
    ensures 2 * (va * p + vb) + c == va * (2 * p) + (2 * vb + c)
  {
  }

  /** The leading bit contributes 2^(n-1), the rest is the value of the tail. */
  lemma ValueCons(b: bool, rest: seq<bool>)
    ensures Value([b] + rest) == Bit(b) * Pow2(|rest|) + Value(rest)
  {
    ValueAppend([b], rest);
    assert [b][..0] == [];
  }

  /** Equal-length bit sequences with equal values are equal: the encoding is
      a bijection between n-bit sequences and [0, 2^n). */
  lemma {:induction false} ValueInjective(a: seq<bool>, b: seq<bool>)
    requires |a| == |b|
    requires Value(a) == Value(b)
    ensures a == b
  {
    if |a| > 0 {
      var n := |a| - 1;
      assert Bit(a[n]) == Bit(b[n]);
      ValueInjective(a[..n], b[..n]);
      assert a == a[..n] + [a[n]];
      assert b == b[..n] + [b[n]];
    }
  }

  lemma DivMulAdd(q: nat, p: nat, r: nat)
    requires 0 <= r < p
    ensures (q * p + r) / p == q
  {
    var n := q * p + r;
    var d, m := n / p, n % p;
    assert n == d * p + m;
    assert (d - q) * p == r - m;
    if d > q {
      MulAtLeast(d - q, p);
    } else if d < q {
      MulAtLeast(q - d, p);
    }
  }

  lemma MulAtLeast(x: int, p: nat)
    requires x >= 1
    ensures x * p >= p
  {
  }

  /** Bit `i` (from the front) of an n-bit sequence is bit n-1-i of its value. */
  lemma BitAt(bits: seq<bool>, i: nat)
    requires i < |bits|
    ensures (Value(bits) / Pow2(|bits| - 1 - i)) % 2 == Bit(bits[i])
  {
    var head, tail := bits[..i + 1], bits[i + 1..];
    assert Value(bits) / Pow2(|tail|) == Value(head) by {
      assert bits == head + tail;
      ValueAppend(head, tail);
      ValueBound(tail);
      DivMulAdd(Value(head), Pow2(|tail|), Value(tail));
    }
    assert Value(head) == 2 * Value(bits[..i]) + Bit(bits[i]) by {
      assert head[..|head| - 1] == bits[..i];
    }
    LowBit(Value(bits[..i]), Bit(bits[i]));
  }

  lemma LowBit(v: nat, c: nat)
    requires c < 2
    ensures (2 * v + c) % 2 == c
  {
  }
}
