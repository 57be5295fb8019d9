/**
 * Fixed-width unsigned machine words as sequences of bits, least
 * significant bit first, with the C operators the memory-map lookup uses:
 * `&`, `|`, `^`, `~`, `>> 1` and `- 1` (wrapping at the word's width).
 * Each operator is defined bit by bit and tied to arithmetic on the word's
 * value, so the lookup can be read as the C expressions it models.
 */
module Words {
  /** A word of |w| bits; w[0] is the least significant. */
  type Word = seq<bool>

  function Pow2(w: nat): (r: nat)
    ensures r >= 1
  {
    if w == 0 then 1 else 2 * Pow2(w - 1)
  }

  /** 2^32, the range of a 32-bit unsigned. */
  lemma Pow2Of32()
    ensures Pow2(32) == 0x1_0000_0000
  {
    assert Pow2(8) == 0x100;
    assert Pow2(16) == 0x1_0000;
    assert Pow2(24) == 0x100_0000;
  }

  /** The unsigned value of a word. */
  function Value(b: Word): (r: nat)
    ensures r < Pow2(|b|)
  {
    if b == [] then 0 else (if b[0] then 1 else 0) + 2 * Value(b[1..])
  }

  /** The low `w` bits of `n`: a C conversion to a `w`-bit unsigned type. */
  function ToWord(n: nat, w: nat): (r: Word)
    ensures |r| == w
  {
    if w == 0 then [] else [n % 2 == 1] + ToWord(n / 2, w - 1)
  }

  /** Reading back a word gives `n` reduced modulo 2^w. */
  lemma {:induction false} ValueOfToWord(n: nat, w: nat)
    ensures Value(ToWord(n, w)) == n % Pow2(w)
  {
    if w > 0 {
      ValueOfToWord(n / 2, w - 1);
      HalveModulo(n, Pow2(w - 1));
    }
  }

  /** n mod 2p is its low bit plus twice (n / 2) mod p. */
  lemma HalveModulo(n: nat, p: nat)
    requires p >= 1
    ensures n % (2 * p) == n % 2 + 2 * ((n / 2) % p)
  {
    var q, r := n / 2, n % 2;
    var k, m := q / p, q % p;
    assert n == (2 * p) * k + (2 * m + r) by {
      assert q == p * k + m;
    }
    ModUnique(n, 2 * p, k, 2 * m + r);
  }

  /** The remainder is the only value below d that n exceeds by a multiple of d. */
  lemma ModUnique(n: nat, d: nat, k: nat, m: nat)
    requires d >= 1 && n == d * k + m && m < d
    ensures n % d == m
  {
    var k', m' := n / d, n % d;
    assert n == d * k' + m';
    MultipleGap(d, k', k);
    MultipleGap(d, k, k');
  }

  /** Distinct multiples of d lie at least d apart. */
  lemma MultipleGap(d: nat, a: int, b: int)
    ensures a > b ==> d * a >= d * b + d
  {
    if a > b {
      MultipleAtLeast(d, a - b);
      assert d * a == d * b + d * (a - b);
    }
  }

  lemma {:induction false} MultipleAtLeast(d: nat, x: nat)
    requires x >= 1
    ensures d * x >= d
  {
    if x > 1 {
      MultipleAtLeast(d, x - 1);
      assert d * x == d * (x - 1) + d;
    }
  }

  /** Every word is the conversion of its own value. */
  lemma {:induction false} ToWordOfValue(b: Word)
    ensures ToWord(Value(b), |b|) == b
  {
    if b != [] {
      ToWordOfValue(b[1..]);
      assert ToWord(Value(b), |b|) == [b[0]] + ToWord(Value(b[1..]), |b| - 1);
    }
  }

  /** The all-zero word. */
  function Zeros(w: nat): (r: Word)
    ensures |r| == w && true !in r
  {
    if w == 0 then [] else [false] + Zeros(w - 1)
  }

  /** `a & b` */
  function And(a: Word, b: Word): (r: Word)
    requires |a| == |b|
    ensures |r| == |a|
  {
    if a == [] then [] else [a[0] && b[0]] + And(a[1..], b[1..])
  }

  /** `a | b` */
  function Or(a: Word, b: Word): (r: Word)
    requires |a| == |b|
    ensures |r| == |a|
  {
    if a == [] then [] else [a[0] || b[0]] + Or(a[1..], b[1..])
  }

  /** `a ^ b` */
  function Xor(a: Word, b: Word): (r: Word)
    requires |a| == |b|
    ensures |r| == |a|
  {
    if a == [] then [] else [a[0] != b[0]] + Xor(a[1..], b[1..])
  }

  /** `~a` */
  function Not(a: Word): (r: Word)
    ensures |r| == |a|
  {
    if a == [] then [] else [!a[0]] + Not(a[1..])
  }

  /** `a >> 1`: every bit moves down one place and a zero enters at the top. */
  function Shr1(a: Word): (r: Word)
    ensures |r| == |a|
  {
    if a == [] then [] else a[1..] + [false]
  }

  /** `a - 1`, wrapping from zero to all ones: the borrow runs up to the lowest set bit. */
  function Dec(a: Word): (r: Word)
    ensures |r| == |a|
  {
    if a == [] then [] else if a[0] then [false] + a[1..] else [true] + Dec(a[1..])
  }

  // Each operator splits into its lowest bit and the operator on the bits above.

  lemma AndSplit(a: Word, b: Word)
    requires |a| == |b| && a != []
    ensures And(a, b)[0] == (a[0] && b[0]) && And(a, b)[1..] == And(a[1..], b[1..])
  {
    assert And(a, b) == [a[0] && b[0]] + And(a[1..], b[1..]);
  }

  lemma OrSplit(a: Word, b: Word)
    requires |a| == |b| && a != []
    ensures Or(a, b)[0] == (a[0] || b[0]) && Or(a, b)[1..] == Or(a[1..], b[1..])
  {
    assert Or(a, b) == [a[0] || b[0]] + Or(a[1..], b[1..]);
  }

  lemma XorSplit(a: Word, b: Word)
    requires |a| == |b| && a != []
    ensures Xor(a, b)[0] == (a[0] != b[0]) && Xor(a, b)[1..] == Xor(a[1..], b[1..])
  {
    assert Xor(a, b) == [a[0] != b[0]] + Xor(a[1..], b[1..]);
  }

  lemma NotSplit(a: Word)
    requires a != []
    ensures Not(a)[0] == !a[0] && Not(a)[1..] == Not(a[1..])
  {
    assert Not(a) == [!a[0]] + Not(a[1..]);
  }

  lemma DecSplit(a: Word)
    requires a != []
    ensures Dec(a)[0] == !a[0]
    ensures Dec(a)[1..] == if a[0] then a[1..] else Dec(a[1..])
  {
    if a[0] {
      assert Dec(a) == [false] + a[1..];
    } else {
      assert Dec(a) == [true] + Dec(a[1..]);
    }
  }

  lemma Shr1Split(a: Word)
    requires |a| >= 2
    ensures Shr1(a)[0] == a[1] && Shr1(a)[1..] == Shr1(a[1..])
  {
    assert Shr1(a)[1..] == a[2..] + [false];
  }

  /** `x & ~x` has no set bit. */
  lemma {:induction false} AndNotSelf(x: Word)
    ensures true !in And(x, Not(x))
  {
    if x != [] {
      AndSplit(x, Not(x));
      NotSplit(x);
      AndNotSelf(x[1..]);
      assert And(x, Not(x)) == [false] + And(x[1..], Not(x[1..]));
    }
  }

  /** `x & x == x` */
  lemma {:induction false} AndSelf(x: Word)
    ensures And(x, x) == x
  {
    if x != [] {
      AndSelf(x[1..]);
    }
  }

  /** `(x & t) | (y & ~t)` with `t` zero is `y`. */
  lemma {:induction false} BlendNone(x: Word, y: Word, t: Word)
    requires |x| == |y| == |t| && true !in t
    ensures Or(And(x, t), And(y, Not(t))) == y
  {
    if t != [] {
      NotSplit(t);
      AndSplit(x, t);
      AndSplit(y, Not(t));
      OrSplit(And(x, t), And(y, Not(t)));
      BlendNone(x[1..], y[1..], t[1..]);
      var r := Or(And(x, t), And(y, Not(t)));
      assert r == [r[0]] + r[1..];
      assert y == [y[0]] + y[1..];
    }
  }

  /** `x` and `y` have the same bit wherever `sel` has a set bit. */
  predicate AgreeOn(x: Word, y: Word, sel: Word)
    requires |x| == |y| == |sel|
  {
    forall i :: 0 <= i < |sel| && sel[i] ==> x[i] == y[i]
  }

  /** `((x ^ y) & sel) == 0` exactly when `x` and `y` agree on the bits of `sel`. */
  lemma {:induction false} MaskedXorZero(x: Word, y: Word, sel: Word)
    requires |x| == |y| == |sel|
    ensures true !in And(Xor(x, y), sel) <==> AgreeOn(x, y, sel)
  {
    if sel != [] {
      XorSplit(x, y);
      AndSplit(Xor(x, y), sel);
      MaskedXorZero(x[1..], y[1..], sel[1..]);
      var r := And(Xor(x, y), sel);
      assert r == [r[0]] + r[1..];
      if AgreeOn(x[1..], y[1..], sel[1..]) && (sel[0] ==> x[0] == y[0]) {
        forall i | 0 <= i < |sel| && sel[i]
          ensures x[i] == y[i]
        {
          if i > 0 {
            assert sel[1..][i - 1];
          }
        }
      }
      if AgreeOn(x, y, sel) {
        forall i | 0 <= i < |sel| - 1 && sel[1..][i]
          ensures x[1..][i] == y[1..][i]
        {
          assert sel[i + 1];
        }
      }
    }
  }

  /** Halving: `>> 1` divides the value by two. */
  lemma {:induction false} Shr1Value(a: Word)
    ensures Value(Shr1(a)) == Value(a) / 2
  {
    if a != [] {
      SnocZeroValue(a[1..]);
    }
  }

  /** A zero bit on top adds nothing to the value. */
  lemma {:induction false} SnocZeroValue(a: Word)
    ensures Value(a + [false]) == Value(a)
  {
    if a != [] {
      assert (a + [false])[1..] == a[1..] + [false];
      SnocZeroValue(a[1..]);
    }
  }

  /** `- 1` subtracts one modulo 2^w. */
  lemma {:induction false} DecValue(a: Word)
    ensures Value(Dec(a)) == (Value(a) + Pow2(|a|) - 1) % Pow2(|a|)
  {
    if a == [] {
    } else if a[0] {
      assert Dec(a)[1..] == a[1..];
      WrapBelow(Value(a) - 1, Pow2(|a|));
    } else {
      DecValue(a[1..]);
      assert Dec(a)[1..] == Dec(a[1..]);
      DecValueEven(Value(a[1..]), Pow2(|a| - 1), Value(Dec(a[1..])));
    }
  }

  /** Adding the modulus to a value below it and reducing gives the value back. */
  lemma WrapBelow(v: nat, p: nat)
    requires v < p
    ensures (v + p) % p == v
  {
    ModUnique(v + p, p, 1, v);
  }

  /** The borrow case of DecValue, on the values of the words above the low bit. */
  lemma DecValueEven(v: nat, p: nat, dv: nat)
    requires p >= 1 && v < p && dv == (v + p - 1) % p
    ensures 1 + 2 * dv == (2 * v + 2 * p - 1) % (2 * p)
  {
    if v == 0 {
      ModUnique(p - 1, p, 0, p - 1);
      ModUnique(2 * p - 1, 2 * p, 0, 2 * p - 1);
    } else {
      ModUnique(v + p - 1, p, 1, v - 1);
      ModUnique(2 * v + 2 * p - 1, 2 * p, 1, 2 * v - 1);
    }
  }

  /** Only the all-zero word has value zero. */
  lemma {:induction false} ZeroValue(a: Word)
    ensures Value(a) == 0 <==> true !in a
  {
    if a != [] {
      ZeroValue(a[1..]);
      assert a == [a[0]] + a[1..];
    }
  }

  /** The number of set bits. */
  function Ones(a: Word): (r: nat)
    ensures r <= |a|
    ensures r == 0 <==> true !in a
  {
    if a == [] then 0 else (if a[0] then 1 else 0) + Ones(a[1..])
  }
}
