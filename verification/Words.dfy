/** Fixed-width words as naturals: exclusive or, right shift, and multiplication
    by an odd constant modulo a power of two. */
module Words {

  function Pow2(w: nat): (p: nat)
    ensures 0 < p
  {
    if w == 0 then 1 else 2 * Pow2(w - 1)
  }

  lemma {:induction false} Pow2Add(a: nat, b: nat)
    ensures Pow2(a + b) == Pow2(a) * Pow2(b)
    decreases a
  {
    if a == 0 {
    } else {
      Pow2Add(a - 1, b);
      assert a + b - 1 == (a - 1) + b;
    }
  }

  lemma Square(w: nat, p: nat)
    requires Pow2(w) == p
    ensures Pow2(2 * w) == p * p
  {
    Pow2Add(w, w);
  }

  lemma Pow2Values()
    ensures Pow2(32) == 0x1_0000_0000
    ensures Pow2(64) == 0x1_0000_0000_0000_0000
    ensures Pow2(128) == 0x1_0000_0000_0000_0000_0000_0000_0000_0000
  {
    assert Pow2(1) == 2;
    Square(1, 2);
    Square(2, 4);
    Square(4, 16);
    Square(8, 256);
    Square(16, 0x1_0000);
    Square(32, 0x1_0000_0000);
    Square(64, 0x1_0000_0000_0000_0000);
  }

  /** Exclusive or of two `w`-bit words. */
  function Xor(w: nat, a: nat, b: nat): (r: nat)
    ensures r < Pow2(w)
  {
    if w == 0 then 0 else 2 * Xor(w - 1, a / 2, b / 2) + (a % 2 + b % 2) % 2
  }

  /** Right shift by `s` bits. */
  function Shr(x: nat, s: nat): nat {
    if s == 0 then x else Shr(x / 2, s - 1)
  }

  lemma XorBits(w: nat, a: nat, b: nat)
    requires 0 < w
    ensures Xor(w, a, b) / 2 == Xor(w - 1, a / 2, b / 2)
    ensures Xor(w, a, b) % 2 == (a % 2 + b % 2) % 2
  {
  }

  lemma {:induction false} XorCommutes(w: nat, a: nat, b: nat)
    ensures Xor(w, a, b) == Xor(w, b, a)
  {
    if w == 0 {
    } else {
      XorCommutes(w - 1, a / 2, b / 2);
    }
  }

  lemma {:induction false} XorZero(w: nat, a: nat)
    requires a < Pow2(w)
    ensures Xor(w, a, 0) == a
  {
    if w == 0 {
    } else {
      XorZero(w - 1, a / 2);
    }
  }

  /** Applying the same mask twice gives the word back. */
  lemma {:induction false} XorTwice(w: nat, a: nat, b: nat)
    requires a < Pow2(w)
    ensures Xor(w, Xor(w, a, b), b) == a
  {
    if w == 0 {
    } else {
      var x := Xor(w, a, b);
      XorTwice(w - 1, a / 2, b / 2);
      XorBits(w, a, b);
      XorBits(w, x, b);
      ParityTwice(a % 2, b % 2);
      assert Xor(w, x, b) == 2 * (a / 2) + a % 2;
    }
  }

  lemma ParityTwice(p: nat, q: nat)
    requires p < 2 && q < 2
    ensures ((p + q) % 2 + q) % 2 == p
  {
  }

  /** Shifting an exclusive or is the exclusive or of the shifted words. */
  lemma {:induction false} XorShift(w: nat, s: nat, a: nat, b: nat)
    ensures Shr(Xor(w + s, a, b), s) == Xor(w, Shr(a, s), Shr(b, s))
    decreases s
  {
    if s == 0 {
    } else {
      XorBits(w + s, a, b);
      assert w + s - 1 == w + (s - 1);
      XorShift(w, s - 1, a / 2, b / 2);
    }
  }

  lemma {:induction false} ShrBound(x: nat, s: nat, w: nat)
    requires x < Pow2(w + s)
    ensures Shr(x, s) < Pow2(w)
    decreases s
  {
    if s == 0 {
    } else {
      assert w + s - 1 == w + (s - 1);
      ShrBound(x / 2, s - 1, w);
    }
  }

  lemma MulMono(a: int, b: int, m: nat)
    requires a < b
    ensures a * m + m <= b * m
  {
    var d := b - a - 1;
    assert (a + 1 + d) * m == a * m + m + d * m;
    assert 0 <= d * m;
  }

  /** Euclidean division has one answer. */
  lemma OneAnswer(q1: int, r1: nat, q2: int, r2: nat, m: nat)
    requires r1 < m && r2 < m && q1 * m + r1 == q2 * m + r2
    ensures q1 == q2 && r1 == r2
  {
    if q1 < q2 {
      MulMono(q1, q2, m);
    } else if q2 < q1 {
      MulMono(q2, q1, m);
    }
  }

  lemma QuotientAndRemainder(a: int, b: nat, m: nat)
    requires b < m
    ensures (a * m + b) / m == a && (a * m + b) % m == b
  {
    var n := a * m + b;
    assert n == (n / m) * m + n % m;
    OneAnswer(n / m, n % m, a, b, m);
  }

  /** Multiplying by `c` and then by its inverse modulo `m` gives the word back. */
  lemma MultiplyBack(z: nat, c: nat, inverse: nat, m: nat)
    requires z < m && (c * inverse) % m == 1
    ensures (((z * c) % m) * inverse) % m == z
  {
    var p, r := (z * c) / m, (z * c) % m;
    var q := (c * inverse) / m;
    assert z * c == p * m + r;
    assert c * inverse == q * m + 1;
    Regroup(z, c, inverse, m, p, q, r);
    QuotientAndRemainder(z * q - p * inverse, z, m);
  }

  lemma Regroup(z: nat, c: nat, inverse: nat, m: nat, p: nat, q: nat, r: nat)
    requires z * c == p * m + r && c * inverse == q * m + 1
    ensures r * inverse == (z * q - p * inverse) * m + z
  {
    assert (p * m + r) * inverse == (p * inverse) * m + r * inverse;
    assert (z * c) * inverse == z * (c * inverse);
    assert z * (q * m + 1) == (z * q) * m + z;
    assert (z * q - p * inverse) * m == (z * q) * m - (p * inverse) * m;
  }
}
