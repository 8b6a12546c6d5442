/** Bytes and the exclusive-or of numbers. */
module Bits {
  type Byte = b: int | 0 <= b < 256
  type Bytes = seq<Byte>

  /** Exclusive-or, binary digit by binary digit. */
  function Xor(a: nat, b: nat): nat {
    if a == 0 && b == 0 then 0
    else (if a % 2 == b % 2 then 0 else 1) + 2 * Xor(a / 2, b / 2)
  }

  function PowerOfTwo(bits: nat): (p: nat)
    ensures p > 0
  {
    if bits == 0 then 1 else 2 * PowerOfTwo(bits - 1)
  }

  lemma {:induction false} XorBound(a: nat, b: nat, bits: nat)
    requires a < PowerOfTwo(bits) && b < PowerOfTwo(bits)
    ensures Xor(a, b) < PowerOfTwo(bits)
  {
    if bits > 0 { XorBound(a / 2, b / 2, bits - 1); }
  }

  lemma {:induction false} XorCancel(a: nat, b: nat, c: nat)
    requires Xor(a, c) == Xor(b, c) || Xor(c, a) == Xor(c, b)
    ensures a == b
    decreases a + b + c
  {
    if a != 0 || b != 0 || c != 0 {
      XorCancel(a / 2, b / 2, c / 2);
    }
  }

  lemma {:induction false} XorZero(a: nat)
    ensures Xor(a, 0) == a && Xor(0, a) == a
  {
    if a != 0 { XorZero(a / 2); }
  }

  lemma {:induction false} XorSelf(a: nat)
    ensures Xor(a, a) == 0
  {
    if a != 0 { XorSelf(a / 2); }
  }

  lemma {:induction false} XorCommutes(a: nat, b: nat)
    ensures Xor(a, b) == Xor(b, a)
    decreases a + b
  {
    if a != 0 || b != 0 { XorCommutes(a / 2, b / 2); }
  }

  lemma XorParity(a: nat, b: nat)
    ensures Xor(a, b) % 2 == (if a % 2 == b % 2 then 0 else 1)
    ensures Xor(a, b) / 2 == Xor(a / 2, b / 2)
  {
  }

  lemma {:induction false} XorAssociates(a: nat, b: nat, c: nat)
    ensures Xor(Xor(a, b), c) == Xor(a, Xor(b, c))
    decreases a + b + c
  {
    if a != 0 || b != 0 || c != 0 {
      XorParity(a, b);
      XorParity(b, c);
      XorParity(Xor(a, b), c);
      XorParity(a, Xor(b, c));
      XorAssociates(a / 2, b / 2, c / 2);
    }
  }

  // (a ^ b) ^ (c ^ d) == (a ^ c) ^ (b ^ d)
  lemma XorSwapInner(a: nat, b: nat, c: nat, d: nat)
    ensures Xor(Xor(a, b), Xor(c, d)) == Xor(Xor(a, c), Xor(b, d))
  {
    XorAssociates(a, b, Xor(c, d));
    XorAssociates(b, c, d);
    XorCommutes(b, c);
    XorAssociates(c, b, d);
    XorAssociates(a, c, Xor(b, d));
  }

  // A number and a power of two above it share no digit.
  lemma {:induction false} XorTop(bits: nat, a: nat)
    requires a < PowerOfTwo(bits)
    ensures Xor(PowerOfTwo(bits), a) == PowerOfTwo(bits) + a
  {
    if bits > 0 {
      XorTop(bits - 1, a / 2);
    }
  }

  lemma XorDouble(a: nat, b: nat)
    ensures Xor(2 * a, 2 * b) == 2 * Xor(a, b)
  {
  }

  // ---- Moving digits up and down ----

  function Up(n: nat, a: nat): nat {
    if n == 0 then a else 2 * Up(n - 1, a)
  }

  function Down(n: nat, a: nat): nat {
    if n == 0 then a else Down(n - 1, a / 2)
  }

  // The lowest n digits.
  function Low(n: nat, a: nat): nat {
    if n == 0 then 0 else a % 2 + 2 * Low(n - 1, a / 2)
  }

  lemma {:induction false} UpLinear(n: nat, a: nat, b: nat)
    ensures Xor(Up(n, a), Up(n, b)) == Up(n, Xor(a, b))
  {
    if n > 0 {
      UpLinear(n - 1, a, b);
      XorDouble(Up(n - 1, a), Up(n - 1, b));
    }
  }

  lemma {:induction false} DownStep(n: nat, a: nat)
    ensures Down(n + 1, a) == Down(n, a) / 2
  {
    if n > 0 { DownStep(n - 1, a / 2); }
  }

  lemma {:induction false} DownLinear(n: nat, a: nat, b: nat)
    ensures Xor(Down(n, a), Down(n, b)) == Down(n, Xor(a, b))
  {
    if n > 0 {
      XorParity(a, b);
      DownLinear(n - 1, a / 2, b / 2);
    }
  }

  lemma {:induction false} LowLinear(n: nat, a: nat, b: nat)
    ensures Xor(Low(n, a), Low(n, b)) == Low(n, Xor(a, b))
  {
    hide Xor;
    XorZero(0);
    if n > 0 {
      XorParity(a, b);
      LowLinear(n - 1, a / 2, b / 2);
      XorParity(Low(n, a), Low(n, b));
    }
  }

  // Numbers that share no digit add up.
  lemma {:induction false} XorAdd(n: nat, q: nat, b: nat)
    requires b < PowerOfTwo(n)
    ensures Xor(Up(n, q), b) == Up(n, q) + b
  {
    if n == 0 {
      XorZero(q);
    } else {
      XorAdd(n - 1, q, b / 2);
      XorParity(Up(n, q), b);
    }
  }

  lemma {:induction false} UpIsProduct(n: nat, a: nat)
    ensures Up(n, a) == PowerOfTwo(n) * a
  {
    if n > 0 { UpIsProduct(n - 1, a); }
  }

  lemma DivisionUnique(x: nat, m: nat, q: nat, r: nat)
    requires r < m && x == m * q + r
    ensures x / m == q && x % m == r
  {
    var d := x / m;
    assert x == m * d + x % m;
    if d < q {
      ProductMonotone(m, d + 1, q);
    } else if q < d {
      ProductMonotone(m, q + 1, d);
    }
  }

  lemma ProductMonotone(m: nat, a: nat, b: nat)
    requires a <= b
    ensures m * a <= m * b
  {
  }

  lemma HalfThenDivide(p: nat, a: nat)
    requires p > 0
    ensures a / 2 / p == a / (2 * p)
    ensures a % (2 * p) == a % 2 + 2 * (a / 2 % p)
  {
    var q, r := a / 2 / p, a / 2 % p;
    assert a / 2 == p * q + r;
    assert (2 * p) * q == 2 * (p * q);
    DivisionUnique(a, 2 * p, q, 2 * r + a % 2);
  }

  lemma {:induction false} DownIsQuotient(n: nat, a: nat)
    ensures Down(n, a) == a / PowerOfTwo(n)
  {
    if n > 0 {
      DownIsQuotient(n - 1, a / 2);
      HalfThenDivide(PowerOfTwo(n - 1), a);
    }
  }

  lemma {:induction false} LowIsRemainder(n: nat, a: nat)
    ensures Low(n, a) == a % PowerOfTwo(n)
  {
    if n > 0 {
      LowIsRemainder(n - 1, a / 2);
      HalfThenDivide(PowerOfTwo(n - 1), a);
    }
  }

  /** Exclusive-or commutes with multiplying by a power of two ... */
  lemma XorTimes(n: nat, p: nat, a: nat, b: nat, pa: nat, pb: nat)
    requires p == PowerOfTwo(n) && pa == p * a && pb == p * b
    ensures Xor(pa, pb) == p * Xor(a, b)
  {
    hide Xor;
    UpLinear(n, a, b);
    UpIsProduct(n, a);
    UpIsProduct(n, b);
    UpIsProduct(n, Xor(a, b));
  }

  /** ... and with dividing by one and reducing modulo one. */
  lemma XorQuotients(n: nat, p: nat, a: nat, b: nat, qa: nat, qb: nat, ra: nat, rb: nat)
    requires p > 0 && p == PowerOfTwo(n)
    requires qa == a / p && qb == b / p && ra == a % p && rb == b % p
    ensures Xor(a, b) / p == Xor(qa, qb)
    ensures Xor(a, b) % p == Xor(ra, rb)
  {
    hide Xor;
    DownLinear(n, a, b);
    DownIsQuotient(n, a);
    DownIsQuotient(n, b);
    DownIsQuotient(n, Xor(a, b));
    LowLinear(n, a, b);
    LowIsRemainder(n, a);
    LowIsRemainder(n, b);
    LowIsRemainder(n, Xor(a, b));
  }

  /** Two numbers without a common digit, the first q moved up n places, add up. */
  lemma Disjoint(n: nat, p: nat, q: nat, b: nat)
    requires p == PowerOfTwo(n) && b < p
    ensures Xor(p * q, b) == p * q + b
    ensures Xor(b, p * q) == p * q + b
  {
    UpIsProduct(n, q);
    XorAdd(n, q, b);
    XorCommutes(b, Up(n, q));
  }

  lemma SmallPowers()
    ensures PowerOfTwo(0) == 1 && PowerOfTwo(1) == 2 && PowerOfTwo(2) == 4 && PowerOfTwo(3) == 8
    ensures PowerOfTwo(4) == 16 && PowerOfTwo(5) == 32 && PowerOfTwo(6) == 64 && PowerOfTwo(7) == 128
  {
  }

  lemma LargePowers()
    ensures PowerOfTwo(8) == 256 && PowerOfTwo(9) == 512 && PowerOfTwo(10) == 1024 && PowerOfTwo(11) == 2048
    ensures PowerOfTwo(12) == 4096 && PowerOfTwo(13) == 8192 && PowerOfTwo(14) == 16384 && PowerOfTwo(15) == 32768
  {
    SmallPowers();
  }

  function XorByte(a: Byte, b: Byte): Byte {
    assert PowerOfTwo(8) == 256 by { assert PowerOfTwo(4) == 16; }
    XorBound(a, b, 8);
    Xor(a, b)
  }
}
