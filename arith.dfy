/**
 * Multiplication as repeated addition, and the facts about Euclidean division on
 * naturals that the mixed-radix indices of a cartesian product need. Keeping Mul
 * apart from `*` keeps nonlinear arithmetic out of the proofs that use it.
 */
module Arith {
  function Mul(a: nat, b: nat): nat
  {
    if a == 0 then 0 else b + Mul(a - 1, b)
  }

  lemma {:induction false} MulIsTimes(a: nat, b: nat)
    ensures Mul(a, b) == a * b
  {
    if a > 0 {
      MulIsTimes(a - 1, b);
    }
  }

  lemma MulOne(b: nat)
    ensures Mul(1, b) == b
  {
    assert Mul(0, b) == 0;
  }

  /** Multiplication, as a fact about the result c of the program's own `*`. */
  lemma TimesIsMul(a: nat, b: nat, c: int)
    requires c == a * b
    ensures c == Mul(a, b)
  {
    MulIsTimes(a, b);
  }

  lemma {:induction false} MulZero(b: nat)
    ensures Mul(b, 0) == 0
  {
    if b > 0 {
      MulZero(b - 1);
    }
  }

  lemma {:induction false} MulSucc(a: nat, b: nat)
    ensures Mul(a, b + 1) == Mul(a, b) + a
  {
    if a > 0 {
      MulSucc(a - 1, b);
    }
  }

  lemma {:induction false} MulComm(a: nat, b: nat)
    ensures Mul(a, b) == Mul(b, a)
    decreases b
  {
    if b == 0 {
      MulZero(a);
    } else {
      MulComm(a, b - 1);
      MulSucc(a, b - 1);
    }
  }

  lemma {:induction false} MulAdd(a: nat, b: nat, c: nat)
    ensures Mul(a + b, c) == Mul(a, c) + Mul(b, c)
  {
    if a > 0 {
      MulAdd(a - 1, b, c);
    }
  }

  lemma {:induction false} MulAssoc(a: nat, b: nat, c: nat)
    ensures Mul(Mul(a, b), c) == Mul(a, Mul(b, c))
  {
    if a > 0 {
      MulAssoc(a - 1, b, c);
      MulAdd(b, Mul(a - 1, b), c);
    }
  }

  /** Division is determined by a quotient and a remainder in range. */
  lemma DivModUnique(x: int, d: int, q: nat, r: int)
    requires d > 0 && 0 <= r < d && x == Mul(q, d) + r
    ensures x / d == q && x % d == r
  {
    MulIsTimes(q, d);
    var q', r' := x / d, x % d;
    assert x == q' * d + r';
    if q' > q {
      MulAtLeast(q' - q, d);
    } else if q' < q {
      MulAtLeast(q - q', d);
    }
  }

  lemma MulAtLeast(a: int, d: int)
    requires a >= 1 && d > 0
    ensures a * d >= d
  {
    assert a * d == (a - 1) * d + d;
    assert (a - 1) * d >= 0;
  }

  /** x is its quotient times d plus its remainder. */
  lemma DivMod(x: nat, d: nat)
    requires d > 0
    ensures x / d >= 0 && x == Mul(x / d, d) + x % d
  {
    MulIsTimes(x / d, d);
  }

  /** The quotient and remainder of i by d, for i below a * d. */
  lemma Digits(i: nat, a: nat, d: nat) returns (q: nat, r: nat)
    requires i < Mul(a, d)
    ensures d > 0 && q == i / d && r == i % d && q < a && r < d && i == Mul(q, d) + r
  {
    if d == 0 {
      MulZero(a);
    }
    q, r := i / d, i % d;
    DivMod(i, d);
    if q >= a {
      MulAdd(a, q - a, d);
    }
  }

  /** Combination (a, b) of an m by n grid comes before m * n. */
  lemma {:induction false} IndexBelow(a: nat, b: nat, m: nat, n: nat)
    requires a < m && b < n
    ensures Mul(a, n) + b < Mul(m, n)
  {
    if a > 0 {
      IndexBelow(a - 1, b, m - 1, n);
    }
  }

  /** A number below d is its own remainder. */
  lemma ModSmall(x: nat, d: nat)
    requires x < d
    ensures x % d == x && x / d == 0
  {
    DivModUnique(x, d, 0, x);
  }

  /** Adding a multiple of d adds that many to the quotient and leaves the remainder. */
  lemma DivAddMultiple(a: nat, d: nat, b: nat)
    requires d > 0
    ensures (Mul(a, d) + b) / d == a + b / d
    ensures (Mul(a, d) + b) % d == b % d
  {
    DivMod(b, d);
    MulAdd(a, b / d, d);
    DivModUnique(Mul(a, d) + b, d, a + b / d, b % d);
  }

  /** The quotient and remainder of x by d, as naturals. */
  lemma Quot(x: nat, d: nat) returns (q: nat, r: nat)
    requires d > 0
    ensures q == x / d && r == x % d && r < d && x == Mul(q, d) + r
  {
    DivMod(x, d);
    q, r := x / d, x % d;
  }

  /** Digit k of i is digit k of i modulo the weight s of a digit above it, where s = j * nk * t. */
  lemma DigitOfRemainder(i: nat, s: nat, j: nat, nk: nat, t: nat)
    requires s == Mul(Mul(j, nk), t) && s > 0 && t > 0 && nk > 0
    ensures (i / t) % nk == ((i % s) / t) % nk
  {
    var q, r := Quot(i, s);
    var u, _ := Quot(r, t);
    QuotientOfRemainder(i, s, j, nk, t, q, r, u);
    DivAddMultiple(Mul(q, j), nk, u);
  }

  lemma QuotientOfRemainder(i: nat, s: nat, j: nat, nk: nat, t: nat, q: nat, r: nat, u: nat)
    requires s == Mul(Mul(j, nk), t) && t > 0
    requires i == Mul(q, s) + r && u == r / t
    ensures i / t == Mul(Mul(q, j), nk) + u
  {
    var a := Mul(Mul(q, j), nk);
    assert i == Mul(a, t) + r by {
      MulAssoc(q, j, nk);
      MulAssoc(q, Mul(j, nk), t);
    }
    DivAddMultiple(a, t, r);
  }
}
