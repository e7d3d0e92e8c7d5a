/** Powers and congruences of natural numbers. */
module ModArith {

  function Pow(b: nat, e: nat): nat {
    if e == 0 then 1 else b * Pow(b, e - 1)
  }

  ghost predicate Cong(a: int, b: int, n: nat)
    requires n > 0
  {
    a % n == b % n
  }

  // ----- powers

  lemma {:induction false} PowAdd(b: nat, e: nat, f: nat)
    ensures Pow(b, e + f) == Pow(b, e) * Pow(b, f)
    decreases e
  {
    if e > 0 {
      PowAdd(b, e - 1, f);
      assert Pow(b, e + f) == b * Pow(b, e - 1 + f);
      MulAssoc(b, Pow(b, e - 1), Pow(b, f));
    }
  }

  lemma {:induction false} PowOfProduct(a: nat, b: nat, e: nat)
    ensures Pow(a * b, e) == Pow(a, e) * Pow(b, e)
    decreases e
  {
    if e > 0 {
      PowOfProduct(a, b, e - 1);
      MulSwap(a, b, Pow(a, e - 1), Pow(b, e - 1));
    }
  }

  lemma {:induction false} PowOfPow(b: nat, e: nat, f: nat)
    ensures Pow(Pow(b, e), f) == Pow(b, e * f)
    decreases f
  {
    if f > 0 {
      PowOfPow(b, e, f - 1);
      assert e * f == e + e * (f - 1);
      PowAdd(b, e, e * (f - 1));
    }
  }

  lemma PowsCommute(b: nat, e: nat, f: nat)
    ensures Pow(Pow(b, e), f) == Pow(Pow(b, f), e)
  {
    PowOfPow(b, e, f);
    PowOfPow(b, f, e);
    assert e * f == f * e;
  }

  lemma {:induction false} PowOfOne(e: nat)
    ensures Pow(1, e) == 1
    decreases e
  {
    if e > 0 {
      PowOfOne(e - 1);
    }
  }

  // ----- congruences

  lemma MulAssoc(a: int, b: int, c: int)
    ensures a * (b * c) == (a * b) * c
  {
  }

  lemma MulSwap(a: int, b: int, c: int, d: int)
    ensures (a * b) * (c * d) == (a * c) * (b * d)
  {
    MulAssoc(a * b, c, d);
    MulAssoc(a, b, c);
    MulAssoc(a, c, b);
    MulAssoc(a * c, b, d);
  }

  lemma AddMultiple(a: int, k: int, n: nat)
    requires n > 0
    ensures (a + k * n) % n == a % n
  {
    var q := (a + k * n) / n - a / n - k;
    var r := a % n - (a + k * n) % n;
    assert a + k * n == n * ((a + k * n) / n) + (a + k * n) % n;
    assert a == n * (a / n) + a % n;
    assert q * n == r by {
      assert n * ((a + k * n) / n) - n * (a / n) - k * n == r;
      Distribute((a + k * n) / n, a / n, k, n);
    }
    SmallMultiple(q, r, n);
  }

  lemma SmallMultiple(q: int, r: int, n: int)
    requires q * n == r && -n < r < n
    ensures q == 0 && r == 0
  {
    assert q > 0 ==> q * n >= n;
    assert q < 0 ==> q * n <= -n;
  }

  lemma Distribute(x: int, y: int, z: int, n: int)
    ensures (x - y - z) * n == n * x - n * y - z * n
  {
  }

  lemma CongMod(a: int, n: nat)
    requires n > 0
    ensures Cong(a % n, a, n)
  {
  }

  lemma CongMul(a: int, a': int, b: int, b': int, n: nat)
    requires n > 0 && Cong(a, a', n) && Cong(b, b', n)
    ensures Cong(a * b, a' * b', n)
  {
    CongMulOne(a, a', b, n);
    CongMulOne(b, b', a', n);
    assert b * a' == a' * b && b' * a' == a' * b';
  }

  lemma CongMulOne(a: int, a': int, b: int, n: nat)
    requires n > 0 && Cong(a, a', n)
    ensures Cong(a * b, a' * b, n)
  {
    var k := a / n - a' / n;
    assert a - a' == k * n by {
      assert a == n * (a / n) + a % n;
      assert a' == n * (a' / n) + a' % n;
    }
    assert a * b == a' * b + (k * b) * n by {
      assert a == a' + k * n;
      assert (a' + k * n) * b == a' * b + (k * n) * b;
      assert (k * n) * b == (k * b) * n;
    }
    AddMultiple(a' * b, k * b, n);
  }

  lemma CongAdd(a: int, a': int, b: int, b': int, n: nat)
    requires n > 0 && Cong(a, a', n) && Cong(b, b', n)
    ensures Cong(a + b, a' + b', n)
  {
    var k, l := a / n - a' / n, b / n - b' / n;
    assert a - a' == k * n by {
      assert a == n * (a / n) + a % n;
      assert a' == n * (a' / n) + a' % n;
    }
    assert b - b' == l * n by {
      assert b == n * (b / n) + b % n;
      assert b' == n * (b' / n) + b' % n;
    }
    assert a + b == a' + b' + (k + l) * n;
    AddMultiple(a' + b', k + l, n);
  }

  lemma {:induction false} CongPow(a: nat, a': nat, e: nat, n: nat)
    requires n > 0 && Cong(a, a', n)
    ensures Cong(Pow(a, e), Pow(a', e), n)
    decreases e
  {
    if e > 0 {
      CongPow(a, a', e - 1, n);
      CongMul(a, a', Pow(a, e - 1), Pow(a', e - 1), n);
    }
  }
}
