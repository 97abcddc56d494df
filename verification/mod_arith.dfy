/** Natural-number exponentiation and the modular exponentiation `BigUint::modpow` of
    num-bigint, with the algebra that makes Diffie-Hellman agree. */
module ModArith {

  function Pow(b: nat, e: nat): nat
  {
    if e == 0 then 1 else b * Pow(b, e - 1)
  }

  /** `b.modpow(e, m)`: `b^e mod m`. num-bigint panics on a zero modulus, so the
      callers decide what happens when `m == 0`. */
  function ModPow(b: nat, e: nat, m: nat): (r: nat)
    requires m > 0
    ensures r < m
  {
    Pow(b, e) % m
  }

  lemma {:induction false} PowAdd(b: nat, m: nat, n: nat)
    ensures Pow(b, m + n) == Pow(b, m) * Pow(b, n)
  {
    if m > 0 {
      PowAdd(b, m - 1, n);
      assert Pow(b, m + n) == b * Pow(b, m - 1 + n);
      assert b * (Pow(b, m - 1) * Pow(b, n)) == (b * Pow(b, m - 1)) * Pow(b, n);
    }
  }

  lemma {:induction false} PowMul(b: nat, m: nat, n: nat)
    ensures Pow(Pow(b, m), n) == Pow(b, m * n)
  {
    if n > 0 {
      PowMul(b, m, n - 1);
      PowAdd(b, m, m * (n - 1));
      assert m + m * (n - 1) == m * n;
    }
  }

  lemma MulNonneg(x: int, y: int)
    requires x >= 0 && y >= 0
    ensures x * y >= 0
  {
  }

  /** A non-zero multiple of `p` is at least `p` away from zero. */
  lemma MulBounds(d: int, p: int)
    requires p > 0
    ensures d >= 1 ==> d * p >= p
    ensures d <= -1 ==> d * p <= -p
  {
    if d >= 1 {
      MulNonneg(d - 1, p);
      assert d * p == (d - 1) * p + p;
    } else if d <= -1 {
      MulNonneg(-d - 1, p);
      assert d * p == -((-d - 1) * p) - p;
    }
  }

  /** Division with remainder is unique. */
  lemma ModUnique(a: int, p: int, q: int, r: int)
    requires p > 0 && 0 <= r < p && a == q * p + r
    ensures a / p == q && a % p == r
  {
    var q', r' := a / p, a % p;
    assert a == q' * p + r';
    assert (q - q') * p == r' - r by {
      assert (q - q') * p == q * p - q' * p;
    }
    MulBounds(q - q', p);
  }

  lemma MulModLeft(a: nat, b: nat, p: nat)
    requires p > 0
    ensures (a * b) % p == ((a % p) * b) % p
  {
    var q, r := a / p, a % p;
    var q2, r2 := (r * b) / p, (r * b) % p;
    assert a * b == (q * b) * p + r * b by {
      assert a == q * p + r;
    }
    ModUnique(a * b, p, q * b + q2, r2);
  }

  lemma MulModRight(a: nat, b: nat, p: nat)
    requires p > 0
    ensures (a * b) % p == (a * (b % p)) % p
  {
    MulModLeft(b, a, p);
  }

  /** Reducing the base first does not change a modular power. */
  lemma {:induction false} PowMod(x: nat, n: nat, p: nat)
    requires p > 0
    ensures Pow(x % p, n) % p == Pow(x, n) % p
  {
    if n > 0 {
      var y := x % p;
      calc {
        Pow(y, n) % p;
        (y * Pow(y, n - 1)) % p;
        { MulModRight(y, Pow(y, n - 1), p); }
        (y * (Pow(y, n - 1) % p)) % p;
        { PowMod(x, n - 1, p); }
        (y * (Pow(x, n - 1) % p)) % p;
        { MulModRight(y, Pow(x, n - 1), p); }
        (y * Pow(x, n - 1)) % p;
        { MulModLeft(x, Pow(x, n - 1), p); }
        (x * Pow(x, n - 1)) % p;
      }
    }
  }

  /** `(g^a mod p)^b mod p == g^(a*b) mod p`. */
  lemma ModPowCompose(g: nat, a: nat, b: nat, p: nat)
    requires p > 0
    ensures ModPow(ModPow(g, a, p), b, p) == Pow(g, a * b) % p
  {
    PowMod(Pow(g, a), b, p);
    PowMul(g, a, b);
  }

  /** Both parties of a Diffie-Hellman exchange reach the same value:
      `(g^a)^b == (g^b)^a (mod p)` for every modulus, base and pair of exponents. */
  lemma Agreement(g: nat, a: nat, b: nat, p: nat)
    requires p > 0
    ensures ModPow(ModPow(g, a, p), b, p) == ModPow(ModPow(g, b, p), a, p)
  {
    ModPowCompose(g, a, b, p);
    ModPowCompose(g, b, a, p);
    assert a * b == b * a;
  }
}
