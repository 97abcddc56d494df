/** Rust's fixed-width integers as the Swoosh code in `lib.rs` uses them: `as` casts
    that wrap, release-build wrapping addition, and the truncating `%` that panics on a
    zero divisor or on `MIN % -1`. */
module MachineInt {
  import opened ModArith
  import opened Python

  type i8 = x: int | -128 <= x < 128
  type i16 = x: int | -32768 <= x < 32768
  type usize = x: int | 0 <= x < 0x1_0000_0000_0000_0000

  function Abs(x: int): nat
  {
    if x < 0 then -x else x
  }

  /** `x as i8` from any integer type: the `i8` congruent to `x` modulo 2^8. */
  function WrapI8(x: int): (r: i8)
    ensures (x - r) % 256 == 0
    ensures -128 <= x < 128 ==> r == x
  {
    var m := (x + 128) % 256;
    ModUnique(x + 128, 256, (x + 128) / 256, m);
    m - 128
  }

  /** `x as i16`: the `i16` congruent to `x` modulo 2^16. */
  function WrapI16(x: int): (r: i16)
    ensures (x - r) % 65536 == 0
    ensures -32768 <= x < 32768 ==> r == x
  {
    var m := (x + 32768) % 65536;
    ModUnique(x + 32768, 65536, (x + 32768) / 65536, m);
    m - 32768
  }

  /** `x as usize` on a 64-bit target: sign extension, then the value modulo 2^64. */
  function WrapUsize(x: int): (r: usize)
    ensures (x - r) % 0x1_0000_0000_0000_0000 == 0
    ensures 0 <= x ==> r == x % 0x1_0000_0000_0000_0000
    ensures x < 0 && -x < 0x1_0000_0000_0000_0000 ==> r == x + 0x1_0000_0000_0000_0000
  {
    var m := x % 0x1_0000_0000_0000_0000;
    ModUnique(x, 0x1_0000_0000_0000_0000, x / 0x1_0000_0000_0000_0000, m);
    assert x < 0 && -x < 0x1_0000_0000_0000_0000 ==> m == x + 0x1_0000_0000_0000_0000 by {
      if x < 0 && -x < 0x1_0000_0000_0000_0000 {
        ModUnique(x, 0x1_0000_0000_0000_0000, -1, x + 0x1_0000_0000_0000_0000);
      }
    }
    m
  }

  /** numpy `int64` arithmetic, which wraps silently: the `int64` congruent to `x`
      modulo 2^64. */
  function WrapI64(x: int): (r: int)
    ensures -0x8000_0000_0000_0000 <= r < 0x8000_0000_0000_0000
    ensures (x - r) % 0x1_0000_0000_0000_0000 == 0
    ensures -0x8000_0000_0000_0000 <= x < 0x8000_0000_0000_0000 ==> r == x
  {
    var m := (x + 0x8000_0000_0000_0000) % 0x1_0000_0000_0000_0000;
    ModUnique(x + 0x8000_0000_0000_0000, 0x1_0000_0000_0000_0000, (x + 0x8000_0000_0000_0000) / 0x1_0000_0000_0000_0000, m);
    m - 0x8000_0000_0000_0000
  }

  /** Two numbers that agree modulo 2^8 wrap to the same `i8`. */
  lemma WrapI8Congruent(x: int, y: int)
    requires (x - y) % 256 == 0
    ensures WrapI8(x) == WrapI8(y)
  {
    var k := (x - y) / 256;
    ModUnique(x - y, 256, k, 0);
    ModUnique(x + 128, 256, (y + 128) / 256 + k, (y + 128) % 256);
  }

  /** Rust's `a % b` on integers: the remainder of division truncated toward zero. */
  function TruncRem(a: int, b: int): (r: int)
    requires b != 0
    ensures Abs(r) < Abs(b)
    ensures a >= 0 ==> r >= 0
    ensures a < 0 ==> r <= 0
    ensures (a - r) % Abs(b) == 0
  {
    var d := Abs(b);
    if a >= 0 then
      ModUnique(a, d, a / d, a % d);
      ModUnique(a - a % d, d, a / d, 0);
      a % d
    else
      ModUnique(-a, d, (-a) / d, (-a) % d);
      ModUnique(a + (-a) % d, d, -((-a) / d), 0);
      -((-a) % d)
  }

  /** The contract of `TruncRem` pins it down: the remainder is the one number below
      `|b|` in magnitude, of the dividend's sign, that differs from `a` by a multiple
      of `b`. */
  lemma TruncRemUnique(a: int, b: int, r: int)
    requires b != 0
    requires Abs(r) < Abs(b)
    requires a >= 0 ==> r >= 0
    requires a < 0 ==> r <= 0
    requires (a - r) % Abs(b) == 0
    ensures r == TruncRem(a, b)
  {
    var d := Abs(b);
    var k := (a - r) / d;
    ModUnique(a - r, d, k, 0);
    if a >= 0 {
      ModUnique(a, d, k, r);
    } else {
      ModUnique(-a, d, -k, -r);
    }
  }

  /** Rust's `a / b` on integers: the quotient truncated toward zero. */
  function TruncQuot(a: int, b: int): int
    requires b != 0
  {
    if (a < 0) == (b < 0) then Abs(a) / Abs(b) else -(Abs(a) / Abs(b))
  }

  /** Truncated quotient and remainder fit together as Rust documents them:
      `a == (a / b) * b + a % b`. */
  lemma TruncDivision(a: int, b: int)
    requires b != 0
    ensures a == TruncQuot(a, b) * b + TruncRem(a, b)
  {
    var d := Abs(b);
    var q := Abs(a) / d;
    assert Abs(a) == q * d + Abs(a) % d;
    if a >= 0 {
      assert TruncRem(a, b) == a % d;
      if b > 0 {
        assert TruncQuot(a, b) * b == q * d;
      } else {
        assert TruncQuot(a, b) * b == (-q) * (-d) == q * d;
      }
    } else {
      assert TruncRem(a, b) == -((-a) % d);
      if b > 0 {
        assert TruncQuot(a, b) * b == -(q * d);
      } else {
        assert TruncQuot(a, b) * b == q * (-d) == -(q * d);
      }
    }
  }

  /** Dividing a natural number by a positive one gives at most the number itself,
      exactly it for the divisor one, and at most half of it for a larger divisor. */
  lemma QuotientBounds(x: nat, d: nat)
    requires d >= 1
    ensures 0 <= x / d <= x
    ensures d == 1 ==> x / d == x
    ensures d >= 2 ==> 2 * (x / d) <= x
  {
    var q := x / d;
    assert x == q * d + x % d;
    MulBounds(q, d);
    if d == 1 {
      ModUnique(x, 1, x, 0);
    } else {
      MulNonneg(d - 2, q);
      assert q * d == (d - 2) * q + 2 * q;
    }
  }

  /** For operands in `[-m, m)` the truncated quotient leaves `[-m, m)` only for
      `-m / -1`, whose exact value `m` is one past the top. */
  lemma QuotientOverflow(a: int, b: int, m: int)
    requires m > 0 && -m <= a < m && -m <= b < m && b != 0
    ensures -m <= TruncQuot(a, b) < m <==> !(a == -m && b == -1)
  {
    var q := Abs(a) / Abs(b);
    QuotientBounds(Abs(a), Abs(b));
    assert TruncQuot(a, b) == q || TruncQuot(a, b) == -q;
    if Abs(b) == 1 && a == -m {
      assert TruncQuot(a, b) == m <==> b == -1;
    }
  }

  const RemByZeroPanic := "attempt to calculate the remainder with a divisor of zero"
  const RemOverflowPanic := "attempt to calculate the remainder with overflow"

  /** `a % b` on `i8`, with the two panics Rust checks in every build. */
  function RemI8(a: i8, b: i8): (r: Outcome<i8>)
    ensures r.Raised? <==> b == 0 || (a == -128 && b == -1)
    ensures r.Raised? ==> r.exception.Panic?
    ensures r.Returned? ==> r.value == TruncRem(a, b)
  {
    if b == 0 then Abort(RemByZeroPanic)
    else if a == -128 && b == -1 then Abort(RemOverflowPanic)
    else Returned(TruncRem(a, b))
  }

  /** `a % b` on `i16`. */
  function RemI16(a: i16, b: i16): (r: Outcome<i16>)
    ensures r.Raised? <==> b == 0 || (a == -32768 && b == -1)
    ensures r.Raised? ==> r.exception.Panic?
    ensures r.Returned? ==> r.value == TruncRem(a, b)
  {
    if b == 0 then Abort(RemByZeroPanic)
    else if a == -32768 && b == -1 then Abort(RemOverflowPanic)
    else Returned(TruncRem(a, b))
  }

  /** `a % b` on `i8` behaves as Rust documents it: it panics exactly when `b` is zero
      or the quotient `a / b` overflows `i8`, and otherwise `a == (a / b) * b + a % b`. */
  lemma RemI8Meaning(a: i8, b: i8)
    ensures RemI8(a, b).Raised? <==> b == 0 || !(-128 <= TruncQuot(a, b) < 128)
    ensures RemI8(a, b).Returned? ==> a == TruncQuot(a, b) * b + RemI8(a, b).value
  {
    if b != 0 {
      QuotientOverflow(a, b, 128);
      TruncDivision(a, b);
    }
  }

  /** The same for `a % b` on `i16`. */
  lemma RemI16Meaning(a: i16, b: i16)
    ensures RemI16(a, b).Raised? <==> b == 0 || !(-32768 <= TruncQuot(a, b) < 32768)
    ensures RemI16(a, b).Returned? ==> a == TruncQuot(a, b) * b + RemI16(a, b).value
  {
    if b != 0 {
      QuotientOverflow(a, b, 32768);
      TruncDivision(a, b);
    }
  }

  function Sum(xs: seq<int>): int
  {
    if |xs| == 0 then 0 else Sum(xs[..|xs| - 1]) + xs[|xs| - 1]
  }

  /** `xs.iter().sum::<i8>()` in a release build: a left fold whose every step wraps. */
  function WrappingSum(xs: seq<i8>): i8
  {
    if |xs| == 0 then 0 else WrapI8(WrappingSum(xs[..|xs| - 1]) + xs[|xs| - 1])
  }

  /** Wrapping at every step is the same as wrapping the exact sum once. */
  lemma {:induction false} WrappingSumIsWrappedSum(xs: seq<i8>)
    ensures WrappingSum(xs) == WrapI8(Sum(xs))
  {
    if |xs| > 0 {
      var init := xs[..|xs| - 1];
      var last: int := xs[|xs| - 1];
      WrappingSumIsWrappedSum(init);
      var w: int := WrappingSum(init);
      assert (Sum(init) - w) % 256 == 0;
      assert (Sum(init) + last) - (w + last) == Sum(init) - w;
      WrapI8Congruent(Sum(init) + last, w + last);
    }
  }
}
