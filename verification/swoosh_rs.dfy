/** The Rust "Swoosh" key generation and derivation of the extension's `lib.rs`.
    The random draws (`gen_range(0..q)`, one per matrix entry, then one per entry of
    `s`, then of `e`) are inputs. All arithmetic is on `i8`/`i16` as Rust performs it. */
module SwooshRs {
  import opened MachineInt
  import opened ModArith
  import opened Python

  /** `slice::chunks(0)` asserts a non-zero chunk size. */
  const ChunkSizeZeroPanic := "chunk size must be non-zero"
  /** `gen_range(0..0)` cannot sample from an empty range. */
  const EmptyRangePanic := "cannot sample empty range"

  datatype SwooshKeys = SwooshKeys(s: seq<i8>, publicKey: seq<i8>)

  /** `draw as i8` for every draw. */
  function CastAll(xs: seq<usize>): (r: seq<i8>)
    ensures |r| == |xs|
    ensures forall i :: 0 <= i < |xs| ==> r[i] == WrapI8(xs[i])
  {
    seq(|xs|, i requires 0 <= i < |xs| => WrapI8(xs[i]))
  }

  lemma RowFits(n: nat, i: nat)
    requires i < n
    ensures (i + 1) * n <= n * n
  {
    MulNonneg(n - i - 1, n);
    assert n * n == (i + 1) * n + (n - i - 1) * n;
  }

  /** Row `i` of the `n x n` matrix `a.chunks(n)` walks through. */
  function Row(a: seq<i8>, n: nat, i: nat): (row: seq<i8>)
    requires |a| == n * n && i < n
    ensures |row| == n
  {
    RowFits(n, i);
    MulNonneg(i, n);
    a[i * n .. (i + 1) * n]
  }

  /** What the generator reduces for row `i`: the wrapping sum of the row plus the
      entry of `e` that `s[i] as usize % n` selects. `s[i]` only picks an index. */
  function RowValue(a: seq<i8>, s: seq<i8>, e: seq<i8>, n: nat, i: nat): i8
    requires |a| == n * n && |s| == n && |e| == n && i < n
  {
    WrapI8(WrappingSum(Row(a, n, i)) + e[WrapUsize(s[i]) % n])
  }

  /** `.map(|t| t % q).collect()`: reduces every value in order; the first panic ends
      the whole collection. */
  function ReduceAll(ts: seq<i8>, q: i8): (r: Outcome<seq<i8>>)
    ensures r.Raised? <==> |ts| > 0 && (q == 0 || (q == -1 && exists i :: 0 <= i < |ts| && ts[i] == -128))
    ensures r.Raised? ==> r.exception.Panic?
    ensures r.Returned? ==> |r.value| == |ts| && forall i :: 0 <= i < |ts| ==> r.value[i] == TruncRem(ts[i], q)
  {
    if |ts| == 0 then Returned([])
    else
      var head :- RemI8(ts[0], q);
      assert forall i :: 1 <= i < |ts| ==> ts[1..][i - 1] == ts[i];
      var tail :- ReduceAll(ts[1..], q);
      Returned([head] + tail)
  }

  /** The draws `swoosh_generate_keys((q, d, n))` consumes: `n * n` for `a`, then `n`
      for `s` and `n` for `e`, each below `q`. */
  predicate DrawsFit(q: usize, n: usize, aDraws: seq<usize>, sDraws: seq<usize>, eDraws: seq<usize>)
  {
    && |aDraws| == n * n && |sDraws| == n && |eDraws| == n
    && (q > 0 ==>
          && (forall i :: 0 <= i < |aDraws| ==> aDraws[i] < q)
          && (forall i :: 0 <= i < |sDraws| ==> sDraws[i] < q)
          && (forall i :: 0 <= i < |eDraws| ==> eDraws[i] < q))
  }

  /** `swoosh_generate_keys((q, d, n))`. `d` is never read. */
  function SwooshGenerateKeys(q: usize, d: usize, n: usize, aDraws: seq<usize>, sDraws: seq<usize>, eDraws: seq<usize>)
    : (r: Outcome<SwooshKeys>)
    requires DrawsFit(q, n, aDraws, sDraws, eDraws)
    ensures n == 0 || q == 0 ==> r.Raised? && r.exception.Panic?
    ensures n > 0 && q > 0 ==>
      var a, s, e := CastAll(aDraws), CastAll(sDraws), CastAll(eDraws);
      (r.Raised? <==>
         WrapI8(q) == 0 || (WrapI8(q) == -1 && exists i :: 0 <= i < n && RowValue(a, s, e, n, i) == -128))
    ensures r.Raised? ==> r.exception.Panic?
    ensures r.Returned? ==>
      var a, e := CastAll(aDraws), CastAll(eDraws);
      && |r.value.s| == n && |r.value.publicKey| == n
      && (forall i :: 0 <= i < n ==> r.value.s[i] == WrapI8(sDraws[i]))
      && (forall i :: 0 <= i < n ==> r.value.publicKey[i] == TruncRem(RowValue(a, r.value.s, e, n, i), WrapI8(q)))
  {
    if n == 0 then Abort(ChunkSizeZeroPanic)
    else if q == 0 then Abort(EmptyRangePanic)
    else
      var a, s, e := CastAll(aDraws), CastAll(sDraws), CastAll(eDraws);
      var ts := seq(n, i requires 0 <= i < n => RowValue(a, s, e, n, i));
      assert forall i :: 0 <= i < n ==> ts[i] == RowValue(a, s, e, n, i);
      var publicKey :- ReduceAll(ts, WrapI8(q));
      Returned(SwooshKeys(s, publicKey))
  }

  /** The row value, wrapped at every step of the sum as Rust does it, is the exact
      sum of the row plus the selected `e` entry, wrapped once into `i8`. */
  lemma RowValueIsWrappedSum(a: seq<i8>, s: seq<i8>, e: seq<i8>, n: nat, i: nat)
    requires |a| == n * n && |s| == n && |e| == n && i < n
    ensures RowValue(a, s, e, n, i) == WrapI8(Sum(Row(a, n, i)) + e[WrapUsize(s[i]) % n])
  {
    var row := Row(a, n, i);
    var x := e[WrapUsize(s[i]) % n];
    WrappingSumIsWrappedSum(row);
    WrapI8Congruent(WrappingSum(row) + x, Sum(row) + x);
  }

  /** Entry `i` of a generated public key is `(sum(row i of a) + e[s[i] as usize % n])`,
      wrapped into `i8`, then reduced by Rust's `%` with `q as i8`: `s` selects an entry
      of `e` but is never multiplied in. */
  lemma PublicKeyEntries(q: usize, d: usize, n: usize, aDraws: seq<usize>, sDraws: seq<usize>, eDraws: seq<usize>)
    requires DrawsFit(q, n, aDraws, sDraws, eDraws)
    requires SwooshGenerateKeys(q, d, n, aDraws, sDraws, eDraws).Returned?
    ensures var keys := SwooshGenerateKeys(q, d, n, aDraws, sDraws, eDraws).value;
      var a, e := CastAll(aDraws), CastAll(eDraws);
      forall i :: 0 <= i < n ==>
        keys.publicKey[i] == TruncRem(WrapI8(Sum(Row(a, n, i)) + e[WrapUsize(keys.s[i]) % n]), WrapI8(q))
  {
    var keys := SwooshGenerateKeys(q, d, n, aDraws, sDraws, eDraws).value;
    EntriesAreWrappedSums(CastAll(aDraws), keys.s, CastAll(eDraws), n, WrapI8(q), keys.publicKey);
  }

  /** The per-row form of the public-key entries, restated with exact sums. */
  lemma EntriesAreWrappedSums(a: seq<i8>, s: seq<i8>, e: seq<i8>, n: nat, q: i8, publicKey: seq<i8>)
    requires |a| == n * n && |s| == n && |e| == n && |publicKey| == n && q != 0
    requires forall i :: 0 <= i < n ==> publicKey[i] == TruncRem(RowValue(a, s, e, n, i), q)
    ensures forall i :: 0 <= i < n ==> publicKey[i] == TruncRem(WrapI8(Sum(Row(a, n, i)) + e[WrapUsize(s[i]) % n]), q)
  {
    forall i | 0 <= i < n
      ensures publicKey[i] == TruncRem(WrapI8(Sum(Row(a, n, i)) + e[WrapUsize(s[i]) % n]), q)
    {
      RowValueIsWrappedSum(a, s, e, n, i);
    }
  }

  /** For a modulus that fits `i8` (`0 < q <= 127`, as in the extension's own test with
      `q = 23`) and `n > 0`, generation never panics, `s` is the draws unchanged, and
      every public entry lies strictly between `-q` and `q`, with the sign of the
      (wrapped) row value it reduces. */
  lemma SmallModulusKeys(q: usize, d: usize, n: usize, aDraws: seq<usize>, sDraws: seq<usize>, eDraws: seq<usize>)
    requires DrawsFit(q, n, aDraws, sDraws, eDraws)
    requires 0 < q <= 127 && n > 0
    ensures var r := SwooshGenerateKeys(q, d, n, aDraws, sDraws, eDraws);
      && r.Returned?
      && r.value.s == sDraws
      && forall i :: 0 <= i < n ==> -(q as int) < r.value.publicKey[i] < q
  {
    var r := SwooshGenerateKeys(q, d, n, aDraws, sDraws, eDraws);
    var a, s, e := CastAll(aDraws), CastAll(sDraws), CastAll(eDraws);
    assert WrapI8(q) == q;
    assert !(exists i :: 0 <= i < n && RowValue(a, s, e, n, i) == -128 && WrapI8(q) == -1);
    assert r.Returned?;
    assert r.value.s == sDraws;
  }

  /** `d` plays no part: any two values of it give the same keys. */
  lemma IgnoresD(q: usize, d1: usize, d2: usize, n: usize, aDraws: seq<usize>, sDraws: seq<usize>, eDraws: seq<usize>)
    requires DrawsFit(q, n, aDraws, sDraws, eDraws)
    ensures SwooshGenerateKeys(q, d1, n, aDraws, sDraws, eDraws) == SwooshGenerateKeys(q, d2, n, aDraws, sDraws, eDraws)
  {
  }

  function Min(a: nat, b: nat): nat
  {
    if a < b then a else b
  }

  lemma MulMono(a: nat, b: nat, c: nat, d: nat)
    requires a <= c && b <= d
    ensures a * b <= c * d
  {
    MulNonneg(c - a, b);
    MulNonneg(c, d - b);
    assert c * d - a * b == (c - a) * b + c * (d - b);
  }

  /** `s as i16 * p as i16`: the product of two `i8` values always fits `i16`. */
  function Product(x: i8, y: i8): (z: i16)
    ensures z == x as int * y as int
  {
    MulMono(Abs(x), Abs(y), 128, 128);
    assert Abs(x as int * y as int) == Abs(x) * Abs(y);
    x as int * y as int
  }

  /** `.map(|(s, p)| ((s as i16 * p as i16) % q) as i8).collect()` over the zipped
      keys, for a non-zero `q`. The product is never `i16::MIN`, so `%` cannot
      overflow. */
  function DeriveAll(privateKey: seq<i8>, publicKey: seq<i8>, q: i16): (r: seq<i8>)
    requires q != 0
    ensures |r| == Min(|privateKey|, |publicKey|)
    ensures forall i :: 0 <= i < |r| ==> r[i] == WrapI8(TruncRem(Product(privateKey[i], publicKey[i]), q))
  {
    if |privateKey| == 0 || |publicKey| == 0 then []
    else [WrapI8(TruncRem(Product(privateKey[0], publicKey[0]), q))] + DeriveAll(privateKey[1..], publicKey[1..], q)
  }

  /** `swoosh_derive_shared_key(private_key, public_key, q)`: as long as the shorter
      key, entry `i` being `s[i] * p[i]` reduced by `q as i16` and cast back to `i8`.
      The first reduction panics when `q as i16` is zero; only an empty zip escapes. */
  function SwooshDeriveSharedKey(privateKey: seq<i8>, publicKey: seq<i8>, q: usize): (r: Outcome<seq<i8>>)
    ensures r.Raised? <==> Min(|privateKey|, |publicKey|) > 0 && WrapI16(q) == 0
    ensures r.Raised? ==> r.exception.Panic?
    ensures r.Returned? ==>
      && |r.value| == Min(|privateKey|, |publicKey|)
      && forall i :: 0 <= i < |r.value| ==> r.value[i] == WrapI8(TruncRem(Product(privateKey[i], publicKey[i]), WrapI16(q)))
  {
    if Min(|privateKey|, |publicKey|) == 0 then Returned([])
    else if WrapI16(q) == 0 then Abort(RemByZeroPanic)
    else Returned(DeriveAll(privateKey, publicKey, WrapI16(q)))
  }

  /** With `0 < q <= 127` derivation never panics, and each entry is the product
      `s[i] * p[i]` reduced modulo `q` with the sign of the product: strictly between
      `-q` and `q`, so the final `as i8` loses nothing. */
  lemma SmallModulusShared(privateKey: seq<i8>, publicKey: seq<i8>, q: usize)
    requires 0 < q <= 127
    ensures var r := SwooshDeriveSharedKey(privateKey, publicKey, q);
      && r.Returned?
      && forall i :: 0 <= i < |r.value| ==>
           var x := privateKey[i] as int * publicKey[i] as int;
           && -(q as int) < r.value[i] < q
           && (x - r.value[i]) % q == 0
           && (x >= 0 ==> r.value[i] >= 0)
           && (x < 0 ==> r.value[i] <= 0)
  {
    var r := SwooshDeriveSharedKey(privateKey, publicKey, q);
    assert WrapI16(q) == q;
    forall i | 0 <= i < |r.value|
      ensures var x := privateKey[i] as int * publicKey[i] as int;
           && -(q as int) < r.value[i] < q
           && (x - r.value[i]) % q == 0
           && (x >= 0 ==> r.value[i] >= 0)
           && (x < 0 ==> r.value[i] <= 0)
    {
      var x := Product(privateKey[i], publicKey[i]);
      var t := TruncRem(x, q);
      assert r.value[i] == WrapI8(t);
    }
  }
}
