/** Bytes and the two integer-to-bytes codecs the system uses: num-bigint's minimal
    big-endian form (`to_bytes_be` / `from_bytes_be`) for Diffie-Hellman keys, and the
    fixed-width little-endian form numpy's `tobytes` / `frombuffer` give `int64` values. */
module Bytes {
  import opened ModArith

  type byte = x: int | 0 <= x < 256

  // ---------------------------------------------------------------------------
  // Big-endian, as num-bigint's BigUint

  /** `BigUint::from_bytes_be`: any byte string, leading zeros and the empty string
      included, denotes a number. */
  function FromBytesBe(bs: seq<byte>): nat
  {
    if |bs| == 0 then 0 else FromBytesBe(bs[..|bs| - 1]) * 256 + bs[|bs| - 1]
  }

  /** The form `to_bytes_be` produces: never empty, and no leading zero byte except in
      the one-byte encoding of zero. */
  predicate IsMinimalBe(bs: seq<byte>)
  {
    |bs| >= 1 && (bs[0] == 0 ==> |bs| == 1)
  }

  /** `BigUint::to_bytes_be`: the minimal big-endian bytes of `x`; zero is `[0]`. */
  function ToBytesBe(x: nat): (bs: seq<byte>)
    ensures IsMinimalBe(bs)
    ensures bs[0] == 0 <==> x == 0
    ensures FromBytesBe(bs) == x
  {
    if x < 256 then [x]
    else
      var hi := ToBytesBe(x / 256);
      var bs := hi + [x % 256];
      assert bs[..|bs| - 1] == hi;
      bs
  }

  /** The converse round trip: a minimal encoding is the encoding of its value. */
  lemma {:induction false} BeMinimalRoundTrip(bs: seq<byte>)
    requires IsMinimalBe(bs)
    ensures ToBytesBe(FromBytesBe(bs)) == bs
  {
    if |bs| > 1 {
      var init := bs[..|bs| - 1];
      assert IsMinimalBe(init);
      BeMinimalRoundTrip(init);
      BeLeadingNonzero(init);
      var x := FromBytesBe(bs);
      assert x == FromBytesBe(init) * 256 + bs[|bs| - 1];
      ModUnique(x, 256, FromBytesBe(init), bs[|bs| - 1]);
    }
  }

  /** A minimal encoding with a non-zero leading byte denotes at least 1, and one of two
      or more bytes denotes at least 256. */
  lemma {:induction false} BeLeadingNonzero(bs: seq<byte>)
    requires IsMinimalBe(bs) && bs[0] != 0
    ensures FromBytesBe(bs) >= 1
    ensures |bs| >= 2 ==> FromBytesBe(bs) >= 256
  {
    if |bs| > 1 {
      var init := bs[..|bs| - 1];
      assert init[0] == bs[0];
      BeLeadingNonzero(init);
    }
  }

  // ---------------------------------------------------------------------------
  // Fixed-width little-endian

  /** The low `k` bytes of `u`, least significant first. */
  function UintToLe(u: nat, k: nat): (bs: seq<byte>)
    ensures |bs| == k
  {
    if k == 0 then [] else [u % 256] + UintToLe(u / 256, k - 1)
  }

  function LeToUint(bs: seq<byte>): nat
  {
    if |bs| == 0 then 0 else bs[0] + 256 * LeToUint(bs[1..])
  }

  lemma {:induction false} LeToUintBound(bs: seq<byte>)
    ensures LeToUint(bs) < Pow(256, |bs|)
  {
    if |bs| > 0 {
      LeToUintBound(bs[1..]);
      assert LeToUint(bs[1..]) + 1 <= Pow(256, |bs| - 1);
      assert 256 * (LeToUint(bs[1..]) + 1) <= 256 * Pow(256, |bs| - 1);
    }
  }

  /** Every number below `256^k` survives the `k`-byte little-endian codec. */
  lemma {:induction false} LeRoundTrip(u: nat, k: nat)
    requires u < Pow(256, k)
    ensures LeToUint(UintToLe(u, k)) == u
  {
    if k > 0 {
      var bs := UintToLe(u, k);
      assert bs[1..] == UintToLe(u / 256, k - 1);
      assert u / 256 < Pow(256, k - 1) by {
        ModUnique(u, 256, u / 256, u % 256);
        assert Pow(256, k) == 256 * Pow(256, k - 1);
      }
      LeRoundTrip(u / 256, k - 1);
    }
  }

  // ---------------------------------------------------------------------------
  // numpy int64, little-endian two's complement (the byte order of the hosts the
  // services run on)

  const TwoTo63: int := 0x8000_0000_0000_0000
  const TwoTo64: int := 0x1_0000_0000_0000_0000

  predicate IsInt64(x: int)
  {
    -TwoTo63 <= x < TwoTo63
  }

  lemma Pow256To8()
    ensures Pow(256, 8) == TwoTo64
  {
  }

  /** `np.int64(x).tobytes()`. */
  function Int64ToLe(x: int): (bs: seq<byte>)
    requires IsInt64(x)
    ensures |bs| == 8
  {
    UintToLe(if x < 0 then x + TwoTo64 else x, 8)
  }

  /** Reads eight bytes back as an `int64`. */
  function LeToInt64(bs: seq<byte>): (x: int)
    requires |bs| == 8
    ensures IsInt64(x)
  {
    LeToUintBound(bs);
    Pow256To8();
    var u := LeToUint(bs);
    if u >= TwoTo63 then u - TwoTo64 else u
  }

  lemma Int64RoundTrip(x: int)
    requires IsInt64(x)
    ensures LeToInt64(Int64ToLe(x)) == x
  {
    Pow256To8();
    LeRoundTrip(if x < 0 then x + TwoTo64 else x, 8);
  }
}
