/** The hexadecimal wire codec: Python's `bytes.hex()` on the sending side and
    `bytes.fromhex()` on the receiving side. */
module Hex {
  import opened Wrappers
  import opened Bytes

  /** The digit `bytes.hex()` writes for a nibble: `0`-`9`, then lower-case `a`-`f`. */
  function DigitChar(v: nat): (c: char)
    requires v < 16
    ensures IsLowerHex(c)
  {
    if v < 10 then ('0' as int + v) as char else ('a' as int + v - 10) as char
  }

  predicate IsLowerHex(c: char)
  {
    '0' <= c <= '9' || 'a' <= c <= 'f'
  }

  /** The value `bytes.fromhex()` gives a hexadecimal digit of either case; `None`
      for any other character. */
  function DigitValue(c: char): (v: Option<nat>)
    ensures v.Some? ==> v.value < 16
    ensures IsLowerHex(c) ==> v.Some? && DigitChar(v.value) == c
  {
    if '0' <= c <= '9' then Some(c as int - '0' as int)
    else if 'a' <= c <= 'f' then Some(c as int - 'a' as int + 10)
    else if 'A' <= c <= 'F' then Some(c as int - 'A' as int + 10)
    else None
  }

  /** ASCII whitespace as CPython's `Py_ISSPACE` classifies it. */
  predicate IsSpace(c: char)
  {
    c == ' ' || c == '\t' || c == '\n' || c == '\r' || c == '\U{0B}' || c == '\U{0C}'
  }

  predicate NoSpace(s: string)
  {
    forall i :: 0 <= i < |s| ==> !IsSpace(s[i])
  }

  /** The number of characters of `s` that are not whitespace: the digits
      `bytes.fromhex()` has to pair up. */
  function NonSpaceCount(s: string): (n: nat)
    ensures n <= |s|
    ensures NoSpace(s) ==> n == |s|
  {
    if |s| == 0 then 0
    else
      assert NoSpace(s) ==> NoSpace(s[1..]) by {
        if NoSpace(s) {
          forall i | 0 <= i < |s| - 1 ensures !IsSpace(s[1..][i]) {
            assert s[1..][i] == s[i + 1];
          }
        }
      }
      (if IsSpace(s[0]) then 0 else 1) + NonSpaceCount(s[1..])
  }

  /** A character `bytes.fromhex()` can neither skip nor read as a digit. */
  predicate IsStray(c: char)
  {
    !IsSpace(c) && DigitValue(c).None?
  }

  predicate HasStray(s: string)
  {
    exists i :: 0 <= i < |s| && IsStray(s[i])
  }

  /** `bytes(bs).hex()`. */
  function Encode(bs: seq<byte>): (h: string)
    ensures |h| == 2 * |bs|
    ensures forall i :: 0 <= i < |h| ==> IsLowerHex(h[i])
  {
    if |bs| == 0 then ""
    else [DigitChar(bs[0] / 16), DigitChar(bs[0] % 16)] + Encode(bs[1..])
  }

  /** `bytes.fromhex(s)`; `None` stands for the `ValueError` it raises. Whitespace is
      skipped before each pair of digits but not inside a pair; digits of either case
      are read. */
  function Decode(s: string): (r: Option<seq<byte>>)
    ensures NoSpace(s) && r.Some? ==> |s| == 2 * |r.value|
    ensures NoSpace(s) && |s| % 2 == 1 ==> r.None?
    ensures HasStray(s) ==> r.None?
    decreases |s|
  {
    if |s| == 0 then Some([])
    else if IsSpace(s[0]) then
      assert HasStray(s) ==> HasStray(s[1..]) by {
        if HasStray(s) {
          var i :| 0 <= i < |s| && IsStray(s[i]);
          assert s[1..][i - 1] == s[i];
        }
      }
      Decode(s[1..])
    else if |s| >= 2 && DigitValue(s[0]).Some? && DigitValue(s[1]).Some? then
      assert HasStray(s) ==> HasStray(s[2..]) by {
        if HasStray(s) {
          var i :| 0 <= i < |s| && IsStray(s[i]);
          assert s[2..][i - 2] == s[i];
        }
      }
      var rest :- Decode(s[2..]);
      Some([DigitValue(s[0]).value * 16 + DigitValue(s[1]).value] + rest)
    else None
  }

  /** Whitespace anywhere: every byte `bytes.fromhex()` returns takes two of the
      characters that are not whitespace, so an odd number of them is refused. */
  lemma {:induction false} DecodeLength(s: string)
    ensures Decode(s).Some? ==> NonSpaceCount(s) == 2 * |Decode(s).value|
    ensures NonSpaceCount(s) % 2 == 1 ==> Decode(s).None?
    decreases |s|
  {
    if |s| == 0 {
    } else if IsSpace(s[0]) {
      DecodeLength(s[1..]);
    } else if |s| >= 2 && DigitValue(s[0]).Some? && DigitValue(s[1]).Some? {
      DecodeLength(s[2..]);
      assert s[1..][1..] == s[2..];
    }
  }

  lemma DigitRoundTrip(v: nat)
    requires v < 16
    ensures DigitValue(DigitChar(v)) == Some(v)
    ensures !IsSpace(DigitChar(v))
  {
  }

  /** Whatever bytes are sent as hex come back unchanged. */
  lemma {:induction false} RoundTrip(bs: seq<byte>)
    ensures Decode(Encode(bs)) == Some(bs)
  {
    if |bs| > 0 {
      var h := Encode(bs);
      var hi, lo := bs[0] / 16, bs[0] % 16;
      DigitRoundTrip(hi);
      DigitRoundTrip(lo);
      assert h[0] == DigitChar(hi) && h[1] == DigitChar(lo);
      assert h[2..] == Encode(bs[1..]);
      RoundTrip(bs[1..]);
      assert hi * 16 + lo == bs[0];
      assert Decode(h) == Some([bs[0]] + bs[1..]);
      assert [bs[0]] + bs[1..] == bs;
    }
  }

  /** The converse: a string of lower-case hex digits that decodes is exactly the
      encoding of what it decodes to, so the encoding is the canonical one. */
  lemma {:induction false} CanonicalRoundTrip(s: string)
    requires forall i :: 0 <= i < |s| ==> IsLowerHex(s[i])
    requires Decode(s).Some?
    ensures Encode(Decode(s).value) == s
  {
    if |s| > 0 {
      assert !IsSpace(s[0]);
      assert NoSpace(s);
      var rest := s[2..];
      CanonicalRoundTrip(rest);
      var hi, lo := DigitValue(s[0]).value, DigitValue(s[1]).value;
      var b := hi * 16 + lo;
      assert b / 16 == hi && b % 16 == lo;
      assert Encode(Decode(s).value) == [DigitChar(hi), DigitChar(lo)] + Encode(Decode(rest).value);
    }
  }

  lemma EncodeInjective(a: seq<byte>, b: seq<byte>)
    requires Encode(a) == Encode(b)
    ensures a == b
  {
    RoundTrip(a);
    RoundTrip(b);
  }
}
