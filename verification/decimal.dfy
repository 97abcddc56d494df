/** Base-10 text for big naturals, as num-bigint reads and writes it:
    `BigUint::parse_bytes(s, 10)` and `to_str_radix(10)`. Python's `str(n)` of a
    non-negative int writes the same text. */
module Decimal {
  import opened Wrappers

  predicate IsDigit(c: char)
  {
    '0' <= c <= '9'
  }

  function DigitChar(d: nat): (c: char)
    requires d < 10
    ensures IsDigit(c)
  {
    ('0' as int + d) as char
  }

  /** num-bigint accepts one leading `+`; it keeps the `+` (and then fails) when a
      second `+` follows. */
  function StripSign(s: string): string
  {
    if |s| > 0 && s[0] == '+' && !(|s| > 1 && s[1] == '+') then s[1..] else s
  }

  predicate DigitsOrSeparators(t: string)
  {
    forall i :: 0 <= i < |t| ==> IsDigit(t[i]) || t[i] == '_'
  }

  /** What num-bigint accepts once the sign is stripped: at least one character, a
      digit first, then digits and `_` separators. */
  predicate IsNumeral(t: string)
  {
    |t| > 0 && IsDigit(t[0]) && DigitsOrSeparators(t)
  }

  /** The value of a run of decimal digits, most significant first; `_` counts for
      nothing. */
  function DigitsValue(t: string): nat
    requires DigitsOrSeparators(t)
  {
    if |t| == 0 then 0
    else if t[|t| - 1] == '_' then DigitsValue(t[..|t| - 1])
    else DigitsValue(t[..|t| - 1]) * 10 + (t[|t| - 1] as int - '0' as int)
  }

  /** `BigUint::parse_bytes(s, 10)`; `None` is the parse failure the callers turn into
      a `ValueError`. */
  function Parse(s: string): Option<nat>
  {
    var t := StripSign(s);
    if IsNumeral(t) then Some(DigitsValue(t)) else None
  }

  /** `to_str_radix(10)`: the shortest decimal text of `n`, so without leading zeros. */
  function ToDecimal(n: nat): (s: string)
    ensures |s| >= 1 && forall i :: 0 <= i < |s| ==> IsDigit(s[i])
    ensures s[0] == '0' <==> n == 0
    ensures s[0] == '0' ==> s == "0"
    ensures DigitsValue(s) == n
  {
    if n < 10 then [DigitChar(n)]
    else
      var hi := ToDecimal(n / 10);
      var s := hi + [DigitChar(n % 10)];
      assert s[..|s| - 1] == hi;
      s
  }

  /** What `to_str_radix(10)` writes, `parse_bytes(.., 10)` reads back unchanged. */
  lemma RoundTrip(n: nat)
    ensures Parse(ToDecimal(n)) == Some(n)
  {
    var s := ToDecimal(n);
    assert StripSign(s) == s;
  }

  /** Parsing rejects exactly the strings whose sign-stripped rest is not a numeral:
      in particular the empty string, a lone `+`, and any letter, space or `-`. */
  lemma ParseRejects(s: string)
    ensures Parse(s).None? <==> !IsNumeral(StripSign(s))
    ensures |s| == 0 ==> Parse(s).None?
    ensures (exists i :: 0 <= i < |s| && !IsDigit(s[i]) && s[i] != '_' && s[i] != '+') ==> Parse(s).None?
  {
    if exists i :: 0 <= i < |s| && !IsDigit(s[i]) && s[i] != '_' && s[i] != '+' {
      var i :| 0 <= i < |s| && !IsDigit(s[i]) && s[i] != '_' && s[i] != '+';
      var t := StripSign(s);
      if t != s {
        assert t[i - 1] == s[i];
      }
    }
  }
}
