/**
 * Go's `strconv.Atoi` on a 64-bit platform (an optional '+' or '-', then one or more
 * decimal digits, and a value that fits an `int`), its inverse `strconv.Itoa`, and the
 * two's-complement wrap-around of Go's 64-bit integer arithmetic.
 */
module Strconv {
  import opened Wrappers

  const MinInt64: int := -0x8000_0000_0000_0000
  const MaxInt64: int := 0x7FFF_FFFF_FFFF_FFFF

  predicate InInt64(n: int) { MinInt64 <= n <= MaxInt64 }

  /** The value of `n` after storing it in a 64-bit two's-complement integer. */
  function Wrap64(n: int): (r: int)
    ensures InInt64(r)
    ensures InInt64(n) ==> r == n
    ensures (r - n) % 0x1_0000_0000_0000_0000 == 0
  {
    (n - MinInt64) % 0x1_0000_0000_0000_0000 + MinInt64
  }

  predicate IsDigit(c: char) { '0' <= c <= '9' }

  predicate AllDigits(s: string) { forall i :: 0 <= i < |s| ==> IsDigit(s[i]) }

  function DigitValue(c: char): nat
    requires IsDigit(c)
  {
    c as int - '0' as int
  }

  function Digit(d: nat): (c: char)
    requires d < 10
    ensures IsDigit(c) && DigitValue(c) == d
  {
    "0123456789"[d]
  }

  /** The value of a string of decimal digits, most significant first. */
  function DigitsValue(s: string): nat
    requires AllDigits(s)
    decreases |s|
  {
    if s == [] then 0 else DigitsValue(s[..|s| - 1]) * 10 + DigitValue(s[|s| - 1])
  }

  /** `strconv.Atoi(s)`: `None` is the syntax error or the range error. */
  function Atoi(s: string): (r: Option<int>)
    ensures r.Some? ==> InInt64(r.value)
    ensures r.Some? ==>
      (s != [] && AllDigits(s)) || (|s| >= 2 && (s[0] == '+' || s[0] == '-') && AllDigits(s[1..]))
    ensures s == [] ==> r == None
    ensures s != [] && AllDigits(s) ==>
      r == if DigitsValue(s) <= MaxInt64 then Some(DigitsValue(s)) else None
    ensures |s| >= 2 && (s[0] == '+' || s[0] == '-') && AllDigits(s[1..]) ==>
      var magnitude: int := DigitsValue(s[1..]);
      var v := if s[0] == '-' then -magnitude else magnitude;
      r == if InInt64(v) then Some(v) else None
  {
    var signed := |s| > 0 && (s[0] == '+' || s[0] == '-');
    var digits := if signed then s[1..] else s;
    if digits == [] || !AllDigits(digits) then None
    else
      var magnitude: int := DigitsValue(digits);
      var v := if signed && s[0] == '-' then -magnitude else magnitude;
      if InInt64(v) then Some(v) else None
  }

  /** A unit suffix, a decimal point and a bare sign are syntax errors. */
  lemma AtoiRejects()
    ensures Atoi("24h") == None
    ensures Atoi("1.5") == None
    ensures Atoi("+") == None
    ensures Atoi("-") == None
  {
    assert !IsDigit("24h"[2]);
    assert !IsDigit("1.5"[1]);
  }

  /** Decimal digits of a natural number, without leading zeros. */
  function NatToString(n: nat): (s: string)
    ensures |s| >= 1 && AllDigits(s)
    decreases n
  {
    if n < 10 then [Digit(n)] else NatToString(n / 10) + [Digit(n % 10)]
  }

  /** `strconv.Itoa(n)`. */
  function Itoa(n: int): string
  {
    if n < 0 then "-" + NatToString(-n) else NatToString(n)
  }

  lemma {:induction false} NatToStringValue(n: nat)
    ensures DigitsValue(NatToString(n)) == n
    decreases n
  {
    if n >= 10 {
      NatToStringValue(n / 10);
      var s := NatToString(n);
      assert s[..|s| - 1] == NatToString(n / 10);
    }
  }

  /** Reading back what `Itoa` wrote gives the number again, for every 64-bit integer. */
  lemma AtoiItoa(n: int)
    requires InInt64(n)
    ensures Atoi(Itoa(n)) == Some(n)
  {
    var s := Itoa(n);
    if n < 0 {
      NatToStringValue(-n);
      assert s[0] == '-' && s[1..] == NatToString(-n);
      assert DigitsValue(s[1..]) == -n;
    } else {
      NatToStringValue(n);
      assert s == NatToString(n) && s != [] && AllDigits(s);
    }
  }
}
