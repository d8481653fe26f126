/** The decimal conversions of the Go standard library that error_response.go uses for its three numeric fields. */
module Decimal {
  import opened WireBytes
  import Text

  function Digits(n: nat): (r: bytes)
    ensures r != [] && forall i :: 0 <= i < |r| ==> 48 <= r[i] < 58
  {
    if n < 10 then [48 + n] else Digits(n / 10) + [48 + n % 10]
  }

  /** strconv.Itoa on a 32-bit value. */
  function Itoa(n: int32): (r: bytes)
    ensures r != [] && NulFree(r)
  {
    if n < 0 then ['-' as int] + Digits(-(n as int)) else Digits(n)
  }

  datatype Scan = Value(n: uint32) | Syntax

  const MAX_UINT32: uint32 := 0xffff_ffff

  /** The digit loop of ParseUint at 32 bits: it stops at the first overflow, before looking at later characters. */
  function ScanDigits(s: bytes, acc: uint32): Scan {
    if s == [] then Value(acc)
    else if !(48 <= s[0] < 58) then Syntax
    else
      var next := acc as int * 10 + (s[0] - 48);
      if next > MAX_UINT32 then Value(MAX_UINT32) else ScanDigits(s[1..], next)
  }

  /** strconv.ParseInt(s, 10, 32) with the error dropped: 0 for a syntax error, the nearest bound when out of range. */
  function ParseInt(s: bytes): int32 {
    if s == [] then 0
    else
      var signed := s[0] == '+' as int || s[0] == '-' as int;
      var body := if signed then s[1..] else s;
      if body == [] then 0
      else match ScanDigits(body, 0)
        case Syntax => 0
        case Value(n) =>
          if s[0] == '-' as int then (if n > 0x8000_0000 then -0x8000_0000 else -(n as int))
          else if n >= 0x8000_0000 then 0x7fff_ffff else n
  }

  predicate AllDigits(s: bytes) { forall i :: 0 <= i < |s| ==> 48 <= s[i] < 58 }

  /** What a string of digits is worth: each digit times ten to the number of digits behind it. */
  function Worth(s: bytes): nat
    requires AllDigits(s)
  {
    if s == [] then 0 else (s[0] - 48) * Text.Power10(|s| - 1) + Worth(s[1..])
  }

  lemma {:induction false} WorthSnoc(s: bytes, d: byte)
    requires AllDigits(s) && 48 <= d < 58
    ensures AllDigits(s + [d]) && Worth(s + [d]) == 10 * Worth(s) + (d - 48)
  {
    if s == [] {
      assert Worth([d]) == (d - 48) * Text.Power10(0) + Worth([d][1..]);
    } else {
      WorthSnoc(s[1..], d);
      assert (s + [d])[1..] == s[1..] + [d];
      var k := |s| - 1;
      assert (s[0] - 48) * Text.Power10(k + 1) == 10 * ((s[0] - 48) * Text.Power10(k));
    }
  }

  /** The digits of a number are worth it, and the first is no zero unless it stands alone. */
  lemma {:induction false} DigitsWorth(n: nat)
    ensures AllDigits(Digits(n)) && Worth(Digits(n)) == n
    ensures |Digits(n)| > 1 ==> Digits(n)[0] != 48
  {
    if n < 10 {
      assert [48 + n][1..] == [];
    } else {
      DigitsWorth(n / 10);
      WorthSnoc(Digits(n / 10), 48 + n % 10);
    }
  }

  /** Digits are read by their worth, leading zeros or not, up to the largest unsigned number. */
  lemma {:induction false} ScanDigitsWorth(s: bytes, acc: uint32)
    requires AllDigits(s)
    ensures ScanDigits(s, acc) == Value(if acc * Text.Power10(|s|) + Worth(s) > MAX_UINT32 then MAX_UINT32
                                        else acc * Text.Power10(|s|) + Worth(s))
    decreases |s|
  {
    if s != [] {
      var next := acc as int * 10 + (s[0] - 48);
      ScaleUp(acc, s[0] - 48, Text.Power10(|s| - 1));
      if next > MAX_UINT32 {
        PowerPositive(|s| - 1);
        AtLeast(next, Text.Power10(|s| - 1));
      } else {
        ScanDigitsWorth(s[1..], next);
      }
    }
  }

  lemma ScaleUp(acc: nat, d: nat, p: nat)
    ensures acc * (10 * p) + d * p == (acc * 10 + d) * p
  {
  }

  lemma {:induction false} PowerPositive(k: nat)
    ensures Text.Power10(k) >= 1
  {
    if k > 0 { PowerPositive(k - 1); }
  }

  lemma AtLeast(x: nat, p: nat)
    requires p >= 1
    ensures x * p >= x
  {
  }

  /** A string of digits, with or without a sign, is read as the 32-bit number nearest to its worth. */
  lemma ParseIntClamps(s: bytes)
    requires s != [] && AllDigits(s)
    ensures ParseInt(s) == ParseInt(['+' as int] + s) == (if Worth(s) > 0x7fff_ffff then 0x7fff_ffff else Worth(s))
    ensures ParseInt(['-' as int] + s) == (if Worth(s) > 0x8000_0000 then -0x8000_0000 else -(Worth(s) as int))
  {
    ScanDigitsWorth(s, 0);
    assert (['+' as int] + s)[1..] == s && (['-' as int] + s)[1..] == s;
    hide ScanDigits, Worth;
  }

  lemma ParseIntItoa(n: int32)
    ensures ParseInt(Itoa(n)) == n
  {
    var m: nat := if n < 0 then -(n as int) else n;
    hide ParseInt;
    DigitsWorth(m);
    ParseIntClamps(Digits(m));
  }
}
