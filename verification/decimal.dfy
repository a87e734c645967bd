/** Decimal rendering and parsing of 64-bit integers, as the counter stores its value. */
module Decimal {
  import opened Wrappers

  const MIN64: int := -0x8000_0000_0000_0000
  const MAX64: int := 0x7fff_ffff_ffff_ffff
  const MODULUS: int := 0x1_0000_0000_0000_0000

  predicate IsInt64(i: int) {
    MIN64 <= i <= MAX64
  }

  /** Two's-complement wrap-around of int64 arithmetic. */
  function Wrap64(i: int): (r: int)
    ensures IsInt64(r)
    ensures IsInt64(i) ==> r == i
  {
    (i - MIN64) % MODULUS + MIN64
  }

  /** Wrapping after every addition is the same as wrapping once at the end. */
  lemma WrapAdd(a: int, b: int)
    ensures Wrap64(Wrap64(a) + b) == Wrap64(a + b)
  {
    var q := (a - MIN64) / MODULUS;
    assert Wrap64(a) == a - q * MODULUS;
    var x := a + b - MIN64;
    var r, r' := x % MODULUS, (x - q * MODULUS) % MODULUS;
    assert r' - r == (x / MODULUS - q - (x - q * MODULUS) / MODULUS) * MODULUS;
  }

  function Clamped(i: int): int {
    if i < MIN64 then MIN64 else if i > MAX64 then MAX64 else i
  }

  function FormatNat(n: nat): (s: string)
    ensures s != []
  {
    var digit := [('0' as int + n % 10) as char];
    if n < 10 then digit else FormatNat(n / 10) + digit
  }

  function FormatInt(i: int): string {
    if i < 0 then "-" + FormatNat(-i) else FormatNat(i)
  }

  predicate IsDigit(c: char) {
    '0' <= c <= '9'
  }

  function ParseDigits(s: string): Option<nat> {
    if s == [] then Some(0)
    else
      var rest := ParseDigits(s[..|s| - 1]);
      if rest.Some? && IsDigit(s[|s| - 1]) then Some(10 * rest.value + (s[|s| - 1] as int - '0' as int)) else None
  }

  /** The value `strconv.ParseInt(s, 10, 64)` yields when its error is ignored: 0 for malformed input,
      the nearest bound when out of range. */
  function ParseInt64(s: string): (i: int)
    ensures IsInt64(i)
  {
    if s != [] && s[0] == '-' then ParseSigned(true, s[1..])
    else if s != [] && s[0] == '+' then ParseSigned(false, s[1..])
    else ParseSigned(false, s)
  }

  function ParseSigned(negative: bool, digits: string): (i: int)
    ensures IsInt64(i)
  {
    var n := ParseDigits(digits);
    if digits == [] || n.None? then 0 else Clamped(if negative then 0 - n.value else n.value)
  }

  lemma {:induction false} ParseFormatNat(n: nat)
    ensures ParseDigits(FormatNat(n)) == Some(n)
    ensures forall c :: c in FormatNat(n) ==> IsDigit(c)
  {
    var s := FormatNat(n);
    if n < 10 {
      assert s[..0] == [];
    } else {
      ParseFormatNat(n / 10);
      assert s[..|s| - 1] == FormatNat(n / 10);
    }
  }

  function Zeros(z: nat): (s: string)
    ensures |s| == z && forall i :: 0 <= i < z ==> s[i] == '0'
  {
    seq(z, _ => '0')
  }

  /** The decimal text of n, with any number of leading zeros. */
  ghost predicate IsTextOf(s: string, n: nat) {
    exists z: nat :: s == Zeros(z) + FormatNat(n)
  }

  ghost predicate IsDecimal(s: string) {
    exists n: nat :: IsTextOf(s, n)
  }

  lemma {:induction false} ParseZeros(z: nat, s: string)
    ensures ParseDigits(Zeros(z) + s) == ParseDigits(s)
    decreases |s| + z
  {
    var t := Zeros(z) + s;
    if s != "" {
      assert t[..|t| - 1] == Zeros(z) + s[..|s| - 1];
      ParseZeros(z, s[..|s| - 1]);
    } else if z > 0 {
      assert t[..|t| - 1] == Zeros(z - 1) + "";
      ParseZeros(z - 1, "");
    }
  }

  /** One digit more. */
  lemma NextDigit(s: string, v: nat, d: nat)
    requires IsTextOf(s, v) && d < 10
    ensures IsTextOf(s + FormatNat(d), 10 * v + d)
  {
    var z: nat :| s == Zeros(z) + FormatNat(v);
    var text := s + FormatNat(d);
    if v == 0 {
      assert Zeros(z + 1) == Zeros(z) + FormatNat(0);
      assert text == Zeros(z + 1) + FormatNat(d);
    } else {
      assert (10 * v + d) / 10 == v && (10 * v + d) % 10 == d;
      assert FormatNat(10 * v + d) == FormatNat(v) + FormatNat(d);
      assert text == Zeros(z) + (FormatNat(v) + FormatNat(d));
    }
  }

  /** A text of digits is the text of its value. */
  lemma {:induction false} ParsedIsText(s: string)
    requires s != "" && ParseDigits(s).Some?
    ensures IsTextOf(s, ParseDigits(s).value)
  {
    var init, d := s[..|s| - 1], s[|s| - 1] as int - '0' as int;
    assert s == init + FormatNat(d);
    if init == "" {
      assert s == Zeros(0) + FormatNat(d);
    } else {
      ParsedIsText(init);
      NextDigit(init, ParseDigits(init).value, d);
    }
  }

  /** Digits parse to n exactly when they are the text of n. */
  lemma ParseDigitsMeaning(s: string, n: nat)
    requires s != ""
    ensures ParseDigits(s) == Some(n) <==> IsTextOf(s, n)
  {
    if ParseDigits(s) == Some(n) {
      ParsedIsText(s);
    }
    if IsTextOf(s, n) {
      var z: nat :| s == Zeros(z) + FormatNat(n);
      ParseZeros(z, FormatNat(n));
      ParseFormatNat(n);
    }
  }

  lemma {:induction false} ParseDigitsIff(s: string)
    ensures ParseDigits(s).Some? <==> forall c :: c in s ==> IsDigit(c)
  {
    if s != "" {
      ParseDigitsIff(s[..|s| - 1]);
      assert s == s[..|s| - 1] + [s[|s| - 1]];
    }
  }

  lemma SignedDigits(s: string, n: nat)
    requires s != "" && IsDigit(s[0]) && ParseDigits(s) == Some(n)
    ensures ParseInt64(s) == ParseInt64("+" + s) == Clamped(n)
    ensures ParseInt64("-" + s) == Clamped(0 - n)
  {
    assert ParseSigned(false, s) == Clamped(n) && ParseSigned(true, s) == Clamped(0 - n);
    assert ("+" + s)[1..] == s && ("-" + s)[1..] == s;
  }

  lemma TextIsDigits(s: string, n: nat)
    requires IsTextOf(s, n)
    ensures s != "" && IsDigit(s[0]) && ParseDigits(s) == Some(n)
  {
    ParseDigitsMeaning(s, n);
    ParseDigitsIff(s);
    assert s[0] in s;
  }

  /** What a reader makes of a value that is the text of a number, with or without a sign: the nearest in range. */
  lemma ParseInt64OfText(s: string, n: nat)
    requires IsTextOf(s, n)
    ensures ParseInt64(s) == ParseInt64("+" + s) == Clamped(n)
    ensures ParseInt64("-" + s) == Clamped(0 - n)
  {
    TextIsDigits(s, n);
    SignedDigits(s, n);
  }

  /** And of any other: 0. */
  lemma ParseInt64OfOther(s: string)
    requires !IsDecimal(s) && !(s != "" && (s[0] == '+' || s[0] == '-') && IsDecimal(s[1..]))
    ensures ParseInt64(s) == 0
  {
    var digits := if s != "" && (s[0] == '-' || s[0] == '+') then s[1..] else s;
    if digits != "" && ParseDigits(digits).Some? {
      ParsedIsText(digits);
    }
  }

  /** What the counter writes is what the next reader parses. */
  lemma ParseFormatInt(i: int)
    requires IsInt64(i)
    ensures ParseInt64(FormatInt(i)) == i
  {
    ParseFormatNat(if i < 0 then -i else i);
    if i < 0 {
      assert FormatInt(i)[1..] == FormatNat(-i);
    } else {
      assert FormatInt(i)[0] in FormatNat(i);
    }
  }
}
