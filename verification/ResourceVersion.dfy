/** Resource versions are decimal strings compared as 64-bit integers, the way strconv.ParseInt(s, 10, 64) reads them. */
module ResourceVersion {
  import opened Basics

  const MAX_INT64: int := 0x7fff_ffff_ffff_ffff
  const MIN_INT64: int := -0x8000_0000_0000_0000

  predicate IsDigit(c: char) {
    '0' <= c <= '9'
  }

  predicate AllDigits(s: string) {
    forall i :: 0 <= i < |s| ==> IsDigit(s[i])
  }

  function DigitValue(c: char): nat
    requires IsDigit(c)
  {
    c as int - '0' as int
  }

  /** Positional value of a digit string. */
  function Magnitude(s: string): nat
    requires AllDigits(s)
  {
    if s == "" then 0 else 10 * Magnitude(s[..|s| - 1]) + DigitValue(s[|s| - 1])
  }

  function InInt64(n: int): Option<int> {
    if MIN_INT64 <= n <= MAX_INT64 then Some(n) else None
  }

  /** strconv.ParseInt(s, 10, 64); None stands for its syntax and range errors. */
  function ParseInt64(s: string): Option<int> {
    var signed := |s| > 0 && (s[0] == '+' || s[0] == '-');
    var digits := if signed then s[1..] else s;
    if digits == "" || !AllDigits(digits) then
      None
    else
      var n: int := Magnitude(digits);
      InInt64(if signed && s[0] == '-' then -n else n)
  }

  function Digit(d: nat): (c: char)
    requires d < 10
    ensures IsDigit(c) && DigitValue(c) == d
  {
    '0' + d as char
  }

  /** The usual decimal rendering, as a source assigns it. */
  function Decimal(n: nat): (s: string)
    ensures s != "" && AllDigits(s) && Magnitude(s) == n
  {
    if n < 10 then
      [Digit(n)]
    else
      var s := Decimal(n / 10) + [Digit(n % 10)];
      assert s[..|s| - 1] == Decimal(n / 10);
      s
  }

  function FormatInt(n: int): string {
    if n < 0 then "-" + Decimal(-n) else Decimal(n)
  }

  /** Rendering then parsing gives the number back, and exactly the 64-bit numbers survive. */
  lemma ParseFormat(n: int)
    ensures ParseInt64(FormatInt(n)) == InInt64(n)
  {
    if n < 0 {
      assert FormatInt(n)[1..] == Decimal(-n);
    } else {
      var s := Decimal(n);
      assert IsDigit(s[0]);
    }
  }

  function Zeros(k: nat): string {
    seq(k, _ => '0')
  }

  /** A digit string is the rendering of its value, with leading zeros. */
  lemma {:induction false} DigitsAreDecimal(s: string) returns (k: nat)
    requires s != "" && AllDigits(s)
    ensures s == Zeros(k) + Decimal(Magnitude(s))
    decreases |s|
  {
    var init, d := s[..|s| - 1], DigitValue(s[|s| - 1]);
    assert s == init + [Digit(d)];
    if init == "" {
      k := 0;
    } else {
      var z := DigitsAreDecimal(init);
      if Magnitude(init) == 0 {
        k := z + 1;
        assert init == Zeros(z) + "0" == Zeros(k);
      } else {
        k := z;
      }
    }
  }

  lemma {:induction false} ZerosAddNothing(k: nat, s: string)
    requires AllDigits(s)
    ensures AllDigits(Zeros(k) + s) && Magnitude(Zeros(k) + s) == Magnitude(s)
    decreases |s|, k
  {
    if s == "" {
      assert Zeros(k) + s == Zeros(k);
      if k > 0 {
        ZerosAddNothing(k - 1, s);
        assert Zeros(k)[..k - 1] == Zeros(k - 1) == Zeros(k - 1) + s;
      }
    } else {
      var init := s[..|s| - 1];
      ZerosAddNothing(k, init);
      assert (Zeros(k) + s)[..k + |s| - 1] == Zeros(k) + init;
    }
  }

  predicate IsSign(sign: string) {
    sign == "" || sign == "+" || sign == "-"
  }

  lemma SignedIsRead(sign: string, digits: string)
    requires IsSign(sign) && digits != "" && AllDigits(digits)
    ensures ParseInt64(sign + digits) == InInt64(if sign == "-" then 0 - Magnitude(digits) else Magnitude(digits))
  {
    var s := sign + digits;
    assert IsDigit(digits[0]);
    if sign == "" {
      assert s == digits;
    } else {
      assert s[0] == sign[0] && s[1..] == digits;
    }
  }

  lemma ReadIsSigned(s: string) returns (sign: string, digits: string)
    requires ParseInt64(s).Some?
    ensures IsSign(sign) && digits != "" && AllDigits(digits) && s == sign + digits
  {
    if s[0] == '+' || s[0] == '-' {
      sign, digits := s[..1], s[1..];
      assert sign == [s[0]];
    } else {
      sign, digits := "", s;
    }
  }

  /** `s` is a sign, any number of zeros, and n without its sign in decimal; the sign is "-" below zero, "+" or none above,
      and any of these for zero. */
  ghost predicate Denotes(s: string, sign: string, k: nat, n: int) {
    && s == sign + (Zeros(k) + Decimal(if n < 0 then -n else n))
    && IsSign(sign) && (n < 0 ==> sign == "-") && (n > 0 ==> sign != "-")
  }

  /** Exactly these strings are read, within 64 bits, and as that number. */
  lemma ParseExactly(s: string, n: int)
    ensures ParseInt64(s) == Some(n) <==> MIN_INT64 <= n <= MAX_INT64 && exists sign, k :: Denotes(s, sign, k, n)
  {
    if ParseInt64(s) == Some(n) {
      ReadIsDenoted(s, n);
    }
    if sign, k :| Denotes(s, sign, k, n) {
      DenotedIsRead(s, sign, k, n);
    }
  }

  lemma ReadIsDenoted(s: string, n: int)
    requires ParseInt64(s) == Some(n)
    ensures MIN_INT64 <= n <= MAX_INT64 && exists sign, k :: Denotes(s, sign, k, n)
  {
    var sign, digits := ReadIsSigned(s);
    SignedIsRead(sign, digits);
    var k := DigitsAreDecimal(digits);
    assert Denotes(s, sign, k, n);
  }

  lemma DenotedIsRead(s: string, sign: string, k: nat, n: int)
    requires Denotes(s, sign, k, n)
    ensures ParseInt64(s) == InInt64(n)
  {
    var m: nat := if n < 0 then -n else n;
    ZerosAddNothing(k, Decimal(m));
    SignedIsRead(sign, Zeros(k) + Decimal(m));
  }
}
