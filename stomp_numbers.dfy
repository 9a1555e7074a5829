/**
 * The two number conversions the codec applies to a `content-length`
 * value: `std::stoi` while delimiting the body, and `std::from_chars` into
 * a `size_t` while validating. They accept different spellings, and the
 * first one throws where the second one reports an error code.
 */
module StompNumbers {

  /** `isspace` in the "C" locale: space, tab, newline, vertical tab, form feed, carriage return. */
  predicate IsSpace(c: char) {
    c == ' ' || c == '\t' || c == '\n' || c == '\U{000B}' || c == '\U{000C}' || c == '\r'
  }

  predicate IsDigit(c: char) {
    '0' <= c <= '9'
  }

  predicate AllDigits(s: string) {
    forall i :: 0 <= i < |s| ==> IsDigit(s[i])
  }

  function DigitValue(c: char): (d: nat)
    requires IsDigit(c)
    ensures d < 10
  {
    c as int - '0' as int
  }

  function DigitChar(d: nat): (c: char)
    requires d < 10
    ensures IsDigit(c) && DigitValue(c) == d
  {
    ('0' as int + d) as char
  }

  /** The length of the longest prefix of `s` that is made of decimal digits. */
  function DigitRun(s: string): (n: nat)
    ensures n <= |s|
    ensures AllDigits(s[..n])
    ensures n < |s| ==> !IsDigit(s[n])
  {
    if s != [] && IsDigit(s[0]) then
      var n := 1 + DigitRun(s[1..]);
      assert s[..n] == [s[0]] + s[1..][..n - 1];
      n
    else
      0
  }

  /** The value of a string of decimal digits, most significant digit first. */
  function DecimalValue(s: string): nat
    requires AllDigits(s)
  {
    if s == [] then 0 else 10 * DecimalValue(s[..|s| - 1]) + DigitValue(s[|s| - 1])
  }

  /** The length of the run of white space that `strtol` skips. */
  function LeadingSpaces(s: string): (n: nat)
    ensures n <= |s|
    ensures forall i :: 0 <= i < n ==> IsSpace(s[i])
    ensures n < |s| ==> !IsSpace(s[n])
  {
    if s != [] && IsSpace(s[0]) then 1 + LeadingSpaces(s[1..]) else 0
  }

  /** The range of a 32-bit `int`, the result type of `std::stoi`. */
  const IntMin: int := -0x8000_0000
  const IntMax: int := 0x7FFF_FFFF

  /** `size_t` is 64 bits wide: arithmetic on it is modulo this number. */
  const SizeTModulus: int := 0x1_0000_0000_0000_0000

  /** The two exceptions `std::stoi` throws. */
  datatype StdException = InvalidArgument | OutOfRange

  datatype StoiResult = StoiValue(value: int) | StoiThrew(exception: StdException)

  /**
   * `std::stoi(s)`: skip white space, accept one optional sign, then read the
   * longest run of digits; anything after that run is ignored. No digit
   * throws `invalid_argument`, a value outside `int` throws `out_of_range`.
   */
  function Stoi(s: string): (r: StoiResult)
    ensures r.StoiValue? ==> IntMin <= r.value <= IntMax
  {
    var t := s[LeadingSpaces(s)..];
    var signed := t != [] && (t[0] == '+' || t[0] == '-');
    var u := if signed then t[1..] else t;
    var n := DigitRun(u);
    if n == 0 then
      StoiThrew(InvalidArgument)
    else
      var magnitude: int := DecimalValue(u[..n]);
      var v := if signed && t[0] == '-' then -magnitude else magnitude;
      if IntMin <= v <= IntMax then StoiValue(v) else StoiThrew(OutOfRange)
  }

  datatype FromCharsResult = FromCharsValue(value: nat) | FromCharsInvalid | FromCharsOutOfRange

  /**
   * `std::from_chars` into a `size_t`: no white space and no sign are
   * accepted, so the text must start with a digit (else `invalid_argument`);
   * the longest run of digits is read, and a value that does not fit in
   * 64 bits reports `result_out_of_range`.
   */
  function FromChars(s: string): (r: FromCharsResult)
    ensures r.FromCharsInvalid? <==> s == [] || !IsDigit(s[0])
    ensures r.FromCharsValue? ==> r.value < SizeTModulus
  {
    var n := DigitRun(s);
    if n == 0 then
      FromCharsInvalid
    else
      var v := DecimalValue(s[..n]);
      if v < SizeTModulus then FromCharsValue(v) else FromCharsOutOfRange
  }

  /** The conversion of an `int` to `size_t`: negative values wrap around. */
  function ToSizeT(v: int): (n: nat)
    ensures n < SizeTModulus
    ensures 0 <= v ==> v < SizeTModulus ==> n == v
    ensures v < 0 ==> -SizeTModulus <= v ==> n == v + SizeTModulus
  {
    v % SizeTModulus
  }

  /** The canonical decimal spelling of a natural number. */
  function NatToDecimal(n: nat): (s: string)
    ensures s != [] && AllDigits(s)
    ensures DecimalValue(s) == n
  {
    if n < 10 then
      [DigitChar(n)]
    else
      var s := NatToDecimal(n / 10) + [DigitChar(n % 10)];
      assert s[..|s| - 1] == NatToDecimal(n / 10);
      s
  }

  lemma {:induction false} DigitRunOfDigits(s: string, rest: string)
    requires AllDigits(s)
    requires rest == [] || !IsDigit(rest[0])
    ensures DigitRun(s + rest) == |s|
  {
    if s != [] {
      assert (s + rest)[1..] == s[1..] + rest;
      DigitRunOfDigits(s[1..], rest);
    }
  }

  /**
   * Where `from_chars` reads a number, `stoi` reads the same digits: both
   * conversions agree on every value that validation can accept.
   */
  lemma FromCharsAgreesWithStoi(s: string)
    ensures FromChars(s).FromCharsValue? ==>
      Stoi(s) == if FromChars(s).value <= IntMax then StoiValue(FromChars(s).value) else StoiThrew(OutOfRange)
    ensures FromChars(s).FromCharsOutOfRange? ==> Stoi(s) == StoiThrew(OutOfRange)
  {
    if s != [] && IsDigit(s[0]) {
      assert LeadingSpaces(s) == 0;
      assert s[0..] == s;
    }
  }

  /** The canonical spelling of a length that fits in an `int` is read back exactly by both conversions. */
  lemma CanonicalDecimalReadsBack(n: nat)
    requires n <= IntMax
    ensures Stoi(NatToDecimal(n)) == StoiValue(n)
    ensures FromChars(NatToDecimal(n)) == FromCharsValue(n)
  {
    var s := NatToDecimal(n);
    DigitRunOfDigits(s, []);
    assert s + [] == s;
    assert s[..|s|] == s;
    FromCharsAgreesWithStoi(s);
  }

  /** What `stoi` reads when one sign or space character precedes a run of digits. */
  lemma {:induction false} StoiAfterPrefix(prefix: char, digits: string)
    requires prefix == '+' || prefix == '-' || prefix == ' '
    requires digits != [] && AllDigits(digits) && DecimalValue(digits) <= IntMax
    ensures Stoi([prefix] + digits) ==
      StoiValue(if prefix == '-' then 0 - DecimalValue(digits) as int else DecimalValue(digits))
  {
    var s := [prefix] + digits;
    assert s[1..] == digits;
    DigitRunOfDigits(digits, []);
    assert digits + [] == digits;
    assert digits[..|digits|] == digits;
    if prefix == ' ' {
      assert LeadingSpaces(digits) == 0;
      assert LeadingSpaces(s) == 1;
    } else {
      assert LeadingSpaces(s) == 0;
      assert s[0..] == s;
    }
  }

  /**
   * A leading `+` or white space is accepted by `stoi` and refused by
   * `from_chars`; a leading `-` makes `stoi` return a negative number.
   */
  lemma SignAndSpaceQuirks(digits: string)
    requires digits != [] && AllDigits(digits) && DecimalValue(digits) <= IntMax
    ensures Stoi("+" + digits) == StoiValue(DecimalValue(digits))
    ensures Stoi(" " + digits) == StoiValue(DecimalValue(digits))
    ensures Stoi("-" + digits) == StoiValue(0 - DecimalValue(digits) as int)
    ensures FromChars("+" + digits).FromCharsInvalid?
    ensures FromChars(" " + digits).FromCharsInvalid?
    ensures FromChars("-" + digits).FromCharsInvalid?
  {
    StoiAfterPrefix('+', digits);
    StoiAfterPrefix(' ', digits);
    StoiAfterPrefix('-', digits);
  }
}
