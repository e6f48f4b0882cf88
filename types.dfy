/** Shared value types: bytes, optional values, C strings and decimal text. */
module Types {

  type byte = bv8

  datatype Option<T> = None | Some(value: T)

  /** `n` zero bytes, as left by `memset(buf, 0, n)` or a `= { 0 }` initialiser. */
  function Zeros(n: nat): (z: seq<byte>)
    ensures |z| == n
    ensures forall i :: 0 <= i < n ==> z[i] == 0
  {
    seq(n, _ => 0)
  }

  function Min(a: int, b: int): int { if a <= b then a else b }

  /** The C string stored in `b`: the bytes before the first NUL, or all of `b` when it holds none. */
  function CString(b: seq<byte>): (s: seq<byte>)
    ensures |s| <= |b| && s == b[..|s|]
    ensures 0 !in s
    ensures |s| < |b| ==> b[|s|] == 0
  {
    if b == [] || b[0] == 0 then [] else [b[0]] + CString(b[1..])
  }

  /** Decimal digits of `n` without leading zeros, as `sprintf("%d")` prints a non-negative value. */
  function DigitChars(n: nat): (s: seq<char>)
    ensures |s| >= 1
    ensures forall i :: 0 <= i < |s| ==> '0' <= s[i] <= '9'
    ensures n >= 10 ==> s[0] != '0'
  {
    if n < 10 then [('0' as int + n) as char]
    else DigitChars(n / 10) + [('0' as int + n % 10) as char]
  }

  /** The value written by a sequence of decimal digits. */
  function DigitValue(s: seq<char>): int
  {
    if s == [] then 0 else 10 * DigitValue(s[..|s| - 1]) + (s[|s| - 1] as int - '0' as int)
  }

  lemma {:induction false} DigitCharsRoundTrip(n: nat)
    ensures DigitValue(DigitChars(n)) == n
  {
    if n >= 10 {
      var s := DigitChars(n);
      assert s[..|s| - 1] == DigitChars(n / 10);
      DigitCharsRoundTrip(n / 10);
    }
  }

  /** The characters of a byte string, one per byte. */
  function TextChars(t: seq<byte>): (cs: seq<char>)
    ensures |cs| == |t| && forall i :: 0 <= i < |t| ==> cs[i] as int == t[i] as int
  {
    seq(|t|, i requires 0 <= i < |t| => t[i] as int as char)
  }

  /** The value of decimal text: an optional minus sign, then digits. */
  function DecimalValue(t: seq<byte>): int
  {
    if |t| > 0 && t[0] == '-' as byte then -DigitValue(TextChars(t[1..])) else DigitValue(TextChars(t))
  }

  /** A decimal digit keeps its code as a byte. */
  lemma ByteOfDigit(c: char)
    requires '0' <= c <= '9'
    ensures (c as int as byte) as int == c as int
  {
    if c == '0' {} else if c == '1' {} else if c == '2' {} else if c == '3' {} else if c == '4' {}
    else if c == '5' {} else if c == '6' {} else if c == '7' {} else if c == '8' {} else {}
  }

  /** The bytes of a string of decimal digits, one per digit. */
  function DigitBytes(cs: seq<char>): (t: seq<byte>)
    requires forall i :: 0 <= i < |cs| ==> '0' <= cs[i] <= '9'
    ensures |t| == |cs| && forall i :: 0 <= i < |t| ==> t[i] as int == cs[i] as int
  {
    var t := seq(|cs|, i requires 0 <= i < |cs| => cs[i] as int as byte);
    assert forall i :: 0 <= i < |t| ==> t[i] == cs[i] as int as byte;
    forall i | 0 <= i < |t| ensures t[i] as int == cs[i] as int {
      ByteOfDigit(cs[i]);
    }
    t
  }

  /** Reading digit bytes back as characters gives the digits they were made from. */
  lemma DigitBytesRoundTrip(cs: seq<char>)
    requires forall i :: 0 <= i < |cs| ==> '0' <= cs[i] <= '9'
    ensures TextChars(DigitBytes(cs)) == cs
  {
    var t := DigitBytes(cs);
    assert forall i :: 0 <= i < |cs| ==> TextChars(t)[i] as int == cs[i] as int;
  }

  /** `sprintf("%d", v)` as bytes. */
  function DecimalText(v: int): (t: seq<byte>)
    ensures |t| >= 1
    ensures (t[0] == '-' as byte) <==> v < 0
  {
    var digits := DigitChars(if v < 0 then -v else v);
    assert digits[0] != '-';
    if v < 0 then ['-' as byte] + DigitBytes(digits) else DigitBytes(digits)
  }

  /** The text `sprintf("%d")` prints reads back as the value printed. */
  lemma DecimalTextRoundTrip(v: int)
    ensures DecimalValue(DecimalText(v)) == v
  {
    var t := DecimalText(v);
    var n: nat := if v < 0 then -v else v;
    var digits := DigitChars(n);
    var b := DigitBytes(digits);
    DigitBytesRoundTrip(digits);
    DigitCharsRoundTrip(n);
    if v < 0 {
      assert t == ['-' as byte] + b;
      assert t[1..] == b;
      assert DecimalValue(t) == -DigitValue(TextChars(b));
    } else {
      assert t == b && t[0] != '-' as byte;
      assert DecimalValue(t) == DigitValue(TextChars(b));
    }
  }
}
