/** Decimal text as the collectors read and the kernel prints it. */
module Text {

  datatype Option<+T> = None | Some(value: T)

  /** One past the largest uint64_t. */
  const U64: int := 0x1_0000_0000_0000_0000

  type u64 = n: int | 0 <= n < U64

  predicate IsDigit(c: char) {
    '0' <= c <= '9'
  }

  predicate AllDigits(s: string) {
    forall i :: 0 <= i < |s| ==> IsDigit(s[i])
  }

  function DigitValue(c: char): (d: nat)
    requires IsDigit(c)
    ensures d < 10
  {
    c as int - '0' as int
  }

  function Digit(d: nat): (c: char)
    requires d < 10
    ensures IsDigit(c) && DigitValue(c) == d
  {
    ('0' as int + d) as char
  }

  /** The first position of c, or |s|. */
  function IndexOf(s: string, c: char): (i: nat)
    ensures i <= |s| && (i < |s| ==> s[i] == c)
    ensures forall k :: 0 <= k < i ==> s[k] != c
    ensures i < |s| <==> c in s
  {
    if s == "" || s[0] == c then 0 else 1 + IndexOf(s[1..], c)
  }

  predicate IsSpace(c: char) {
    c == ' ' || c == '\t' || c == '\n' || c == '\r' || c as int == 11 || c as int == 12
  }

  function SkipSpace(s: string): (t: string)
    ensures |t| <= |s|
  {
    if s != "" && IsSpace(s[0]) then SkipSpace(s[1..]) else s
  }

  /** The number written by a string of digits. */
  function Value(s: string): nat
    requires AllDigits(s)
  {
    if s == "" then 0 else 10 * Value(s[..|s| - 1]) + DigitValue(s[|s| - 1])
  }

  /** The decimal form the kernel prints. */
  function Decimal(n: nat): (s: string)
    ensures s != "" && AllDigits(s)
  {
    if n < 10 then [Digit(n)] else Decimal(n / 10) + [Digit(n % 10)]
  }

  lemma {:induction false} ValueOfDecimal(n: nat)
    ensures Value(Decimal(n)) == n
  {
    var s := Decimal(n);
    if n < 10 {
      assert s[..0] == "";
    } else {
      ValueOfDecimal(n / 10);
      assert s[..|s| - 1] == Decimal(n / 10);
    }
  }

  /** How many digits the string starts with. */
  function LeadingDigits(s: string): (n: nat)
    ensures n <= |s| && AllDigits(s[..n])
    ensures n < |s| ==> !IsDigit(s[n])
  {
    if s == "" || !IsDigit(s[0]) then 0
    else
      var n := LeadingDigits(s[1..]);
      assert s[..1 + n] == [s[0]] + s[1..][..n];
      1 + n
  }

  lemma {:induction false} LeadingDigitsOf(ds: string, rest: string)
    requires AllDigits(ds) && (rest == "" || !IsDigit(rest[0]))
    ensures LeadingDigits(ds + rest) == |ds|
  {
    if ds == "" {
      assert ds + rest == rest;
    } else {
      assert (ds + rest)[1..] == ds[1..] + rest;
      LeadingDigitsOf(ds[1..], rest);
    }
  }

  /** std::from_chars on an unsigned integer: the leading digits, refused when absent or out of range. */
  function FromChars(s: string): Option<u64> {
    var n := LeadingDigits(s);
    if n == 0 || Value(s[..n]) >= U64 then None else Some(Value(s[..n]))
  }

  lemma FromCharsOfDecimal(n: nat)
    ensures FromChars(Decimal(n)) == if n < U64 then Some(n) else None
  {
    FromCharsStops(n, "");
    assert Decimal(n) + "" == Decimal(n);
  }

  /** What follows the number is left unread, and text that does not begin with a digit is refused. */
  lemma FromCharsStops(n: nat, rest: string)
    requires rest == "" || !IsDigit(rest[0])
    ensures FromChars(Decimal(n) + rest) == if n < U64 then Some(n) else None
    ensures FromChars(rest) == None
  {
    var s := Decimal(n);
    LeadingDigitsOf(s, rest);
    assert (s + rest)[..|s|] == s;
    ValueOfDecimal(n);
  }
}
