/** `dec_digit`: decimal printing into the 12-byte global buffer. */
module Decimal {
  import opened CTypes

  function DigitOf(d: nat): byte
    requires d < 10
  {
    ByteFrom(d + 0x30)
  }

  predicate IsDigit(c: byte)
  {
    0x30 <= c <= 0x39
  }

  /** The decimal digits of `n`, most significant first. */
  function Digits(n: nat): (s: seq<byte>)
    ensures |s| > 0
  {
    if n < 10 then [DigitOf(n)] else Digits(n / 10) + [DigitOf(n % 10)]
  }

  lemma DigitsUnfold(n: nat)
    ensures Digits(n) == (if n / 10 == 0 then [] else Digits(n / 10)) + [DigitOf(n % 10)]
  {}

  function ValueOf(c: byte): (d: nat)
    requires IsDigit(c)
    ensures d < 10
  {
    c as nat - 0x30
  }

  function Parsed(s: seq<byte>): nat
    requires forall c :: c in s ==> IsDigit(c)
  {
    if s == [] then 0 else 10 * Parsed(s[..|s| - 1]) + ValueOf(s[|s| - 1])
  }

  lemma ParsedAppend(s: seq<byte>, c: byte)
    requires IsDigit(c) && forall x :: x in s ==> IsDigit(x)
    ensures forall x :: x in s + [c] ==> IsDigit(x)
    ensures Parsed(s + [c]) == 10 * Parsed(s) + ValueOf(c)
  {
    hide IsDigit, ValueOf;
    assert (s + [c])[..|s|] == s;
  }

  lemma DigitRoundTrip(d: nat)
    requires d < 10
    ensures IsDigit(DigitOf(d)) && ValueOf(DigitOf(d)) == d
    ensures DigitOf(d) == 0x30 <==> d == 0
  {
    ByteFromValue(d + 0x30);
    NonZeroDigit(d, DigitOf(d));
  }

  lemma NonZeroDigit(d: nat, c: byte)
    requires d < 10 && c as nat == d + 0x30
    ensures IsDigit(c) && (c == 0x30 <==> d == 0)
  {}

  /** The digits parse back to the number, without a leading zero. */
  lemma {:induction false} DigitsParseBack(n: nat)
    ensures var s := Digits(n);
            && (forall c :: c in s ==> IsDigit(c))
            && Parsed(s) == n && (s[0] == 0x30 <==> n == 0)
  {
    hide DigitOf, IsDigit, ValueOf, Parsed;
    DigitRoundTrip(n % 10);
    if n < 10 {
      NothingParsed();
      ParsedAppend([], DigitOf(n));
      assert [] + [DigitOf(n)] == [DigitOf(n)];
    } else {
      DigitsParseBack(n / 10);
      ParsedAppend(Digits(n / 10), DigitOf(n % 10));
    }
  }

  lemma QuotientOfQuotient(n: nat, m: nat)
    requires m > 0
    ensures n / 10 / m == n / (10 * m)
  {
    var q := n / 10 / m;
    var r := n / 10 - m * q;
    assert n == 10 * m * q + (10 * r + n % 10);
    QuotientIs(n, 10 * m, q, 10 * r + n % 10);
  }

  /** The digit of `n` with `places` digits to its right. */
  function DigitAt(n: nat, places: nat): nat
  {
    n / Power10(places) % 10
  }

  lemma PlaceStep(n: nat, places: nat)
    ensures DigitAt(n, places) == if places == 0 then n % 10 else DigitAt(n / 10, places - 1)
  {
    if places > 0 {
      QuotientOfQuotient(n, Power10(places - 1));
    }
  }

  /** Digit `i` from the left is the ASCII digit of its place in the number. */
  lemma {:induction false} DigitsByPlace(n: nat, i: nat)
    requires i < |Digits(n)|
    ensures Digits(n)[i] as nat == 0x30 + DigitAt(n, |Digits(n)| - 1 - i)
  {
    hide DigitOf, Digits, DigitAt;
    DigitsUnfold(n);
    DigitValue(n % 10);
    PlaceStep(n, |Digits(n)| - 1 - i);
    if i < |Digits(n)| - 1 {
      DigitsByPlace(n / 10, i);
    }
  }

  lemma DigitValue(d: nat)
    requires d < 10
    ensures DigitOf(d) as nat == 0x30 + d
  {
    ByteFromValue(d + 0x30);
  }

  lemma NothingParsed()
    ensures Parsed([]) == 0
  {}

  /** They are the only such string: no other digit string without a leading zero parses to
      the number. */
  lemma {:induction false} DigitsAreUnique(s: seq<byte>)
    requires s != [] && (forall c :: c in s ==> IsDigit(c)) && (s[0] == 0x30 ==> |s| == 1)
    ensures s == Digits(Parsed(s))
  {
    hide DigitOf, IsDigit, ValueOf, Digits, Parsed;
    var front, last := s[..|s| - 1], s[|s| - 1];
    var d := LastDigit(last);
    assert s == front + [last] && forall c :: c in front ==> c in s;
    ParsedAppend(front, last);
    if front == [] {
      NothingParsed();
      OneDigit(d);
    } else {
      DigitsAreUnique(front);
      DigitsParseBack(Parsed(front));
      DigitsAppend(Parsed(front), d);
    }
  }

  lemma OneDigit(d: nat)
    requires d < 10
    ensures Digits(d) == [DigitOf(d)]
  {}

  lemma DigitsAppend(q: nat, d: nat)
    requires q > 0 && d < 10
    ensures Digits(10 * q + d) == Digits(q) + [DigitOf(d)]
  {
    LastOff(q, d);
  }

  lemma LastOff(q: nat, d: nat)
    requires d < 10
    ensures (10 * q + d) / 10 == q && (10 * q + d) % 10 == d
  {}

  lemma LastDigit(c: byte) returns (d: nat)
    requires IsDigit(c)
    ensures d < 10 && ValueOf(c) == d && c == DigitOf(d)
  {
    d := c as nat - 0x30;
    ByteFromValue(d + 0x30);
    assert (c as nat) as byte == c && (DigitOf(d) as nat) as byte == DigitOf(d);
  }

  function Power10(n: nat): (p: nat)
    ensures p > 0
  {
    if n == 0 then 1 else 10 * Power10(n - 1)
  }

  lemma {:induction false} DigitsLength(n: nat, k: nat)
    requires k > 0 && n < Power10(k)
    ensures |Digits(n)| <= k
  {
    if n >= 10 {
      assert k > 1;
      DigitsLength(n / 10, k - 1);
    }
  }

  /** At most ten digits in 32 bits. */
  lemma TenDigitsSuffice(n: uint32)
    ensures |Digits(n)| <= 10
  {
    assert Power10(10) == 100_0000_0000 by {
      assert Power10(5) == 10_0000;
    }
    DigitsLength(n, 10);
  }

  /** Leaves the digits and then NULs, at least two of them. */
  method DecDigit(numString: array<byte>, num0: uint32)
    requires numString.Length == 12
    modifies numString
    ensures |Digits(num0)| <= 10
    ensures numString[..|Digits(num0)|] == Digits(num0)
    ensures forall k :: |Digits(num0)| <= k < 12 ==> numString[k] == 0
  {
    hide DigitOf, Digits;
    TenDigitsSuffice(num0);
    var length: uint32, num1: uint32 := 0, num0;
    for i := 0 to 12
      invariant forall k :: 0 <= k < i ==> numString[k] == 0
    {
      numString[i] := 0x00;
    }
    while true
      invariant length + |Digits(num1)| == |Digits(num0)|
      invariant forall k :: 0 <= k < 12 ==> numString[k] == 0
      decreases num1
    {
      DigitsUnfold(num1);
      num1 := num1 / 10;
      length := length + 1;
      if num1 == 0 {
        break;
      }
    }
    ghost var digits := Digits(num0);
    var num := num0;
    var i: nat := length;
    while i > 0
      invariant 0 < i <= length == |digits|
      invariant Digits(num) == digits[..i]
      invariant forall k :: i <= k < length ==> numString[k] == digits[k]
      invariant forall k :: 0 <= k < 12 && (k < i || length <= k) ==> numString[k] == 0
      decreases i
    {
      DigitsUnfold(num);
      assert digits[i - 1] == Digits(num)[i - 1] == DigitOf(num % 10);
      numString[i - 1] := DigitOf(num % 10);
      num := num / 10;
      if num == 0 {
        assert i == 1;
        break;
      }
      assert digits[..i - 1] == digits[..i][..i - 1] == Digits(num);
      i := i - 1;
    }
  }
}
