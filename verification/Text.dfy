/** Numbers in decimal and bytes in hexadecimal, as keys are formatted. */
module Text {
  import opened Words

  const DIGITS: string := "0123456789abcdef"

  function Decimal(n: nat): (s: string)
    ensures |s| >= 1
  {
    if n < 10 then [DIGITS[n]] else Decimal(n / 10) + [DIGITS[n % 10]]
  }

  function Hex(b: seq<byte>): (s: string)
    ensures |s| == 2 * |b|
  {
    if b == [] then "" else [DIGITS[b[0] / 16], DIGITS[b[0] % 16]] + Hex(b[1..])
  }

  /** The value of a digit, in decimal or hexadecimal. */
  function DigitValue(c: char): int {
    if c <= '9' then c as int - '0' as int else 10 + (c as int - 'a' as int)
  }

  function ReadDecimal(s: string): int {
    if s == "" then 0 else 10 * ReadDecimal(s[..|s| - 1]) + DigitValue(s[|s| - 1])
  }

  /** A number in decimal reads back as that number, and has no leading zero. */
  lemma {:induction false} DecimalReads(n: nat)
    ensures ReadDecimal(Decimal(n)) == n && (n > 0 ==> Decimal(n)[0] != '0')
  {
    var s := Decimal(n);
    if n >= 10 {
      DecimalReads(n / 10);
      assert s[..|s| - 1] == Decimal(n / 10);
    } else {
      assert s[..0] == "";
    }
  }

  /** Each byte is written as two digits, the upper one first. */
  lemma {:induction false} HexReads(b: seq<byte>, i: nat)
    requires i < |b|
    ensures b[i] == 16 * DigitValue(Hex(b)[2 * i]) + DigitValue(Hex(b)[2 * i + 1])
  {
    hide DigitValue;
    DigitHasValue(b[0] / 16);
    DigitHasValue(b[0] % 16);
    if i > 0 {
      var rest := b[1..];
      HexReads(rest, i - 1);
      assert Hex(b)[2..] == Hex(rest);
      assert Hex(b)[2 * i] == Hex(rest)[2 * (i - 1)] && Hex(b)[2 * i + 1] == Hex(rest)[2 * (i - 1) + 1];
    }
  }

  lemma DigitHasValue(i: nat)
    requires i < 16
    ensures DigitValue(DIGITS[i]) == i
  {
  }

  lemma DigitInjective(i: nat, j: nat)
    requires i < 16 && j < 16 && DIGITS[i] == DIGITS[j]
    ensures i == j
  {
  }

  lemma {:induction false} DecimalInjective(m: nat, n: nat)
    requires Decimal(m) == Decimal(n)
    ensures m == n
  {
    var s, t := Decimal(m), Decimal(n);
    assert s[|s| - 1] == DIGITS[m % 10] && t[|t| - 1] == DIGITS[n % 10];
    DigitInjective(m % 10, n % 10);
    if m >= 10 && n >= 10 {
      assert s[..|s| - 1] == Decimal(m / 10) && t[..|t| - 1] == Decimal(n / 10);
      DecimalInjective(m / 10, n / 10);
    }
  }

  lemma {:induction false} HexInjective(a: seq<byte>, b: seq<byte>)
    requires Hex(a) == Hex(b)
    ensures a == b
  {
    if a != [] && b != [] {
      assert Hex(a)[0] == Hex(b)[0] && Hex(a)[1] == Hex(b)[1];
      DigitInjective(a[0] / 16, b[0] / 16);
      DigitInjective(a[0] % 16, b[0] % 16);
      assert Hex(a)[2..] == Hex(a[1..]) && Hex(b)[2..] == Hex(b[1..]);
      HexInjective(a[1..], b[1..]);
      assert a == [a[0]] + a[1..] && b == [b[0]] + b[1..];
    }
  }

  lemma HexStep(x: byte, rest: seq<byte>)
    ensures Hex([x] + rest) == [DIGITS[x / 16], DIGITS[x % 16]] + Hex(rest)
  {
    assert ([x] + rest)[1..] == rest;
  }

  lemma {:induction false} HexSplit(a: seq<byte>, b: seq<byte>)
    ensures Hex(a + b) == Hex(a) + Hex(b)
  {
    if a == [] {
      assert a + b == b;
    } else {
      assert (a + b)[1..] == a[1..] + b;
      HexSplit(a[1..], b);
    }
  }

  predicate IsDigit(c: char) {
    c in DIGITS[..10]
  }

  lemma {:induction false} DecimalDigits(n: nat, i: nat)
    requires i < |Decimal(n)|
    ensures IsDigit(Decimal(n)[i])
  {
    if n >= 10 && i < |Decimal(n / 10)| {
      DecimalDigits(n / 10, i);
    } else {
      assert DIGITS[n % 10] == DIGITS[..10][n % 10];
    }
  }
}
