// Decimal printing of integers, as std::to_string does it.
module Decimal {

  function Digit(d: nat): char
    requires d < 10
  {
    "0123456789"[d]
  }

  function Natural(n: nat): (s: string)
    ensures s != "" && forall c :: c in s ==> c != '-'
  {
    if n < 10 then [Digit(n)] else Natural(n / 10) + [Digit(n % 10)]
  }

  function Print(n: int): (s: string)
    ensures s != ""
  {
    if n < 0 then "-" + Natural(-n) else Natural(n)
  }

  lemma DigitInjective(a: nat, b: nat)
    requires a < 10 && b < 10 && Digit(a) == Digit(b)
    ensures a == b
  {
  }

  lemma {:induction false} NaturalInjective(a: nat, b: nat)
    requires Natural(a) == Natural(b)
    ensures a == b
  {
    var s, t := Natural(a), Natural(b);
    assert |Natural(a / 10)| > 0 && |Natural(b / 10)| > 0;
    assert s[|s| - 1] == Digit(a % 10) && t[|t| - 1] == Digit(b % 10);
    DigitInjective(a % 10, b % 10);
    if a >= 10 && b >= 10 {
      assert s[..|s| - 1] == Natural(a / 10) && t[..|t| - 1] == Natural(b / 10);
      NaturalInjective(a / 10, b / 10);
    }
  }

  lemma SignsDiffer(a: int, b: int)
    requires a < 0 <= b
    ensures Print(a) != Print(b)
  {
    assert Print(a)[0] == '-';
    assert Print(b)[0] in Print(b);
  }

  lemma PrintInjective(a: int, b: int)
    requires Print(a) == Print(b)
    ensures a == b
  {
    var s, t := Print(a), Print(b);
    if a < 0 && b < 0 {
      assert s[1..] == Natural(-a) && t[1..] == Natural(-b);
      NaturalInjective(-a, -b);
    } else if a >= 0 && b >= 0 {
      NaturalInjective(a, b);
    } else if a < 0 {
      SignsDiffer(a, b);
    } else {
      SignsDiffer(b, a);
    }
  }

  // What printing uses: digits, and a minus sign.
  predicate IsDigit(c: char) { '0' <= c <= '9' }

  lemma {:induction false} NaturalDigits(n: nat)
    ensures forall c :: c in Natural(n) ==> IsDigit(c)
  {
    if n >= 10 {
      NaturalDigits(n / 10);
    }
  }

  lemma PrintCharacters(n: int)
    ensures forall c :: c in Print(n) ==> IsDigit(c) || c == '-'
  {
    NaturalDigits(if n < 0 then -n else n);
  }

  // ----- printing is positional -----

  // The number a text of digits stands for, most significant digit first.
  function Value(s: string): int {
    if s == "" then 0
    else 10 * Value(s[..|s| - 1]) + (s[|s| - 1] as int - '0' as int)
  }

  // Reading the digits back gives the number, and there is no leading zero.
  lemma {:induction false} PrintedValue(n: nat)
    ensures Value(Natural(n)) == n
    ensures n > 0 ==> Natural(n)[0] != '0'
  {
    var s := Natural(n);
    if n < 10 {
      assert s[..0] == "" && s[0] as int - '0' as int == n;
    } else {
      PrintedValue(n / 10);
      assert s[..|s| - 1] == Natural(n / 10);
      assert s[|s| - 1] as int - '0' as int == n % 10;
    }
  }

  lemma PrintOneMore(n: nat, d: nat, more: nat, s: string)
    requires n > 0 && d < 10 && more == 10 * n + d && Natural(n) == s
    ensures Natural(more) == s + [Digit(d)]
  {
    assert more / 10 == n && more % 10 == d;
  }

  lemma PrintOfDigits(a: nat, b: nat, c: nat, d: nat, n: nat)
    requires 0 < a < 10 && b < 10 && c < 10 && d < 10 && n == 1000 * a + 100 * b + 10 * c + d
    ensures Print(n) == [Digit(a), Digit(b), Digit(c), Digit(d)]
  {
    PrintOneMore(a, b, 10 * a + b, [Digit(a)]);
    PrintOneMore(10 * a + b, c, 100 * a + 10 * b + c, [Digit(a), Digit(b)]);
    PrintOneMore(100 * a + 10 * b + c, d, n, [Digit(a), Digit(b), Digit(c)]);
  }
}
