/** Numbers as C text: `%d`, `%2d` and `atoi`. */
module CText {
  function Digit(d: nat): char
    requires d < 10
  {
    '0' + d as char
  }

  predicate IsDigit(c: char) {
    '0' <= c <= '9'
  }

  function Decimal(n: nat): (s: string)
    ensures s != "" && forall c | c in s :: IsDigit(c)
  {
    if n < 10 then [Digit(n)] else Decimal(n / 10) + [Digit(n % 10)]
  }

  /** `%d` */
  function IntText(n: int): (s: string)
    ensures s != "" && (n < 0 ==> s[0] == '-')
  {
    if n < 0 then "-" + Decimal(-n) else Decimal(n)
  }

  /** `%2d` of a number that is not negative */
  function Padded(n: nat): string {
    if n < 10 then [' ', Digit(n)] else Decimal(n)
  }

  predicate AllDigits(s: string) {
    forall i | 0 <= i < |s| :: IsDigit(s[i])
  }

  function Value(s: string): nat
    requires AllDigits(s)
  {
    if s == "" then 0 else Value(s[..|s| - 1]) * 10 + (s[|s| - 1] - '0') as nat
  }

  lemma {:induction false} ValueOfDecimal(n: nat)
    ensures AllDigits(Decimal(n)) && Value(Decimal(n)) == n
  {
    if n >= 10 {
      ValueOfDecimal(n / 10);
      assert Decimal(n)[..|Decimal(n)| - 1] == Decimal(n / 10);
    } else {
      assert Decimal(n)[..0] == "";
    }
  }

  function DigitRun(s: string): (n: nat)
    ensures n <= |s| && AllDigits(s[..n])
    ensures n < |s| ==> !IsDigit(s[n])
  {
    if s == "" || !IsDigit(s[0]) then 0
    else
      var n := DigitRun(s[1..]);
      assert s[..1 + n] == [s[0]] + s[1..][..n];
      1 + n
  }

  predicate IsSpace(c: char) {
    c == ' ' || '\t' <= c <= '\r'
  }

  /** `atoi`, without its behaviour outside the range of `int`. */
  function Atoi(s: string): int {
    if s != "" && IsSpace(s[0]) then Atoi(s[1..])
    else if s != "" && s[0] == '-' then 0 - Value(s[1..][..DigitRun(s[1..])])
    else if s != "" && s[0] == '+' then Value(s[1..][..DigitRun(s[1..])])
    else Value(s[..DigitRun(s)])
  }

  lemma {:induction false} DigitRunWhole(d: string, rest: string)
    requires AllDigits(d) && (rest == "" || !IsDigit(rest[0]))
    ensures DigitRun(d + rest) == |d|
  {
    if d == "" {
      assert d + rest == rest;
    } else {
      DigitRunWhole(d[1..], rest);
      assert (d + rest)[1..] == d[1..] + rest;
    }
  }

  /** A number is read up to the first character that is not a digit. */
  lemma AtoiDecimal(n: nat, rest: string)
    requires rest == "" || !IsDigit(rest[0])
    ensures Atoi(Decimal(n) + rest) == n
  {
    var d := Decimal(n);
    ValueOfDecimal(n);
    DigitRunWhole(d, rest);
    assert d[0] in d && (d + rest)[0] == d[0];
    assert (d + rest)[..|d|] == d;
  }

  lemma {:induction false} AtoiNegated(d: string)
    requires AllDigits(d)
    ensures Atoi("-" + d) == 0 - Value(d)
  {
    DigitRunWhole(d, "");
    assert d + "" == d && ("-" + d)[1..] == d && d[..|d|] == d;
  }

  lemma AtoiIntText(n: int)
    ensures Atoi(IntText(n)) == n
  {
    hide Atoi, DigitRun, Value, Decimal;
    if n < 0 {
      ValueOfDecimal(-n);
      AtoiNegated(Decimal(-n));
    } else {
      AtoiDecimal(n, "");
      assert Decimal(n) + "" == Decimal(n);
    }
  }

  lemma AtoiPadded(n: nat, rest: string)
    requires rest == "" || !IsDigit(rest[0])
    ensures Atoi(Padded(n) + rest) == n
  {
    hide Atoi;
    AtoiDecimal(n, rest);
    if n < 10 {
      assert (Padded(n) + rest)[0] == ' ' && (Padded(n) + rest)[1..] == Decimal(n) + rest;
      AtoiSkips(Padded(n) + rest);
    }
  }

  lemma AtoiSkips(s: string)
    requires s != "" && IsSpace(s[0])
    ensures Atoi(s) == Atoi(s[1..])
  {
  }
}
