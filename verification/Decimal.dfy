/** Decimal numbers as the C library prints and reads them. */
module Decimal {
  predicate IsDigit(c: char) { '0' <= c <= '9' }

  predicate IsSpace(c: char) { c in " \t\n\r" || c as int == 11 || c as int == 12 }

  function Digit(d: nat): (c: char)
    requires d < 10
    ensures IsDigit(c)
  {
    (d + 48) as char
  }

  function DigitValue(c: char): (d: nat)
    requires IsDigit(c)
    ensures d < 10 && Digit(d) == c
  {
    c as int - 48
  }

  predicate AllDigits(s: string) { forall i | 0 <= i < |s| :: IsDigit(s[i]) }

  /** printf("%d") of a number that is not negative. */
  function Digits(n: nat): (s: string)
    ensures |s| > 0 && AllDigits(s)
  {
    if n < 10 then [Digit(n)] else Digits(n / 10) + [Digit(n % 10)]
  }

  function Value(s: string): nat
    requires AllDigits(s)
  {
    if s == [] then 0 else Value(s[..|s| - 1]) * 10 + DigitValue(s[|s| - 1])
  }

  lemma {:induction false} ValueOfDigits(n: nat)
    ensures Value(Digits(n)) == n
  {
    if n < 10 {
      assert Digits(n)[..0] == [];
    } else {
      ValueOfDigits(n / 10);
      assert Digits(n)[..|Digits(n)| - 1] == Digits(n / 10);
    }
  }

  /** How many digits the text starts with. */
  function DigitRun(s: string): (k: nat)
    ensures k <= |s| && AllDigits(s[..k]) && (k < |s| ==> !IsDigit(s[k]))
  {
    if s == [] || !IsDigit(s[0]) then 0 else
      var k := DigitRun(s[1..]);
      assert s[..k + 1] == [s[0]] + s[1..][..k];
      k + 1
  }

  /** atoi and atol on numbers that fit. */
  function Atoi(s: string): int {
    if s != [] && IsSpace(s[0]) then Atoi(s[1..])
    else if s != [] && s[0] == '-' then 0 - Value(s[1..][..DigitRun(s[1..])])
    else if s != [] && s[0] == '+' then Value(s[1..][..DigitRun(s[1..])])
    else Value(s[..DigitRun(s)])
  }

  lemma {:induction false} DigitRunStops(d: string, rest: string)
    requires AllDigits(d) && (rest != [] ==> !IsDigit(rest[0]))
    ensures DigitRun(d + rest) == |d|
  {
    if d == [] {
      assert d + rest == rest;
    } else {
      assert (d + rest)[1..] == d[1..] + rest;
      DigitRunStops(d[1..], rest);
    }
  }

  /** A printed number is read back, whatever follows it. */
  lemma ReadsPrinted(n: nat, rest: string)
    requires rest != [] ==> !IsDigit(rest[0])
    ensures Atoi(Digits(n) + rest) == n
  {
    var s := Digits(n) + rest;
    assert s[0] == Digits(n)[0];
    DigitRunStops(Digits(n), rest);
    assert s[..|Digits(n)|] == Digits(n);
    ValueOfDigits(n);
  }

  /** A number of at most k decimal digits. */
  function Pow10(k: nat): (r: nat)
    ensures r >= 1
  {
    if k == 0 then 1 else 10 * Pow10(k - 1)
  }

  lemma {:induction false} DigitsLength(n: nat, k: nat)
    requires n < Pow10(k) && k >= 1
    ensures |Digits(n)| <= k
  {
    if n >= 10 {
      DigitsLength(n / 10, k - 1);
    }
  }

  /** The first digits of a printed positive number never read as zero. */
  lemma {:induction false} PrefixPositive(n: nat, k: nat)
    requires n >= 1 && 1 <= k <= |Digits(n)|
    ensures Value(Digits(n)[..k]) >= 1
  {
    if k == |Digits(n)| {
      assert Digits(n)[..k] == Digits(n);
      ValueOfDigits(n);
    } else {
      assert Digits(n)[..k] == Digits(n / 10)[..k];
      PrefixPositive(n / 10, k);
    }
  }

  /** Atoi on digits followed by something else. */
  lemma AtoiOfDigits(d: string, rest: string)
    requires AllDigits(d) && (rest != [] ==> !IsDigit(rest[0]))
    requires d == [] ==> rest == []
    ensures Atoi(d + rest) == Value(d)
  {
    DigitRunStops(d, rest);
    assert (d + rest)[..|d|] == d;
  }
}
