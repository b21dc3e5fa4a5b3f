/** Decimal spelling of numbers: written as `std::to_string` does, and read back. */
module Decimal {
  predicate IsDigit(c: char) {
    '0' <= c <= '9'
  }

  predicate IsNumberText(s: string) {
    s != [] && forall i | 0 <= i < |s| :: IsDigit(s[i])
  }

  function DigitValue(c: char): nat
    requires IsDigit(c)
  {
    c as int - '0' as int
  }

  /** The decimal value of a digit string. */
  function DecimalValue(s: string): (n: nat)
    requires forall i | 0 <= i < |s| :: IsDigit(s[i])
  {
    if s == [] then 0 else 10 * DecimalValue(s[..|s| - 1]) + DigitValue(s[|s| - 1])
  }

  function Digits(n: nat): (s: string)
    ensures s != ""
  {
    var last := [('0' as int + n % 10) as char];
    if n < 10 then last else Digits(n / 10) + last
  }

  function IntText(n: int): string {
    if n < 0 then "-" + Digits(-n) else Digits(n)
  }

  /** The spelling of a number: digits, no needless zero in front, and the number when read back. */
  lemma {:induction false} DigitsDenote(n: nat)
    ensures IsNumberText(Digits(n)) && DecimalValue(Digits(n)) == n
    ensures Digits(n)[0] == '0' ==> Digits(n) == "0"
  {
    var last := [('0' as int + n % 10) as char];
    if n < 10 {
      assert last[..0] == [];
    } else {
      DigitsDenote(n / 10);
      var s := Digits(n);
      assert s == Digits(n / 10) + last;
      assert s[..|s| - 1] == Digits(n / 10);
      assert s[0] == Digits(n / 10)[0];
    }
  }

  /** A run of digits spells the number it denotes, unless it begins with a needless zero. */
  lemma {:induction false} SpellingIsUnique(s: string)
    requires IsNumberText(s) && (s[0] == '0' ==> s == "0")
    ensures Digits(DecimalValue(s)) == s
  {
    var n := |s| - 1;
    var front, last := s[..n], s[n];
    assert s == front + [last];
    if n == 0 {
      assert front == [];
    } else {
      SpellingIsUnique(front);
      NotZero(front);
    }
    assert IsDigit(last) && [('0' as int + DigitValue(last)) as char] == [last];
  }

  lemma {:induction false} NotZero(s: string)
    requires IsNumberText(s) && s[0] != '0'
    ensures DecimalValue(s) > 0
  {
    if |s| > 1 {
      assert s[..|s| - 1][0] == s[0];
      NotZero(s[..|s| - 1]);
    } else {
      assert s[..0] == [];
    }
  }

  /** Different numbers are spelled differently; a negative one is its magnitude after a minus sign. */
  lemma IntTextIsUnique(m: int, n: int)
    ensures IntText(m) == IntText(n) <==> m == n
    ensures n < 0 ==> IntText(n) == "-" + IntText(-n)
    ensures n >= 0 ==> IsNumberText(IntText(n)) && DecimalValue(IntText(n)) == n
    ensures ':' !in IntText(n)
  {
    DigitsDenote(if m < 0 then -m else m);
    DigitsDenote(if n < 0 then -n else n);
    hide Digits;
    hide DecimalValue;
    var a, b := IntText(m), IntText(n);
    assert m < 0 ==> a[0] == '-' && a[1..] == Digits(-m);
    assert n < 0 ==> b[0] == '-' && b[1..] == Digits(-n);
    assert m >= 0 ==> IsDigit(a[0]);
    assert n >= 0 ==> IsDigit(b[0]);
  }
}
