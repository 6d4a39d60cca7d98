/** The few pieces of JavaScript's string behaviour the slug scripts rely on:
    turning a whole Number into its decimal string (as `year + month` and
    `'0' + x` do), `String.prototype.slice` with one argument, and
    `Array.prototype.join`.  Strings are sequences of UTF-16 code units in
    JavaScript; every string here is ASCII, so `seq<char>` models them. */
module JsText {

  /** The character of the decimal digit `d`. */
  function Digit(d: nat): (c: char)
    requires d < 10
    ensures '0' <= c <= '9'
    ensures c as int - '0' as int == d
  {
    ('0' as int + d) as char
  }

  predicate IsDigit(c: char) {
    '0' <= c <= '9'
  }

  predicate AllDigits(s: string) {
    forall i :: 0 <= i < |s| ==> IsDigit(s[i])
  }

  /** The value of one digit character; the inverse of `Digit`. */
  function DigitValue(c: char): (d: nat)
    requires IsDigit(c)
    ensures d < 10 && Digit(d) == c
  {
    c as int - '0' as int
  }

  /** The number a string of decimal digits denotes, leading zeros allowed:
      the reading of a digit string that the formatting lemmas use. */
  function DecimalValue(s: string): nat
    requires AllDigits(s)
  {
    if s == [] then 0 else DecimalValue(s[..|s| - 1]) * 10 + DigitValue(s[|s| - 1])
  }

  /** `String(n)` for a whole Number `n >= 0` below 10^21 (from there on
      JavaScript switches to exponent notation): its decimal digits, with
      no sign and no leading zero. */
  function NatToDecimal(n: nat): (s: string)
    ensures |s| >= 1 && AllDigits(s)
  {
    if n < 10 then [Digit(n)] else NatToDecimal(n / 10) + [Digit(n % 10)]
  }

  /** The last character of `String(n)` is its units digit and, from 10 on,
      the one before it is its tens digit. */
  lemma NatToDecimalLastDigits(n: nat)
    ensures NatToDecimal(n)[|NatToDecimal(n)| - 1] == Digit(n % 10)
    ensures n >= 10 ==> |NatToDecimal(n)| >= 2 && NatToDecimal(n)[|NatToDecimal(n)| - 2] == Digit(n / 10 % 10)
  {
    if n >= 10 {
      var s := NatToDecimal(n / 10);
      if n / 10 >= 10 {
        assert s == NatToDecimal(n / 100) + [Digit(n / 10 % 10)];
      }
    }
  }

  /** `String(n)` reads back as `n`, and only `0` starts with a zero. */
  lemma {:induction false} NatToDecimalValue(n: nat)
    ensures DecimalValue(NatToDecimal(n)) == n
    ensures NatToDecimal(n)[0] == '0' <==> n == 0
  {
    if n >= 10 {
      var s := NatToDecimal(n);
      NatToDecimalValue(n / 10);
      assert s[..|s| - 1] == NatToDecimal(n / 10);
      assert s[0] == NatToDecimal(n / 10)[0];
    }
  }

  /** `String(y)` for a whole Number `y` of magnitude below 10^21: a
      leading `-` when negative. */
  function IntToDecimal(y: int): (s: string)
    ensures y >= 0 ==> AllDigits(s)
    ensures y < 0 ==> |s| >= 2 && s[0] == '-'
  {
    if y < 0 then "-" + NatToDecimal(-y) else NatToDecimal(y)
  }

  /** `String(y)` determines `y`. */
  lemma IntToDecimalInjective(y1: int, y2: int)
    requires IntToDecimal(y1) == IntToDecimal(y2)
    ensures y1 == y2
  {
    NatToDecimalValue(if y1 < 0 then -y1 else y1);
    NatToDecimalValue(if y2 < 0 then -y2 else y2);
    if y1 < 0 && y2 < 0 {
      assert IntToDecimal(y1)[1..] == NatToDecimal(-y1);
      assert IntToDecimal(y2)[1..] == NatToDecimal(-y2);
    }
  }

  /** A whole Number from 1000 to 9999 prints as four digits. */
  lemma FourDigitYear(y: int)
    requires 1000 <= y <= 9999
    ensures |IntToDecimal(y)| == 4 && AllDigits(IntToDecimal(y))
  {
    assert IntToDecimal(y) == NatToDecimal(y / 10) + [Digit(y % 10)];
    assert NatToDecimal(y / 10) == NatToDecimal(y / 100) + [Digit(y / 10 % 10)];
    assert NatToDecimal(y / 100) == NatToDecimal(y / 1000) + [Digit(y / 100 % 10)];
    assert |NatToDecimal(y / 1000)| == 1;
  }

  /** A whole Number from 100 to 999 prints as three digits. */
  lemma ThreeDigitNumber(y: int)
    requires 100 <= y <= 999
    ensures |IntToDecimal(y)| == 3
  {
    assert IntToDecimal(y) == NatToDecimal(y / 10) + [Digit(y % 10)];
    assert NatToDecimal(y / 10) == NatToDecimal(y / 100) + [Digit(y / 10 % 10)];
    assert |NatToDecimal(y / 100)| == 1;
  }

  /** `s.slice(start)`: a negative `start` counts back from the end and
      stops at the first character; a `start` past the end gives `''`. */
  function Slice(s: string, start: int): (r: string)
    ensures start < 0 && -start <= |s| ==> r == s[|s| + start..]
    ensures start < 0 && -start > |s| ==> r == s
    ensures 0 <= start <= |s| ==> r == s[start..]
    ensures start > |s| ==> r == []
  {
    var from :=
      if start < 0 then (if |s| + start < 0 then 0 else |s| + start)
      else (if start < |s| then start else |s|);
    s[from..]
  }

  /** `s.slice(-2)` of a string of two or more characters: its last two. */
  lemma SliceLastTwo(s: string)
    requires |s| >= 2
    ensures Slice(s, -2) == [s[|s| - 2], s[|s| - 1]]
  {
  }

  /** `parts.join(sep)`. */
  function Join(parts: seq<string>, sep: string): string
  {
    if |parts| == 0 then ""
    else if |parts| == 1 then parts[0]
    else parts[0] + sep + Join(parts[1..], sep)
  }

  /** Joining one-character strings with `''` yields the string of those
      characters, in order. */
  lemma {:induction false} JoinSingles(parts: seq<string>)
    requires forall i :: 0 <= i < |parts| ==> |parts[i]| == 1
    ensures |Join(parts, "")| == |parts|
    ensures forall i :: 0 <= i < |parts| ==> Join(parts, "")[i] == parts[i][0]
  {
    if |parts| > 1 {
      JoinSingles(parts[1..]);
      assert Join(parts, "") == parts[0] + Join(parts[1..], "");
    }
  }

  lemma AllDigitsAppend(a: string, b: string)
    requires AllDigits(a) && AllDigits(b)
    ensures AllDigits(a + b)
  {
    forall i | 0 <= i < |a + b|
      ensures IsDigit((a + b)[i])
    {
      if i < |a| { assert (a + b)[i] == a[i]; } else { assert (a + b)[i] == b[i - |a|]; }
    }
  }

  /** Appending a digit shifts the value one decimal place. */
  lemma DecimalValueSnoc(s: string, c: char)
    requires AllDigits(s) && IsDigit(c)
    ensures AllDigits(s + [c])
    ensures DecimalValue(s + [c]) == DecimalValue(s) * 10 + DigitValue(c)
  {
    assert (s + [c])[..|s|] == s;
  }

  lemma NoDashInDigits(s: string)
    requires AllDigits(s)
    ensures '-' !in s
  {
  }

  /** Two digit characters read as tens and units. */
  lemma DigitPairValue(a: nat, b: nat)
    requires a < 10 && b < 10
    ensures AllDigits([Digit(a), Digit(b)])
    ensures DecimalValue([Digit(a), Digit(b)]) == 10 * a + b
  {
    var s := [Digit(a), Digit(b)];
    var s1 := [Digit(a)];
    assert s[..1] == s1;
    assert s1[..0] == [];
    assert DecimalValue(s1) == DecimalValue([]) * 10 + DigitValue(Digit(a));
    assert DecimalValue(s) == DecimalValue(s1) * 10 + DigitValue(Digit(b));
  }
}
