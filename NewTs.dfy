/** scripts/new.ts: the slug `<date>-<suffix>` of a new article, where the
    date is today's local date as `YYYYMMDD` (the year unpadded) and the
    suffix is `generateRandom()`.  The clock becomes three inputs: the full
    year, the 0-based month that `getMonth()` returns and the day of the
    month that `getDate()` returns. */
module NewTs {
  import opened JsText
  import opened RandomSuffix
  import opened Slug

  /** `('0' + x).slice(-2)`. */
  function TwoDigits(x: nat): string
  {
    Slice("0" + NatToDecimal(x), -2)
  }

  /** The pad is the tens digit and the units digit of `x`, whatever its
      size: the `slice` keeps the last two characters only. */
  lemma TwoDigitsLastTwo(x: nat)
    ensures TwoDigits(x) == [Digit(x / 10 % 10), Digit(x % 10)]
  {
    var n := NatToDecimal(x);
    var t := "0" + n;
    SliceLastTwo(t);
    NatToDecimalLastDigits(x);
    assert t[|t| - 1] == n[|n| - 1];
    if x < 10 {
      SmallTens(x);
      assert t[|t| - 2] == '0' == Digit(0);
    } else {
      assert t[|t| - 2] == n[|n| - 2];
    }
  }

  lemma SmallTens(x: nat)
    requires x < 10
    ensures x / 10 % 10 == 0
  {
  }

  /** Below 100 the pad is the tens digit and the units digit. */
  lemma TwoDigitsBelowHundred(x: nat)
    requires x < 100
    ensures TwoDigits(x) == [Digit(x / 10), Digit(x % 10)]
  {
    TwoDigitsLastTwo(x);
    assert x / 10 % 10 == x / 10;
  }

  /** Below 10 the pad is a `'0'` followed by the digit. */
  lemma TwoDigitsBelowTen(x: nat)
    requires x < 10
    ensures TwoDigits(x) == ['0', Digit(x)]
  {
    TwoDigitsBelowHundred(x);
    assert x / 10 == 0 && x % 10 == x && Digit(0) == '0';
  }

  /** From 10 to 99 the pad is the number as printed. */
  lemma TwoDigitsOfTwoDigitNumber(x: nat)
    requires 10 <= x < 100
    ensures TwoDigits(x) == NatToDecimal(x)
  {
    TwoDigitsBelowHundred(x);
    assert NatToDecimal(x) == NatToDecimal(x / 10) + [Digit(x % 10)];
    assert NatToDecimal(x / 10) == [Digit(x / 10)];
  }

  /** Below 100 the pad reads back as `x`. */
  lemma TwoDigitsValue(x: nat)
    requires x < 100
    ensures |TwoDigits(x)| == 2 && AllDigits(TwoDigits(x)) && DecimalValue(TwoDigits(x)) == x
  {
    TwoDigitsBelowHundred(x);
    DigitPairValue(x / 10, x % 10);
  }

  /** Each 0-based month becomes `"01"` to `"12"`: the code adds one
      before padding. */
  lemma MonthField(month0: int)
    requires 0 <= month0 <= 11
    ensures |TwoDigits(month0 + 1)| == 2
    ensures TwoDigits(month0 + 1)[0] == (if month0 < 9 then '0' else '1')
    ensures DecimalValue(TwoDigits(month0 + 1)) == month0 + 1
  {
    TwoDigitsBelowHundred(month0 + 1);
    TwoDigitsValue(month0 + 1);
    assert Digit(0) == '0' && Digit(1) == '1';
  }

  /** `generateDate()` on the date (`year`, `month0` + 1, `day`): the year
      as printed, unpadded, then the tens and units digits of the month and
      of the day. */
  function GenerateDate(year: int, month0: int, day: int): (r: string)
    requires 0 <= month0 <= 11 && 1 <= day <= 31
    ensures r == IntToDecimal(year) + [Digit((month0 + 1) / 10), Digit((month0 + 1) % 10), Digit(day / 10), Digit(day % 10)]
  {
    var y := IntToDecimal(year);
    var month := TwoDigits(month0 + 1);
    var date := TwoDigits(day);
    TwoDigitsBelowHundred(month0 + 1);
    TwoDigitsBelowHundred(day);
    ConcatPairs(month, date);
    assert y + month + date == y + (month + date);
    y + month + date
  }

  lemma ConcatPairs(a: string, b: string)
    requires |a| == 2 && |b| == 2
    ensures a + b == [a[0], a[1], b[0], b[1]]
  {
  }

  /** A year from 1000 to 9999 gives eight digits. */
  lemma GenerateDateEightDigits(year: int, month0: int, day: int)
    requires 1000 <= year <= 9999 && 0 <= month0 <= 11 && 1 <= day <= 31
    ensures |GenerateDate(year, month0, day)| == 8 && AllDigits(GenerateDate(year, month0, day))
  {
    var r := GenerateDate(year, month0, day);
    FourDigitYear(year);
    AllDigitsAppend(r[..4], r[4..]);
    assert r == r[..4] + r[4..];
  }

  /** Read as a number, the date of a year >= 0 is
      `year * 10000 + month * 100 + day`. */
  lemma GenerateDateValue(year: int, month0: int, day: int)
    requires 0 <= year && 0 <= month0 <= 11 && 1 <= day <= 31
    ensures AllDigits(GenerateDate(year, month0, day))
    ensures DecimalValue(GenerateDate(year, month0, day)) == year * 10000 + (month0 + 1) * 100 + day
  {
    var a, b, c, d := (month0 + 1) / 10, (month0 + 1) % 10, day / 10, day % 10;
    var s0 := IntToDecimal(year);
    var s1 := s0 + [Digit(a)];
    var s2 := s1 + [Digit(b)];
    var s3 := s2 + [Digit(c)];
    var s4 := s3 + [Digit(d)];
    NatToDecimalValue(year);
    DecimalValueSnoc(s0, Digit(a));
    DecimalValueSnoc(s1, Digit(b));
    DecimalValueSnoc(s2, Digit(c));
    DecimalValueSnoc(s3, Digit(d));
    SnocFour(s0, Digit(a), Digit(b), Digit(c), Digit(d));
    TensAndUnits(month0 + 1);
    TensAndUnits(day);
    ShiftFourPlaces(year, a, b, c, d);
  }

  lemma SnocFour<T>(s: seq<T>, a: T, b: T, c: T, d: T)
    ensures s + [a, b, c, d] == s + [a] + [b] + [c] + [d]
  {
  }

  lemma ShiftFourPlaces(v: int, a: int, b: int, c: int, d: int)
    ensures (((v * 10 + a) * 10 + b) * 10 + c) * 10 + d == v * 10000 + (a * 10 + b) * 100 + c * 10 + d
  {
  }

  lemma TensAndUnits(x: nat)
    ensures x / 10 * 10 + x % 10 == x
  {
  }

  /** The date determines the year, the month and the day. */
  lemma GenerateDateInjective(y1: int, m1: int, d1: int, y2: int, m2: int, d2: int)
    requires 0 <= m1 <= 11 && 1 <= d1 <= 31 && 0 <= m2 <= 11 && 1 <= d2 <= 31
    requires GenerateDate(y1, m1, d1) == GenerateDate(y2, m2, d2)
    ensures y1 == y2 && m1 == m2 && d1 == d2
  {
    var r := GenerateDate(y1, m1, d1);
    var n := |r| - 4;
    assert IntToDecimal(y1) == r[..n] == IntToDecimal(y2);
    IntToDecimalInjective(y1, y2);
    var tail := r[n..];
    assert tail == [Digit((m1 + 1) / 10), Digit((m1 + 1) % 10), Digit(d1 / 10), Digit(d1 % 10)];
    assert tail == [Digit((m2 + 1) / 10), Digit((m2 + 1) % 10), Digit(d2 / 10), Digit(d2 % 10)];
    TensAndUnits(m1 + 1);
    TensAndUnits(m2 + 1);
    TensAndUnits(d1);
    TensAndUnits(d2);
  }

  /** The year is not padded: a year from 100 to 999 gives a date of
      seven characters, not eight. */
  lemma ShortYear(year: int, month0: int, day: int)
    requires 100 <= year <= 999 && 0 <= month0 <= 11 && 1 <= day <= 31
    ensures |GenerateDate(year, month0, day)| == 7
  {
    ThreeDigitNumber(year);
  }

  /** March pads to `"03"`, December stays `"12"`. */
  lemma PadExamples()
    ensures TwoDigits(2 + 1) == "03"
    ensures TwoDigits(11 + 1) == "12"
  {
    TwoDigitsBelowTen(3);
    TwoDigitsBelowHundred(12);
  }

  /** The shape `[0-9]{8}-[a-z0-9]{16}`. */
  predicate IsDatedSlug(s: string) {
    && |s| == 25
    && AllDigits(s[..8])
    && s[8] == '-'
    && forall i :: 9 <= i < 25 ==> IsSuffixChar(s[i])
  }

  /** The `--slug` argument: `${generateDate()}-${generateRandom()}`, the
      year as printed, four date digits, a `-` and the sixteen suffix
      characters. */
  function ArticleSlug(year: int, month0: int, day: int, draws: seq<Draw>): (slug: string)
    requires 0 <= month0 <= 11 && 1 <= day <= 31
    requires DefaultLength <= |draws|
    ensures |slug| == |IntToDecimal(year)| + 21
    ensures slug[..|slug| - 21] == IntToDecimal(year)
    ensures slug[..|slug| - 17] == GenerateDate(year, month0, day)
    ensures slug[|slug| - 17] == '-'
    ensures slug[|slug| - 16..] == GenerateRandom(draws)
  {
    ComposeSlug(GenerateDate(year, month0, day), GenerateRandom(draws))
  }

  /** With a four-digit year the slug has the shape `[0-9]{8}-[a-z0-9]{16}`,
      its first eight characters being the date. */
  lemma ArticleSlugShape(year: int, month0: int, day: int, draws: seq<Draw>)
    requires 1000 <= year <= 9999 && 0 <= month0 <= 11 && 1 <= day <= 31
    requires DefaultLength <= |draws|
    ensures IsDatedSlug(ArticleSlug(year, month0, day, draws))
    ensures ArticleSlug(year, month0, day, draws)[..8] == GenerateDate(year, month0, day)
  {
    GenerateDateEightDigits(year, month0, day);
  }

  /** For a year >= 0 the date holds no `-`, so the slug splits back into
      the date and the suffix. */
  lemma ArticleSlugSplits(year: int, month0: int, day: int, draws: seq<Draw>)
    requires 0 <= year && 0 <= month0 <= 11 && 1 <= day <= 31
    requires DefaultLength <= |draws|
    ensures SplitSlug(ArticleSlug(year, month0, day, draws))
         == Some((GenerateDate(year, month0, day), GenerateRandom(draws)))
  {
    var prefix := GenerateDate(year, month0, day);
    GenerateDateValue(year, month0, day);
    NoDashInDigits(prefix);
    SplitComposeSlug(prefix, GenerateRandom(draws));
  }
}
