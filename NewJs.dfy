/** scripts/new.js: the script that computes the same slug as
    scripts/new.ts with every step written inline: the suffix `r` of
    `n = 16` characters, the prefix `year + month + date`, and the
    template `${prefix}-${r}`. */
module NewJs {
  import opened JsText
  import opened RandomSuffix
  import opened Slug
  import NewTs

  /** `n`, the fixed suffix length. */
  const N: nat := 16

  /** `r`: `Array.from({ length: n }).map(() => s[draw]).join("")`, the
      `i`-th map call consuming `draws[i]`. */
  function Suffix(draws: seq<Draw>): (r: string)
    requires N <= |draws|
    ensures |r| == N
    ensures forall i :: 0 <= i < N ==> r[i] == Alphabet[draws[i]]
  {
    var pieces := seq(N, i requires 0 <= i < N => [Alphabet[draws[i]]]);
    JoinSingles(pieces);
    Join(pieces, "")
  }

  /** Every character of `r` is one of `a`-`z` and `0`-`9`. */
  lemma SuffixAlphanumeric(draws: seq<Draw>)
    requires N <= |draws|
    ensures forall i :: 0 <= i < N ==> IsSuffixChar(Suffix(draws)[i])
  {
    forall i | 0 <= i < N
      ensures IsSuffixChar(Suffix(draws)[i])
    {
      AlphabetAt(draws[i]);
    }
  }

  /** `r` is what `generateRandom()` of scripts/new.ts returns on the same
      draws. */
  lemma SuffixIsGenerateRandom(draws: seq<Draw>)
    requires N <= |draws|
    ensures Suffix(draws) == GenerateRandom(draws)
  {
  }

  /** `prefix`: `year + month + date`, with `month` and `date` each
      `("0" + x).slice(-2)`. */
  function Prefix(year: int, month0: int, day: int): string
    requires 0 <= month0 <= 11 && 1 <= day <= 31
  {
    var month := Slice("0" + NatToDecimal(month0 + 1), -2);
    var date := Slice("0" + NatToDecimal(day), -2);
    IntToDecimal(year) + month + date
  }

  /** `prefix` is what `generateDate()` of scripts/new.ts returns on the
      same date. */
  lemma PrefixIsGenerateDate(year: int, month0: int, day: int)
    requires 0 <= month0 <= 11 && 1 <= day <= 31
    ensures Prefix(year, month0, day) == NewTs.GenerateDate(year, month0, day)
  {
  }

  /** `month` and `date` are each padded to two digits: the prefix is the
      year as printed followed by the tens and units digits of the month
      and of the day. */
  lemma PrefixFields(year: int, month0: int, day: int)
    requires 0 <= month0 <= 11 && 1 <= day <= 31
    ensures Prefix(year, month0, day)
         == IntToDecimal(year) + [Digit((month0 + 1) / 10), Digit((month0 + 1) % 10), Digit(day / 10), Digit(day % 10)]
  {
    PrefixIsGenerateDate(year, month0, day);
  }

  /** A four-digit year gives a prefix of eight digits. */
  lemma PrefixEightDigits(year: int, month0: int, day: int)
    requires 1000 <= year <= 9999 && 0 <= month0 <= 11 && 1 <= day <= 31
    ensures |Prefix(year, month0, day)| == 8 && AllDigits(Prefix(year, month0, day))
  {
    PrefixIsGenerateDate(year, month0, day);
    NewTs.GenerateDateEightDigits(year, month0, day);
  }

  /** The `--slug` argument: `${prefix}-${r}`. */
  function ScriptSlug(year: int, month0: int, day: int, draws: seq<Draw>): (slug: string)
    requires 0 <= month0 <= 11 && 1 <= day <= 31
    requires N <= |draws|
    ensures |slug| == |IntToDecimal(year)| + 21
    ensures slug[..|slug| - 17]
         == IntToDecimal(year) + [Digit((month0 + 1) / 10), Digit((month0 + 1) % 10), Digit(day / 10), Digit(day % 10)]
    ensures slug[|slug| - 17] == '-'
    ensures slug[|slug| - 16..] == Suffix(draws)
  {
    PrefixFields(year, month0, day);
    ComposeSlug(Prefix(year, month0, day), Suffix(draws))
  }

  /** The inline slug of scripts/new.js equals
      `${generateDate()}-${generateRandom()}` of scripts/new.ts on the same
      date and draws. */
  lemma SlugMatchesNewTs(year: int, month0: int, day: int, draws: seq<Draw>)
    requires 0 <= month0 <= 11 && 1 <= day <= 31
    requires N <= |draws|
    ensures ScriptSlug(year, month0, day, draws) == NewTs.ArticleSlug(year, month0, day, draws)
  {
    PrefixIsGenerateDate(year, month0, day);
    SuffixIsGenerateRandom(draws);
  }

  /** With a four-digit year the slug has 25 characters, a `-` at index 8
      and the shape `[0-9]{8}-[a-z0-9]{16}`. */
  lemma SlugShape(year: int, month0: int, day: int, draws: seq<Draw>)
    requires 1000 <= year <= 9999 && 0 <= month0 <= 11 && 1 <= day <= 31
    requires N <= |draws|
    ensures |ScriptSlug(year, month0, day, draws)| == 25
    ensures ScriptSlug(year, month0, day, draws)[8] == '-'
    ensures NewTs.IsDatedSlug(ScriptSlug(year, month0, day, draws))
  {
    SlugMatchesNewTs(year, month0, day, draws);
    NewTs.ArticleSlugShape(year, month0, day, draws);
  }
}
