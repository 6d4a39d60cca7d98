# Slug generators of the zenn-article scripts

Each script creates a new Zenn article by passing a slug to
`npx zenn new:article --slug <slug>`. This project models how each script
builds that slug and proves what the slug looks like:

- `scripts/new.ts` builds `<date>-<suffix>`. The date is `YYYYMMDD` with the
  year unpadded. The suffix is `generateRandom()`, 16 characters from
  `a`-`z0`-`9`.
- `scripts/new-draft.ts` builds `00000000-<suffix>`, where `generateDummyDate()`
  supplies the constant prefix.
- `scripts/new.js` computes the same slug as `scripts/new.ts`, with every
  step written inline.

Modules:

- `JsText`: the JavaScript behaviour the scripts depend on.
  - `String(n)` for a whole Number below 10^21 in magnitude, which is what
    the `'0' + x` and `year + month + date` concatenations produce.
  - `String.prototype.slice` with one argument.
  - `Array.prototype.join`.
- `RandomSuffix`: `generateRandom`. It is one function because both `.ts`
  scripts carry identical copies.
- `Slug`: the `${prefix}-${suffix}` template, and the split at the first `-`
  that undoes it.
- `NewTs`, `NewDraft` and `NewJs`: one module per script.

Stand-ins for the script's inputs:

- **Random draws.** Each evaluation of
  `Math.floor(Math.random() * s.length)` becomes a `Draw`. A `Draw` is an
  index from 0 to 35, and the caller supplies a sequence of them. Call `i`
  of the `map` callback consumes `draws[i]`.
- **The clock.** `new Date()` becomes three inputs:
  - the full year;
  - the 0-based month returned by `getMonth()`, from 0 to 11;
  - the day returned by `getDate()`, from 1 to 31.

The date is not a fixed-width `YYYYMMDD`: the code pads only the month
and the day, so a year below 1000 gives a shorter date (`NewTs.ShortYear`)
and a negative year prints with a `-`.

## Model

| member | source | states |
|---|---|---|
| RandomSuffix.GenerateRandom | scripts/new.ts:3-9 | the suffix has exactly `length` characters (16 by default), character `i` is `s[draws[i]]`, and every character is in `a`-`z0`-`9` |
| RandomSuffix.AlphabetIsLowerAlnum | scripts/new.ts:4 | a character is at some index of `s` if and only if it is `a`-`z` or `0`-`9` |
| RandomSuffix.Pick | scripts/new.ts:7 | `s[k]` is a one-character string holding the alphabet character at draw `k` |
| RandomSuffix.DrawOf | scripts/new.ts:7 | every suffix character is picked by some draw |
| RandomSuffix.DrawOfPick | scripts/new.ts:7 | different draws pick different characters |
| RandomSuffix.GenerateRandomOnto | scripts/new.ts:6-8 | every string over `a`-`z0`-`9` is the suffix of some draws |
| RandomSuffix.GenerateRandomInjective | scripts/new.ts:6-8 | the suffix determines the draws it consumed |
| RandomSuffix.GenerateRandomUsesPrefix | scripts/new-draft.ts:3-9 | in the copy of `generateRandom` in the draft script, which is identical to the one in scripts/new.ts, only the first `length` draws affect the suffix |
| JsText.JoinSingles | scripts/new.ts:6-8 | joining one-character strings with `''` gives those characters in order |
| JsText.NatToDecimal | scripts/new.ts:14-15 | `String(n)` is a non-empty string of digits |
| JsText.NatToDecimalLastDigits | scripts/new.ts:14-15 | the last character of `String(n)` is its units digit, and the one before it is its tens digit from 10 on |
| JsText.NatToDecimalValue | scripts/new.ts:16 | `String(n)` reads back as `n`, and only `0` has a leading zero |
| JsText.IntToDecimal | scripts/new.ts:16 | `String(year)` is all digits for `year >= 0`, and starts with `-` for a negative year |
| JsText.IntToDecimalInjective | scripts/new.ts:16 | `String(year)` determines the year |
| JsText.FourDigitYear | scripts/new.ts:13 | a year from 1000 to 9999 prints as four digits |
| JsText.ThreeDigitNumber | scripts/new.ts:13 | a year from 100 to 999 prints as three characters |
| JsText.Slice | scripts/new.ts:14-15 | `slice(start)` on negative, in-range and out-of-range starts, including clamping at the first character |
| JsText.SliceLastTwo | scripts/new.ts:14-15 | `slice(-2)` keeps the last two characters |
| JsText.DigitPairValue | scripts/new.ts:14-15 | two digit characters read as tens and units |
| NewTs.TwoDigitsLastTwo | scripts/new.ts:14-15 | the pad `NewTs.TwoDigits`, `('0' + x).slice(-2)`, is the tens digit and the units digit of `x`, for every `x >= 0` |
| NewTs.TwoDigitsBelowTen | scripts/new.ts:14-15 | from 0 to 9, the pad is `'0'` followed by the digit |
| NewTs.TwoDigitsBelowHundred | scripts/new.ts:14-15 | below 100, the pad is the tens digit and the units digit |
| NewTs.TwoDigitsOfTwoDigitNumber | scripts/new.ts:14-15 | from 10 to 99, the pad is the number as printed |
| NewTs.TwoDigitsValue | scripts/new.ts:14-15 | below 100, the pad is two digits that read back as `x` |
| NewTs.MonthField | scripts/new.ts:14 | a 0-based month from 0 to 11 becomes `"01"` to `"12"`: two characters, leading digit `0` below October and `1` from October on, value `month0 + 1` |
| NewTs.PadExamples | scripts/new.ts:14 | March pads to `"03"`, December to `"12"` |
| NewTs.GenerateDate | scripts/new.ts:11-17 | the date is the year as printed, then the tens and units digits of the month and of the day |
| NewTs.GenerateDateEightDigits | scripts/new.ts:13-16 | a year from 1000 to 9999 gives eight characters, all digits |
| NewTs.ShortYear | scripts/new.ts:13-16 | the year is not padded: a year from 100 to 999 gives seven characters |
| NewTs.GenerateDateValue | scripts/new.ts:13-16 | for a year >= 0, the date read as a number is `year * 10000 + month * 100 + day` |
| NewTs.GenerateDateInjective | scripts/new.ts:11-17 | the date determines the year, the month and the day |
| NewTs.ArticleSlug | scripts/new.ts:19 | the slug is the date `generateDate()` returns (the year as printed and four date digits), then `-`, then the 16-character suffix |
| NewTs.ArticleSlugShape | scripts/new.ts:19 | for a four-digit year, the slug has the shape `[0-9]{8}-[a-z0-9]{16}` (length 25, `-` at index 8) and starts with the date |
| NewTs.ArticleSlugSplits | scripts/new.ts:19 | for a year >= 0, splitting the slug at its first `-` gives back the date and the suffix |
| Slug.ComposeSlug | scripts/new.ts:19 | `${prefix}-${suffix}`: the prefix, then `-` at index `|prefix|`, then the suffix |
| Slug.FirstDash | scripts/new.ts:19 | the position found holds the first `-`; when none is found, there is no `-` |
| Slug.SplitComposeSlug | scripts/new.ts:19 | for a prefix with no `-`, splitting a composed slug gives back its parts |
| Slug.ComposeSplitSlug | scripts/new.ts:19 | composing the parts of a split gives back the slug |
| NewDraft.GenerateDummyDate | scripts/new-draft.ts:11-17 | the result is `"00000000"`: eight characters, all `'0'`, independent of the clock |
| NewDraft.DummyDateIsNoDate | scripts/new-draft.ts:13-16 | no date with a day from 1 to 31 formats as the dummy date |
| NewDraft.DraftSlug | scripts/new-draft.ts:19-21 | the draft slug has 25 characters, starts with `"00000000-"` and ends with the 16-character suffix |
| NewDraft.DraftSlugCoversPattern | scripts/new-draft.ts:19-21 | a string has the shape `00000000-[a-z0-9]{16}` if and only if it is the draft slug of some draws |
| NewDraft.DraftSlugSplits | scripts/new-draft.ts:19-21 | the draft slug splits back into the dummy date and the suffix |
| NewDraft.DraftSlugInjective | scripts/new-draft.ts:19-21 | the draft slug determines the 16 draws it consumed |
| NewJs.Suffix | scripts/new.js:3-6 | `r` has exactly `n = 16` characters, and character `i` is `s[draws[i]]` |
| NewJs.SuffixAlphanumeric | scripts/new.js:2-5 | every character of `r` is in `a`-`z0`-`9` |
| NewJs.SuffixIsGenerateRandom | scripts/new.js:2-6 | `r` is `generateRandom()` of scripts/new.ts on the same draws |
| NewJs.PrefixIsGenerateDate | scripts/new.js:8-11 | `prefix`, the function `NewJs.Prefix`, is `generateDate()` of scripts/new.ts on the same date |
| NewJs.PrefixFields | scripts/new.js:9-10 | month and day are each padded to two digits after the year |
| NewJs.PrefixEightDigits | scripts/new.js:8-11 | for a four-digit year, `prefix` has eight characters, all digits |
| NewJs.ScriptSlug | scripts/new.js:13 | `${prefix}-${r}`: the year as printed, the tens and units digits of the month and of the day, then `-`, then `r` |
| NewJs.SlugMatchesNewTs | scripts/new.js:2-13 | on the same date and draws, the slug equals `${generateDate()}-${generateRandom()}` of scripts/new.ts |
| NewJs.SlugShape | scripts/new.js:13 | for a four-digit year, the slug has 25 characters, `-` at index 8 and the shape `[0-9]{8}-[a-z0-9]{16}` |

## Left out

- `execSync` and `npx zenn new:article` are not modelled. Spawning the process and anything the external command does are outside the slug logic. The model stops at the slug string passed to it.
- `Math.random` is replaced by caller-supplied draws in 0..35. Floating point and randomness are not modelled, and neither are uniformity or the improbability of collisions.
- `new Date()`, the wall clock and the local time zone are replaced by the year, month and day inputs.
- Calendar validity is not checked. The scripts never check it, so day 31 is accepted in every month.
- The unused `now` binding in scripts/new-draft.ts:12 is not modelled, because it has no effect. `NewDraft.GenerateDummyDate` takes no input.
- `RandomSuffix.GenerateRandom` takes `length` as a natural number. A negative, fractional or non-numeric length, which no caller passes, is not modelled.
- `String(n)` is modelled as plain decimal digits for every integer. JavaScript uses exponent notation from 10^21 on. No value the scripts print comes near that: `getFullYear()` stays within -271821..275760, and the padded fields are at most 31.
- Strings are sequences of `char` rather than UTF-16 code units. Every character involved is ASCII, so nothing depends on this.
- `NewJs.Prefix` and `NewTs.TwoDigits` have no contract of their own. Their behaviour is stated by `NewJs.PrefixIsGenerateDate`, `NewTs.TwoDigitsLastTwo` and the lemmas that follow them.
