/** scripts/new-draft.ts: the slug `00000000-<suffix>` of a draft.  The
    date part is a constant that no real date formats as. */
module NewDraft {
  import opened JsText
  import opened RandomSuffix
  import opened Slug
  import NewTs

  /** `generateDummyDate()`: year `'0000'`, month `'00'` and date `'00'`
      concatenated.  The clock it reads is never used, so it takes no
      input. */
  function GenerateDummyDate(): (r: string)
    ensures r == "00000000"
    ensures |r| == 8 && forall i :: 0 <= i < |r| ==> r[i] == '0'
  {
    var year := "0000";
    var month := "00";
    var date := "00";
    year + month + date
  }

  /** No real date (a day from 1 to 31) formats as the dummy date. */
  lemma DummyDateIsNoDate(year: int, month0: int, day: int)
    requires 0 <= month0 <= 11 && 1 <= day <= 31
    ensures NewTs.GenerateDate(year, month0, day) != GenerateDummyDate()
  {
    var r := NewTs.GenerateDate(year, month0, day);
    if |r| == 8 {
      assert r[7] == Digit(day % 10) && r[6] == Digit(day / 10);
    }
  }

  /** The shape `00000000-[a-z0-9]{16}`. */
  predicate IsDraftSlug(s: string) {
    && |s| == 25
    && s[..9] == "00000000-"
    && forall i :: 9 <= i < 25 ==> IsSuffixChar(s[i])
  }

  /** The `--slug` argument: `${generateDummyDate()}-${generateRandom()}`. */
  function DraftSlug(draws: seq<Draw>): (slug: string)
    requires DefaultLength <= |draws|
    ensures |slug| == 25
    ensures slug[..9] == "00000000-"
    ensures slug[9..] == GenerateRandom(draws)
  {
    var prefix := GenerateDummyDate();
    var slug := ComposeSlug(prefix, GenerateRandom(draws));
    assert slug[..9] == slug[..8] + [slug[8]];
    slug
  }

  /** The draft slugs are exactly the strings of the shape
      `00000000-[a-z0-9]{16}`: every draft slug has it, and every string
      of that shape is the draft slug of some draws. */
  lemma DraftSlugCoversPattern(s: string)
    ensures IsDraftSlug(s) <==> exists draws: seq<Draw> :: |draws| == DefaultLength && DraftSlug(draws) == s
  {
    if IsDraftSlug(s) {
      var suffix := s[9..];
      var draws := DrawsOf(suffix);
      GenerateRandomOnto(suffix);
      assert s == s[..9] + s[9..];
      assert DraftSlug(draws) == s;
    }
    forall draws: seq<Draw> | |draws| == DefaultLength && DraftSlug(draws) == s
      ensures IsDraftSlug(s)
    {
      assert forall i :: 9 <= i < 25 ==> s[i] == s[9..][i - 9];
    }
  }

  /** The draft slug splits back into the dummy date and the suffix. */
  lemma DraftSlugSplits(draws: seq<Draw>)
    requires DefaultLength <= |draws|
    ensures SplitSlug(DraftSlug(draws)) == Some((GenerateDummyDate(), GenerateRandom(draws)))
  {
    SplitComposeSlug(GenerateDummyDate(), GenerateRandom(draws));
  }

  /** The draft slug determines the sixteen draws it consumed. */
  lemma DraftSlugInjective(d1: seq<Draw>, d2: seq<Draw>)
    requires DefaultLength <= |d1| && DefaultLength <= |d2|
    requires DraftSlug(d1) == DraftSlug(d2)
    ensures d1[..DefaultLength] == d2[..DefaultLength]
  {
    assert GenerateRandom(d1) == DraftSlug(d1)[9..];
    GenerateRandomInjective(d1, d2, DefaultLength);
  }
}
