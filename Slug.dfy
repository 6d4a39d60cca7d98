/** The template `${prefix}-${suffix}` every script passes to
    `--slug`, and the split at its first `-` that undoes it. */
module Slug {

  datatype Option<T> = None | Some(value: T)

  /** `${prefix}-${suffix}`. */
  function ComposeSlug(prefix: string, suffix: string): (slug: string)
    ensures |slug| == |prefix| + 1 + |suffix|
    ensures slug[..|prefix|] == prefix
    ensures slug[|prefix|] == '-'
    ensures slug[|prefix| + 1..] == suffix
  {
    prefix + "-" + suffix
  }

  /** The position of the first `-` in `s`, if any. */
  function FirstDash(s: string): (r: Option<nat>)
    ensures r.Some? ==> r.value < |s| && s[r.value] == '-' && '-' !in s[..r.value]
    ensures r.None? ==> '-' !in s
  {
    if s == [] then None
    else if s[0] == '-' then Some(0)
    else
      match FirstDash(s[1..])
      case None => None
      case Some(k) =>
        assert s[..k + 1] == [s[0]] + s[1..][..k];
        Some(k + 1)
  }

  /** The prefix before the first `-` and the rest after it. */
  function SplitSlug(slug: string): Option<(string, string)>
  {
    match FirstDash(slug)
    case None => None
    case Some(k) => Some((slug[..k], slug[k + 1..]))
  }

  /** Splitting a composed slug gives back its parts when the prefix holds
      no `-` (true of every date prefix with a year >= 0). */
  lemma SplitComposeSlug(prefix: string, suffix: string)
    requires '-' !in prefix
    ensures SplitSlug(ComposeSlug(prefix, suffix)) == Some((prefix, suffix))
  {
    var slug := ComposeSlug(prefix, suffix);
    assert slug[|prefix|] == '-' && slug[..|prefix|] == prefix;
  }

  /** Composing the parts of a split slug gives back the slug. */
  lemma ComposeSplitSlug(slug: string)
    requires SplitSlug(slug).Some?
    ensures ComposeSlug(SplitSlug(slug).value.0, SplitSlug(slug).value.1) == slug
  {
    var k := FirstDash(slug).value;
    assert slug == slug[..k] + [slug[k]] + slug[k + 1..];
  }
}
