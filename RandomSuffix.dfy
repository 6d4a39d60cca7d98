/** `generateRandom(length = 16)`: the random part of a slug.  Each call of
    `Math.floor(Math.random() * s.length)` is replaced by a `Draw`, an index
    into the 36-character alphabet, supplied by the caller; the result is a
    function of those draws alone.  scripts/new.ts and scripts/new-draft.ts
    carry identical copies of this function. */
module RandomSuffix {
  import opened JsText

  /** `s`, the characters a suffix is made of. */
  const Alphabet: string := "abcdefghijklmnopqrstuvwxyz0123456789"

  /** The default of the `length` parameter. */
  const DefaultLength: nat := 16

  /** One value of `Math.floor(Math.random() * s.length)`: `Math.random()`
      lies in [0, 1), so the index lies in [0, 35]. */
  type Draw = k: int | 0 <= k < 36

  /** The characters `a`-`z` and `0`-`9`: the independent description of the
      alphabet. */
  predicate IsSuffixChar(c: char) {
    'a' <= c <= 'z' || '0' <= c <= '9'
  }

  /** The character at index `k`, by arithmetic: the letters first, then
      the digits. */
  function SuffixChar(k: Draw): char
  {
    if k < 26 then ('a' as int + k) as char else ('0' as int + k - 26) as char
  }

  /** The alphabet literal agrees with `SuffixChar` at every index. */
  lemma AlphabetAt(k: Draw)
    ensures Alphabet[k] == SuffixChar(k)
  {
  }

  /** `s[k]`: the one-character string at index `k` of the alphabet. */
  function Pick(k: Draw): (piece: string)
    ensures |piece| == 1 && piece[0] == Alphabet[k]
    ensures IsSuffixChar(piece[0])
  {
    AlphabetAt(k);
    [Alphabet[k]]
  }

  /** `Array.from({ length }).map(() => s[draw]).join('')`, the `i`-th map
      call consuming `draws[i]`. */
  function GenerateRandom(draws: seq<Draw>, length: nat := DefaultLength): (r: string)
    requires length <= |draws|
    ensures |r| == length
    ensures forall i :: 0 <= i < length ==> r[i] == Alphabet[draws[i]]
    ensures forall i :: 0 <= i < |r| ==> IsSuffixChar(r[i])
  {
    var pieces := seq(length, i requires 0 <= i < length => Pick(draws[i]));
    JoinSingles(pieces);
    Join(pieces, "")
  }

  /** The alphabet is exactly the characters `a`-`z` and `0`-`9`. */
  lemma AlphabetIsLowerAlnum(c: char)
    ensures (exists k: Draw :: Alphabet[k] == c) <==> IsSuffixChar(c)
  {
    if IsSuffixChar(c) {
      assert Alphabet[DrawOf(c)] == c;
    } else {
      forall k: Draw
        ensures Alphabet[k] != c
      {
        AlphabetAt(k);
      }
    }
  }

  /** The draw that picks character `c`: the inverse of indexing. */
  function DrawOf(c: char): (k: Draw)
    requires IsSuffixChar(c)
    ensures Alphabet[k] == c
  {
    var k := if 'a' <= c <= 'z' then c as int - 'a' as int else c as int - '0' as int + 26;
    AlphabetAt(k);
    k
  }

  /** Different draws pick different characters. */
  lemma DrawOfPick(k: Draw)
    ensures DrawOf(Alphabet[k]) == k
  {
    AlphabetAt(k);
  }

  /** The draws that spell `s`. */
  function DrawsOf(s: string): (draws: seq<Draw>)
    requires forall i :: 0 <= i < |s| ==> IsSuffixChar(s[i])
    ensures |draws| == |s|
    ensures forall i :: 0 <= i < |s| ==> Alphabet[draws[i]] == s[i]
  {
    seq(|s|, i requires 0 <= i < |s| => DrawOf(s[i]))
  }

  /** Every string of `a`-`z0`-`9` characters is the suffix of some draws. */
  lemma GenerateRandomOnto(s: string)
    requires forall i :: 0 <= i < |s| ==> IsSuffixChar(s[i])
    ensures GenerateRandom(DrawsOf(s), |s|) == s
  {
  }

  /** The suffix determines the draws that produced it. */
  lemma GenerateRandomInjective(d1: seq<Draw>, d2: seq<Draw>, length: nat)
    requires length <= |d1| && length <= |d2|
    requires GenerateRandom(d1, length) == GenerateRandom(d2, length)
    ensures d1[..length] == d2[..length]
  {
    forall i | 0 <= i < length
      ensures d1[i] == d2[i]
    {
      DrawOfPick(d1[i]);
      DrawOfPick(d2[i]);
    }
  }

  /** Only the first `length` draws matter: the rest are never consumed. */
  lemma GenerateRandomUsesPrefix(draws: seq<Draw>, length: nat)
    requires length <= |draws|
    ensures GenerateRandom(draws, length) == GenerateRandom(draws[..length], length)
  {
  }
}
