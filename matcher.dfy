/** The record matcher: the year filter and the keep-pattern
    `^<determiner>_DET [a-z and French accented letters]*?_NOUN$`, written
    out as a test on the characters of the digram. */
module Matcher {
  import opened Corpus

  /** The accented lower-case letters the noun class admits besides a-z. */
  const ACCENTED: seq<char> := "áàâäãåçéèêëíìîïñóòôöõúùûüýÿæœ"

  const DET_TAG: string := "_DET "
  const NOUN_TAG: string := "_NOUN"

  predicate IsNounLetter(c: char)
  {
    'a' <= c <= 'z' || c in ACCENTED
  }

  /** Every character of `w` is a lower-case French letter (the empty word
      included: the pattern's `*?` admits zero letters). */
  predicate IsNounWord(w: string)
  {
    forall i :: 0 <= i < |w| ==> IsNounLetter(w[i])
  }

  /** `s` is spelled determiner `det`, "_DET ", word `w`, "_NOUN". */
  predicate Spells(s: string, det: string, w: string)
  {
    s == det + DET_TAG + w + NOUN_TAG
  }

  /** The anchored pattern for one spelling of the determiner, character by
      character: the spelling, then "_DET ", then noun letters up to a final
      "_NOUN". */
  predicate MatchesWith(det: string, s: string)
  {
    && |det| + |DET_TAG| + |NOUN_TAG| <= |s|
    && s[..|det|] == det
    && s[|det|..|det| + |DET_TAG|] == DET_TAG
    && s[|s| - |NOUN_TAG|..] == NOUN_TAG
    && IsNounWord(s[|det| + |DET_TAG|..|s| - |NOUN_TAG|])
  }

  /** The keep-pattern of a source: one of its determiner spellings. */
  predicate MatchesDigram(determiners: seq<string>, s: string)
  {
    exists i :: 0 <= i < |determiners| && MatchesWith(determiners[i], s)
  }

  /** A record is kept for a source when it is recent enough and its digram
      matches the source's pattern. */
  predicate Keep(src: SourceSpec, r: Record)
  {
    r.year >= MIN_YEAR && MatchesDigram(src.determiners, r.digram)
  }

  /** The pattern accepts exactly the digrams made of an allowed determiner
      spelling, "_DET ", a word of lower-case French letters and "_NOUN":
      nothing before, between or after. */
  lemma MatchesDigramIff(determiners: seq<string>, s: string)
    ensures MatchesDigram(determiners, s) <==>
      exists det, w :: det in determiners && IsNounWord(w) && Spells(s, det, w)
  {
    if MatchesDigram(determiners, s) {
      var i :| 0 <= i < |determiners| && MatchesWith(determiners[i], s);
      var det := determiners[i];
      var w := s[|det| + |DET_TAG|..|s| - |NOUN_TAG|];
      assert s == s[..|det|] + s[|det|..|det| + |DET_TAG|] + w + s[|s| - |NOUN_TAG|..];
      assert Spells(s, det, w);
    }
    if exists det, w :: det in determiners && IsNounWord(w) && Spells(s, det, w) {
      var det, w :| det in determiners && IsNounWord(w) && Spells(s, det, w);
      SpelledMatches(det, w);
      var i :| 0 <= i < |determiners| && determiners[i] == det;
      assert MatchesWith(determiners[i], s);
    }
  }

  /** A spelled digram passes the character-level test for its determiner. */
  lemma SpelledMatches(det: string, w: string)
    requires IsNounWord(w)
    ensures MatchesWith(det, det + DET_TAG + w + NOUN_TAG)
  {
  }

  /** The records of `recs` that `src` keeps, in stream order (the boolean
      mask applied to a chunk). */
  function Kept(src: SourceSpec, recs: seq<Record>): (r: seq<Record>)
    ensures forall i :: 0 <= i < |r| ==> r[i] in recs && Keep(src, r[i])
    ensures forall x :: x in recs && Keep(src, x) ==> x in r
  {
    if recs == [] then []
    else
      var last := recs[|recs| - 1];
      Kept(src, recs[..|recs| - 1]) + (if Keep(src, last) then [last] else [])
  }

  /** Filtering distributes over concatenation: filtering chunk by chunk and
      appending the survivors keeps the same records, in the same order, as
      filtering the whole stream. */
  lemma {:induction false} KeptAppend(src: SourceSpec, a: seq<Record>, b: seq<Record>)
    ensures Kept(src, a + b) == Kept(src, a) + Kept(src, b)
  {
    if b == [] {
      assert a + b == a;
    } else {
      var b' := b[..|b| - 1];
      assert (a + b)[..|a + b| - 1] == a + b';
      KeptAppend(src, a, b');
    }
  }

  /** A record older than MIN_YEAR is never kept, whatever its digram:
      inserting it anywhere in a stream leaves the kept records unchanged. */
  lemma OldRecordIgnored(src: SourceSpec, a: seq<Record>, r: Record, b: seq<Record>)
    requires r.year < MIN_YEAR
    ensures !Keep(src, r)
    ensures Kept(src, a + [r] + b) == Kept(src, a + b)
  {
    assert Kept(src, [r]) == [] by {
      assert [r][..0] == [];
    }
    KeptAppend(src, a, [r]);
    assert Kept(src, a + [r]) == Kept(src, a);
    KeptAppend(src, a + [r], b);
    KeptAppend(src, a, b);
  }
}
