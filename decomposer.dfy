/** The field decomposer: the gender of a digram from one character at a
    fixed offset, and the noun as a slice that ends before "_NOUN". */
module Decomposer {
  import opened Corpus
  import opened Matcher

  /** Python's `s[start:stop]`: an omitted start is 0, a negative stop
      counts from the end, both bounds are clamped to the string, and the
      slice is empty when they cross. The contract states the negative-stop
      cases, the only ones the extractor uses. */
  function Slice(s: string, start: Option<nat>, stop: int): (r: string)
    ensures |r| <= |s|
    ensures stop < 0 && start.None? && -stop <= |s| ==> r == s[..|s| + stop]
    ensures stop < 0 && start.Some? && start.value <= |s| + stop ==> r == s[start.value..|s| + stop]
    ensures stop < 0 && start.Some? && |s| + stop <= start.value ==> r == []
  {
    var lo := match start case None => 0 case Some(a) => if a < |s| then a else |s|;
    var hi := if stop < 0 then (if |s| + stop < 0 then 0 else |s| + stop)
              else (if stop < |s| then stop else |s|);
    if lo < hi then s[lo..hi] else []
  }

  /** Masculine when the character at the source's discriminant offset is
      its masculine marker; feminine otherwise, including when the digram
      is too short to have that character (pandas' `str.get` then yields a
      missing value, which compares unequal). */
  function GenderOf(src: SourceSpec, digram: string): (g: Gender)
    ensures |digram| <= src.discriminant ==> g == F
    ensures src.discriminant < |digram| ==> (g == M <==> digram[src.discriminant] == src.masc)
  {
    if src.discriminant < |digram| && digram[src.discriminant] == src.masc then M else F
  }

  /** The noun: from the start offset of the digram's gender up to the last
      `|"_NOUN"|` characters. Both slices are computed by the source; an
      absent offset slices from the beginning. */
  function NounOf(src: SourceSpec, digram: string): (n: string)
    ensures |digram| < |NOUN_TAG| ==> n == []
    ensures |NOUN_TAG| <= |digram| ==>
      |n| <= |digram| - |NOUN_TAG| && n == digram[|digram| - |NOUN_TAG| - |n|..|digram| - |NOUN_TAG|]
  {
    var start := if GenderOf(src, digram) == M then src.mascStart else src.femStart;
    Slice(digram, start, -|NOUN_TAG|)
  }

  /** The (noun, gender) key of a digram. The noun begins at the start
      offset that belongs to the key's own gender. */
  function KeyOf(src: SourceSpec, digram: string): (k: Key)
    ensures var start := if k.gender == M then src.mascStart else src.femStart;
      start.Some? && start.value + |NOUN_TAG| <= |digram| ==>
        k.noun == digram[start.value..|digram| - |NOUN_TAG|]
    ensures var start := if k.gender == M then src.mascStart else src.femStart;
      start.None? && |NOUN_TAG| <= |digram| ==> k.noun == digram[..|digram| - |NOUN_TAG|]
  {
    Key(NounOf(src, digram), GenderOf(src, digram))
  }

  /** The gender a French determiner spelling marks: "la" and "une" are
      feminine, "le", "du" and "un" masculine. */
  function DeterminerGender(det: string): Gender
  {
    if det in ["La", "la", "Une", "une"] then F else M
  }

  /** For every source of the table and every digram spelled with one of its
      determiners, the decomposition yields exactly the word between "_DET "
      and "_NOUN", and the gender its determiner marks. The offsets 7 and 8
      are the lengths of "le_DET " and "une_DET ". */
  lemma DecomposeSpelled(i: nat, det: string, w: string)
    requires i < |SOURCES|
    requires det in SOURCES[i].determiners
    ensures KeyOf(SOURCES[i], det + DET_TAG + w + NOUN_TAG) == Key(w, DeterminerGender(det))
  {
    var src := SOURCES[i];
    var s := det + DET_TAG + w + NOUN_TAG;
    assert s[..|det|] == det;
    assert s[|det|..|det| + |DET_TAG|] == DET_TAG;
    assert s[|det| + |DET_TAG|..|s| - |NOUN_TAG|] == w;
    assert s[1] == det[1];
    assert s[2] == if |det| == 2 then '_' else det[2];
    assert GenderOf(src, s) == DeterminerGender(det);
    var start := if GenderOf(src, s) == M then src.mascStart else src.femStart;
    assert start == Some(|det| + |DET_TAG|);
  }

  /** In the "un" source, the first three characters tell "un_" and "Un_"
      from "une" and "Une". */
  lemma UnDiscriminant(det: string, w: string)
    requires det in UN.determiners
    ensures (det + DET_TAG + w + NOUN_TAG)[..3] in ["un_", "Un_"] <==> DeterminerGender(det) == M
  {
    var s := det + DET_TAG + w + NOUN_TAG;
    assert s[..3] == (det + DET_TAG)[..3];
    assert det == "Un" || det == "un" || det == "Une" || det == "une";
    if det == "Une" || det == "une" {
      assert s[..3] == det;
    } else {
      assert s[..3] == det + "_";
      assert det + "_" == "un_" || det + "_" == "Un_";
    }
  }

  /** The gender rules of each source, for every record the source keeps:
      "le"/"Le" and "du"/"Du" records are masculine, "la"/"La" records
      feminine, and in the "un" source a record is masculine exactly when
      its determiner is "un"/"Un" (the character after "un" is '_'). The
      noun is the word of the digram's noun token. */
  lemma KeptDecomposition(i: nat, r: Record)
    requires i < |SOURCES|
    requires Keep(SOURCES[i], r)
    ensures exists det, w ::
      && det in SOURCES[i].determiners && IsNounWord(w) && Spells(r.digram, det, w)
      && KeyOf(SOURCES[i], r.digram) == Key(w, DeterminerGender(det))
    ensures i == 0 || i == 2 ==> GenderOf(SOURCES[i], r.digram) == M
    ensures i == 1 ==> GenderOf(SOURCES[i], r.digram) == F
    ensures i == 3 ==> (GenderOf(SOURCES[i], r.digram) == M <==> r.digram[..3] in ["un_", "Un_"])
  {
    MatchesDigramIff(SOURCES[i].determiners, r.digram);
    var det, w :| det in SOURCES[i].determiners && IsNounWord(w) && Spells(r.digram, det, w);
    DecomposeSpelled(i, det, w);
    var s := r.digram;
    assert s[..3] == (det + DET_TAG)[..3];
    if i == 3 {
      UnDiscriminant(det, w);
    }
  }
}
