/** Worked cases of the extractor's rules on concrete digrams and streams. */
module Examples {
  import opened Corpus
  import opened Tallies
  import opened Matcher
  import opened Decomposer
  import opened Finalizer
  import opened Pipeline

  /** "Le_DET chien_NOUN" of 1990 is kept by the "le" source and
      decomposes into the masculine noun "chien". */
  lemma ChienExample(r: Record)
    requires r == Record("Le_DET chien_NOUN", 1990, 600, 1)
    ensures Keep(LE, r) && KeyOf(LE, r.digram) == Key("chien", M)
  {
    assert r.digram == "Le" + DET_TAG + "chien" + NOUN_TAG;
    assert "Le" in SOURCES[0].determiners;
    SpelledKept(0, "Le", "chien", r);
  }

  /** "une_DET amie_NOUN" is kept by the "un" source: the character at
      offset 2 is 'e', not '_', so the noun is feminine and starts at
      offset 8. */
  lemma AmieExample(r: Record)
    requires r == Record("une_DET amie_NOUN", 1990, 1, 1)
    ensures Keep(UN, r) && KeyOf(UN, r.digram) == Key("amie", F)
  {
    assert r.digram == "une" + DET_TAG + "amie" + NOUN_TAG;
    assert "une" in SOURCES[3].determiners;
    SpelledKept(3, "une", "amie", r);
  }

  /** An upper-case letter in the noun is rejected. */
  lemma RejectUpperCase()
    ensures !MatchesDigram(LE.determiners, "le_DET Chien_NOUN")
  {
    var s := "le_DET Chien_NOUN";
    assert !MatchesWith("le", s) by {
      assert s[7..|s| - 5][0] == 'C';
      assert !IsNounLetter('C');
    }
    assert !MatchesWith("Le", s) by {
      assert s[..2][0] == 'l' != "Le"[0];
    }
  }

  /** Text after "_NOUN" is rejected. */
  lemma RejectTrailingText()
    ensures !MatchesDigram(LE.determiners, "le_DET chien_NOUN x")
  {
  }

  /** A determiner the source does not list is rejected. */
  lemma RejectOtherDeterminer()
    ensures !MatchesDigram(LE.determiners, "la_DET chien_NOUN")
  {
    var u := "la_DET chien_NOUN";
    assert u[..2][1] == 'a' != "le"[1];
    assert u[..2][0] == 'l' != "Le"[0];
  }

  /** A stream of one chunk holding one kept record decomposes into that
      record's key and count. */
  lemma SingleRecord(src: SourceSpec, r: Record)
    requires Keep(src, r)
    ensures Decomposed(src, [[r]]) == [(KeyOf(src, r.digram), r.matchCount)]
  {
    assert Flatten([[r]]) == Flatten([]) + [r];
    assert Kept(src, [r]) == Kept(src, []) + [r];
  }

  /** A recent record spelled with one of a source's determiners and a
      word of noun letters is kept, and decomposes into that word and the
      determiner's gender. */
  lemma SpelledKept(i: nat, det: string, w: string, r: Record)
    requires i < |SOURCES| && det in SOURCES[i].determiners && IsNounWord(w)
    requires r.digram == det + DET_TAG + w + NOUN_TAG && r.year >= MIN_YEAR
    ensures Keep(SOURCES[i], r)
    ensures KeyOf(SOURCES[i], r.digram) == Key(w, DeterminerGender(det))
  {
    assert MatchesDigram(SOURCES[i].determiners, r.digram) by {
      MatchesDigramIff(SOURCES[i].determiners, r.digram);
    }
    DecomposeSpelled(i, det, w);
  }

  /** A single recent record spelled with a source's determiner adds its
      match count at the key of its word and its determiner's gender. */
  lemma SpelledRecord(i: nat, det: string, w: string, r: Record)
    requires i < |SOURCES| && det in SOURCES[i].determiners && IsNounWord(w)
    requires r.digram == det + DET_TAG + w + NOUN_TAG && r.year >= MIN_YEAR
    ensures SumAt(Decomposed(SOURCES[i], [[r]]), Key(w, DeterminerGender(det))) == r.matchCount
  {
    SpelledKept(i, det, w, r);
    SingleRecord(SOURCES[i], r);
    assert Decomposed(SOURCES[i], [[r]])[..0] == [];
  }

  /** "le_DET chat_NOUN" in the "le" source decomposes to the masculine
      noun "chat". */
  lemma ChatAfterLe(r: Record)
    requires r == Record("le_DET chat_NOUN", 1990, 300, 1)
    ensures SumAt(Decomposed(LE, [[r]]), Key("chat", M)) == 300
  {
    assert r.digram == "le" + DET_TAG + "chat" + NOUN_TAG;
    assert "le" in SOURCES[0].determiners;
    SpelledRecord(0, "le", "chat", r);
  }

  /** "un_DET chat_NOUN" in the "un" source decomposes to the masculine
      noun "chat" too. */
  lemma ChatAfterUn(r: Record)
    requires r == Record("un_DET chat_NOUN", 2000, 200, 1)
    ensures SumAt(Decomposed(UN, [[r]]), Key("chat", M)) == 200
  {
    assert r.digram == "un" + DET_TAG + "chat" + NOUN_TAG;
    assert "un" in SOURCES[3].determiners;
    SpelledRecord(3, "un", "chat", r);
  }

  /** With four sources, the global view is the four sources' views one
      after the other. */
  lemma FourSources(s0: SourceSpec, s1: SourceSpec, s2: SourceSpec, s3: SourceSpec,
                    c0: seq<seq<Record>>, c1: seq<seq<Record>>, c2: seq<seq<Record>>, c3: seq<seq<Record>>)
    ensures AllDecomposed([s0, s1, s2, s3], [c0, c1, c2, c3]) ==
      Decomposed(s0, c0) + Decomposed(s1, c1) + Decomposed(s2, c2) + Decomposed(s3, c3)
  {
    assert [s0, s1, s2, s3][..3] == [s0, s1, s2] && [c0, c1, c2, c3][..3] == [c0, c1, c2];
    assert [s0, s1, s2][..2] == [s0, s1] && [c0, c1, c2][..2] == [c0, c1];
    assert [s0, s1][..1] == [s0] && [c0, c1][..1] == [c0];
    assert [s0][..0] == [] && [c0][..0] == [];
    assert AllDecomposed([s0], [c0]) == Decomposed(s0, c0);
    assert AllDecomposed([s0, s1], [c0, c1]) == AllDecomposed([s0], [c0]) + Decomposed(s1, c1);
    assert AllDecomposed([s0, s1, s2], [c0, c1, c2]) == AllDecomposed([s0, s1], [c0, c1]) + Decomposed(s2, c2);
  }

  /** An empty stream contributes nothing. */
  lemma EmptyStream(src: SourceSpec)
    ensures Decomposed(src, []) == []
  {
  }

  /** A noun seen after "le" in one file and after "un" in another
      accumulates: 300 + 200 occurrences reach the threshold of 500. */
  lemma AccumulateAcrossSources(r1: Record, r2: Record)
    requires r1 == Record("le_DET chat_NOUN", 1990, 300, 1)
    requires r2 == Record("un_DET chat_NOUN", 2000, 200, 1)
    ensures SumAt(AllDecomposed(SOURCES, [[[r1]], [], [], [[r2]]]), Key("chat", M)) == COUNT_THRESHOLD
  {
    var k := Key("chat", M);
    ChatAfterLe(r1);
    ChatAfterUn(r2);
    EmptyStream(LA);
    EmptyStream(DU);
    FourSources(LE, LA, DU, UN, [[r1]], [], [], [[r2]]);
    var d1, d2 := Decomposed(LE, [[r1]]), Decomposed(UN, [[r2]]);
    var d0: seq<(Key, nat)> := [];
    SumAtAppend(d1 + d0 + d0, d2, k);
    assert d1 + d0 + d0 == d1;
  }

  /** The threshold boundary: a total of exactly COUNT_THRESHOLD is kept,
      one less is dropped. */
  lemma ThresholdBoundary(k: Key)
    ensures AboveThreshold([(k, 500)]) == [(k, 500)]
    ensures AboveThreshold([(k, 499)]) == []
  {
  }

  /** Whatever an extraction returns, when all records together hold a
      single key `k` with total `n`, its contract leaves one output: the row
      (k, n) when `n` reaches the threshold, and nothing otherwise. */
  lemma SingleKeyOutput(all: seq<(Key, nat)>, output: seq<(Key, nat)>, k: Key, n: nat)
    requires all == [(k, n)]
    requires DistinctKeys(output)
    requires forall i :: 0 <= i < |output| ==>
      output[i].1 >= COUNT_THRESHOLD && output[i].1 == SumAt(all, output[i].0)
    requires forall k' :: SumAt(all, k') >= COUNT_THRESHOLD ==> k' in KeysOf(output)
    ensures output == if n >= COUNT_THRESHOLD then [(k, n)] else []
  {
    assert all[..0] == [];
    forall i | 0 <= i < |output| ensures output[i] == (k, n) {
      assert SumAt(all, output[i].0) == if output[i].0 == k then n else 0;
    }
    assert |output| < 2 || output[0].0 == output[1].0;
    assert |output| == 0 || output[0] == (k, n);
    if n >= COUNT_THRESHOLD {
      assert SumAt(all, k) == n;
      assert k in KeysOf(output);
      assert output == [output[0]];
    }
  }

  /** The "le" file alone, holding `Le_DET chien_NOUN` of 1990 seen `n`
      times: all records together hold (chien, m) with total `n`. */
  lemma ChienAlone(n: nat)
    ensures AllDecomposed([LE], [[[Record("Le_DET chien_NOUN", 1990, n, 1)]]]) == [(Key("chien", M), n)]
  {
    var r := Record("Le_DET chien_NOUN", 1990, n, 1);
    assert r.digram == "Le" + DET_TAG + "chien" + NOUN_TAG;
    assert "Le" in SOURCES[0].determiners;
    SpelledKept(0, "Le", "chien", r);
    SingleRecord(LE, r);
    assert [LE][..0] == [] && [[[r]]][..0] == [];
  }

  /** The whole extractor on that file with 600 occurrences writes the one
      row (chien, m, 600). */
  method ExtractChien() returns (output: seq<(Key, nat)>)
    ensures output == [(Key("chien", M), 600)]
  {
    output := Extract([LE], [[[Record("Le_DET chien_NOUN", 1990, 600, 1)]]]);
    ChienAlone(600);
    SingleKeyOutput(AllDecomposed([LE], [[[Record("Le_DET chien_NOUN", 1990, 600, 1)]]]), output, Key("chien", M), 600);
  }

  /** With 499 occurrences, one short of the threshold, it writes nothing. */
  method ExtractChienBelowThreshold() returns (output: seq<(Key, nat)>)
    ensures output == []
  {
    output := Extract([LE], [[[Record("Le_DET chien_NOUN", 1990, 499, 1)]]]);
    ChienAlone(499);
    SingleKeyOutput(AllDecomposed([LE], [[[Record("Le_DET chien_NOUN", 1990, 499, 1)]]]), output, Key("chien", M), 499);
  }
}
