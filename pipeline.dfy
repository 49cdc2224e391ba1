/** The main program: for each source, filter its stream chunk by chunk,
    group the kept records by digram and decompose each digram; then merge
    the per-source parts, group by (noun, gender), drop the rare pairs and
    sort by noun. Reading the files is left out: each source's stream is
    given as the sequence of its chunks of already parsed records. */
module Pipeline {
  import opened Corpus
  import opened Tallies
  import opened Matcher
  import opened Decomposer
  import opened Finalizer

  /** The records of a stream, chunk after chunk. */
  function Flatten(chunks: seq<seq<Record>>): seq<Record>
  {
    if chunks == [] then []
    else Flatten(chunks[..|chunks| - 1]) + chunks[|chunks| - 1]
  }

  /** The (digram, match count) column pair of a table of records. */
  function DigramCounts(recs: seq<Record>): (r: seq<(string, nat)>)
    ensures |r| == |recs|
    ensures forall i :: 0 <= i < |recs| ==> r[i] == (recs[i].digram, recs[i].matchCount)
  {
    if recs == [] then []
    else DigramCounts(recs[..|recs| - 1]) + [(recs[|recs| - 1].digram, recs[|recs| - 1].matchCount)]
  }

  /** The decomposition of one source, as a function on digrams. */
  function KeyFn(src: SourceSpec): string -> Key
  {
    d => KeyOf(src, d)
  }

  /** The reference view of one source: every record it keeps, decomposed
      into its (noun, gender) key with its match count, with no grouping by
      digram. */
  function Decomposed(src: SourceSpec, chunks: seq<seq<Record>>): seq<(Key, nat)>
  {
    Relabel(KeyFn(src), DigramCounts(Kept(src, Flatten(chunks))))
  }

  /** The reference view of all sources together, in source order. */
  function AllDecomposed(sources: seq<SourceSpec>, corpora: seq<seq<seq<Record>>>): seq<(Key, nat)>
    requires |sources| == |corpora|
  {
    if sources == [] then []
    else
      AllDecomposed(sources[..|sources| - 1], corpora[..|corpora| - 1])
        + Decomposed(sources[|sources| - 1], corpora[|corpora| - 1])
  }

  /** The sum, over the sources, of each source's own total at `k`. */
  function SourceTotals(sources: seq<SourceSpec>, corpora: seq<seq<seq<Record>>>, k: Key): nat
    requires |sources| == |corpora|
  {
    if sources == [] then 0
    else
      SourceTotals(sources[..|sources| - 1], corpora[..|corpora| - 1], k)
        + SumAt(Decomposed(sources[|sources| - 1], corpora[|corpora| - 1]), k)
  }

  /** The global total at a key is the sum of the sources' partial totals at
      that key: nouns seen through several determiners accumulate. */
  lemma {:induction false} GlobalIsSumOfParts(sources: seq<SourceSpec>, corpora: seq<seq<seq<Record>>>, k: Key)
    requires |sources| == |corpora|
    ensures SumAt(AllDecomposed(sources, corpora), k) == SourceTotals(sources, corpora, k)
  {
    if sources != [] {
      var n := |sources| - 1;
      GlobalIsSumOfParts(sources[..n], corpora[..n], k);
      SumAtAppend(AllDecomposed(sources[..n], corpora[..n]), Decomposed(sources[n], corpora[n]), k);
    }
  }

  lemma {:induction false} FlattenAppend(a: seq<seq<Record>>, b: seq<seq<Record>>)
    ensures Flatten(a + b) == Flatten(a) + Flatten(b)
  {
    if b == [] {
      assert a + b == a;
    } else {
      var b' := b[..|b| - 1];
      assert (a + b)[..|a + b| - 1] == a + b';
      FlattenAppend(a, b');
    }
  }

  /** The stream is the chunks before `j`, chunk `j`, and the chunks
      after it. */
  lemma {:induction false} FlattenAt(chunks: seq<seq<Record>>, j: nat)
    requires j < |chunks|
    ensures Flatten(chunks) == Flatten(chunks[..j]) + chunks[j] + Flatten(chunks[j + 1..])
  {
    assert chunks == chunks[..j + 1] + chunks[j + 1..];
    FlattenAppend(chunks[..j + 1], chunks[j + 1..]);
    assert chunks[..j + 1][..j] == chunks[..j];
  }

  /** Inserting a record into one chunk inserts it at one place in the
      stream. */
  lemma {:induction false} FlattenInsert(chunks: seq<seq<Record>>, j: nat, p: nat, r: Record) returns (a: seq<Record>, b: seq<Record>)
    requires j < |chunks| && p <= |chunks[j]|
    ensures Flatten(chunks) == a + b
    ensures Flatten(chunks[j := chunks[j][..p] + [r] + chunks[j][p..]]) == a + [r] + b
  {
    var chunk := chunks[j];
    var chunks' := chunks[j := chunk[..p] + [r] + chunk[p..]];
    FlattenAt(chunks, j);
    FlattenAt(chunks', j);
    assert chunks'[..j] == chunks[..j] && chunks'[j + 1..] == chunks[j + 1..];
    assert chunk == chunk[..p] + chunk[p..];
    a := Flatten(chunks[..j]) + chunk[..p];
    b := chunk[p..] + Flatten(chunks[j + 1..]);
  }

  /** A record older than MIN_YEAR, inserted anywhere in any chunk of any
      source's stream, changes no source's decomposition and so no total. */
  lemma OldRecordContributesNothing(
    sources: seq<SourceSpec>, corpora: seq<seq<seq<Record>>>, i: nat, j: nat, p: nat, r: Record)
    requires |sources| == |corpora|
    requires i < |corpora| && j < |corpora[i]| && p <= |corpora[i][j]|
    requires r.year < MIN_YEAR
    ensures
      var chunk := corpora[i][j];
      var corpora' := corpora[i := corpora[i][j := chunk[..p] + [r] + chunk[p..]]];
      AllDecomposed(sources, corpora') == AllDecomposed(sources, corpora)
  {
    var chunks := corpora[i];
    var chunks' := chunks[j := chunks[j][..p] + [r] + chunks[j][p..]];
    var corpora' := corpora[i := chunks'];
    var a, b := FlattenInsert(chunks, j, p, r);
    OldRecordIgnored(sources[i], a, r, b);
    assert Decomposed(sources[i], chunks') == Decomposed(sources[i], chunks);
    SameDecomposition(sources, corpora', corpora);
  }

  lemma {:induction false} SameDecomposition(
    sources: seq<SourceSpec>, c1: seq<seq<seq<Record>>>, c2: seq<seq<seq<Record>>>)
    requires |sources| == |c1| == |c2|
    requires forall i :: 0 <= i < |sources| ==> Decomposed(sources[i], c1[i]) == Decomposed(sources[i], c2[i])
    ensures AllDecomposed(sources, c1) == AllDecomposed(sources, c2)
  {
    if sources != [] {
      var n := |sources| - 1;
      SameDecomposition(sources[..n], c1[..n], c2[..n]);
    }
  }

  /** Append the kept records of each chunk to the source's part, one chunk
      at a time; the result is the filter of the whole stream. */
  method FilterSource(src: SourceSpec, chunks: seq<seq<Record>>) returns (part: seq<Record>)
    ensures part == Kept(src, Flatten(chunks))
  {
    part := [];
    for j := 0 to |chunks|
      invariant part == Kept(src, Flatten(chunks[..j]))
    {
      assert chunks[..j + 1][..j] == chunks[..j];
      KeptAppend(src, Flatten(chunks[..j]), chunks[j]);
      part := part + Kept(src, chunks[j]);
    }
    assert chunks[..|chunks|] == chunks;
  }

  /** One source's part: filter its stream, group the kept records by
      digram summing the match counts, and decompose each digram. At every
      (noun, gender) key the part holds the total of the source's kept
      records that decompose to that key. */
  method AggregateSource(src: SourceSpec, chunks: seq<seq<Record>>) returns (part: seq<(Key, nat)>)
    ensures forall k :: SumAt(part, k) == SumAt(Decomposed(src, chunks), k)
  {
    var kept := FilterSource(src, chunks);
    var byDigram := GroupBy(DigramCounts(kept));
    part := Relabel(KeyFn(src), byDigram);
    forall k ensures SumAt(part, k) == SumAt(Decomposed(src, chunks), k) {
      Regroup(KeyFn(src), DigramCounts(kept), byDigram, k);
    }
  }

  /** The whole extraction. Every output row is a distinct (noun, gender)
      pair whose count is the sum of the match counts of all the records,
      from all sources, that are kept and decompose to it; exactly the pairs
      whose sum reaches COUNT_THRESHOLD are present; rows are sorted by
      noun. */
  method Extract(sources: seq<SourceSpec>, corpora: seq<seq<seq<Record>>>) returns (output: seq<(Key, nat)>)
    requires |sources| == |corpora|
    ensures DistinctKeys(output)
    ensures SortedByNoun(output)
    ensures forall i :: 0 <= i < |output| ==>
      output[i].1 >= COUNT_THRESHOLD && output[i].1 == SumAt(AllDecomposed(sources, corpora), output[i].0)
    ensures forall k :: SumAt(AllDecomposed(sources, corpora), k) >= COUNT_THRESHOLD ==> k in KeysOf(output)
  {
    var result: seq<(Key, nat)> := [];
    for i := 0 to |sources|
      invariant forall k :: SumAt(result, k) == SumAt(AllDecomposed(sources[..i], corpora[..i]), k)
    {
      var part := AggregateSource(sources[i], corpora[i]);
      assert sources[..i + 1][..i] == sources[..i];
      assert corpora[..i + 1][..i] == corpora[..i];
      forall k ensures SumAt(result + part, k) == SumAt(AllDecomposed(sources[..i + 1], corpora[..i + 1]), k) {
        SumAtAppend(result, part, k);
        SumAtAppend(AllDecomposed(sources[..i], corpora[..i]), Decomposed(sources[i], corpora[i]), k);
      }
      result := result + part;
    }
    assert sources[..|sources|] == sources && corpora[..|corpora|] == corpora;
    var table := GroupBy(result);
    var frequent := AboveThreshold(table);
    AboveThresholdDistinct(table);
    output := SortByNoun(frequent);
    forall i | 0 <= i < |output|
      ensures output[i].1 >= COUNT_THRESHOLD && output[i].1 == SumAt(AllDecomposed(sources, corpora), output[i].0)
    {
      assert output[i] in multiset(frequent);
    }
    forall k | SumAt(AllDecomposed(sources, corpora), k) >= COUNT_THRESHOLD ensures k in KeysOf(output) {
      if k !in KeysOf(result) {
        SumAtAbsent(result, k);
      }
      var t :| 0 <= t < |table| && table[t].0 == k;
      assert table[t] in frequent;
      assert table[t] in multiset(output);
      var o :| 0 <= o < |output| && output[o] == table[t];
    }
  }
}
