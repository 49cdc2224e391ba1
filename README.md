# French nouns with genders: a verified model of the extractor

The extractor reads the Google Books French 2-gram files for the
determiners "le", "la", "du" and "un". It keeps the records from 1980 on
whose digram is a determiner followed by a lower-case noun, such as
`le_DET chien_NOUN`. It splits each kept digram into a noun and a
grammatical gender with fixed per-file offsets and sums the match counts
per (noun, gender) over all files. It then drops the pairs seen fewer than
500 times and writes the rest sorted by noun.

This project models that pipeline in Dafny and proves what it computes:

- `corpus.dfy` (module `Corpus`): records, the per-file source
  descriptions (`SourceSpec`), the constants `MIN_YEAR` = 1980 and
  `COUNT_THRESHOLD` = 500, and the table of the four sources.
- `matcher.dfy` (module `Matcher`): the keep test. The regular expression
  `^<determiner>_DET [a-z and the French accented letters]*?_NOUN$` is
  written as a character-level predicate. It is proved to accept exactly
  the digrams made of an allowed determiner spelling, `_DET `, a word of
  noun letters and `_NOUN`. Also here: per-chunk filtering and the year
  filter.
- `decomposer.dfy` (module `Decomposer`): gender from the discriminant
  character, and the noun as a Python-style slice ending before `_NOUN`.
  It is proved that, for every source, a kept digram yields exactly its noun
  word and the gender its determiner marks.
- `tallies.dfy` (module `Tallies`): grouping a table of (key, count) rows
  by key and summing the counts. The extractor does this twice: first by
  digram, then by (noun, gender). It is proved that grouping by digram
  first and then by (noun, gender) gives the same totals as grouping once.
- `finalizer.dfy` (module `Finalizer`): the threshold and the sort by noun
  in code-point order.
- `pipeline.dfy` (module `Pipeline`): the main program as methods. Chunks
  are appended source by source, each source's part is grouped and
  decomposed, and the parts are merged, grouped, thresholded and sorted.
  `Extract` is proved against a reference definition, `AllDecomposed`:
  every kept record of every source, decomposed, with no intermediate
  grouping.
- `examples.dfy` (module `Examples`): worked cases. These are
  `Le_DET chien_NOUN` → (chien, m), `une_DET amie_NOUN` → (amie, f), the
  rejected digrams, accumulation of one noun seen through two determiners,
  and the 500/499 threshold boundary.

The model follows the code on these points:

- The comment at extract_french_nouns.py:195 says the table is sorted by
  decreasing number of occurrences. The code at :196 sorts by noun.
- The noun slice cuts `len("_NOUN")` = 5 characters off the end of the
  digram (extract_french_nouns.py:176-177).
- The determiner patterns accept only the listed spellings, an upper- or
  lower-case first letter (`[Ll]e`, `[Ll]a`, `[Dd]u`, `[Uu]ne?`), and
  nothing else.
- The sort at extract_french_nouns.py:196 is by noun alone; the order of
  the two genders of one noun is not fixed, in the code or in the model.

Reading the gzip/CSV files is not modelled. Each source's stream is a
parameter: a sequence of chunks of already parsed records, in the order of
the source table.

## Model

| member | source | states |
|---|---|---|
| Matcher.MatchesWith | extract_french_nouns.py:15 | the anchored pattern for one determiner spelling, character by character: the spelling, `_DET `, only noun letters, and `_NOUN` as the last five characters |
| Matcher.MatchesDigram | extract_french_nouns.py:15 | a digram matches a source's pattern when it matches it for one of the source's determiner spellings |
| Matcher.Keep | extract_french_nouns.py:163-165 | a record is kept when its year is at least 1980 and its digram matches the source's pattern |
| Matcher.MatchesDigramIff | extract_french_nouns.py:15 | the keep-pattern accepts a digram iff it is an allowed determiner spelling, then `_DET `, then zero or more lower-case French letters, then `_NOUN`, with nothing before or after (both directions) |
| Matcher.Kept | extract_french_nouns.py:163-166 | the records kept from a chunk are exactly its records that pass the year test and the pattern |
| Matcher.KeptAppend | extract_french_nouns.py:159-166 | filtering two pieces of a stream and appending the results equals filtering the concatenated stream |
| Matcher.OldRecordIgnored | extract_french_nouns.py:163-166 | a record with year < 1980 is never kept, whatever its digram; inserting it anywhere in a stream leaves the kept records unchanged |
| Decomposer.Slice | extract_french_nouns.py:176-177 | Python slicing with a negative stop: a missing start slices from the beginning, a start before the stop gives exactly the characters between them, a start at or past the stop gives the empty string |
| Decomposer.GenderOf | extract_french_nouns.py:173 | m exactly when the digram has a character at the discriminant offset and it is the masculine marker; a digram too short to have it is f, as pandas' `str.get` gives a missing value there |
| Decomposer.NounOf | extract_french_nouns.py:174-178 | the noun always ends right before the last five characters of the digram; a digram shorter than five characters gives the empty noun |
| Decomposer.KeyOf | extract_french_nouns.py:173-178 | the noun begins at the start offset of the key's own gender, or at the beginning when that offset is absent, and ends before `_NOUN` |
| Decomposer.DecomposeSpelled | extract_french_nouns.py:95-129 | for every source of the table, a digram spelled det + `_DET ` + w + `_NOUN` decomposes to exactly (w, gender marked by det); the start offsets 7 and 8 are the lengths of `le_DET ` and `une_DET ` |
| Decomposer.UnDiscriminant | extract_french_nouns.py:120-126 | in the "un" source the digram starts with `un_`/`Un_` exactly when the determiner is masculine |
| Decomposer.KeptDecomposition | extract_french_nouns.py:173-178 | every record a source keeps splits into a determiner and a noun word, its key is that word with the determiner's gender, "le"/"du" records are m, "la" records are f, and "un" records are m iff they start with `un_`/`Un_` |
| Tallies.SumAtAppend | extract_french_nouns.py:182 | appending one table to another adds their totals at every key: counts accumulate, never overwrite |
| Tallies.Regroup | extract_french_nouns.py:169-185 | grouping by digram and then relabelling each digram to its (noun, gender) gives the same total at every key as relabelling the ungrouped records |
| Tallies.SumByKey | extract_french_nouns.py:169 | the accumulated map has exactly the keys of the rows, each holding the sum of that key's counts |
| Tallies.GroupBy | extract_french_nouns.py:185-186 | the grouped table has one row per key of the input, distinct keys, and each row's count is that key's sum |
| Tallies.Relabel | extract_french_nouns.py:173-179 | relabelling keeps length and order and maps every row's key through the decomposition, keeping its count |
| Finalizer.NounLeTotal | extract_french_nouns.py:196 | any two nouns are comparable in code-point lexicographic order |
| Finalizer.NounLeTransitive | extract_french_nouns.py:196 | code-point lexicographic order is transitive |
| Finalizer.AboveThreshold | extract_french_nouns.py:190 | every remaining row is a row of the table with count >= 500, and every row with count >= 500 remains |
| Finalizer.AboveThresholdDistinct | extract_french_nouns.py:190 | dropping rows keeps distinct keys distinct |
| Finalizer.InsertAt | extract_french_nouns.py:196 | placing a row after the rows whose noun does not exceed its own keeps the table sorted by noun |
| Finalizer.InsertDistinct | extract_french_nouns.py:196 | inserting a row with a new key keeps keys distinct |
| Finalizer.InsertByNoun | extract_french_nouns.py:196 | insertion keeps the rows sorted by noun and adds exactly the one row (multiset) |
| Finalizer.SortByNoun | extract_french_nouns.py:196 | the result is sorted by noun and is a permutation of the input; distinct keys stay distinct |
| Pipeline.FilterSource | extract_french_nouns.py:159-166 | appending the kept records of each chunk in turn yields the filter of the whole stream |
| Pipeline.AggregateSource | extract_french_nouns.py:159-179 | one source's part holds, at every (noun, gender), the total match count of the source's kept records that decompose to it |
| Pipeline.GlobalIsSumOfParts | extract_french_nouns.py:182-185 | the global total at a key is the sum over the sources of each source's total at that key |
| Pipeline.OldRecordContributesNothing | extract_french_nouns.py:164 | a record older than 1980, inserted into any chunk of any source, changes no decomposed record and so no total |
| Pipeline.FlattenInsert | extract_french_nouns.py:161-163 | inserting a record into one chunk inserts it at one place in the stream |
| Pipeline.Extract | extract_french_nouns.py:140-196 | output keys are distinct and sorted by noun; each count is >= 500 and equals the sum of match counts of all kept records of all sources that decompose to that key; every key whose sum reaches 500 is present |
| Examples.ChienExample | extract_french_nouns.py:96-102 | `Le_DET chien_NOUN` of 1990 is kept by "le" and gives (chien, m) |
| Examples.AmieExample | extract_french_nouns.py:120-127 | `une_DET amie_NOUN` is kept by "un" and gives (amie, f) |
| Examples.RejectUpperCase | extract_french_nouns.py:15 | a noun with an upper-case letter is rejected |
| Examples.RejectTrailingText | extract_french_nouns.py:15 | text after `_NOUN` is rejected |
| Examples.RejectOtherDeterminer | extract_french_nouns.py:98 | the "le" source rejects a `la_DET` digram |
| Examples.SpelledKept | extract_french_nouns.py:163-178 | a recent, well-spelled record is kept and gives (its word, its determiner's gender) |
| Examples.SpelledRecord | extract_french_nouns.py:163-179 | such a record alone contributes its match count at that key |
| Examples.AccumulateAcrossSources | extract_french_nouns.py:182-185 | `le_DET chat_NOUN` (300) in "le" and `un_DET chat_NOUN` (200) in "un" add up to 500 at (chat, m) |
| Examples.ThresholdBoundary | extract_french_nouns.py:190 | a count of exactly 500 is kept, 499 is dropped |
| Examples.SingleKeyOutput | extract_french_nouns.py:182-196 | when all kept records hold a single key with total n, the extractor's contract leaves exactly one output: that row if n >= 500, nothing otherwise |
| Examples.ChienAlone | extract_french_nouns.py:159-179 | the "le" file holding only `Le_DET chien_NOUN` of 1990 seen n times gives (chien, m) with total n |
| Examples.ExtractChien | extract_french_nouns.py:140-196 | the whole extractor on that file with 600 occurrences returns exactly the row (chien, m, 600) |
| Examples.ExtractChienBelowThreshold | extract_french_nouns.py:140-196 | with 499 occurrences the whole extractor returns no row |

## Left out

- Reading the gzip-compressed, tab-separated files and writing the output
  file are not modelled. This covers paths, UTF-8 decoding, dtype parsing,
  the header row and the `print` statements. Records arrive already parsed,
  and `Extract` returns the rows instead of writing them.
- The Jupyter progress widget `log_progress` and its commented fallback
  are not modelled. Neither are `CHUNK_SIZE` and the `row_count` estimate
  used only to size the progress bar. Chunking appears only as "a sequence
  of chunks".
- The fixed widths `int16` (year) and `int32` (counts) are not modelled:
  years are `int` and counts `nat`, with no overflow. `volume_count` is
  carried in `Record` but never used, as in the source.
- Regular-expression details beyond the pattern itself are not modelled.
  One example: Python's `$` also matches before a final newline, and no
  tab-separated field can contain one.
- The order of the groups produced by each `groupby` is not modelled.
  `GroupBy` states one row per key in no particular order, because only
  the totals matter downstream and the final table is re-sorted.
- Finalizer.SortByNoun: states only the order by noun. pandas' `sort` is
  not stable, so the relative order of the two genders of one noun is
  unspecified.
- A source whose file has no rows is not modelled. The source would fail
  there: `read_csv` on an empty file, or `groupby("digram")` on a frame
  with no columns. The model simply yields an empty part.
- The decomposition is modelled only through its `SourceSpec` fields. The
  source evaluates both slices for every row (`np.where`). A missing start
  offset behaves as Python's `None`, a slice from the beginning. The
  lemmas show that this branch is never selected for a kept record.
