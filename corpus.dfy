/** The data model of the noun extractor: corpus records, the description of
    each determiner source, and the constants that drive the filtering. */
module Corpus {

  datatype Option<+T> = None | Some(value: T)

  /** Grammatical gender, written "m" / "f" in the output table. */
  datatype Gender = M | F

  /** The key of the global aggregate: a bare noun and its gender. */
  datatype Key = Key(noun: string, gender: Gender)

  /** One row of a Google Books 2-gram file: a digram such as
      "le_DET chien_NOUN", the publication year, the number of occurrences
      that year and the number of volumes (never used downstream). */
  datatype Record = Record(digram: string, year: int, matchCount: nat, volumeCount: nat)

  /** How the digrams of one determiner file are recognised and split.
      `determiners` lists the spellings the keep-pattern allows for the
      determiner token; the character at `discriminant` is compared with
      `masc` to decide the gender; `mascStart` / `femStart` are the offsets
      where the noun begins for each gender, absent when the source leaves
      them out. */
  datatype SourceSpec = SourceSpec(
    name: string,
    determiners: seq<string>,
    discriminant: nat,
    masc: char,
    mascStart: Option<nat>,
    femStart: Option<nat>)

  /** Records older than this year are ignored. */
  const MIN_YEAR: int := 1980

  /** (noun, gender) pairs seen fewer times than this are dropped. */
  const COUNT_THRESHOLD: nat := 500

  /** The four sources, in the order the extractor processes them. The
      keep-patterns `[Ll]e`, `[Ll]a`, `[Dd]u` and `[Uu]ne?` are written out
      as the spellings they accept. */
  const LE: SourceSpec := SourceSpec("le", ["Le", "le"], 1, 'e', Some(7), None)
  const LA: SourceSpec := SourceSpec("la", ["La", "la"], 1, 'e', None, Some(7))
  const DU: SourceSpec := SourceSpec("du", ["Du", "du"], 1, 'u', Some(7), None)
  const UN: SourceSpec := SourceSpec("un", ["Un", "un", "Une", "une"], 2, '_', Some(7), Some(8))

  const SOURCES: seq<SourceSpec> := [LE, LA, DU, UN]
}
