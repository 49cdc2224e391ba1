/** The finalizer: drop the (noun, gender) pairs under COUNT_THRESHOLD and
    order the remaining rows by noun. */
module Finalizer {
  import opened Corpus
  import opened Tallies

  /** `a` comes no later than `b` in code-point lexicographic order, the
      order in which Python compares unicode strings. */
  predicate NounLe(a: string, b: string)
    decreases |a|
  {
    |a| == 0 || (|b| > 0 && (a[0] < b[0] || (a[0] == b[0] && NounLe(a[1..], b[1..]))))
  }

  lemma {:induction false} NounLeTotal(a: string, b: string)
    ensures NounLe(a, b) || NounLe(b, a)
    decreases |a|
  {
    if |a| > 0 && |b| > 0 && a[0] == b[0] {
      NounLeTotal(a[1..], b[1..]);
    }
  }

  lemma {:induction false} NounLeTransitive(a: string, b: string, c: string)
    requires NounLe(a, b) && NounLe(b, c)
    ensures NounLe(a, c)
    decreases |a|
  {
    if |a| > 0 && a[0] == b[0] && b[0] == c[0] {
      NounLeTransitive(a[1..], b[1..], c[1..]);
    }
  }

  /** Rows ordered by noun, ascending; nothing is said about the order of
      the two genders of one noun. */
  predicate SortedByNoun(rows: seq<(Key, nat)>)
  {
    forall i, j :: 0 <= i < j < |rows| ==> NounLe(rows[i].0.noun, rows[j].0.noun)
  }

  /** The rows whose count reaches COUNT_THRESHOLD, in their original
      order. */
  function AboveThreshold<K(==)>(table: seq<(K, nat)>): (r: seq<(K, nat)>)
    ensures forall i :: 0 <= i < |r| ==> r[i] in table && r[i].1 >= COUNT_THRESHOLD
    ensures forall i :: 0 <= i < |table| && table[i].1 >= COUNT_THRESHOLD ==> table[i] in r
  {
    if table == [] then []
    else
      var last := table[|table| - 1];
      assert table == table[..|table| - 1] + [last];
      AboveThreshold(table[..|table| - 1]) + (if last.1 >= COUNT_THRESHOLD then [last] else [])
  }

  /** Dropping rows keeps distinct keys distinct. */
  lemma {:induction false} AboveThresholdDistinct<K>(table: seq<(K, nat)>)
    requires DistinctKeys(table)
    ensures DistinctKeys(AboveThreshold(table))
  {
    if table != [] {
      var last := table[|table| - 1];
      var prefix := table[..|table| - 1];
      AboveThresholdDistinct(prefix);
      var kept := AboveThreshold(prefix);
      forall i | 0 <= i < |kept| ensures kept[i].0 != last.0 {
        var m :| 0 <= m < |prefix| && prefix[m] == kept[i];
      }
    }
  }

  /** Insert `x` into rows sorted by noun, after every row whose noun does
      not exceed its own. */
  method InsertByNoun(sorted: seq<(Key, nat)>, x: (Key, nat)) returns (r: seq<(Key, nat)>)
    requires SortedByNoun(sorted)
    ensures SortedByNoun(r)
    ensures multiset(r) == multiset(sorted) + multiset{x}
    ensures DistinctKeys(sorted) && (forall i :: 0 <= i < |sorted| ==> sorted[i].0 != x.0) ==> DistinctKeys(r)
  {
    var p := 0;
    while p < |sorted| && NounLe(sorted[p].0.noun, x.0.noun)
      invariant 0 <= p <= |sorted|
      invariant forall i :: 0 <= i < p ==> NounLe(sorted[i].0.noun, x.0.noun)
    {
      p := p + 1;
    }
    InsertAt(sorted, p, x);
    if DistinctKeys(sorted) && (forall i :: 0 <= i < |sorted| ==> sorted[i].0 != x.0) {
      InsertDistinct(sorted, p, x);
    }
    r := sorted[..p] + [x] + sorted[p..];
    assert sorted == sorted[..p] + sorted[p..];
  }

  /** Placing `x` after the rows whose noun does not exceed its own, and
      before the first row whose noun does, keeps the rows sorted. */
  lemma InsertAt(sorted: seq<(Key, nat)>, p: nat, x: (Key, nat))
    requires SortedByNoun(sorted)
    requires p <= |sorted|
    requires forall i :: 0 <= i < p ==> NounLe(sorted[i].0.noun, x.0.noun)
    requires p < |sorted| ==> !NounLe(sorted[p].0.noun, x.0.noun)
    ensures SortedByNoun(sorted[..p] + [x] + sorted[p..])
  {
    if p < |sorted| {
      NounLeTotal(sorted[p].0.noun, x.0.noun);
      forall j | p < j < |sorted| ensures NounLe(x.0.noun, sorted[j].0.noun) {
        NounLeTransitive(x.0.noun, sorted[p].0.noun, sorted[j].0.noun);
      }
    }
    var r := sorted[..p] + [x] + sorted[p..];
    forall i, j | 0 <= i < j < |r| ensures NounLe(r[i].0.noun, r[j].0.noun) {
      if j < p {
        assert r[i] == sorted[i] && r[j] == sorted[j];
      } else if j == p {
        assert r[i] == sorted[i] && r[j] == x;
      } else if i < p {
        assert r[i] == sorted[i] && r[j] == sorted[j - 1];
      } else if i == p {
        assert r[i] == x && r[j] == sorted[j - 1];
      } else {
        assert r[i] == sorted[i - 1] && r[j] == sorted[j - 1];
      }
    }
  }

  /** Inserting a row whose key is new into rows with distinct keys keeps
      the keys distinct. */
  lemma InsertDistinct(rows: seq<(Key, nat)>, p: nat, x: (Key, nat))
    requires p <= |rows|
    requires DistinctKeys(rows)
    requires forall i :: 0 <= i < |rows| ==> rows[i].0 != x.0
    ensures DistinctKeys(rows[..p] + [x] + rows[p..])
  {
    var r := rows[..p] + [x] + rows[p..];
    forall i, j | 0 <= i < j < |r| ensures r[i].0 != r[j].0 {
      if j < p {
        assert r[i] == rows[i] && r[j] == rows[j];
      } else if j == p {
        assert r[i] == rows[i] && r[j] == x;
      } else if i < p {
        assert r[i] == rows[i] && r[j] == rows[j - 1];
      } else if i == p {
        assert r[i] == x && r[j] == rows[j - 1];
      } else {
        assert r[i] == rows[i - 1] && r[j] == rows[j - 1];
      }
    }
  }

  /** Order rows by noun. Sorting only permutes the rows, so distinct keys
      stay distinct. */
  method SortByNoun(rows: seq<(Key, nat)>) returns (sorted: seq<(Key, nat)>)
    ensures SortedByNoun(sorted)
    ensures multiset(sorted) == multiset(rows)
    ensures DistinctKeys(rows) ==> DistinctKeys(sorted)
  {
    sorted := [];
    for i := 0 to |rows|
      invariant SortedByNoun(sorted)
      invariant multiset(sorted) == multiset(rows[..i])
      invariant DistinctKeys(rows) ==> DistinctKeys(sorted)
    {
      assert rows[..i + 1] == rows[..i] + [rows[i]];
      if DistinctKeys(rows) {
        forall j | 0 <= j < |sorted| ensures sorted[j].0 != rows[i].0 {
          assert sorted[j] in multiset(rows[..i]);
          var m :| 0 <= m < i && rows[m] == sorted[j];
        }
      }
      sorted := InsertByNoun(sorted, rows[i]);
    }
    assert rows[..|rows|] == rows;
  }
}
