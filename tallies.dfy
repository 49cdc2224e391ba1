/** Tables of (key, count) rows, and grouping such a table by key while
    summing the counts: the `groupby(...).agg({"match_count": "sum"})`
    followed by `reset_index` that the extractor applies first by digram
    and then by (noun, gender). */
module Tallies {

  /** The total count that `rows` holds for key `k`. */
  function SumAt<K(==)>(rows: seq<(K, nat)>, k: K): nat
  {
    if rows == [] then 0
    else SumAt(rows[..|rows| - 1], k) + (if rows[|rows| - 1].0 == k then rows[|rows| - 1].1 else 0)
  }

  /** The keys that occur in `rows`. */
  function KeysOf<K>(rows: seq<(K, nat)>): set<K>
  {
    set i | 0 <= i < |rows| :: rows[i].0
  }

  lemma KeysOfSnoc<K>(rows: seq<(K, nat)>, x: (K, nat))
    ensures KeysOf(rows + [x]) == KeysOf(rows) + {x.0}
  {
    var t := rows + [x];
    forall y | y in KeysOf(t) ensures y in KeysOf(rows) + {x.0} {
      var j :| 0 <= j < |t| && t[j].0 == y;
      if j < |rows| { assert rows[j].0 == y; }
    }
    forall y | y in KeysOf(rows) ensures y in KeysOf(t) {
      var j :| 0 <= j < |rows| && rows[j].0 == y;
      assert t[j].0 == y;
    }
    assert t[|rows|].0 == x.0;
  }

  predicate DistinctKeys<K(==)>(rows: seq<(K, nat)>)
  {
    forall i, j :: 0 <= i < j < |rows| ==> rows[i].0 != rows[j].0
  }

  /** `table` is `rows` grouped by key: one row per key of `rows`, holding
      that key's total. */
  predicate IsGrouping<K(==)>(rows: seq<(K, nat)>, table: seq<(K, nat)>)
  {
    && DistinctKeys(table)
    && KeysOf(table) == KeysOf(rows)
    && forall i :: 0 <= i < |table| ==> table[i].1 == SumAt(rows, table[i].0)
  }

  /** Replace every key by its image under `f`, keeping counts and order. */
  function Relabel<A, B>(f: A -> B, rows: seq<(A, nat)>): (r: seq<(B, nat)>)
    ensures |r| == |rows|
    ensures forall i :: 0 <= i < |rows| ==> r[i] == (f(rows[i].0), rows[i].1)
  {
    if rows == [] then []
    else Relabel(f, rows[..|rows| - 1]) + [(f(rows[|rows| - 1].0), rows[|rows| - 1].1)]
  }

  /** A key that no row mentions has total zero. */
  lemma {:induction false} SumAtAbsent<K>(rows: seq<(K, nat)>, k: K)
    requires k !in KeysOf(rows)
    ensures SumAt(rows, k) == 0
  {
    if rows != [] {
      var p := rows[..|rows| - 1];
      assert KeysOf(p) <= KeysOf(rows) by {
        forall x | x in KeysOf(p) ensures x in KeysOf(rows) {
          var i :| 0 <= i < |p| && p[i].0 == x;
          assert rows[i].0 == x;
        }
      }
      assert rows[|rows| - 1].0 in KeysOf(rows);
      SumAtAbsent(p, k);
    }
  }

  /** Totals of a concatenation add up: appending one table to another
      accumulates counts, it never overwrites them. */
  lemma {:induction false} SumAtAppend<K>(a: seq<(K, nat)>, b: seq<(K, nat)>, k: K)
    ensures SumAt(a + b, k) == SumAt(a, k) + SumAt(b, k)
  {
    if b != [] {
      var b' := b[..|b| - 1];
      assert (a + b)[..|a + b| - 1] == a + b';
      SumAtAppend(a, b', k);
    } else {
      assert a + b == a;
    }
  }

  /** The total, under the relabelling `f`, of the rows whose key is already
      in `done`. */
  function SumMapped<A, B(==)>(f: A -> B, rows: seq<(A, nat)>, b: B, done: set<A>): nat
  {
    if rows == [] then 0
    else
      var x := rows[|rows| - 1];
      SumMapped(f, rows[..|rows| - 1], b, done) + (if f(x.0) == b && x.0 in done then x.1 else 0)
  }

  lemma {:induction false} SumMappedAdd<A, B>(f: A -> B, rows: seq<(A, nat)>, b: B, done: set<A>, a: A)
    requires a !in done
    ensures SumMapped(f, rows, b, done + {a}) == SumMapped(f, rows, b, done) + (if f(a) == b then SumAt(rows, a) else 0)
  {
    if rows != [] {
      SumMappedAdd(f, rows[..|rows| - 1], b, done, a);
    }
  }

  lemma {:induction false} SumMappedAll<A, B>(f: A -> B, rows: seq<(A, nat)>, b: B, done: set<A>)
    requires KeysOf(rows) <= done
    ensures SumMapped(f, rows, b, done) == SumAt(Relabel(f, rows), b)
  {
    if rows != [] {
      var p := rows[..|rows| - 1];
      assert KeysOf(p) <= done by {
        forall x | x in KeysOf(p) ensures x in done {
          var i :| 0 <= i < |p| && p[i].0 == x;
          assert rows[i].0 == x;
        }
      }
      assert rows[|rows| - 1].0 in KeysOf(rows);
      assert Relabel(f, rows)[..|rows| - 1] == Relabel(f, p);
      SumMappedAll(f, p, b, done);
    }
  }

  lemma {:induction false} RegroupPrefix<A, B>(f: A -> B, rows: seq<(A, nat)>, table: seq<(A, nat)>, b: B, n: nat)
    requires IsGrouping(rows, table)
    requires n <= |table|
    ensures SumAt(Relabel(f, table[..n]), b) == SumMapped(f, rows, b, KeysOf(table[..n]))
  {
    if n == 0 {
      assert KeysOf(table[..0]) == {};
      SumMappedNone(f, rows, b);
    } else {
      RegroupPrefix(f, rows, table, b, n - 1);
      var a := table[n - 1].0;
      assert table[..n] == table[..n - 1] + [table[n - 1]];
      KeysOfSnoc(table[..n - 1], table[n - 1]);
      assert a !in KeysOf(table[..n - 1]);
      SumMappedAdd(f, rows, b, KeysOf(table[..n - 1]), a);
      assert table[..n][..n - 1] == table[..n - 1];
    }
  }

  lemma {:induction false} SumMappedNone<A, B>(f: A -> B, rows: seq<(A, nat)>, b: B)
    ensures SumMapped(f, rows, b, {}) == 0
  {
    if rows != [] {
      SumMappedNone(f, rows[..|rows| - 1], b);
    }
  }

  /** Grouping first by a finer key and then relabelling gives the same
      totals as relabelling the ungrouped rows: summing per digram and then
      per (noun, gender) agrees with summing once per (noun, gender). */
  lemma Regroup<A, B>(f: A -> B, rows: seq<(A, nat)>, table: seq<(A, nat)>, b: B)
    requires IsGrouping(rows, table)
    ensures SumAt(Relabel(f, table), b) == SumAt(Relabel(f, rows), b)
  {
    RegroupPrefix(f, rows, table, b, |table|);
    assert table[..|table|] == table;
    SumMappedAll(f, rows, b, KeysOf(table));
  }

  /** The total of every key of `rows`, accumulated row by row. */
  method SumByKey<K(==)>(rows: seq<(K, nat)>) returns (sums: map<K, nat>)
    ensures sums.Keys == KeysOf(rows)
    ensures forall k :: k in sums ==> sums[k] == SumAt(rows, k)
  {
    sums := map[];
    for i := 0 to |rows|
      invariant sums.Keys == KeysOf(rows[..i])
      invariant forall k :: k in sums ==> sums[k] == SumAt(rows[..i], k)
    {
      var k, c := rows[i].0, rows[i].1;
      assert rows[..i + 1] == rows[..i] + [rows[i]];
      KeysOfSnoc(rows[..i], rows[i]);
      if k !in sums {
        SumAtAbsent(rows[..i], k);
      }
      sums := sums[k := (if k in sums then sums[k] else 0) + c];
    }
    assert rows[..|rows|] == rows;
  }

  /** Group `rows` by key, summing the counts of each key: one row per key,
      in no particular order. */
  method GroupBy<K(==)>(rows: seq<(K, nat)>) returns (table: seq<(K, nat)>)
    ensures IsGrouping(rows, table)
  {
    var sums := SumByKey(rows);
    table := [];
    var rest := sums.Keys;
    while rest != {}
      invariant rest <= sums.Keys
      invariant DistinctKeys(table)
      invariant KeysOf(table) == sums.Keys - rest
      invariant forall i :: 0 <= i < |table| ==> table[i].1 == SumAt(rows, table[i].0)
      decreases |rest|
    {
      var k :| k in rest;
      KeysOfSnoc(table, (k, sums[k]));
      table := table + [(k, sums[k])];
      rest := rest - {k};
    }
  }
}
