/** Facts about sequences, sets and maps that several parts use. */
module Collections {

  function Join<T>(parts: seq<seq<T>>): seq<T> {
    if parts == [] then [] else parts[0] + Join(parts[1..])
  }

  lemma Associative<T>(a: seq<T>, b: seq<T>, c: seq<T>)
    ensures (a + b) + c == a + (b + c)
  {
  }

  lemma {:induction false} SubsetCardinality<T>(a: set<T>, b: set<T>)
    requires a <= b
    ensures |a| <= |b|
  {
    if |a| > 0 {
      var x :| x in a;
      SubsetCardinality(a - {x}, b - {x});
    }
  }

  // ---------- sums over maps ----------

  ghost function SomeKey<T>(m: map<nat, T>): (k: nat)
    requires m != map[]
    ensures k in m
  {
    var k :| k in m;
    k
  }

  ghost function SumOf<T>(m: map<nat, T>, rank: T -> nat): nat
    decreases |m|
  {
    if m == map[] then 0 else rank(m[SomeKey(m)]) + SumOf(m - {SomeKey(m)}, rank)
  }

  lemma {:induction false} SumPicks<T>(m: map<nat, T>, rank: T -> nat, k: nat)
    requires k in m
    ensures SumOf(m, rank) == rank(m[k]) + SumOf(m - {k}, rank)
    decreases |m|
  {
    var j := SomeKey(m);
    if j != k {
      SumPicks(m - {j}, rank, k);
      SumPicks(m - {k}, rank, j);
      assert m - {j} - {k} == m - {k} - {j};
    }
  }

  lemma SumReplaces<T>(m: map<nat, T>, rank: T -> nat, k: nat, x: T)
    requires k in m
    ensures SumOf(m[k := x], rank) == SumOf(m, rank) - rank(m[k]) + rank(x)
  {
    SumPicks(m, rank, k);
    SumPicks(m[k := x], rank, k);
    assert m[k := x] - {k} == m - {k};
  }

  lemma SumDrops<T>(m: map<nat, T>, rank: T -> nat, k: nat)
    requires k in m
    ensures SumOf(m - {k}, rank) == SumOf(m, rank) - rank(m[k])
  {
    SumPicks(m, rank, k);
  }
}
