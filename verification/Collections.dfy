/** Small facts about finite sets shared by the models. */
module Collections {

  ghost function Pick<T>(s: set<T>): (x: T)
    requires s != {}
    ensures x in s
  {
    var x :| x in s; x
  }

  /** Any member of a set that is iterated over in no particular order. */
  method PickAny<T>(s: set<T>) returns (x: T)
    requires s != {}
    ensures x in s
  {
    x :| x in s;
  }

  ghost function PickMember<T>(m: multiset<T>): (x: T)
    requires |m| > 0
    ensures x in m
  {
    var x :| x in m; x
  }

  ghost function Elements<T>(s: seq<T>): set<T> {
    set x | x in s
  }

  ghost predicate Distinct<T>(s: seq<T>) {
    forall i, j :: 0 <= i < j < |s| ==> s[i] != s[j]
  }

  lemma {:induction false} DistinctSize<T>(s: seq<T>)
    requires Distinct(s)
    ensures |Elements(s)| == |s|
  {
    if |s| > 0 {
      var k := |s| - 1;
      DistinctSize(s[..k]);
      assert Elements(s) == Elements(s[..k]) + {s[k]};
    } else {
      assert Elements(s) == {};
    }
  }

  /** The numbers below `n`. */
  ghost function UpTo(n: nat): (s: set<int>)
    ensures |s| == n && forall v :: v in s <==> 0 <= v < n
  {
    if n == 0 then {} else UpTo(n - 1) + {n - 1}
  }

  lemma SubsetSize<T>(a: set<T>, b: set<T>)
    requires a <= b
    ensures |a| <= |b|
  {
    assert b == a + (b - a);
  }

  lemma ProperSubsetSize<T>(a: set<T>, b: set<T>)
    requires a < b
    ensures |a| < |b|
  {
    var x :| x in b && x !in a;
    SubsetSize(a, b - {x});
  }

  /** The sum of `f` over the values of a map. */
  ghost function SumMap<V>(m: map<string, V>, f: V -> int): int {
    if m.Keys == {} then 0
    else
      var k := Pick(m.Keys);
      f(m[k]) + SumMap(m - {k}, f)
  }

  lemma {:induction false} SumMapRemove<V>(m: map<string, V>, f: V -> int, k: string)
    requires k in m
    ensures SumMap(m, f) == f(m[k]) + SumMap(m - {k}, f)
    decreases |m|
  {
    var j := Pick(m.Keys);
    if j != k {
      SumMapRemove(m - {j}, f, k);
      SumMapRemove(m - {k}, f, j);
      assert m - {j} - {k} == m - {k} - {j};
    }
  }

  /** Changing one entry changes the sum by the difference. */
  lemma SumMapUpdate<V>(m: map<string, V>, f: V -> int, k: string, v: V)
    ensures SumMap(m[k := v], f) == SumMap(m, f) + f(v) - if k in m then f(m[k]) else 0
  {
    var m' := m[k := v];
    SumMapRemove(m', f, k);
    assert m' - {k} == m - {k};
    if k in m { SumMapRemove(m, f, k); } else { assert m - {k} == m; }
  }

  /** A map of integers, summed. */
  ghost function MapSum(m: map<string, int>): int {
    SumMap(m, (x: int) => x)
  }
}
