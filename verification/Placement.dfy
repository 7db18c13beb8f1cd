/** Greedy replica placement: each replica of a chunk goes to a least loaded node not yet holding one. */
module Placement {
  import opened Collections

  function LoadAt(load: map<int, int>, n: int): int {
    if n in load then load[n] else 0
  }

  /** The comparator handed to `min_element`: used nodes come last, others by load. */
  predicate Before(a: int, b: int, used: set<int>, load: map<int, int>) {
    if a in used then false
    else if b in used then true
    else LoadAt(load, a) < LoadAt(load, b)
  }

  /** `min_element` is only defined for such a comparator: incomparability is an equivalence. */
  lemma BeforeIsStrictWeakOrder(a: int, b: int, c: int, used: set<int>, load: map<int, int>)
    ensures !Before(a, a, used, load)
    ensures Before(a, b, used, load) && Before(b, c, used, load) ==> Before(a, c, used, load)
    ensures !Before(a, b, used, load) && !Before(b, a, used, load) && !Before(b, c, used, load) && !Before(c, b, used, load)
            ==> !Before(a, c, used, load) && !Before(c, a, used, load)
  {
  }

  ghost predicate LeastLoaded(nodes: set<int>, load: map<int, int>, n: int) {
    n in nodes && forall m :: m in nodes ==> LoadAt(load, n) <= LoadAt(load, m)
  }

  /** `picks` takes nodes one at a time, each least loaded among those not taken before; ties are free. */
  ghost predicate GreedyRun(nodes: set<int>, load: map<int, int>, picks: seq<int>) {
    |picks| > 0 ==>
      var k := |picks| - 1;
      && GreedyRun(nodes, load, picks[..k])
      && LeastLoaded(nodes - Elements(picks[..k]), load, picks[k])
  }

  /** The loads once each picked node holds one more chunk. */
  ghost function Bump(load: map<int, int>, picks: seq<int>): map<int, int> {
    if |picks| == 0 then load
    else
      var k := |picks| - 1;
      var before := Bump(load, picks[..k]);
      before[picks[k] := LoadAt(before, picks[k]) + 1]
  }

  lemma {:induction false} GreedyRunIsDistinct(nodes: set<int>, load: map<int, int>, picks: seq<int>)
    requires GreedyRun(nodes, load, picks)
    ensures Distinct(picks) && Elements(picks) <= nodes && |Elements(picks)| == |picks|
    ensures forall n, m :: n in picks && m in nodes && m !in picks ==> LoadAt(load, n) <= LoadAt(load, m)
  {
    if |picks| > 0 {
      var k := |picks| - 1;
      GreedyRunIsDistinct(nodes, load, picks[..k]);
      assert Elements(picks) == Elements(picks[..k]) + {picks[k]};
    }
  }

  lemma {:induction false} BumpAdds(load: map<int, int>, picks: seq<int>, n: int)
    requires Distinct(picks)
    ensures LoadAt(Bump(load, picks), n) == LoadAt(load, n) + if n in picks then 1 else 0
  {
    if |picks| > 0 {
      BumpAdds(load, picks[..|picks|-1], n);
    }
  }

  /** Choosing by current loads extends the run: nodes not taken yet still have their old loads. */
  lemma GreedyStep(nodes: set<int>, load: map<int, int>, picks: seq<int>, n: int)
    requires GreedyRun(nodes, load, picks)
    requires LeastLoaded(nodes - Elements(picks), Bump(load, picks), n)
    ensures GreedyRun(nodes, load, picks + [n])
    ensures Bump(load, picks + [n]) == Bump(load, picks)[n := LoadAt(Bump(load, picks), n) + 1]
  {
    var all := picks + [n];
    assert all[..|all|-1] == picks;
    GreedyRunIsDistinct(nodes, load, picks);
    forall m | m in nodes - Elements(picks) ensures LoadAt(Bump(load, picks), m) == LoadAt(load, m) {
      BumpAdds(load, picks, m);
    }
  }

  /** A run shorter than the list of nodes has not taken them all. */
  lemma SomeNodeLeft(available: seq<int>, load: map<int, int>, picks: seq<int>)
    requires Distinct(available) && GreedyRun(Elements(available), load, picks) && |picks| < |available|
    ensures !(forall n :: n in available ==> n in Elements(picks))
  {
    DistinctSize(available);
    GreedyRunIsDistinct(Elements(available), load, picks);
    if forall n :: n in available ==> n in Elements(picks) {
      SubsetSize(Elements(available), Elements(picks));
    }
  }

  ghost predicate SpreadAtMost(nodes: set<int>, load: map<int, int>, d: int) {
    forall n, m :: n in nodes && m in nodes ==> LoadAt(load, n) - LoadAt(load, m) <= d
  }

  /** Placing a chunk never widens the gap between loads beyond one. */
  lemma SpreadStaysSmall(nodes: set<int>, load: map<int, int>, picks: seq<int>, d: int)
    requires GreedyRun(nodes, load, picks) && SpreadAtMost(nodes, load, d)
    ensures SpreadAtMost(nodes, Bump(load, picks), if d > 1 then d else 1)
  {
    GreedyRunIsDistinct(nodes, load, picks);
    forall n ensures LoadAt(Bump(load, picks), n) == LoadAt(load, n) + if n in picks then 1 else 0 {
      BumpAdds(load, picks, n);
    }
  }

  /** The loads of a set of nodes, without saying which node has which. */
  ghost function LoadsOn(nodes: set<int>, load: map<int, int>): multiset<int> {
    if nodes == {} then multiset{}
    else
      var n := Pick(nodes);
      LoadsOn(nodes - {n}, load) + multiset{LoadAt(load, n)}
  }

  lemma {:induction false} LoadsOnRemove(nodes: set<int>, load: map<int, int>, n: int)
    requires n in nodes
    ensures LoadsOn(nodes, load) == LoadsOn(nodes - {n}, load) + multiset{LoadAt(load, n)}
    decreases nodes
  {
    var m := Pick(nodes);
    if m != n {
      LoadsOnRemove(nodes - {m}, load, n);
      LoadsOnRemove(nodes - {n}, load, m);
      assert nodes - {m} - {n} == nodes - {n} - {m};
    }
  }

  lemma {:induction false} LoadsOnSame(nodes: set<int>, load: map<int, int>, load': map<int, int>)
    requires forall n :: n in nodes ==> LoadAt(load, n) == LoadAt(load', n)
    ensures LoadsOn(nodes, load) == LoadsOn(nodes, load')
    decreases nodes
  {
    if nodes != {} {
      var n := Pick(nodes);
      LoadsOnRemove(nodes, load, n);
      LoadsOnRemove(nodes, load', n);
      LoadsOnSame(nodes - {n}, load, load');
    }
  }

  lemma {:induction false} LoadsOnMembers(nodes: set<int>, load: map<int, int>, x: int)
    ensures x in LoadsOn(nodes, load) <==> exists n :: n in nodes && LoadAt(load, n) == x
    decreases nodes
  {
    if nodes != {} {
      var m := Pick(nodes);
      LoadsOnRemove(nodes, load, m);
      LoadsOnMembers(nodes - {m}, load, x);
    }
  }

  /** The smallest load. */
  ghost function Least(m: multiset<int>): int {
    if |m| == 0 then 0
    else
      var y := PickMember(m);
      var rest := m - multiset{y};
      if |rest| == 0 || y < Least(rest) then y else Least(rest)
  }

  lemma {:induction false} LeastIsSmallest(m: multiset<int>)
    requires |m| > 0
    ensures Least(m) in m && forall y :: y in m ==> Least(m) <= y
    decreases |m|
  {
    var y := PickMember(m);
    var rest := m - multiset{y};
    assert forall z :: z in m ==> z == y || z in rest;
    if |rest| > 0 { LeastIsSmallest(rest); }
  }

  /** The loads left after the `k` smallest are taken out, one at a time. */
  ghost function Left(m: multiset<int>, k: nat): multiset<int> {
    if k == 0 then m else Left(m, k - 1) - multiset{Least(Left(m, k - 1))}
  }

  /** The loads that were taken out, each one higher. */
  ghost function Raised(m: multiset<int>, k: nat): multiset<int> {
    if k == 0 then multiset{} else Raised(m, k - 1) + multiset{Least(Left(m, k - 1)) + 1}
  }

  /** Taking a least loaded node takes the least load. */
  lemma OneTaken(nodes: set<int>, load: map<int, int>, n: int)
    requires LeastLoaded(nodes, load, n)
    ensures Least(LoadsOn(nodes, load)) == LoadAt(load, n)
    ensures LoadsOn(nodes - {n}, load) == LoadsOn(nodes, load) - multiset{LoadAt(load, n)}
  {
    LoadsOnRemove(nodes, load, n);
    LeastIsSmallest(LoadsOn(nodes, load));
    LoadsOnMembers(nodes, load, Least(LoadsOn(nodes, load)));
  }

  lemma OneRaised(nodes: set<int>, load: map<int, int>, n: int)
    requires n !in nodes
    ensures LoadsOn(nodes + {n}, load[n := LoadAt(load, n) + 1]) == LoadsOn(nodes, load) + multiset{LoadAt(load, n) + 1}
  {
    var after := load[n := LoadAt(load, n) + 1];
    LoadsOnRemove(nodes + {n}, after, n);
    assert nodes + {n} - {n} == nodes;
    LoadsOnSame(nodes, load, after);
  }

  lemma LastPick(picks: seq<int>)
    requires |picks| > 0
    ensures Elements(picks) == Elements(picks[..|picks|-1]) + {picks[|picks|-1]}
  {
  }

  lemma LeavesOneLess(nodes: set<int>, load: map<int, int>, picks: seq<int>, k: nat)
    requires |picks| == k + 1 && LeastLoaded(nodes - Elements(picks[..k]), load, picks[k])
    requires LoadsOn(nodes - Elements(picks[..k]), load) == Left(LoadsOn(nodes, load), k)
    ensures LoadsOn(nodes - Elements(picks), load) == Left(LoadsOn(nodes, load), k + 1)
  {
    var rest := nodes - Elements(picks[..k]);
    OneTaken(rest, load, picks[k]);
    LastPick(picks);
    assert rest - {picks[k]} == nodes - Elements(picks);
  }

  /** A greedy run leaves the loads it did not take. */
  lemma {:induction false} RunLeaves(nodes: set<int>, load: map<int, int>, picks: seq<int>)
    requires GreedyRun(nodes, load, picks)
    ensures LoadsOn(nodes - Elements(picks), load) == Left(LoadsOn(nodes, load), |picks|)
  {
    hide LoadsOn, Least, LeastLoaded, Elements;
    if |picks| > 0 {
      var k := |picks| - 1;
      RunLeaves(nodes, load, picks[..k]);
      LeavesOneLess(nodes, load, picks, k);
    } else {
      NothingTaken(nodes, load, picks);
    }
  }

  lemma NothingTaken(nodes: set<int>, load: map<int, int>, picks: seq<int>)
    requires |picks| == 0
    ensures nodes - Elements(picks) == nodes && LoadsOn(Elements(picks), load) == multiset{}
  {
    assert Elements(picks) == {};
  }

  lemma RaisedNext(m: multiset<int>, k: nat)
    ensures Raised(m, k + 1) == Raised(m, k) + multiset{Least(Left(m, k)) + 1}
  {
    hide Left, Least;
  }

  lemma RaisesOneMore(nodes: set<int>, load: map<int, int>, init: seq<int>, n: int, all: multiset<int>, k: nat)
    requires LeastLoaded(nodes - Elements(init), load, n) && n !in Elements(init)
    requires LoadAt(Bump(load, init), n) == LoadAt(load, n)
    requires LoadsOn(nodes - Elements(init), load) == Left(all, k)
    requires LoadsOn(Elements(init), Bump(load, init)) == Raised(all, k)
    ensures LoadsOn(Elements(init) + {n}, Bump(load, init)[n := LoadAt(Bump(load, init), n) + 1]) == Raised(all, k + 1)
  {
    hide *;
    OneTaken(nodes - Elements(init), load, n);
    OneRaised(Elements(init), Bump(load, init), n);
    RaisedNext(all, k);
  }

  /** A greedy run raises the loads it took. */
  lemma {:induction false} RunRaises(nodes: set<int>, load: map<int, int>, picks: seq<int>)
    requires GreedyRun(nodes, load, picks)
    ensures LoadsOn(Elements(picks), Bump(load, picks)) == Raised(LoadsOn(nodes, load), |picks|)
  {
    hide LoadsOn, Least, LeastLoaded, Left;
    if |picks| > 0 {
      var k := |picks| - 1;
      var init, n := picks[..k], picks[k];
      RunRaises(nodes, load, init);
      RunLeaves(nodes, load, init);
      GreedyRunIsDistinct(nodes, load, picks);
      BumpAdds(load, init, n);
      RaisesOneMore(nodes, load, init, n, LoadsOn(nodes, load), k);
      LastPick(picks);
    } else {
      NothingTaken(nodes, load, picks);
    }
  }

  lemma {:induction false} LoadsOnSplit(nodes: set<int>, part: set<int>, load: map<int, int>)
    requires part <= nodes
    ensures LoadsOn(nodes, load) == LoadsOn(nodes - part, load) + LoadsOn(part, load)
    decreases part
  {
    if part == {} {
      assert nodes - part == nodes;
    } else {
      var n := Pick(part);
      assert nodes - {n} - (part - {n}) == nodes - part;
      hide LoadsOn;
      LoadsOnRemove(nodes, load, n);
      LoadsOnRemove(part, load, n);
      LoadsOnSplit(nodes - {n}, part - {n}, load);
    }
  }

  /** After a greedy run, the loads as a multiset depend only on the loads before and on its length. */
  lemma LoadsAfterRun(nodes: set<int>, load: map<int, int>, picks: seq<int>)
    requires GreedyRun(nodes, load, picks)
    ensures LoadsOn(nodes, Bump(load, picks)) == Left(LoadsOn(nodes, load), |picks|) + Raised(LoadsOn(nodes, load), |picks|)
  {
    GreedyRunIsDistinct(nodes, load, picks);
    RunLeaves(nodes, load, picks);
    RunRaises(nodes, load, picks);
    LoadsOnSplit(nodes, Elements(picks), Bump(load, picks));
    forall n | n in nodes - Elements(picks) ensures LoadAt(load, n) == LoadAt(Bump(load, picks), n) {
      BumpAdds(load, picks, n);
    }
    LoadsOnSame(nodes - Elements(picks), load, Bump(load, picks));
  }

  /** Whatever the tie-breaks, of this chunk and of those before it, greedy runs of the same length take equal
      multisets of loads to equal multisets. */
  lemma TieBreaksDoNotMatter(nodes: set<int>, load: map<int, int>, p: seq<int>, other: map<int, int>, q: seq<int>)
    requires GreedyRun(nodes, load, p) && GreedyRun(nodes, other, q) && |p| == |q|
    requires LoadsOn(nodes, load) == LoadsOn(nodes, other)
    ensures LoadsOn(nodes, Bump(load, p)) == LoadsOn(nodes, Bump(other, q))
  {
    LoadsAfterRun(nodes, load, p);
    LoadsAfterRun(nodes, other, q);
  }

  /** The interactive tester keeps (load, node) pairs in an ordered set and takes them from the front. */
  ghost predicate TesterRun(nodes: set<int>, load: map<int, int>, picks: seq<int>) {
    |picks| > 0 ==>
      var k := |picks| - 1;
      var left := nodes - Elements(picks[..k]);
      && TesterRun(nodes, load, picks[..k])
      && picks[k] in left
      && forall m :: m in left && m != picks[k] ==>
           LoadAt(load, picks[k]) < LoadAt(load, m) || (LoadAt(load, picks[k]) == LoadAt(load, m) && picks[k] < m)
  }

  lemma {:induction false} TesterIsGreedy(nodes: set<int>, load: map<int, int>, tester: seq<int>)
    requires TesterRun(nodes, load, tester)
    ensures GreedyRun(nodes, load, tester)
  {
    if |tester| > 0 { TesterIsGreedy(nodes, load, tester[..|tester|-1]); }
  }
}
