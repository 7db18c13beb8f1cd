/** Walks and hop counts in a directed graph given by adjacency lists. */
module Hops {
  import opened Collections

  type Graph = seq<seq<int>>

  ghost predicate WellFormed(g: Graph) {
    forall u, v :: 0 <= u < |g| && v in g[u] ==> 0 <= v < |g|
  }

  /** `p` lists the vertices of a walk from `s` to `v`; it takes `|p| - 1` hops. */
  ghost predicate IsWalk(g: Graph, p: seq<int>, s: int, v: int) {
    && |p| >= 1 && p[0] == s && p[|p|-1] == v
    && (forall i :: 0 <= i < |p| ==> 0 <= p[i] < |g|)
    && (forall i :: 0 < i < |p| ==> p[i] in g[p[i-1]])
  }

  /** Some walk from `s` to `v` takes `d` hops and none takes fewer. */
  ghost predicate IsHopCount(g: Graph, s: int, v: int, d: int) {
    && (exists p :: IsWalk(g, p, s, v) && |p| - 1 == d)
    && (forall p :: IsWalk(g, p, s, v) ==> d <= |p| - 1)
  }

  ghost predicate Unreachable(g: Graph, s: int, v: int) {
    forall p :: !IsWalk(g, p, s, v)
  }

  /** The vertices listed by some member of `us`. */
  ghost function Targets(g: Graph, us: seq<int>): set<int> {
    set u, v | u in us && 0 <= u < |g| && v in g[u] :: v
  }

  /** A set of vertices together with everything they list. */
  ghost function Widened(g: Graph, b: set<int>): set<int> {
    b + set u, v | u in b && 0 <= u < |g| && v in g[u] :: v
  }

  /** The vertices within `k` hops of `s`. */
  ghost function Ball(g: Graph, s: int, k: nat): set<int> {
    if k == 0 then {s} else Widened(g, Ball(g, s, k - 1))
  }

  /** The vertices at exactly `k` hops from `s`. */
  ghost function Layer(g: Graph, s: int, k: nat): set<int> {
    if k == 0 then {s} else Ball(g, s, k) - Ball(g, s, k - 1)
  }

  lemma {:induction false} BallInRange(g: Graph, s: int, k: nat)
    requires WellFormed(g) && 0 <= s < |g|
    ensures forall v :: v in Ball(g, s, k) ==> 0 <= v < |g|
  {
    if k > 0 { BallInRange(g, s, k - 1); }
  }

  lemma {:induction false} BallGrows(g: Graph, s: int, j: nat, k: nat)
    requires j <= k
    ensures Ball(g, s, j) <= Ball(g, s, k)
    decreases k
  {
    if j < k { BallGrows(g, s, j, k - 1); }
  }

  lemma {:induction false} WalkStaysInBall(g: Graph, s: int, v: int, p: seq<int>)
    requires IsWalk(g, p, s, v)
    ensures v in Ball(g, s, |p| - 1)
    decreases |p|
  {
    if |p| > 1 {
      var q := p[..|p|-1];
      WalkStaysInBall(g, s, q[|q|-1], q);
    }
  }

  lemma {:induction false} BallHasWalk(g: Graph, s: int, v: int, k: nat) returns (p: seq<int>)
    requires WellFormed(g) && 0 <= s < |g| && v in Ball(g, s, k)
    ensures IsWalk(g, p, s, v) && |p| - 1 <= k
    decreases k
  {
    if k == 0 {
      p := [s];
    } else if v in Ball(g, s, k - 1) {
      p := BallHasWalk(g, s, v, k - 1);
    } else {
      var u :| u in Ball(g, s, k - 1) && 0 <= u < |g| && v in g[u];
      var q := BallHasWalk(g, s, u, k - 1);
      p := q + [v];
    }
  }

  /** Layer `k` is exactly the set of vertices whose hop count is `k`. */
  lemma LayerIsHopCount(g: Graph, s: int, v: int, k: nat)
    requires WellFormed(g) && 0 <= s < |g|
    ensures v in Layer(g, s, k) <==> IsHopCount(g, s, v, k)
  {
    if v in Layer(g, s, k) {
      var p := BallHasWalk(g, s, v, k);
      forall q | IsWalk(g, q, s, v) ensures k <= |q| - 1 {
        WalkStaysInBall(g, s, v, q);
        if |q| - 1 < k { BallGrows(g, s, |q| - 1, k - 1); }
      }
      assert |p| - 1 == k;
    }
    if IsHopCount(g, s, v, k) {
      var p :| IsWalk(g, p, s, v) && |p| - 1 == k;
      WalkStaysInBall(g, s, v, p);
      if k > 0 && v in Ball(g, s, k - 1) {
        var q := BallHasWalk(g, s, v, k - 1);
        assert false;
      }
    }
  }

  /** Once a layer is empty the ball has stopped growing. */
  lemma {:induction false} BallStops(g: Graph, s: int, k: nat, n: nat)
    requires Ball(g, s, k + 1) == Ball(g, s, k) && k <= n
    ensures Ball(g, s, n) == Ball(g, s, k)
    decreases n
  {
    hide Widened;
    if k < n { BallStops(g, s, k, n - 1); }
  }

  /** If layer `k + 1` is empty, what lies outside ball `k` cannot be reached at all. */
  lemma OutsideIsUnreachable(g: Graph, s: int, v: int, k: nat)
    requires WellFormed(g) && 0 <= s < |g|
    requires Layer(g, s, k + 1) == {} && v !in Ball(g, s, k)
    ensures Unreachable(g, s, v)
  {
    assert Ball(g, s, k + 1) == Ball(g, s, k) by {
      BallGrows(g, s, k, k + 1);
      forall w | w in Ball(g, s, k + 1) ensures w in Ball(g, s, k) {
        assert w in Layer(g, s, k + 1) || w in Ball(g, s, k);
      }
    }
    forall p ensures !IsWalk(g, p, s, v) {
      if IsWalk(g, p, s, v) {
        WalkStaysInBall(g, s, v, p);
        if |p| - 1 <= k { BallGrows(g, s, |p| - 1, k); } else { BallStops(g, s, k, |p| - 1); }
        assert false;
      }
    }
  }

  /** No layer up to `k` is empty. */
  ghost predicate LayersFilled(g: Graph, s: int, k: nat) {
    Layer(g, s, k) != {} && (k > 0 ==> LayersFilled(g, s, k - 1))
  }

  lemma {:induction false} BallSize(g: Graph, s: int, k: nat)
    requires LayersFilled(g, s, k)
    ensures k + 1 <= |Ball(g, s, k)|
  {
    if k > 0 {
      BallSize(g, s, k - 1);
      BallGrows(g, s, k - 1, k);
      var v := Pick(Layer(g, s, k));
      ProperSubsetSize(Ball(g, s, k - 1), Ball(g, s, k));
    }
  }

  /** While no layer is empty, every level adds a vertex: the levels cannot outnumber the vertices. */
  lemma LevelsAreBounded(g: Graph, s: int, k: nat)
    requires WellFormed(g) && 0 <= s < |g|
    requires LayersFilled(g, s, k)
    ensures k + 1 <= |g|
    ensures Layer(g, s, k + 1) != {} ==> k + 2 <= |g|
  {
    BallSize(g, s, k);
    BallInRange(g, s, k);
    SubsetSize(Ball(g, s, k), UpTo(|g|));
    if Layer(g, s, k + 1) != {} {
      BallSize(g, s, k + 1);
      BallInRange(g, s, k + 1);
      SubsetSize(Ball(g, s, k + 1), UpTo(|g|));
    }
  }
}
