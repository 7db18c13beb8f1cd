/** The maze program around the search: it reads one-way and two-way corridors, searches the
    reversed graph from the exit, and prints how far each explorer is from it. */
module MazeProgram {
  import opened Hops
  import opened MazeEscape

  /** A corridor from `u` to `v`; it can be walked both ways when `d` is 1. */
  datatype Corridor = Corridor(u: int, v: int, d: int) {
    predicate Leads(a: int, b: int) {
      (u == a && v == b) || (d == 1 && u == b && v == a)
    }
  }

  predicate Connects(corridors: seq<Corridor>, a: int, b: int) {
    exists i :: 0 <= i < |corridors| && corridors[i].Leads(a, b)
  }

  ghost predicate CorridorsIn(n: nat, corridors: seq<Corridor>) {
    forall i :: 0 <= i < |corridors| ==> 0 <= corridors[i].u < n && 0 <= corridors[i].v < n
  }

  /** An explorer in room `u` escapes through the rooms `p`: each corridor taken leads that way and
      no room entered after `u` is blocked. */
  ghost predicate IsEscape(n: nat, corridors: seq<Corridor>, blocked: seq<int>, p: seq<int>, u: int, exit: int) {
    && |p| >= 1 && p[0] == u && p[|p|-1] == exit
    && (forall i :: 0 <= i < |p| ==> 0 <= p[i] < n)
    && (forall i :: 0 < i < |p| ==> Connects(corridors, p[i-1], p[i]) && p[i] !in blocked)
  }

  /** The answer for room `u`: the length of a shortest escape, or -1 when there is none. */
  ghost predicate CorrectAnswer(n: nat, corridors: seq<Corridor>, blocked: seq<int>, u: int, exit: int, answer: int) {
    if answer == -1 then
      forall p :: !IsEscape(n, corridors, blocked, p, u, exit)
    else
      && (exists p :: IsEscape(n, corridors, blocked, p, u, exit) && |p| - 1 == answer)
      && (forall p :: IsEscape(n, corridors, blocked, p, u, exit) ==> answer <= |p| - 1)
  }

  /** The graph lists, for every room, the rooms with a corridor into it. */
  method BuildGraph(n: nat, corridors: seq<Corridor>) returns (g: Graph)
    requires CorridorsIn(n, corridors)
    ensures |g| == n && WellFormed(g)
    ensures forall a, b :: 0 <= a < n ==> (b in g[a] <==> 0 <= b < n && Connects(corridors, b, a))
  {
    g := seq(n, _ => []);
    for i := 0 to |corridors|
      invariant |g| == n
      invariant forall a, b :: 0 <= a < n ==> (b in g[a] <==> 0 <= b < n && Connects(corridors[..i], b, a))
    {
      var c := corridors[i];
      if c.d == 1 {
        g := g[c.u := g[c.u] + [c.v]];
        g := g[c.v := g[c.v] + [c.u]];
      } else {
        g := g[c.v := g[c.v] + [c.u]];
      }
      forall a, b ensures Connects(corridors[..i+1], b, a) <==> Connects(corridors[..i], b, a) || c.Leads(b, a) {
        OneMoreCorridor(corridors[..i], c, b, a);
        assert corridors[..i+1] == corridors[..i] + [c];
      }
    }
    assert corridors[..|corridors|] == corridors;
  }

  lemma OneMoreCorridor(corridors: seq<Corridor>, c: Corridor, a: int, b: int)
    ensures Connects(corridors + [c], a, b) <==> Connects(corridors, a, b) || c.Leads(a, b)
  {
    var all := corridors + [c];
    if Connects(corridors, a, b) {
      var i :| 0 <= i < |corridors| && corridors[i].Leads(a, b);
      assert all[i].Leads(a, b);
    }
    if c.Leads(a, b) { assert all[|corridors|].Leads(a, b); }
  }

  /** Blocking a room clears its own list and leaves it in the lists of others. */
  method Block(g0: Graph, blocked: seq<int>) returns (g: Graph)
    requires forall i :: 0 <= i < |blocked| ==> 0 <= blocked[i] < |g0|
    ensures |g| == |g0|
    ensures forall a :: 0 <= a < |g0| ==> g[a] == if a in blocked then [] else g0[a]
  {
    g := g0;
    for i := 0 to |blocked|
      invariant |g| == |g0|
      invariant forall a :: 0 <= a < |g0| ==> g[a] == if a in blocked[..i] then [] else g0[a]
    {
      g := g[blocked[i] := []];
      assert blocked[..i+1] == blocked[..i] + [blocked[i]];
    }
    assert blocked[..|blocked|] == blocked;
  }

  /** The list of each unblocked room holds the rooms leading into it; a blocked room's list is empty. */
  ghost predicate ReversedMaze(n: nat, corridors: seq<Corridor>, blocked: seq<int>, g: Graph) {
    && |g| == n
    && forall a, b :: 0 <= a < n ==>
         (b in g[a] <==> 0 <= b < n && Connects(corridors, b, a) && a !in blocked)
  }

  function Reversed(p: seq<int>): (r: seq<int>)
    ensures |r| == |p| && forall i :: 0 <= i < |p| ==> r[i] == p[|p|-1-i]
  {
    seq(|p|, i requires 0 <= i < |p| => p[|p|-1-i])
  }

  /** Walks from the exit in the graph are the escapes read backwards. */
  lemma WalksAreEscapes(n: nat, corridors: seq<Corridor>, blocked: seq<int>, g: Graph, p: seq<int>, u: int, exit: int)
    requires ReversedMaze(n, corridors, blocked, g)
    ensures IsWalk(g, Reversed(p), exit, u) <==> IsEscape(n, corridors, blocked, p, u, exit)
    ensures Reversed(Reversed(p)) == p
  {
    var r := Reversed(p);
    if IsWalk(g, r, exit, u) {
      assert p[0] == r[|r|-1] && p[|p|-1] == r[0];
      forall i | 0 <= i < |p| ensures 0 <= p[i] < n { assert p[i] == r[|p|-1-i]; }
      forall i | 0 < i < |p| ensures Connects(corridors, p[i-1], p[i]) && p[i] !in blocked {
        var j := |p| - i;
        assert r[j] == p[i-1] && r[j-1] == p[i] && r[j] in g[r[j-1]];
      }
    }
    if IsEscape(n, corridors, blocked, p, u, exit) {
      assert r[0] == p[|p|-1] && r[|r|-1] == p[0];
      forall j | 0 < j < |r| ensures r[j] in g[r[j-1]] {
        var i := |p| - j;
        assert r[j] == p[i-1] && r[j-1] == p[i];
      }
    }
  }

  lemma DistanceAnswers(n: nat, corridors: seq<Corridor>, blocked: seq<int>, g: Graph, u: int, exit: int, d: int)
    requires ReversedMaze(n, corridors, blocked, g)
    requires CorrectDistance(g, exit, u, d)
    ensures CorrectAnswer(n, corridors, blocked, u, exit, if d == INF then -1 else d)
  {
    forall p | IsEscape(n, corridors, blocked, p, u, exit)
      ensures IsWalk(g, Reversed(p), exit, u) && |Reversed(p)| == |p|
    {
      WalksAreEscapes(n, corridors, blocked, g, p, u, exit);
    }
    if d != INF {
      var q :| IsWalk(g, q, exit, u) && |q| - 1 == d;
      WalksAreEscapes(n, corridors, blocked, g, Reversed(q), u, exit);
      WalksAreEscapes(n, corridors, blocked, g, q, u, exit);
      assert IsEscape(n, corridors, blocked, Reversed(q), u, exit);
    }
  }

  /** The numbers printed for the explorers. */
  method Answers(n: nat, corridors: seq<Corridor>, ghost g: Graph, dist: seq<int>, explorers: seq<int>, exit: int,
                 ghost blocked: seq<int>) returns (answers: seq<int>)
    requires ReversedMaze(n, corridors, blocked, g) && |dist| == n
    requires forall v :: 0 <= v < n ==> CorrectDistance(g, exit, v, dist[v])
    requires forall i :: 0 <= i < |explorers| ==> 0 <= explorers[i] < n
    ensures |answers| == |explorers|
    ensures forall i :: 0 <= i < |explorers| ==>
      CorrectAnswer(n, corridors, blocked, explorers[i], exit, answers[i])
  {
    hide ReversedMaze, CorrectDistance, CorrectAnswer;
    answers := [];
    for i := 0 to |explorers|
      invariant |answers| == i
      invariant forall j :: 0 <= j < i ==> CorrectAnswer(n, corridors, blocked, explorers[j], exit, answers[j])
    {
      var u := explorers[i];
      DistanceAnswers(n, corridors, blocked, g, u, exit, dist[u]);
      answers := answers + [if dist[u] == INF then -1 else dist[u]];
    }
  }

  /** The whole program: for any number of ranks every explorer gets the length of a shortest escape. */
  method Solve(size: nat, n: nat, corridors: seq<Corridor>, explorers: seq<int>, exit: int, blocked: seq<int>)
    returns (answers: seq<int>)
    requires size > 0 && n <= INF && CorridorsIn(n, corridors) && 0 <= exit < n
    requires forall i :: 0 <= i < |explorers| ==> 0 <= explorers[i] < n
    requires forall i :: 0 <= i < |blocked| ==> 0 <= blocked[i] < n
    ensures |answers| == |explorers|
    ensures forall i :: 0 <= i < |explorers| ==>
      CorrectAnswer(n, corridors, blocked, explorers[i], exit, answers[i])
  {
    hide CorrectDistance, CorrectAnswer, Connects;
    var open := BuildGraph(n, corridors);
    var g := Block(open, blocked);
    assert ReversedMaze(n, corridors, blocked, g);
    var dists, _ := DistributedBFS(size, g, exit);
    answers := Answers(n, corridors, g, dists[0], explorers, exit, blocked);
  }
}
