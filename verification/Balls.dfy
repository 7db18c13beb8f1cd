/** The laws of the bouncing balls: all balls of a torus move at once and turn where they meet. */
module Balls {
  import opened Collections

  datatype Dir = L | R | U | D

  datatype Ball = Ball(x: int, y: int, d: Dir)

  function RotateBy90(d: Dir): Dir {
    if d == L then U else if d == R then D else if d == U then R else L
  }

  function ReverseDirection(d: Dir): Dir {
    if d == L then R else if d == R then L else if d == U then D else U
  }

  /** The cell a ball moves to. */
  function FindNextPos(b: Ball, N: nat, M: nat): (int, int)
    requires N > 0 && M > 0
  {
    if b.d == R then (b.x, (b.y + 1) % M)
    else if b.d == L then (b.x, (b.y - 1 + M) % M)
    else if b.d == D then ((b.x + 1) % N, b.y)
    else ((b.x - 1 + N) % N, b.y)
  }

  /** The four-neighbour lookup in the histogram of all balls. */
  function Collisions(h: multiset<Ball>, X: int, Y: int, N: nat, M: nat): nat
    requires N > 0 && M > 0
  {
    h[Ball((X - 1 + N) % N, Y, D)] + h[Ball((X + 1) % N, Y, U)]
    + h[Ball(X, (Y - 1 + M) % M, R)] + h[Ball(X, (Y + 1) % M, L)]
  }

  function Turned(d: Dir, cnt: nat): Dir {
    if cnt == 2 then RotateBy90(d) else if cnt == 4 then ReverseDirection(d) else d
  }

  function StepBall(h: multiset<Ball>, b: Ball, N: nat, M: nat): Ball
    requires N > 0 && M > 0
  {
    var (X, Y) := FindNextPos(b, N, M);
    Ball(X, Y, Turned(b.d, Collisions(h, X, Y, N, M)))
  }

  /** Moves the balls of one rank, given the histogram of the balls of all ranks. */
  function StepWith(h: multiset<Ball>, balls: seq<Ball>, N: nat, M: nat): (next: seq<Ball>)
    requires N > 0 && M > 0
    ensures |next| == |balls|
  {
    seq(|balls|, i requires 0 <= i < |balls| => StepBall(h, balls[i], N, M))
  }

  /** One step of the whole system. */
  function Step(balls: seq<Ball>, N: nat, M: nat): (next: seq<Ball>)
    requires N > 0 && M > 0
    ensures |next| == |balls|
  {
    StepWith(multiset(balls), balls, N, M)
  }

  function Steps(balls: seq<Ball>, T: nat, N: nat, M: nat): (next: seq<Ball>)
    requires N > 0 && M > 0
    ensures |next| == |balls|
  {
    if T == 0 then balls else Step(Steps(balls, T - 1, N, M), N, M)
  }

  predicate OnGrid(b: Ball, N: nat, M: nat) {
    0 <= b.x < N && 0 <= b.y < M
  }

  predicate AllOnGrid(balls: seq<Ball>, N: nat, M: nat) {
    forall i :: 0 <= i < |balls| ==> OnGrid(balls[i], N, M)
  }

  /** How many balls are in cell (X, Y). */
  function Occupancy(balls: seq<Ball>, X: int, Y: int): nat {
    if |balls| == 0 then 0
    else
      var b := balls[|balls|-1];
      Occupancy(balls[..|balls|-1], X, Y) + if b.x == X && b.y == Y then 1 else 0
  }

  /** How many balls move to cell (X, Y). */
  function Landing(balls: seq<Ball>, X: int, Y: int, N: nat, M: nat): nat
    requires N > 0 && M > 0
  {
    if |balls| == 0 then 0
    else
      Landing(balls[..|balls|-1], X, Y, N, M) + if FindNextPos(balls[|balls|-1], N, M) == (X, Y) then 1 else 0
  }

  lemma Wrap(x: int, n: nat)
    requires 0 <= x < n
    ensures (x + 1) % n == if x + 1 == n then 0 else x + 1
    ensures (x - 1 + n) % n == if x == 0 then n - 1 else x - 1
  {
    if x > 0 { assert x - 1 + n == (x - 1) + 1 * n; WrapOnce(x - 1, n); }
  }

  lemma WrapOnce(x: nat, n: nat)
    requires x < n
    ensures (x + n) % n == x
  {
  }

  /** A ball moves to (X, Y) exactly when it is on the one neighbour its direction comes from. */
  lemma MovesFrom(b: Ball, X: int, Y: int, N: nat, M: nat)
    requires OnGrid(b, N, M) && 0 <= X < N && 0 <= Y < M
    ensures FindNextPos(b, N, M) == (X, Y) <==>
      b in {Ball((X - 1 + N) % N, Y, D), Ball((X + 1) % N, Y, U), Ball(X, (Y - 1 + M) % M, R), Ball(X, (Y + 1) % M, L)}
  {
    Wrap(b.x, N); Wrap(b.y, M); Wrap(X, N); Wrap(Y, M);
  }

  /** The lookup counts exactly the balls that land in the cell, even on a torus one cell wide. */
  lemma {:induction false} CollisionsCountLanding(balls: seq<Ball>, X: int, Y: int, N: nat, M: nat)
    requires AllOnGrid(balls, N, M) && 0 <= X < N && 0 <= Y < M
    ensures Collisions(multiset(balls), X, Y, N, M) == Landing(balls, X, Y, N, M)
  {
    if |balls| > 0 {
      var init, b := balls[..|balls|-1], balls[|balls|-1];
      CollisionsCountLanding(init, X, Y, N, M);
      assert balls == init + [b];
      MovesFrom(b, X, Y, N, M);
    }
  }

  lemma StepBallOnGrid(h: multiset<Ball>, b: Ball, N: nat, M: nat)
    requires OnGrid(b, N, M)
    ensures OnGrid(StepBall(h, b, N, M), N, M)
  {
    Wrap(b.x, N); Wrap(b.y, M);
  }

  lemma {:induction false} OccupancyIsLanding(h: multiset<Ball>, balls: seq<Ball>, X: int, Y: int, N: nat, M: nat)
    requires N > 0 && M > 0
    ensures Occupancy(StepWith(h, balls, N, M), X, Y) == Landing(balls, X, Y, N, M)
  {
    if |balls| > 0 {
      var init := balls[..|balls|-1];
      OccupancyIsLanding(h, init, X, Y, N, M);
      assert StepWith(h, balls, N, M)[..|init|] == StepWith(h, init, N, M);
    }
  }

  /** After a step, the number of balls in a cell is the collision count that each of them saw. */
  lemma OccupancyIsCollisions(balls: seq<Ball>, X: int, Y: int, N: nat, M: nat)
    requires AllOnGrid(balls, N, M) && 0 <= X < N && 0 <= Y < M
    ensures Occupancy(Step(balls, N, M), X, Y) == Collisions(multiset(balls), X, Y, N, M)
  {
    CollisionsCountLanding(balls, X, Y, N, M);
    OccupancyIsLanding(multiset(balls), balls, X, Y, N, M);
  }

  // ---------- What a step does, in its own words ----------

  /** The next coordinate in a direction along an axis of `n` cells that closes on itself. */
  predicate Follows(from: int, to: int, n: nat) {
    to == if from + 1 == n then 0 else from + 1
  }

  /** One cell to the right, to the left, up or down. */
  predicate MovedOn(b: Ball, a: Ball, N: nat, M: nat) {
    match b.d
    case R => a.x == b.x && Follows(b.y, a.y, M)
    case L => a.x == b.x && Follows(a.y, b.y, M)
    case D => a.y == b.y && Follows(b.x, a.x, N)
    case U => a.y == b.y && Follows(a.x, b.x, N)
  }

  /** Two balls that meet turn by a quarter, four turn back, and any other number pass through each other. */
  predicate TurnedBy(from: Dir, to: Dir, meeting: nat) {
    if meeting == 2 then (from, to) in {(L, U), (U, R), (R, D), (D, L)}
    else if meeting == 4 then (from, to) in {(L, R), (R, L), (U, D), (D, U)}
    else from == to
  }

  /** The law of a step: every ball moves on by one cell and turns by the number of balls it then shares it with. */
  ghost predicate Law(before: seq<Ball>, after: seq<Ball>, N: nat, M: nat) {
    && |after| == |before| && AllOnGrid(after, N, M)
    && forall i :: 0 <= i < |before| ==>
         && MovedOn(before[i], after[i], N, M)
         && TurnedBy(before[i].d, after[i].d, Occupancy(after, after[i].x, after[i].y))
  }

  lemma NextIsMovedOn(b: Ball, a: Ball, N: nat, M: nat)
    requires OnGrid(b, N, M) && OnGrid(a, N, M)
    ensures MovedOn(b, a, N, M) <==> FindNextPos(b, N, M) == (a.x, a.y)
  {
    Wrap(b.x, N); Wrap(b.y, M);
  }

  lemma TurnedIsTurnedBy(from: Dir, to: Dir, meeting: nat)
    ensures TurnedBy(from, to, meeting) <==> to == Turned(from, meeting)
  {
  }

  lemma {:induction false} SameCellsSameOccupancy(a: seq<Ball>, b: seq<Ball>, X: int, Y: int)
    requires |a| == |b| && forall i :: 0 <= i < |a| ==> a[i].x == b[i].x && a[i].y == b[i].y
    ensures Occupancy(a, X, Y) == Occupancy(b, X, Y)
  {
    if |a| > 0 { SameCellsSameOccupancy(a[..|a|-1], b[..|b|-1], X, Y); }
  }

  lemma StepObeysLaw(balls: seq<Ball>, N: nat, M: nat)
    requires N > 0 && M > 0 && AllOnGrid(balls, N, M)
    ensures Law(balls, Step(balls, N, M), N, M)
  {
    var after := Step(balls, N, M);
    StepKeepsGrid(balls, N, M);
    forall i | 0 <= i < |balls|
      ensures MovedOn(balls[i], after[i], N, M)
      ensures TurnedBy(balls[i].d, after[i].d, Occupancy(after, after[i].x, after[i].y))
    {
      hide FindNextPos, Collisions, Occupancy;
      NextIsMovedOn(balls[i], after[i], N, M);
      OccupancyIsCollisions(balls, after[i].x, after[i].y, N, M);
      TurnedIsTurnedBy(balls[i].d, after[i].d, Occupancy(after, after[i].x, after[i].y));
    }
  }

  /** The program's step is the one arrangement that the law allows. */
  lemma StepIsTheLaw(before: seq<Ball>, after: seq<Ball>, N: nat, M: nat)
    requires N > 0 && M > 0 && AllOnGrid(before, N, M)
    ensures after == Step(before, N, M) <==> Law(before, after, N, M)
  {
    var next := Step(before, N, M);
    StepObeysLaw(before, N, M);
    if Law(before, after, N, M) {
      forall i | 0 <= i < |before| ensures after[i].x == next[i].x && after[i].y == next[i].y {
        NextIsMovedOn(before[i], after[i], N, M);
        NextIsMovedOn(before[i], next[i], N, M);
      }
      forall i | 0 <= i < |before| ensures after[i] == next[i] {
        SameCellsSameOccupancy(after, next, after[i].x, after[i].y);
        TurnedIsTurnedBy(before[i].d, after[i].d, Occupancy(after, after[i].x, after[i].y));
        TurnedIsTurnedBy(before[i].d, next[i].d, Occupancy(after, after[i].x, after[i].y));
      }
    }
  }

  /** A ball that meets three others goes back to where it came from unless something meets it on the way. */
  lemma FourTurnBack(before: seq<Ball>, after: seq<Ball>, N: nat, M: nat, i: nat)
    requires AllOnGrid(before, N, M) && Law(before, after, N, M) && i < |before|
    requires Occupancy(after, after[i].x, after[i].y) == 4
    ensures forall b :: OnGrid(b, N, M) && MovedOn(after[i], b, N, M) ==> b.x == before[i].x && b.y == before[i].y
  {
  }

  /** A whole history of the balls, step by step. */
  ghost predicate History(run: seq<seq<Ball>>, N: nat, M: nat) {
    |run| > 0 && forall t :: 0 <= t < |run| - 1 ==> Law(run[t], run[t+1], N, M)
  }

  /** The arrangements of a run are the one history that begins with the given balls. */
  lemma {:induction false} RunIsTheHistory(run: seq<seq<Ball>>, N: nat, M: nat, t: nat)
    requires N > 0 && M > 0 && History(run, N, M) && AllOnGrid(run[0], N, M) && t < |run|
    ensures run[t] == Steps(run[0], t, N, M) && AllOnGrid(run[t], N, M)
  {
    hide Law, Step;
    if t > 0 {
      RunIsTheHistory(run, N, M, t - 1);
      assert Law(run[t-1], run[t-1+1], N, M);
      StepIsTheLaw(run[t-1], run[t], N, M);
      StepKeepsGrid(run[t-1], N, M);
    }
  }

  // ---------- Running backwards ----------

  function UnturnedBy90(d: Dir): Dir {
    if d == L then D else if d == R then U else if d == U then L else R
  }

  function Unturned(d: Dir, cnt: nat): Dir {
    if cnt == 2 then UnturnedBy90(d) else if cnt == 4 then ReverseDirection(d) else d
  }

  /** Where a ball that now heads `d` in cell (X, Y), having turned there, came from. */
  function Origin(X: int, Y: int, d: Dir, N: nat, M: nat): Ball
    requires N > 0 && M > 0
  {
    if d == R then Ball(X, (Y - 1 + M) % M, R)
    else if d == L then Ball(X, (Y + 1) % M, L)
    else if d == D then Ball((X - 1 + N) % N, Y, D)
    else Ball((X + 1) % N, Y, U)
  }

  /** The step undone, from the positions and directions after it alone. */
  function Unstep(balls: seq<Ball>, N: nat, M: nat): (prev: seq<Ball>)
    requires N > 0 && M > 0
    ensures |prev| == |balls|
  {
    seq(|balls|, i requires 0 <= i < |balls| =>
      var b := balls[i];
      Origin(b.x, b.y, Unturned(b.d, Occupancy(balls, b.x, b.y)), N, M))
  }

  function Unsteps(balls: seq<Ball>, T: nat, N: nat, M: nat): (prev: seq<Ball>)
    requires N > 0 && M > 0
    ensures |prev| == |balls|
    decreases T
  {
    if T == 0 then balls else Unsteps(Unstep(balls, N, M), T - 1, N, M)
  }

  lemma OriginOfNext(b: Ball, N: nat, M: nat)
    requires OnGrid(b, N, M)
    ensures var (X, Y) := FindNextPos(b, N, M); 0 <= X < N && 0 <= Y < M && Origin(X, Y, b.d, N, M) == b
  {
    Wrap(b.x, N); Wrap(b.y, M);
    var (X, Y) := FindNextPos(b, N, M);
    Wrap(X, N); Wrap(Y, M);
  }

  lemma NextOfOrigin(b: Ball, N: nat, M: nat)
    requires OnGrid(b, N, M)
    ensures var o := Origin(b.x, b.y, b.d, N, M); OnGrid(o, N, M) && o.d == b.d && FindNextPos(o, N, M) == (b.x, b.y)
  {
    Wrap(b.x, N); Wrap(b.y, M);
    var o := Origin(b.x, b.y, b.d, N, M);
    Wrap(o.x, N); Wrap(o.y, M);
  }

  lemma StepKeepsGrid(balls: seq<Ball>, N: nat, M: nat)
    requires N > 0 && M > 0 && AllOnGrid(balls, N, M)
    ensures AllOnGrid(Step(balls, N, M), N, M)
  {
    forall i | 0 <= i < |balls| ensures OnGrid(Step(balls, N, M)[i], N, M) {
      StepBallOnGrid(multiset(balls), balls[i], N, M);
    }
  }

  /** A step can be undone. */
  lemma UnstepAfterStep(balls: seq<Ball>, N: nat, M: nat)
    requires N > 0 && M > 0 && AllOnGrid(balls, N, M)
    ensures Unstep(Step(balls, N, M), N, M) == balls
  {
    var next := Step(balls, N, M);
    forall i | 0 <= i < |balls| ensures Unstep(next, N, M)[i] == balls[i] {
      var (X, Y) := FindNextPos(balls[i], N, M);
      OriginOfNext(balls[i], N, M);
      OccupancyIsCollisions(balls, X, Y, N, M);
    }
  }

  lemma {:induction false} LandingIsOccupancy(prev: seq<Ball>, balls: seq<Ball>, X: int, Y: int, N: nat, M: nat)
    requires N > 0 && M > 0 && |prev| == |balls|
    requires forall i :: 0 <= i < |balls| ==> FindNextPos(prev[i], N, M) == (balls[i].x, balls[i].y)
    ensures Landing(prev, X, Y, N, M) == Occupancy(balls, X, Y)
  {
    if |balls| > 0 { LandingIsOccupancy(prev[..|balls|-1], balls[..|balls|-1], X, Y, N, M); }
  }

  /** Every arrangement is the outcome of a step: undoing and redoing gives it back. */
  lemma StepAfterUnstep(balls: seq<Ball>, N: nat, M: nat)
    requires N > 0 && M > 0 && AllOnGrid(balls, N, M)
    ensures AllOnGrid(Unstep(balls, N, M), N, M)
    ensures Step(Unstep(balls, N, M), N, M) == balls
  {
    var prev := Unstep(balls, N, M);
    forall i | 0 <= i < |balls|
      ensures OnGrid(prev[i], N, M) && FindNextPos(prev[i], N, M) == (balls[i].x, balls[i].y)
      ensures prev[i].d == Unturned(balls[i].d, Occupancy(balls, balls[i].x, balls[i].y))
    {
      var b := balls[i];
      NextOfOrigin(Ball(b.x, b.y, Unturned(b.d, Occupancy(balls, b.x, b.y))), N, M);
    }
    forall i | 0 <= i < |balls| ensures Step(prev, N, M)[i] == balls[i] {
      var b := balls[i];
      CollisionsCountLanding(prev, b.x, b.y, N, M);
      LandingIsOccupancy(prev, balls, b.x, b.y, N, M);
    }
  }

  /** Any number of steps can be undone. */
  lemma {:induction false} StepsAreReversible(balls: seq<Ball>, T: nat, N: nat, M: nat)
    requires N > 0 && M > 0 && AllOnGrid(balls, N, M)
    ensures Unsteps(Steps(balls, T, N, M), T, N, M) == balls
    ensures AllOnGrid(Steps(balls, T, N, M), N, M)
  {
    if T > 0 {
      StepsAreReversible(balls, T - 1, N, M);
      StepKeepsGrid(Steps(balls, T - 1, N, M), N, M);
      UnstepAfterStep(Steps(balls, T - 1, N, M), N, M);
    }
  }

  /** Different arrangements stay different for ever. */
  lemma StepsAreInjective(a: seq<Ball>, b: seq<Ball>, T: nat, N: nat, M: nat)
    requires N > 0 && M > 0 && AllOnGrid(a, N, M) && AllOnGrid(b, N, M)
    requires Steps(a, T, N, M) == Steps(b, T, N, M)
    ensures a == b
  {
    StepsAreReversible(a, T, N, M);
    StepsAreReversible(b, T, N, M);
  }

  // ---------- Exclusion ----------

  /** No two balls in the same cell with the same direction: then never. */
  lemma {:induction false} ExclusionPersists(balls: seq<Ball>, T: nat, N: nat, M: nat)
    requires N > 0 && M > 0 && AllOnGrid(balls, N, M) && Distinct(balls)
    ensures Distinct(Steps(balls, T, N, M))
  {
    if T > 0 {
      ExclusionPersists(balls, T - 1, N, M);
      StepsAreReversible(balls, T - 1, N, M);
      var before, after := Steps(balls, T - 1, N, M), Steps(balls, T, N, M);
      UnstepAfterStep(before, N, M);
      forall i, j | 0 <= i < j < |after| ensures after[i] != after[j] {
        assert Unstep(after, N, M)[i] == before[i] && Unstep(after, N, M)[j] == before[j];
      }
    }
  }

  lemma {:induction false} OccupancyByDirection(balls: seq<Ball>, X: int, Y: int)
    ensures var h := multiset(balls);
            Occupancy(balls, X, Y) == h[Ball(X, Y, L)] + h[Ball(X, Y, R)] + h[Ball(X, Y, U)] + h[Ball(X, Y, D)]
  {
    if |balls| > 0 {
      var init, b := balls[..|balls|-1], balls[|balls|-1];
      OccupancyByDirection(init, X, Y);
      assert balls == init + [b];
      assert b == Ball(b.x, b.y, b.d);
      match b.d
      case L | R | U | D =>
    }
  }

  lemma {:induction false} DistinctCountsOnce(balls: seq<Ball>, b: Ball)
    requires Distinct(balls)
    ensures multiset(balls)[b] <= 1
  {
    if |balls| > 0 {
      var init, c := balls[..|balls|-1], balls[|balls|-1];
      DistinctCountsOnce(init, b);
      assert balls == init + [c];
      assert c !in init;
    }
  }

  /** Hence no cell ever holds more than four balls. */
  lemma AtMostFourPerCell(balls: seq<Ball>, T: nat, N: nat, M: nat, X: int, Y: int)
    requires N > 0 && M > 0 && AllOnGrid(balls, N, M) && Distinct(balls)
    ensures Occupancy(Steps(balls, T, N, M), X, Y) <= 4
  {
    var after := Steps(balls, T, N, M);
    ExclusionPersists(balls, T, N, M);
    OccupancyByDirection(after, X, Y);
    DistinctCountsOnce(after, Ball(X, Y, L));
    DistinctCountsOnce(after, Ball(X, Y, R));
    DistinctCountsOnce(after, Ball(X, Y, U));
    DistinctCountsOnce(after, Ball(X, Y, D));
  }
}
