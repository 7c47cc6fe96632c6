/** The grid walk of a mobile node in Mobility/MobileEntity.cc: one unit per call, one
    coordinate at a time, from waypoint to waypoint. Coordinates are reals. */
module Waypoints {
  import opened Reals

  datatype Position = Position(x: real, y: real)

  datatype Move = Move(dest: Position, xFirst: bool)

  datatype Walker = Walker(idx: nat, pos: Position)

  function Toward(a: real, b: real): real {
    if a < b then a + 1.0 else a - 1.0
  }

  /** One unit towards the destination. The second coordinate moves even when it is there
      already. */
  function StepTo(m: Move, p: Position): Position {
    if m.xFirst then
      if p.x != m.dest.x then Position(Toward(p.x, m.dest.x), p.y) else Position(p.x, Toward(p.y, m.dest.y))
    else
      if p.y != m.dest.y then Position(p.x, Toward(p.y, m.dest.y)) else Position(Toward(p.x, m.dest.x), p.y)
  }

  predicate InBounds(w: Walker, moves: seq<Move>) {
    moves != [] ==> w.idx < |moves|
  }

  predicate AtEnd(w: Walker, moves: seq<Move>)
    requires InBounds(w, moves)
  {
    moves == [] || (w.idx == |moves| - 1 && w.pos == moves[w.idx].dest)
  }

  function Moving(w: Walker, moves: seq<Move>): (r: (Walker, bool))
    requires InBounds(w, moves)
    ensures InBounds(r.0, moves)
  {
    if AtEnd(w, moves) then (w, false)
    else
      var idx := if w.pos == moves[w.idx].dest then w.idx + 1 else w.idx;
      (Walker(idx, StepTo(moves[idx], w.pos)), true)
  }

  /** The walker after `k` calls. */
  function Walk(w: Walker, moves: seq<Move>, k: nat): (r: Walker)
    requires InBounds(w, moves)
    ensures InBounds(r, moves)
  {
    if k == 0 then w else Moving(Walk(w, moves, k - 1), moves).0
  }

  // ----- How long the walk should take -----

  predicate IsWhole(r: real) {
    r == r.Floor as real
  }

  /** Both displacements are whole numbers. */
  predicate Aligned(a: Position, b: Position) {
    IsWhole(a.x - b.x) && IsWhole(a.y - b.y)
  }

  function Manhattan(a: Position, b: Position): nat {
    Abs(a.x - b.x).Floor + Abs(a.y - b.y).Floor
  }

  /** A waypoint that coincides with the one before costs a step away and one back. */
  function Leg(a: Position, b: Position): nat {
    if a == b then 2 else Manhattan(a, b)
  }

  /** The calls that remain after waypoint `i` was reached. */
  function LegsFrom(moves: seq<Move>, i: nat): nat
    requires i < |moves|
    decreases |moves| - i
  {
    if i == |moves| - 1 then 0 else Leg(moves[i].dest, moves[i + 1].dest) + LegsFrom(moves, i + 1)
  }

  function Remaining(w: Walker, moves: seq<Move>): nat
    requires InBounds(w, moves)
  {
    if moves == [] then 0 else Manhattan(w.pos, moves[w.idx].dest) + LegsFrom(moves, w.idx)
  }

  /** The call at which waypoint `i` is reached. */
  function Arrival(start: Position, moves: seq<Move>, i: nat): nat
    requires i < |moves|
  {
    if i == 0 then Manhattan(start, moves[0].dest)
    else Arrival(start, moves, i - 1) + Leg(moves[i - 1].dest, moves[i].dest)
  }

  /** Every displacement still to be walked is whole. */
  predicate AllAligned(w: Walker, moves: seq<Move>)
    requires InBounds(w, moves)
  {
    moves != [] ==> Aligned(w.pos, moves[w.idx].dest) && LegsAligned(moves, w.idx)
  }

  predicate LegsAligned(moves: seq<Move>, i: nat) {
    forall j :: i <= j < |moves| - 1 ==> LegAligned(moves, j)
  }

  predicate LegAligned(moves: seq<Move>, j: nat)
    requires j < |moves| - 1
  {
    Aligned(moves[j].dest, moves[j + 1].dest)
  }

  // ----- Aligned walks end, after exactly that many calls -----

  lemma TowardIsCloser(a: real, b: real)
    requires IsWhole(a - b) && a != b
    ensures IsWhole(Toward(a, b) - b)
    ensures Abs(Toward(a, b) - b).Floor == Abs(a - b).Floor - 1
  {
    var d := (a - b).Floor;
    var e := if d < 0 then d + 1 else d - 1;
    assert a - b == d as real;
    assert Toward(a, b) - b == e as real;
    WholeAbs(d);
    WholeAbs(e);
  }

  lemma WholeAbs(d: int)
    ensures IsWhole(d as real)
    ensures Abs(d as real).Floor == if d < 0 then -d else d
  {
  }

  lemma TowardLeaves(a: real)
    ensures IsWhole(Toward(a, a) - a) && Abs(Toward(a, a) - a).Floor == 1
  {
  }

  lemma StepIsCloser(m: Move, p: Position)
    requires Aligned(p, m.dest)
    ensures Aligned(StepTo(m, p), m.dest)
    ensures Manhattan(StepTo(m, p), m.dest) == if p == m.dest then 1 else Manhattan(p, m.dest) - 1
  {
    if p.x != m.dest.x { TowardIsCloser(p.x, m.dest.x); } else { TowardLeaves(p.x); }
    if p.y != m.dest.y { TowardIsCloser(p.y, m.dest.y); } else { TowardLeaves(p.y); }
  }

  lemma ApartWhenDifferent(a: Position, b: Position)
    requires Aligned(a, b)
    ensures Manhattan(a, b) == 0 <==> a == b
  {
  }

  /** One call: it moves exactly if calls remain, and then one less remains. */
  lemma MovingCountsDown(w: Walker, moves: seq<Move>)
    requires InBounds(w, moves) && AllAligned(w, moves)
    ensures var (v, moved) := Moving(w, moves);
            && AllAligned(v, moves)
            && (moved <==> 0 < Remaining(w, moves))
            && (moved ==> Remaining(v, moves) == Remaining(w, moves) - 1)
            && (!moved ==> v == w)
  {
    if moves != [] {
      var i := w.idx;
      ApartWhenDifferent(w.pos, moves[i].dest);
      if w.pos != moves[i].dest {
        StepIsCloser(moves[i], w.pos);
      } else if i < |moves| - 1 {
        assert LegAligned(moves, i);
        ApartWhenDifferent(moves[i].dest, moves[i + 1].dest);
        StepIsCloser(moves[i + 1], w.pos);
      }
    }
  }

  /** The number of calls that return true is exactly the length of the walk: every call
      before that moves, and none from then on. */
  lemma {:induction false} StepsAreExact(w: Walker, moves: seq<Move>, k: nat)
    requires InBounds(w, moves) && AllAligned(w, moves)
    ensures var v := Walk(w, moves, k);
            && AllAligned(v, moves)
            && Remaining(v, moves) == (if k <= Remaining(w, moves) then Remaining(w, moves) - k else 0)
            && (Moving(v, moves).1 <==> k < Remaining(w, moves))
  {
    if k > 0 {
      StepsAreExact(w, moves, k - 1);
      MovingCountsDown(Walk(w, moves, k - 1), moves);
    }
    MovingCountsDown(Walk(w, moves, k), moves);
  }

  lemma {:induction false} WalkTwice(w: Walker, moves: seq<Move>, j: nat, k: nat)
    requires InBounds(w, moves)
    ensures Walk(Walk(w, moves, j), moves, k) == Walk(w, moves, j + k)
  {
    if k > 0 {
      WalkTwice(w, moves, j, k - 1);
    }
  }

  /** Within a leg the index stays and the destination is reached on time. */
  lemma {:induction false} LegEnds(w: Walker, moves: seq<Move>, d: nat)
    requires moves != [] && InBounds(w, moves) && Aligned(w.pos, moves[w.idx].dest)
    requires d == Manhattan(w.pos, moves[w.idx].dest)
    ensures Walk(w, moves, d) == Walker(w.idx, moves[w.idx].dest)
    decreases d
  {
    var m := moves[w.idx];
    ApartWhenDifferent(w.pos, m.dest);
    if d > 0 {
      StepIsCloser(m, w.pos);
      LegEnds(Walker(w.idx, StepTo(m, w.pos)), moves, d - 1);
      assert Walk(w, moves, 0) == w;
      assert Walk(w, moves, 1) == Walker(w.idx, StepTo(m, w.pos));
      WalkTwice(w, moves, 1, d - 1);
    }
  }

  /** From one waypoint to the next, coinciding or not. */
  lemma NextWaypoint(moves: seq<Move>, i: nat)
    requires i + 1 < |moves| && Aligned(moves[i].dest, moves[i + 1].dest)
    ensures Walk(Walker(i, moves[i].dest), moves, Leg(moves[i].dest, moves[i + 1].dest))
            == Walker(i + 1, moves[i + 1].dest)
  {
    var w, m := Walker(i, moves[i].dest), moves[i + 1];
    var v := Walker(i + 1, StepTo(m, w.pos));
    assert Walk(w, moves, 0) == w;
    assert Walk(w, moves, 1) == v;
    ApartWhenDifferent(w.pos, m.dest);
    StepIsCloser(m, w.pos);
    var d := Manhattan(v.pos, m.dest);
    LegEnds(v, moves, d);
    WalkTwice(w, moves, 1, d);
  }

  /** Waypoints are reached one after the other, each exactly when it should be. */
  lemma {:induction false} WaypointsInOrder(start: Position, moves: seq<Move>, i: nat)
    requires i < |moves| && AllAligned(Walker(0, start), moves)
    ensures Walk(Walker(0, start), moves, Arrival(start, moves, i)) == Walker(i, moves[i].dest)
    ensures Arrival(start, moves, i) + LegsFrom(moves, i) == Remaining(Walker(0, start), moves)
  {
    var w := Walker(0, start);
    if i == 0 {
      LegEnds(w, moves, Manhattan(start, moves[0].dest));
    } else {
      WaypointsInOrder(start, moves, i - 1);
      assert LegAligned(moves, i - 1);
      NextWaypoint(moves, i - 1);
      WalkTwice(w, moves, Arrival(start, moves, i - 1), Leg(moves[i - 1].dest, moves[i].dest));
    }
  }

  // ----- Where the walker is in between -----

  /** `k` units from `a` in the direction of `b`. */
  function Units(a: real, b: real, k: nat): real {
    if a < b then a + k as real else a - k as real
  }

  lemma UnitsMove(a: real, b: real, k: nat)
    requires IsWhole(a - b) && k <= Abs(a - b).Floor
    ensures k < Abs(a - b).Floor ==> Units(a, b, k) != b && Toward(Units(a, b, k), b) == Units(a, b, k + 1)
    ensures k == Abs(a - b).Floor ==> Units(a, b, k) == b
  {
    var d := (a - b).Floor;
    assert a - b == d as real;
    WholeAbs(d);
  }

  /** `k` units along the way from `p`: all of one coordinate, then the other. */
  function Spot(m: Move, p: Position, k: nat): Position {
    var q, dx, dy := m.dest, Abs(p.x - m.dest.x).Floor, Abs(p.y - m.dest.y).Floor;
    if m.xFirst then
      if k <= dx then Position(Units(p.x, q.x, k), p.y) else Position(q.x, Units(p.y, q.y, k - dx))
    else
      if k <= dy then Position(p.x, Units(p.y, q.y, k)) else Position(Units(p.x, q.x, k - dy), q.y)
  }

  lemma StepAlong(m: Move, p: Position, k: nat)
    requires Aligned(p, m.dest) && k < Manhattan(p, m.dest)
    ensures Spot(m, p, k) != m.dest && StepTo(m, Spot(m, p, k)) == Spot(m, p, k + 1)
  {
    var dx, dy := Abs(p.x - m.dest.x).Floor, Abs(p.y - m.dest.y).Floor;
    if m.xFirst && k >= dx {
      UnitsMove(p.x, m.dest.x, dx);
      UnitsMove(p.y, m.dest.y, k - dx);
    } else if m.xFirst || k >= dy {
      UnitsMove(p.x, m.dest.x, if m.xFirst then k else k - dy);
      UnitsMove(p.y, m.dest.y, dy);
    } else {
      UnitsMove(p.y, m.dest.y, k);
    }
  }

  /** Within a leg the coordinate that `xFirst` names is walked to its end, unit by unit, before
      the other one moves. */
  lemma {:induction false} WithinLeg(w: Walker, moves: seq<Move>, k: nat)
    requires moves != [] && InBounds(w, moves) && Aligned(w.pos, moves[w.idx].dest)
    requires k <= Manhattan(w.pos, moves[w.idx].dest)
    ensures Walk(w, moves, k) == Walker(w.idx, Spot(moves[w.idx], w.pos, k))
  {
    if k > 0 {
      WithinLeg(w, moves, k - 1);
      StepAlong(moves[w.idx], w.pos, k - 1);
    }
  }

  /** From a waypoint to one that coincides with it the first step goes down, or to the left. */
  lemma StepAway(moves: seq<Move>, i: nat)
    requires i + 1 < |moves| && moves[i].dest == moves[i + 1].dest
    ensures var m := moves[i + 1];
            Walk(Walker(i, moves[i].dest), moves, 1) == Walker(i + 1,
              if m.xFirst then Position(m.dest.x, m.dest.y - 1.0) else Position(m.dest.x - 1.0, m.dest.y))
  {
    assert Walk(Walker(i, moves[i].dest), moves, 0) == Walker(i, moves[i].dest);
  }

  // ----- Other walks never end -----

  lemma WholeShift(r: real)
    ensures IsWhole(r) <==> IsWhole(r + 1.0)
    ensures IsWhole(r) <==> IsWhole(r - 1.0)
  {
  }

  lemma StepKeepsAlignment(m: Move, p: Position)
    ensures Aligned(StepTo(m, p), m.dest) <==> Aligned(p, m.dest)
  {
    WholeShift(p.x - m.dest.x);
    WholeShift(p.y - m.dest.y);
    assert Toward(p.x, m.dest.x) - m.dest.x == p.x - m.dest.x + 1.0
           || Toward(p.x, m.dest.x) - m.dest.x == p.x - m.dest.x - 1.0;
    assert Toward(p.y, m.dest.y) - m.dest.y == p.y - m.dest.y + 1.0
           || Toward(p.y, m.dest.y) - m.dest.y == p.y - m.dest.y - 1.0;
  }

  lemma MisalignedMovesOn(w: Walker, moves: seq<Move>)
    requires InBounds(w, moves) && !AllAligned(w, moves)
    ensures Moving(w, moves).1 && !AllAligned(Moving(w, moves).0, moves)
  {
    var i := w.idx;
    if w.pos == moves[i].dest {
      assert Aligned(w.pos, moves[i].dest);
      var j :| i <= j < |moves| - 1 && !LegAligned(moves, j);
      StepKeepsAlignment(moves[i + 1], w.pos);
      assert LegAligned(moves, i) <==> Aligned(w.pos, moves[i + 1].dest);
    } else {
      StepKeepsAlignment(moves[i], w.pos);
    }
  }

  lemma {:induction false} MisalignedNeverEnds(w: Walker, moves: seq<Move>, k: nat)
    requires InBounds(w, moves) && !AllAligned(w, moves)
    ensures !AllAligned(Walk(w, moves, k), moves) && Moving(Walk(w, moves, k), moves).1
  {
    if k > 0 {
      MisalignedNeverEnds(w, moves, k - 1);
      MisalignedMovesOn(Walk(w, moves, k - 1), moves);
    }
    MisalignedMovesOn(Walk(w, moves, k), moves);
  }

  /** The walk comes to an end exactly if every displacement is whole. */
  lemma EndsIffAligned(w: Walker, moves: seq<Move>)
    requires InBounds(w, moves)
    ensures (exists k: nat :: !Moving(Walk(w, moves, k), moves).1) <==> AllAligned(w, moves)
  {
    if AllAligned(w, moves) {
      var k := Remaining(w, moves);
      StepsAreExact(w, moves, k);
      assert !Moving(Walk(w, moves, k), moves).1;
    } else {
      forall k: nat ensures Moving(Walk(w, moves, k), moves).1 {
        MisalignedNeverEnds(w, moves, k);
      }
    }
  }

  // ----- The entity itself -----

  class MobileEntity {
    const moves: seq<Move>
    var currentMoveIdx: nat
    var pos: Position

    constructor (start: Position, moves: seq<Move>)
      ensures this.moves == moves && State() == Walker(0, start) && InBounds(State(), moves)
    {
      this.moves := moves;
      currentMoveIdx, pos := 0, start;
    }

    function State(): Walker
      reads this
    {
      Walker(currentMoveIdx, pos)
    }

    method MoveOne() returns (moved: bool)
      requires InBounds(State(), moves)
      modifies this
      ensures (State(), moved) == Moving(old(State()), moves)
    {
      if |moves| == 0 {
        return false;
      }
      if currentMoveIdx == |moves| - 1 && pos == moves[|moves| - 1].dest {
        return false;
      }
      if pos == moves[currentMoveIdx].dest {
        currentMoveIdx := currentMoveIdx + 1;
      }
      var x, y := pos.x, pos.y;
      var dest := moves[currentMoveIdx].dest;
      if moves[currentMoveIdx].xFirst {
        if x != dest.x {
          if x < dest.x { x := x + 1.0; } else { x := x - 1.0; }
        } else {
          if y < dest.y { y := y + 1.0; } else { y := y - 1.0; }
        }
      } else {
        if y != dest.y {
          if y < dest.y { y := y + 1.0; } else { y := y - 1.0; }
        } else {
          if x < dest.x { x := x + 1.0; } else { x := x - 1.0; }
        }
      }
      pos := Position(x, y);
      moved := true;
    }
  }
}
