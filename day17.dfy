/** Clumsy crucible (aoc23/day17.py): a best-first search for the cheapest
    route from the top-left to the bottom-right cell of a grid of heat-loss
    digits. A route is a list of moves, each `min_travel..max_travel` cells
    in one direction, and after every move the crucible must turn: it may
    neither go on in the same direction nor reverse. */
module Day17 {
  import opened Common

  // ---------------------------------------------------------------------
  // Positions, directions and moves
  // ---------------------------------------------------------------------

  datatype Pos = Pos(x: int, y: int)

  /** The four directions, in the order the enumeration lists them. */
  datatype Dir = N | S | E | W

  /** `Dir.value`: the unit step of a direction; y grows downwards. */
  function Delta(d: Dir): (int, int)
  {
    match d
    case N => (0, -1)
    case S => (0, 1)
    case E => (1, 0)
    case W => (-1, 0)
  }

  /** `Dir(value)`: the direction with a given unit step, if any (the
      enumeration raises ValueError otherwise). */
  function OfDelta(v: (int, int)): (r: Option<Dir>)
    ensures r.Some? ==> Delta(r.value) == v
  {
    if v == (0, -1) then Some(N)
    else if v == (0, 1) then Some(S)
    else if v == (1, 0) then Some(E)
    else if v == (-1, 0) then Some(W)
    else None
  }

  /** `Dir.reverse`: the direction of the negated unit step. */
  function Reverse(d: Dir): (r: Dir)
    ensures Delta(r) == (-Delta(d).0, -Delta(d).1)
  {
    var (x, y) := Delta(d);
    match OfDelta((-x, -y))
    case Some(r) => r
    case None => assert false; d
  }

  /** Reversing is an involution without fixed points. */
  lemma ReverseInvolution(d: Dir)
    ensures Reverse(Reverse(d)) == d && Reverse(d) != d
  {
    DeltaInjective(Reverse(Reverse(d)), d);
  }

  /** The reverse of each direction. */
  lemma ReverseTable()
    ensures Reverse(N) == S && Reverse(S) == N && Reverse(E) == W && Reverse(W) == E
  {
    DeltaInjective(Reverse(N), S);
    DeltaInjective(Reverse(S), N);
    DeltaInjective(Reverse(E), W);
    DeltaInjective(Reverse(W), E);
  }

  /** Directions are told apart by their unit steps. */
  lemma DeltaInjective(a: Dir, b: Dir)
    requires Delta(a) == Delta(b)
    ensures a == b
  {
  }

  datatype Move = Move(direction: Dir, count: int)

  /** `Pos.move_n`: `count` unit steps of the move's direction. */
  function MoveN(p: Pos, m: Move): (q: Pos)
  {
    Pos(p.x + m.count * Delta(m.direction).0, p.y + m.count * Delta(m.direction).1)
  }

  /** `Move.with_intermediates`: the moves of 1, 2, ... `count` steps in the
      same direction (none for a count below one). */
  function WithIntermediates(m: Move): (ms: seq<Move>)
    ensures |ms| == if m.count < 0 then 0 else m.count
    ensures forall k :: 0 <= k < |ms| ==> ms[k] == Move(m.direction, k + 1)
    decreases m.count
  {
    if m.count <= 0 then []
    else WithIntermediates(Move(m.direction, m.count - 1)) + [m]
  }

  /** The positions the intermediate moves reach are the unit steps of the
      move, one after another: the first is next to the start, each is next
      to the one before, and the last is where the move lands. */
  lemma IntermediatesWalk(p: Pos, m: Move)
    requires m.count >= 1
    ensures var ms := WithIntermediates(m);
            Adjacent(p, MoveN(p, ms[0])) && MoveN(p, ms[|ms| - 1]) == MoveN(p, m) &&
            forall k :: 0 < k < |ms| ==> MoveN(p, ms[k]) == Step(MoveN(p, ms[k - 1]), m.direction)
  {
  }

  /** One unit step. */
  function Step(p: Pos, d: Dir): Pos
  {
    Pos(p.x + Delta(d).0, p.y + Delta(d).1)
  }

  predicate Adjacent(p: Pos, q: Pos)
  {
    Abs(p.x - q.x) + Abs(p.y - q.y) == 1
  }

  // ---------------------------------------------------------------------
  // The plan
  // ---------------------------------------------------------------------

  /** `Plan`: the rows of heat-loss digits, the width of the first row, the
      number of rows and the bottom-right cell. */
  datatype Plan = Plan(rows: seq<seq<int>>, width: int, height: int, end: Pos)

  /** What the search relies on: at least one row, `width` and `end` as the
      constructor sets them, and every row at least as long as the first
      (a shorter row makes `__getitem__` raise). */
  predicate ValidPlan(plan: Plan)
  {
    |plan.rows| >= 1 && plan.height == |plan.rows| && plan.width == |plan.rows[0]| &&
    plan.end == Pos(plan.width - 1, plan.height - 1) &&
    forall y :: 0 <= y < |plan.rows| ==> |plan.rows[y]| >= plan.width
  }

  /** `Plan.in_bounds`. */
  predicate InBounds(plan: Plan, p: Pos)
  {
    0 <= p.x < plan.width && 0 <= p.y < plan.height
  }

  /** `Plan.__getitem__` on a cell inside the plan. */
  function Cell(plan: Plan, p: Pos): int
    requires ValidPlan(plan) && InBounds(plan, p)
  {
    plan.rows[p.y][p.x]
  }

  /** The digits of one stripped line; `int()` of anything else raises. */
  function ParseRow(line: string): (r: Option<seq<int>>)
    ensures r.Some? <==> AllDigits(line)
    ensures r.Some? ==> |r.value| == |line| &&
                        forall i :: 0 <= i < |line| ==> 0 <= r.value[i] <= 9 && r.value[i] == DigitValue(line[i])
  {
    if line == [] then Some([])
    else match ParseRow(line[..|line| - 1])
      case None => None
      case Some(ds) =>
        if IsDigit(line[|line| - 1]) then Some(ds + [DigitValue(line[|line| - 1])]) else None
  }

  /** Every stripped line's digits, or None if some line has a non-digit. */
  function ParseRows(lines: seq<string>): (r: Option<seq<seq<int>>>)
    ensures r.Some? <==> forall i :: 0 <= i < |lines| ==> AllDigits(Strip(lines[i]))
    ensures r.Some? ==> |r.value| == |lines| &&
                        forall i :: 0 <= i < |lines| ==> Some(r.value[i]) == ParseRow(Strip(lines[i]))
  {
    if lines == [] then Some([])
    else match (ParseRows(lines[..|lines| - 1]), ParseRow(Strip(lines[|lines| - 1])))
      case (Some(rs), Some(r)) => Some(rs + [r])
      case _ => None
  }

  /** `Plan.__init__`: None when a line holds a non-digit (ValueError) or
      when there are no lines (the first row is missing: IndexError). */
  function ParsePlan(lines: seq<string>): (r: Option<Plan>)
    ensures r.Some? <==> lines != [] && forall i :: 0 <= i < |lines| ==> AllDigits(Strip(lines[i]))
    ensures r.Some? ==> r.value.height == |lines| && r.value.width == |Strip(lines[0])| &&
                        r.value.end == Pos(r.value.width - 1, r.value.height - 1)
  {
    if lines == [] then None
    else match ParseRows(lines)
      case None => None
      case Some(rows) =>
        var w, h := |rows[0]|, |rows|;
        Some(Plan(rows, w, h, Pos(w - 1, h - 1)))
  }

  /** The parsed cells are the digits of the lines. */
  lemma ParsePlanCells(lines: seq<string>, p: Pos)
    requires ParsePlan(lines).Some? && ValidPlan(ParsePlan(lines).value)
    requires InBounds(ParsePlan(lines).value, p)
    ensures p.x < |Strip(lines[p.y])| && Cell(ParsePlan(lines).value, p) == DigitValue(Strip(lines[p.y])[p.x])
  {
  }

  // ---------------------------------------------------------------------
  // Routes
  // ---------------------------------------------------------------------

  /** `Route` (its plan is passed alongside): the moves so far, the position
      after each move, and the heat lost on each move. */
  datatype Route = Route(sequence: seq<Move>, posSequence: seq<Pos>, costsIncurred: seq<int>)

  /** `Route.blank`. */
  const Blank := Route([], [], [])

  const Origin := Pos(0, 0)

  /** Where a route stands: `Route.pos`, or the origin the search starts the
      blank route from. */
  function Here(route: Route): Pos
  {
    if route.posSequence == [] then Origin else route.posSequence[|route.posSequence| - 1]
  }

  /** `Route.realised_cost`. */
  function RealisedCost(route: Route): int
  {
    Sum(route.costsIncurred)
  }

  /** `Route.heuristic`: the remaining columns plus the remaining rows. */
  function Heuristic(plan: Plan, p: Pos): int
  {
    (plan.width - p.x - 1) + (plan.height - p.y - 1)
  }

  /** `Route.estimated_cost`, the priority of the frontier. */
  function Estimate(plan: Plan, route: Route): int
  {
    RealisedCost(route) + Heuristic(plan, Here(route))
  }

  /** Inside the plan the heuristic is the Manhattan distance to the end,
      and it vanishes exactly at the end. */
  lemma HeuristicManhattan(plan: Plan, p: Pos)
    requires ValidPlan(plan) && InBounds(plan, p)
    ensures Heuristic(plan, p) == Abs(plan.end.x - p.x) + Abs(plan.end.y - p.y)
    ensures Heuristic(plan, p) >= 0 && (Heuristic(plan, p) == 0 <==> p == plan.end)
  {
  }

  /** `Route.key`: the direction of the last move and the position. */
  function Key(route: Route): (Dir, Pos)
    requires route.sequence != []
  {
    (route.sequence[|route.sequence| - 1].direction, Here(route))
  }

  // ---------------------------------------------------------------------
  // Options
  // ---------------------------------------------------------------------

  /** A direction the route may take next: any for the blank route,
      otherwise neither the last direction nor its reverse. */
  predicate Allowed(route: Route, d: Dir)
  {
    route.sequence == [] ||
    (d != route.sequence[|route.sequence| - 1].direction &&
     d != Reverse(route.sequence[|route.sequence| - 1].direction))
  }

  /** `directions` in `options`: the allowed directions in enumeration order. */
  function Directions(route: Route): (ds: seq<Dir>)
    ensures forall d :: d in ds <==> Allowed(route, d)
  {
    AllDirs();
    FilterMembers([N, S, E, W], route);
    Filter([N, S, E, W], route)
  }

  /** The enumeration lists every direction. */
  lemma AllDirs()
    ensures forall d: Dir :: d in [N, S, E, W]
  {
    forall d: Dir ensures d in [N, S, E, W] {
      assert d.N? || d.S? || d.E? || d.W?;
    }
  }

  function Filter(ds: seq<Dir>, route: Route): seq<Dir>
  {
    if ds == [] then []
    else (if Allowed(route, ds[0]) then [ds[0]] else []) + Filter(ds[1..], route)
  }

  /** The comprehension keeps exactly the allowed directions. */
  lemma {:induction false} FilterMembers(ds: seq<Dir>, route: Route)
    ensures forall d :: d in Filter(ds, route) <==> d in ds && Allowed(route, d)
  {
    if ds != [] {
      FilterMembers(ds[1..], route);
    }
  }

  /** The blank route may go in all four directions; any other route in the
      two directions across its last one. */
  lemma DirectionsCount(route: Route)
    ensures route.sequence == [] ==> Directions(route) == [N, S, E, W]
    ensures route.sequence != [] ==> |Directions(route)| == 2
  {
    assert [N, S, E, W][1..] == [S, E, W] && [S, E, W][1..] == [E, W] && [E, W][1..] == [W];
    assert [W][1..] == [];
    ReverseTable();
    AllDirs();
    var f := Filter([N, S, E, W], route);
    assert Filter([W], route) == (if Allowed(route, W) then [W] else []) + Filter([], route);
    assert Filter([E, W], route) == (if Allowed(route, E) then [E] else []) + Filter([W], route);
    assert Filter([S, E, W], route) == (if Allowed(route, S) then [S] else []) + Filter([E, W], route);
    assert f == (if Allowed(route, N) then [N] else []) + (if Allowed(route, S) then [S] else [])
              + (if Allowed(route, E) then [E] else []) + (if Allowed(route, W) then [W] else []);
    if route.sequence != [] {
      var d := route.sequence[|route.sequence| - 1].direction;
      assert d.N? || d.S? || d.E? || d.W?;
    }
  }

  /** `moves` in `options`: for each direction in turn, the moves of
      `min_travel` up to `max_travel` steps. */
  function Moves(ds: seq<Dir>, minTravel: int, maxTravel: int): (ms: seq<Move>)
    ensures forall m :: m in ms <==> m.direction in ds && minTravel <= m.count <= maxTravel
  {
    if ds == [] then [] else Lengths(ds[0], minTravel, maxTravel) + Moves(ds[1..], minTravel, maxTravel)
  }

  /** `[Move(d, n) for n in range(min_travel, max_travel + 1)]`. */
  function Lengths(d: Dir, lo: int, hi: int): (ms: seq<Move>)
    ensures forall m :: m in ms <==> m.direction == d && lo <= m.count <= hi
    decreases hi - lo
  {
    if lo > hi then [] else [Move(d, lo)] + Lengths(d, lo + 1, hi)
  }

  /** A straight move whose start and landing cell are inside the plan
      passes only through cells inside the plan. */
  lemma StraightInBounds(plan: Plan, p: Pos, m: Move, k: int)
    requires InBounds(plan, p) && InBounds(plan, MoveN(p, m)) && 0 <= k <= m.count
    ensures InBounds(plan, MoveN(p, Move(m.direction, k)))
  {
  }

  /** The heat lost on the cells a sequence of moves from `p` reaches. */
  function CellsCost(plan: Plan, p: Pos, ms: seq<Move>): int
    requires ValidPlan(plan)
    requires forall k :: 0 <= k < |ms| ==> InBounds(plan, MoveN(p, ms[k]))
  {
    if ms == [] then 0 else CellsCost(plan, p, ms[..|ms| - 1]) + Cell(plan, MoveN(p, ms[|ms| - 1]))
  }

  /** The `cost` of a move in `options`: the sum over its intermediate
      moves, so every cell entered counts and the start cell does not. */
  function MoveCost(plan: Plan, p: Pos, m: Move): int
    requires ValidPlan(plan) && InBounds(plan, p) && InBounds(plan, MoveN(p, m))
  {
    var ms := WithIntermediates(m);
    assert forall k :: 0 <= k < |ms| ==> InBounds(plan, MoveN(p, ms[k])) by {
      forall k | 0 <= k < |ms| ensures InBounds(plan, MoveN(p, ms[k])) {
        StraightInBounds(plan, p, m, k + 1);
      }
    }
    CellsCost(plan, p, ms)
  }

  /** The route one move longer. */
  function Extend(plan: Plan, route: Route, p: Pos, m: Move): (r: Route)
    requires ValidPlan(plan) && InBounds(plan, p) && InBounds(plan, MoveN(p, m))
  {
    Route(route.sequence + [m], route.posSequence + [MoveN(p, m)], route.costsIncurred + [MoveCost(plan, p, m)])
  }

  /** `Route.options` from `p`: one new route per move whose landing cell is
      inside the plan, in the order of `moves`. */
  function Options(plan: Plan, route: Route, p: Pos, minTravel: int, maxTravel: int): seq<Route>
    requires ValidPlan(plan) && (InBounds(plan, p) || plan.width == 0)
  {
    Extensions(plan, route, p, Moves(Directions(route), minTravel, maxTravel))
  }

  function Extensions(plan: Plan, route: Route, p: Pos, ms: seq<Move>): (rs: seq<Route>)
    requires ValidPlan(plan) && (InBounds(plan, p) || plan.width == 0)
    ensures forall r :: r in rs ==> exists m :: m in ms && InBounds(plan, p) && InBounds(plan, MoveN(p, m)) && r == Extend(plan, route, p, m)
    ensures forall m :: m in ms && InBounds(plan, MoveN(p, m)) ==> Extend(plan, route, p, m) in rs
  {
    if ms == [] then []
    else
      (if InBounds(plan, MoveN(p, ms[0])) then [Extend(plan, route, p, ms[0])] else [])
      + Extensions(plan, route, p, ms[1..])
  }

  /** The routes `options` offers are exactly the route extended by one
      allowed move of `min_travel..max_travel` steps that lands inside the
      plan. */
  lemma OptionsExactly(plan: Plan, route: Route, p: Pos, minTravel: int, maxTravel: int, r: Route)
    requires ValidPlan(plan) && InBounds(plan, p)
    ensures r in Options(plan, route, p, minTravel, maxTravel) <==>
            |r.sequence| == |route.sequence| + 1 &&
            var m := r.sequence[|r.sequence| - 1];
            Allowed(route, m.direction) && minTravel <= m.count <= maxTravel &&
            InBounds(plan, MoveN(p, m)) && r == Extend(plan, route, p, m)
  {
    var ms := Moves(Directions(route), minTravel, maxTravel);
    if r in Options(plan, route, p, minTravel, maxTravel) {
      var m :| m in ms && InBounds(plan, MoveN(p, m)) && r == Extend(plan, route, p, m);
      assert r.sequence[|r.sequence| - 1] == m;
    }
  }

  /** No options come from moves that all land outside the plan. */
  lemma {:induction false} ExtensionsNone(plan: Plan, route: Route, p: Pos, ms: seq<Move>)
    requires ValidPlan(plan) && (InBounds(plan, p) || plan.width == 0)
    requires forall m :: m in ms ==> !InBounds(plan, MoveN(p, m))
    ensures Extensions(plan, route, p, ms) == []
  {
    if ms != [] {
      assert ms[0] in ms;
      ExtensionsNone(plan, route, p, ms[1..]);
    }
  }

  /** With no room for a move of `min_travel` steps in either dimension the
      blank route has no options: the search's first pop finds an empty
      heap. This covers the single-cell plan, whose answer is not 0. */
  lemma NoRoomNoOptions(plan: Plan, minTravel: int, maxTravel: int)
    requires ValidPlan(plan) && minTravel >= 1
    requires plan.width <= minTravel && plan.height <= minTravel
    ensures Options(plan, Blank, Origin, minTravel, maxTravel) == []
  {
    var ms := Moves(Directions(Blank), minTravel, maxTravel);
    forall m | m in ms ensures !InBounds(plan, MoveN(Origin, m)) {
      assert m.count >= minTravel;
    }
    ExtensionsNone(plan, Blank, Origin, ms);
  }

  // ---------------------------------------------------------------------
  // Legal routes
  // ---------------------------------------------------------------------

  /** The route without its last move. */
  function Drop(route: Route): Route
    requires route.sequence != [] && |route.posSequence| == |route.costsIncurred| == |route.sequence|
  {
    Route(route.sequence[..|route.sequence| - 1], route.posSequence[..|route.posSequence| - 1],
          route.costsIncurred[..|route.costsIncurred| - 1])
  }

  /** A route the search can build: each move is allowed after the one
      before, has `min_travel..max_travel` steps, starts where the previous
      one ended (the first at the origin), lands inside the plan, and its
      cost is the heat lost on the cells it enters. */
  predicate Walk(plan: Plan, route: Route, minTravel: int, maxTravel: int)
    requires ValidPlan(plan)
    decreases |route.sequence|
  {
    |route.posSequence| == |route.costsIncurred| == |route.sequence| &&
    InBounds(plan, Origin) &&
    (route.sequence != [] ==>
      var prev := Drop(route);
      var m := route.sequence[|route.sequence| - 1];
      Walk(plan, prev, minTravel, maxTravel) &&
      Allowed(prev, m.direction) && minTravel <= m.count <= maxTravel &&
      InBounds(plan, Here(prev)) && InBounds(plan, MoveN(Here(prev), m)) &&
      route == Extend(plan, prev, Here(prev), m))
  }

  /** Dropping the move just added gives the route back. */
  lemma DropExtend(plan: Plan, route: Route, p: Pos, m: Move)
    requires ValidPlan(plan) && InBounds(plan, p) && InBounds(plan, MoveN(p, m))
    requires |route.posSequence| == |route.costsIncurred| == |route.sequence|
    ensures Drop(Extend(plan, route, p, m)) == route
    ensures Here(Extend(plan, route, p, m)) == MoveN(p, m)
  {
    var r := Extend(plan, route, p, m);
    assert r.sequence[..|r.sequence| - 1] == route.sequence;
    assert r.posSequence[..|r.posSequence| - 1] == route.posSequence;
    assert r.costsIncurred[..|r.costsIncurred| - 1] == route.costsIncurred;
  }

  /** Every option of a legal route, taken from where it stands, is legal. */
  lemma OptionsWalk(plan: Plan, route: Route, minTravel: int, maxTravel: int, r: Route)
    requires ValidPlan(plan) && Walk(plan, route, minTravel, maxTravel)
    requires InBounds(plan, Here(route))
    requires r in Options(plan, route, Here(route), minTravel, maxTravel)
    ensures Walk(plan, r, minTravel, maxTravel) && r.sequence != [] && InBounds(plan, Here(r))
  {
    OptionsExactly(plan, route, Here(route), minTravel, maxTravel, r);
    var m := r.sequence[|r.sequence| - 1];
    DropExtend(plan, route, Here(route), m);
  }

  /** A legal route stands inside the plan. */
  lemma WalkInBounds(plan: Plan, route: Route, minTravel: int, maxTravel: int)
    requires ValidPlan(plan) && Walk(plan, route, minTravel, maxTravel)
    ensures InBounds(plan, Here(route))
  {
    if route.sequence != [] {
      var prev := Drop(route);
      var m := route.sequence[|route.sequence| - 1];
      DropExtend(plan, prev, Here(prev), m);
    }
  }

  // ---------------------------------------------------------------------
  // The heat lost along a route
  // ---------------------------------------------------------------------

  /** The cells a move enters, one per unit step, the start excluded. */
  function Entered(p: Pos, m: Move): (cs: seq<Pos>)
    ensures |cs| == |WithIntermediates(m)|
    ensures forall k :: 0 <= k < |cs| ==> cs[k] == MoveN(p, Move(m.direction, k + 1))
  {
    var ms := WithIntermediates(m);
    seq(|ms|, k requires 0 <= k < |ms| => MoveN(p, ms[k]))
  }

  predicate AllIn(plan: Plan, cs: seq<Pos>)
  {
    forall k :: 0 <= k < |cs| ==> InBounds(plan, cs[k])
  }

  /** The heat lost on a list of cells. */
  function CellSum(plan: Plan, cs: seq<Pos>): int
    requires ValidPlan(plan) && AllIn(plan, cs)
  {
    if cs == [] then 0 else CellSum(plan, cs[..|cs| - 1]) + Cell(plan, cs[|cs| - 1])
  }

  lemma {:induction false} CellSumAppend(plan: Plan, a: seq<Pos>, b: seq<Pos>)
    requires ValidPlan(plan) && AllIn(plan, a) && AllIn(plan, b)
    ensures AllIn(plan, a + b) && CellSum(plan, a + b) == CellSum(plan, a) + CellSum(plan, b)
    decreases |b|
  {
    assert AllIn(plan, a + b) by {
      forall k | 0 <= k < |a + b| ensures InBounds(plan, (a + b)[k]) {
        if k >= |a| {
          assert (a + b)[k] == b[k - |a|];
        }
      }
    }
    if b == [] {
      assert a + b == a;
    } else {
      assert (a + b)[..|a + b| - 1] == a + b[..|b| - 1];
      CellSumAppend(plan, a, b[..|b| - 1]);
    }
  }

  /** The cost of a sequence of moves from `p` is the heat lost on the cells
      they reach. */
  lemma {:induction false} CellsCostIsSum(plan: Plan, p: Pos, ms: seq<Move>)
    requires ValidPlan(plan)
    requires forall k :: 0 <= k < |ms| ==> InBounds(plan, MoveN(p, ms[k]))
    ensures var cs := seq(|ms|, k requires 0 <= k < |ms| => MoveN(p, ms[k]));
            AllIn(plan, cs) && CellsCost(plan, p, ms) == CellSum(plan, cs)
  {
    var cs := seq(|ms|, k requires 0 <= k < |ms| => MoveN(p, ms[k]));
    if ms != [] {
      var init := ms[..|ms| - 1];
      CellsCostIsSum(plan, p, init);
      var ci := seq(|init|, k requires 0 <= k < |init| => MoveN(p, init[k]));
      assert cs[..|cs| - 1] == ci;
    }
  }

  /** `cost` in `options` is the heat lost on the cells the move enters. */
  lemma MoveCostEntered(plan: Plan, p: Pos, m: Move)
    requires ValidPlan(plan) && InBounds(plan, p) && InBounds(plan, MoveN(p, m))
    ensures AllIn(plan, Entered(p, m)) && MoveCost(plan, p, m) == CellSum(plan, Entered(p, m))
  {
    var ms := WithIntermediates(m);
    forall k | 0 <= k < |ms| ensures InBounds(plan, MoveN(p, ms[k])) {
      StraightInBounds(plan, p, m, k + 1);
    }
    CellsCostIsSum(plan, p, ms);
  }

  /** The cells a legal route enters, move after move. */
  function StepsOf(plan: Plan, route: Route, minTravel: int, maxTravel: int): seq<Pos>
    requires ValidPlan(plan) && Walk(plan, route, minTravel, maxTravel)
    decreases |route.sequence|
  {
    if route.sequence == [] then []
    else
      var prev := Drop(route);
      StepsOf(plan, prev, minTravel, maxTravel) + Entered(Here(prev), route.sequence[|route.sequence| - 1])
  }

  /** Each cell is one unit step from the one before, the first from `p`. */
  predicate Chain(p: Pos, cs: seq<Pos>)
  {
    (cs != [] ==> Adjacent(p, cs[0])) &&
    forall k :: 0 < k < |cs| ==> Adjacent(cs[k - 1], cs[k])
  }

  lemma ChainAppend(p: Pos, a: seq<Pos>, b: seq<Pos>)
    requires Chain(p, a) && Chain(if a == [] then p else a[|a| - 1], b)
    ensures Chain(p, a + b)
  {
    var c := a + b;
    if a == [] {
      assert c == b;
    } else {
      assert c[0] == a[0];
      forall k | 0 < k < |c| ensures Adjacent(c[k - 1], c[k]) {
        if k < |a| {
          assert c[k] == a[k] && c[k - 1] == a[k - 1];
        } else if k == |a| {
          assert c[k] == b[0] && c[k - 1] == a[|a| - 1];
        } else {
          assert c[k] == b[k - |a|] && c[k - 1] == b[k - |a| - 1];
        }
      }
    }
  }

  /** A unit step lands next to where it starts. */
  lemma StepAdjacent(p: Pos, d: Dir)
    ensures Adjacent(p, Step(p, d))
  {
    assert d.N? || d.S? || d.E? || d.W?;
  }

  /** A move of at least one step enters a chain of cells ending where it lands. */
  lemma EnteredChain(p: Pos, m: Move)
    requires m.count >= 1
    ensures Chain(p, Entered(p, m)) && Entered(p, m) != [] && Entered(p, m)[|Entered(p, m)| - 1] == MoveN(p, m)
  {
    var ms, cs := WithIntermediates(m), Entered(p, m);
    IntermediatesWalk(p, m);
    assert cs[0] == MoveN(p, ms[0]);
    forall k | 0 < k < |cs| ensures Adjacent(cs[k - 1], cs[k]) {
      assert cs[k] == MoveN(p, ms[k]) && cs[k - 1] == MoveN(p, ms[k - 1]);
      StepAdjacent(cs[k - 1], m.direction);
    }
  }

  /** `realised_cost` is the heat lost on every cell the route enters, the
      start excluded; with moves of at least one step those cells are a
      chain of unit steps from the origin to where the route stands. */
  lemma {:induction false} WalkCost(plan: Plan, route: Route, minTravel: int, maxTravel: int)
    requires ValidPlan(plan) && Walk(plan, route, minTravel, maxTravel)
    ensures var cs := StepsOf(plan, route, minTravel, maxTravel);
            AllIn(plan, cs) && RealisedCost(route) == CellSum(plan, cs)
    ensures minTravel >= 1 ==>
            var cs := StepsOf(plan, route, minTravel, maxTravel);
            Chain(Origin, cs) && (if cs == [] then Origin else cs[|cs| - 1]) == Here(route)
    decreases |route.sequence|
  {
    if route.sequence != [] {
      var prev := Drop(route);
      var m := route.sequence[|route.sequence| - 1];
      var p := Here(prev);
      WalkCost(plan, prev, minTravel, maxTravel);
      MoveCostEntered(plan, p, m);
      var a, b := StepsOf(plan, prev, minTravel, maxTravel), Entered(p, m);
      CellSumAppend(plan, a, b);
      DropExtend(plan, prev, p, m);
      assert route.costsIncurred == prev.costsIncurred + [MoveCost(plan, p, m)];
      assert route.costsIncurred[..|route.costsIncurred| - 1] == prev.costsIncurred;
      if minTravel >= 1 {
        EnteredChain(p, m);
        ChainAppend(Origin, a, b);
        assert (a + b)[|a + b| - 1] == b[|b| - 1];
      }
    }
  }

  /** A chain of unit steps is at least as long as the Manhattan distance
      it covers. */
  lemma {:induction false} ChainLength(p: Pos, cs: seq<Pos>)
    requires Chain(p, cs)
    ensures var q := if cs == [] then p else cs[|cs| - 1];
            |cs| >= Abs(q.x - p.x) + Abs(q.y - p.y)
    decreases |cs|
  {
    if cs != [] {
      var init := cs[..|cs| - 1];
      assert Chain(p, init) by {
        forall k | 0 < k < |init| ensures Adjacent(init[k - 1], init[k]) {
          assert init[k] == cs[k] && init[k - 1] == cs[k - 1];
        }
      }
      ChainLength(p, init);
      var prev := if init == [] then p else init[|init| - 1];
      if |cs| == 1 {
        assert Adjacent(p, cs[0]);
      } else {
        assert prev == cs[|cs| - 2];
        assert Adjacent(cs[|cs| - 2], cs[|cs| - 1]);
      }
    }
  }

  /** Every cell loses at least one unit of heat. */
  predicate PositiveCells(plan: Plan)
    requires ValidPlan(plan)
  {
    forall x, y :: 0 <= x < plan.width && 0 <= y < plan.height ==> plan.rows[y][x] >= 1
  }

  lemma {:induction false} CellSumBound(plan: Plan, cs: seq<Pos>)
    requires ValidPlan(plan) && AllIn(plan, cs) && PositiveCells(plan)
    ensures CellSum(plan, cs) >= |cs|
    decreases |cs|
  {
    if cs != [] {
      CellSumBound(plan, cs[..|cs| - 1]);
      var c := cs[|cs| - 1];
      assert plan.rows[c.y][c.x] >= 1;
    }
  }

  /** The heuristic is admissible when every cell costs at least one: a
      legal route's estimate never falls below the heuristic at the
      origin, so a route that reaches the end has lost at least the
      Manhattan distance from corner to corner. */
  lemma WalkEstimate(plan: Plan, route: Route, minTravel: int, maxTravel: int)
    requires ValidPlan(plan) && Walk(plan, route, minTravel, maxTravel)
    requires minTravel >= 1 && PositiveCells(plan)
    ensures Estimate(plan, route) >= Heuristic(plan, Origin)
    ensures Here(route) == plan.end ==> RealisedCost(route) >= plan.width + plan.height - 2
  {
    WalkCost(plan, route, minTravel, maxTravel);
    WalkInBounds(plan, route, minTravel, maxTravel);
    var cs := StepsOf(plan, route, minTravel, maxTravel);
    CellSumBound(plan, cs);
    ChainLength(Origin, cs);
  }

  // ---------------------------------------------------------------------
  // The search
  // ---------------------------------------------------------------------

  /** `seen`: the best estimate enqueued so far for each key. */
  type Seen = map<(Dir, Pos), int>

  predicate Moved(rs: seq<Route>)
  {
    forall k :: 0 <= k < |rs| ==> rs[k].sequence != []
  }

  /** The inner loop of `a_star` over the options of a popped route: a
      route is pushed (and its estimate recorded) unless its key already
      holds an estimate no worse. Gives the routes pushed and the new `seen`. */
  function Relaxed(plan: Plan, opts: seq<Route>, seen: Seen): (Seen, seq<Route>)
    requires Moved(opts)
  {
    if opts == [] then (seen, [])
    else
      var (s, pushed) := Relaxed(plan, opts[..|opts| - 1], seen);
      var r := opts[|opts| - 1];
      if Key(r) in s && s[Key(r)] <= Estimate(plan, r) then (s, pushed)
      else (s[Key(r) := Estimate(plan, r)], pushed + [r])
  }

  /** A route is pushed only if its key is new or its estimate strictly
      improves on the one recorded before the loop; recorded estimates only
      ever fall; and afterwards every option's key holds an estimate no
      worse than the option's own. */
  lemma RelaxedSpec(plan: Plan, opts: seq<Route>, seen: Seen)
    requires Moved(opts)
    ensures var (s, pushed) := Relaxed(plan, opts, seen);
            (forall r :: r in pushed ==> r in opts && (Key(r) !in seen || Estimate(plan, r) < seen[Key(r)])) &&
            (forall k :: k in seen ==> k in s && s[k] <= seen[k]) &&
            (forall k :: 0 <= k < |opts| ==> Key(opts[k]) in s && s[Key(opts[k])] <= Estimate(plan, opts[k])) &&
            (forall k :: k in s ==> k in seen || exists r :: r in pushed && Key(r) == k)
  {
    RelaxedLowers(plan, opts, seen);
    RelaxedPushes(plan, opts, seen);
    RelaxedCovers(plan, opts, seen);
    RelaxedKeys(plan, opts, seen);
  }

  /** Recorded estimates only ever fall. */
  lemma {:induction false} RelaxedLowers(plan: Plan, opts: seq<Route>, seen: Seen)
    requires Moved(opts)
    ensures var s := Relaxed(plan, opts, seen).0;
            forall k :: k in seen ==> k in s && s[k] <= seen[k]
  {
    if opts != [] {
      var init := opts[..|opts| - 1];
      assert Moved(init);
      RelaxedLowers(plan, init, seen);
    }
  }

  /** A route is pushed only if it improves on the estimate recorded before. */
  lemma {:induction false} RelaxedPushes(plan: Plan, opts: seq<Route>, seen: Seen)
    requires Moved(opts)
    ensures var pushed := Relaxed(plan, opts, seen).1;
            forall r :: r in pushed ==> r in opts && (Key(r) !in seen || Estimate(plan, r) < seen[Key(r)])
  {
    if opts != [] {
      var init := opts[..|opts| - 1];
      assert Moved(init);
      RelaxedPushes(plan, init, seen);
      RelaxedLowers(plan, init, seen);
      var (s0, p0) := Relaxed(plan, init, seen);
      var r := opts[|opts| - 1];
      assert forall q :: q in init ==> q in opts;
      if !(Key(r) in s0 && s0[Key(r)] <= Estimate(plan, r)) {
        assert forall q :: q in p0 + [r] ==> q in p0 || q == r;
      }
    }
  }

  /** Afterwards every option's key holds an estimate no worse than its own. */
  lemma {:induction false} RelaxedCovers(plan: Plan, opts: seq<Route>, seen: Seen)
    requires Moved(opts)
    ensures var s := Relaxed(plan, opts, seen).0;
            forall k :: 0 <= k < |opts| ==> Key(opts[k]) in s && s[Key(opts[k])] <= Estimate(plan, opts[k])
  {
    if opts != [] {
      var init := opts[..|opts| - 1];
      assert Moved(init);
      RelaxedCovers(plan, init, seen);
      assert forall k :: 0 <= k < |init| ==> opts[k] == init[k];
    }
  }

  /** Every recorded key was recorded before or belongs to a pushed route. */
  lemma {:induction false} RelaxedKeys(plan: Plan, opts: seq<Route>, seen: Seen)
    requires Moved(opts)
    ensures var (s, pushed) := Relaxed(plan, opts, seen);
            (forall r :: r in pushed ==> r in opts) &&
            forall k :: k in s ==> k in seen || exists r :: r in pushed && Key(r) == k
  {
    RelaxedPushes(plan, opts, seen);
    if opts != [] {
      var init := opts[..|opts| - 1];
      assert Moved(init);
      RelaxedKeys(plan, init, seen);
      var (s0, p0) := Relaxed(plan, init, seen);
      var r := opts[|opts| - 1];
      if !(Key(r) in s0 && s0[Key(r)] <= Estimate(plan, r)) {
        var s1, p1 := s0[Key(r) := Estimate(plan, r)], p0 + [r];
        assert forall q :: q in p0 ==> q in p1;
        assert r in p1;
        assert forall k :: k in s1 ==> k in s0 || k == Key(r);
      }
    }
  }

  /** The loop over the options: push onto the frontier and record in
      `seen`, as `Relaxed` describes. */
  method Relax(plan: Plan, opts: seq<Route>, frontier: seq<Route>, seen: Seen)
    returns (frontier': seq<Route>, seen': Seen)
    requires Moved(opts)
    ensures |frontier'| >= |frontier| && frontier'[..|frontier|] == frontier
    ensures (seen', frontier'[|frontier|..]) == Relaxed(plan, opts, seen)
  {
    frontier', seen' := frontier, seen;
    var i := 0;
    assert frontier'[|frontier|..] == [] && opts[..0] == [];
    while i < |opts|
      invariant 0 <= i <= |opts| && Moved(opts[..i])
      invariant |frontier'| >= |frontier| && frontier'[..|frontier|] == frontier
      invariant (seen', frontier'[|frontier|..]) == Relaxed(plan, opts[..i], seen)
    {
      var r := opts[i];
      assert opts[..i + 1][..i] == opts[..i] && opts[..i + 1][i] == r;
      assert Moved(opts[..i + 1]);
      if Key(r) in seen' && seen'[Key(r)] <= Estimate(plan, r) {
      } else {
        seen' := seen'[Key(r) := Estimate(plan, r)];
        assert (frontier' + [r])[|frontier|..] == frontier'[|frontier|..] + [r];
        assert (frontier' + [r])[..|frontier|] == frontier'[..|frontier|];
        frontier' := frontier' + [r];
      }
      i := i + 1;
    }
    assert opts[..i] == opts;
  }

  /** `heapq.heappop`: takes a route of least estimate out of the frontier
      (the earliest such in this list; the heap's own tie order is not
      modelled). */
  method PopMin(plan: Plan, frontier: seq<Route>) returns (route: Route, rest: seq<Route>)
    requires frontier != []
    ensures route in frontier && multiset(rest) + multiset{route} == multiset(frontier)
    ensures forall q :: q in frontier ==> Estimate(plan, route) <= Estimate(plan, q)
  {
    var best := 0;
    var j := 1;
    while j < |frontier|
      invariant 0 <= best < |frontier| && 1 <= j <= |frontier|
      invariant forall k :: 0 <= k < j ==> Estimate(plan, frontier[best]) <= Estimate(plan, frontier[k])
    {
      if Estimate(plan, frontier[j]) < Estimate(plan, frontier[best]) {
        best := j;
      }
      j := j + 1;
    }
    route := frontier[best];
    rest := frontier[..best] + frontier[best + 1..];
    assert frontier == frontier[..best] + [route] + frontier[best + 1..];
  }

  /** A route the search may hold: legal, moved at least once, in bounds. */
  predicate Legal(plan: Plan, q: Route, minTravel: int, maxTravel: int)
    requires ValidPlan(plan)
  {
    Walk(plan, q, minTravel, maxTravel) && q.sequence != [] && InBounds(plan, Here(q))
  }

  predicate AllLegal(plan: Plan, rs: seq<Route>, minTravel: int, maxTravel: int)
    requires ValidPlan(plan)
  {
    forall q :: q in rs ==> Legal(plan, q, minTravel, maxTravel)
  }

  lemma OptionsLegal(plan: Plan, route: Route, minTravel: int, maxTravel: int)
    requires ValidPlan(plan) && Walk(plan, route, minTravel, maxTravel) && InBounds(plan, Here(route))
    ensures AllLegal(plan, Options(plan, route, Here(route), minTravel, maxTravel), minTravel, maxTravel)
    ensures Moved(Options(plan, route, Here(route), minTravel, maxTravel))
  {
    var opts := Options(plan, route, Here(route), minTravel, maxTravel);
    forall q | q in opts ensures Legal(plan, q, minTravel, maxTravel) {
      OptionsWalk(plan, route, minTravel, maxTravel, q);
    }
    forall k | 0 <= k < |opts| ensures opts[k].sequence != [] {
      assert opts[k] in opts;
    }
  }

  /** The first frontier is legal; on a plan with no columns it is empty. */
  lemma StartLegal(plan: Plan, minTravel: int, maxTravel: int)
    requires ValidPlan(plan)
    ensures AllLegal(plan, Options(plan, Blank, Origin, minTravel, maxTravel), minTravel, maxTravel)
  {
    if InBounds(plan, Origin) {
      assert Walk(plan, Blank, minTravel, maxTravel);
      OptionsLegal(plan, Blank, minTravel, maxTravel);
    }
  }

  /** Relaxing legal options onto a legal frontier keeps it legal. */
  lemma RelaxLegal(plan: Plan, opts: seq<Route>, rest: seq<Route>, seen: Seen, frontier: seq<Route>, minTravel: int, maxTravel: int)
    requires ValidPlan(plan) && Moved(opts)
    requires AllLegal(plan, opts, minTravel, maxTravel) && AllLegal(plan, rest, minTravel, maxTravel)
    requires |frontier| >= |rest| && frontier[..|rest|] == rest && frontier[|rest|..] == Relaxed(plan, opts, seen).1
    ensures AllLegal(plan, frontier, minTravel, maxTravel)
  {
    RelaxedSpec(plan, opts, seen);
    assert frontier == rest + Relaxed(plan, opts, seen).1;
  }

  /** The route popped at the end: nothing left on the frontier is estimated
      below its cost. */
  lemma PoppedBound(plan: Plan, route: Route, rest: seq<Route>, frontier: seq<Route>)
    requires ValidPlan(plan) && InBounds(plan, Here(route)) && Here(route) == plan.end
    requires multiset(rest) + multiset{route} == multiset(frontier)
    requires forall q :: q in frontier ==> Estimate(plan, route) <= Estimate(plan, q)
    ensures forall q :: q in rest ==> RealisedCost(route) <= Estimate(plan, q)
  {
    HeuristicManhattan(plan, Here(route));
    forall q | q in rest ensures RealisedCost(route) <= Estimate(plan, q) {
      assert q in multiset(rest) + multiset{route};
    }
  }

  lemma PoppedLegal(plan: Plan, route: Route, rest: seq<Route>, frontier: seq<Route>, minTravel: int, maxTravel: int)
    requires ValidPlan(plan) && AllLegal(plan, frontier, minTravel, maxTravel)
    requires route in frontier && multiset(rest) + multiset{route} == multiset(frontier)
    ensures AllLegal(plan, rest, minTravel, maxTravel) && Legal(plan, route, minTravel, maxTravel)
  {
    forall q | q in rest ensures Legal(plan, q, minTravel, maxTravel) {
      assert q in multiset(rest) + multiset{route};
    }
  }

  datatype Outcome = Found(route: Route) | Exhausted | OutOfFuel

  /** `Plan.a_star`: seed the frontier with the blank route's options from
      the origin, then pop routes of least estimate; return the first one
      that stands at the end, otherwise relax its options. An empty heap
      raises (Exhausted); the unbounded loop is cut off after `fuel` pops.
      The result is a legal route to the end, popped with an estimate no
      worse than any route still waiting (`left`). */
  method AStar(plan: Plan, minTravel: int, maxTravel: int, fuel: nat) returns (r: Outcome, ghost left: seq<Route>)
    requires ValidPlan(plan)
    ensures r.Found? ==> Walk(plan, r.route, minTravel, maxTravel) && r.route.sequence != [] && Here(r.route) == plan.end
    ensures r.Found? ==> forall q :: q in left ==> RealisedCost(r.route) <= Estimate(plan, q)
    ensures fuel > 0 && Options(plan, Blank, Origin, minTravel, maxTravel) == [] ==> r == Exhausted
  {
    var frontier := Options(plan, Blank, Origin, minTravel, maxTravel);
    ghost var start := frontier;
    StartLegal(plan, minTravel, maxTravel);
    var seen: Seen := map[];
    var n := fuel;
    left := [];
    while n > 0
      invariant AllLegal(plan, frontier, minTravel, maxTravel)
      invariant n <= fuel && (n == fuel ==> frontier == start) && (n < fuel ==> start != [])
      decreases n
    {
      if frontier == [] {
        return Exhausted, left;
      }
      var route, rest := PopMin(plan, frontier);
      PoppedLegal(plan, route, rest, frontier, minTravel, maxTravel);
      if Here(route) == plan.end {
        PoppedBound(plan, route, rest, frontier);
        return Found(route), rest;
      }
      var opts := Options(plan, route, Here(route), minTravel, maxTravel);
      OptionsLegal(plan, route, minTravel, maxTravel);
      var frontier', seen' := Relax(plan, opts, rest, seen);
      RelaxLegal(plan, opts, rest, seen, frontier', minTravel, maxTravel);
      frontier, seen := frontier', seen';
      n := n - 1;
    }
    return OutOfFuel, left;
  }

  // ---------------------------------------------------------------------
  // The puzzle
  // ---------------------------------------------------------------------

  /** No row is narrower than the first (the plan takes its width from it). */
  predicate Rectangular(lines: seq<string>)
  {
    forall i :: 0 <= i < |lines| ==> |Strip(lines[i])| >= |Strip(lines[0])|
  }

  lemma ParsedValid(lines: seq<string>)
    requires ParsePlan(lines).Some? && Rectangular(lines)
    ensures ValidPlan(ParsePlan(lines).value)
  {
    var rows := ParseRows(lines).value;
    forall y | 0 <= y < |rows| ensures |rows[y]| >= |rows[0]| {
      assert Some(rows[y]) == ParseRow(Strip(lines[y]));
      assert Some(rows[0]) == ParseRow(Strip(lines[0]));
    }
  }

  datatype Answer = Cost(value: int) | Fails | NoAnswer

  /** Some legal route reaches the end of the parsed plan losing `cost`. */
  ghost predicate Reached(parsed: Option<Plan>, minTravel: int, maxTravel: int, cost: int)
  {
    parsed.Some? && ValidPlan(parsed.value) &&
    exists route :: Walk(parsed.value, route, minTravel, maxTravel) &&
                    Here(route) == parsed.value.end && RealisedCost(route) == cost
  }

  /** `Plan(lines).a_star(min_travel, max_travel).realised_cost`: a
      non-digit character fails to parse, an exhausted frontier fails at
      `heappop`, and a search cut off by `fuel` gives no answer. An answer is
      the heat lost on a legal route from the top-left to the bottom-right
      corner; with every block losing some heat it is at least the Manhattan
      distance between them. */
  method HeatLoss(lines: seq<string>, minTravel: int, maxTravel: int, fuel: nat) returns (a: Answer)
    requires Rectangular(lines)
    ensures ParsePlan(lines).None? ==> a == Fails
    ensures a.Cost? ==> Reached(ParsePlan(lines), minTravel, maxTravel, a.value)
    ensures a.Cost? && minTravel >= 1 && PositiveCells(ParsePlan(lines).value) ==>
            a.value >= ParsePlan(lines).value.width + ParsePlan(lines).value.height - 2
  {
    var parsed := ParsePlan(lines);
    if parsed.None? {
      return Fails;
    }
    var plan := parsed.value;
    ParsedValid(lines);
    var r, left := AStar(plan, minTravel, maxTravel, fuel);
    match r
    case Found(route) =>
      if minTravel >= 1 && PositiveCells(plan) {
        WalkEstimate(plan, route, minTravel, maxTravel);
      }
      a := Cost(RealisedCost(route));
    case Exhausted => a := Fails;
    case OutOfFuel => a := NoAnswer;
  }

  /** `day17a`: moves of one to three blocks. */
  method Day17A(lines: seq<string>, fuel: nat) returns (a: Answer)
    requires Rectangular(lines)
    ensures ParsePlan(lines).None? ==> a == Fails
    ensures a.Cost? ==> Reached(ParsePlan(lines), 1, 3, a.value)
  {
    a := HeatLoss(lines, 1, 3, fuel);
  }

  /** `day17b`: moves of four to ten blocks. */
  method Day17B(lines: seq<string>, fuel: nat) returns (a: Answer)
    requires Rectangular(lines)
    ensures ParsePlan(lines).None? ==> a == Fails
    ensures a.Cost? ==> Reached(ParsePlan(lines), 4, 10, a.value)
  {
    a := HeatLoss(lines, 4, 10, fuel);
  }
}
