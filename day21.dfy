/** Garden steps (aoc23/day21.py): from the start, each step moves to an
    open neighbouring plot; `step(n)` is the set of plots reachable in
    exactly n steps and `step_outward` counts them by growing frontiers. */
module Day21 {
  import opened Common

  datatype Pos = Pos(x: int, y: int)

  datatype Dir = N | S | E | W

  const Dirs: set<Dir> := {N, S, E, W}

  /** `Pos.move`. */
  function Move(p: Pos, d: Dir): Pos
  {
    match d
    case N => Pos(p.x, p.y - 1)
    case S => Pos(p.x, p.y + 1)
    case E => Pos(p.x + 1, p.y)
    case W => Pos(p.x - 1, p.y)
  }

  function Opposite(d: Dir): Dir
  {
    match d
    case N => S
    case S => N
    case E => W
    case W => E
  }

  /** Moving one way and then back returns to the start. */
  lemma MoveBack(p: Pos, d: Dir)
    ensures Move(Move(p, d), Opposite(d)) == p && Opposite(d) in Dirs
  {
  }

  /** The rows of a plan, its size and whether it repeats without end. */
  datatype Garden = Garden(rows: seq<seq<char>>, width: nat, height: nat, bounded: bool)

  /** Every row is as wide as the first, so every in-bounds read exists. */
  predicate Valid(g: Garden)
  {
    g.height == |g.rows| && g.height > 0 && g.width == |g.rows[0]| && g.width > 0
    && forall y :: 0 <= y < |g.rows| ==> |g.rows[y]| == g.width
  }

  /** `Plan.in_bounds`. */
  predicate InBounds(g: Garden, p: Pos)
  {
    !g.bounded || (0 <= p.x < g.width && 0 <= p.y < g.height)
  }

  /** `Plan.__getitem__`: a bounded plan reads the cell itself, an unbounded
      one the cell of the tile it falls on. */
  function At(g: Garden, p: Pos): char
    requires Valid(g) && InBounds(g, p)
  {
    if g.bounded then g.rows[p.y][p.x] else g.rows[p.y % g.height][p.x % g.width]
  }

  /** An unbounded plan is in bounds everywhere and repeats itself one
      width across and one height down. */
  lemma UnboundedRepeats(g: Garden, p: Pos)
    requires Valid(g) && !g.bounded
    ensures InBounds(g, p) && InBounds(g, Pos(p.x + g.width, p.y)) && InBounds(g, Pos(p.x, p.y + g.height))
    ensures At(g, Pos(p.x + g.width, p.y)) == At(g, p) && At(g, Pos(p.x, p.y + g.height)) == At(g, p)
  {
    var qx, qy := p.x / g.width, p.y / g.height;
    assert p.x == g.width * qx + p.x % g.width && p.y == g.height * qy + p.y % g.height;
    ModUnique(p.x + g.width, g.width, qx + 1, p.x % g.width);
    ModUnique(p.y + g.height, g.height, qy + 1, p.y % g.height);
  }

  /** An in-bounds garden plot. */
  predicate Open(g: Garden, p: Pos)
    requires Valid(g)
  {
    InBounds(g, p) && At(g, p) == '.'
  }

  /** Which positions are garden plots (an unbounded plan has infinitely
      many). */
  function Plots(g: Garden): Pos -> bool
    requires Valid(g)
  {
    p => Open(g, p)
  }

  // ---------------------------------------------------------------------
  // Reachability over any set of plots

  /** The neighbouring plots of p. */
  function Neighbours(plots: Pos -> bool, p: Pos): set<Pos>
  {
    set d | d in Dirs && plots(Move(p, d)) :: Move(p, d)
  }

  lemma NeighboursExactly(plots: Pos -> bool, p: Pos, q: Pos)
    ensures q in Neighbours(plots, p) <==> plots(q) && exists d :: d in Dirs && q == Move(p, d)
  {
  }

  /** Every plot next to one in `a`: the union of their neighbours. */
  function Expand(plots: Pos -> bool, a: set<Pos>): set<Pos>
  {
    set f, d | f in a && d in Dirs && plots(Move(f, d)) :: Move(f, d)
  }

  lemma ExpandExactly(plots: Pos -> bool, a: set<Pos>, q: Pos)
    ensures q in Expand(plots, a) <==> exists f :: f in a && q in Neighbours(plots, f)
  {
    if q in Expand(plots, a) {
      var f, d :| f in a && d in Dirs && plots(Move(f, d)) && q == Move(f, d);
      assert q in Neighbours(plots, f);
    }
  }

  /** Plots reachable in exactly n steps. */
  function Reach(plots: Pos -> bool, s: Pos, n: nat): set<Pos>
  {
    if n == 0 then {s} else Expand(plots, Reach(plots, s, n - 1))
  }

  /** A walk: each plot is a neighbour of the one before. */
  predicate IsWalk(plots: Pos -> bool, w: seq<Pos>)
  {
    forall i :: 0 <= i < |w| - 1 ==> w[i + 1] in Neighbours(plots, w[i])
  }

  /** A plot is reachable in exactly n steps iff some walk of n steps from
      the start ends on it: the walk that reaches it ... */
  lemma {:induction false} ReachWalk(plots: Pos -> bool, s: Pos, n: nat, p: Pos) returns (w: seq<Pos>)
    requires p in Reach(plots, s, n)
    ensures |w| == n + 1 && w[0] == s && w[n] == p && IsWalk(plots, w)
  {
    if n == 0 {
      w := [s];
    } else {
      var f := Previous(plots, s, n, p);
      var v := ReachWalk(plots, s, n - 1, f);
      w := WalkOn(plots, v, p);
    }
  }

  /** A plot reachable in n > 0 steps is next to one reachable in n - 1. */
  lemma Previous(plots: Pos -> bool, s: Pos, n: nat, p: Pos) returns (f: Pos)
    requires n > 0 && p in Reach(plots, s, n)
    ensures f in Reach(plots, s, n - 1) && p in Neighbours(plots, f)
  {
    ExpandExactly(plots, Reach(plots, s, n - 1), p);
    f :| f in Reach(plots, s, n - 1) && p in Neighbours(plots, f);
  }

  /** A walk extended by a neighbour of its last plot. */
  lemma WalkOn(plots: Pos -> bool, v: seq<Pos>, p: Pos) returns (w: seq<Pos>)
    requires |v| >= 1 && IsWalk(plots, v) && p in Neighbours(plots, v[|v| - 1])
    ensures w == v + [p] && |w| == |v| + 1 && w[0] == v[0] && w[|v|] == p && IsWalk(plots, w)
  {
    w := v + [p];
    assert forall i :: 0 <= i < |v| ==> w[i] == v[i];
  }

  /** ... and every walk of n steps from the start ends on a reachable plot. */
  lemma {:induction false} WalkReaches(plots: Pos -> bool, s: Pos, w: seq<Pos>)
    requires |w| >= 1 && w[0] == s && IsWalk(plots, w)
    ensures w[|w| - 1] in Reach(plots, s, |w| - 1)
  {
    if |w| > 1 {
      var v := w[..|w| - 1];
      assert forall i :: 0 <= i < |v| ==> v[i] == w[i];
      WalkReaches(plots, s, v);
      assert w[|w| - 1] in Neighbours(plots, v[|v| - 1]);
      ExpandExactly(plots, Reach(plots, s, |w| - 2), w[|w| - 1]);
    }
  }

  /** Once nothing is reachable, nothing stays reachable. */
  lemma {:induction false} ReachEmpty(plots: Pos -> bool, s: Pos, k: nat, n: nat)
    requires k <= n && Reach(plots, s, k) == {}
    ensures Reach(plots, s, n) == {}
    decreases n - k
  {
    if k < n {
      assert Reach(plots, s, k + 1) == Expand(plots, {});
      ReachEmpty(plots, s, k + 1, n);
    }
  }

  /** Adjacency between plots is symmetric. */
  lemma NeighbourBack(plots: Pos -> bool, f: Pos, q: Pos)
    requires plots(f) && q in Neighbours(plots, f)
    ensures f in Neighbours(plots, q)
  {
    var d :| d in Dirs && q == Move(f, d) && plots(q);
    MoveBack(f, d);
  }

  /** The start is a plot with at least one neighbouring plot. */
  predicate Lively(plots: Pos -> bool, s: Pos)
  {
    plots(s) && exists d :: d in Dirs && plots(Move(s, d))
  }

  /** Every plot reached from a start that is a plot is a plot. */
  lemma ReachPlot(plots: Pos -> bool, s: Pos, n: nat, p: Pos)
    requires plots(s) && p in Reach(plots, s, n)
    ensures plots(p)
  {
    if n > 0 {
      ExpandExactly(plots, Reach(plots, s, n - 1), p);
    }
  }

  /** One step to a neighbour that was reachable one step earlier. */
  lemma StepTo(plots: Pos -> bool, s: Pos, n: nat, f: Pos, q: Pos)
    requires f in Reach(plots, s, n) && q in Neighbours(plots, f)
    ensures q in Reach(plots, s, n + 1)
  {
    ExpandExactly(plots, Reach(plots, s, n), q);
  }

  /** Stepping there and back: what is reachable in n steps is reachable in
      n + 2, provided the start has somewhere to go. */
  lemma ReachGrows(plots: Pos -> bool, s: Pos, n: nat)
    requires Lively(plots, s)
    ensures Reach(plots, s, n) <= Reach(plots, s, n + 2)
  {
    forall p | p in Reach(plots, s, n)
      ensures p in Reach(plots, s, n + 2)
    {
      var f := Partner(plots, s, n, p);
      ReachPlot(plots, s, n, p);
      NeighbourBack(plots, p, f);
      StepTo(plots, s, n + 1, f, p);
    }
  }

  /** A neighbour of a reachable plot that is reachable one step later. */
  lemma Partner(plots: Pos -> bool, s: Pos, n: nat, p: Pos) returns (f: Pos)
    requires Lively(plots, s) && p in Reach(plots, s, n)
    ensures f in Reach(plots, s, n + 1) && f in Neighbours(plots, p)
  {
    if n == 0 {
      var d :| d in Dirs && plots(Move(s, d));
      f := Move(s, d);
      StepTo(plots, s, 0, s, f);
    } else {
      f := Previous(plots, s, n, p);
      ReachPlot(plots, s, n - 1, f);
      NeighbourBack(plots, f, p);
      StepTo(plots, s, n, p, f);
    }
  }

  // ---------------------------------------------------------------------
  // The plan object

  /** `accessible_neighbours`: the in-bounds '.' cells among the four
      neighbours of p, which are its neighbours among the plan's plots. */
  function AccessibleNeighbours(g: Garden, p: Pos): (r: set<Pos>)
    requires Valid(g)
    ensures r == Neighbours(Plots(g), p)
    ensures forall q :: q in r <==> (exists d :: d in Dirs && q == Move(p, d)) && InBounds(g, q) && At(g, q) == '.'
  {
    set d | d in Dirs && InBounds(g, Move(p, d)) && At(g, Move(p, d)) == '.' :: Move(p, d)
  }

  /** Whether (x, y) holds an 'S'. */
  predicate IsStart(rows: seq<seq<char>>, p: Pos)
  {
    0 <= p.y < |rows| && 0 <= p.x < |rows[p.y]| && rows[p.y][p.x] == 'S'
  }

  /** Whether p comes before column x of row y in reading order. */
  predicate Earlier(p: Pos, y: int, x: int)
  {
    p.y < y || (p.y == y && p.x < x)
  }

  /** The last 'S' in reading order before column x of row y. */
  function LastStart(rows: seq<seq<char>>, y: nat, x: nat): (r: Option<Pos>)
    requires y < |rows| && x <= |rows[y]|
    ensures r.Some? ==> IsStart(rows, r.value) && Earlier(r.value, y, x)
    ensures forall q :: IsStart(rows, q) && Earlier(q, y, x) ==> r.Some? && !Earlier(r.value, q.y, q.x)
    decreases y, x
  {
    if x > 0 then
      if rows[y][x - 1] == 'S' then Some(Pos(x - 1, y)) else LastStart(rows, y, x - 1)
    else if y == 0 then None
    else LastStart(rows, y - 1, |rows[y - 1]|)
  }

  /** Where the lines put the start: the last 'S' in reading order, if any. */
  function StartOf(lines: seq<string>): (r: Option<Pos>)
    ensures r.Some? ==> IsStart(StripAll(lines), r.value)
    ensures forall q :: IsStart(StripAll(lines), q) ==> r.Some? && !Earlier(r.value, q.y, q.x)
  {
    var rows := StripAll(lines);
    if rows == [] then None else LastStart(rows, |rows| - 1, |rows[|rows| - 1]|)
  }

  /** The garden the lines describe. */
  function Described(lines: seq<string>, bounded: bool): Garden
    requires lines != []
  {
    var rows := StripAll(lines);
    Garden(rows, |rows[0]|, |rows|, bounded)
  }

  /** The scan of `Plan.__init__` for the start: every 'S' met in reading
      order replaces the one before. */
  method ScanStart(grid: seq<seq<char>>) returns (found: Option<Pos>)
    requires grid != []
    ensures found == LastStart(grid, |grid| - 1, |grid[|grid| - 1]|)
  {
    found := None;
    for y := 0 to |grid|
      invariant found == (if y == 0 then None else LastStart(grid, y - 1, |grid[y - 1]|))
    {
      for x := 0 to |grid[y]|
        invariant found == (if x > 0 then LastStart(grid, y, x)
                            else if y == 0 then None else LastStart(grid, y - 1, |grid[y - 1]|))
      {
        if grid[y][x] == 'S' {
          found := Some(Pos(x, y));
        }
      }
    }
  }

  /** The garden a plan built from the lines holds: the start cell is a
      plot. */
  function Planned(lines: seq<string>, bounded: bool): (g: Garden)
    requires lines != [] && StartOf(lines).Some?
    ensures var s, grid := StartOf(lines).value, StripAll(lines);
      |g.rows| == |grid| && s.y < |g.rows| && s.x < |g.rows[s.y]| && g.rows[s.y][s.x] == '.'
      && forall y :: 0 <= y < |grid| ==>
           (|g.rows[y]| == |grid[y]| && forall x :: 0 <= x < |grid[y]| && Pos(x, y) != s ==> g.rows[y][x] == grid[y][x])
  {
    var s := StartOf(lines).value;
    var grid := StripAll(lines);
    Garden(grid[s.y := grid[s.y][s.x := '.']], |grid[0]|, |grid|, bounded)
  }

  /** A bounded plan's own start is one of its plots, and so is an
      unbounded plan's. */
  lemma StartIsPlot(lines: seq<string>, bounded: bool)
    requires lines != [] && Valid(Described(lines, bounded)) && StartOf(lines).Some?
    ensures Valid(Planned(lines, bounded)) && Plots(Planned(lines, bounded))(StartOf(lines).value)
  {
    var s := StartOf(lines).value;
    var g := Planned(lines, bounded);
    assert |g.rows[s.y]| == g.width;
    ModUnique(s.y, g.height, 0, s.y);
    ModUnique(s.x, g.width, 0, s.x);
  }

  /** `Plan`: the rows (with the start plot made a '.'), its size, whether
      it is bounded, and the start. */
  class Plan {
    var rows: seq<seq<char>>
    var width: nat
    var height: nat
    var bounded: bool
    var start: Pos

    function Layout(): Garden
      reads this
    {
      Garden(rows, width, height, bounded)
    }

    /** `Plan(lines, bounded, start)`: the stripped lines; the last 'S' is
        the start and becomes a '.'; a given start replaces it. */
    constructor(lines: seq<string>, bounded: bool, given: Option<Pos>)
      requires lines != [] && Valid(Described(lines, bounded)) && StartOf(lines).Some?
      ensures Layout() == Planned(lines, bounded) && Valid(Layout())
      ensures start == if given.Some? then given.value else StartOf(lines).value
    {
      var grid := StripAll(lines);
      this.bounded := bounded;
      rows := grid;
      width := |grid[0]|;
      height := |grid|;
      var found := ScanStart(grid);
      var s := found.value;
      start := s;
      ModUnique(s.y, |grid|, 0, s.y);
      ModUnique(s.x, |grid[0]|, 0, s.x);
      new;
      SetCell(s, '.');
      if given.Some? {
        start := given.value;
      }
    }

    /** `Plan.__setitem__`: like reading, writing to an unbounded plan
        writes to the cell of the tile the position falls on. */
    method SetCell(p: Pos, c: char)
      requires Valid(Layout()) && InBounds(Layout(), p)
      modifies this
      ensures width == old(width) && height == old(height) && bounded == old(bounded) && start == old(start)
      ensures var y := if bounded then p.y else p.y % height;
        var x := if bounded then p.x else p.x % width;
        rows == old(rows)[y := old(rows)[y][x := c]]
      ensures Valid(Layout())
    {
      var y := if bounded then p.y else p.y % height;
      var x := if bounded then p.x else p.x % width;
      rows := rows[y := rows[y][x := c]];
    }

    /** `Plan.step`: n rounds of replacing the plots by all their
        accessible neighbours; the `reduce` without an initial value fails
        (None) when a round starts with no plots. */
    method Step(n: nat) returns (r: Option<set<Pos>>)
      requires Valid(Layout())
      ensures r == StepRun(Plots(Layout()), start, n)
    {
      var plots := Plots(Layout());
      var accessible := {start};
      for i := 1 to n + 1
        invariant StepRun(plots, start, i - 1) == Some(accessible)
      {
        if accessible == {} {
          StepRunFails(plots, start, i - 1, n);
          return None;
        }
        accessible := Expand(plots, accessible);
      }
      r := Some(accessible);
    }

    /** `Plan.step_outward`: the count after each of n rounds of taking the
        new frontier, the neighbours of the last one that were not in the
        one before. */
    method StepOutward(n: nat) returns (counts: seq<nat>)
      requires Valid(Layout())
      ensures counts == OutwardCounts(Plots(Layout()), start, n)
    {
      var plots := Plots(Layout());
      var lastFrontier: set<Pos> := {};
      var frontier := {start};
      var count: nat, priorCount: nat := 1, 0;
      counts := [count];
      for i := 1 to n + 1
        invariant Outward(plots, start, i - 1) == Round(lastFrontier, frontier, priorCount, count)
        invariant counts == OutwardCounts(plots, start, i - 1)
      {
        lastFrontier, frontier := frontier, Beyond(Expand(plots, frontier), lastFrontier);
        priorCount, count := count, priorCount + |frontier|;
        counts := counts + [count];
      }
    }
  }

  /** `step(n)`: Some of the plots after n rounds, or None when the
      `reduce` meets an empty round. */
  function StepRun(plots: Pos -> bool, s: Pos, n: nat): Option<set<Pos>>
  {
    if n == 0 then Some({s})
    else match StepRun(plots, s, n - 1)
      case None => None
      case Some(a) => if a == {} then None else Some(Expand(plots, a))
  }

  /** `step(n)` is the set reachable in exactly n steps, unless a round
      before the last had nothing to expand. */
  lemma {:induction false} StepRunReach(plots: Pos -> bool, s: Pos, n: nat)
    ensures StepRun(plots, s, n) == if n > 0 && Reach(plots, s, n - 1) == {} then None else Some(Reach(plots, s, n))
  {
    if n > 0 {
      StepRunReach(plots, s, n - 1);
      if n > 1 && Reach(plots, s, n - 2) == {} {
        ReachEmpty(plots, s, n - 2, n - 1);
      }
    }
  }

  /** Once `step` has failed it stays failed. */
  lemma {:induction false} StepRunFails(plots: Pos -> bool, s: Pos, k: nat, n: nat)
    requires k < n && StepRun(plots, s, k) == Some({})
    ensures StepRun(plots, s, n) == None
  {
    StepRunStaysNone(plots, s, k + 1, n);
  }

  lemma {:induction false} StepRunStaysNone(plots: Pos -> bool, s: Pos, k: nat, n: nat)
    requires 0 < k <= n && StepRun(plots, s, k) == None
    ensures StepRun(plots, s, n) == None
    decreases n - k
  {
    if k < n {
      StepRunStaysNone(plots, s, k + 1, n);
    }
  }

  /** The plots of `a` that are not in `b`, `a - b`. */
  function Beyond(a: set<Pos>, b: set<Pos>): set<Pos>
  {
    set q | q in a && q !in b
  }

  /** The state of `step_outward` after a round. */
  datatype Round = Round(last: set<Pos>, frontier: set<Pos>, prior: nat, count: nat)

  function Outward(plots: Pos -> bool, s: Pos, i: nat): Round
  {
    if i == 0 then Round({}, {s}, 0, 1)
    else
      var r := Outward(plots, s, i - 1);
      var frontier := Beyond(Expand(plots, r.frontier), r.last);
      Round(r.frontier, frontier, r.count, r.prior + |frontier|)
  }

  /** The n + 1 counts `step_outward(n)` yields. */
  function OutwardCounts(plots: Pos -> bool, s: Pos, n: nat): (r: seq<nat>)
    ensures |r| == n + 1 && r[n] == Outward(plots, s, n).count
  {
    if n == 0 then [1] else OutwardCounts(plots, s, n - 1) + [Outward(plots, s, n).count]
  }

  /** Each count is the count two rounds back plus the size of the new
      frontier. */
  lemma OutwardRecurrence(plots: Pos -> bool, s: Pos, n: nat, i: nat)
    requires 1 <= i <= n
    ensures OutwardCounts(plots, s, n)[i]
      == (if i >= 2 then OutwardCounts(plots, s, n)[i - 2] else 0) + |Outward(plots, s, i).frontier|
  {
    CountsPrefix(plots, s, n, i);
    if i >= 2 {
      CountsPrefix(plots, s, n, i - 2);
      assert Outward(plots, s, i - 1).prior == Outward(plots, s, i - 2).count;
    }
  }

  lemma {:induction false} CountsPrefix(plots: Pos -> bool, s: Pos, n: nat, i: nat)
    requires i <= n
    ensures OutwardCounts(plots, s, n)[i] == Outward(plots, s, i).count
    decreases n
  {
    if i < n {
      CountsPrefix(plots, s, n - 1, i);
    }
  }

  /** The plots reachable in exactly k steps, and none before step 0. */
  function ReachAt(plots: Pos -> bool, s: Pos, k: int): set<Pos>
  {
    if k < 0 then {} else Reach(plots, s, k)
  }

  /** The frontier of round i is what becomes reachable at step i that was
      not reachable at step i - 2, and the last frontier the one before. */
  lemma {:induction false} FrontierShell(plots: Pos -> bool, s: Pos, i: nat)
    requires Lively(plots, s)
    ensures Outward(plots, s, i).frontier == ReachAt(plots, s, i) - ReachAt(plots, s, i - 2)
    ensures Outward(plots, s, i).last == ReachAt(plots, s, i - 1) - ReachAt(plots, s, i - 3)
  {
    if i > 0 {
      FrontierShell(plots, s, i - 1);
      var f := Outward(plots, s, i - 1).frontier;
      ReachSplit(plots, s, i, f);
      if i >= 4 {
        ShellApart(plots, s, i, f);
      }
      ShellStep(Expand(plots, Outward(plots, s, i - 1).frontier), ReachAt(plots, s, i),
        ReachAt(plots, s, i - 2), ReachAt(plots, s, i - 4));
    }
  }

  /** The set algebra of one round: when step i reaches `grown` and what
      step i - 2 reached, and `grown` misses what step i - 4 reached, the
      plots of `grown` outside the last frontier are those new at step i. */
  lemma ShellStep(grown: set<Pos>, r: set<Pos>, r2: set<Pos>, r4: set<Pos>)
    requires r == grown + r2 && grown * r4 == {}
    ensures Beyond(grown, r2 - r4) == r - r2
  {
    forall x
      ensures x in Beyond(grown, r2 - r4) <==> x in r - r2
    {
      assert x in grown && x in r4 ==> x in grown * r4;
    }
  }

  /** Step i reaches the neighbours of the newest frontier `f` and
      everything reachable at step i - 2. */
  lemma ReachSplit(plots: Pos -> bool, s: Pos, i: nat, f: set<Pos>)
    requires Lively(plots, s) && i > 0
    requires f == ReachAt(plots, s, i - 1) - ReachAt(plots, s, i - 3)
    ensures ReachAt(plots, s, i) == Expand(plots, f) + ReachAt(plots, s, i - 2)
  {
    if i >= 3 {
      ReachGrows(plots, s, i - 3);
      assert Reach(plots, s, i - 1) == f + Reach(plots, s, i - 3);
      ExpandUnion(plots, f, Reach(plots, s, i - 3));
    } else if i == 2 {
      ReachGrows(plots, s, 0);
    }
  }

  /** Expanding distributes over union. */
  lemma ExpandUnion(plots: Pos -> bool, a: set<Pos>, b: set<Pos>)
    ensures Expand(plots, a + b) == Expand(plots, a) + Expand(plots, b)
  {
    forall q
      ensures q in Expand(plots, a + b) <==> q in Expand(plots, a) || q in Expand(plots, b)
    {
      ExpandExactly(plots, a + b, q);
      ExpandExactly(plots, a, q);
      ExpandExactly(plots, b, q);
    }
  }

  /** No neighbour of the frontier `f` of round i - 1 was reachable at step
      i - 4: stepping back, its frontier plot would have been reachable at
      step i - 3. */
  lemma ShellApart(plots: Pos -> bool, s: Pos, i: nat, f: set<Pos>)
    requires Lively(plots, s) && i >= 4
    requires f == Reach(plots, s, i - 1) - Reach(plots, s, i - 3)
    ensures Expand(plots, f) * Reach(plots, s, i - 4) == {}
  {
    forall q | q in Expand(plots, f) && q in Reach(plots, s, i - 4)
      ensures false
    {
      ExpandExactly(plots, f, q);
      var e :| e in f && q in Neighbours(plots, e);
      ReachPlot(plots, s, i - 1, e);
      NeighbourBack(plots, e, q);
    }
  }

  /** With a start that can move, the counts of `step_outward` are the
      numbers of plots reachable in exactly 0, 1, ..., n steps. */
  lemma {:induction false} OutwardCountsReach(plots: Pos -> bool, s: Pos, i: nat)
    requires Lively(plots, s)
    ensures Outward(plots, s, i).count == |Reach(plots, s, i)|
    ensures Outward(plots, s, i).prior == |ReachAt(plots, s, i - 1)|
  {
    if i > 0 {
      OutwardCountsReach(plots, s, i - 1);
      FrontierShell(plots, s, i);
      if i >= 2 {
        ReachGrows(plots, s, i - 2);
      }
      DisjointCard(ReachAt(plots, s, i - 2), ReachAt(plots, s, i));
    }
  }

  lemma DisjointCard(a: set<Pos>, r: set<Pos>)
    requires a <= r
    ensures |r| == |a| + |r - a|
  {
    assert r == a + (r - a) && a * (r - a) == {};
  }

  // ---------------------------------------------------------------------
  // Ages

  /** `count_at_age`: an age past the end reads the second-last count when
      odd and the last when even; otherwise `counts[n - 1]`, which for age 0
      is Python's `counts[-1]`. None is an IndexError. */
  function CountAtAge(counts: seq<nat>, n: int): (r: Option<nat>)
  {
    var i := if n >= |counts| then (if n % 2 == 1 then -2 else -1) else n - 1;
    match PyIndex(|counts|, i)
    case Some(k) => Some(counts[k])
    case None => None
  }

  /** The counts carried on past the end with period two: from the
      second-last on they alternate. */
  function Periodic(counts: seq<nat>, k: nat): nat
    requires |counts| >= 2
  {
    if k < |counts| then counts[k] else counts[|counts| - 2 + (k - (|counts| - 2)) % 2]
  }

  /** With an even number of counts, the count at age n >= 1 is the count
      after n - 1 steps, the last two counts repeating after the end; age 0
      wraps to the last count; negative ages read from the end and fail
      past its start. */
  lemma CountAtAgePeriodic(counts: seq<nat>, n: int)
    requires |counts| >= 2 && |counts| % 2 == 0
    ensures n >= 1 ==> CountAtAge(counts, n) == Some(Periodic(counts, n - 1))
    ensures n == 0 ==> CountAtAge(counts, n) == Some(counts[|counts| - 1])
    ensures n < 0 ==> (CountAtAge(counts, n).Some? <==> n >= 1 - |counts|)
  {
    var l := |counts|;
    if n > l {
      ParityShift(n - 1, l);
    }
  }

  lemma ParityShift(k: int, l: int)
    requires l % 2 == 0 && k >= l - 2
    ensures (k - (l - 2)) % 2 == (if (k + 1) % 2 == 1 then 0 else 1)
  {
    var h := l / 2;
    var q := (k + 1) / 2;
    var r := (k + 1) % 2;
    assert l == 2 * h && k + 1 == 2 * q + r;
    ModUnique(k - (l - 2), 2, q - h + r, 1 - r);
  }

  /** With a start that can move, every round has plots to expand. */
  lemma {:induction false} Witness(plots: Pos -> bool, s: Pos, n: nat) returns (p: Pos)
    requires Lively(plots, s)
    ensures p in Reach(plots, s, n)
  {
    if n == 0 {
      p := s;
    } else {
      var q := Witness(plots, s, n - 1);
      p := Partner(plots, s, n - 1, q);
    }
  }

  /** With a start that can move, `step(n)` is the set reachable in exactly
      n steps and `step_outward(n)` counts the plots reachable in exactly
      0, 1, ..., n steps. */
  lemma LivelyRuns(plots: Pos -> bool, s: Pos, n: nat)
    requires Lively(plots, s)
    ensures StepRun(plots, s, n) == Some(Reach(plots, s, n))
    ensures forall i :: 0 <= i <= n ==> OutwardCounts(plots, s, n)[i] == |Reach(plots, s, i)|
  {
    StepRunReach(plots, s, n);
    if n > 0 {
      var p := Witness(plots, s, n - 1);
    }
    forall i | 0 <= i <= n
      ensures OutwardCounts(plots, s, n)[i] == |Reach(plots, s, i)|
    {
      CountsPrefix(plots, s, n, i);
      OutwardCountsReach(plots, s, i);
    }
  }

  /** `day21a`: how many plots a bounded plan reaches in exactly n steps
      (None when `step` fails). */
  method Day21A(lines: seq<string>, n: nat) returns (r: Option<nat>)
    requires lines != [] && Valid(Described(lines, true)) && StartOf(lines).Some?
    ensures var plots := Plots(Planned(lines, true));
      r == match StepRun(plots, StartOf(lines).value, n)
           case Some(a) => Some(|a|)
           case None => None
  {
    var plan := new Plan(lines, true, None);
    var reached := plan.Step(n);
    r := if reached.Some? then Some(|reached.value|) else None;
  }
}
