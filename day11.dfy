/** Cosmic expansion (aoc23/day11.py): every empty column and row of the
    image grows by a factor n, and the answer is the sum of the Manhattan
    distances between all pairs of galaxies. */
module Day11 {
  import opened Common

  /** A galaxy as (column, row). */
  type Pos = (nat, nat)

  /** `manhattan_distance`. */
  function ManhattanDistance(a: Pos, b: Pos): (d: nat)
    ensures d == 0 <==> a == b
  {
    Abs(a.0 - b.0) + Abs(a.1 - b.1)
  }

  lemma DistanceSymmetric(a: Pos, b: Pos)
    ensures ManhattanDistance(a, b) == ManhattanDistance(b, a)
  {
  }

  lemma DistanceTriangle(a: Pos, b: Pos, c: Pos)
    ensures ManhattanDistance(a, c) <= ManhattanDistance(a, b) + ManhattanDistance(b, c)
  {
  }

  /** The galaxies of a universe are pairwise distinct: the source keeps a set. */
  predicate Distinct(gs: seq<Pos>)
  {
    forall i, j :: 0 <= i < j < |gs| ==> gs[i] != gs[j]
  }

  /** `set(galaxies)` as a sequence: the first occurrence of each position, in order. */
  function Dedup(gs: seq<Pos>): (r: seq<Pos>)
    ensures Distinct(r)
    ensures forall p :: p in r <==> p in gs
    ensures |r| <= |gs|
  {
    if gs == [] then []
    else
      var rest := Dedup(gs[..|gs| - 1]);
      if gs[|gs| - 1] in rest then rest else rest + [gs[|gs| - 1]]
  }

  /** A coordinate along an axis: columns when `cols`, rows otherwise. */
  function Coord(p: Pos, cols: bool): nat
  {
    if cols then p.0 else p.1
  }

  /** The largest coordinate along an axis. */
  function MaxCoord(gs: seq<Pos>, cols: bool): (m: nat)
    requires gs != []
    ensures forall i :: 0 <= i < |gs| ==> Coord(gs[i], cols) <= m
    ensures exists i :: 0 <= i < |gs| && Coord(gs[i], cols) == m
  {
    if |gs| == 1 then Coord(gs[0], cols)
    else
      var m := MaxCoord(gs[..|gs| - 1], cols);
      assert forall i :: 0 <= i < |gs| - 1 ==> gs[..|gs| - 1][i] == gs[i];
      Max(m, Coord(gs[|gs| - 1], cols))
  }

  datatype Universe = Universe(galaxies: seq<Pos>, maxX: nat, maxY: nat)

  /** `Universe(galaxies)`: an empty collection makes `max` raise ValueError (None). */
  function NewUniverse(gs: seq<Pos>): (r: Option<Universe>)
    ensures r.Some? <==> gs != []
    ensures r.Some? ==> Distinct(r.value.galaxies) && (forall p :: p in r.value.galaxies <==> p in gs)
  {
    if gs == [] then None
    else
      var ds := Dedup(gs);
      assert gs[0] in ds;
      Some(Universe(ds, MaxCoord(ds, true), MaxCoord(ds, false)))
  }

  /** The column or row c holds no galaxy. */
  predicate Empty(gs: seq<Pos>, cols: bool, c: nat)
  {
    forall i :: 0 <= i < |gs| ==> Coord(gs[i], cols) != c
  }

  /** The entry of `x_gaps`/`y_gaps` for c. */
  function Gap(gs: seq<Pos>, cols: bool, n: nat, c: nat): int
  {
    if Empty(gs, cols, c) then n - 1 else 0
  }

  /** `accumulate(gaps)[c]`: the inclusive running total up to c. */
  function Accumulated(gs: seq<Pos>, cols: bool, n: nat, c: nat): int
  {
    if c == 0 then Gap(gs, cols, n, 0) else Accumulated(gs, cols, n, c - 1) + Gap(gs, cols, n, c)
  }

  /** `x_shift[c]` / `y_shift[c]`. */
  function Shift(gs: seq<Pos>, cols: bool, n: nat, c: nat): int
  {
    c + Accumulated(gs, cols, n, c)
  }

  /** The number of empty columns or rows in 0..c. */
  function EmptiesUpTo(gs: seq<Pos>, cols: bool, c: nat): nat
  {
    (if c == 0 then 0 else EmptiesUpTo(gs, cols, c - 1)) + (if Empty(gs, cols, c) then 1 else 0)
  }

  /** A coordinate moves by n - 1 for every empty column or row at or before it. */
  lemma {:induction false} ShiftCountsEmpties(gs: seq<Pos>, cols: bool, n: nat, c: nat)
    requires n >= 1
    ensures Shift(gs, cols, n, c) == c + (n - 1) * EmptiesUpTo(gs, cols, c)
  {
    if c > 0 {
      ShiftCountsEmpties(gs, cols, n, c - 1);
    }
  }

  /** A factor of 1 leaves every coordinate where it is. */
  lemma ShiftByOne(gs: seq<Pos>, cols: bool, c: nat)
    ensures Shift(gs, cols, 1, c) == c
  {
    ShiftCountsEmpties(gs, cols, 1, c);
  }

  /** Expansion keeps coordinates in strictly increasing order. */
  lemma {:induction false} ShiftMonotone(gs: seq<Pos>, cols: bool, n: nat, c: nat, d: nat)
    requires n >= 1 && c < d
    ensures Shift(gs, cols, n, c) < Shift(gs, cols, n, d)
    decreases d - c
  {
    if c + 1 < d {
      ShiftMonotone(gs, cols, n, c, d - 1);
    }
  }

  lemma ShiftNatural(gs: seq<Pos>, cols: bool, n: nat, c: nat)
    requires n >= 1
    ensures Shift(gs, cols, n, c) >= c
  {
    ShiftCountsEmpties(gs, cols, n, c);
  }

  function ShiftPos(gs: seq<Pos>, n: nat, p: Pos): Pos
    requires n >= 1
  {
    ShiftNatural(gs, true, n, p.0);
    ShiftNatural(gs, false, n, p.1);
    (Shift(gs, true, n, p.0), Shift(gs, false, n, p.1))
  }

  /** Two galaxies keep their relative order on both axes after expansion. */
  lemma ShiftPosKeepsOrder(gs: seq<Pos>, n: nat, a: Pos, b: Pos)
    requires n >= 1
    ensures a.0 < b.0 <==> ShiftPos(gs, n, a).0 < ShiftPos(gs, n, b).0
    ensures a.1 < b.1 <==> ShiftPos(gs, n, a).1 < ShiftPos(gs, n, b).1
    ensures a != b ==> ShiftPos(gs, n, a) != ShiftPos(gs, n, b)
  {
    if a.0 < b.0 { ShiftMonotone(gs, true, n, a.0, b.0); }
    if b.0 < a.0 { ShiftMonotone(gs, true, n, b.0, a.0); }
    if a.1 < b.1 { ShiftMonotone(gs, false, n, a.1, b.1); }
    if b.1 < a.1 { ShiftMonotone(gs, false, n, b.1, a.1); }
  }

  /** Empty columns or rows only accumulate. */
  lemma {:induction false} EmptiesMonotone(gs: seq<Pos>, cols: bool, c: nat, d: nat)
    requires c <= d
    ensures EmptiesUpTo(gs, cols, c) <= EmptiesUpTo(gs, cols, d)
    decreases d - c
  {
    if c < d {
      EmptiesMonotone(gs, cols, c, d - 1);
    }
  }

  lemma AbsStretch(c: int, d: int, k: int, ec: int, ed: int)
    requires k >= 0 && (c <= d ==> ec <= ed) && (d <= c ==> ed <= ec)
    ensures Abs((c + k * ec) - (d + k * ed)) == Abs(c - d) + k * Abs(ec - ed)
  {
    if c <= d {
      assert (d + k * ed) - (c + k * ec) == (d - c) + k * (ed - ec);
      if k > 0 { MulNonNeg(k, ed - ec); }
    } else {
      assert (c + k * ec) - (d + k * ed) == (c - d) + k * (ec - ed);
      if k > 0 { MulNonNeg(k, ec - ed); }
    }
  }

  /** Along one axis, expansion lengthens the gap between two coordinates
      by n - 1 for every empty column or row between them. */
  lemma AxisDistance(gs: seq<Pos>, cols: bool, n: nat, c: nat, d: nat)
    requires n >= 1
    ensures Abs(Shift(gs, cols, n, c) - Shift(gs, cols, n, d)) ==
            Abs(c - d) + (n - 1) * Abs(EmptiesUpTo(gs, cols, c) - EmptiesUpTo(gs, cols, d))
  {
    ShiftCountsEmpties(gs, cols, n, c);
    ShiftCountsEmpties(gs, cols, n, d);
    if c <= d {
      EmptiesMonotone(gs, cols, c, d);
    } else {
      EmptiesMonotone(gs, cols, d, c);
    }
    AbsStretch(c, d, n - 1, EmptiesUpTo(gs, cols, c), EmptiesUpTo(gs, cols, d));
  }

  /** The distance between two expanded galaxies is their distance in the
      image plus n - 1 for every empty column and every empty row crossed. */
  lemma ExpandedDistance(gs: seq<Pos>, n: nat, a: Pos, b: Pos)
    requires n >= 1
    ensures ManhattanDistance(ShiftPos(gs, n, a), ShiftPos(gs, n, b)) ==
            ManhattanDistance(a, b) +
            (n - 1) * (Abs(EmptiesUpTo(gs, true, a.0) - EmptiesUpTo(gs, true, b.0)) +
                       Abs(EmptiesUpTo(gs, false, a.1) - EmptiesUpTo(gs, false, b.1)))
  {
    AxisDistance(gs, true, n, a.0, b.0);
    AxisDistance(gs, false, n, a.1, b.1);
    var sa, sb := ShiftPos(gs, n, a), ShiftPos(gs, n, b);
    assert sa == (Shift(gs, true, n, a.0), Shift(gs, false, n, a.1));
    assert sb == (Shift(gs, true, n, b.0), Shift(gs, false, n, b.1));
    var ex := Abs(EmptiesUpTo(gs, true, a.0) - EmptiesUpTo(gs, true, b.0));
    var ey := Abs(EmptiesUpTo(gs, false, a.1) - EmptiesUpTo(gs, false, b.1));
    Distribute(n - 1, ex, ey);
  }

  lemma Distribute(k: int, x: int, y: int)
    ensures k * (x + y) == k * x + k * y
  {
  }

  /** Every galaxy moved by its column and row shift. */
  function Moved(gs: seq<Pos>, n: nat): (r: seq<Pos>)
    requires n >= 1
    ensures |r| == |gs|
  {
    seq(|gs|, i requires 0 <= i < |gs| => ShiftPos(gs, n, gs[i]))
  }

  /** `Universe.expanded(n)`: the universe of the moved galaxies. */
  function Expanded(u: Universe, n: nat): (r: Universe)
    requires n >= 1 && u.galaxies != []
  {
    NewUniverse(Moved(u.galaxies, n)).value
  }

  /** Expansion moves distinct galaxies to distinct places, so none is lost
      when the new universe builds its set. */
  lemma ExpandedMoves(u: Universe, n: nat)
    requires n >= 1 && u.galaxies != [] && Distinct(u.galaxies)
    ensures Expanded(u, n).galaxies == Moved(u.galaxies, n)
  {
    var gs := u.galaxies;
    var moved := Moved(gs, n);
    forall i, j | 0 <= i < j < |moved| ensures moved[i] != moved[j] {
      ShiftPosKeepsOrder(gs, n, gs[i], gs[j]);
    }
    DedupDistinct(moved);
  }

  /** Deduplicating a sequence that has no duplicates changes nothing. */
  lemma {:induction false} DedupDistinct(gs: seq<Pos>)
    requires Distinct(gs)
    ensures Dedup(gs) == gs
  {
    if gs != [] {
      var init := gs[..|gs| - 1];
      DedupDistinct(init);
      assert gs[|gs| - 1] !in init;
      assert init + [gs[|gs| - 1]] == gs;
    }
  }

  /** With factor 1 expansion is the identity. */
  lemma ExpandedByOne(u: Universe)
    requires u.galaxies != [] && Distinct(u.galaxies)
    ensures Expanded(u, 1).galaxies == u.galaxies
  {
    ExpandedMoves(u, 1);
    var r := Expanded(u, 1).galaxies;
    forall i | 0 <= i < |r| ensures r[i] == u.galaxies[i] {
      ShiftByOne(u.galaxies, true, u.galaxies[i].0);
      ShiftByOne(u.galaxies, false, u.galaxies[i].1);
    }
  }

  /** The sum over all pairs i < j of the distance between galaxies i and j
      (`distances` over `combinations(galaxies, 2)`). */
  function SumDistances(gs: seq<Pos>): nat
  {
    if gs == [] then 0 else SumDistances(gs[..|gs| - 1]) + DistancesTo(gs[..|gs| - 1], gs[|gs| - 1])
  }

  function DistancesTo(gs: seq<Pos>, p: Pos): nat
  {
    if gs == [] then 0 else DistancesTo(gs[..|gs| - 1], p) + ManhattanDistance(gs[|gs| - 1], p)
  }

  /** The sum of distances is zero exactly when there is at most one distinct galaxy. */
  lemma {:induction false} SumDistancesZero(gs: seq<Pos>)
    requires Distinct(gs) && |gs| >= 2
    ensures SumDistances(gs) > 0
  {
    var init := gs[..|gs| - 1];
    assert init[0] == gs[0] && gs[0] != gs[|gs| - 1];
    DistancesToPositive(init, gs[|gs| - 1], 0);
  }

  lemma {:induction false} DistancesToPositive(gs: seq<Pos>, p: Pos, i: nat)
    requires i < |gs| && gs[i] != p
    ensures DistancesTo(gs, p) > 0
  {
    if i < |gs| - 1 {
      assert gs[..|gs| - 1][i] == gs[i];
      DistancesToPositive(gs[..|gs| - 1], p, i);
    }
  }

  /** The '#' positions of one line, row y, from column c on. */
  function RowGalaxies(line: string, y: nat, c: nat): (r: seq<Pos>)
    requires c <= |line|
    ensures forall p :: p in r <==> p.1 == y && c <= p.0 < |line| && line[p.0] == '#'
    decreases |line| - c
  {
    if c == |line| then []
    else (if line[c] == '#' then [(c, y)] else []) + RowGalaxies(line, y, c + 1)
  }

  /** `Universe.parse` before the set is built: (column, row) of every '#'. */
  function ParseGalaxies(lines: seq<string>): (r: seq<Pos>)
    ensures forall p :: p in r <==> p.1 < |lines| && p.0 < |lines[p.1]| && lines[p.1][p.0] == '#'
  {
    if lines == [] then []
    else
      var y := |lines| - 1;
      var r := ParseGalaxies(lines[..y]) + RowGalaxies(lines[y], y, 0);
      assert forall k :: 0 <= k < y ==> lines[..y][k] == lines[k];
      r
  }

  /** `day11b(lines, n)` (and `day11a` with n = 2): None when the image has no
      galaxy, because the universe's `max` then raises. */
  function Day11(lines: seq<string>, n: nat): (r: Option<nat>)
    requires n >= 1
    ensures r.Some? <==> exists p :: p in ParseGalaxies(lines)
  {
    match NewUniverse(ParseGalaxies(lines))
    case None => None
    case Some(u) =>
      assert u.galaxies[0] in ParseGalaxies(lines);
      Some(SumDistances(Expanded(u, n).galaxies))
  }

  /** With factor 1 nothing expands: the answer is the sum of the distances
      between the galaxies of the image itself. */
  lemma Day11Unexpanded(lines: seq<string>)
    requires exists p :: p in ParseGalaxies(lines)
    ensures Day11(lines, 1) == Some(SumDistances(Dedup(ParseGalaxies(lines))))
  {
    var u := NewUniverse(ParseGalaxies(lines)).value;
    ExpandedByOne(u);
  }
}
