/** Parabolic reflector dish (aoc23/day14.py): round rocks 'O' roll over
    empty ground '.' until they hit a cube rock '#' or the edge; the platform
    is tilted north, west, south and east in a cycle, and the load on the
    north beams is measured. */
module Day14 {
  import opened Common

  type Grid = seq<seq<char>>

  predicate Cell(c: char) { c == '.' || c == 'O' || c == '#' }

  predicate CellsOnly(s: seq<char>) { forall i :: 0 <= i < |s| ==> Cell(s[i]) }

  function Repeat(n: nat, c: char): (r: seq<char>)
    ensures |r| == n && forall i :: 0 <= i < n ==> r[i] == c
  {
    seq(n, _ => c)
  }

  /** `tilt` with `gaps` dots and `balls` rocks already read since the last
      '#', at position i: every segment ends up with its dots first and its
      round rocks last, the '#' staying put. Other characters are dropped. */
  function TiltFrom(s: seq<char>, i: nat, gaps: nat, balls: nat): seq<char>
    requires i <= |s|
    decreases |s| - i
  {
    if i == |s| then Repeat(gaps, '.') + Repeat(balls, 'O')
    else if s[i] == '.' then TiltFrom(s, i + 1, gaps + 1, balls)
    else if s[i] == 'O' then TiltFrom(s, i + 1, gaps, balls + 1)
    else if s[i] == '#' then Repeat(gaps, '.') + Repeat(balls, 'O') + ['#'] + TiltFrom(s, i + 1, 0, 0)
    else TiltFrom(s, i + 1, gaps, balls)
  }

  function TiltSpec(s: seq<char>): seq<char>
  {
    TiltFrom(s, 0, 0, 0)
  }

  /** `tilt`: rolls every round rock towards the end of the line. */
  method Tilt(items: seq<char>) returns (output: seq<char>)
    ensures output == TiltSpec(items)
  {
    var balls, gaps := 0, 0;
    output := [];
    for i := 0 to |items|
      invariant output + TiltFrom(items, i, gaps, balls) == TiltSpec(items)
    {
      match items[i] {
        case '.' => gaps := gaps + 1;
        case 'O' => balls := balls + 1;
        case '#' =>
          output := output + (Repeat(gaps, '.') + Repeat(balls, 'O') + ['#']);
          gaps, balls := 0, 0;
        case _ =>
      }
    }
    output := output + (Repeat(gaps, '.') + Repeat(balls, 'O'));
  }

  function CountOf(s: seq<char>, c: char): nat
  {
    if s == [] then 0 else CountOf(s[..|s| - 1], c) + (if s[|s| - 1] == c then 1 else 0)
  }

  lemma {:induction false} CountOfAppend(a: seq<char>, b: seq<char>, c: char)
    ensures CountOf(a + b, c) == CountOf(a, c) + CountOf(b, c)
    decreases |b|
  {
    if b == [] {
      assert a + b == a;
    } else {
      assert (a + b)[..|a + b| - 1] == a + b[..|b| - 1];
      CountOfAppend(a, b[..|b| - 1], c);
    }
  }

  lemma {:induction false} CountOfRepeat(n: nat, d: char, c: char)
    ensures CountOf(Repeat(n, d), c) == if d == c then n else 0
  {
    if n > 0 {
      assert Repeat(n, d)[..n - 1] == Repeat(n - 1, d);
      CountOfRepeat(n - 1, d, c);
    }
  }

  lemma {:induction false} CountOfFront(s: seq<char>, c: char)
    requires s != []
    ensures CountOf(s, c) == (if s[0] == c then 1 else 0) + CountOf(s[1..], c)
  {
    assert s == [s[0]] + s[1..];
    CountOfAppend([s[0]], s[1..], c);
    assert [s[0]][..0] == [];
  }

  /** Tilting keeps the length of a line of '.', 'O' and '#'. */
  lemma {:induction false} TiltFromLength(s: seq<char>, i: nat, gaps: nat, balls: nat)
    requires i <= |s| && CellsOnly(s)
    ensures |TiltFrom(s, i, gaps, balls)| == |s| - i + gaps + balls
    decreases |s| - i
  {
    if i < |s| {
      if s[i] == '#' {
        TiltFromLength(s, i + 1, 0, 0);
      } else {
        TiltFromLength(s, i + 1, if s[i] == '.' then gaps + 1 else gaps, if s[i] == 'O' then balls + 1 else balls);
      }
    }
  }

  /** Tilting keeps the number of round rocks. */
  lemma {:induction false} TiltFromCount(s: seq<char>, i: nat, gaps: nat, balls: nat)
    requires i <= |s|
    ensures CountOf(TiltFrom(s, i, gaps, balls), 'O') == balls + CountOf(s[i..], 'O')
    decreases |s| - i
  {
    var head := Repeat(gaps, '.') + Repeat(balls, 'O');
    CountOfAppend(Repeat(gaps, '.'), Repeat(balls, 'O'), 'O');
    CountOfRepeat(gaps, '.', 'O');
    CountOfRepeat(balls, 'O', 'O');
    if i == |s| {
      assert s[i..] == [];
    } else {
      CountOfFront(s[i..], 'O');
      assert s[i..][1..] == s[i + 1..];
      if s[i] == '#' {
        TiltFromCount(s, i + 1, 0, 0);
        CountOfAppend(head, ['#'], 'O');
        assert ['#'][..0] == [];
        CountOfAppend(head + ['#'], TiltFrom(s, i + 1, 0, 0), 'O');
      } else {
        TiltFromCount(s, i + 1, if s[i] == '.' then gaps + 1 else gaps, if s[i] == 'O' then balls + 1 else balls);
      }
    }
  }

  /** The cube rocks of the tilted line sit where they sat: output position
      k comes from input position i - gaps - balls + k. */
  lemma {:induction false} TiltFromCubes(s: seq<char>, i: nat, gaps: nat, balls: nat)
    requires i <= |s| && CellsOnly(s) && gaps + balls <= i
    requires forall j :: i - gaps - balls <= j < i ==> s[j] != '#'
    ensures |TiltFrom(s, i, gaps, balls)| == |s| - i + gaps + balls
    ensures forall k :: 0 <= k < |TiltFrom(s, i, gaps, balls)| ==>
              (TiltFrom(s, i, gaps, balls)[k] == '#' <==> s[i - gaps - balls + k] == '#')
    decreases |s| - i
  {
    TiltFromLength(s, i, gaps, balls);
    if i < |s| {
      if s[i] == '#' {
        TiltFromCubes(s, i + 1, 0, 0);
      } else {
        TiltFromCubes(s, i + 1, if s[i] == '.' then gaps + 1 else gaps, if s[i] == 'O' then balls + 1 else balls);
      }
    }
  }

  /** The properties of one tilt of a line of '.', 'O' and '#': it keeps the
      length, the cube rocks and the number of round rocks. */
  lemma TiltKeeps(s: seq<char>)
    requires CellsOnly(s)
    ensures |TiltSpec(s)| == |s| && CellsOnly(TiltSpec(s))
    ensures forall k :: 0 <= k < |s| ==> (TiltSpec(s)[k] == '#' <==> s[k] == '#')
    ensures CountOf(TiltSpec(s), 'O') == CountOf(s, 'O')
  {
    TiltFromCubes(s, 0, 0, 0);
    TiltFromCount(s, 0, 0, 0);
    assert s[0..] == s;
    TiltFromCells(s, 0, 0, 0);
  }

  lemma {:induction false} TiltFromCells(s: seq<char>, i: nat, gaps: nat, balls: nat)
    requires i <= |s|
    ensures CellsOnly(TiltFrom(s, i, gaps, balls))
    decreases |s| - i
  {
    if i < |s| {
      if s[i] == '#' {
        TiltFromCells(s, i + 1, 0, 0);
      } else {
        TiltFromCells(s, i + 1, if s[i] == '.' then gaps + 1 else gaps, if s[i] == 'O' then balls + 1 else balls);
      }
    }
  }

  /** No round rock has empty ground right after it: within each segment
      between cube rocks all the dots come first. */
  predicate Settled(s: seq<char>)
  {
    forall k :: 0 <= k < |s| - 1 ==> s[k] == 'O' ==> s[k + 1] != '.'
  }

  lemma {:induction false} TiltFromSettled(s: seq<char>, i: nat, gaps: nat, balls: nat)
    requires i <= |s|
    ensures Settled(TiltFrom(s, i, gaps, balls))
    decreases |s| - i
  {
    var head := Repeat(gaps, '.') + Repeat(balls, 'O');
    if i < |s| {
      if s[i] == '#' {
        TiltFromSettled(s, i + 1, 0, 0);
        var rest := TiltFrom(s, i + 1, 0, 0);
        var t := head + ['#'] + rest;
        forall k | 0 <= k < |t| - 1 && t[k] == 'O' ensures t[k + 1] != '.' {
          if k > |head| {
            assert t[k] == rest[k - |head| - 1] && t[k + 1] == rest[k - |head|];
          }
        }
      } else {
        TiltFromSettled(s, i + 1, if s[i] == '.' then gaps + 1 else gaps, if s[i] == 'O' then balls + 1 else balls);
      }
    }
  }

  /** A settled line is unchanged by tilting, read from position i with the
      segment so far (gaps dots, then balls rocks) already matching. */
  lemma {:induction false} TiltFromFixed(t: seq<char>, i: nat, gaps: nat, balls: nat)
    requires i <= |t| && CellsOnly(t) && Settled(t) && gaps + balls <= i
    requires t[i - gaps - balls..i] == Repeat(gaps, '.') + Repeat(balls, 'O')
    ensures TiltFrom(t, i, gaps, balls) == t[i - gaps - balls..]
    decreases |t| - i, 1
  {
    if i == |t| {
      assert t[i - gaps - balls..] == t[i - gaps - balls..i];
    } else if t[i] == '#' {
      FixedCube(t, i, gaps, balls);
    } else if t[i] == '.' {
      FixedDot(t, i, gaps, balls);
    } else {
      FixedRound(t, i, gaps, balls);
    }
  }

  lemma {:induction false} FixedCube(t: seq<char>, i: nat, gaps: nat, balls: nat)
    requires i < |t| && CellsOnly(t) && Settled(t) && gaps + balls <= i && t[i] == '#'
    requires t[i - gaps - balls..i] == Repeat(gaps, '.') + Repeat(balls, 'O')
    ensures TiltFrom(t, i, gaps, balls) == t[i - gaps - balls..]
    decreases |t| - i, 0
  {
    var start := i - gaps - balls;
    assert t[i + 1..i + 1] == Repeat(0, '.') + Repeat(0, 'O');
    TiltFromFixed(t, i + 1, 0, 0);
    assert t[start..] == t[start..i] + [t[i]] + t[i + 1..];
  }

  lemma {:induction false} FixedDot(t: seq<char>, i: nat, gaps: nat, balls: nat)
    requires i < |t| && CellsOnly(t) && Settled(t) && gaps + balls <= i && t[i] == '.'
    requires t[i - gaps - balls..i] == Repeat(gaps, '.') + Repeat(balls, 'O')
    ensures TiltFrom(t, i, gaps, balls) == t[i - gaps - balls..]
    decreases |t| - i, 0
  {
    var start := i - gaps - balls;
    SegmentEnd(t, start, i, gaps, balls);
    assert balls == 0;
    calc {
      t[start..i + 1];
      t[start..i] + [t[i]];
      Repeat(gaps, '.') + [] + ['.'];
      { RepeatSnoc(gaps, '.'); }
      Repeat(gaps + 1, '.') + Repeat(0, 'O');
    }
    TiltFromFixed(t, i + 1, gaps + 1, balls);
  }

  lemma {:induction false} FixedRound(t: seq<char>, i: nat, gaps: nat, balls: nat)
    requires i < |t| && CellsOnly(t) && Settled(t) && gaps + balls <= i && t[i] == 'O'
    requires t[i - gaps - balls..i] == Repeat(gaps, '.') + Repeat(balls, 'O')
    ensures TiltFrom(t, i, gaps, balls) == t[i - gaps - balls..]
    decreases |t| - i, 0
  {
    var start := i - gaps - balls;
    calc {
      t[start..i + 1];
      t[start..i] + [t[i]];
      Repeat(gaps, '.') + Repeat(balls, 'O') + ['O'];
      { RepeatSnoc(balls, 'O'); }
      Repeat(gaps, '.') + Repeat(balls + 1, 'O');
    }
    TiltFromFixed(t, i + 1, gaps, balls + 1);
  }

  /** A segment of dots then round rocks ends in a round rock if it has one. */
  lemma SegmentEnd(t: seq<char>, start: nat, i: nat, gaps: nat, balls: nat)
    requires start + gaps + balls == i <= |t|
    requires t[start..i] == Repeat(gaps, '.') + Repeat(balls, 'O')
    ensures balls > 0 ==> t[i - 1] == 'O'
  {
    if balls > 0 {
      assert t[i - 1] == t[start..i][gaps + balls - 1];
    }
  }

  lemma RepeatSnoc(n: nat, c: char)
    ensures Repeat(n, c) + [c] == Repeat(n + 1, c)
  {
  }

  /** Tilting twice is tilting once. */
  lemma TiltIdempotent(s: seq<char>)
    requires CellsOnly(s)
    ensures TiltSpec(TiltSpec(s)) == TiltSpec(s)
  {
    var t := TiltSpec(s);
    TiltKeeps(s);
    TiltFromSettled(s, 0, 0, 0);
    assert t[0..0] == Repeat(0, '.') + Repeat(0, 'O');
    TiltFromFixed(t, 0, 0, 0);
    assert t[0..] == t;
  }

  /** Every row has the width of the first, and holds only '.', 'O' and '#'. */
  predicate ValidGrid(g: Grid)
  {
    |g| > 0 && (forall y :: 0 <= y < |g| ==> |g[y]| == |g[0]| && CellsOnly(g[y]))
  }

  function Reverse(s: seq<char>): (r: seq<char>)
    ensures |r| == |s| && forall i :: 0 <= i < |s| ==> r[i] == s[|s| - 1 - i]
  {
    seq(|s|, i requires 0 <= i < |s| => s[|s| - 1 - i])
  }

  lemma ReverseReverse(s: seq<char>)
    ensures Reverse(Reverse(s)) == s
  {
  }

  /** `self[x, :]`: column x, top to bottom. */
  function Column(g: Grid, x: nat): (c: seq<char>)
    requires ValidGrid(g) && x < |g[0]|
    ensures |c| == |g| && CellsOnly(c)
  {
    seq(|g|, y requires 0 <= y < |g| => g[y][x])
  }

  /** A line tilted towards its end (`toEnd`) or its start (through a reversal, as
      `self[x, ::-1]` and `self[::-1, y]` do). */
  function TiltLine(s: seq<char>, toEnd: bool): seq<char>
  {
    if toEnd then TiltSpec(s) else Reverse(TiltSpec(Reverse(s)))
  }

  lemma TiltLineKeeps(s: seq<char>, toEnd: bool)
    requires CellsOnly(s)
    ensures |TiltLine(s, toEnd)| == |s| && CellsOnly(TiltLine(s, toEnd))
    ensures forall k :: 0 <= k < |s| ==> (TiltLine(s, toEnd)[k] == '#' <==> s[k] == '#')
  {
    if toEnd {
      TiltKeeps(s);
    } else {
      TiltKeeps(Reverse(s));
    }
  }

  lemma TiltLineIdempotent(s: seq<char>, toEnd: bool)
    requires CellsOnly(s)
    ensures TiltLine(TiltLine(s, toEnd), toEnd) == TiltLine(s, toEnd)
  {
    if toEnd {
      TiltIdempotent(s);
    } else {
      TiltKeeps(Reverse(s));
      ReverseReverse(TiltSpec(Reverse(s)));
      TiltIdempotent(Reverse(s));
    }
  }

  /** `tilt_s` (toEnd) and `tilt_n` on the whole grid: every column tilted. */
  function TiltColumns(g: Grid, toEnd: bool): (r: Grid)
    requires ValidGrid(g)
    ensures ValidGrid(r) && |r| == |g| && |r[0]| == |g[0]|
    ensures forall x :: 0 <= x < |g[0]| ==> Column(r, x) == TiltLine(Column(g, x), toEnd)
  {
    var w := |g[0]|;
    forall x | 0 <= x < w ensures |TiltLine(Column(g, x), toEnd)| == |g| && CellsOnly(TiltLine(Column(g, x), toEnd)) {
      TiltLineKeeps(Column(g, x), toEnd);
    }
    var r := seq(|g|, y requires 0 <= y < |g| => seq(w, x requires 0 <= x < w => TiltLine(Column(g, x), toEnd)[y]));
    assert forall x :: 0 <= x < w ==> Column(r, x) == TiltLine(Column(g, x), toEnd);
    r
  }

  /** `tilt_e` (toEnd) and `tilt_w` on the whole grid: every row tilted. */
  function TiltRows(g: Grid, toEnd: bool): (r: Grid)
    requires ValidGrid(g)
    ensures ValidGrid(r) && |r| == |g| && |r[0]| == |g[0]|
    ensures forall y :: 0 <= y < |g| ==> r[y] == TiltLine(g[y], toEnd)
  {
    forall y | 0 <= y < |g| ensures |TiltLine(g[y], toEnd)| == |g[y]| && CellsOnly(TiltLine(g[y], toEnd)) {
      TiltLineKeeps(g[y], toEnd);
    }
    seq(|g|, y requires 0 <= y < |g| => TiltLine(g[y], toEnd))
  }

  /** Two grids of the same shape with the same columns are equal. */
  lemma ColumnsEqual(a: Grid, b: Grid)
    requires ValidGrid(a) && ValidGrid(b) && |a| == |b| && |a[0]| == |b[0]|
    requires forall x :: 0 <= x < |a[0]| ==> Column(a, x) == Column(b, x)
    ensures a == b
  {
    forall y | 0 <= y < |a| ensures a[y] == b[y] {
      forall x | 0 <= x < |a[0]| ensures a[y][x] == b[y][x] {
        assert Column(a, x)[y] == Column(b, x)[y];
      }
    }
  }

  /** Tilting in one direction twice is tilting once. */
  lemma TiltColumnsIdempotent(g: Grid, toEnd: bool)
    requires ValidGrid(g)
    ensures TiltColumns(TiltColumns(g, toEnd), toEnd) == TiltColumns(g, toEnd)
  {
    var once := TiltColumns(g, toEnd);
    forall x | 0 <= x < |g[0]|
      ensures Column(TiltColumns(once, toEnd), x) == Column(once, x)
    {
      TiltLineIdempotent(Column(g, x), toEnd);
    }
    ColumnsEqual(TiltColumns(once, toEnd), once);
  }

  lemma TiltRowsIdempotent(g: Grid, toEnd: bool)
    requires ValidGrid(g)
    ensures TiltRows(TiltRows(g, toEnd), toEnd) == TiltRows(g, toEnd)
  {
    forall y | 0 <= y < |g| ensures TiltLine(TiltLine(g[y], toEnd), toEnd) == TiltLine(g[y], toEnd) {
      TiltLineIdempotent(g[y], toEnd);
    }
  }

  /** Tilting keeps every cube rock where it is. */
  lemma TiltsKeepCubes(g: Grid, toEnd: bool)
    requires ValidGrid(g)
    ensures forall y, x :: 0 <= y < |g| && 0 <= x < |g[0]| ==>
              (TiltColumns(g, toEnd)[y][x] == '#' <==> g[y][x] == '#') &&
              (TiltRows(g, toEnd)[y][x] == '#' <==> g[y][x] == '#')
  {
    forall y, x | 0 <= y < |g| && 0 <= x < |g[0]|
      ensures (TiltColumns(g, toEnd)[y][x] == '#' <==> g[y][x] == '#') &&
              (TiltRows(g, toEnd)[y][x] == '#' <==> g[y][x] == '#')
    {
      TiltLineKeeps(Column(g, x), toEnd);
      assert TiltColumns(g, toEnd)[y][x] == Column(TiltColumns(g, toEnd), x)[y];
      TiltLineKeeps(g[y], toEnd);
    }
  }

  /** `step`: one spin cycle, north, west, south, east. */
  function Spin(g: Grid): (r: Grid)
    requires ValidGrid(g)
    ensures ValidGrid(r) && |r| == |g| && |r[0]| == |g[0]|
  {
    TiltRows(TiltColumns(TiltRows(TiltColumns(g, false), false), true), true)
  }

  /** `step` on any grid: the spin cycle, which the source only ever applies
      to a valid grid. */
  function SpinAny(g: Grid): Grid
  {
    if ValidGrid(g) then Spin(g) else g
  }

  /** f applied n times. */
  function Iterate(f: Grid -> Grid, g: Grid, n: nat): Grid
  {
    if n == 0 then g else f(Iterate(f, g, n - 1))
  }

  /** The grid after n spin cycles. */
  function Spins(g: Grid, n: nat): Grid
  {
    Iterate(SpinAny, g, n)
  }

  lemma {:induction false} SpinsValid(g: Grid, n: nat)
    requires ValidGrid(g)
    ensures ValidGrid(Spins(g, n)) && |Spins(g, n)| == |g| && |Spins(g, n)[0]| == |g[0]|
  {
    if n > 0 {
      SpinsValid(g, n - 1);
    }
  }

  lemma {:induction false} IterateAdd(f: Grid -> Grid, g: Grid, a: nat, b: nat)
    ensures Iterate(f, g, a + b) == Iterate(f, Iterate(f, g, a), b)
    decreases b
  {
    if b > 0 {
      IterateAdd(f, g, a, b - 1);
    }
  }

  /** Once two iteration counts a < b give the same grid, the grids repeat
      with period b - a from a on. */
  lemma {:induction false} IteratePeriodic(f: Grid -> Grid, g: Grid, a: nat, b: nat, k: nat, r: nat)
    requires a < b && Iterate(f, g, a) == Iterate(f, g, b)
    ensures Iterate(f, g, a + k * (b - a) + r) == Iterate(f, g, a + r)
    decreases k
  {
    if k > 0 {
      var m := Periods(k - 1, b - a);
      IteratePeriodic(f, g, a, b, k - 1, r);
      assert Periods(k, b - a) == m + (b - a);
      IterateAdd(f, g, b, m + r);
      IterateAdd(f, g, a, m + r);
    }
  }

  /** k periods of length d. */
  function Periods(k: nat, d: nat): (m: nat)
    ensures m == k * d
  {
    if k == 0 then 0 else Periods(k - 1, d) + d
  }

  lemma SpinsStep(g: Grid, i: nat)
    requires ValidGrid(Spins(g, i))
    ensures Spins(g, i + 1) == Spin(Spins(g, i)) && ValidGrid(Spins(g, i + 1))
  {
  }

  /** Skipping ahead as `run` does lands on the grid of the full spin count:
      if the grids after cs and i spins agree, the grid after
      i + (steps - cs) mod (i - cs) spins is the grid after `steps` spins. */
  lemma SkipAhead(g: Grid, cs: nat, i: nat, steps: nat)
    requires cs < i <= steps && Spins(g, cs) == Spins(g, i)
    ensures Spins(g, i + (steps - cs) % (i - cs)) == Spins(g, steps)
  {
    IterateSkip(SpinAny, g, cs, i, steps);
  }

  lemma IterateSkip(f: Grid -> Grid, g: Grid, cs: nat, i: nat, steps: nat)
    requires cs < i <= steps && Iterate(f, g, cs) == Iterate(f, g, i)
    ensures Iterate(f, g, i + (steps - cs) % (i - cs)) == Iterate(f, g, steps)
  {
    var len := i - cs;
    var n := (steps - cs) % len;
    var q := (steps - cs) / len;
    assert steps == cs + q * len + n;
    IteratePeriodic(f, g, cs, i, q, n);
    IteratePeriodic(f, g, cs, i, 1, n);
  }

  /** The load on the north beams: each round rock weighs its row's distance
      from the south edge, counting the last row as 1 (`evaluate_load`). */
  function Load(g: Grid): nat
  {
    if g == [] then 0 else |g| * CountOf(g[0], 'O') + Load(g[1..])
  }

  /** Rows taken from input lines, each stripped of surrounding whitespace. */
  function Rows(lines: seq<string>): (r: Grid)
    ensures |r| == |lines| && forall y :: 0 <= y < |lines| ==> r[y] == Strip(lines[y])
  {
    seq(|lines|, y requires 0 <= y < |lines| => Strip(lines[y]))
  }

  /** The platform of `Puzzle`, its rows rewritten in place by the tilts. */
  class Puzzle {
    var rows: Grid

    constructor(lines: seq<string>)
      ensures rows == Rows(lines)
    {
      rows := Rows(lines);
    }

    /** `self[x, :] = col` (and `self[x, ::-1]` with the column reversed). */
    static function SetColumn(g: Grid, x: nat, col: seq<char>): (r: Grid)
      requires ValidGrid(g) && x < |g[0]| && |col| == |g| && CellsOnly(col)
      ensures ValidGrid(r) && |r| == |g| && |r[0]| == |g[0]|
      ensures forall y, c :: 0 <= y < |g| && 0 <= c < |g[0]| ==> r[y][c] == if c == x then col[y] else g[y][c]
    {
      seq(|g|, y requires 0 <= y < |g| => g[y][x := col[y]])
    }

    /** The column loop shared by `tilt_n` and `tilt_s`. */
    method TiltEachColumn(toEnd: bool)
      requires ValidGrid(rows)
      modifies this
      ensures rows == TiltColumns(old(rows), toEnd)
    {
      ghost var orig := rows;
      var target := TiltColumns(orig, toEnd);
      for x := 0 to |rows[0]|
        invariant ValidGrid(rows) && |rows| == |orig| && |rows[0]| == |orig[0]|
        invariant forall y, c :: 0 <= y < |rows| && 0 <= c < |rows[0]| ==>
                    rows[y][c] == if c < x then target[y][c] else orig[y][c]
      {
        var col := Column(rows, x);
        assert col == Column(orig, x);
        var tilted;
        if toEnd {
          tilted := Tilt(col);
        } else {
          tilted := Tilt(Reverse(col));
          tilted := Reverse(tilted);
        }
        assert tilted == Column(target, x);
        rows := SetColumn(rows, x, tilted);
      }
      forall c | 0 <= c < |rows[0]| ensures Column(rows, c) == Column(target, c) {
      }
      ColumnsEqual(rows, target);
    }

    /** The row loop shared by `tilt_e` and `tilt_w`. */
    method TiltEachRow(toEnd: bool)
      requires ValidGrid(rows)
      modifies this
      ensures rows == TiltRows(old(rows), toEnd)
    {
      ghost var orig := rows;
      for y := 0 to |rows|
        invariant |rows| == |orig|
        invariant forall k :: 0 <= k < |rows| ==> rows[k] == if k < y then TiltLine(orig[k], toEnd) else orig[k]
      {
        var tilted;
        if toEnd {
          tilted := Tilt(rows[y]);
        } else {
          tilted := Tilt(Reverse(rows[y]));
          tilted := Reverse(tilted);
        }
        rows := rows[y := tilted];
      }
    }

    method TiltN()
      requires ValidGrid(rows)
      modifies this
      ensures rows == TiltColumns(old(rows), false)
    {
      TiltEachColumn(false);
    }

    method TiltS()
      requires ValidGrid(rows)
      modifies this
      ensures rows == TiltColumns(old(rows), true)
    {
      TiltEachColumn(true);
    }

    method TiltE()
      requires ValidGrid(rows)
      modifies this
      ensures rows == TiltRows(old(rows), true)
    {
      TiltEachRow(true);
    }

    method TiltW()
      requires ValidGrid(rows)
      modifies this
      ensures rows == TiltRows(old(rows), false)
    {
      TiltEachRow(false);
    }

    /** `step`. */
    method Step()
      requires ValidGrid(rows)
      modifies this
      ensures rows == Spin(old(rows))
    {
      TiltN();
      TiltW();
      TiltS();
      TiltE();
    }

    /** The checkpoint test of `run` at spin i: a grid seen before at spin
        cs fixes the target spin count i + (steps - cs) mod (i - cs), or stops
        the run at once when that remainder is 0; a new grid is remembered. */
    static method Checkpoint(ghost g: Grid, rows: Grid, i: nat, steps: nat, checkpoints: map<Grid, nat>)
      returns (cps: map<Grid, nat>, target: Option<nat>, done: bool)
      requires i < steps && rows == Spins(g, i)
      requires forall h :: h in checkpoints ==> checkpoints[h] < i && Spins(g, checkpoints[h]) == h
      ensures forall h :: h in cps ==> cps[h] <= i && Spins(g, cps[h]) == h
      ensures done ==> rows == Spins(g, steps)
      ensures target.Some? ==> i < target.value && Spins(g, target.value) == Spins(g, steps)
    {
      if rows in checkpoints {
        var cycleStart := checkpoints[rows];
        var cycleLength := i - cycleStart;
        var n := (steps - cycleStart) % cycleLength;
        SkipAhead(g, cycleStart, i, steps);
        if n == 0 {
          return checkpoints, None, true;
        }
        return checkpoints, Some(i + n), false;
      }
      return checkpoints[rows := i], None, false;
    }

    /** `run(steps)`: spin up to `steps` times, remembering the grid every
      1000 spins; when a remembered grid comes back, skip ahead to the spin
      count with the same remainder modulo the cycle. Grids are compared by
      value where the source compares hashes. */
    method Run(steps: nat)
      requires ValidGrid(rows)
      modifies this
      ensures rows == Spins(old(rows), steps)
    {
      ghost var g := rows;
      var checkpoints: map<Grid, nat> := map[];
      var cycleTarget: Option<nat> := None;
      for i := 0 to steps
        invariant rows == Spins(g, i)
        invariant forall h :: h in checkpoints ==> checkpoints[h] < i && Spins(g, checkpoints[h]) == h
        invariant cycleTarget.Some? ==> i <= cycleTarget.value && Spins(g, cycleTarget.value) == Spins(g, steps)
      {
        SpinsValid(g, i);
        if cycleTarget.Some? && i == cycleTarget.value {
          return;
        }
        if i % 1000 == 0 && cycleTarget.None? {
          var done;
          checkpoints, cycleTarget, done := Checkpoint(g, rows, i, steps, checkpoints);
          if done {
            return;
          }
        }
        Step();
        SpinsStep(g, i);
      }
    }

    /** `evaluate_load`. */
    function EvaluateLoad(): nat
      reads this
    {
      Load(rows)
    }
  }

  /** The load counts round rocks per row, so rolling them along their rows
      (east or west) leaves it unchanged. */
  lemma {:induction false} LoadIgnoresRowTilts(g: Grid, toEnd: bool)
    requires ValidGrid(g)
    ensures Load(TiltRows(g, toEnd)) == Load(g)
  {
    TiltRowsCounts(g, toEnd);
    LoadSameCounts(TiltRows(g, toEnd), g);
  }

  lemma {:induction false} LoadSameCounts(a: Grid, b: Grid)
    requires |a| == |b| && forall y :: 0 <= y < |a| ==> CountOf(a[y], 'O') == CountOf(b[y], 'O')
    ensures Load(a) == Load(b)
  {
    if a != [] {
      LoadSameCounts(a[1..], b[1..]);
    }
  }

  lemma TiltRowsCounts(g: Grid, toEnd: bool)
    requires ValidGrid(g)
    ensures forall y :: 0 <= y < |g| ==> CountOf(TiltRows(g, toEnd)[y], 'O') == CountOf(g[y], 'O')
  {
    forall y | 0 <= y < |g| ensures CountOf(TiltLine(g[y], toEnd), 'O') == CountOf(g[y], 'O') {
      if toEnd {
        TiltKeeps(g[y]);
      } else {
        TiltKeeps(Reverse(g[y]));
        CountOfReverse(g[y]);
        CountOfReverse(TiltSpec(Reverse(g[y])));
        ReverseReverse(g[y]);
      }
    }
  }

  lemma {:induction false} CountOfReverse(s: seq<char>)
    ensures CountOf(Reverse(s), 'O') == CountOf(s, 'O')
  {
    if s != [] {
      CountOfReverse(s[1..]);
      assert Reverse(s) == Reverse(s[1..]) + [s[0]];
      CountOfAppend(Reverse(s[1..]), [s[0]], 'O');
      CountOfFront(s, 'O');
      assert [s[0]][..0] == [];
    }
  }

  /** `day14a`: the load after tilting north. */
  method Day14A(lines: seq<string>) returns (load: nat)
    requires ValidGrid(Rows(lines))
    ensures load == Load(TiltColumns(Rows(lines), false))
  {
    var p := new Puzzle(lines);
    p.TiltN();
    load := p.EvaluateLoad();
  }

  /** `day14b`: the load after a billion spin cycles. */
  method Day14B(lines: seq<string>) returns (load: nat)
    requires ValidGrid(Rows(lines))
    ensures load == Load(Spins(Rows(lines), 1_000_000_000))
  {
    var p := new Puzzle(lines);
    p.Run(1_000_000_000);
    load := p.EvaluateLoad();
  }

  /** Round rocks roll to the end of each segment, cube rocks stay. */
  lemma TiltExample()
    ensures TiltSpec("O.#.O.") == ".O#..O"
  {
    assert TiltFrom("O.#.O.", 6, 2, 1) == "..O";
    assert TiltFrom("O.#.O.", 2, 1, 1) == ".O#..O";
  }
}
