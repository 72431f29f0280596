/** Pipe maze (aoc23/day10.py): a loop of pipes runs through the grid from
    the start tile 'S'; part a finds how far along the loop the point
    farthest from the start lies, part b counts the tiles the loop encloses. */
module Day10 {
  import opened Common

  datatype Dir = N | S | E | W

  datatype Pos = Pos(x: int, y: int)

  /** `Pos.move`. */
  function Move(p: Pos, d: Dir): (q: Pos)
    ensures Abs(q.x - p.x) + Abs(q.y - p.y) == 1
  {
    match d
    case N => Pos(p.x, p.y - 1)
    case S => Pos(p.x, p.y + 1)
    case E => Pos(p.x + 1, p.y)
    case W => Pos(p.x - 1, p.y)
  }

  function Reverse(d: Dir): (r: Dir)
    ensures r != d
  {
    match d
    case N => S
    case S => N
    case E => W
    case W => E
  }

  lemma ReverseReverse(d: Dir)
    ensures Reverse(Reverse(d)) == d
  {
  }

  /** The two sides through which each pipe can be entered or left; the
      ground and every other character have none. */
  function Openings(c: char): set<Dir>
  {
    match c
    case '|' => {N, S}
    case '-' => {E, W}
    case 'F' => {S, E}
    case '7' => {S, W}
    case 'J' => {N, W}
    case 'L' => {N, E}
    case _ => {}
  }

  const Pipes: string := "|-JL7F"

  /** The table of `Puzzle.enter`: heading `d` into a tile holding `c`, the
      direction in which the walker leaves it. */
  function Turn(d: Dir, c: char): (r: Option<Dir>)
    ensures r.Some? <==> Reverse(d) in Openings(c)
    ensures r.Some? ==> r.value in Openings(c) && r.value != Reverse(d)
  {
    match (d, c)
    case (N, '|') => Some(N)
    case (S, '|') => Some(S)
    case (E, '-') => Some(E)
    case (W, '-') => Some(W)
    case (N, 'F') => Some(E)
    case (W, 'F') => Some(S)
    case (E, '7') => Some(S)
    case (N, '7') => Some(W)
    case (S, 'J') => Some(W)
    case (E, 'J') => Some(N)
    case (S, 'L') => Some(E)
    case (W, 'L') => Some(N)
    case _ => None
  }

  /** Only the six pipes have openings, each exactly two, so the table has an
      exit for exactly twelve (direction, tile) pairs. */
  lemma OpeningsOfPipes(c: char)
    ensures Openings(c) != {} <==> c in Pipes
    ensures c in Pipes ==> |Openings(c)| == 2
  {
  }

  /** The table can be walked backwards: whoever leaves a tile heading `e`
      after entering heading `d` leaves it heading reverse(d) when entering
      heading reverse(e). */
  lemma TurnReversible(d: Dir, c: char, e: Dir)
    requires Turn(d, c) == Some(e)
    ensures Turn(Reverse(e), c) == Some(Reverse(d))
  {
    OpeningsOfPipes(c);
    ReverseReverse(d);
    ReverseReverse(e);
    assert c in Pipes;
  }

  predicate InGrid(lines: seq<string>, p: Pos)
  {
    0 <= p.y < |lines| && 0 <= p.x < |lines[p.y]|
  }

  /** `lines[y][x]` as Python evaluates it: a negative index counts from the
      end of the list or line, an index past the end raises IndexError (None). */
  function PyCell(lines: seq<string>, p: Pos): (r: Option<char>)
    ensures InGrid(lines, p) ==> r == Some(lines[p.y][p.x])
  {
    match PyIndex(|lines|, p.y)
    case None => None
    case Some(y) =>
      match PyIndex(|lines[y]|, p.x)
      case None => None
      case Some(x) => Some(lines[y][x])
  }

  /** The tile at `p` as the puzzle means it: off the grid there is no pipe. */
  function Cell(lines: seq<string>, p: Pos): (c: char)
    ensures InGrid(lines, p) ==> c == lines[p.y][p.x]
    ensures !InGrid(lines, p) ==> Openings(c) == {} && c != 'S'
  {
    if InGrid(lines, p) then lines[p.y][p.x] else ' '
  }

  /** `Puzzle.enter`: step onto `p` heading `d`; on a pipe that opens back
      towards the walker it yields the exit direction and the next tile. */
  function Enter(lines: seq<string>, d: Dir, p: Pos): (r: Option<(Dir, Pos)>)
    ensures r.Some? <==> Reverse(d) in Openings(Cell(lines, p))
    ensures r.Some? ==> r.value.0 in Openings(Cell(lines, p)) && r.value.0 != Reverse(d) &&
                        r.value.1 == Move(p, r.value.0)
  {
    match Turn(d, Cell(lines, p))
    case None => None
    case Some(e) => Some((e, Move(p, e)))
  }

  lemma DirCases(d: Dir)
    ensures d == N || d == S || d == E || d == W
  {
  }

  /** The value the four-way choice gives for `d`. */
  function Pick<T>(d: Dir, n: T, s: T, e: T, w: T): T
  {
    match d
    case N => n
    case S => s
    case E => e
    case W => w
  }

  /** The directions kept by the four flags, in the order N, S, E, W of
      `available_directions`. */
  function Select(n: bool, s: bool, e: bool, w: bool): (r: seq<Dir>)
    ensures forall d :: d in r <==> Pick(d, n, s, e, w)
    ensures forall i, j :: 0 <= i < j < |r| ==> r[i] != r[j]
  {
    var r := (if n then [N] else []) + (if s then [S] else []) +
             (if e then [E] else []) + (if w then [W] else []);
    assert forall d :: d in r <==> Pick(d, n, s, e, w) by {
      forall d ensures d in r <==> Pick(d, n, s, e, w) {
        DirCases(d);
      }
    }
    r
  }

  /** `Puzzle.available_directions`: the directions whose neighbour has a pipe
      opening back towards `s`. */
  function AvailableDirections(lines: seq<string>, s: Pos): (r: seq<Dir>)
    ensures forall d :: d in r <==> Reverse(d) in Openings(Cell(lines, Move(s, d)))
    ensures forall d :: d in r <==> Enter(lines, d, Move(s, d)).Some?
    ensures |r| <= 4
  {
    var r := Select(Enter(lines, N, Move(s, N)).Some?, Enter(lines, S, Move(s, S)).Some?,
                    Enter(lines, E, Move(s, E)).Some?, Enter(lines, W, Move(s, W)).Some?);
    assert forall i :: 0 <= i < |r| ==> r[i] in {N, S, E, W};
    DistinctBound(r);
    r
  }

  lemma DistinctBound(r: seq<Dir>)
    requires forall i, j :: 0 <= i < j < |r| ==> r[i] != r[j]
    ensures |r| <= 4
  {
    var all: set<Dir> := {N, S, E, W};
    assert |all| == 4;
    var elems := set i | 0 <= i < |r| :: r[i];
    assert elems <= all by {
      forall d | d in elems ensures d in all {
        match d { case N => case S => case E => case W => }
      }
    }
    SubsetSize(elems, all);
    IndexInjective(r);
  }

  lemma SubsetSize<T>(a: set<T>, b: set<T>)
    requires a <= b
    ensures |a| <= |b|
  {
    assert b == a + (b - a);
  }

  lemma {:induction false} IndexInjective(r: seq<Dir>)
    requires forall i, j :: 0 <= i < j < |r| ==> r[i] != r[j]
    ensures |set i | 0 <= i < |r| :: r[i]| == |r|
    decreases |r|
  {
    if r != [] {
      var front := r[..|r| - 1];
      IndexInjective(front);
      var a := set i | 0 <= i < |front| :: front[i];
      var b := set i | 0 <= i < |r| :: r[i];
      assert b == a + {r[|r| - 1]};
      assert r[|r| - 1] !in a;
    }
  }

  /** `Puzzle.available_directions` as written: the neighbours are read with
      Python indexing, so from the top row or the left column it looks at the
      bottom row or the right column, and from the bottom row or the right
      column it raises IndexError (None). */
  function AvailableAsWritten(lines: seq<string>, s: Pos): (r: Option<seq<Dir>>)
    ensures r.Some? ==> forall d :: d in r.value ==> PyCell(lines, Move(s, d)).Some?
  {
    var cn, cs, ce, cw := PyCell(lines, Move(s, N)), PyCell(lines, Move(s, S)),
                          PyCell(lines, Move(s, E)), PyCell(lines, Move(s, W));
    if cn.None? || cs.None? || ce.None? || cw.None? then None
    else
      Some(Select(Turn(N, cn.value).Some?, Turn(S, cs.value).Some?,
                  Turn(E, ce.value).Some?, Turn(W, cw.value).Some?))
  }

  /** A start on the top row gains a direction from the bottom row: with the
      stray '|' below the loop, the start reports three directions, so no
      start symbol matches and `a` cannot unpack them. */
  lemma WrapAroundGainsDirection()
    ensures AvailableAsWritten(["S7", "LJ", "|."], Pos(0, 0)) == Some([N, S, E])
    ensures AvailableDirections(["S7", "LJ", "|."], Pos(0, 0)) == [S, E]
  {
    var lines := ["S7", "LJ", "|."];
    assert PyCell(lines, Pos(0, -1)) == Some('|');
    assert PyCell(lines, Pos(0, 1)) == Some('L');
    assert PyCell(lines, Pos(1, 0)) == Some('7');
    assert PyCell(lines, Pos(-1, 0)) == Some('7');
    assert Move(Pos(0, 0), N) == Pos(0, -1) && Move(Pos(0, 0), W) == Pos(-1, 0);
    assert Turn(N, '|') == Some(N) && Turn(S, 'L') == Some(E) && Turn(E, '7') == Some(S) && Turn(W, '7') == None;
    assert Select(true, true, true, false) == [N, S, E];
    assert Cell(lines, Pos(0, 1)) == 'L';
    assert Cell(lines, Pos(1, 0)) == '7';
  }

  /** A start on the bottom row makes `available_directions` index past the
      last line, though the loop itself never leaves the grid. */
  lemma BottomRowRaises()
    ensures AvailableAsWritten(["F7", "SJ"], Pos(0, 1)).None?
    ensures AvailableDirections(["F7", "SJ"], Pos(0, 1)) == [N, E]
  {
    BottomRowIndexes();
    BottomRowOpenings();
  }

  lemma BottomRowIndexes()
    ensures AvailableAsWritten(["F7", "SJ"], Pos(0, 1)).None?
  {
    assert PyCell(["F7", "SJ"], Pos(0, 2)).None?;
  }

  lemma BottomRowOpenings()
    ensures AvailableDirections(["F7", "SJ"], Pos(0, 1)) == [N, E]
  {
    var lines := ["F7", "SJ"];
    var s := Pos(0, 1);
    assert Cell(lines, Move(s, N)) == 'F' && Turn(N, 'F') == Some(E);
    assert Cell(lines, Move(s, E)) == 'J' && Turn(E, 'J') == Some(N);
    assert !InGrid(lines, Move(s, S)) && !InGrid(lines, Move(s, W));
    assert Enter(lines, N, Move(s, N)).Some? && Enter(lines, E, Move(s, E)).Some?;
    assert Enter(lines, S, Move(s, S)).None? && Enter(lines, W, Move(s, W)).None?;
    assert Select(true, false, true, false) == [N, E];
  }

  predicate StartAt(lines: seq<string>, p: Pos)
  {
    InGrid(lines, p) && lines[p.y][p.x] == 'S'
  }

  /** Row-major reading order. */
  predicate Before(q: Pos, p: Pos)
  {
    q.y < p.y || (q.y == p.y && q.x < p.x)
  }

  /** `Puzzle.find_start`: the first 'S' in reading order, None when there is none. */
  method FindStart(lines: seq<string>) returns (r: Option<Pos>)
    ensures r.Some? ==> StartAt(lines, r.value) &&
                        forall q :: Before(q, r.value) ==> !StartAt(lines, q)
    ensures r.None? ==> forall q :: !StartAt(lines, q)
  {
    for y := 0 to |lines|
      invariant forall q: Pos :: q.y < y ==> !StartAt(lines, q)
    {
      for x := 0 to |lines[y]|
        invariant forall q: Pos :: q.y < y ==> !StartAt(lines, q)
        invariant forall q: Pos :: q.y == y && q.x < x ==> !StartAt(lines, q)
      {
        if lines[y][x] == 'S' {
          return Some(Pos(x, y));
        }
      }
    }
    return None;
  }

  /** A parsed puzzle: the stripped lines, the start and the directions in
      which it connects (`self.dirs`, kept in the order N, S, E, W). */
  datatype Puzzle = Puzzle(lines: seq<string>, start: Pos, dirs: seq<Dir>)

  /** `Puzzle.__init__`; a grid without 'S' has no start (None). */
  method Parse(input: seq<string>) returns (r: Option<Puzzle>)
    ensures r.Some? ==> |r.value.lines| == |input| &&
                        (forall y :: 0 <= y < |input| ==> r.value.lines[y] == Strip(input[y])) &&
                        StartAt(r.value.lines, r.value.start) &&
                        (forall q :: Before(q, r.value.start) ==> !StartAt(r.value.lines, q)) &&
                        r.value.dirs == AvailableDirections(r.value.lines, r.value.start)
    ensures r.None? ==> forall q :: !StartAt(StripAll(input), q)
  {
    var lines := StripAll(input);
    var start := FindStart(lines);
    if start.None? {
      return None;
    }
    return Some(Puzzle(lines, start.value, AvailableDirections(lines, start.value)));
  }

  /** `Puzzle.start_symbol`: the pipe whose two openings are exactly the
      start's directions, None when no pipe fits. */
  function StartSymbol(dirs: set<Dir>): (r: Option<char>)
    ensures r.Some? ==> r.value in Pipes && Openings(r.value) == dirs
    ensures r.None? ==> forall c :: c in Pipes ==> Openings(c) != dirs
  {
    if dirs == {N, S} then Some('|')
    else if dirs == {E, W} then Some('-')
    else if dirs == {N, W} then Some('J')
    else if dirs == {N, E} then Some('L')
    else if dirs == {S, W} then Some('7')
    else if dirs == {S, E} then Some('F')
    else None
  }

  /** The first `n` positions `Puzzle.follow` yields from the moment it
      reaches `dest` heading `d`: the walk goes on while the tile lets it. */
  function FollowFrom(lines: seq<string>, d: Dir, dest: Pos, n: nat): (ps: seq<Pos>)
    ensures |ps| <= n
    ensures n > 0 ==> ps != [] && ps[0] == dest
    decreases n
  {
    if n == 0 then []
    else
      match Enter(lines, d, dest)
      case None => [dest]
      case Some(t) => [dest] + FollowFrom(lines, t.0, t.1, n - 1)
  }

  /** `Puzzle.follow(d, start)`, limited to its first `n` positions. */
  function Follow(lines: seq<string>, d: Dir, start: Pos, n: nat): (ps: seq<Pos>)
    ensures |ps| <= n
  {
    FollowFrom(lines, d, Move(start, d), n)
  }

  /** One tile leads to the next: `p` has an opening towards `q`. */
  ghost predicate Linked(lines: seq<string>, p: Pos, q: Pos)
  {
    exists e :: e in Openings(Cell(lines, p)) && Move(p, e) == q
  }

  /** Each position leads to the next one. */
  ghost predicate LinkedOn(lines: seq<string>, ps: seq<Pos>)
  {
    forall i :: 0 <= i < |ps| - 1 ==> Linked(lines, ps[i], ps[i + 1])
  }

  /** Each position but the first and the last leads back to the one before. */
  ghost predicate LinkedBack(lines: seq<string>, ps: seq<Pos>)
  {
    forall i :: 0 < i < |ps| - 1 ==> Linked(lines, ps[i], ps[i - 1])
  }

  /** Every position `follow` yields after the first is reached through an
      opening of the tile before it, which also opens back towards it. */
  lemma {:induction false} FollowLinked(lines: seq<string>, d: Dir, dest: Pos, n: nat)
    ensures LinkedOn(lines, FollowFrom(lines, d, dest, n))
    ensures LinkedBack(lines, FollowFrom(lines, d, dest, n))
    decreases n
  {
    var ps := FollowFrom(lines, d, dest, n);
    if n > 0 {
      match Enter(lines, d, dest)
      case None =>
      case Some(t) =>
        FollowLinked(lines, t.0, t.1, n - 1);
        FollowLinkedStep(lines, dest, t.0, t.1, n - 1);
    }
  }

  /** The step of `FollowLinked`: entering t from dest puts dest in front. */
  lemma FollowLinkedStep(lines: seq<string>, dest: Pos, e: Dir, next: Pos, n: nat)
    requires e in Openings(Cell(lines, dest)) && next == Move(dest, e)
    requires LinkedOn(lines, FollowFrom(lines, e, next, n)) && LinkedBack(lines, FollowFrom(lines, e, next, n))
    ensures LinkedOn(lines, [dest] + FollowFrom(lines, e, next, n))
    ensures LinkedBack(lines, [dest] + FollowFrom(lines, e, next, n))
  {
    var rest := FollowFrom(lines, e, next, n);
    LinkedBy(lines, dest, next, e);
    if |rest| > 1 {
      assert Enter(lines, e, next).Some?;
      ReverseReverse(e);
      LinkedBy(lines, next, dest, Reverse(e));
    }
    LinkedOnCons(lines, dest, rest);
    LinkedBackCons(lines, dest, rest);
  }

  lemma LinkedBy(lines: seq<string>, p: Pos, q: Pos, e: Dir)
    requires e in Openings(Cell(lines, p)) && Move(p, e) == q
    ensures Linked(lines, p, q)
  {
  }

  lemma LinkedOnCons(lines: seq<string>, p: Pos, rest: seq<Pos>)
    requires LinkedOn(lines, rest) && (|rest| > 0 ==> Linked(lines, p, rest[0]))
    ensures LinkedOn(lines, [p] + rest)
  {
    var ps := [p] + rest;
    forall i | 0 <= i < |ps| - 1
      ensures Linked(lines, ps[i], ps[i + 1])
    {
      if i > 0 {
        assert ps[i] == rest[i - 1] && ps[i + 1] == rest[i];
      }
    }
  }

  lemma LinkedBackCons(lines: seq<string>, p: Pos, rest: seq<Pos>)
    requires LinkedBack(lines, rest) && (|rest| > 1 ==> Linked(lines, rest[0], p))
    ensures LinkedBack(lines, [p] + rest)
  {
    var ps := [p] + rest;
    forall i | 0 < i < |ps| - 1
      ensures Linked(lines, ps[i], ps[i - 1])
    {
      if i > 1 {
        assert ps[i] == rest[i - 1] && ps[i - 1] == rest[i - 2];
      }
    }
  }

  /** More fuel only extends the walk: the shorter walk is a prefix. */
  lemma {:induction false} FollowPrefix(lines: seq<string>, d: Dir, dest: Pos, m: nat, n: nat)
    requires m <= n
    ensures FollowFrom(lines, d, dest, m) <= FollowFrom(lines, d, dest, n)
    decreases m
  {
    if m > 0 {
      match Enter(lines, d, dest)
      case None =>
      case Some(t) => FollowPrefix(lines, t.0, t.1, m - 1, n - 1);
    }
  }

  /** A walk shorter than its fuel has stopped on its own: more fuel yields
      nothing more. */
  lemma {:induction false} FollowEnded(lines: seq<string>, d: Dir, dest: Pos, m: nat, n: nat)
    requires m <= n && |FollowFrom(lines, d, dest, m)| < m
    ensures FollowFrom(lines, d, dest, n) == FollowFrom(lines, d, dest, m)
    decreases m
  {
    match Enter(lines, d, dest)
    case None =>
    case Some(t) => FollowEnded(lines, t.0, t.1, m - 1, n - 1);
  }

  /** `len(list(takewhile(not eq, zip(xs, ys))))`: how many leading pairs differ. */
  function Unequal(xs: seq<Pos>, ys: seq<Pos>): (k: nat)
    ensures k <= |xs| && k <= |ys|
    ensures forall i :: 0 <= i < k ==> xs[i] != ys[i]
    ensures k < |xs| && k < |ys| ==> xs[k] == ys[k]
  {
    if xs == [] || ys == [] || xs[0] == ys[0] then 0
    else 1 + Unequal(xs[1..], ys[1..])
  }

  /** The three facts above pin the count down. */
  lemma UnequalUnique(xs: seq<Pos>, ys: seq<Pos>, k: nat)
    requires k <= |xs| && k <= |ys|
    requires forall i :: 0 <= i < k ==> xs[i] != ys[i]
    requires k < |xs| && k < |ys| ==> xs[k] == ys[k]
    ensures Unequal(xs, ys) == k
  {
  }

  /** `Puzzle.a` with each walker limited to `fuel` steps: the two walkers
      leave the start in its two directions; the answer is one more than the
      number of steps on which they stand on different tiles. Not exactly two
      directions (the unpacking fails) or walkers still apart when the fuel is
      spent give None. */
  function PartA(p: Puzzle, fuel: nat): (r: Option<nat>)
    ensures r.Some? ==> (
      |p.dirs| == 2 && r.value >= 1 && r.value - 1 < fuel &&
      var xs, ys := Follow(p.lines, p.dirs[0], p.start, fuel), Follow(p.lines, p.dirs[1], p.start, fuel);
      r.value - 1 <= |xs| && r.value - 1 <= |ys| &&
      (forall i :: 0 <= i < r.value - 1 ==> xs[i] != ys[i]) &&
      (r.value - 1 < |xs| && r.value - 1 < |ys| ==> xs[r.value - 1] == ys[r.value - 1]))
  {
    if |p.dirs| != 2 then None
    else
      var k := Unequal(Follow(p.lines, p.dirs[0], p.start, fuel), Follow(p.lines, p.dirs[1], p.start, fuel));
      if k == fuel then None else Some(1 + k)
  }

  /** `Puzzle.a` has no answer exactly when the start does not offer two
      directions (the unpacking ValueError) or both walks run for the whole
      fuel without meeting. */
  lemma PartANone(p: Puzzle, fuel: nat)
    ensures PartA(p, fuel).None? <==> (|p.dirs| != 2 || (
      var xs, ys := Follow(p.lines, p.dirs[0], p.start, fuel), Follow(p.lines, p.dirs[1], p.start, fuel);
      |xs| == fuel && |ys| == fuel && forall i :: 0 <= i < fuel ==> xs[i] != ys[i]))
  {
    if |p.dirs| == 2 {
      UnequalAll(Follow(p.lines, p.dirs[0], p.start, fuel), Follow(p.lines, p.dirs[1], p.start, fuel), fuel);
    }
  }

  /** Of two walks of at most n positions, all n pairs differ exactly when
      the count of differing leading pairs reaches n. */
  lemma UnequalAll(xs: seq<Pos>, ys: seq<Pos>, n: nat)
    requires |xs| <= n && |ys| <= n
    ensures Unequal(xs, ys) == n <==> |xs| == n && |ys| == n && forall i :: 0 <= i < n ==> xs[i] != ys[i]
  {
    if |xs| == n && |ys| == n && forall i :: 0 <= i < n ==> xs[i] != ys[i] {
      UnequalUnique(xs, ys, n);
    }
  }

  /** The fuel bound only decides whether an answer is found: once found,
      more fuel gives the same answer. */
  lemma PartAFuel(p: Puzzle, m: nat, n: nat)
    requires m <= n && PartA(p, m).Some?
    ensures PartA(p, n) == PartA(p, m)
  {
    var xm, ym := Follow(p.lines, p.dirs[0], p.start, m), Follow(p.lines, p.dirs[1], p.start, m);
    var xn, yn := Follow(p.lines, p.dirs[0], p.start, n), Follow(p.lines, p.dirs[1], p.start, n);
    var k := Unequal(xm, ym);
    FollowPrefix(p.lines, p.dirs[0], Move(p.start, p.dirs[0]), m, n);
    FollowPrefix(p.lines, p.dirs[1], Move(p.start, p.dirs[1]), m, n);
    if k == |xm| {
      FollowEnded(p.lines, p.dirs[0], Move(p.start, p.dirs[0]), m, n);
    }
    if k == |ym| {
      FollowEnded(p.lines, p.dirs[1], Move(p.start, p.dirs[1]), m, n);
    }
    UnequalGrown(xm, ym, xn, yn);
  }

  /** Extending two walks that have already met, or have ended, keeps the
      count of differing leading pairs. */
  lemma UnequalGrown(xm: seq<Pos>, ym: seq<Pos>, xn: seq<Pos>, yn: seq<Pos>)
    requires xm <= xn && ym <= yn
    requires Unequal(xm, ym) == |xm| ==> xn == xm
    requires Unequal(xm, ym) == |ym| ==> yn == ym
    ensures Unequal(xn, yn) == Unequal(xm, ym)
  {
    var k := Unequal(xm, ym);
    assert forall i :: 0 <= i < k ==> xn[i] == xm[i] && yn[i] == ym[i];
    UnequalUnique(xn, yn, k);
  }

  /** `day10a`: parse the grid and run `Puzzle.a`. */
  method Day10A(input: seq<string>, fuel: nat) returns (r: Option<nat>)
    ensures (exists q :: StartAt(StripAll(input), q)) ==>
              exists p: Puzzle :: p.lines == StripAll(input) && StartAt(p.lines, p.start) &&
                                  (forall q :: Before(q, p.start) ==> !StartAt(p.lines, q)) &&
                                  p.dirs == AvailableDirections(p.lines, p.start) && r == PartA(p, fuel)
    ensures (forall q :: !StartAt(StripAll(input), q)) ==> r.None?
  {
    var parsed := Parse(input);
    if parsed.None? {
      return None;
    }
    assert parsed.value.lines == StripAll(input);
    assert StartAt(StripAll(input), parsed.value.start);
    r := PartA(parsed.value, fuel);
  }

  /** `push_pipe`: a '|' on top cancels, anything else gains a '|'. */
  function PushPipe(st: seq<char>): (r: seq<char>)
  {
    if st != [] && st[|st| - 1] == '|' then st[..|st| - 1] else st + ['|']
  }

  /** What one character of a row does to the stack of
      `LoopMap.count_row_insides`; popping an empty stack is an IndexError (None). */
  function StepRow(st: seq<char>, c: char): (r: Option<seq<char>>)
    ensures r.None? <==> (c == 'J' || c == '7') && st == []
  {
    if c == '|' then Some(PushPipe(st))
    else if c == 'F' || c == 'L' then Some(st + [c])
    else if c == 'J' || c == '7' then
      if st == [] then None
      else
        var top, rest := st[|st| - 1], st[..|st| - 1];
        Some(if (c == 'J' && top == 'F') || (c == '7' && top == 'L') then PushPipe(rest) else rest)
    else Some(st)
  }

  /** A '.' counts when the stack is not empty. */
  function Counted(st: seq<char>, c: char): nat
  {
    if c == '.' && st != [] then 1 else 0
  }

  function AddCount(n: nat, r: Option<(seq<char>, nat)>): Option<(seq<char>, nat)>
  {
    match r
    case None => None
    case Some(res) => Some((res.0, n + res.1))
  }

  /** The rest of `row` read from stack `st`: the final stack and the '.'s counted. */
  function RunRow(st: seq<char>, row: string): Option<(seq<char>, nat)>
    decreases |row|
  {
    if row == [] then Some((st, 0))
    else
      match StepRow(st, row[0])
      case None => None
      case Some(next) => AddCount(Counted(st, row[0]), RunRow(next, row[1..]))
  }

  /** `LoopMap.count_row_insides`: the '.'s met while the stack is not empty,
      None when a 'J' or '7' finds the stack empty. */
  method CountRowInsides(row: string) returns (r: Option<nat>)
    ensures r.Some? <==> RunRow([], row).Some?
    ensures r.Some? ==> r.value == RunRow([], row).value.1
  {
    var state: seq<char> := [];
    var count: nat := 0;
    for i := 0 to |row|
      invariant RunRow([], row) == AddCount(count, RunRow(state, row[i..]))
    {
      var c := row[i];
      assert row[i..][1..] == row[i + 1..];
      if c == '.' && state != [] {
        count := count + 1;
      }
      if c == '|' {
        state := PushPipe(state);
      } else if c == 'F' || c == 'L' {
        state := state + [c];
      } else if c == 'J' || c == '7' {
        if state == [] {
          return None;
        }
        var top := state[|state| - 1];
        state := state[..|state| - 1];
        if (c == 'J' && top == 'F') || (c == '7' && top == 'L') {
          state := PushPipe(state);
        }
      }
    }
    assert row[|row|..] == [];
    return Some(count);
  }

  /** A row of the loop map seen as pieces: ground, a vertical pipe, or a
      bend that opens with 'F' or 'L', runs along '-' and closes with 'J' or '7'. */
  datatype Piece = Ground | Bar | Bend(open: char, run: nat, close: char)

  predicate WellFormed(pc: Piece)
  {
    pc.Bend? ==> (pc.open == 'F' || pc.open == 'L') && (pc.close == 'J' || pc.close == '7')
  }

  function Dashes(n: nat): (r: string)
    ensures |r| == n && forall i :: 0 <= i < n ==> r[i] == '-'
  {
    seq(n, i => '-')
  }

  function RenderPiece(pc: Piece): string
  {
    match pc
    case Ground => "."
    case Bar => "|"
    case Bend(o, n, c) => [o] + Dashes(n) + [c]
  }

  function Render(pcs: seq<Piece>): string
  {
    if pcs == [] then [] else RenderPiece(pcs[0]) + Render(pcs[1..])
  }

  /** A piece crosses the row's line of sight when the loop passes from one
      side of the row to the other: a '|', an 'F' closed by 'J', or an 'L'
      closed by '7'. */
  predicate Crosses(pc: Piece)
  {
    pc.Bar? || (pc.Bend? && ((pc.open == 'F' && pc.close == 'J') || (pc.open == 'L' && pc.close == '7')))
  }

  /** The ground tiles lying behind an odd number of crossings. */
  function InsideGround(pcs: seq<Piece>, inside: bool): nat
  {
    if pcs == [] then 0
    else (if pcs[0].Ground? && inside then 1 else 0) + InsideGround(pcs[1..], inside != Crosses(pcs[0]))
  }

  function Final(pcs: seq<Piece>, inside: bool): bool
  {
    if pcs == [] then inside else Final(pcs[1..], inside != Crosses(pcs[0]))
  }

  /** The stack stands for the crossing parity: empty outside, one '|' inside. */
  function Parity(inside: bool): seq<char>
  {
    if inside then ['|'] else []
  }

  lemma PushPipeFlips(inside: bool)
    ensures PushPipe(Parity(inside)) == Parity(!inside)
  {
    if inside {
      assert ['|'][..0] == [];
    }
  }

  lemma {:induction false} RunRowAppend(st: seq<char>, a: string, b: string)
    ensures RunRow(st, a + b) ==
            match RunRow(st, a)
            case None => None
            case Some(res) => AddCount(res.1, RunRow(res.0, b))
    decreases |a|
  {
    if a == [] {
      assert a + b == b;
      match RunRow(st, b)
      case None =>
      case Some(res) =>
    } else {
      assert (a + b)[0] == a[0] && (a + b)[1..] == a[1..] + b;
      match StepRow(st, a[0])
      case None =>
      case Some(next) =>
        RunRowAppend(next, a[1..], b);
        match RunRow(next, a[1..])
        case None =>
        case Some(res) =>
          match RunRow(res.0, b)
          case None =>
          case Some(res2) =>
    }
  }

  /** A run of '-' leaves the stack alone and counts nothing. */
  lemma {:induction false} RunDashes(st: seq<char>, n: nat)
    ensures RunRow(st, Dashes(n)) == Some((st, 0))
    decreases n
  {
    if n > 0 {
      assert Dashes(n)[1..] == Dashes(n - 1);
      RunDashes(st, n - 1);
    }
  }

  /** One well-formed piece turns the parity stack into the next parity
      stack and counts the piece when it is ground inside the loop. */
  lemma RunPiece(pc: Piece, inside: bool)
    requires WellFormed(pc)
    ensures RunRow(Parity(inside), RenderPiece(pc)) ==
            Some((Parity(inside != Crosses(pc)), if pc.Ground? && inside then 1 else 0))
  {
    var st := Parity(inside);
    match pc
    case Ground =>
      assert RenderPiece(pc)[1..] == [];
    case Bar =>
      assert RenderPiece(pc)[1..] == [];
      PushPipeFlips(inside);
    case Bend(_, _, _) =>
      RunBend(pc, inside);
  }

  lemma RunBend(pc: Piece, inside: bool)
    requires WellFormed(pc) && pc.Bend?
    ensures RunRow(Parity(inside), RenderPiece(pc)) == Some((Parity(inside != Crosses(pc)), 0))
  {
    var st := Parity(inside);
    var o, n, c := pc.open, pc.run, pc.close;
    PushPipeFlips(inside);
    var pushed := st + [o];
    assert RunRow(st, [o]) == Some((pushed, 0)) by {
      assert [o][1..] == [];
    }
    RunDashes(pushed, n);
    assert RunRow(pushed, [c]) == Some((Parity(inside != Crosses(pc)), 0)) by {
      assert [c][1..] == [];
      assert pushed[|pushed| - 1] == o && pushed[..|pushed| - 1] == st;
      assert StepRow(pushed, c) == Some(Parity(inside != Crosses(pc)));
      assert Counted(pushed, c) == 0;
    }
    RunRowAppend(st, [o], Dashes(n));
    RunRowAppend(st, [o] + Dashes(n), [c]);
  }

  /** The stack machine of `count_row_insides` is the crossing-parity rule:
      on a row made of ground, '|' and bends, it never pops an empty stack and
      counts exactly the ground tiles behind an odd number of crossings. */
  lemma {:induction false} RunRowCountsInside(pcs: seq<Piece>, inside: bool)
    requires forall i :: 0 <= i < |pcs| ==> WellFormed(pcs[i])
    ensures RunRow(Parity(inside), Render(pcs)) ==
            Some((Parity(Final(pcs, inside)), InsideGround(pcs, inside)))
    decreases |pcs|
  {
    if pcs != [] {
      RunPiece(pcs[0], inside);
      RunRowCountsInside(pcs[1..], inside != Crosses(pcs[0]));
      RunRowAppend(Parity(inside), RenderPiece(pcs[0]), Render(pcs[1..]));
    }
  }

  /** `LoopMap.__init__`: the loop's tiles where the loop runs, '.' elsewhere. */
  function LoopGrid(path: map<Pos, char>, width: nat, height: nat): (g: seq<string>)
    ensures |g| == height && forall y :: 0 <= y < height ==> |g[y]| == width
    ensures forall y, x :: 0 <= y < height && 0 <= x < width ==>
              g[y][x] == (if Pos(x, y) in path then path[Pos(x, y)] else '.')
  {
    seq(height, y =>
      seq(width, x => if Pos(x, y) in path then path[Pos(x, y)] else '.'))
  }

  /** `LoopMap.inside_count`: the sum of the row counts, None when a row fails. */
  function GridInsides(g: seq<string>): Option<nat>
  {
    if g == [] then Some(0)
    else
      match (GridInsides(g[..|g| - 1]), RunRow([], g[|g| - 1]))
      case (Some(a), Some(b)) => Some(a + b.1)
      case _ => None
  }

  method InsideCount(g: seq<string>) returns (r: Option<nat>)
    ensures r == GridInsides(g)
  {
    var total: nat := 0;
    for y := 0 to |g|
      invariant GridInsides(g[..y]) == Some(total)
    {
      assert g[..y + 1][..y] == g[..y];
      var n := CountRowInsides(g[y]);
      if n.None? {
        NoneSticks(g, y + 1);
        return None;
      }
      total := total + n.value;
    }
    assert g[..|g|] == g;
    return Some(total);
  }

  lemma {:induction false} NoneSticks(g: seq<string>, k: nat)
    requires 0 < k <= |g| && RunRow([], g[k - 1]).None?
    ensures GridInsides(g).None?
    decreases |g|
  {
    if k < |g| {
      NoneSticks(g[..|g| - 1], k);
      assert g[..|g| - 1][k - 1] == g[k - 1];
    }
  }

  /** The loop of `Puzzle.b`: the positions `follow` yields before coming back
      to the start. */
  method TraceLoop(lines: seq<string>, start: Pos, symbol: char, ps: seq<Pos>)
    returns (path: map<Pos, char>, closed: bool)
    ensures closed <==> start in ps
    ensures forall q :: q in path <==> q == start || q in BeforeStart(ps, start)
    ensures start in path && path[start] == symbol
    ensures forall q :: q in path && q != start ==> path[q] == Cell(lines, q)
  {
    path := map[start := symbol];
    closed := false;
    var i := 0;
    while i < |ps|
      invariant 0 <= i <= |ps|
      invariant start !in ps[..i]
      invariant forall q :: q in path <==> q == start || q in ps[..i]
      invariant start in path && path[start] == symbol
      invariant forall q :: q in path && q != start ==> path[q] == Cell(lines, q)
    {
      if ps[i] == start {
        closed := true;
        BeforeStartAt(ps, start, i);
        return;
      }
      path := path[ps[i] := Cell(lines, ps[i])];
      assert ps[..i + 1] == ps[..i] + [ps[i]];
      i := i + 1;
    }
    assert ps[..i] == ps;
    BeforeStartNone(ps, start);
  }

  /** The positions before the first occurrence of `s`. */
  function BeforeStart(ps: seq<Pos>, s: Pos): (r: seq<Pos>)
    ensures r <= ps && s !in r
    ensures |r| < |ps| ==> ps[|r|] == s
  {
    if ps == [] || ps[0] == s then [] else [ps[0]] + BeforeStart(ps[1..], s)
  }

  lemma {:induction false} BeforeStartAt(ps: seq<Pos>, s: Pos, i: nat)
    requires i < |ps| && ps[i] == s && s !in ps[..i]
    ensures BeforeStart(ps, s) == ps[..i]
    decreases i
  {
    if i > 0 {
      assert ps[1..][..i - 1] == ps[1..i];
      BeforeStartAt(ps[1..], s, i - 1);
    }
  }

  lemma {:induction false} BeforeStartNone(ps: seq<Pos>, s: Pos)
    requires s !in ps
    ensures BeforeStart(ps, s) == ps
    decreases |ps|
  {
    if ps != [] {
      BeforeStartNone(ps[1..], s);
    }
  }

  /** `path` is the map `b` builds from the first 'S' s: the start showing
      its pipe ('S' when none fits), then every position `follow` yields in
      the first direction before it comes back to s, showing its tile. */
  ghost predicate LoopFrom(lines: seq<string>, s: Pos, fuel: nat, path: map<Pos, char>)
  {
    StartAt(lines, s) && (forall q :: Before(q, s) ==> !StartAt(lines, q)) &&
    var dirs := AvailableDirections(lines, s);
    var symbol := StartSymbol(set i | 0 <= i < |dirs| :: dirs[i]);
    dirs != [] &&
    (forall q :: q in path <==> q == s || q in BeforeStart(Follow(lines, dirs[0], s, fuel), s)) &&
    path[s] == (if symbol.Some? then symbol.value else 'S') &&
    forall q :: q in path && q != s ==> path[q] == Cell(lines, q)
  }

  /** The first 'S' offers no direction, or its walk neither ends nor returns
      to the start within `fuel` steps. */
  ghost predicate OpenFrom(lines: seq<string>, s: Pos, fuel: nat)
  {
    StartAt(lines, s) && (forall q :: Before(q, s) ==> !StartAt(lines, q)) &&
    var dirs := AvailableDirections(lines, s);
    dirs == [] || (|Follow(lines, dirs[0], s, fuel)| == fuel && s !in Follow(lines, dirs[0], s, fuel))
  }

  /** `day10b` with the walk limited to `fuel` steps: trace the loop from the
      start in its first direction, lay it on a map of the grid's size (the
      start showing its pipe), and count the enclosed ground row by row. None
      for a grid without 'S', a start without directions, a walk still open
      when the fuel is spent, or a row whose stack underflows. */
  method Day10B(input: seq<string>, fuel: nat) returns (r: Option<nat>, path: map<Pos, char>)
    ensures r.Some? ==> |input| > 0 && r == GridInsides(LoopGrid(path, |Strip(input[0])|, |input|))
    ensures r.Some? ==> exists s :: LoopFrom(StripAll(input), s, fuel, path)
    ensures r.None? ==> (forall q :: !StartAt(StripAll(input), q)) ||
                        (exists s :: OpenFrom(StripAll(input), s, fuel)) ||
                        (|input| > 0 && GridInsides(LoopGrid(path, |Strip(input[0])|, |input|)).None?)
  {
    path := map[];
    var parsed := Parse(input);
    if parsed.None? {
      return None, path;
    }
    var p := parsed.value;
    assert p.lines == StripAll(input);
    if p.dirs == [] {
      assert OpenFrom(StripAll(input), p.start, fuel);
      return None, path;
    }
    var symbol := StartSymbol(set i | 0 <= i < |p.dirs| :: p.dirs[i]);
    var ps := Follow(p.lines, p.dirs[0], p.start, fuel);
    var closed;
    path, closed := TraceLoop(p.lines, p.start, if symbol.Some? then symbol.value else 'S', ps);
    if !closed && |ps| == fuel {
      assert OpenFrom(StripAll(input), p.start, fuel);
      return None, path;
    }
    assert LoopFrom(StripAll(input), p.start, fuel, path);
    var g := LoopGrid(path, |p.lines[0]|, |p.lines|);
    assert g == LoopGrid(path, |Strip(input[0])|, |input|);
    r := InsideCount(g);
  }
}
