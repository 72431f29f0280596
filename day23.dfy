/** A long walk (aoc23/day23.py): paths through a maze from the gap in the
    top row to the gap in the bottom row, where slopes force the next step,
    and the graph of corridors between junctions used when slopes are
    ignored. */
module Day23 {
  import opened Common

  datatype Pos = Pos(x: int, y: int)

  /** In the order Python lists the members of `Dir`. */
  datatype Dir = E | S | W | N

  function Step(p: Pos, d: Dir): Pos
  {
    match d
    case E => Pos(p.x + 1, p.y)
    case S => Pos(p.x, p.y + 1)
    case W => Pos(p.x - 1, p.y)
    case N => Pos(p.x, p.y - 1)
  }

  predicate Adjacent(a: Pos, b: Pos)
  {
    Abs(a.x - b.x) + Abs(a.y - b.y) == 1
  }

  /** The slope that pushes towards d. */
  function SlopeOf(d: Dir): char
  {
    match d
    case E => '>'
    case S => 'v'
    case W => '<'
    case N => '^'
  }

  predicate IsSlope(c: char)
  {
    c == '>' || c == 'v' || c == '<' || c == '^'
  }

  /** `Dir.of`: the position of the slope in ">v<^" picks the direction;
      any other character raises (None). */
  function DirOf(c: char): (r: Option<Dir>)
    ensures r.Some? <==> IsSlope(c)
  {
    if c == '>' then Some(E)
    else if c == 'v' then Some(S)
    else if c == '<' then Some(W)
    else if c == '^' then Some(N)
    else None
  }

  /** A slope and its direction determine each other. */
  lemma DirOfSlope(c: char, d: Dir)
    ensures DirOf(c) == Some(d) <==> c == SlopeOf(d)
    ensures IsSlope(SlopeOf(d))
  {
  }

  // ---------------------------------------------------------------------
  // The plan

  datatype Plan = Plan(rows: seq<string>, width: int, height: int, start: Pos, end: Pos)

  /** The first x below `width` where the row has a '.'. */
  function FirstDot(row: string, width: int, x: nat): (r: Option<nat>)
    requires width <= |row|
    ensures r.Some? ==> x <= r.value < width && row[r.value] == '.'
    ensures r.Some? ==> forall x' :: x <= x' < r.value ==> row[x'] != '.'
    ensures r.None? ==> forall x' :: x <= x' < width ==> row[x'] != '.'
    decreases width - x
  {
    if x >= width then None else if row[x] == '.' then Some(x) else FirstDot(row, width, x + 1)
  }

  /** `Plan.__init__`: the stripped rows, the width of the first row, and
      the first '.' of the top and of the bottom row. No rows, a bottom row
      shorter than the first, or a missing gap raise (None). */
  function MakePlan(lines: seq<string>): (r: Option<Plan>)
    ensures r.Some? ==> r.value.rows == StripAll(lines) && |lines| == r.value.height > 0
    ensures r.Some? ==> r.value.width == |r.value.rows[0]| <= |r.value.rows[r.value.height - 1]|
    ensures r.Some? ==> r.value.start.y == 0 && 0 <= r.value.start.x < r.value.width
    ensures r.Some? ==> r.value.rows[0][r.value.start.x] == '.'
    ensures r.Some? ==> forall x :: 0 <= x < r.value.start.x ==> r.value.rows[0][x] != '.'
    ensures r.Some? ==> r.value.end.y == r.value.height - 1 && 0 <= r.value.end.x < r.value.width
    ensures r.Some? ==> r.value.rows[r.value.end.y][r.value.end.x] == '.'
    ensures r.Some? ==> forall x :: 0 <= x < r.value.end.x ==> r.value.rows[r.value.end.y][x] != '.'
    ensures (r.Some? && forall y :: 0 <= y < |lines| ==> |Strip(lines[y])| == |Strip(lines[0])|) ==> ValidPlan(r.value)
  {
    var rows := StripAll(lines);
    if rows == [] then None
    else
      var width, height := |rows[0]|, |rows|;
      if |rows[height - 1]| < width then None
      else
        match FirstDot(rows[0], width, 0)
        case None => None
        case Some(sx) =>
          match FirstDot(rows[height - 1], width, 0)
          case None => None
          case Some(ex) => Some(Plan(rows, width, height, Pos(sx, 0), Pos(ex, height - 1)))
  }

  /** Rows of one width, with the gaps found on the top and bottom rows. */
  predicate ValidPlan(p: Plan)
  {
    |p.rows| == p.height > 0 && p.width == |p.rows[0]|
    && (forall y :: 0 <= y < |p.rows| ==> |p.rows[y]| == p.width)
    && InBounds(p, p.start) && p.start.y == 0 && p.rows[0][p.start.x] == '.'
    && InBounds(p, p.end) && p.end.y == p.height - 1 && p.rows[p.height - 1][p.end.x] == '.'
  }

  predicate InBounds(p: Plan, q: Pos)
  {
    0 <= q.x < p.width && 0 <= q.y < p.height
  }

  /** `Plan.__getitem__`, with Python's indexing: a negative coordinate
      counts from the far side, one past either side raises (None). */
  function Get(p: Plan, q: Pos): (r: Option<char>)
    ensures ValidPlan(p) && InBounds(p, q) ==> r == Some(p.rows[q.y][q.x])
  {
    match PyIndex(|p.rows|, q.y)
    case None => None
    case Some(y) =>
      match PyIndex(|p.rows[y]|, q.x)
      case None => None
      case Some(x) => Some(p.rows[y][x])
  }

  /** A cell a path may stand on: a read that succeeds and is '.' or a slope. */
  predicate OpenAt(p: Plan, q: Pos)
  {
    Get(p, q).Some? && (Get(p, q).value == '.' || IsSlope(Get(p, q).value))
  }

  // ---------------------------------------------------------------------
  // Options

  function Keep(p: Plan, q: Pos, d: Dir): seq<Dir>
    requires ValidPlan(p)
  {
    var t := Step(q, d);
    if InBounds(p, t) && p.rows[t.y][t.x] != '#' then [d] else []
  }

  /** `Plan.options` with both coordinates checked against their own
      bound: the directions whose next cell is on the plan and not '#'. */
  function Options(p: Plan, q: Pos): (r: seq<Dir>)
    requires ValidPlan(p)
    ensures forall d :: d in r <==> InBounds(p, Step(q, d)) && Get(p, Step(q, d)) != Some('#')
  {
    Keep(p, q, E) + Keep(p, q, S) + Keep(p, q, W) + Keep(p, q, N)
  }

  /** The bounds test of `options` as written: both coordinates against
      the width. */
  predicate WidthChecked(p: Plan, t: Pos)
  {
    0 <= t.x < p.width && 0 <= t.y < p.width
  }

  function KeepAsWritten(p: Plan, q: Pos, d: Dir): (r: Option<seq<Dir>>)
    ensures r.None? <==> WidthChecked(p, Step(q, d)) && Get(p, Step(q, d)).None?
    ensures r.Some? ==> r.value == (if WidthChecked(p, Step(q, d)) && Get(p, Step(q, d)) != Some('#') then [d] else [])
  {
    var t := Step(q, d);
    if WidthChecked(p, t) then
      match Get(p, t)
      case None => None
      case Some(c) => Some(if c != '#' then [d] else [])
    else Some([])
  }

  /** `Plan.options` as written: y is checked against the width, so on a
      plan wider than tall a cell below the bottom row is read and the read
      raises (None). */
  function OptionsAsWritten(p: Plan, q: Pos): (r: Option<seq<Dir>>)
    ensures r.None? <==> exists d :: WidthChecked(p, Step(q, d)) && Get(p, Step(q, d)).None?
    ensures r.Some? ==> forall d :: d in r.value <==> WidthChecked(p, Step(q, d)) && Get(p, Step(q, d)) != Some('#')
  {
    var e, s, w, n := KeepAsWritten(p, q, E), KeepAsWritten(p, q, S), KeepAsWritten(p, q, W), KeepAsWritten(p, q, N);
    if e.None? then assert WidthChecked(p, Step(q, E)) && Get(p, Step(q, E)).None?; None
    else if s.None? then assert WidthChecked(p, Step(q, S)) && Get(p, Step(q, S)).None?; None
    else if w.None? then assert WidthChecked(p, Step(q, W)) && Get(p, Step(q, W)).None?; None
    else if n.None? then assert WidthChecked(p, Step(q, N)) && Get(p, Step(q, N)).None?; None
    else AsWrittenMembers(p, q); Some(e.value + s.value + w.value + n.value)
  }

  lemma AsWrittenMembers(p: Plan, q: Pos)
    requires KeepAsWritten(p, q, E).Some? && KeepAsWritten(p, q, S).Some?
    requires KeepAsWritten(p, q, W).Some? && KeepAsWritten(p, q, N).Some?
    ensures var all := KeepAsWritten(p, q, E).value + KeepAsWritten(p, q, S).value +
                       KeepAsWritten(p, q, W).value + KeepAsWritten(p, q, N).value;
            forall d :: d in all <==> WidthChecked(p, Step(q, d)) && Get(p, Step(q, d)) != Some('#')
  {
    var e, s, w, n := KeepAsWritten(p, q, E).value, KeepAsWritten(p, q, S).value,
                      KeepAsWritten(p, q, W).value, KeepAsWritten(p, q, N).value;
    forall d ensures d in e + s + w + n <==> WidthChecked(p, Step(q, d)) && Get(p, Step(q, d)) != Some('#') {
      assert d in e + s + w + n <==> d in e || d in s || d in w || d in n;
      assert e == [] || e == [E];
      assert s == [] || s == [S];
      assert w == [] || w == [W];
      assert n == [] || n == [N];
      match d
      case E => assert d !in s + w + n;
      case S => assert d !in e + w + n;
      case W => assert d !in e + s + n;
      case N => assert d !in e + s + w;
    }
  }

  /** On a square plan the check as written is the intended one. */
  lemma OptionsSquare(p: Plan, q: Pos)
    requires ValidPlan(p) && p.width == p.height
    ensures OptionsAsWritten(p, q) == Some(Options(p, q))
  {
  }

  /** The plan "#..#" over "#..#": two rows of four, gaps at x = 1. */
  const Wide := Plan(["#..#", "#..#"], 4, 2, Pos(1, 0), Pos(1, 1))

  lemma WideParses()
    ensures MakePlan(["#..#", "#..#"]) == Some(Wide) && ValidPlan(Wide)
  {
    var row := "#..#";
    assert !IsSpace(row[0]) && !IsSpace(row[3]);
    StripKeeps(row);
    assert StripAll(["#..#", "#..#"]) == ["#..#", "#..#"];
    assert FirstDot(row, 4, 0) == Some(1) by {
      assert row[0] == '#' && row[1] == '.';
    }
  }

  /** On that plan the search walks from the gap east to (2, 0) and down
      to (2, 1). */
  lemma WideWalk()
    ensures Walk(Wide, [Pos(1, 0), Pos(2, 0), Pos(2, 1)])
  {
    var w := [Pos(1, 0), Pos(2, 0), Pos(2, 1)];
    assert Get(Wide, w[0]) == Some('.') && Get(Wide, w[1]) == Some('.') && Get(Wide, w[2]) == Some('.');
  }

  /** The options of (2, 1) as written read row 2 and raise, where the
      intended options are west and north. */
  lemma WidthCheckRaises()
    ensures OptionsAsWritten(Wide, Pos(2, 1)) == None
    ensures Options(Wide, Pos(2, 1)) == [W, N]
  {
    WideParses();
    assert KeepAsWritten(Wide, Pos(2, 1), S) == None by {
      assert Get(Wide, Pos(2, 2)) == None;
    }
    assert Keep(Wide, Pos(2, 1), E) == [] && Keep(Wide, Pos(2, 1), S) == [];
    assert Keep(Wide, Pos(2, 1), W) == [W] && Keep(Wide, Pos(2, 1), N) == [N];
  }

  // ---------------------------------------------------------------------
  // Moves

  /** `Plan.move`: step into the next cell; a '.' ends the move there, a
      slope carries it on in the slope's direction, anything else gives no
      move. A read off the plan raises; a slide longer than `fuel` (a slope
      cycle recurses without end) is cut off; both give None. */
  function Move(p: Plan, q: Pos, d: Dir, fuel: nat): Option<seq<Pos>>
    decreases fuel
  {
    var t := Step(q, d);
    match Get(p, t)
    case None => None
    case Some(c) =>
      if c == '.' then Some([t])
      else if IsSlope(c) then
        if fuel == 0 then None
        else
          match Move(p, t, DirOf(c).value, fuel - 1)
          case None => None
          case Some(rest) => Some([t] + rest)
      else Some([])
  }

  /** A move is empty exactly when the next cell is neither '.' nor a
      slope; otherwise it starts at the next cell, every cell it visits
      is '.' or a slope, every cell but the last is a slope, and each
      cell after the first is where the slope before it points. */
  lemma {:induction false} MoveSlides(p: Plan, q: Pos, d: Dir, fuel: nat, r: seq<Pos>)
    requires Move(p, q, d, fuel) == Some(r)
    ensures r == [] <==> !OpenAt(p, Step(q, d))
    ensures r != [] ==> r[0] == Step(q, d)
    ensures forall i :: 0 <= i < |r| ==> OpenAt(p, r[i])
    ensures forall i :: 0 <= i < |r| - 1 ==>
      Get(p, r[i]).Some? && IsSlope(Get(p, r[i]).value) && r[i + 1] == Step(r[i], DirOf(Get(p, r[i]).value).value)
    decreases fuel
  {
    var t := Step(q, d);
    var c := Get(p, t).value;
    if IsSlope(c) {
      var rest :| Move(p, t, DirOf(c).value, fuel - 1) == Some(rest);
      MoveSlides(p, t, DirOf(c).value, fuel - 1, rest);
      assert r == [t] + rest;
      forall i | 0 <= i < |r| - 1
        ensures Get(p, r[i]).Some? && IsSlope(Get(p, r[i]).value) && r[i + 1] == Step(r[i], DirOf(Get(p, r[i]).value).value)
      {
        if i > 0 {
          assert r[i] == rest[i - 1] && r[i + 1] == rest[i];
        }
      }
    }
  }

  /** Consecutive cells of a move are neighbours, the first one next to
      where it starts. */
  lemma MoveAdjacent(p: Plan, q: Pos, d: Dir, fuel: nat, r: seq<Pos>)
    requires Move(p, q, d, fuel) == Some(r)
    ensures r != [] ==> Adjacent(q, r[0])
    ensures forall i :: 0 < i < |r| ==> Adjacent(r[i - 1], r[i])
  {
    MoveSlides(p, q, d, fuel, r);
    forall i | 0 < i < |r|
      ensures Adjacent(r[i - 1], r[i])
    {
      assert r[i] == Step(r[i - 1], DirOf(Get(p, r[i - 1]).value).value);
    }
  }

  /** `Plan.move_b`: slopes are walked over like '.'; only '#' stops. */
  function MoveB(p: Plan, q: Pos, d: Dir): (r: Option<seq<Pos>>)
    ensures r.Some? <==> Get(p, Step(q, d)).Some?
    ensures r.Some? ==> (r.value == [Step(q, d)] <==> Get(p, Step(q, d)) != Some('#'))
    ensures r.Some? ==> (r.value == [] <==> Get(p, Step(q, d)) == Some('#'))
  {
    var t := Step(q, d);
    match Get(p, t)
    case None => None
    case Some(c) => if c != '#' then Some([t]) else Some([])
  }

  // ---------------------------------------------------------------------
  // Search with slopes

  function Tip(path: seq<Pos>): Pos
  {
    if path == [] then Pos(0, 0) else path[|path| - 1]
  }

  /** A path of the search: it starts at the gap in the top row, stands
      only on '.' and slopes, and each cell neighbours the one before. */
  ghost predicate Walk(p: Plan, path: seq<Pos>)
  {
    path != [] && path[0] == p.start
    && (forall i :: 0 <= i < |path| ==> OpenAt(p, path[i]))
    && (forall i :: 0 < i < |path| ==> Adjacent(path[i - 1], path[i]))
  }

  /** The search's test: a move extends a path only when it goes somewhere
      and its last cell is not on the path yet. */
  function Extend(path: seq<Pos>, ext: seq<Pos>): (r: Option<seq<Pos>>)
    ensures r.Some? <==> ext != [] && Tip(ext) !in path
    ensures r.Some? ==> r.value == path + ext && Tip(r.value) == Tip(ext)
  {
    if ext != [] && Tip(ext) !in path then Some(path + ext) else None
  }

  /** A walk extended by a move from its end is a walk. */
  lemma ExtendWalk(p: Plan, path: seq<Pos>, d: Dir, fuel: nat, ext: seq<Pos>)
    requires Walk(p, path) && Move(p, Tip(path), d, fuel) == Some(ext) && ext != []
    ensures Walk(p, path + ext)
  {
    MoveSlides(p, Tip(path), d, fuel, ext);
    MoveAdjacent(p, Tip(path), d, fuel, ext);
    var w := path + ext;
    forall i | 0 < i < |w|
      ensures Adjacent(w[i - 1], w[i])
    {
      if i == |path| {
        assert w[i - 1] == Tip(path) && w[i] == ext[0];
      } else if i > |path| {
        assert w[i - 1] == ext[i - 1 - |path|] && w[i] == ext[i - |path|];
      }
    }
  }

  datatype Run = Finished | Raised | Unfinished

  /** `bfs`: pop the newest path; yield it when it reaches the gap in the
      bottom row, otherwise queue its extension by each option's move.
      Each yielded path is a walk from the top gap to the bottom one. The
      search stops after `fuel` rounds (Unfinished) or when a move raises. */
  method Bfs(p: Plan, fuel: nat) returns (found: seq<seq<Pos>>, run: Run)
    requires ValidPlan(p)
    ensures forall path :: path in found ==> Walk(p, path) && Tip(path) == p.end
    ensures run == Finished ==> forall w :: Grows(p, fuel, [p.start], w) && Tip(w) == p.end ==> w in found
  {
    var queue := [[p.start]];
    found := [];
    var rounds := 0;
    forall w | Grows(p, fuel, [p.start], w) && Tip(w) == p.end
      ensures exists q :: q in queue && Grows(p, fuel, q, w)
    {
      assert [p.start] in queue;
    }
    while queue != [] && rounds < fuel
      invariant forall path :: path in queue ==> Walk(p, path)
      invariant forall path :: path in found ==> Walk(p, path) && Tip(path) == p.end
      invariant WalksPending(p, fuel, queue, found)
      decreases fuel - rounds
    {
      var path := queue[|queue| - 1];
      var rest := queue[..|queue| - 1];
      assert queue == rest + [path];
      queue := rest;
      if Tip(path) == p.end {
        WalksPendingFound(p, fuel, rest, path, found);
        found := found + [path];
      } else {
        var next, ok := Branch(p, path, fuel);
        if !ok {
          return found, Raised;
        }
        WalksPendingBranch(p, fuel, rest, path, found, next);
        queue := queue + next;
      }
      rounds := rounds + 1;
    }
    run := if queue == [] then Finished else Unfinished;
  }

  /** The paths the search can build from q: q itself and, unless q has
      reached the bottom gap, those it builds from q extended by an
      option's move to somewhere new. */
  ghost predicate Grows(p: Plan, fuel: nat, q: seq<Pos>, w: seq<Pos>)
    requires ValidPlan(p)
    decreases |w| - |q|
  {
    q == w ||
    (Tip(q) != p.end &&
     exists d, ext :: d in Options(p, Tip(q)) && Move(p, Tip(q), d, fuel) == Some(ext) &&
                      Extend(q, ext).Some? && |q| + |ext| <= |w| && Grows(p, fuel, q + ext, w))
  }

  /** What the search builds from a walk is a walk that begins with it. */
  lemma {:induction false} GrowsWalk(p: Plan, fuel: nat, q: seq<Pos>, w: seq<Pos>)
    requires ValidPlan(p) && Walk(p, q) && Grows(p, fuel, q, w)
    ensures Walk(p, w) && q <= w
    decreases |w| - |q|
  {
    if q != w {
      var d, ext :| d in Options(p, Tip(q)) && Move(p, Tip(q), d, fuel) == Some(ext) &&
                    Extend(q, ext).Some? && |q| + |ext| <= |w| && Grows(p, fuel, q + ext, w);
      ExtendWalk(p, q, d, fuel, ext);
      GrowsWalk(p, fuel, q + ext, w);
    }
  }

  /** Every path the search builds to the bottom gap has been yielded or is
      built from a path still queued. */
  ghost predicate WalksPending(p: Plan, fuel: nat, queue: seq<seq<Pos>>, found: seq<seq<Pos>>)
    requires ValidPlan(p)
  {
    forall w :: Grows(p, fuel, [p.start], w) && Tip(w) == p.end ==>
      w in found || exists q :: q in queue && Grows(p, fuel, q, w)
  }

  /** A popped path at the bottom gap builds nothing but itself. */
  lemma WalksPendingFound(p: Plan, fuel: nat, rest: seq<seq<Pos>>, q: seq<Pos>, found: seq<seq<Pos>>)
    requires ValidPlan(p) && WalksPending(p, fuel, rest + [q], found) && Tip(q) == p.end
    ensures WalksPending(p, fuel, rest, found + [q])
  {
    forall w | Grows(p, fuel, [p.start], w) && Tip(w) == p.end
      ensures w in found + [q] || exists q' :: q' in rest && Grows(p, fuel, q', w)
    {
      if w !in found && !exists q' :: q' in rest && Grows(p, fuel, q', w) {
        assert Grows(p, fuel, q, w) by {
          var q' :| q' in rest + [q] && Grows(p, fuel, q', w);
        }
        assert q == w;
      }
    }
  }

  /** A popped path short of the bottom gap: what it builds to the gap is
      built from one of its queued extensions. */
  lemma WalksPendingBranch(p: Plan, fuel: nat, rest: seq<seq<Pos>>, q: seq<Pos>, found: seq<seq<Pos>>,
                           next: seq<seq<Pos>>)
    requires ValidPlan(p) && WalksPending(p, fuel, rest + [q], found) && Tip(q) != p.end
    requires forall d :: d in Options(p, Tip(q)) ==> Covered(p, q, d, fuel, next)
    ensures WalksPending(p, fuel, rest + next, found)
  {
    forall w | Grows(p, fuel, [p.start], w) && Tip(w) == p.end
      ensures w in found || exists q' :: q' in rest + next && Grows(p, fuel, q', w)
    {
      if exists q' :: q' in rest && Grows(p, fuel, q', w) {
        var q' :| q' in rest && Grows(p, fuel, q', w);
        assert q' in rest + next;
      } else if w !in found {
        assert Grows(p, fuel, q, w) by {
          var q' :| q' in rest + [q] && Grows(p, fuel, q', w);
        }
        assert q != w;
        var d, ext :| d in Options(p, Tip(q)) && Move(p, Tip(q), d, fuel) == Some(ext) &&
                      Extend(q, ext).Some? && |q| + |ext| <= |w| && Grows(p, fuel, q + ext, w);
        assert Covered(p, q, d, fuel, next);
        assert q + ext in rest + next;
      }
    }
  }

  /** w is path followed by a move to somewhere new, and a walk. */
  ghost predicate Extends(p: Plan, path: seq<Pos>, w: seq<Pos>)
  {
    Walk(p, w) && |w| > |path| && w[..|path|] == path && Tip(w) !in path
  }

  /** Every extension of path by d's move is among next. */
  ghost predicate Covered(p: Plan, path: seq<Pos>, d: Dir, fuel: nat, next: seq<seq<Pos>>)
  {
    forall ext :: Move(p, Tip(path), d, fuel) == Some(ext) && Extend(path, ext).Some? ==> path + ext in next
  }

  /** The extensions of one path, in the order of its options: each is the
      path followed by an option's move that goes somewhere new. False when
      a move raises. */
  method Branch(p: Plan, path: seq<Pos>, fuel: nat) returns (next: seq<seq<Pos>>, ok: bool)
    requires ValidPlan(p) && Walk(p, path)
    ensures forall w :: w in next ==> Extends(p, path, w)
    ensures ok ==> forall d :: d in Options(p, Tip(path)) ==> Covered(p, path, d, fuel, next)
  {
    var ds := Options(p, Tip(path));
    next := [];
    var i := 0;
    while i < |ds|
      invariant 0 <= i <= |ds|
      invariant forall w :: w in next ==> Extends(p, path, w)
      invariant forall j :: 0 <= j < i ==> Covered(p, path, ds[j], fuel, next)
    {
      var m := Move(p, Tip(path), ds[i], fuel);
      if m.None? {
        return next, false;
      }
      var e := Extend(path, m.value);
      ghost var prev := next;
      if e.Some? {
        ExtendWalk(p, path, ds[i], fuel, m.value);
        assert (path + m.value)[..|path|] == path;
        next := next + [path + m.value];
      }
      forall j | 0 <= j < i + 1 ensures Covered(p, path, ds[j], fuel, next) {
        if j < i {
          CoveredGrows(p, path, ds[j], fuel, prev, next);
        } else {
          CoveredByMove(p, path, ds[i], fuel, m.value, next);
        }
      }
      i := i + 1;
    }
    ok := true;
  }

  lemma CoveredByMove(p: Plan, path: seq<Pos>, d: Dir, fuel: nat, ext: seq<Pos>, next: seq<seq<Pos>>)
    requires Move(p, Tip(path), d, fuel) == Some(ext)
    requires Extend(path, ext).Some? ==> path + ext in next
    ensures Covered(p, path, d, fuel, next)
  {
  }

  lemma CoveredGrows(p: Plan, path: seq<Pos>, d: Dir, fuel: nat, next: seq<seq<Pos>>, more: seq<seq<Pos>>)
    requires Covered(p, path, d, fuel, next) && forall w :: w in next ==> w in more
    ensures Covered(p, path, d, fuel, more)
  {
  }

  // ---------------------------------------------------------------------
  // The junction graph

  /** A corridor between junctions and the steps counted along it. */
  datatype Connection = Connection(source: Pos, target: Pos, distance: int)

  /** `Connection.reversed`. */
  function Reversed(c: Connection): (r: Connection)
    ensures r.source == c.target && r.target == c.source && r.distance == c.distance
  {
    Connection(c.target, c.source, c.distance)
  }

  /** A dict entry: the key (source, target) and its connection. */
  datatype Entry = Entry(key: (Pos, Pos), conn: Connection)

  function Rev(k: (Pos, Pos)): (Pos, Pos)
  {
    (k.1, k.0)
  }

  /** A dict kept in insertion order holds each key once. */
  predicate DistinctKeys(d: seq<Entry>)
  {
    forall i, j :: 0 <= i < j < |d| ==> d[i].key != d[j].key
  }

  /** Every connection runs from the first to the second position of its key. */
  predicate KeyedRight(d: seq<Entry>)
  {
    forall i :: 0 <= i < |d| ==> d[i].conn.source == d[i].key.0 && d[i].conn.target == d[i].key.1
  }

  function KeysOf(d: seq<Entry>): (r: set<(Pos, Pos)>)
    ensures forall i :: 0 <= i < |d| ==> d[i].key in r
    ensures forall k :: k in r ==> exists i :: 0 <= i < |d| && d[i].key == k
  {
    set i | 0 <= i < |d| :: d[i].key
  }

  /** `d[k]`, None when k is not a key. */
  function Lookup(d: seq<Entry>, k: (Pos, Pos)): (r: Option<Connection>)
    ensures r.Some? <==> k in KeysOf(d)
    ensures KeyedRight(d) && r.Some? ==> r.value.source == k.0 && r.value.target == k.1
  {
    if d == [] then None
    else if d[0].key == k then Some(d[0].conn)
    else
      assert forall i :: 0 <= i < |d| - 1 ==> d[1..][i] == d[i + 1];
      Lookup(d[1..], k)
  }

  /** With each key once, looking up an entry's key finds the entry. */
  lemma {:induction false} LookupAt(d: seq<Entry>, i: int)
    requires DistinctKeys(d) && 0 <= i < |d|
    ensures Lookup(d, d[i].key) == Some(d[i].conn)
  {
    if i > 0 {
      assert d[1..][i - 1] == d[i];
      LookupAt(d[1..], i - 1);
    }
  }

  /** `d[k] = v`: an existing key keeps its place and takes the new value;
      a new key goes at the end. */
  function Store(d: seq<Entry>, k: (Pos, Pos), v: Connection): (r: seq<Entry>)
    ensures k in KeysOf(d) ==> |r| == |d|
    ensures k !in KeysOf(d) ==> |r| == |d| + 1 && r[|d|] == Entry(k, v)
    ensures forall i :: 0 <= i < |d| ==> r[i] == if d[i].key == k then Entry(k, v) else d[i]
  {
    if k in KeysOf(d) then
      seq(|d|, i requires 0 <= i < |d| => if d[i].key == k then Entry(k, v) else d[i])
    else d + [Entry(k, v)]
  }

  /** Storing keeps each key once and the keys right, and adds k to the keys. */
  lemma StoreKeys(d: seq<Entry>, k: (Pos, Pos), v: Connection)
    requires DistinctKeys(d)
    ensures DistinctKeys(Store(d, k, v))
    ensures KeyedRight(d) && v.source == k.0 && v.target == k.1 ==> KeyedRight(Store(d, k, v))
    ensures KeysOf(Store(d, k, v)) == KeysOf(d) + {k}
  {
    var r := Store(d, k, v);
    assert forall i :: 0 <= i < |d| ==> r[i].key == d[i].key;
    if k !in KeysOf(d) {
      assert r == d + [Entry(k, v)];
    }
  }

  /** Storing changes the lookup of k, to v. */
  lemma StoreLookup(d: seq<Entry>, k: (Pos, Pos), v: Connection)
    requires DistinctKeys(d)
    ensures Lookup(Store(d, k, v), k) == Some(v)
  {
    StoreKeys(d, k, v);
    if k in KeysOf(d) {
      var i :| 0 <= i < |d| && d[i].key == k;
      LookupAt(Store(d, k, v), i);
    } else {
      LookupAt(Store(d, k, v), |d|);
    }
  }

  /** Storing leaves the lookup of every other key as it was. */
  lemma StoreLookupOther(d: seq<Entry>, k: (Pos, Pos), v: Connection, k': (Pos, Pos))
    requires DistinctKeys(d) && k' != k
    ensures Lookup(Store(d, k, v), k') == Lookup(d, k')
  {
    StoreKeys(d, k, v);
    var r := Store(d, k, v);
    if k' in KeysOf(d) {
      var i :| 0 <= i < |d| && d[i].key == k';
      assert r[i] == d[i];
      LookupAt(d, i);
      LookupAt(r, i);
    } else {
      assert k' !in KeysOf(r);
    }
  }

  /** The positions on the plan, and the pairs of them. */
  function Cells(p: Plan): (r: set<Pos>)
    ensures forall q :: q in r <==> InBounds(p, q)
  {
    var r := set x, y | 0 <= x < p.width && 0 <= y < p.height :: Pos(x, y);
    assert forall q :: InBounds(p, q) ==> Pos(q.x, q.y) in r;
    r
  }

  function Pairs(p: Plan): (r: set<(Pos, Pos)>)
    ensures forall a, b :: (a, b) in r <==> InBounds(p, a) && InBounds(p, b)
  {
    var r := set a, b | a in Cells(p) && b in Cells(p) :: (a, b);
    assert forall a, b :: InBounds(p, a) && InBounds(p, b) ==> (a, b) in r;
    r
  }

  /** Adding a member of U that was missing from a subset leaves fewer missing. */
  lemma FewerMissing<T>(U: set<T>, A: set<T>, B: set<T>, x: T)
    requires A <= B <= U && x in B && x !in A
    ensures |U - B| < |U - A|
  {
    var Y := (U - A) - (U - B);
    assert U - A == (U - B) + Y;
    assert (U - B) * Y == {};
    assert x in Y;
  }

  /** A subset that grows leaves no more missing. */
  lemma MissingShrinks<T>(U: set<T>, A: set<T>, B: set<T>)
    requires A <= B
    ensures |U - B| <= |U - A|
  {
    var Y := (U - A) - (U - B);
    assert U - A == (U - B) + Y;
    assert (U - B) * Y == {};
  }

  function Visited(path: seq<Pos>): (r: set<Pos>)
    ensures forall q :: q in r <==> q in path
  {
    set q | q in path
  }

  /** Every position of path lies on the plan. */
  predicate OnPlan(p: Plan, path: seq<Pos>)
  {
    forall i :: 0 <= i < |path| ==> InBounds(p, path[i])
  }

  lemma OnPlanAppend(p: Plan, path: seq<Pos>, ext: seq<Pos>)
    requires OnPlan(p, path) && OnPlan(p, ext)
    ensures OnPlan(p, path + ext)
  {
    assert forall i :: |path| <= i < |path + ext| ==> (path + ext)[i] == ext[i - |path|];
  }

  /** Taking a one-cell extension stays on the plan and visits a new cell. */
  lemma StepOn(p: Plan, path: seq<Pos>, e: seq<Pos>)
    requires path != [] && OnPlan(p, path) && StepOff(p, path, e)
    ensures OnPlan(p, path + e) && path + e != [] && Tip(path + e) == e[0]
    ensures |Cells(p) - Visited(path + e)| < |Cells(p) - Visited(path)|
  {
    assert e == [e[0]];
    VisitedGrows(p, path, e[0]);
    OnPlanAppend(p, path, e);
  }

  lemma VisitedGrows(p: Plan, path: seq<Pos>, q: Pos)
    requires OnPlan(p, path) && InBounds(p, q) && q !in path
    ensures |Cells(p) - Visited(path + [q])| < |Cells(p) - Visited(path)|
  {
    assert Visited(path + [q]) == Visited(path) + {q};
    assert Visited(path + [q]) <= Cells(p);
    FewerMissing(Cells(p), Visited(path), Visited(path + [q]), q);
  }

  /** A one-cell extension of path: a cell on the plan, next to the tip,
      not '#' and not on the path yet. */
  predicate StepOff(p: Plan, path: seq<Pos>, e: seq<Pos>)
    requires path != []
  {
    |e| == 1 && OnPlan(p, e) && e[0] !in path && Adjacent(Tip(path), e[0]) && Get(p, e[0]) != Some('#')
  }

  /** The cells `move_b` reaches along the options of the end of path,
      each as a one-cell extension, when not on the path yet. */
  function ExtensionsFrom(p: Plan, path: seq<Pos>, ds: seq<Dir>): (r: seq<seq<Pos>>)
    requires ValidPlan(p) && path != [] && forall d :: d in ds ==> d in Options(p, Tip(path))
    ensures forall i :: 0 <= i < |r| ==> StepOff(p, path, r[i])
  {
    if ds == [] then []
    else
      assert ds[0] in Options(p, Tip(path));
      var ext := MoveB(p, Tip(path), ds[0]).value;
      MoveOption(p, path, ds[0]);
      var rest := ExtensionsFrom(p, path, ds[1..]);
      var r := (if Tip(ext) !in path then [ext] else []) + rest;
      assert forall i :: 0 <= i < |r| ==> r[i] == ext || r[i] in rest;
      r
  }

  /** The extensions are the steps along the directions, each kept exactly
      when its cell is off the path. */
  lemma {:induction false} ExtensionsFromExactly(p: Plan, path: seq<Pos>, ds: seq<Dir>)
    requires ValidPlan(p) && path != [] && forall d :: d in ds ==> d in Options(p, Tip(path))
    ensures forall e :: e in ExtensionsFrom(p, path, ds) <==>
              exists d :: d in ds && Step(Tip(path), d) !in path && e == [Step(Tip(path), d)]
  {
    if ds != [] {
      var r := ExtensionsFrom(p, path, ds);
      var rest := ExtensionsFrom(p, path, ds[1..]);
      assert forall d :: d in ds[1..] ==> d in ds;
      ExtensionsFromExactly(p, path, ds[1..]);
      MoveOption(p, path, ds[0]);
      var ext := [Step(Tip(path), ds[0])];
      var t := Tip(path);
      assert r == (if Step(t, ds[0]) !in path then [ext] else []) + rest;
      forall e | e in r ensures exists d :: d in ds && Step(t, d) !in path && e == [Step(t, d)] {
        if e in rest {
          var d :| d in ds[1..] && Step(t, d) !in path && e == [Step(t, d)];
          assert d in ds;
        } else {
          assert e == ext && ds[0] in ds;
        }
      }
      forall e | exists d :: d in ds && Step(t, d) !in path && e == [Step(t, d)] ensures e in r {
        var d :| d in ds && Step(t, d) !in path && e == [Step(t, d)];
        if d != ds[0] {
          assert d in ds[1..];
        }
      }
    }
  }

  /** No element occurs twice. */
  predicate NoRepeats<T(==)>(s: seq<T>)
  {
    forall i, j :: 0 <= i < j < |s| ==> s[i] != s[j]
  }

  /** Distinct directions give distinct extensions. */
  lemma {:induction false} ExtensionsFromDistinct(p: Plan, path: seq<Pos>, ds: seq<Dir>)
    requires ValidPlan(p) && path != [] && forall d :: d in ds ==> d in Options(p, Tip(path))
    requires NoRepeats(ds)
    ensures NoRepeats(ExtensionsFrom(p, path, ds))
  {
    if ds != [] {
      var rest := ExtensionsFrom(p, path, ds[1..]);
      assert forall i :: 0 <= i < |ds| - 1 ==> ds[1..][i] == ds[i + 1];
      assert forall d :: d in ds[1..] ==> d in ds;
      ExtensionsFromDistinct(p, path, ds[1..]);
      var ext := [Step(Tip(path), ds[0])];
      MoveOption(p, path, ds[0]);
      assert ds[0] !in ds[1..];
      ExtensionsFromExactly(p, path, ds[1..]);
      forall e | e in rest ensures e != ext {
        var d :| d in ds[1..] && Step(Tip(path), d) !in path && e == [Step(Tip(path), d)];
        StepInjective(Tip(path), ds[0], d);
      }
      var r := ExtensionsFrom(p, path, ds);
      if Step(Tip(path), ds[0]) !in path {
        assert r == [ext] + rest;
        NoRepeatsCons(ext, rest);
      } else {
        assert r == rest;
      }
    }
  }

  lemma NoRepeatsCons<T>(x: T, s: seq<T>)
    requires NoRepeats(s) && x !in s
    ensures NoRepeats([x] + s)
  {
    var r := [x] + s;
    forall i, j | 0 <= i < j < |r| ensures r[i] != r[j] {
      assert r[j] == s[j - 1];
      if i > 0 {
        assert r[i] == s[i - 1];
      }
    }
  }

  /** Different directions lead to different cells. */
  lemma StepInjective(q: Pos, d: Dir, e: Dir)
    requires d != e
    ensures Step(q, d) != Step(q, e)
  {
  }

  /** `options` names each direction at most once. */
  lemma OptionsDistinct(p: Plan, q: Pos)
    requires ValidPlan(p)
    ensures NoRepeats(Options(p, q))
  {
    KeepOne(p, q, E);
    KeepOne(p, q, S);
    KeepOne(p, q, W);
    KeepOne(p, q, N);
    FourDistinct(Keep(p, q, E), Keep(p, q, S), Keep(p, q, W), Keep(p, q, N));
  }

  lemma KeepOne(p: Plan, q: Pos, d: Dir)
    requires ValidPlan(p)
    ensures Keep(p, q, d) == [] || Keep(p, q, d) == [d]
  {
  }

  lemma FourDistinct(e: seq<Dir>, s: seq<Dir>, w: seq<Dir>, n: seq<Dir>)
    requires e == [] || e == [E]
    requires s == [] || s == [S]
    requires w == [] || w == [W]
    requires n == [] || n == [N]
    ensures NoRepeats(e + s + w + n)
  {
    var os := e + s + w + n;
    var k1, k2, k3 := |e|, |e| + |s|, |e| + |s| + |w|;
    assert forall i :: 0 <= i < k1 ==> os[i] == E;
    assert forall i :: k1 <= i < k2 ==> os[i] == S;
    assert forall i :: k2 <= i < k3 ==> os[i] == W;
    assert forall i :: k3 <= i < |os| ==> os[i] == N;
  }

  /** `move_b` along an option gives the one cell it leads to. */
  lemma MoveOption(p: Plan, path: seq<Pos>, d: Dir)
    requires ValidPlan(p) && path != [] && d in Options(p, Tip(path))
    ensures MoveB(p, Tip(path), d).Some?
    ensures var ext := MoveB(p, Tip(path), d).value;
            ext == [Step(Tip(path), d)] && (Tip(ext) !in path ==> StepOff(p, path, ext))
  {
    var t := Step(Tip(path), d);
    assert InBounds(p, t);
    assert Adjacent(Tip(path), t);
  }

  /** `[move_b(path[-1], d) for d in options(path[-1])]` without the cells
      already on the path: every open neighbour off the path, each once. */
  function Extensions(p: Plan, path: seq<Pos>): (r: seq<seq<Pos>>)
    requires ValidPlan(p) && path != []
    ensures forall i :: 0 <= i < |r| ==> StepOff(p, path, r[i])
  {
    ExtensionsFrom(p, path, Options(p, Tip(path)))
  }

  /** Every option whose cell is off the path gives an extension, and none
      gives two, so `len(extensions)` counts the open neighbours off the
      path. */
  lemma ExtensionsExactly(p: Plan, path: seq<Pos>)
    requires ValidPlan(p) && path != []
    ensures forall d :: d in Options(p, Tip(path)) && Step(Tip(path), d) !in path ==>
              [Step(Tip(path), d)] in Extensions(p, path)
    ensures NoRepeats(Extensions(p, path))
  {
    OptionsDistinct(p, Tip(path));
    ExtensionsFromExactly(p, path, Options(p, Tip(path)));
    ExtensionsFromDistinct(p, path, Options(p, Tip(path)));
  }

  /** A walk over the plan: every cell on the plan, each after the first
      next to the one before and not '#'. */
  ghost predicate OpenWalk(p: Plan, w: seq<Pos>)
  {
    w != [] && OnPlan(p, w) &&
    forall i :: 0 < i < |w| ==> Adjacent(w[i - 1], w[i]) && Get(p, w[i]) != Some('#')
  }

  /** w is a corridor walk for c: it ends at c's target after c's distance
      steps, and starts at c's source (the walk from the top gap) or on a
      neighbour of it that the walk never revisits (the walk from a
      junction, whose first step off the junction is not counted). */
  ghost predicate CorridorWalk(p: Plan, c: Connection, w: seq<Pos>)
  {
    OpenWalk(p, w) && |w| == c.distance + 1 && Tip(w) == c.target &&
    (w[0] == c.source || (Adjacent(c.source, w[0]) && c.source !in w))
  }

  ghost predicate Corridor(p: Plan, c: Connection)
  {
    exists w :: CorridorWalk(p, c, w)
  }

  /** Every connection stored is a corridor. */
  ghost predicate AllCorridors(p: Plan, d: seq<Entry>)
  {
    forall k :: k in KeysOf(d) ==> Corridor(p, Lookup(d, k).value)
  }

  /** Storing a corridor keeps every connection a corridor. */
  lemma StoreCorridor(p: Plan, d: seq<Entry>, k: (Pos, Pos), c: Connection)
    requires DistinctKeys(d) && AllCorridors(p, d) && Corridor(p, c)
    ensures AllCorridors(p, Store(d, k, c))
  {
    StoreKeys(d, k, c);
    StoreLookup(d, k, c);
    forall k' | k' in KeysOf(Store(d, k, c)) ensures Corridor(p, Lookup(Store(d, k, c), k').value) {
      if k' != k {
        StoreLookupOther(d, k, c, k');
      }
    }
  }

  /** The connections `extract_connections` records, by key in the order
      recorded; each is a corridor of the plan. */
  class Explorer {
    const plan: Plan
    var connections: seq<Entry>

    ghost predicate Valid()
      reads this
    {
      ValidPlan(plan) && DistinctKeys(connections) && KeyedRight(connections) && KeysOf(connections) <= Pairs(plan) &&
      AllCorridors(plan, connections)
    }

    constructor(plan: Plan)
      requires ValidPlan(plan)
      ensures Valid() && this.plan == plan && connections == []
    {
      this.plan := plan;
      connections := [];
    }

    /** Record the corridor from s to t (replacing any earlier one). */
    method Record(s: Pos, t: Pos, steps: int)
      requires Valid() && InBounds(plan, s) && InBounds(plan, t) && Corridor(plan, Connection(s, t, steps))
      modifies this
      ensures Valid() && connections == Store(old(connections), (s, t), Connection(s, t, steps))
      ensures KeysOf(connections) == KeysOf(old(connections)) + {(s, t)}
      ensures Lookup(connections, (s, t)) == Some(Connection(s, t, steps))
      ensures forall k :: k != (s, t) ==> Lookup(connections, k) == Lookup(old(connections), k)
    {
      StoreLookup(connections, (s, t), Connection(s, t, steps));
      StoreKeys(connections, (s, t), Connection(s, t, steps));
      StoreCorridor(plan, connections, (s, t), Connection(s, t, steps));
      forall k | k != (s, t)
        ensures Lookup(Store(connections, (s, t), Connection(s, t, steps)), k) == Lookup(connections, k)
      {
        StoreLookupOther(connections, (s, t), Connection(s, t, steps), k);
      }
      connections := Store(connections, (s, t), Connection(s, t, steps));
    }

    /** `explore`: follow the corridor from the end of path while there is
      exactly one way on, counting steps. Reaching the bottom gap records
      the corridor; reaching a junction records it, unless the pair is
      known already, and explores every way out; a dead end records
      nothing. Keys are only added, and a corridor that does not end at
      the bottom gap, once recorded, is never changed. Every connection
      recorded is a corridor of the plan. */
    method Explore(path0: seq<Pos>, from: Option<Pos>)
      requires Valid() && path0 != [] && OnPlan(plan, path0)
      requires from.Some? ==> InBounds(plan, from.value) && from.value in path0 && Adjacent(from.value, Tip(path0))
      modifies this
      ensures Valid() && KeysOf(old(connections)) <= KeysOf(connections)
      ensures forall k :: k in KeysOf(old(connections)) && k.1 != plan.end ==>
        Lookup(connections, k) == Lookup(old(connections), k)
      decreases |Pairs(plan) - KeysOf(connections)|, 1
    {
      var start := if from.Some? then from.value else Tip(path0);
      var path := path0;
      var steps := 0;
      ghost var walk := [Tip(path0)];
      var exts := Extensions(plan, path);
      while exts != []
        invariant Valid() && path != [] && OnPlan(plan, path)
        invariant exts == Extensions(plan, path)
        invariant connections == old(connections)
        invariant WalkSoFar(plan, path0, from, path, walk, steps)
        decreases |Cells(plan) - Visited(path)|
      {
        if |exts| == 1 {
          StepOn(plan, path, exts[0]);
          WalkOn(plan, path0, from, path, walk, steps, exts[0]);
          walk := walk + exts[0];
          path := path + exts[0];
          steps := steps + 1;
          if Tip(path) == plan.end {
            WalkCorridor(plan, path0, from, path, walk, steps, start);
            Record(start, Tip(path), steps);
            return;
          }
        } else {
          WalkCorridor(plan, path0, from, path, walk, steps, start);
          Junction(start, path, steps, exts);
          return;
        }
        exts := Extensions(plan, path);
      }
    }

    /** A junction reached from start after steps: record the corridor and
      explore every way out, unless the pair is known already. */
    method Junction(start: Pos, path: seq<Pos>, steps: int, exts: seq<seq<Pos>>)
      requires Valid() && path != [] && OnPlan(plan, path) && InBounds(plan, start)
      requires exts == Extensions(plan, path) && Corridor(plan, Connection(start, Tip(path), steps))
      modifies this
      ensures Valid() && KeysOf(old(connections)) <= KeysOf(connections)
      ensures forall k :: k in KeysOf(old(connections)) && k.1 != plan.end ==>
        Lookup(connections, k) == Lookup(old(connections), k)
      decreases |Pairs(plan) - KeysOf(connections)|, 0
    {
      var key := (start, Tip(path));
      if Lookup(connections, key).None? {
        ghost var before := KeysOf(connections);
        Record(start, Tip(path), steps);
        FewerMissing(Pairs(plan), before, KeysOf(connections), key);
        assert forall i :: 0 <= i < |exts| ==> StepOff(plan, path, exts[i]);
        ExploreAll(path, exts);
      }
    }

    /** `for ext in extensions: explore(path + ext, path[-1])`, after the
      junction's key was recorded. */
    method ExploreAll(path: seq<Pos>, exts: seq<seq<Pos>>)
      requires Valid() && path != [] && OnPlan(plan, path)
      requires forall i :: 0 <= i < |exts| ==> StepOff(plan, path, exts[i])
      modifies this
      ensures Valid() && KeysOf(old(connections)) <= KeysOf(connections)
      ensures forall k :: k in KeysOf(old(connections)) && k.1 != plan.end ==>
        Lookup(connections, k) == Lookup(old(connections), k)
      decreases |Pairs(plan) - KeysOf(connections)|, 2
    {
      var i := 0;
      while i < |exts|
        invariant 0 <= i <= |exts|
        invariant Valid() && KeysOf(old(connections)) <= KeysOf(connections)
        invariant forall k :: k in KeysOf(old(connections)) && k.1 != plan.end ==>
          Lookup(connections, k) == Lookup(old(connections), k)
      {
        MissingShrinks(Pairs(plan), KeysOf(old(connections)), KeysOf(connections));
        WayOut(plan, path, exts[i]);
        Explore(path + exts[i], Some(Tip(path)));
        i := i + 1;
      }
    }
  }

  /** A way out of a junction starts next to it, on the plan. */
  lemma WayOut(p: Plan, path: seq<Pos>, ext: seq<Pos>)
    requires path != [] && OnPlan(p, path) && StepOff(p, path, ext)
    ensures path + ext != [] && OnPlan(p, path + ext)
    ensures InBounds(p, Tip(path)) && Tip(path) in path + ext && Adjacent(Tip(path), Tip(path + ext))
  {
    OnPlanAppend(p, path, ext);
    assert (path + ext)[|path| - 1] == Tip(path);
  }

  /** The walk `explore` has taken so far: from the end of path0, steps
      steps to the end of path, away from the junction it started next to. */
  ghost predicate WalkSoFar(p: Plan, path0: seq<Pos>, from: Option<Pos>, path: seq<Pos>, walk: seq<Pos>, steps: int)
  {
    OpenWalk(p, walk) && |walk| == steps + 1 && path0 != [] && walk[0] == Tip(path0) && Tip(walk) == Tip(path) &&
    (from.Some? ==> from.value in path && from.value !in walk)
  }

  /** One more step along the corridor keeps the walk open and away from
      the junction it started next to. */
  lemma WalkOn(p: Plan, path0: seq<Pos>, from: Option<Pos>, path: seq<Pos>, walk: seq<Pos>, steps: int, ext: seq<Pos>)
    requires path != [] && StepOff(p, path, ext) && WalkSoFar(p, path0, from, path, walk, steps)
    ensures WalkSoFar(p, path0, from, path + ext, walk + ext, steps + 1)
  {
    var w := walk + ext;
    assert w[|walk|] == ext[0] && w[|walk| - 1] == Tip(walk);
    assert forall i :: 0 <= i < |walk| ==> w[i] == walk[i];
  }

  /** The walk so far is a corridor from where `explore` started. */
  lemma WalkCorridor(p: Plan, path0: seq<Pos>, from: Option<Pos>, path: seq<Pos>, walk: seq<Pos>, steps: int,
                     start: Pos)
    requires WalkSoFar(p, path0, from, path, walk, steps)
    requires from.Some? ==> Adjacent(from.value, Tip(path0))
    requires start == if from.Some? then from.value else Tip(path0)
    ensures Corridor(p, Connection(start, Tip(path), steps))
  {
    assert CorridorWalk(p, Connection(start, Tip(path), steps), walk);
  }

  // ---------------------------------------------------------------------
  // Both directions of every corridor

  /** The keys of d in insertion order: `list(connections.keys())`. */
  function KeyList(d: seq<Entry>): (ks: seq<(Pos, Pos)>)
    ensures |ks| == |d| && forall i :: 0 <= i < |d| ==> ks[i] == d[i].key
  {
    seq(|d|, i requires 0 <= i < |d| => d[i].key)
  }

  /** The connection for Rev(k) is the reverse of the one for k. */
  predicate Consistent(d: seq<Entry>, k: (Pos, Pos))
  {
    Lookup(d, k).Some? && Lookup(d, Rev(k)) == Some(Reversed(Lookup(d, k).value))
  }

  /** Each key's reverse is a key too, with the reversed connection. */
  predicate Symmetric(d: seq<Entry>)
  {
    forall k {:trigger Consistent(d, k)} :: k in KeysOf(d) ==> Consistent(d, k)
  }

  /** The reverses of the keys in S. */
  function RevSet(S: set<(Pos, Pos)>): set<(Pos, Pos)>
  {
    set k | k in S :: Rev(k)
  }

  /** A key of d whose reverse is not a key of d has its connection in r. */
  predicate Kept(r: seq<Entry>, d: seq<Entry>)
  {
    forall j {:trigger Lookup(r, d[j].key)} :: 0 <= j < |d| && Rev(d[j].key) !in KeysOf(d) ==> Lookup(r, d[j].key) == Some(d[j].conn)
  }

  /** Consistency runs both ways. */
  lemma ConsistentRev(d: seq<Entry>, k: (Pos, Pos))
    requires Consistent(d, k)
    ensures Consistent(d, Rev(k))
  {
    assert Rev(Rev(k)) == k;
  }

  /** Storing the reverse of k's connection under Rev(k) makes k consistent
      and keeps every consistent key consistent. */
  lemma ReverseKeepsConsistent(d: seq<Entry>, k: (Pos, Pos), c: Connection, k': (Pos, Pos))
    requires DistinctKeys(d) && KeyedRight(d) && Lookup(d, k) == Some(c)
    requires k' == k || Consistent(d, k')
    ensures Consistent(Store(d, Rev(k), Reversed(c)), k')
  {
    StoreLookup(d, Rev(k), Reversed(c));
    if Rev(k) != k {
      StoreLookupOther(d, Rev(k), Reversed(c), k);
    }
    if k' != k && k' != Rev(k) {
      StoreLookupOther(d, Rev(k), Reversed(c), k');
      StoreLookupOther(d, Rev(k), Reversed(c), Rev(k'));
    }
  }

  /** What holds of r after the first i keys of d were reversed into it,
      with the reversed keys added to its keys. */
  ghost predicate Reversing(r: seq<Entry>, d: seq<Entry>, i: int)
  {
    0 <= i <= |d| && DistinctKeys(r) && KeyedRight(r) && Kept(r, d)
    && KeysOf(r) == KeysOf(d) + RevKeys(d, i)
    && (forall j {:trigger Consistent(r, d[j].key)} :: 0 <= j < i ==> Consistent(r, d[j].key))
  }

  /** The reverses of the first i keys of d. */
  function RevKeys(d: seq<Entry>, i: int): set<(Pos, Pos)>
    requires 0 <= i <= |d|
  {
    set j | 0 <= j < i :: Rev(d[j].key)
  }

  /** Reversing the (i+1)-th key keeps the above. */
  lemma ReversingStep(r: seq<Entry>, d: seq<Entry>, i: int)
    requires Reversing(r, d, i) && i < |d|
    ensures d[i].key in KeysOf(r)
    ensures Reversing(Store(r, Rev(d[i].key), Reversed(Lookup(r, d[i].key).value)), d, i + 1)
  {
    var k := d[i].key;
    assert k in KeysOf(d);
    var c := Lookup(r, k).value;
    StoreKeys(r, Rev(k), Reversed(c));
    RevKeysNext(d, i);
    UnionStep(KeysOf(d), RevKeys(d, i), RevKeys(d, i + 1), KeysOf(r), KeysOf(Store(r, Rev(k), Reversed(c))), Rev(k));
    StepConsistent(r, d, i, c, Store(r, Rev(k), Reversed(c)));
    StepKept(r, d, i, c);
  }

  lemma UnionStep<T>(A: set<T>, B: set<T>, B': set<T>, R: set<T>, R': set<T>, x: T)
    requires R == A + B && R' == R + {x} && B' == B + {x}
    ensures R' == A + B'
  {
  }

  lemma StepConsistent(r: seq<Entry>, d: seq<Entry>, i: int, c: Connection, r': seq<Entry>)
    requires DistinctKeys(r) && KeyedRight(r) && 0 <= i < |d| && Lookup(r, d[i].key) == Some(c)
    requires r' == Store(r, Rev(d[i].key), Reversed(c))
    requires forall j {:trigger Consistent(r, d[j].key)} :: 0 <= j < i ==> Consistent(r, d[j].key)
    ensures forall j {:trigger Consistent(r', d[j].key)} :: 0 <= j <= i ==> Consistent(r', d[j].key)
  {
    forall j | 0 <= j <= i
      ensures Consistent(r', d[j].key)
    {
      ReverseKeepsConsistent(r, d[i].key, c, d[j].key);
    }
  }

  lemma StepKept(r: seq<Entry>, d: seq<Entry>, i: int, c: Connection)
    requires DistinctKeys(r) && Kept(r, d) && 0 <= i < |d|
    ensures Kept(Store(r, Rev(d[i].key), Reversed(c)), d)
  {
    var k := d[i].key;
    var r' := Store(r, Rev(k), Reversed(c));
    forall j | 0 <= j < |d| && Rev(d[j].key) !in KeysOf(d)
      ensures Lookup(r', d[j].key) == Some(d[j].conn)
    {
      StoreLookupOther(r, Rev(k), Reversed(c), d[j].key);
    }
  }

  lemma RevKeysNext(d: seq<Entry>, i: int)
    requires 0 <= i < |d|
    ensures RevKeys(d, i + 1) == RevKeys(d, i) + {Rev(d[i].key)}
  {
    forall x | x in RevKeys(d, i + 1)
      ensures x in RevKeys(d, i) + {Rev(d[i].key)}
    {
      var j :| 0 <= j < i + 1 && x == Rev(d[j].key);
      if j < i {
        assert x in RevKeys(d, i);
      }
    }
  }

  /** Once every key is reversed, each key of r is consistent. */
  lemma ConsistentAt(r: seq<Entry>, d: seq<Entry>, k: (Pos, Pos))
    requires Reversing(r, d, |d|) && k in KeysOf(r)
    ensures Consistent(r, k)
  {
    if k in KeysOf(d) {
      var j :| 0 <= j < |d| && d[j].key == k;
      assert Consistent(r, d[j].key);
    } else {
      assert k in RevKeys(d, |d|);
      var j :| 0 <= j < |d| && k == Rev(d[j].key);
      assert Consistent(r, d[j].key);
      ConsistentRev(r, d[j].key);
    }
  }

  /** Once every key is reversed, r is symmetric and its keys are d's and
      their reverses. */
  lemma ReversingDone(r: seq<Entry>, d: seq<Entry>)
    requires Reversing(r, d, |d|)
    ensures Symmetric(r)
    ensures KeysOf(r) == KeysOf(d) + RevSet(KeysOf(d))
  {
    forall k | k in KeysOf(r)
      ensures Consistent(r, k)
    {
      ConsistentAt(r, d, k);
    }
    forall x | x in RevSet(KeysOf(d))
      ensures x in RevKeys(d, |d|)
    {
      var k :| k in KeysOf(d) && x == Rev(k);
      var j :| 0 <= j < |d| && d[j].key == k;
    }
  }

  /** `for (s, e) in list(connections.keys()): connections[(e, s)] =
      connections[(s, e)].reversed()`: afterwards every corridor can be
      taken both ways, the keys are the old ones and their reverses, and a
      corridor found in one direction only keeps its connection. */
  method Symmetrise(d: seq<Entry>) returns (r: seq<Entry>)
    requires DistinctKeys(d) && KeyedRight(d)
    ensures DistinctKeys(r) && KeyedRight(r) && Symmetric(r)
    ensures KeysOf(r) == KeysOf(d) + RevSet(KeysOf(d))
    ensures Kept(r, d)
  {
    var ks := KeyList(d);
    r := d;
    var i := 0;
    forall j | 0 <= j < |d|
      ensures Lookup(r, d[j].key) == Some(d[j].conn)
    {
      LookupAt(d, j);
    }
    while i < |ks|
      invariant Reversing(r, d, i)
    {
      ReversingStep(r, d, i);
      var c := Lookup(r, ks[i]).value;
      r := Store(r, Rev(ks[i]), Reversed(c));
      i := i + 1;
    }
    ReversingDone(r, d);
  }

  /** `extract_connections`: the corridors found from the top gap, each
      one also reversed. */
  method ExtractConnections(p: Plan) returns (conns: seq<Entry>)
    requires ValidPlan(p)
    ensures DistinctKeys(conns) && KeyedRight(conns) && Symmetric(conns)
    ensures KeysOf(conns) <= Pairs(p)
    ensures forall k :: k in KeysOf(conns) ==> Joined(p, k.0, k.1) || Joined(p, k.1, k.0)
  {
    var explorer := new Explorer(p);
    explorer.Explore([p.start], None);
    var found := explorer.connections;
    conns := Symmetrise(found);
    forall k | k in KeysOf(conns)
      ensures k in Pairs(p) && (Joined(p, k.0, k.1) || Joined(p, k.1, k.0))
    {
      if k !in KeysOf(found) {
        var k0 :| k0 in KeysOf(found) && k == Rev(k0);
        FoundJoined(p, found, k0);
      } else {
        FoundJoined(p, found, k);
      }
    }
  }

  /** A corridor of some length joins a to b. */
  ghost predicate Joined(p: Plan, a: Pos, b: Pos)
  {
    exists n :: Corridor(p, Connection(a, b, n))
  }

  lemma FoundJoined(p: Plan, found: seq<Entry>, k: (Pos, Pos))
    requires KeyedRight(found) && AllCorridors(p, found) && k in KeysOf(found)
    ensures Joined(p, k.0, k.1)
  {
    var c := Lookup(found, k).value;
    assert Corridor(p, Connection(k.0, k.1, c.distance));
  }

  // ---------------------------------------------------------------------
  // Search over the junction graph

  /** The (source, target) pairs the connections join. */
  function Links(conns: seq<Entry>): set<(Pos, Pos)>
  {
    set j | 0 <= j < |conns| :: (conns[j].key.0, conns[j].conn.target)
  }

  /** `[conn for (s, e), conn in conns.items() if s == pos]`. */
  function Outgoing(conns: seq<Entry>, pos: Pos): (r: seq<Connection>)
    ensures forall i :: 0 <= i < |r| ==> (pos, r[i].target) in Links(conns)
    ensures forall j :: 0 <= j < |conns| && conns[j].key.0 == pos ==> conns[j].conn in r
  {
    if conns == [] then []
    else
      assert forall j :: 0 <= j < |conns| - 1 ==> conns[1..][j] == conns[j + 1];
      assert Links(conns[1..]) <= Links(conns);
      (if conns[0].key.0 == pos then [conns[0].conn] else []) + Outgoing(conns[1..], pos)
  }

  /** A path of the junction search: from the top gap, through distinct
      positions, each joined to the next by a connection. */
  ghost predicate Route(p: Plan, conns: seq<Entry>, path: seq<Pos>)
  {
    path != [] && path[0] == p.start
    && (forall i, j :: 0 <= i < j < |path| ==> path[i] != path[j])
    && (forall i :: 0 <= i < |path| - 1 ==> (path[i], path[i + 1]) in Links(conns))
  }

  lemma RouteExtend(p: Plan, conns: seq<Entry>, path: seq<Pos>, t: Pos)
    requires Route(p, conns, path) && t !in path && (Tip(path), t) in Links(conns)
    ensures Route(p, conns, path + [t])
  {
    var w := path + [t];
    forall i | 0 <= i < |w| - 1
      ensures (w[i], w[i + 1]) in Links(conns)
    {
      if i < |path| - 1 {
        assert w[i] == path[i] && w[i + 1] == path[i + 1];
      }
    }
  }

  /** w is path taken one connection further. */
  ghost predicate Child(p: Plan, conns: seq<Entry>, path: seq<Pos>, w: seq<Pos>)
  {
    Route(p, conns, w) && |w| == |path| + 1 && w[..|path|] == path
  }

  /** The paths pushed for one popped path: it followed by each outgoing
      connection's target that is not on it yet, in the dict's order. */
  method Successors(p: Plan, conns: seq<Entry>, path: seq<Pos>) returns (next: seq<seq<Pos>>)
    requires Route(p, conns, path)
    ensures forall w :: w in next ==> Child(p, conns, path, w)
    ensures forall t :: (Tip(path), t) in Links(conns) && t !in path ==> path + [t] in next
  {
    var nexts := Outgoing(conns, Tip(path));
    next := [];
    var i := 0;
    while i < |nexts|
      invariant 0 <= i <= |nexts|
      invariant forall w :: w in next ==> Child(p, conns, path, w)
      invariant forall k :: 0 <= k < i && nexts[k].target !in path ==> path + [nexts[k].target] in next
    {
      if nexts[i].target !in path {
        Push(p, conns, path, nexts[i].target);
        next := next + [path + [nexts[i].target]];
      }
      i := i + 1;
    }
    forall t | (Tip(path), t) in Links(conns) && t !in path
      ensures path + [t] in next
    {
      var j :| 0 <= j < |conns| && (conns[j].key.0, conns[j].conn.target) == (Tip(path), t);
      var k :| 0 <= k < |nexts| && nexts[k] == conns[j].conn;
    }
  }

  lemma Push(p: Plan, conns: seq<Entry>, path: seq<Pos>, t: Pos)
    requires Route(p, conns, path) && t !in path && (Tip(path), t) in Links(conns)
    ensures Child(p, conns, path, path + [t])
  {
    RouteExtend(p, conns, path, t);
    assert (path + [t])[..|path|] == path;
  }

  /** `dfs_connections`: pop the newest path; yield it when it reaches the
      bottom gap, otherwise push its successors. Each yielded path is a
      route from the top gap to the bottom one. The search stops after
      `fuel` rounds; `finished` says whether the stack ran empty. */
  method DfsConnections(p: Plan, conns: seq<Entry>, fuel: nat) returns (found: seq<seq<Pos>>, finished: bool)
    ensures forall path :: path in found ==> Route(p, conns, path) && Tip(path) == p.end
    ensures finished ==> forall path :: Route(p, conns, path) && Tip(path) == p.end ==> path in found
  {
    var stack := [[p.start]];
    found := [];
    var rounds := 0;
    forall w | Route(p, conns, w) && Tip(w) == p.end
      ensures exists q :: q in stack && q <= w
    {
      assert w[..1] == [p.start];
      assert [p.start] in stack && [p.start] <= w;
    }
    while stack != [] && rounds < fuel
      invariant forall path :: path in stack ==> Route(p, conns, path)
      invariant forall path :: path in found ==> Route(p, conns, path) && Tip(path) == p.end
      invariant RoutesPending(p, conns, stack, found)
      decreases fuel - rounds
    {
      var path := stack[|stack| - 1];
      var rest := stack[..|stack| - 1];
      assert stack == rest + [path];
      stack := rest;
      if Tip(path) == p.end {
        RoutesPendingFound(p, conns, rest, path, found);
        found := found + [path];
      } else {
        var next := Successors(p, conns, path);
        RoutesPendingBranch(p, conns, rest, path, found, next);
        stack := stack + next;
      }
      rounds := rounds + 1;
    }
    finished := stack == [];
  }

  /** Every route from the entry to the exit has been yielded or begins
      with a path still on the stack. */
  ghost predicate RoutesPending(p: Plan, conns: seq<Entry>, stack: seq<seq<Pos>>, found: seq<seq<Pos>>)
  {
    forall w :: Route(p, conns, w) && Tip(w) == p.end ==> w in found || exists q :: q in stack && q <= w
  }

  /** A popped path at the exit is the only route to the exit it begins:
      a route passes the exit at most once. */
  lemma RoutesPendingFound(p: Plan, conns: seq<Entry>, rest: seq<seq<Pos>>, q: seq<Pos>, found: seq<seq<Pos>>)
    requires RoutesPending(p, conns, rest + [q], found) && Route(p, conns, q) && Tip(q) == p.end
    ensures RoutesPending(p, conns, rest, found + [q])
  {
    forall w | Route(p, conns, w) && Tip(w) == p.end
      ensures w in found + [q] || exists q' :: q' in rest && q' <= w
    {
      if w !in found && !exists q' :: q' in rest && q' <= w {
        assert q <= w by {
          var q' :| q' in rest + [q] && q' <= w;
        }
        assert w[|q| - 1] == w[|w| - 1];
        assert |q| == |w|;
        assert q == w;
      }
    }
  }

  /** A popped path short of the exit: each route it begins continues with
      one of its successors. */
  lemma RoutesPendingBranch(p: Plan, conns: seq<Entry>, rest: seq<seq<Pos>>, q: seq<Pos>, found: seq<seq<Pos>>,
                            next: seq<seq<Pos>>)
    requires RoutesPending(p, conns, rest + [q], found) && Route(p, conns, q) && Tip(q) != p.end
    requires forall t :: (Tip(q), t) in Links(conns) && t !in q ==> q + [t] in next
    ensures RoutesPending(p, conns, rest + next, found)
  {
    forall w | Route(p, conns, w) && Tip(w) == p.end
      ensures w in found || exists q' :: q' in rest + next && q' <= w
    {
      if exists q' :: q' in rest && q' <= w {
        var q' :| q' in rest && q' <= w;
        assert q' in rest + next;
      } else if w !in found {
        assert q <= w by {
          var q' :| q' in rest + [q] && q' <= w;
        }
        assert |q| < |w|;
        var t := w[|q|];
        assert (w[|q| - 1], w[|q|]) in Links(conns);
        assert t !in q by {
          forall i | 0 <= i < |q| ensures q[i] != t {
            assert q[i] == w[i];
          }
        }
        assert q + [t] <= w;
        assert q + [t] in rest + next;
      }
    }
  }

  // ---------------------------------------------------------------------
  // Answers

  /** The number of steps of each path: `len(path) - 1`. */
  function StepsOf(found: seq<seq<Pos>>): (r: seq<int>)
    ensures |r| == |found| && forall i :: 0 <= i < |found| ==> r[i] == |found[i]| - 1
  {
    seq(|found|, i requires 0 <= i < |found| => |found[i]| - 1)
  }

  /** `day23a`: the most steps of a walk the slope search finds from the
      top gap to the bottom one. None when the plan does not parse, when a
      move raises, when no walk is found (`max` of nothing raises) or when
      the search runs out of fuel. */
  method Day23A(lines: seq<string>, fuel: nat) returns (r: Option<int>)
    ensures r.Some? ==> exists p, w :: MakePlan(lines) == Some(p) && Walk(p, w) && Tip(w) == p.end && r.value == |w| - 1
  {
    var plan := MakePlan(lines);
    if plan.None? || !ValidPlan(plan.value) {
      return None;
    }
    var found, run := Bfs(plan.value, fuel);
    if run != Finished || found == [] {
      return None;
    }
    var steps := MaxOf(StepsOf(found));
    var i :| 0 <= i < |found| && StepsOf(found)[i] == steps;
    assert found[i] in found;
    r := Some(steps);
  }

  /** `sum(conns[k].distance + 1 for k in pairwise(path))`: None when a
      pair is not a key (a KeyError). */
  function RouteSteps(conns: seq<Entry>, path: seq<Pos>): Option<int>
  {
    if |path| < 2 then Some(0)
    else
      match Lookup(conns, (path[0], path[1]))
      case None => None
      case Some(c) =>
        match RouteSteps(conns, path[1..])
        case None => None
        case Some(rest) => Some(c.distance + 1 + rest)
  }

  /** Along a route every pair is a key when each connection runs along its
      key, so the sum raises no KeyError. */
  lemma {:induction false} RouteStepsDefined(conns: seq<Entry>, path: seq<Pos>)
    requires KeyedRight(conns)
    requires forall i :: 0 <= i < |path| - 1 ==> (path[i], path[i + 1]) in Links(conns)
    ensures RouteSteps(conns, path).Some?
    decreases |path|
  {
    if |path| >= 2 {
      var j :| 0 <= j < |conns| && (conns[j].key.0, conns[j].conn.target) == (path[0], path[1]);
      assert conns[j].key == (path[0], path[1]);
      assert forall i :: 0 <= i < |path| - 1 ==> path[1..][i] == path[i + 1];
      RouteStepsDefined(conns, path[1..]);
    }
  }

  /** `day23b`'s loop: the most steps over the found routes, at least 0
      (`max_so_far` starts at 0). */
  method LongestRoute(conns: seq<Entry>, found: seq<seq<Pos>>) returns (best: int)
    requires forall i :: 0 <= i < |found| ==> RouteSteps(conns, found[i]).Some?
    ensures best >= 0
    ensures forall i :: 0 <= i < |found| ==> RouteSteps(conns, found[i]).value - 1 <= best
    ensures best == 0 || exists i :: 0 <= i < |found| && best == RouteSteps(conns, found[i]).value - 1
  {
    best := 0;
    var n := 0;
    while n < |found|
      invariant 0 <= n <= |found| && best >= 0
      invariant forall i :: 0 <= i < n ==> RouteSteps(conns, found[i]).value - 1 <= best
      invariant best == 0 || exists i :: 0 <= i < n && best == RouteSteps(conns, found[i]).value - 1
    {
      var length := RouteSteps(conns, found[n]).value - 1;
      if length > best {
        best := length;
      }
      n := n + 1;
    }
  }

  /** `day23b`: the most steps of a route through the junction graph from
      the top gap to the bottom one, 0 when there is none. None when the
      plan does not parse or the search runs out of fuel. */
  method Day23B(lines: seq<string>, fuel: nat) returns (r: Option<int>)
    ensures r.Some? ==> r.value >= 0
    ensures r.Some? ==> exists p :: MakePlan(lines) == Some(p) && ValidPlan(p)
  {
    var plan := MakePlan(lines);
    if plan.None? || !ValidPlan(plan.value) {
      return None;
    }
    var conns := ExtractConnections(plan.value);
    var found, finished := DfsConnections(plan.value, conns, fuel);
    if !finished {
      return None;
    }
    forall i | 0 <= i < |found|
      ensures RouteSteps(conns, found[i]).Some?
    {
      assert found[i] in found;
      RouteStepsDefined(conns, found[i]);
    }
    var best := LongestRoute(conns, found);
    r := Some(best);
  }
}
