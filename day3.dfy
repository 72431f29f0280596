/** Engine schematic (day3.py): numbers in the grid are parts, every other
    symbol except '.' is a spigot; a part counts when a spigot touches it,
    and a '*' touching exactly two parts is a gear. */
module Day3 {
  import opened Common

  datatype Pos = Pos(x: int, y: int)

  /** A run of digits in row `left.y`, from column `left.x` to `right.x`. */
  datatype Part = Part(left: Pos, right: Pos, value: nat)

  datatype Spigot = Spigot(pos: Pos, value: char)

  /** Every part spans at least one cell of a single row. */
  predicate WellFormed(p: Part)
  {
    p.left.y == p.right.y && p.left.x <= p.right.x
  }

  /** The cells of row y from column a up to, not including, b. */
  function RowCells(y: int, a: int, b: int): (r: seq<Pos>)
    requires a <= b
    ensures |r| == b - a && forall k :: 0 <= k < |r| ==> r[k] == Pos(a + k, y)
    decreases b - a
  {
    if a == b then [] else RowCells(y, a, b - 1) + [Pos(b - 1, y)]
  }

  /** The cells `Part.__init__` puts in the halo: the row above and the row
      below, one column wider on each side, and the cell at each end. */
  function HaloCells(p: Part): seq<Pos>
    requires WellFormed(p)
  {
    var y, a, b := p.left.y, p.left.x - 1, p.right.x + 2;
    RowCells(y - 1, a, b) + RowCells(y + 1, a, b) + [Pos(p.left.x - 1, y), Pos(p.right.x + 1, y)]
  }

  /** `Part.halo`. */
  function Halo(p: Part): set<Pos>
    requires WellFormed(p)
  {
    set q | q in HaloCells(p)
  }

  /** The cells within one step of the run, diagonals included. */
  predicate Near(p: Part, q: Pos)
  {
    p.left.x - 1 <= q.x <= p.right.x + 1 && p.left.y - 1 <= q.y <= p.left.y + 1
  }

  /** The cells of the run itself. */
  predicate OnRun(p: Part, q: Pos)
  {
    q.y == p.left.y && p.left.x <= q.x <= p.right.x
  }

  /** The halo is exactly the cells next to the run, diagonals included, and
      not on it. */
  lemma HaloAdjacent(p: Part, q: Pos)
    requires WellFormed(p)
    ensures q in Halo(p) <==> Near(p, q) && !OnRun(p, q)
  {
    var y, a, b := p.left.y, p.left.x - 1, p.right.x + 2;
    var up, down := RowCells(y - 1, a, b), RowCells(y + 1, a, b);
    assert HaloCells(p) == up + down + [Pos(p.left.x - 1, y), Pos(p.right.x + 1, y)];
    if Near(p, q) && !OnRun(p, q) {
      if q.y == y - 1 {
        assert up[q.x - a] == q;
      } else if q.y == y + 1 {
        assert down[q.x - a] == q;
      }
    }
  }

  /** The halo cells are all distinct. */
  lemma HaloCellsDistinct(p: Part)
    requires WellFormed(p)
    ensures forall i, j :: 0 <= i < j < |HaloCells(p)| ==> HaloCells(p)[i] != HaloCells(p)[j]
  {
    var y, a, b := p.left.y, p.left.x - 1, p.right.x + 2;
    var up, down := RowCells(y - 1, a, b), RowCells(y + 1, a, b);
    var cells := HaloCells(p);
    assert cells == up + down + [Pos(p.left.x - 1, y), Pos(p.right.x + 1, y)];
    forall i, j | 0 <= i < j < |cells|
      ensures cells[i] != cells[j]
    {
      var n := b - a;
      if j < n {
        assert cells[i] == up[i] && cells[j] == up[j];
      } else if i >= n && j < 2 * n {
        assert cells[i] == down[i - n] && cells[j] == down[j - n];
      } else if i < n {
        assert cells[i].y == y - 1 && cells[j].y != y - 1;
      } else if i < 2 * n {
        assert cells[i].y == y + 1 && cells[j].y == y;
      }
    }
  }

  /** A sequence of distinct elements has as many elements as its set. */
  lemma {:induction false} DistinctCard<T>(s: seq<T>)
    requires forall i, j :: 0 <= i < j < |s| ==> s[i] != s[j]
    ensures |set x | x in s| == |s|
  {
    if s != [] {
      var init := s[..|s| - 1];
      DistinctCard(init);
      var last := s[|s| - 1];
      assert (set x | x in s) == (set x | x in init) + {last};
      assert forall i :: 0 <= i < |init| ==> init[i] == s[i] && s[i] != last;
    }
  }

  /** A part of length len has a halo of 2 (len + 2) + 2 cells. */
  lemma HaloSize(p: Part)
    requires WellFormed(p)
    ensures |Halo(p)| == 2 * ((p.right.x - p.left.x + 1) + 2) + 2
  {
    HaloCellsDistinct(p);
    DistinctCard(HaloCells(p));
  }

  // ---------------------------------------------------------------------
  // Reading the grid

  /** The runs of `re.finditer(r'\d+', line)` starting at or after i, as
      (start, end) pairs: each is a maximal run of digits. */
  function DigitRuns(line: string, i: nat): seq<(nat, nat)>
    requires i <= |line| && (i == 0 || !IsDigit(line[i - 1]))
    decreases |line| - i
  {
    if i == |line| then []
    else if !IsDigit(line[i]) then DigitRuns(line, i + 1)
    else
      var e := DigitRunEnd(line, i);
      if e == |line| then [(i, e)] else [(i, e)] + DigitRuns(line, e + 1)
  }

  /** Every run (a, b) lies in the line from i on and holds only digits. */
  predicate RunsInside(line: string, i: nat, r: seq<(nat, nat)>)
  {
    forall k :: 0 <= k < |r| ==> i <= r[k].0 < r[k].1 <= |line| && AllDigits(line[r[k].0..r[k].1])
  }

  /** No run can be extended by a digit on either side. */
  predicate RunsMaximal(line: string, r: seq<(nat, nat)>)
  {
    forall k :: 0 <= k < |r| && r[k].0 <= |line| && r[k].1 <= |line| ==>
      (r[k].0 == 0 || !IsDigit(line[r[k].0 - 1])) && (r[k].1 == |line| || !IsDigit(line[r[k].1]))
  }

  /** Each run is a maximal block of digits inside the line. */
  lemma DigitRunsMaximal(line: string, i: nat)
    requires i <= |line| && (i == 0 || !IsDigit(line[i - 1]))
    ensures RunsInside(line, i, DigitRuns(line, i)) && RunsMaximal(line, DigitRuns(line, i))
  {
    DigitRunsInside(line, i);
    DigitRunsEdges(line, i);
  }

  lemma {:induction false} DigitRunsInside(line: string, i: nat)
    requires i <= |line| && (i == 0 || !IsDigit(line[i - 1]))
    ensures RunsInside(line, i, DigitRuns(line, i))
    decreases |line| - i
  {
    if i < |line| {
      if !IsDigit(line[i]) {
        assert DigitRuns(line, i) == DigitRuns(line, i + 1);
        DigitRunsInside(line, i + 1);
      } else {
        var e := DigitRunEnd(line, i);
        if e < |line| {
          DigitRunsInside(line, e + 1);
          var rest := DigitRuns(line, e + 1);
          var r := DigitRuns(line, i);
          assert r == [(i, e)] + rest;
          forall k | 0 < k < |r|
            ensures r[k] == rest[k - 1]
          {
          }
        } else {
          assert DigitRuns(line, i) == [(i, e)];
        }
      }
    }
  }

  /** A run bounded by non-digits, put in front of maximal runs, keeps
      them all maximal. */
  lemma MaximalCons(line: string, run: (nat, nat), rest: seq<(nat, nat)>)
    requires RunsMaximal(line, rest)
    requires run.0 == 0 || (run.0 <= |line| && !IsDigit(line[run.0 - 1]))
    requires run.1 == |line| || (run.1 < |line| && !IsDigit(line[run.1]))
    ensures RunsMaximal(line, [run] + rest)
  {
    var r := [run] + rest;
    forall k | 0 < k < |r|
      ensures r[k] == rest[k - 1]
    {
    }
  }

  lemma {:induction false} DigitRunsEdges(line: string, i: nat)
    requires i <= |line| && (i == 0 || !IsDigit(line[i - 1]))
    ensures RunsMaximal(line, DigitRuns(line, i))
    decreases |line| - i
  {
    if i < |line| {
      if !IsDigit(line[i]) {
        assert DigitRuns(line, i) == DigitRuns(line, i + 1);
        DigitRunsEdges(line, i + 1);
      } else {
        var e := DigitRunEnd(line, i);
        if e < |line| {
          DigitRunsEdges(line, e + 1);
          MaximalCons(line, (i, e), DigitRuns(line, e + 1));
        } else {
          assert DigitRuns(line, i) == [(i, e)];
        }
      }
    }
  }

  /** A run ending before the first of some ordered runs keeps them ordered. */
  lemma OrderedCons(run: (nat, nat), rest: seq<(nat, nat)>)
    requires forall k :: 0 <= k < |rest| - 1 ==> rest[k].1 < rest[k + 1].0
    requires rest != [] ==> run.1 < rest[0].0
    ensures var r := [run] + rest; forall k :: 0 <= k < |r| - 1 ==> r[k].1 < r[k + 1].0
  {
    var r := [run] + rest;
    forall k | 0 < k < |r|
      ensures r[k] == rest[k - 1]
    {
    }
  }

  lemma {:induction false} DigitRunsOrdered(line: string, i: nat)
    requires i <= |line| && (i == 0 || !IsDigit(line[i - 1]))
    ensures forall k :: 0 <= k < |DigitRuns(line, i)| - 1 ==> DigitRuns(line, i)[k].1 < DigitRuns(line, i)[k + 1].0
    decreases |line| - i
  {
    if i < |line| {
      if !IsDigit(line[i]) {
        assert DigitRuns(line, i) == DigitRuns(line, i + 1);
        DigitRunsOrdered(line, i + 1);
      } else {
        var e := DigitRunEnd(line, i);
        if e < |line| {
          DigitRunsOrdered(line, e + 1);
          DigitRunsInside(line, e + 1);
          OrderedCons((i, e), DigitRuns(line, e + 1));
        }
      }
    }
  }

  /** Every digit from i on lies in one of the runs. */
  lemma {:induction false} DigitRunsCover(line: string, i: nat, x: nat)
    requires i <= x < |line| && (i == 0 || !IsDigit(line[i - 1])) && IsDigit(line[x])
    ensures exists k :: 0 <= k < |DigitRuns(line, i)| && DigitRuns(line, i)[k].0 <= x < DigitRuns(line, i)[k].1
    decreases |line| - i
  {
    if !IsDigit(line[i]) {
      assert DigitRuns(line, i) == DigitRuns(line, i + 1);
      DigitRunsCover(line, i + 1, x);
    } else {
      var e := DigitRunEnd(line, i);
      if x < e {
        assert DigitRuns(line, i)[0] == (i, e);
      } else {
        assert e < |line| && x != e;
        DigitRunsCover(line, e + 1, x);
        CoverCons((i, e), DigitRuns(line, e + 1), x);
      }
    }
  }

  lemma CoverCons(run: (nat, nat), rest: seq<(nat, nat)>, x: nat)
    requires exists k :: 0 <= k < |rest| && rest[k].0 <= x < rest[k].1
    ensures exists k :: 0 <= k < |[run] + rest| && ([run] + rest)[k].0 <= x < ([run] + rest)[k].1
  {
    var k :| 0 <= k < |rest| && rest[k].0 <= x < rest[k].1;
    assert ([run] + rest)[k + 1] == rest[k];
  }

  /** `Part(row, match)` for the run [a, b) of the line. */
  function PartOf(row: int, line: string, run: (nat, nat)): (p: Part)
    requires run.0 < run.1 <= |line| && AllDigits(line[run.0..run.1])
    ensures WellFormed(p)
  {
    Part(Pos(run.0, row), Pos(run.1 - 1, row), DigitsValue(line[run.0..run.1]))
  }

  /** `to_parts`: a part for each run of digits, left to right. */
  function ToParts(row: int, line: string): (ps: seq<Part>)
    ensures forall k :: 0 <= k < |ps| ==> WellFormed(ps[k]) && ps[k].left.y == row
  {
    var runs := DigitRuns(line, 0);
    DigitRunsMaximal(line, 0);
    seq(|runs|, k requires 0 <= k < |runs| => PartOf(row, line, runs[k]))
  }

  /** A column of the line holds a digit exactly when one of the row's parts
      covers it; each part is a maximal run of digits and its value is their
      decimal reading. */
  lemma ToPartsCover(row: int, line: string, x: int)
    requires 0 <= x < |line|
    ensures IsDigit(line[x]) <==> exists p :: p in ToParts(row, line) && p.left.x <= x <= p.right.x
  {
    if IsDigit(line[x]) {
      DigitInPart(row, line, x);
    }
    forall p | p in ToParts(row, line) && p.left.x <= x <= p.right.x
      ensures IsDigit(line[x])
    {
      PartHoldsDigit(row, line, x, p);
    }
  }

  lemma DigitInPart(row: int, line: string, x: int)
    requires 0 <= x < |line| && IsDigit(line[x])
    ensures exists p :: p in ToParts(row, line) && p.left.x <= x <= p.right.x
  {
    var runs := DigitRuns(line, 0);
    var ps := ToParts(row, line);
    DigitRunsCover(line, 0, x);
    DigitRunsMaximal(line, 0);
    var k :| 0 <= k < |runs| && runs[k].0 <= x < runs[k].1;
    assert ps[k] == PartOf(row, line, runs[k]);
    assert ps[k] in ps && ps[k].left.x <= x <= ps[k].right.x;
  }

  lemma PartHoldsDigit(row: int, line: string, x: int, p: Part)
    requires 0 <= x < |line| && p in ToParts(row, line) && p.left.x <= x <= p.right.x
    ensures IsDigit(line[x])
  {
    var ps := ToParts(row, line);
    var k :| 0 <= k < |ps| && ps[k] == p;
    ToPartsRuns(row, line, k);
    DigitInRun(line, p.left.x, p.right.x + 1, x);
  }

  lemma DigitInRun(line: string, a: int, b: int, x: int)
    requires 0 <= a <= x < b <= |line| && AllDigits(line[a..b])
    ensures IsDigit(line[x])
  {
    assert line[x] == line[a..b][x - a];
  }

  /** Each part is a maximal run of digits and carries their value. */
  lemma ToPartsRuns(row: int, line: string, k: nat)
    requires k < |ToParts(row, line)|
    ensures var p := ToParts(row, line)[k];
      0 <= p.left.x && p.right.x < |line| && AllDigits(line[p.left.x..p.right.x + 1])
      && (p.left.x == 0 || !IsDigit(line[p.left.x - 1]))
      && (p.right.x + 1 == |line| || !IsDigit(line[p.right.x + 1]))
      && p.value == DigitsValue(line[p.left.x..p.right.x + 1])
  {
    var runs := DigitRuns(line, 0);
    DigitRunsMaximal(line, 0);
    assert ToParts(row, line)[k] == PartOf(row, line, runs[k]);
  }

  /** A spigot is a character that is neither a digit nor '.'. */
  predicate IsSpigot(c: char)
  {
    !IsDigit(c) && c != '.'
  }

  /** `to_spigots` from column i on: each character of `[^0-9.]`, left to
      right (a line read from a file keeps its '\n', which is one). */
  function SpigotsFrom(row: int, line: string, i: nat): (ss: seq<Spigot>)
    requires i <= |line|
    ensures forall k :: 0 <= k < |ss| ==> ss[k].pos.y == row
    decreases |line| - i
  {
    if i == |line| then []
    else if IsSpigot(line[i]) then [Spigot(Pos(i, row), line[i])] + SpigotsFrom(row, line, i + 1)
    else SpigotsFrom(row, line, i + 1)
  }

  function ToSpigots(row: int, line: string): seq<Spigot>
  {
    SpigotsFrom(row, line, 0)
  }

  /** A spigot of the row is a spigot character of the line, at its column,
      and every spigot character of the line is one. */
  lemma {:induction false} SpigotsFromExactly(row: int, line: string, i: nat, s: Spigot)
    requires i <= |line|
    ensures s in SpigotsFrom(row, line, i) <==>
      s.pos.y == row && i <= s.pos.x < |line| && IsSpigot(line[s.pos.x]) && s.value == line[s.pos.x]
    decreases |line| - i
  {
    if i < |line| {
      SpigotsFromExactly(row, line, i + 1, s);
    }
  }

  /** `Schematic`: all parts and all spigots, row by row. */
  datatype Schematic = Schematic(parts: seq<Part>, spigots: seq<Spigot>)

  function PartsOf(lines: seq<string>, n: nat): (ps: seq<Part>)
    requires n <= |lines|
    ensures forall k :: 0 <= k < |ps| ==> WellFormed(ps[k])
  {
    if n == 0 then [] else PartsOf(lines, n - 1) + ToParts(n - 1, lines[n - 1])
  }

  function SpigotsOf(lines: seq<string>, n: nat): seq<Spigot>
    requires n <= |lines|
  {
    if n == 0 then [] else SpigotsOf(lines, n - 1) + ToSpigots(n - 1, lines[n - 1])
  }

  function Read(lines: seq<string>): (s: Schematic)
    ensures forall k :: 0 <= k < |s.parts| ==> WellFormed(s.parts[k])
  {
    Schematic(PartsOf(lines, |lines|), SpigotsOf(lines, |lines|))
  }

  /** `spigot_positions`. */
  function SpigotPositions(spigots: seq<Spigot>): set<Pos>
  {
    set k | 0 <= k < |spigots| :: spigots[k].pos
  }

  /** A spigot of the schematic sits at a spigot character of the row it names. */
  lemma {:induction false} SpigotsOfExactly(lines: seq<string>, n: nat, s: Spigot)
    requires n <= |lines|
    ensures s in SpigotsOf(lines, n) <==>
      0 <= s.pos.y < n && 0 <= s.pos.x < |lines[s.pos.y]| && IsSpigot(lines[s.pos.y][s.pos.x])
      && s.value == lines[s.pos.y][s.pos.x]
  {
    if n > 0 {
      SpigotsOfExactly(lines, n - 1, s);
      SpigotsFromExactly(n - 1, lines[n - 1], 0, s);
    }
  }

  /** Whether a part is adjacent to some spigot. */
  predicate Touches(p: Part, positions: set<Pos>)
    requires WellFormed(p)
  {
    Halo(p) * positions != {}
  }

  /** `candidate_parts`: the parts, in order, whose halo meets a spigot. */
  function Candidates(parts: seq<Part>, positions: set<Pos>): (r: seq<Part>)
    requires forall k :: 0 <= k < |parts| ==> WellFormed(parts[k])
    ensures forall k :: 0 <= k < |r| ==> WellFormed(r[k])
  {
    if parts == [] then []
    else
      var rest := Candidates(parts[1..], positions);
      if Touches(parts[0], positions) then [parts[0]] + rest else rest
  }

  /** A part is a candidate exactly when it is a part of the schematic next
      to a spigot. */
  lemma {:induction false} CandidatesExactly(parts: seq<Part>, positions: set<Pos>, p: Part)
    requires forall k :: 0 <= k < |parts| ==> WellFormed(parts[k])
    ensures p in Candidates(parts, positions) <==> p in parts && WellFormed(p) && Touches(p, positions)
  {
    if parts != [] {
      CandidatesExactly(parts[1..], positions, p);
      assert p in parts <==> p == parts[0] || p in parts[1..];
    }
  }

  function Values(ps: seq<Part>): (vs: seq<int>)
    ensures |vs| == |ps|
  {
    if ps == [] then [] else [ps[0].value] + Values(ps[1..])
  }

  /** Each part's share of the answer: its value when it touches a spigot, 0
      otherwise. */
  function Shares(parts: seq<Part>, positions: set<Pos>): (vs: seq<int>)
    requires forall k :: 0 <= k < |parts| ==> WellFormed(parts[k])
    ensures |vs| == |parts|
  {
    if parts == [] then [] else [if Touches(parts[0], positions) then parts[0].value else 0] + Shares(parts[1..], positions)
  }

  lemma {:induction false} SharesAt(parts: seq<Part>, positions: set<Pos>, k: nat)
    requires forall k :: 0 <= k < |parts| ==> WellFormed(parts[k])
    requires k < |parts|
    ensures Shares(parts, positions)[k] == if Touches(parts[k], positions) then parts[k].value else 0
  {
    if k > 0 {
      SharesAt(parts[1..], positions, k - 1);
    }
  }

  /** Summing the candidates is summing every part's share. */
  lemma {:induction false} CandidatesSum(parts: seq<Part>, positions: set<Pos>)
    requires forall k :: 0 <= k < |parts| ==> WellFormed(parts[k])
    ensures Sum(Values(Candidates(parts, positions))) == Sum(Shares(parts, positions))
  {
    if parts != [] {
      CandidatesSum(parts[1..], positions);
      var rest := Candidates(parts[1..], positions);
      SumAppend([if Touches(parts[0], positions) then parts[0].value else 0], Shares(parts[1..], positions));
      if Touches(parts[0], positions) {
        SumAppend([parts[0].value], Values(rest));
        assert Values([parts[0]] + rest) == [parts[0].value] + Values(rest);
      }
    }
  }

  /** `day3a`: the sum of the candidate parts' values. */
  function Day3A(lines: seq<string>): (r: int)
    ensures var s := Read(lines); r == Sum(Shares(s.parts, SpigotPositions(s.spigots)))
  {
    var s := Read(lines);
    CandidatesSum(s.parts, SpigotPositions(s.spigots));
    Sum(Values(Candidates(s.parts, SpigotPositions(s.spigots))))
  }

  // ---------------------------------------------------------------------
  // Gears

  /** The parts (by their place in `parts`, which is what identifies a
      Python object in a set) among the first n whose halo holds q. */
  function AdjacentBelow(parts: seq<Part>, q: Pos, n: nat): set<nat>
    requires n <= |parts| && forall k :: 0 <= k < |parts| ==> WellFormed(parts[k])
  {
    set i | 0 <= i < n && q in Halo(parts[i])
  }

  function Adjacent(parts: seq<Part>, q: Pos): set<nat>
    requires forall k :: 0 <= k < |parts| ==> WellFormed(parts[k])
  {
    AdjacentBelow(parts, q, |parts|)
  }

  /** The stars, in order. */
  function Stars(spigots: seq<Spigot>): (r: seq<Spigot>)
    ensures forall k :: 0 <= k < |r| ==> r[k].value == '*'
    ensures forall sp :: sp in r <==> sp in spigots && sp.value == '*'
    ensures |r| <= |spigots|
  {
    if spigots == [] then []
    else if spigots[0].value == '*' then [spigots[0]] + Stars(spigots[1..])
    else Stars(spigots[1..])
  }

  /** The adjacency sets of the stars that touch exactly two parts. */
  function Pairs(parts: seq<Part>, stars: seq<Spigot>): seq<set<nat>>
    requires forall k :: 0 <= k < |parts| ==> WellFormed(parts[k])
  {
    if stars == [] then []
    else
      var a := Adjacent(parts, stars[0].pos);
      (if |a| == 2 then [a] else []) + Pairs(parts, stars[1..])
  }

  /** Every pair is two distinct parts whose halos both hold a star of the
      schematic, and each star touching exactly two parts gives one. */
  lemma {:induction false} PairsAreGears(parts: seq<Part>, stars: seq<Spigot>, pair: set<nat>)
    requires forall k :: 0 <= k < |parts| ==> WellFormed(parts[k])
    ensures pair in Pairs(parts, stars) <==>
      exists k :: 0 <= k < |stars| && pair == Adjacent(parts, stars[k].pos) && |pair| == 2
  {
    if stars != [] {
      PairsAreGears(parts, stars[1..], pair);
      if exists k :: 0 <= k < |stars| && pair == Adjacent(parts, stars[k].pos) && |pair| == 2 {
        var k :| 0 <= k < |stars| && pair == Adjacent(parts, stars[k].pos) && |pair| == 2;
        if k > 0 {
          assert stars[1..][k - 1] == stars[k];
        }
      }
      if pair in Pairs(parts, stars[1..]) {
        var k :| 0 <= k < |stars[1..]| && pair == Adjacent(parts, stars[1..][k].pos) && |pair| == 2;
        assert stars[1..][k] == stars[k + 1];
      }
    }
  }

  /** A part index holding the star is a part whose halo holds it. */
  lemma AdjacentExactly(parts: seq<Part>, q: Pos, i: nat)
    requires forall k :: 0 <= k < |parts| ==> WellFormed(parts[k])
    ensures i in Adjacent(parts, q) <==> i < |parts| && Near(parts[i], q) && !OnRun(parts[i], q)
  {
    if i < |parts| {
      HaloAdjacent(parts[i], q);
    }
  }

  /** The `defaultdict(set)` lookup. */
  function Get(m: map<Pos, set<nat>>, q: Pos): set<nat>
  {
    if q in m then m[q] else {}
  }

  /** `identify_geared_pairs`: map every halo cell to the parts around it,
      then keep the stars' sets of size two. */
  method IdentifyGearedPairs(s: Schematic) returns (pairs: seq<set<nat>>)
    requires forall k :: 0 <= k < |s.parts| ==> WellFormed(s.parts[k])
    ensures pairs == Pairs(s.parts, Stars(s.spigots))
  {
    var parts := s.parts;
    var adjacency := AdjacencyMap(parts);
    var stars := Stars(s.spigots);
    pairs := [];
    var k := |stars|;
    while k > 0
      invariant 0 <= k <= |stars|
      invariant pairs == Pairs(parts, stars[k..])
    {
      k := k - 1;
      var a := Get(adjacency, stars[k].pos);
      assert stars[k..][1..] == stars[k + 1..];
      if |a| == 2 {
        pairs := [a] + pairs;
      }
    }
  }

  /** The first loop of `identify_geared_pairs`: every halo cell maps to
      the parts around it. */
  method AdjacencyMap(parts: seq<Part>) returns (adjacency: map<Pos, set<nat>>)
    requires forall k :: 0 <= k < |parts| ==> WellFormed(parts[k])
    ensures forall q :: Get(adjacency, q) == Adjacent(parts, q)
  {
    adjacency := map[];
    for i := 0 to |parts|
      invariant forall q :: Get(adjacency, q) == AdjacentBelow(parts, q, i)
    {
      adjacency := AddHalo(parts, i, adjacency);
    }
  }

  /** The inner loop: part i is added under every cell of its halo. */
  method AddHalo(parts: seq<Part>, i: nat, adjacency: map<Pos, set<nat>>) returns (r: map<Pos, set<nat>>)
    requires i < |parts| && forall k :: 0 <= k < |parts| ==> WellFormed(parts[k])
    requires forall q :: Get(adjacency, q) == AdjacentBelow(parts, q, i)
    ensures forall q :: Get(r, q) == AdjacentBelow(parts, q, i + 1)
  {
    r := adjacency;
    var cells := HaloCells(parts[i]);
    for j := 0 to |cells|
      invariant forall q :: Get(r, q) == Get(adjacency, q) + (if q in cells[..j] then {i} else {})
    {
      r := AddTo(r, cells[j], i, Get(r, cells[j]));
      assert cells[..j + 1] == cells[..j] + [cells[j]];
    }
    assert cells[..|cells|] == cells;
    forall q
      ensures Get(r, q) == AdjacentBelow(parts, q, i + 1)
    {
      AdjacentBelowStep(parts, q, i);
    }
  }

  /** Part i joins the parts around q exactly when q is in its halo. */
  lemma AdjacentBelowStep(parts: seq<Part>, q: Pos, i: nat)
    requires i < |parts| && forall k :: 0 <= k < |parts| ==> WellFormed(parts[k])
    ensures AdjacentBelow(parts, q, i + 1)
      == AdjacentBelow(parts, q, i) + (if q in HaloCells(parts[i]) then {i} else {})
  {
    assert q in Halo(parts[i]) <==> q in HaloCells(parts[i]);
  }

  /** `adjacency_map[h].add(i)`. */
  function AddTo(m: map<Pos, set<nat>>, h: Pos, i: nat, ghost before: set<nat>): (r: map<Pos, set<nat>>)
    requires Get(m, h) == before
    ensures Get(r, h) == before + {i} && forall q :: q != h ==> Get(r, q) == Get(m, q)
  {
    m[h := Get(m, h) + {i}]
  }

  /** The members of a set of indices that lie in [i, n), in increasing order. */
  function IndicesIn(a: set<nat>, i: nat, n: nat): (r: seq<nat>)
    requires i <= n
    ensures forall k :: 0 <= k < |r| ==> i <= r[k] < n && r[k] in a
    ensures forall k :: 0 <= k < |r| - 1 ==> r[k] < r[k + 1]
    ensures forall j :: i <= j < n && j in a ==> j in r
    decreases n - i
  {
    if i == n then []
    else if i in a then [i] + IndicesIn(a, i + 1, n)
    else IndicesIn(a, i + 1, n)
  }

  /** Listing a set of indices below n in order keeps its members and its size. */
  lemma IndicesInSet(a: set<nat>, n: nat)
    requires forall x :: x in a ==> x < n
    ensures (set x: nat | x in IndicesIn(a, 0, n)) == a && |IndicesIn(a, 0, n)| == |a|
  {
    var r := IndicesIn(a, 0, n);
    SortedStrict(r);
    DistinctCard(r);
    assert |set x: nat | x in r| == |r|;
    assert (set x: nat | x in r) == a by {
      forall x | x in a
        ensures x in r
      {
        assert 0 <= x < n;
      }
    }
    assert |a| == |r|;
  }

  lemma SortedStrict(r: seq<nat>)
    requires forall k :: 0 <= k < |r| - 1 ==> r[k] < r[k + 1]
    ensures forall i, j :: 0 <= i < j < |r| ==> r[i] < r[j]
  {
    forall i, j | 0 <= i < j < |r|
      ensures r[i] < r[j]
    {
      var k := i;
      while k < j
        invariant i <= k <= j && r[i] <= r[k]
        invariant k > i ==> r[i] < r[k]
      {
        k := k + 1;
      }
    }
  }

  /** `mul(*map(value, pair))` for the parts around a star that touches
      exactly two of them. */
  function GearRatio(parts: seq<Part>, q: Pos): int
    requires forall k :: 0 <= k < |parts| ==> WellFormed(parts[k])
  {
    var r := IndicesIn(Adjacent(parts, q), 0, |parts|);
    if |r| == 2 then parts[r[0]].value * parts[r[1]].value else 0
  }

  /** The gear ratio of each star, in order. */
  function GearRatios(parts: seq<Part>, stars: seq<Spigot>): (rs: seq<int>)
    requires forall k :: 0 <= k < |parts| ==> WellFormed(parts[k])
    ensures |rs| == |stars|
  {
    if stars == [] then [] else [GearRatio(parts, stars[0].pos)] + GearRatios(parts, stars[1..])
  }

  /** Each spigot's share of the answer: its gear ratio when it is a star, 0
      otherwise. */
  function SpigotRatios(parts: seq<Part>, spigots: seq<Spigot>): (rs: seq<int>)
    requires forall k :: 0 <= k < |parts| ==> WellFormed(parts[k])
    ensures |rs| == |spigots|
  {
    if spigots == [] then []
    else [if spigots[0].value == '*' then GearRatio(parts, spigots[0].pos) else 0] + SpigotRatios(parts, spigots[1..])
  }

  lemma {:induction false} SpigotRatiosAt(parts: seq<Part>, spigots: seq<Spigot>, k: nat)
    requires forall k :: 0 <= k < |parts| ==> WellFormed(parts[k])
    requires k < |spigots|
    ensures SpigotRatios(parts, spigots)[k] == if spigots[k].value == '*' then GearRatio(parts, spigots[k].pos) else 0
  {
    if k > 0 {
      SpigotRatiosAt(parts, spigots[1..], k - 1);
    }
  }

  /** Summing over the stars is summing every spigot's share. */
  lemma {:induction false} StarsSum(parts: seq<Part>, spigots: seq<Spigot>)
    requires forall k :: 0 <= k < |parts| ==> WellFormed(parts[k])
    ensures Sum(GearRatios(parts, Stars(spigots))) == Sum(SpigotRatios(parts, spigots))
  {
    if spigots != [] {
      StarsSum(parts, spigots[1..]);
      var head := if spigots[0].value == '*' then GearRatio(parts, spigots[0].pos) else 0;
      SumAppend([head], SpigotRatios(parts, spigots[1..]));
      if spigots[0].value == '*' {
        SumAppend([head], GearRatios(parts, Stars(spigots[1..])));
      }
    }
  }

  /** `day3b`: the sum, over stars touching exactly two parts, of the
      product of their values. */
  function Day3B(lines: seq<string>): (r: int)
    ensures var s := Read(lines); r == Sum(SpigotRatios(s.parts, s.spigots))
  {
    var s := Read(lines);
    StarsSum(s.parts, s.spigots);
    Sum(GearRatios(s.parts, Stars(s.spigots)))
  }

  /** A star adds the product of the two parts of its pair when it touches
      exactly two parts, and nothing otherwise. */
  lemma GearRatioOfPair(parts: seq<Part>, q: Pos)
    requires forall k :: 0 <= k < |parts| ==> WellFormed(parts[k])
    ensures forall i, j :: i < j && Adjacent(parts, q) == {i, j} ==>
      GearRatio(parts, q) == parts[i].value * parts[j].value
    ensures |Adjacent(parts, q)| != 2 ==> GearRatio(parts, q) == 0
  {
    var a := Adjacent(parts, q);
    IndicesInSet(a, |parts|);
    var r := IndicesIn(a, 0, |parts|);
    forall i, j | i < j && a == {i, j}
      ensures |r| == 2 && r[0] == i && r[1] == j
    {
      assert |a| == 2;
      assert r[0] in a && r[1] in a && r[0] < r[1];
    }
  }
}
