/** The floor will be lava (aoc23/day16.py): a beam enters a grid of
    mirrors and splitters; every cell remembers the directions beams have
    crossed it in, and the energised cells are counted. */
module Day16 {
  import opened Common

  datatype Dir = N | S | E | W

  datatype Pos = Pos(x: int, y: int)

  /** `Pos.move`. */
  function Move(p: Pos, d: Dir): (q: Pos)
    ensures Abs(q.x - p.x) + Abs(q.y - p.y) == 1
  {
    match d
    case N => Pos(p.x, p.y - 1)
    case S => Pos(p.x, p.y + 1)
    case E => Pos(p.x + 1, p.y)
    case W => Pos(p.x - 1, p.y)
  }

  function Opposite(d: Dir): Dir
  {
    match d
    case N => S
    case S => N
    case E => W
    case W => E
  }

  /** Moving one way and then the opposite way returns to the start. */
  lemma MoveBack(p: Pos, d: Dir)
    ensures Move(Move(p, d), Opposite(d)) == p && Opposite(Opposite(d)) == d
  {
  }

  /** The '\' mirror. */
  function Backslash(d: Dir): Dir
  {
    match d
    case N => W
    case S => E
    case E => S
    case W => N
  }

  /** The '/' mirror. */
  function Slash(d: Dir): Dir
  {
    match d
    case N => E
    case S => W
    case E => N
    case W => S
  }

  /** Both mirrors turn every beam and undo themselves; a beam retraces its
      way back through a mirror. */
  lemma MirrorsAreInvolutions(d: Dir)
    ensures Backslash(Backslash(d)) == d && Slash(Slash(d)) == d
    ensures Backslash(d) != d && Backslash(d) != Opposite(d)
    ensures Slash(d) != d && Slash(d) != Opposite(d)
    ensures Backslash(Opposite(Backslash(d))) == Opposite(d) && Slash(Opposite(Slash(d))) == Opposite(d)
  {
  }

  predicate Vertical(d: Dir) { d == N || d == S }

  /** `Direction.exits`: the directions a beam leaves a cell in; None for a
      character that is no widget (the source then returns nothing to iterate). */
  function Exits(d: Dir, widget: char): (r: Option<seq<Dir>>)
    ensures r.Some? <==> widget in ".\\/-|"
    ensures widget == '.' ==> r == Some([d])
    ensures widget == '\\' || widget == '/' ==> r.Some? && |r.value| == 1 && r.value[0] != d
    ensures widget == '-' ==> r == if Vertical(d) then Some([W, E]) else Some([d])
    ensures widget == '|' ==> r == if Vertical(d) then Some([d]) else Some([N, S])
  {
    match widget
    case '.' => Some([d])
    case '\\' => Some([Backslash(d)])
    case '/' => Some([Slash(d)])
    case '-' => if Vertical(d) then Some([W, E]) else Some([d])
    case '|' => if Vertical(d) then Some([d]) else Some([N, S])
    case _ => None
  }

  /** `Pos.in_bounds`. */
  predicate InBounds(p: Pos, width: nat, height: nat)
  {
    0 <= p.x < width && 0 <= p.y < height
  }

  /** `flip_to_entry`: the cell behind p and the opposite direction, that is,
      the entry that would send a beam back out along the way it left. */
  function FlipToEntry(p: Pos, d: Dir): (r: (Pos, Dir))
    ensures r.1 == Opposite(d) && Move(r.0, d) == p
  {
    (Move(p, Opposite(d)), Opposite(d))
  }

  type Cells = seq<seq<set<Dir>>>

  predicate Shaped(cells: Cells, width: nat, height: nat)
  {
    |cells| == height && forall y :: 0 <= y < height ==> |cells[y]| == width
  }

  function Row(width: nat): (r: seq<set<Dir>>)
    ensures |r| == width && forall x :: 0 <= x < width ==> r[x] == {}
  {
    seq(width, _ => {})
  }

  function EmptyCells(width: nat, height: nat): (c: Cells)
    ensures Shaped(c, width, height) && forall y, x :: 0 <= y < height && 0 <= x < width ==> c[y][x] == {}
  {
    seq(height, _ => Row(width))
  }

  /** The number of direction bits set along a row, and in the whole grid. */
  function RowBits(row: seq<set<Dir>>): nat
  {
    if row == [] then 0 else RowBits(row[..|row| - 1]) + |row[|row| - 1]|
  }

  function Bits(cells: Cells): nat
  {
    if cells == [] then 0 else Bits(cells[..|cells| - 1]) + RowBits(cells[|cells| - 1])
  }

  lemma CellBits(s: set<Dir>)
    ensures |s| <= 4
  {
    var all := {N, S, E, W};
    forall d | d in s ensures d in all {
      match d {
        case N =>
        case S =>
        case E =>
        case W =>
      }
    }
    assert all == s + (all - s) && s * (all - s) == {};
  }

  lemma {:induction false} RowBitsBound(row: seq<set<Dir>>)
    ensures RowBits(row) <= 4 * |row|
  {
    if row != [] {
      RowBitsBound(row[..|row| - 1]);
      CellBits(row[|row| - 1]);
    }
  }

  lemma {:induction false} BitsBound(cells: Cells, width: nat)
    requires forall y :: 0 <= y < |cells| ==> |cells[y]| == width
    ensures Bits(cells) <= 4 * width * |cells|
  {
    if cells != [] {
      BitsBound(cells[..|cells| - 1], width);
      RowBitsBound(cells[|cells| - 1]);
    }
  }

  lemma {:induction false} RowBitsUpdate(row: seq<set<Dir>>, x: nat, v: set<Dir>)
    requires x < |row|
    ensures RowBits(row[x := v]) == RowBits(row) - |row[x]| + |v|
  {
    if x < |row| - 1 {
      assert row[x := v][..|row| - 1] == row[..|row| - 1][x := v];
      RowBitsUpdate(row[..|row| - 1], x, v);
    } else {
      assert row[x := v][..|row| - 1] == row[..|row| - 1];
    }
  }

  lemma {:induction false} BitsUpdate(cells: Cells, y: nat, row: seq<set<Dir>>)
    requires y < |cells|
    ensures Bits(cells[y := row]) == Bits(cells) - RowBits(cells[y]) + RowBits(row)
  {
    if y < |cells| - 1 {
      assert cells[y := row][..|cells| - 1] == cells[..|cells| - 1][y := row];
      BitsUpdate(cells[..|cells| - 1], y, row);
    } else {
      assert cells[y := row][..|cells| - 1] == cells[..|cells| - 1];
    }
  }

  /** Adding a direction a cell did not have sets exactly one more bit. */
  lemma AddBit(cells: Cells, x: nat, y: nat, d: Dir)
    requires y < |cells| && x < |cells[y]| && d !in cells[y][x]
    ensures Bits(cells[y := cells[y][x := cells[y][x] + {d}]]) == Bits(cells) + 1
  {
    RowBitsUpdate(cells[y], x, cells[y][x] + {d});
    BitsUpdate(cells, y, cells[y][x := cells[y][x] + {d}]);
  }

  /** The cells with any bit set, among the first `rows` rows (`active_count`). */
  function Active(cells: Cells, rows: nat): nat
    requires rows <= |cells|
  {
    if rows == 0 then 0 else Active(cells, rows - 1) + ActiveInRow(cells[rows - 1], |cells[rows - 1]|)
  }

  function ActiveInRow(row: seq<set<Dir>>, n: nat): (k: nat)
    requires n <= |row|
    ensures k <= n
  {
    if n == 0 then 0 else ActiveInRow(row, n - 1) + (if row[n - 1] != {} then 1 else 0)
  }

  /** A grid with no bits set has no active cell. */
  lemma {:induction false} NoBitsNoActive(cells: Cells, rows: nat)
    requires rows <= |cells| && forall y, x :: 0 <= y < |cells| && 0 <= x < |cells[y]| ==> cells[y][x] == {}
    ensures Active(cells, rows) == 0
  {
    if rows > 0 {
      NoBitsNoActive(cells, rows - 1);
      NoActiveInRow(cells[rows - 1], |cells[rows - 1]|);
    }
  }

  lemma {:induction false} NoActiveInRow(row: seq<set<Dir>>, n: nat)
    requires n <= |row| && forall x :: 0 <= x < |row| ==> row[x] == {}
    ensures ActiveInRow(row, n) == 0
  {
    if n > 0 {
      NoActiveInRow(row, n - 1);
    }
  }

  /** `Track`: a direction set per cell and the list of exits recorded. */
  class Track {
    const width: nat
    const height: nat
    var cells: Cells
    var entries: seq<(Pos, Dir)>

    ghost predicate Valid()
      reads this
    {
      Shaped(cells, width, height)
    }

    constructor(width: nat, height: nat)
      ensures Valid() && this.width == width && this.height == height
      ensures cells == EmptyCells(width, height) && entries == []
    {
      this.width := width;
      this.height := height;
      cells := EmptyCells(width, height);
      entries := [];
    }

    /** `active_count`: the cells with any direction set. */
    method ActiveCount() returns (n: nat)
      requires Valid()
      ensures n == Active(cells, height)
    {
      n := 0;
      for y := 0 to height
        invariant n == Active(cells, y)
      {
        var inRow := 0;
        for x := 0 to width
          invariant inRow == ActiveInRow(cells[y], x)
        {
          if cells[y][x] != {} {
            inRow := inRow + 1;
          }
        }
        n := n + inRow;
      }
    }

    /** `add_entry`. */
    method AddEntry(entry: (Pos, Dir))
      modifies this
      ensures cells == old(cells) && entries == old(entries) + [entry]
    {
      entries := entries + [entry];
    }
  }

  /** Where a beam item (pos, dir) has been dealt with: an in-bounds cell
      already holds the direction, an off-grid position has its entry recorded. */
  predicate Satisfied(cells: Cells, entries: seq<(Pos, Dir)>, width: nat, height: nat, t: (Pos, Dir))
    requires Shaped(cells, width, height)
  {
    if InBounds(t.0, width, height) then t.1 in cells[t.0.y][t.0.x]
    else FlipToEntry(t.0, t.1) in entries
  }

  /** Every direction set in a cell has a known widget there, and each beam
      it sends on is dealt with: the track is closed under beam propagation. */
  predicate Closed(lines: seq<seq<char>>, cells: Cells, entries: seq<(Pos, Dir)>, width: nat, height: nat)
    requires Shaped(cells, width, height) && ShapedLines(lines, width, height)
  {
    forall y, x, d :: 0 <= y < height && 0 <= x < width && d in cells[y][x] ==>
      Exits(d, lines[y][x]).Some? &&
      forall k :: 0 <= k < |Exits(d, lines[y][x]).value| ==>
        Satisfied(cells, entries, width, height, (Move(Pos(x, y), Exits(d, lines[y][x]).value[k]), Exits(d, lines[y][x]).value[k]))
  }

  predicate ShapedLines(lines: seq<seq<char>>, width: nat, height: nat)
  {
    |lines| == height && forall y :: 0 <= y < height ==> |lines[y]| == width
  }

  /** The beams a cell sends on: each exit direction with the neighbour it leads to. */
  function Onward(p: Pos, es: seq<Dir>): (r: seq<(Pos, Dir)>)
    ensures |r| == |es| && forall k :: 0 <= k < |es| ==> r[k] == (Move(p, es[k]), es[k])
  {
    seq(|es|, k requires 0 <= k < |es| => (Move(p, es[k]), es[k]))
  }

  predicate Handled(cells: Cells, entries: seq<(Pos, Dir)>, todo: seq<(Pos, Dir)>, width: nat, height: nat, t: (Pos, Dir))
    requires Shaped(cells, width, height)
  {
    t in todo || Satisfied(cells, entries, width, height, t)
  }

  /** Closed, except that some of the beams are still waiting in `todo`. */
  predicate ClosedModulo(lines: seq<seq<char>>, cells: Cells, entries: seq<(Pos, Dir)>, todo: seq<(Pos, Dir)>,
                         width: nat, height: nat)
    requires Shaped(cells, width, height) && ShapedLines(lines, width, height)
  {
    forall y, x, d :: 0 <= y < height && 0 <= x < width && d in cells[y][x] ==>
      Exits(d, lines[y][x]).Some? &&
      forall t :: t in Onward(Pos(x, y), Exits(d, lines[y][x]).value) ==> Handled(cells, entries, todo, width, height, t)
  }

  lemma ClosedModuloNothing(lines: seq<seq<char>>, cells: Cells, entries: seq<(Pos, Dir)>, width: nat, height: nat)
    requires Shaped(cells, width, height) && ShapedLines(lines, width, height)
    ensures ClosedModulo(lines, cells, entries, [], width, height) <==> Closed(lines, cells, entries, width, height)
  {
    if Closed(lines, cells, entries, width, height) {
      forall y, x, d, t | 0 <= y < height && 0 <= x < width && d in cells[y][x] &&
                          t in Onward(Pos(x, y), Exits(d, lines[y][x]).value)
        ensures Satisfied(cells, entries, width, height, t)
      {
        var es := Exits(d, lines[y][x]).value;
        var k :| 0 <= k < |es| && Onward(Pos(x, y), es)[k] == t;
      }
    }
    if ClosedModulo(lines, cells, entries, [], width, height) {
      forall y, x, d, k | 0 <= y < height && 0 <= x < width && d in cells[y][x] &&
                          0 <= k < |Exits(d, lines[y][x]).value|
        ensures Satisfied(cells, entries, width, height,
                          (Move(Pos(x, y), Exits(d, lines[y][x]).value[k]), Exits(d, lines[y][x]).value[k]))
      {
        var es := Exits(d, lines[y][x]).value;
        assert Onward(Pos(x, y), es)[k] in Onward(Pos(x, y), es);
      }
    }
  }

  /** Bits and recorded entries only accumulate. */
  predicate Grows(c0: Cells, e0: seq<(Pos, Dir)>, c1: Cells, e1: seq<(Pos, Dir)>, width: nat, height: nat)
    requires Shaped(c0, width, height) && Shaped(c1, width, height)
  {
    (forall y, x :: 0 <= y < height && 0 <= x < width ==> c0[y][x] <= c1[y][x]) &&
    (forall e :: e in e0 ==> e in e1)
  }

  /** One beam taken from the front of the queue and dealt with: whatever it
      set, its own exits join the back of the queue, so the closure still
      holds modulo the new queue. */
  lemma ProcessKeepsClosed(lines: seq<seq<char>>, c0: Cells, e0: seq<(Pos, Dir)>, c1: Cells, e1: seq<(Pos, Dir)>,
                           todo: seq<(Pos, Dir)>, width: nat, height: nat, es: seq<Dir>)
    requires Shaped(c0, width, height) && Shaped(c1, width, height) && ShapedLines(lines, width, height)
    requires todo != [] && ClosedModulo(lines, c0, e0, todo, width, height)
    requires Grows(c0, e0, c1, e1, width, height)
    requires Satisfied(c1, e1, width, height, todo[0])
    requires forall y, x, d :: 0 <= y < height && 0 <= x < width && d in c1[y][x] && d !in c0[y][x] ==>
               todo[0] == (Pos(x, y), d) && Exits(d, lines[y][x]) == Some(es)
    ensures ClosedModulo(lines, c1, e1, todo[1..] + Onward(todo[0].0, es), width, height)
  {
    var next := todo[1..] + Onward(todo[0].0, es);
    forall y, x, d | 0 <= y < height && 0 <= x < width && d in c1[y][x]
      ensures Exits(d, lines[y][x]).Some? &&
              forall t :: t in Onward(Pos(x, y), Exits(d, lines[y][x]).value) ==> Handled(c1, e1, next, width, height, t)
    {
      if d in c0[y][x] {
        forall t | t in Onward(Pos(x, y), Exits(d, lines[y][x]).value)
          ensures Handled(c1, e1, next, width, height, t)
        {
          assert Handled(c0, e0, todo, width, height, t);
          HandledLater(c0, e0, c1, e1, todo, width, height, es, t);
        }
      }
    }
  }

  lemma HandledLater(c0: Cells, e0: seq<(Pos, Dir)>, c1: Cells, e1: seq<(Pos, Dir)>,
                     todo: seq<(Pos, Dir)>, width: nat, height: nat, es: seq<Dir>, t: (Pos, Dir))
    requires Shaped(c0, width, height) && Shaped(c1, width, height)
    requires todo != [] && Grows(c0, e0, c1, e1, width, height)
    requires Satisfied(c1, e1, width, height, todo[0])
    requires Handled(c0, e0, todo, width, height, t)
    ensures Handled(c1, e1, todo[1..] + Onward(todo[0].0, es), width, height, t)
  {
    if t in todo && t != todo[0] {
      var k :| 0 <= k < |todo| && todo[k] == t;
      assert (todo[1..] + Onward(todo[0].0, es))[k - 1] == t;
    }
  }

  /** The grid of `Puzzle`, with the track it traces beams on. */
  class Puzzle {
    const lines: seq<seq<char>>
    const width: nat
    const height: nat
    var track: Track

    ghost predicate Valid()
      reads this, track
    {
      ShapedLines(lines, width, height) && track.width == width && track.height == height && track.Valid()
    }

    /** `Puzzle(lines)`: the stripped lines; the width is that of the first. */
    constructor(input: seq<string>)
      requires |input| > 0 && forall y :: 0 <= y < |input| ==> |Strip(input[y])| == |Strip(input[0])|
      ensures Valid() && fresh(track) && track.cells == EmptyCells(width, height) && track.entries == []
      ensures height == |input| && forall y :: 0 <= y < |input| ==> lines[y] == Strip(input[y])
    {
      lines := seq(|input|, y requires 0 <= y < |input| => Strip(input[y]));
      height := |input|;
      width := |Strip(input[0])|;
      track := new Track(|Strip(input[0])|, |input|);
    }

    /** `reset`: a fresh, empty track. */
    method Reset()
      requires Valid()
      modifies this
      ensures Valid() && fresh(track) && track.cells == EmptyCells(width, height) && track.entries == []
    {
      track := new Track(width, height);
    }

    /** `enter`: a beam arriving at pos heading dir. Off the grid it records
        the way back in and stops; a direction the cell already has stops it;
        otherwise the cell gains the direction and the widget decides the exits. */
    method Enter(pos: Pos, dir: Dir) returns (exits: Option<seq<Dir>>)
      requires Valid()
      modifies track
      ensures Valid()
      ensures !InBounds(pos, width, height) ==>
                exits == Some([]) && track.cells == old(track.cells) &&
                track.entries == old(track.entries) + [FlipToEntry(pos, dir)]
      ensures InBounds(pos, width, height) && dir in old(track.cells[pos.y][pos.x]) ==>
                exits == Some([]) && track.cells == old(track.cells) && track.entries == old(track.entries)
      ensures InBounds(pos, width, height) && dir !in old(track.cells[pos.y][pos.x]) ==>
                exits == Exits(dir, lines[pos.y][pos.x]) && track.entries == old(track.entries) &&
                track.cells == old(track.cells)[pos.y := old(track.cells)[pos.y][pos.x := old(track.cells)[pos.y][pos.x] + {dir}]]
    {
      if !InBounds(pos, width, height) {
        track.AddEntry(FlipToEntry(pos, dir));
        return Some([]);
      }
      var here := track.cells[pos.y][pos.x];
      if dir in here {
        return Some([]);
      }
      track.cells := track.cells[pos.y := track.cells[pos.y][pos.x := here + {dir}]];
      return Exits(dir, lines[pos.y][pos.x]);
    }

    /** `trace`: drains a FIFO queue of beams from `start`. It ends because
        every beam that goes on sets a new bit. On a grid of known widgets the
        track ends up closed under beam propagation with `start` dealt with;
        false stands for the TypeError an unknown widget raises. */
    method Trace(start: (Pos, Dir)) returns (ok: bool)
      requires Valid()
      modifies track
      ensures Valid()
      ensures Grows(old(track.cells), old(track.entries), track.cells, track.entries, width, height)
      ensures ok ==> Satisfied(track.cells, track.entries, width, height, start)
      ensures ok && old(Closed(lines, track.cells, track.entries, width, height)) ==>
                Closed(lines, track.cells, track.entries, width, height)
    {
      ghost var c0, e0 := track.cells, track.entries;
      ghost var closed0 := Closed(lines, c0, e0, width, height);
      ClosedModuloNothing(lines, c0, e0, width, height);
      if closed0 {
        ClosedModuloWider(lines, c0, e0, [], [start], width, height);
      }
      var todo := [start];
      BitsBound(track.cells, width);
      while todo != []
        invariant Valid()
        invariant Grows(c0, e0, track.cells, track.entries, width, height)
        invariant Handled(track.cells, track.entries, todo, width, height, start)
        invariant closed0 ==> ClosedModulo(lines, track.cells, track.entries, todo, width, height)
        invariant Bits(track.cells) <= 4 * width * height
        decreases 4 * width * height - Bits(track.cells), |todo|
      {
        ghost var c1, e1 := track.cells, track.entries;
        var item := todo[0];
        var exits := Enter(item.0, item.1);
        if exits.None? {
          return false;
        }
        var es := exits.value;
        EnterEffect(lines, c1, e1, track.cells, track.entries, item, es, width, height);
        BitsBound(track.cells, width);
        if closed0 {
          ProcessKeepsClosed(lines, c1, e1, track.cells, track.entries, todo, width, height, es);
        }
        HandledLater(c1, e1, track.cells, track.entries, todo, width, height, es, start);
        todo := todo[1..] + Onward(item.0, es);
      }
      ClosedModuloNothing(lines, track.cells, track.entries, width, height);
      return true;
    }
  }

  /** What `enter` did to the track for one beam, when no widget raised:
      the track only grew, the beam is dealt with, the only new bit is the
      beam's own (whose widget gave es), and no new bit means no exits. */
  lemma EnterEffect(lines: seq<seq<char>>, c1: Cells, e1: seq<(Pos, Dir)>, c2: Cells, e2: seq<(Pos, Dir)>,
                    item: (Pos, Dir), es: seq<Dir>, width: nat, height: nat)
    requires Shaped(c1, width, height) && Shaped(c2, width, height) && ShapedLines(lines, width, height)
    requires !InBounds(item.0, width, height) ==>
               Some(es) == Some([]) && c2 == c1 && e2 == e1 + [FlipToEntry(item.0, item.1)]
    requires InBounds(item.0, width, height) && item.1 in c1[item.0.y][item.0.x] ==>
               Some(es) == Some([]) && c2 == c1 && e2 == e1
    requires InBounds(item.0, width, height) && item.1 !in c1[item.0.y][item.0.x] ==>
               Some(es) == Exits(item.1, lines[item.0.y][item.0.x]) && e2 == e1 &&
               c2 == c1[item.0.y := c1[item.0.y][item.0.x := c1[item.0.y][item.0.x] + {item.1}]]
    ensures Grows(c1, e1, c2, e2, width, height)
    ensures Satisfied(c2, e2, width, height, item)
    ensures forall y, x, d :: 0 <= y < height && 0 <= x < width && d in c2[y][x] && d !in c1[y][x] ==>
              item == (Pos(x, y), d) && Exits(d, lines[y][x]) == Some(es)
    ensures Bits(c2) == Bits(c1) + 1 || (Bits(c2) == Bits(c1) && es == [])
  {
    if InBounds(item.0, width, height) && item.1 !in c1[item.0.y][item.0.x] {
      AddBit(c1, item.0.x, item.0.y, item.1);
    }
  }

  /** A longer queue excuses at least as much. */
  lemma ClosedModuloWider(lines: seq<seq<char>>, cells: Cells, entries: seq<(Pos, Dir)>, a: seq<(Pos, Dir)>,
                          b: seq<(Pos, Dir)>, width: nat, height: nat)
    requires Shaped(cells, width, height) && ShapedLines(lines, width, height)
    requires ClosedModulo(lines, cells, entries, a, width, height) && forall t :: t in a ==> t in b
    ensures ClosedModulo(lines, cells, entries, b, width, height)
  {
  }

  /** `day16a`: the energised cells once a beam enters the top-left corner
      heading east. The returned track is closed and holds that first beam. */
  method Day16A(input: seq<string>) returns (r: Option<nat>, p: Puzzle)
    requires |input| > 0 && forall y :: 0 <= y < |input| ==> |Strip(input[y])| == |Strip(input[0])|
    ensures p.Valid()
    ensures r.Some? ==> Closed(p.lines, p.track.cells, p.track.entries, p.width, p.height) &&
                        Satisfied(p.track.cells, p.track.entries, p.width, p.height, (Pos(0, 0), E)) &&
                        r.value == Active(p.track.cells, p.height)
  {
    p := new Puzzle(input);
    assert Closed(p.lines, p.track.cells, p.track.entries, p.width, p.height);
    var ok := p.Trace((Pos(0, 0), E));
    if !ok {
      return None, p;
    }
    var n := p.track.ActiveCount();
    return Some(n), p;
  }

  /** The entries of `day16b`: down from the top row, up from the bottom row,
      east from the left column, west from the right column. */
  function BorderEntries(width: nat, height: nat): (es: seq<(Pos, Dir)>)
    ensures |es| == 2 * width + 2 * height
  {
    seq(width, x requires 0 <= x < width => (Pos(x, 0), S)) +
    seq(width, x requires 0 <= x < width => (Pos(x, height - 1), N)) +
    seq(height, y requires 0 <= y < height => (Pos(0, y), E)) +
    seq(height, y requires 0 <= y < height => (Pos(width - 1, y), W))
  }

  /** `day16b`: traces from every border entry not yet seen as the exit of an
      earlier trace, remembers each trace's count under each exit it recorded,
      and returns the largest count (None for the `max` of nothing, or for an
      unknown widget). */
  method Day16B(input: seq<string>) returns (r: Option<nat>, tracks: map<(Pos, Dir), nat>)
    requires |input| > 0 && forall y :: 0 <= y < |input| ==> |Strip(input[y])| == |Strip(input[0])|
    ensures r.Some? ==> (exists k :: k in tracks && tracks[k] == r.value) &&
                        forall k :: k in tracks ==> tracks[k] <= r.value
  {
    var p := new Puzzle(input);
    var entries := BorderEntries(p.width, p.height);
    tracks := map[];
    var order: seq<(Pos, Dir)> := [];
    for i := 0 to |entries|
      invariant p.Valid()
      invariant forall k :: k in tracks <==> k in order
    {
      var e := entries[i];
      if e !in tracks {
        p.Reset();
        var ok := p.Trace(e);
        if !ok {
          return None, tracks;
        }
        var n := p.track.ActiveCount();
        for j := 0 to |p.track.entries|
          invariant forall k :: k in tracks <==> k in order
        {
          var k := p.track.entries[j];
          if k !in tracks {
            order := order + [k];
          }
          tracks := tracks[k := n];
        }
      }
    }
    if order == [] {
      return None, tracks;
    }
    var values := seq(|order|, j requires 0 <= j < |order| => tracks[order[j]]);
    var m := MaxOf(values);
    forall k | k in tracks
      ensures tracks[k] <= m
    {
      var j :| 0 <= j < |order| && order[j] == k;
      assert values[j] == tracks[k];
    }
    return Some(m), tracks;
  }
}
