/** Lavaduct lagoon (aoc23/day18.py): a dig plan of straight steps traces a
    closed rectilinear trench; the lagoon is measured by casting horizontal
    rays through the corners and classifying each wall the ray meets. */
module Day18 {
  import opened Common

  datatype Pos = Pos(x: int, y: int)

  /** The four headings, in the order `iter(Dir)` lists them. */
  datatype Dir = R | D | L | U

  function DX(d: Dir): int
  {
    match d
    case R => 1
    case L => -1
    case _ => 0
  }

  function DY(d: Dir): int
  {
    match d
    case D => 1
    case U => -1
    case _ => 0
  }

  /** `Dir.reflect`: the heading with the opposite unit vector. */
  function Reflect(d: Dir): (r: Dir)
    ensures DX(r) == -DX(d) && DY(r) == -DY(d)
  {
    match d
    case R => L
    case D => U
    case L => R
    case U => D
  }

  /** Reflecting twice is the identity, and no heading is its own reflection. */
  lemma ReflectInvolution(d: Dir)
    ensures Reflect(Reflect(d)) == d && Reflect(d) != d
  {
  }

  datatype Step = Step(d: Dir, n: nat)

  predicate IsDirLetter(c: char) { c == 'R' || c == 'D' || c == 'L' || c == 'U' }

  /** `Dir[letter]`. */
  function DirOf(c: char): (d: Dir)
    requires IsDirLetter(c)
    ensures Letter(d) == c
  {
    match c
    case 'R' => R
    case 'D' => D
    case 'L' => L
    case 'U' => U
  }

  function Letter(d: Dir): char
  {
    match d
    case R => 'R'
    case D => 'D'
    case L => 'L'
    case U => 'U'
  }

  /** `Step.parse`: `re.match(r'(R|D|L|U) (\d+) .*', line)`; a line that does
      not match makes `.groups()` fail (None). */
  function ParseStep(line: string): (r: Option<Step>)
    ensures r.Some? ==> |line| >= 4 && line[0] == Letter(r.value.d) && line[1] == ' '
  {
    if |line| >= 2 && IsDirLetter(line[0]) && line[1] == ' ' then
      var k := DigitRunEnd(line, 2);
      if k > 2 && k < |line| && line[k] == ' ' then Some(Step(DirOf(line[0]), DigitsValue(line[2..k])))
      else None
    else None
  }

  /** Parsing the text of a step, whatever follows it, gives the step back. */
  lemma {:induction false} ParseStepWritten(st: Step, tail: string)
    ensures ParseStep([Letter(st.d), ' '] + Decimal(st.n) + [' '] + tail) == Some(st)
  {
    var digits := Decimal(st.n);
    var line := [Letter(st.d), ' '] + digits + [' '] + tail;
    assert line[2..2 + |digits|] == digits;
    assert line[2 + |digits|] == ' ';
    DigitRunEndAt(line, 2, 2 + |digits|);
  }

  predicate IsHexDigit(c: char) { '0' <= c <= '9' || 'a' <= c <= 'f' }

  function HexDigitValue(c: char): (v: nat)
    requires IsHexDigit(c)
    ensures v < 16
  {
    if '0' <= c <= '9' then c as int - '0' as int else c as int - 'a' as int + 10
  }

  /** `int(s, 16)` of a run of lower-case hex digits. */
  function HexValue(s: string): (v: nat)
    requires forall i :: 0 <= i < |s| ==> IsHexDigit(s[i])
    ensures v < Pow16(|s|)
  {
    if s == [] then 0 else HexValue(s[..|s| - 1]) * 16 + HexDigitValue(s[|s| - 1])
  }

  function Pow16(n: nat): (p: nat)
    ensures p >= 1
  {
    if n == 0 then 1 else 16 * Pow16(n - 1)
  }

  /** `list(iter(Dir))[d]` for the direction digit of part b. */
  function DirOfDigit(c: char): (d: Dir)
    requires '0' <= c <= '3'
  {
    [R, D, L, U][c as int - '0' as int]
  }

  /** `Step.parse_b`: `re.match(r'(?:R|D|L|U) (?:\d+) \(#([0-9a-f]{5})([0-3])\)', line)`;
      the distance is the five hex digits, the heading the digit after them. */
  function ParseStepB(line: string): (r: Option<Step>)
    ensures r.Some? ==> r.value.n < 0x100000
  {
    if |line| >= 2 && IsDirLetter(line[0]) && line[1] == ' ' then
      var k := DigitRunEnd(line, 2);
      if k > 2 && k + 10 <= |line| && line[k..k + 3] == " (#" &&
         (forall i :: k + 3 <= i < k + 8 ==> IsHexDigit(line[i])) &&
         '0' <= line[k + 8] <= '3' && line[k + 9] == ')'
      then
        assert Pow16(5) == 0x100000;
        Some(Step(DirOfDigit(line[k + 8]), HexValue(line[k + 3..k + 8])))
      else None
    else None
  }

  /** The heading digits of part b name R, D, L and U in that order. */
  lemma DirDigits()
    ensures DirOfDigit('0') == R && DirOfDigit('1') == D && DirOfDigit('2') == L && DirOfDigit('3') == U
  {
  }

  /** The lower-case hex digit of a value below 16. */
  function HexDigit(x: nat): (c: char)
    requires x < 16
    ensures IsHexDigit(c) && HexDigitValue(c) == x
  {
    if x < 10 then ('0' as int + x) as char else ('a' as int + x - 10) as char
  }

  /** The last n hex digits of v, most significant first, as `{:05x}` writes them. */
  function HexText(v: nat, n: nat): (s: string)
    ensures |s| == n && forall i :: 0 <= i < |s| ==> IsHexDigit(s[i])
  {
    if n == 0 then [] else HexText(v / 16, n - 1) + [HexDigit(v % 16)]
  }

  /** `int(s, 16)` reads back a value written with enough hex digits. */
  lemma {:induction false} HexTextValue(v: nat, n: nat)
    requires v < Pow16(n)
    ensures HexValue(HexText(v, n)) == v
  {
    if n > 0 {
      var s := HexText(v, n);
      HexTextValue(v / 16, n - 1);
      assert s[..n - 1] == HexText(v / 16, n - 1);
    }
  }

  /** The heading digit part b writes for a direction. */
  function DigitOfDir(d: Dir): (c: char)
    ensures '0' <= c <= '3' && DirOfDigit(c) == d
  {
    match d
    case R => '0'
    case D => '1'
    case L => '2'
    case U => '3'
  }

  /** A part-b line: any direction letter and count, then the colour holding
      the distance in five hex digits and the heading digit. */
  function StepBLine(d0: Dir, m: nat, st: Step): string
    requires st.n < 0x100000
  {
    [Letter(d0), ' '] + Decimal(m) + " (#" + HexText(st.n, 5) + [DigitOfDir(st.d), ')']
  }

  /** A written part-b line, whatever follows it, reads back as the step its
      colour encodes: the distance from the hex digits, the heading from the
      last digit (0 to 3 for R, D, L, U). */
  lemma ParseStepBWritten(d0: Dir, m: nat, st: Step, tail: string)
    requires st.n < 0x100000
    ensures ParseStepB(StepBLine(d0, m, st) + tail) == Some(st)
  {
    assert Pow16(5) == 0x100000;
    HexTextValue(st.n, 5);
    StepBAt(StepBLine(d0, m, st) + tail, Letter(d0), Decimal(m), HexText(st.n, 5), DigitOfDir(st.d), tail);
  }

  lemma StepBAt(line: string, c: char, digits: string, hex: string, h: char, tail: string)
    requires line == [c, ' '] + digits + " (#" + hex + [h, ')'] + tail
    requires IsDirLetter(c) && digits != [] && AllDigits(digits)
    requires |hex| == 5 && (forall i :: 0 <= i < 5 ==> IsHexDigit(hex[i])) && '0' <= h <= '3'
    ensures ParseStepB(line) == Some(Step(DirOfDigit(h), HexValue(hex)))
  {
    var k := 2 + |digits|;
    assert line[2..k] == digits;
    assert line[k] == ' ';
    DigitRunEndAt(line, 2, k);
    assert line[k..k + 3] == " (#";
    assert line[k + 3..k + 8] == hex;
    assert line[k + 8] == h && line[k + 9] == ')';
  }

  /** `DigPlan.parse`/`parse_b` over stripped lines: None if any line fails. */
  function ParsePlan(lines: seq<string>, partB: bool): (r: Option<seq<Step>>)
    ensures r.Some? ==> |r.value| == |lines|
    ensures r.Some? ==> forall i :: 0 <= i < |lines| ==>
              Some(r.value[i]) == (if partB then ParseStepB(Strip(lines[i])) else ParseStep(Strip(lines[i])))
  {
    if lines == [] then Some([])
    else
      var s := if partB then ParseStepB(Strip(lines[0])) else ParseStep(Strip(lines[0]));
      match s
      case None => None
      case Some(st) =>
        match ParsePlan(lines[1..], partB)
        case None => None
        case Some(rest) =>
          assert forall i :: 1 <= i < |lines| ==> lines[i] == lines[1..][i - 1];
          Some([st] + rest)
  }

  datatype Path = Path(start: Pos, end: Pos)

  /** `Path.from_step`. */
  function FromStep(pos: Pos, st: Step): (p: Path)
    ensures p.start == pos
    ensures p.end.x - pos.x == st.n * DX(st.d) && p.end.y - pos.y == st.n * DY(st.d)
  {
    Path(pos, Pos(pos.x + st.n * DX(st.d), pos.y + st.n * DY(st.d)))
  }

  /** `Path.orientation`: vertical paths head U or D (D also for a point),
      the others L or R. */
  function Orientation(p: Path): Dir
  {
    if p.start.x == p.end.x then (if p.start.y > p.end.y then U else D)
    else if p.start.x > p.end.x then L
    else R
  }

  /** A path dug by a step of positive length heads the step's way. */
  lemma FromStepOrientation(pos: Pos, st: Step)
    requires st.n > 0
    ensures Orientation(FromStep(pos, st)) == st.d
  {
  }

  /** The closed interval between a and b, whichever is smaller. */
  predicate Between(a: int, b: int, v: int)
  {
    Min(a, b) <= v <= Max(a, b)
  }

  /** The bounding box of a path holds q. */
  predicate InBox(p: Path, q: Pos)
  {
    Between(p.start.x, p.end.x, q.x) && Between(p.start.y, p.end.y, q.y)
  }

  /** `Path.intersects`: the overlap of the two bounding boxes, None when the
      boxes are disjoint. */
  function Intersects(self: Path, other: Path): (r: Option<Path>)
  {
    var oL, oR := Min(other.start.x, other.end.x), Max(other.start.x, other.end.x);
    var sL, sR := Min(self.start.x, self.end.x), Max(self.start.x, self.end.x);
    var oU, oD := Min(other.start.y, other.end.y), Max(other.start.y, other.end.y);
    var sU, sD := Min(self.start.y, self.end.y), Max(self.start.y, self.end.y);
    if ((oL <= sL <= oR) || (sL <= oL <= sR)) && ((oU <= sU <= oD) || (sU <= oU <= sD)) then
      Some(Path(Pos(Max(oL, sL), Max(oU, sU)), Pos(Min(oR, sR), Min(oD, sD))))
    else None
  }

  /** The intersection holds exactly the points of both boxes; it is None
      exactly when no point lies in both, and the order of the two paths
      does not matter. */
  lemma IntersectsBoxes(a: Path, b: Path)
    ensures Intersects(a, b).Some? ==> forall q :: InBox(Intersects(a, b).value, q) <==> InBox(a, q) && InBox(b, q)
    ensures Intersects(a, b).None? <==> forall q :: !(InBox(a, q) && InBox(b, q))
    ensures Intersects(a, b) == Intersects(b, a)
  {
    if Intersects(a, b).None? {
      forall q ensures !(InBox(a, q) && InBox(b, q)) {
      }
    } else {
      var r := Intersects(a, b).value;
      assert InBox(a, r.start) && InBox(b, r.start);
    }
  }

  /** The paths dug from pos, one per step, each starting where the last
      one ended. */
  function DigFrom(pos: Pos, steps: seq<Step>): (paths: seq<Path>)
    ensures |paths| == |steps|
    ensures |steps| > 0 ==> paths[0] == FromStep(pos, steps[0])
    decreases |steps|
  {
    if steps == [] then []
    else
      var p := FromStep(pos, steps[0]);
      [p] + DigFrom(p.end, steps[1..])
  }

  /** The paths form a chain from pos: each is its step dug from where the
      previous one ended. */
  lemma {:induction false} DigFromChained(pos: Pos, steps: seq<Step>)
    ensures var paths := DigFrom(pos, steps);
            forall i :: 0 < i < |steps| ==> paths[i] == FromStep(paths[i - 1].end, steps[i])
    decreases |steps|
  {
    if steps != [] {
      var p := FromStep(pos, steps[0]);
      DigFromChained(p.end, steps[1..]);
      var paths := DigFrom(pos, steps);
      assert forall i :: 0 < i < |steps| ==> paths[i] == DigFrom(p.end, steps[1..])[i - 1];
    }
  }

  /** The chain ends at pos moved by every step in turn. */
  lemma {:induction false} DigFromEnds(pos: Pos, steps: seq<Step>)
    requires steps != []
    ensures var paths := DigFrom(pos, steps);
            paths[|paths| - 1].end == Pos(pos.x + Shift(steps, true), pos.y + Shift(steps, false))
    decreases |steps|
  {
    if |steps| > 1 {
      var p := FromStep(pos, steps[0]);
      DigFromEnds(p.end, steps[1..]);
      assert steps[1..][|steps| - 2] == steps[|steps| - 1];
      ShiftFront(steps);
    }
  }

  /** The total displacement of the steps along x (or y). */
  function Shift(steps: seq<Step>, alongX: bool): int
  {
    if steps == [] then 0
    else
      var st := steps[|steps| - 1];
      Shift(steps[..|steps| - 1], alongX) + st.n * (if alongX then DX(st.d) else DY(st.d))
  }

  lemma {:induction false} ShiftFront(steps: seq<Step>)
    requires steps != []
    ensures Shift(steps, true) == steps[0].n * DX(steps[0].d) + Shift(steps[1..], true)
    ensures Shift(steps, false) == steps[0].n * DY(steps[0].d) + Shift(steps[1..], false)
    decreases |steps|
  {
    if |steps| > 1 {
      ShiftFront(steps[..|steps| - 1]);
      assert steps[..|steps| - 1][1..] == steps[1..][..|steps| - 2];
    }
  }

  /** `DigPlan.dig`: the paths from (0, 0), one per step. */
  method Dig(steps: seq<Step>) returns (paths: seq<Path>)
    ensures paths == DigFrom(Pos(0, 0), steps)
  {
    var pos := Pos(0, 0);
    paths := [];
    for i := 0 to |steps|
      invariant paths + DigFrom(pos, steps[i..]) == DigFrom(Pos(0, 0), steps)
    {
      var path := FromStep(pos, steps[i]);
      assert steps[i..][1..] == steps[i + 1..];
      paths := paths + [path];
      pos := path.end;
    }
  }

  /** `defaultdict(set)` lookup: a missing corner reads as no headings. */
  function Get(m: map<Pos, set<Dir>>, q: Pos): set<Dir>
  {
    if q in m then m[q] else {}
  }

  /** The headings recorded at q for one path: its orientation at its start,
      the reflected orientation at its end. */
  predicate Marks(p: Path, q: Pos, d: Dir)
  {
    (p.start == q && d == Orientation(p)) || (p.end == q && d == Reflect(Orientation(p)))
  }

  /** `DigPaths.corners`, path by path. */
  function CornersOf(paths: seq<Path>): (m: map<Pos, set<Dir>>)
  {
    if paths == [] then map[]
    else
      var m := CornersOf(paths[..|paths| - 1]);
      var p := paths[|paths| - 1];
      var o := Orientation(p);
      var m1 := m[p.start := Get(m, p.start) + {o}];
      m1[p.end := Get(m1, p.end) + {Reflect(o)}]
  }

  /** Some path marks heading d at q. */
  predicate MarkedBy(paths: seq<Path>, q: Pos, d: Dir)
  {
    exists i :: 0 <= i < |paths| && Marks(paths[i], q, d)
  }

  /** q is an end of some path. */
  predicate EndOf(paths: seq<Path>, q: Pos)
  {
    exists i :: 0 <= i < |paths| && (paths[i].start == q || paths[i].end == q)
  }

  /** A heading is recorded at q exactly when some path marks it there. */
  lemma {:induction false} CornersOfMarks(paths: seq<Path>, q: Pos, d: Dir)
    ensures d in Get(CornersOf(paths), q) <==> MarkedBy(paths, q, d)
    decreases |paths|
  {
    if paths != [] {
      var init := paths[..|paths| - 1];
      CornersOfMarks(init, q, d);
      if MarkedBy(paths, q, d) {
        var i :| 0 <= i < |paths| && Marks(paths[i], q, d);
        if i < |init| {
          assert Marks(init[i], q, d);
        }
      }
      if MarkedBy(init, q, d) {
        var i :| 0 <= i < |init| && Marks(init[i], q, d);
        assert Marks(paths[i], q, d);
      }
    }
  }

  /** The corners are exactly the path ends. */
  lemma {:induction false} CornersOfKeys(paths: seq<Path>, q: Pos)
    ensures q in CornersOf(paths) <==> EndOf(paths, q)
    decreases |paths|
  {
    if paths != [] {
      var init := paths[..|paths| - 1];
      CornersOfKeys(init, q);
      if EndOf(paths, q) {
        var i :| 0 <= i < |paths| && (paths[i].start == q || paths[i].end == q);
        if i < |init| {
          assert init[i].start == q || init[i].end == q;
        }
      }
      if EndOf(init, q) {
        var i :| 0 <= i < |init| && (init[i].start == q || init[i].end == q);
        assert paths[i] == init[i];
      }
    }
  }

  /** The loop of `DigPaths.corners`. */
  method Corners(paths: seq<Path>) returns (corners: map<Pos, set<Dir>>)
    ensures corners == CornersOf(paths)
  {
    corners := map[];
    for i := 0 to |paths|
      invariant corners == CornersOf(paths[..i])
    {
      var p := paths[i];
      assert paths[..i + 1][..i] == paths[..i];
      corners := corners[p.start := Get(corners, p.start) + {Orientation(p)}];
      corners := corners[p.end := Get(corners, p.end) + {Reflect(Orientation(p))}];
    }
    assert paths[..|paths|] == paths;
  }

  // ---------------------------------------------------------------------
  // `count_interior`

  /** An entry of the `state` stack: a region that starts at a corner and
      is outside ('o') or inside ('i'), or the start of a horizontal wall
      with the headings of its corner. */
  datatype Entry = Region(at: Pos, inside: bool) | Wall(at: Pos, types: set<Dir>)

  predicate IsOut(e: Entry) { e.Region? && !e.inside }
  predicate IsIn(e: Entry) { e.Region? && e.inside }

  /** One corner of `count_interior`; None where the source fails: popping
      or reading an empty stack (IndexError) or meeting a region where a
      wall start belongs (`&` of a set and a string). */
  function Scan(stack: seq<Entry>, count: int, c: Pos, t: set<Dir>): Option<(seq<Entry>, int)>
  {
    if R in t then Some((stack + [Wall(c, t)], count))
    else if L in t then
      if |stack| < 2 then None
      else
        var top := stack[|stack| - 1];
        var rest := stack[..|stack| - 1];
        var below := rest[|rest| - 1];
        if top.Region? then None
        else if t * top.types != {} then
          if IsOut(below) then Some((rest, count + (c.x - top.at.x) + 1)) else Some((rest, count))
        else if IsOut(below) then
          Some((rest[..|rest| - 1] + [Region(c, true)], count + (c.x - top.at.x) + 1))
        else if IsIn(below) then
          Some((rest[..|rest| - 1] + [Region(c, false)], count + c.x - below.at.x))
        else Some((rest, count))
    else if stack == [] then None
    else
      var top := stack[|stack| - 1];
      if IsIn(top) then Some((stack[..|stack| - 1] + [Region(c, false)], count + c.x - top.at.x))
      else Some((stack[..|stack| - 1] + [Region(c, true)], count + 1))
  }

  /** A wall crossed at right angles turns the region on top of the stack
      from outside to inside and back, and leaves the rest of the stack. */
  lemma CrossingToggles(stack: seq<Entry>, count: int, c: Pos, t: set<Dir>)
    requires R !in t && L !in t && stack != [] && stack[|stack| - 1].Region?
    ensures Scan(stack, count, c, t).Some?
    ensures var (s, _) := Scan(stack, count, c, t).value;
            s == stack[..|stack| - 1] + [Region(c, !stack[|stack| - 1].inside)]
  {
  }

  /** The rest of `count_interior` from a given stack and count. */
  function ScanFrom(stack: seq<Entry>, count: int, cs: seq<(Pos, set<Dir>)>): Option<int>
    decreases |cs|
  {
    if cs == [] then Some(count)
    else
      match Scan(stack, count, cs[0].0, cs[0].1)
      case None => None
      case Some((s, n)) => ScanFrom(s, n, cs[1..])
  }

  /** `count_interior` from its initial stack `[(Pos(0, 0), OUT)]`. */
  function ScanAll(cs: seq<(Pos, set<Dir>)>): Option<int>
  {
    ScanFrom([Region(Pos(0, 0), false)], 0, cs)
  }

  /** `count_interior`. */
  method CountInterior(cs: seq<(Pos, set<Dir>)>) returns (r: Option<int>)
    ensures r == ScanAll(cs)
  {
    var state := [Region(Pos(0, 0), false)];
    var count := 0;
    for i := 0 to |cs|
      invariant ScanFrom(state, count, cs[i..]) == ScanAll(cs)
    {
      var (corner, t) := cs[i];
      assert cs[i..][1..] == cs[i + 1..];
      if R in t {
        state := state + [Wall(corner, t)];
      } else if L in t {
        if |state| < 2 {
          return None;
        }
        var top := state[|state| - 1];
        state := state[..|state| - 1];
        var below := state[|state| - 1];
        if top.Region? {
          return None;
        }
        if t * top.types != {} {
          if IsOut(below) {
            count := count + (corner.x - top.at.x) + 1;
          }
        } else if IsOut(below) {
          count := count + (corner.x - top.at.x) + 1;
          state := state[..|state| - 1] + [Region(corner, true)];
        } else if IsIn(below) {
          count := count + corner.x - below.at.x;
          state := state[..|state| - 1] + [Region(corner, false)];
        }
      } else {
        if state == [] {
          return None;
        }
        var top := state[|state| - 1];
        if IsIn(top) {
          state := state[..|state| - 1] + [Region(corner, false)];
          count := count + corner.x - top.at.x;
        } else {
          state := state[..|state| - 1] + [Region(corner, true)];
          count := count + 1;
        }
      }
    }
    assert cs[|cs|..] == [];
    return Some(count);
  }

  /** The corners a ray meets, listed from left to right. */
  predicate SortedByX(cs: seq<(Pos, set<Dir>)>)
  {
    forall i, j :: 0 <= i < j < |cs| ==> cs[i].0.x <= cs[j].0.x
  }

  /** Every wall start and every inside region on the stack begins at or
      left of x. */
  predicate Behind(stack: seq<Entry>, x: int)
  {
    forall i :: 0 <= i < |stack| ==> (stack[i].Wall? || IsIn(stack[i])) ==> stack[i].at.x <= x
  }

  lemma ScanGrows(stack: seq<Entry>, count: int, c: Pos, t: set<Dir>)
    requires Behind(stack, c.x) && Scan(stack, count, c, t).Some?
    ensures var (s, n) := Scan(stack, count, c, t).value; n >= count && Behind(s, c.x)
  {
    var (s, n) := Scan(stack, count, c, t).value;
    if !(R in t) && stack != [] {
      assert stack[|stack| - 1] == stack[|stack| - 1];
    }
    if L in t && |stack| >= 2 {
      assert stack[|stack| - 2] == stack[..|stack| - 1][|stack| - 2];
    }
    forall i | 0 <= i < |s| && (s[i].Wall? || IsIn(s[i])) ensures s[i].at.x <= c.x {
      if i < |stack| && s[i] == stack[i] {
      }
    }
  }

  /** On corners sorted from left to right the count never decreases. */
  lemma {:induction false} ScanFromGrows(stack: seq<Entry>, count: int, x: int, cs: seq<(Pos, set<Dir>)>)
    requires SortedByX(cs) && Behind(stack, x) && (cs != [] ==> x <= cs[0].0.x)
    ensures ScanFrom(stack, count, cs).Some? ==> ScanFrom(stack, count, cs).value >= count
    decreases |cs|
  {
    if cs != [] {
      var c := cs[0].0;
      assert Behind(stack, c.x);
      match Scan(stack, count, c, cs[0].1)
      case None =>
      case Some((s, n)) =>
        ScanGrows(stack, count, c, cs[0].1);
        if |cs| > 1 {
          assert cs[1..][0] == cs[1];
        }
        ScanFromGrows(s, n, c.x, cs[1..]);
    }
  }

  /** `count_interior` of corners sorted from left to right is never negative. */
  lemma ScanAllNonNegative(cs: seq<(Pos, set<Dir>)>)
    requires SortedByX(cs)
    ensures ScanAll(cs).Some? ==> ScanAll(cs).value >= 0
  {
    var x := if cs == [] then 0 else cs[0].0.x;
    ScanFromGrows([Region(Pos(0, 0), false)], 0, x, cs);
  }

  // ---------------------------------------------------------------------
  // `raycast_interior`

  predicate StrictlyAscending(xs: seq<int>)
  {
    forall i, j :: 0 <= i < j < |xs| ==> xs[i] < xs[j]
  }

  /** x inserted into an ascending list without duplicates. */
  function Insert(s: seq<int>, x: int): (r: seq<int>)
    requires StrictlyAscending(s)
    ensures StrictlyAscending(r)
    ensures forall v :: v in r <==> v in s || v == x
  {
    if s == [] then [x]
    else if x < s[0] then [x] + s
    else if x == s[0] then s
    else
      var rest := Insert(s[1..], x);
      assert forall v :: v in s[1..] ==> s[0] < v;
      assert forall j :: 0 <= j < |rest| ==> s[0] < rest[j] by {
        forall j | 0 <= j < |rest| ensures s[0] < rest[j] {
          assert rest[j] in rest;
        }
      }
      [s[0]] + rest
  }

  /** `sorted(set(xs))`: the distinct values, ascending. */
  function SortedSet(xs: seq<int>): (r: seq<int>)
    ensures StrictlyAscending(r)
    ensures |xs| > 0 ==> |r| > 0
  {
    if xs == [] then [] else Insert(SortedSet(xs[..|xs| - 1]), xs[|xs| - 1])
  }

  /** The sorted list holds exactly the values of xs. */
  lemma {:induction false} SortedSetMembers(xs: seq<int>)
    ensures forall v :: v in SortedSet(xs) <==> v in xs
  {
    if xs != [] {
      SortedSetMembers(xs[..|xs| - 1]);
      assert forall v :: v in xs <==> v in xs[..|xs| - 1] || v == xs[|xs| - 1];
    }
  }

  /** Both ends of every path, in order: the keys of `corners`. */
  function EndPoints(paths: seq<Path>): (ps: seq<Pos>)
    ensures |ps| == 2 * |paths|
  {
    if paths == [] then []
    else EndPoints(paths[..|paths| - 1]) + [paths[|paths| - 1].start, paths[|paths| - 1].end]
  }

  /** The end points are exactly the keys `corners` gets. */
  lemma {:induction false} EndPointsAreCorners(paths: seq<Path>, q: Pos)
    ensures q in EndPoints(paths) <==> q in CornersOf(paths)
    decreases |paths|
  {
    if paths != [] {
      var init := paths[..|paths| - 1];
      EndPointsAreCorners(init, q);
    }
  }

  function Xs(ps: seq<Pos>): (xs: seq<int>)
    ensures |xs| == |ps| && forall i :: 0 <= i < |ps| ==> xs[i] == ps[i].x
  {
    seq(|ps|, i requires 0 <= i < |ps| => ps[i].x)
  }

  /** The rows of interest: every corner row and the row below it, sorted. */
  function RowsOfInterest(ends: seq<Pos>): (rows: seq<int>)
    ensures StrictlyAscending(rows)
    ensures |ends| > 0 ==> |rows| > 0
  {
    SortedSet(Ys(ends, 0) + Ys(ends, 1))
  }

  /** The rows of the points, moved down by `below`. */
  function Ys(ps: seq<Pos>, below: int): (ys: seq<int>)
    ensures |ys| == |ps| && forall i :: 0 <= i < |ps| ==> ys[i] == ps[i].y + below
  {
    seq(|ps|, i requires 0 <= i < |ps| => ps[i].y + below)
  }

  /** y is the row of some end point or the row just below one. */
  predicate CornerRow(ends: seq<Pos>, y: int)
  {
    exists i :: 0 <= i < |ends| && (y == ends[i].y || y == ends[i].y + 1)
  }

  /** The rows of interest are exactly the corner rows and the rows just
      below them. */
  lemma RowsOfInterestCover(ends: seq<Pos>, y: int)
    ensures y in RowsOfInterest(ends) <==> CornerRow(ends, y)
  {
    var both := Ys(ends, 0) + Ys(ends, 1);
    SortedSetMembers(both);
    assert y in RowsOfInterest(ends) <==> y in both;
    if y in both {
      var j :| 0 <= j < |both| && both[j] == y;
      if j < |ends| {
        assert y == ends[j].y;
      } else {
        assert y == ends[j - |ends|].y + 1;
      }
    }
    if CornerRow(ends, y) {
      var i :| 0 <= i < |ends| && (y == ends[i].y || y == ends[i].y + 1);
      if y == ends[i].y {
        assert both[i] == y;
      } else {
        assert both[|ends| + i] == y;
      }
    }
  }

  /** The non-None intersections of the paths with a ray, both ends of each. */
  function IntersectionEnds(paths: seq<Path>, ray: Path): (ends: seq<Pos>)
  {
    if paths == [] then []
    else
      var rest := IntersectionEnds(paths[..|paths| - 1], ray);
      match Intersects(paths[|paths| - 1], ray)
      case None => rest
      case Some(p) => rest + [p.start, p.end]
  }

  /** The corners a ray at row y meets, classified and sorted by x
      (the hits of one row differ in x, so the order is total). */
  function RayCorners(paths: seq<Path>, corners: map<Pos, set<Dir>>, xMin: int, xMax: int, y: int)
    : (cs: seq<(Pos, set<Dir>)>)
  {
    var ends := IntersectionEnds(paths, Path(Pos(xMin, y), Pos(xMax, y)));
    Classify(corners, SortedSet(FilterRow(ends, y)), y)
  }

  /** The points at the given x on row y, each with its corner headings. */
  function Classify(corners: map<Pos, set<Dir>>, xs: seq<int>, y: int): (cs: seq<(Pos, set<Dir>)>)
    ensures |cs| == |xs|
  {
    if xs == [] then []
    else Classify(corners, xs[..|xs| - 1], y) + [(Pos(xs[|xs| - 1], y), Get(corners, Pos(xs[|xs| - 1], y)))]
  }

  /** Each x becomes its point on row y with that point's headings, in the
      same order. */
  lemma {:induction false} ClassifyAt(corners: map<Pos, set<Dir>>, xs: seq<int>, y: int)
    ensures forall i :: 0 <= i < |xs| ==> Classify(corners, xs, y)[i] == (Pos(xs[i], y), Get(corners, Pos(xs[i], y)))
  {
    if xs != [] {
      ClassifyAt(corners, xs[..|xs| - 1], y);
    }
  }

  /** The corners the ray meets come sorted from left to right. */
  lemma RayCornersSorted(paths: seq<Path>, corners: map<Pos, set<Dir>>, xMin: int, xMax: int, y: int)
    ensures SortedByX(RayCorners(paths, corners, xMin, xMax, y))
  {
    var xs := SortedSet(FilterRow(IntersectionEnds(paths, Path(Pos(xMin, y), Pos(xMax, y))), y));
    ClassifyAt(corners, xs, y);
  }

  /** The x of every end on row y. */
  function FilterRow(ends: seq<Pos>, y: int): (xs: seq<int>)
    ensures |xs| <= |ends|
  {
    if ends == [] then []
    else
      var rest := FilterRow(ends[..|ends| - 1], y);
      var e := ends[|ends| - 1];
      if e.y == y then rest + [e.x] else rest
  }

  /** The filtered x are exactly those of the ends on row y. */
  lemma {:induction false} FilterRowMembers(ends: seq<Pos>, y: int)
    ensures forall x :: x in FilterRow(ends, y) <==> Pos(x, y) in ends
  {
    if ends != [] {
      FilterRowMembers(ends[..|ends| - 1], y);
      assert forall q :: q in ends <==> q in ends[..|ends| - 1] || q == ends[|ends| - 1];
    }
  }

  /** `count_interior` of the corners on the ray at row y. */
  function RowCount(paths: seq<Path>, corners: map<Pos, set<Dir>>, xMin: int, xMax: int, y: int)
    : (r: Option<int>)
  {
    ScanAll(RayCorners(paths, corners, xMin, xMax, y))
  }

  /** A row's count is never negative. */
  lemma RowCountNonNegative(paths: seq<Path>, corners: map<Pos, set<Dir>>, xMin: int, xMax: int, y: int)
    ensures RowCount(paths, corners, xMin, xMax, y).Some? ==> RowCount(paths, corners, xMin, xMax, y).value >= 0
  {
    RayCornersSorted(paths, corners, xMin, xMax, y);
    ScanAllNonNegative(RayCorners(paths, corners, xMin, xMax, y));
  }

  /** `count_interior` of each row of interest, in order. */
  function RowCounts(paths: seq<Path>, corners: map<Pos, set<Dir>>, xMin: int, xMax: int, rows: seq<int>)
    : (counts: seq<Option<int>>)
    ensures |counts| == |rows|
  {
    if rows == [] then []
    else RowCounts(paths, corners, xMin, xMax, rows[..|rows| - 1]) + [RowCount(paths, corners, xMin, xMax, rows[|rows| - 1])]
  }

  lemma {:induction false} RowCountsAt(paths: seq<Path>, corners: map<Pos, set<Dir>>, xMin: int, xMax: int,
                                        rows: seq<int>, k: nat)
    requires k < |rows|
    ensures RowCounts(paths, corners, xMin, xMax, rows)[k] == RowCount(paths, corners, xMin, xMax, rows[k])
  {
    if k < |rows| - 1 {
      RowCountsAt(paths, corners, xMin, xMax, rows[..|rows| - 1], k);
    }
  }

  /** The sum over the first k rows of interest of run length (the gap to
      the next row) times the count on that row; None if a count fails. */
  function RaySum(rows: seq<int>, counts: seq<Option<int>>, k: nat): Option<int>
    requires k < |rows| == |counts|
  {
    if k == 0 then Some(0)
    else
      match RaySum(rows, counts, k - 1)
      case None => None
      case Some(s) =>
        match counts[k - 1]
        case None => None
        case Some(c) => Some(s + (rows[k] - rows[k - 1]) * c)
  }

  /** `raycast_interior` as a value: None for no paths (`min` of nothing) or
      a failing count. */
  function Raycast(paths: seq<Path>): Option<int>
  {
    if paths == [] then None
    else
      var ends := EndPoints(paths);
      var xs := Xs(ends);
      var rows := RowsOfInterest(ends);
      RaySum(rows, RowCounts(paths, CornersOf(paths), MinOf(xs), MaxOf(xs), rows), |rows| - 1)
  }

  /** Every row contributes a positive run length times a count that is not
      negative, so the sum is never negative. */
  lemma {:induction false} RaySumNonNegative(rows: seq<int>, counts: seq<Option<int>>, k: nat)
    requires k < |rows| == |counts| && StrictlyAscending(rows)
    requires forall i :: 0 <= i < |counts| && counts[i].Some? ==> counts[i].value >= 0
    ensures RaySum(rows, counts, k).Some? ==> RaySum(rows, counts, k).value >= 0
  {
    if k > 0 {
      RaySumNonNegative(rows, counts, k - 1);
      if counts[k - 1].Some? {
        assert rows[k - 1] < rows[k];
        MulNonNegative(rows[k] - rows[k - 1], counts[k - 1].value);
      }
    }
  }

  /** One more row: its run length times its count joins the sum. */
  lemma RaySumNext(rows: seq<int>, counts: seq<Option<int>>, k: nat, s: int)
    requires k + 1 < |rows| == |counts| && RaySum(rows, counts, k) == Some(s)
    ensures counts[k].None? ==> RaySum(rows, counts, k + 1).None?
    ensures counts[k].Some? ==> RaySum(rows, counts, k + 1) == Some(s + (rows[k + 1] - rows[k]) * counts[k].value)
  {
  }

  /** Once a row fails, the whole sum fails. */
  lemma {:induction false} RaySumStaysNone(rows: seq<int>, counts: seq<Option<int>>, k: nat, k': nat)
    requires k <= k' < |rows| == |counts| && RaySum(rows, counts, k).None?
    ensures RaySum(rows, counts, k').None?
    decreases k' - k
  {
    if k < k' {
      RaySumStaysNone(rows, counts, k + 1, k');
    }
  }

  lemma MulNonNegative(a: int, b: int)
    requires a >= 0 && b >= 0
    ensures a * b >= 0
  {
  }

  lemma RaycastNonNegative(paths: seq<Path>)
    ensures Raycast(paths).Some? ==> Raycast(paths).value >= 0
  {
    if paths != [] {
      var ends := EndPoints(paths);
      var rows := RowsOfInterest(ends);
      var xs := Xs(ends);
      var corners := CornersOf(paths);
      var counts := RowCounts(paths, corners, MinOf(xs), MaxOf(xs), rows);
      forall i | 0 <= i < |counts| && counts[i].Some? ensures counts[i].value >= 0 {
        RowCountsAt(paths, corners, MinOf(xs), MaxOf(xs), rows, i);
        RowCountNonNegative(paths, corners, MinOf(xs), MaxOf(xs), rows[i]);
      }
      RaySumNonNegative(rows, counts, |rows| - 1);
    }
  }

  /** The setup of `DigPaths.raycast_interior`: corners, the x range and
      the rows of interest, then the loop over the rows. */
  method RaycastInterior(paths: seq<Path>) returns (r: Option<int>)
    ensures r == Raycast(paths)
  {
    if paths == [] {
      return None;
    }
    var corners := Corners(paths);
    var ends := EndPoints(paths);
    var xs := Xs(ends);
    var rows := RowsOfInterest(ends);
    r := SumRows(paths, corners, MinOf(xs), MaxOf(xs), rows);
  }

  /** The loop of `DigPaths.raycast_interior` over the rows of interest. */
  method SumRows(paths: seq<Path>, corners: map<Pos, set<Dir>>, xMin: int, xMax: int, rows: seq<int>)
    returns (r: Option<int>)
    requires |rows| > 0
    ensures r == RaySum(rows, RowCounts(paths, corners, xMin, xMax, rows), |rows| - 1)
  {
    ghost var counts := RowCounts(paths, corners, xMin, xMax, rows);
    var size := 0;
    for k := 0 to |rows| - 1
      invariant RaySum(rows, counts, k) == Some(size)
    {
      var c := CountRow(paths, corners, xMin, xMax, rows, k);
      RaySumNext(rows, counts, k, size);
      if c.None? {
        RaySumStaysNone(rows, counts, k + 1, |rows| - 1);
        return None;
      }
      size := size + (rows[k + 1] - rows[k]) * c.value;
    }
    return Some(size);
  }

  /** `count_interior` of the corners on row `rows[k]`. */
  method CountRow(paths: seq<Path>, corners: map<Pos, set<Dir>>, xMin: int, xMax: int, rows: seq<int>, k: nat)
    returns (c: Option<int>)
    requires k < |rows|
    ensures c == RowCounts(paths, corners, xMin, xMax, rows)[k]
  {
    c := CountInterior(RayCorners(paths, corners, xMin, xMax, rows[k]));
    RowCountsAt(paths, corners, xMin, xMax, rows, k);
  }

  /** `day18a` (partB false) and `day18b` (partB true). */
  method Day18(lines: seq<string>, partB: bool) returns (r: Option<int>)
    ensures ParsePlan(lines, partB).None? ==> r.None?
    ensures ParsePlan(lines, partB).Some? ==> r == Raycast(DigFrom(Pos(0, 0), ParsePlan(lines, partB).value))
    ensures r.Some? ==> r.value >= 0
  {
    var steps := ParsePlan(lines, partB);
    if steps.None? {
      return None;
    }
    var paths := Dig(steps.value);
    r := RaycastInterior(paths);
    RaycastNonNegative(paths);
  }
}
