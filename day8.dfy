/** Haunted wasteland (aoc23/day8.py): walk a graph of nodes with left and
    right exits, taking turns from a repeating route, and count the ticks. */
module Day8 {
  import opened Common

  /** `route` holds 0 for L and 1 for R; `graph` maps a node to its (left,
      right) pair; `order` lists the nodes in the order the dictionary saw them. */
  datatype Puzzle = Puzzle(route: seq<nat>, graph: map<string, (string, string)>, order: seq<string>)

  predicate ValidRoute(route: seq<nat>)
  {
    forall i :: 0 <= i < |route| ==> route[i] < 2
  }

  /** `graph[node][choice]`. */
  function Exit(links: (string, string), choice: nat): string
  {
    if choice == 0 then links.0 else links.1
  }

  /** The node reached after t ticks of `follow` from `start`: tick k uses
      `route[(k - 1) mod |route|]`. None once a node is missing from the graph
      (the KeyError) or when the route is empty. */
  function Walk(p: Puzzle, start: string, t: nat): (r: Option<string>)
    ensures t == 0 ==> r == Some(start)
  {
    if t == 0 then Some(start)
    else match Walk(p, start, t - 1)
      case None => None
      case Some(n) =>
        if |p.route| == 0 || n !in p.graph then None
        else Some(Exit(p.graph[n], p.route[(t - 1) % |p.route|]))
  }

  /** Once the walk fails it stays failed. */
  lemma {:induction false} WalkFailureSticks(p: Puzzle, start: string, t: nat, u: nat)
    requires t <= u && Walk(p, start, t).None?
    ensures Walk(p, start, u).None?
    decreases u - t
  {
    if t < u {
      WalkFailureSticks(p, start, t, u - 1);
    }
  }

  /** Walking is periodic in the route: after a whole number of laps that end
      where they started, the walk repeats. */
  lemma {:induction false} WalkShift(p: Puzzle, start: string, a: nat, t: nat)
    requires |p.route| > 0 && a % |p.route| == 0 && Walk(p, start, a) == Some(start)
    ensures Walk(p, start, a + t) == Walk(p, start, t)
  {
    if t > 0 {
      WalkShift(p, start, a, t - 1);
      assert (a + t - 1) % |p.route| == (t - 1) % |p.route| by {
        ModShift(a, t - 1, |p.route|);
      }
    }
  }

  lemma ModShift(a: nat, b: nat, n: nat)
    requires n > 0 && a % n == 0
    ensures (a + b) % n == b % n
  {
    var q := a / n;
    assert a == q * n;
    assert (q * n + b) % n == b % n by {
      LemmaAddMultiple(b, q, n);
    }
  }

  lemma {:induction false} LemmaAddMultiple(b: nat, q: nat, n: nat)
    requires n > 0
    ensures (q * n + b) % n == b % n
    decreases q
  {
    if q > 0 {
      LemmaAddMultiple(b, q - 1, n);
      var x := (q - 1) * n + b;
      assert q * n + b == x + n;
      ModAddModulus(x, n);
    }
  }

  lemma ModAddModulus(x: nat, n: nat)
    requires n > 0
    ensures (x + n) % n == x % n
  {
    var y := x + n;
    var k := y / n - x / n - 1;
    assert k * n == x % n - y % n by {
      assert x == (x / n) * n + x % n;
      assert y == (y / n) * n + y % n;
      assert k * n == (y / n) * n - (x / n) * n - n;
    }
    SmallMultiple(k, n);
  }

  /** The only multiple of n strictly between -n and n is 0. */
  lemma SmallMultiple(k: int, n: int)
    requires n > 0 && -n < k * n < n
    ensures k * n == 0
  {
    MultipleBounds(k, n);
  }

  lemma MultipleBounds(k: int, n: int)
    requires n > 0
    ensures k >= 1 ==> k * n >= n
    ensures k <= -1 ==> k * n <= -n
  {
    if k >= 1 {
      assert k * n == (k - 1) * n + n;
      assert (k - 1) * n >= 0;
    } else if k <= -1 {
      assert k * n == (k + 1) * n - n;
      assert (k + 1) * n <= 0;
    }
  }

  datatype Outcome = Reached(tick: nat) | Missing(tick: nat) | OutOfFuel

  /** The walk of `follow` until the first tick whose node satisfies `goal`,
      for at most `fuel` ticks (the source loops without bound). */
  method FirstGoal(p: Puzzle, start: string, goal: string -> bool, fuel: nat) returns (r: Outcome)
    ensures r.Reached? ==> 1 <= r.tick <= fuel && Walk(p, start, r.tick).Some? &&
                           goal(Walk(p, start, r.tick).value) &&
                           forall t :: 1 <= t < r.tick ==> Walk(p, start, t).Some? && !goal(Walk(p, start, t).value)
    ensures r.Missing? ==> 1 <= r.tick <= fuel && Walk(p, start, r.tick).None? &&
                           forall t :: 1 <= t < r.tick ==> Walk(p, start, t).Some? && !goal(Walk(p, start, t).value)
    ensures r.OutOfFuel? ==> forall t :: 1 <= t <= fuel ==> Walk(p, start, t).Some? && !goal(Walk(p, start, t).value)
  {
    var node := start;
    var tick := 0;
    while tick < fuel
      invariant 0 <= tick <= fuel
      invariant Walk(p, start, tick) == Some(node)
      invariant forall t :: 1 <= t <= tick ==> Walk(p, start, t).Some? && !goal(Walk(p, start, t).value)
    {
      if |p.route| == 0 || node !in p.graph {
        return Missing(tick + 1);
      }
      var choice := p.route[tick % |p.route|];
      tick := tick + 1;
      node := Exit(p.graph[node], choice);
      if goal(node) {
        return Reached(tick);
      }
    }
    return OutOfFuel;
  }

  /** `day8a`: the first tick at which the walk from AAA stands on ZZZ. */
  method Day8A(p: Puzzle, fuel: nat) returns (r: Outcome)
    ensures r.Reached? ==> Walk(p, "AAA", r.tick) == Some("ZZZ") &&
                           forall t :: 1 <= t < r.tick ==> Walk(p, "AAA", t) != Some("ZZZ")
    ensures r.Missing? ==> 1 <= r.tick <= fuel && Walk(p, "AAA", r.tick).None? &&
                           forall t :: 1 <= t < r.tick ==> Walk(p, "AAA", t).Some? && Walk(p, "AAA", t) != Some("ZZZ")
    ensures r.OutOfFuel? ==> forall t :: 1 <= t <= fuel ==> Walk(p, "AAA", t).Some? && Walk(p, "AAA", t) != Some("ZZZ")
  {
    r := FirstGoal(p, "AAA", n => n == "ZZZ", fuel);
  }

  predicate EndsWithZ(n: string) { |n| > 0 && n[|n| - 1] == 'Z' }

  datatype Measure = Measured(first: nat, second: nat) | Unmeasured

  /** The walk stands on a node ending in Z at tick t. */
  ghost predicate OnZ(p: Puzzle, start: string, t: nat)
  {
    Walk(p, start, t).Some? && EndsWithZ(Walk(p, start, t).value)
  }

  /** How many of the ticks 1..n stand on a node ending in Z. */
  ghost function ZTicks(p: Puzzle, start: string, n: nat): nat
  {
    if n == 0 then 0 else ZTicks(p, start, n - 1) + (if OnZ(p, start, n) then 1 else 0)
  }

  lemma {:induction false} ZTicksGrow(p: Puzzle, start: string, m: nat, n: nat)
    requires m <= n
    ensures ZTicks(p, start, m) <= ZTicks(p, start, n)
    decreases n
  {
    if m < n {
      ZTicksGrow(p, start, m, n - 1);
    }
  }

  /** After the walk fails no further tick stands on Z. */
  lemma {:induction false} ZTicksAfterFailure(p: Puzzle, start: string, t: nat, n: nat)
    requires 1 <= t <= n + 1 && Walk(p, start, t).None?
    ensures ZTicks(p, start, n) == ZTicks(p, start, t - 1)
    decreases n
  {
    if n >= t {
      ZTicksAfterFailure(p, start, t, n - 1);
      WalkFailureSticks(p, start, t, n);
    }
  }

  /** `measure_cycle`: the first two ticks of the walk that stand on a node
      ending in Z; the cycle length is their difference. */
  method MeasureCycle(p: Puzzle, start: string, fuel: nat) returns (m: Measure)
    ensures m.Measured? ==>
              1 <= m.first < m.second &&
              Walk(p, start, m.first).Some? && EndsWithZ(Walk(p, start, m.first).value) &&
              Walk(p, start, m.second).Some? && EndsWithZ(Walk(p, start, m.second).value) &&
              (forall t :: 1 <= t < m.second && t != m.first ==>
                 Walk(p, start, t).Some? && !EndsWithZ(Walk(p, start, t).value))
    ensures m.Measured? ==> m.second <= fuel
    ensures m.Measured? <==> ZTicks(p, start, fuel) >= 2
  {
    var node := start;
    var tick := 0;
    var first: Option<nat> := None;
    while tick < fuel
      invariant 0 <= tick <= fuel
      invariant Walk(p, start, tick) == Some(node)
      invariant first.Some? ==> 1 <= first.value <= tick &&
                                Walk(p, start, first.value).Some? && EndsWithZ(Walk(p, start, first.value).value)
      invariant forall t :: 1 <= t <= tick && (first.None? || t != first.value) ==>
                  Walk(p, start, t).Some? && !EndsWithZ(Walk(p, start, t).value)
      invariant ZTicks(p, start, tick) == if first.Some? then 1 else 0
    {
      if |p.route| == 0 || node !in p.graph {
        ZTicksAfterFailure(p, start, tick + 1, fuel);
        return Unmeasured;
      }
      var choice := p.route[tick % |p.route|];
      tick := tick + 1;
      node := Exit(p.graph[node], choice);
      if EndsWithZ(node) {
        if first.Some? {
          ZTicksGrow(p, start, tick, fuel);
          return Measured(first.value, tick);
        }
        first := Some(tick);
      }
    }
    return Unmeasured;
  }

  /** `ghost_starts`: the nodes ending in A, in dictionary order. */
  function GhostStarts(p: Puzzle): (r: seq<string>)
    ensures forall n :: n in r <==> n in p.order && |n| > 0 && n[|n| - 1] == 'A'
  {
    Filter(p.order)
  }

  function Filter(ns: seq<string>): (r: seq<string>)
    ensures forall n :: n in r <==> n in ns && |n| > 0 && n[|n| - 1] == 'A'
  {
    if ns == [] then []
    else (if |ns[0]| > 0 && ns[0][|ns[0]| - 1] == 'A' then [ns[0]] else []) + Filter(ns[1..])
  }

  function Gcd(a: nat, b: nat): (g: nat)
    ensures a > 0 || b > 0 ==> g > 0
    decreases b
  {
    if b == 0 then a else Gcd(b, a % b)
  }

  ghost predicate Divides(d: nat, n: nat)
  {
    exists k: nat :: k * d == n
  }

  /** `math.lcm` of two naturals: 0 if either is 0. */
  function Lcm(a: nat, b: nat): nat
  {
    if a == 0 || b == 0 then 0 else a / Gcd(a, b) * b
  }

  /** `math.lcm(*xs)`: 1 for no arguments. */
  function LcmAll(xs: seq<nat>): nat
  {
    if xs == [] then 1 else Lcm(LcmAll(xs[..|xs| - 1]), xs[|xs| - 1])
  }

  /** The Euclidean step keeps the common divisors. */
  lemma {:induction false} GcdDivides(a: nat, b: nat)
    ensures Divides(Gcd(a, b), a) && Divides(Gcd(a, b), b)
    decreases b
  {
    if b == 0 {
      assert 0 * a == 0;
      assert 1 * a == a;
    } else {
      GcdDivides(b, a % b);
      var g := Gcd(b, a % b);
      assert Gcd(a, b) == g;
      var k1: nat :| k1 * g == b;
      var k2: nat :| k2 * g == a % b;
      DividesSum(a, b, a / b, a % b, g, k1, k2);
    }
  }

  /** A common divisor of b and r divides q * b + r. */
  lemma DividesSum(a: nat, b: nat, q: nat, r: nat, g: nat, k1: nat, k2: nat)
    requires a == q * b + r && k1 * g == b && k2 * g == r
    ensures Divides(g, a)
  {
    calc {
      a;
      q * (k1 * g) + k2 * g;
      (q * k1) * g + k2 * g;
      (q * k1 + k2) * g;
    }
  }

  lemma DividesTransitive(a: nat, b: nat, c: nat)
    requires Divides(a, b) && Divides(b, c)
    ensures Divides(a, c)
  {
    var k1: nat :| k1 * a == b;
    var k2: nat :| k2 * b == c;
    assert (k2 * k1) * a == k2 * (k1 * a);
  }

  /** `lcm(a, b)` is a common multiple of a and b. */
  lemma LcmCommonMultiple(a: nat, b: nat)
    ensures Divides(a, Lcm(a, b)) && Divides(b, Lcm(a, b))
    ensures a > 0 && b > 0 ==> Lcm(a, b) > 0
  {
    if a == 0 || b == 0 {
      assert 0 * a == 0 && 0 * b == 0;
    } else {
      var g := Gcd(a, b);
      GcdDivides(a, b);
      var k: nat :| k * g == a;
      var m: nat :| m * g == b;
      assert a / g == k by {
        DivOfMultiple(k, g);
      }
      assert Lcm(a, b) == k * b;
      assert k > 0;
      assert k * b == k * (m * g) == m * (k * g) == m * a;
    }
  }

  lemma DivOfMultiple(k: nat, g: nat)
    requires g > 0
    ensures (k * g) / g == k
  {
    var x := k * g;
    var d := x / g - k;
    assert d * g == x % g by {
      assert x == (x / g) * g + x % g;
      assert d * g == (x / g) * g - k * g;
    }
    MultipleBounds(d, g);
  }

  /** Every argument of `math.lcm` divides the result, which is positive when
      the arguments are. */
  lemma {:induction false} LcmAllCommonMultiple(xs: seq<nat>)
    ensures forall i :: 0 <= i < |xs| ==> Divides(xs[i], LcmAll(xs))
    ensures (forall i :: 0 <= i < |xs| ==> xs[i] > 0) ==> LcmAll(xs) > 0
  {
    if xs != [] {
      var init := xs[..|xs| - 1];
      LcmAllCommonMultiple(init);
      LcmCommonMultiple(LcmAll(init), xs[|xs| - 1]);
      forall i | 0 <= i < |xs| - 1
        ensures Divides(xs[i], LcmAll(xs))
      {
        assert init[i] == xs[i];
        DividesTransitive(xs[i], LcmAll(init), LcmAll(xs));
      }
      if forall i :: 0 <= i < |xs| ==> xs[i] > 0 {
        assert forall i :: 0 <= i < |init| ==> init[i] == xs[i];
      }
    }
  }

  /** The measured cycle of a start node: the distance between the first two
      ticks of its walk that stand on a node ending in Z. */
  ghost predicate CycleOf(p: Puzzle, start: string, c: nat)
  {
    exists a: nat, b: nat {:trigger Walk(p, start, a), Walk(p, start, b)} ::
      1 <= a < b && c == b - a &&
      Walk(p, start, a).Some? && EndsWithZ(Walk(p, start, a).value) &&
      Walk(p, start, b).Some? && EndsWithZ(Walk(p, start, b).value) &&
      (forall t :: 1 <= t < b && t != a ==> Walk(p, start, t).Some? && !EndsWithZ(Walk(p, start, t).value))
  }

  lemma MeasuredCycle(p: Puzzle, start: string, a: nat, b: nat)
    requires 1 <= a < b
    requires Walk(p, start, a).Some? && EndsWithZ(Walk(p, start, a).value)
    requires Walk(p, start, b).Some? && EndsWithZ(Walk(p, start, b).value)
    requires forall t :: 1 <= t < b && t != a ==> Walk(p, start, t).Some? && !EndsWithZ(Walk(p, start, t).value)
    ensures CycleOf(p, start, b - a) && b - a > 0
  {
  }

  /** `day8b`: the least common multiple of the cycles of all ghost starts. */
  method Day8B(p: Puzzle, fuel: nat) returns (r: Option<nat>, cycles: seq<nat>)
    ensures r.Some? ==> |cycles| == |GhostStarts(p)| && r.value == LcmAll(cycles) &&
                        (forall i :: 0 <= i < |cycles| ==> CycleOf(p, GhostStarts(p)[i], cycles[i]) && cycles[i] > 0) &&
                        (forall i :: 0 <= i < |cycles| ==> Divides(cycles[i], r.value)) && r.value > 0
    ensures r.Some? <==> forall i :: 0 <= i < |GhostStarts(p)| ==> ZTicks(p, GhostStarts(p)[i], fuel) >= 2
  {
    var starts := GhostStarts(p);
    cycles := [];
    var i := 0;
    while i < |starts|
      invariant 0 <= i <= |starts| && |cycles| == i
      invariant CyclesOf(p, starts, cycles, fuel)
    {
      var c := CycleLength(p, starts[i], fuel);
      if c.None? {
        return None, cycles;
      }
      CyclesSnoc(p, starts, cycles, c.value, fuel);
      cycles := cycles + [c.value];
      i := i + 1;
    }
    LcmAllCommonMultiple(cycles);
    r := Some(LcmAll(cycles));
  }

  /** `second - first` of `measure_cycle`, None when the walk fails first. */
  method CycleLength(p: Puzzle, start: string, fuel: nat) returns (c: Option<nat>)
    ensures c.Some? ==> CycleOf(p, start, c.value) && c.value > 0
    ensures c.Some? <==> ZTicks(p, start, fuel) >= 2
  {
    var m := MeasureCycle(p, start, fuel);
    if m.Unmeasured? {
      return None;
    }
    MeasuredCycle(p, start, m.first, m.second);
    c := Some(m.second - m.first);
  }

  /** `cycles[k]` is the measured cycle of `starts[k]`, for each k, and each
      of those walks stands on Z twice within `fuel`. */
  ghost predicate CyclesOf(p: Puzzle, starts: seq<string>, cycles: seq<nat>, fuel: nat)
  {
    |cycles| <= |starts| &&
    forall k :: 0 <= k < |cycles| ==>
      CycleOf(p, starts[k], cycles[k]) && cycles[k] > 0 && ZTicks(p, starts[k], fuel) >= 2
  }

  lemma CyclesSnoc(p: Puzzle, starts: seq<string>, cycles: seq<nat>, c: nat, fuel: nat)
    requires CyclesOf(p, starts, cycles, fuel) && |cycles| < |starts|
    requires CycleOf(p, starts[|cycles|], c) && c > 0 && ZTicks(p, starts[|cycles|], fuel) >= 2
    ensures CyclesOf(p, starts, cycles + [c], fuel)
  {
    var cs := cycles + [c];
    forall k | 0 <= k < |cs|
      ensures CycleOf(p, starts[k], cs[k]) && cs[k] > 0 && ZTicks(p, starts[k], fuel) >= 2
    {
      if k < |cycles| {
        assert cs[k] == cycles[k];
      }
    }
  }

  /** `('L', 'R').index(c)` for each character; None for the ValueError. */
  function ParseRoute(s: string): (r: Option<seq<nat>>)
    ensures r.Some? <==> forall i :: 0 <= i < |s| ==> s[i] == 'L' || s[i] == 'R'
    ensures r.Some? ==> |r.value| == |s| && ValidRoute(r.value)
    ensures r.Some? ==> forall i :: 0 <= i < |s| ==> (r.value[i] == 0 <==> s[i] == 'L')
  {
    if s == [] then Some([])
    else match ParseRoute(s[1..])
      case None => None
      case Some(rest) =>
        if s[0] == 'L' then Some([0] + rest)
        else if s[0] == 'R' then Some([1] + rest)
        else None
  }

  predicate WordAt(s: string, i: nat)
  {
    i + 3 <= |s| && IsWordChar(s[i]) && IsWordChar(s[i + 1]) && IsWordChar(s[i + 2])
  }

  /** `link_re.match(line)`: `XXX = (YYY, ZZZ)` at the start of the line. */
  function ParseLink(line: string): (r: Option<(string, (string, string))>)
    ensures r.Some? ==> |line| >= 16 && r.value.0 == line[..3]
  {
    if WordAt(line, 0) && HasAt(line, 3, " = (") && WordAt(line, 7) && HasAt(line, 10, ", ")
       && WordAt(line, 12) && HasAt(line, 15, ")")
    then Some((line[..3], (line[7..10], line[12..15])))
    else None
  }

  /** The dictionary comprehension over the link lines: a later line for the
      same node replaces the earlier pair, the node keeping its first position. */
  function ParseLinks(lines: seq<string>): (r: Option<(map<string, (string, string)>, seq<string>)>)
    ensures r.Some? ==> forall n :: n in r.value.0 <==> n in r.value.1
  {
    if lines == [] then Some((map[], []))
    else
      var prev, link := ParseLinks(lines[..|lines| - 1]), ParseLink(lines[|lines| - 1]);
      if prev.None? || link.None? then None
      else
        var g, order, n := prev.value.0, prev.value.1, link.value.0;
        Some((g[n := link.value.1], if n in g then order else order + [n]))
  }

  /** `Puzzle.parse`: the route on the first line, links from the third on. */
  function Parse(lines: seq<string>): (r: Option<Puzzle>)
    ensures r.Some? ==> ValidRoute(r.value.route)
    ensures r.Some? ==> forall n :: n in r.value.graph <==> n in r.value.order
  {
    if lines == [] then None
    else match (ParseRoute(Strip(lines[0])), ParseLinks(if |lines| >= 2 then lines[2..] else []))
      case (Some(route), Some((g, order))) => Some(Puzzle(route, g, order))
      case _ => None
  }

  /** A node name as `\w{3}` matches it. */
  predicate IsName(n: string)
  {
    |n| == 3 && IsWordChar(n[0]) && IsWordChar(n[1]) && IsWordChar(n[2])
  }

  /** A link line as the map writes it: `AAA = (BBB, CCC)`. */
  function LinkLine(n: string, l: string, r: string): string
  {
    n + " = (" + l + ", " + r + ")"
  }

  /** A written link line, with anything after it, is read back as its node
      and its left and right exits. */
  lemma ParseLinkWritten(n: string, l: string, r: string, tail: string)
    requires IsName(n) && IsName(l) && IsName(r)
    ensures ParseLink(LinkLine(n, l, r) + tail) == Some((n, (l, r)))
  {
    LinkAt(LinkLine(n, l, r) + tail, n, l, r, tail);
  }

  lemma LinkAt(line: string, n: string, l: string, r: string, tail: string)
    requires IsName(n) && IsName(l) && IsName(r)
    requires line == n + " = (" + l + ", " + r + ")" + tail
    ensures ParseLink(line) == Some((n, (l, r)))
  {
    assert line[..3] == n;
    assert line[3..7] == " = (";
    assert line[7..10] == l;
    assert line[10..12] == ", ";
    assert line[12..15] == r;
    assert line[15..16] == ")";
  }

  /** The link lines parse exactly when every line does. */
  lemma {:induction false} ParseLinksSome(lines: seq<string>)
    ensures ParseLinks(lines).Some? <==> forall k :: 0 <= k < |lines| ==> ParseLink(lines[k]).Some?
  {
    if lines != [] {
      var init := lines[..|lines| - 1];
      ParseLinksSome(init);
      assert forall k :: 0 <= k < |init| ==> init[k] == lines[k];
    }
  }

  /** The graph's nodes are exactly the names on the link lines. */
  lemma ParseLinksKeys(lines: seq<string>)
    requires ParseLinks(lines).Some?
    ensures ParseLinksSomeAll(lines)
    ensures forall n :: n in ParseLinks(lines).value.0 <==>
              exists k :: 0 <= k < |lines| && ParseLink(lines[k]).value.0 == n
  {
    ParseLinksSome(lines);
    forall n
      ensures n in ParseLinks(lines).value.0 <==> exists k :: 0 <= k < |lines| && ParseLink(lines[k]).value.0 == n
    {
      ParseLinksHas(lines, n);
    }
  }

  lemma {:induction false} ParseLinksHas(lines: seq<string>, n: string)
    requires ParseLinks(lines).Some?
    ensures ParseLinksSomeAll(lines)
    ensures n in ParseLinks(lines).value.0 <==> exists k :: 0 <= k < |lines| && ParseLink(lines[k]).value.0 == n
  {
    ParseLinksSome(lines);
    if lines != [] {
      var init := lines[..|lines| - 1];
      ParseLinksHas(init, n);
      var last := ParseLink(lines[|lines| - 1]).value;
      var g0 := ParseLinks(init).value.0;
      assert ParseLinks(lines).value.0 == g0[last.0 := last.1];
      if n in g0 && n != last.0 {
        var k :| 0 <= k < |init| && ParseLink(init[k]).value.0 == n;
        assert init[k] == lines[k];
      }
      if k :| 0 <= k < |lines| && ParseLink(lines[k]).value.0 == n {
        if k < |init| {
          assert init[k] == lines[k];
        }
      }
    }
  }

  /** Every link line parses (a name for the fact the lookups depend on). */
  predicate ParseLinksSomeAll(lines: seq<string>)
  {
    forall k :: 0 <= k < |lines| ==> ParseLink(lines[k]).Some?
  }

  /** A node maps to the exits on the last line that names it: the dictionary
      comprehension overwrites earlier pairs. */
  lemma {:induction false} ParseLinksLast(lines: seq<string>, k: nat)
    requires ParseLinks(lines).Some? && k < |lines|
    ensures ParseLinksSomeAll(lines) && ParseLink(lines[k]).value.0 in ParseLinks(lines).value.0
    ensures (forall j :: k < j < |lines| ==> ParseLink(lines[j]).value.0 != ParseLink(lines[k]).value.0) ==>
            ParseLinks(lines).value.0[ParseLink(lines[k]).value.0] == ParseLink(lines[k]).value.1
  {
    ParseLinksKeys(lines);
    var init := lines[..|lines| - 1];
    ParseLinksSome(init);
    var last := ParseLink(lines[|lines| - 1]).value;
    assert ParseLinks(lines).value.0 == ParseLinks(init).value.0[last.0 := last.1];
    if k < |init| && forall j :: k < j < |lines| ==> ParseLink(lines[j]).value.0 != ParseLink(lines[k]).value.0 {
      assert init[k] == lines[k];
      ParseLinksLast(init, k);
      assert forall j :: k < j < |init| ==> init[j] == lines[j];
    }
  }

  /** The link lines of a map, one per (node, (left, right)). */
  function LinkLines(links: seq<(string, (string, string))>): (ls: seq<string>)
    ensures |ls| == |links| && forall k :: 0 <= k < |links| ==> ls[k] == LinkLine(links[k].0, links[k].1.0, links[k].1.1)
  {
    seq(|links|, k requires 0 <= k < |links| => LinkLine(links[k].0, links[k].1.0, links[k].1.1))
  }

  /** A map written as its route, a blank line and its link lines is read
      back with that route, a node for every name on a link line, and each
      node leading to the exits on the last line that names it. */
  lemma ParseWritten(route: string, links: seq<(string, (string, string))>)
    requires forall i :: 0 <= i < |route| ==> route[i] == 'L' || route[i] == 'R'
    requires forall k :: 0 <= k < |links| ==> IsName(links[k].0) && IsName(links[k].1.0) && IsName(links[k].1.1)
    ensures Parse([route, ""] + LinkLines(links)).Some?
    ensures var p := Parse([route, ""] + LinkLines(links)).value;
            |p.route| == |route| && (forall i :: 0 <= i < |route| ==> (p.route[i] == 0 <==> route[i] == 'L')) &&
            forall n :: n in p.graph <==> exists k :: 0 <= k < |links| && links[k].0 == n
    ensures forall k :: 0 <= k < |links| && (forall j :: k < j < |links| ==> links[j].0 != links[k].0) ==>
              links[k].0 in Parse([route, ""] + LinkLines(links)).value.graph &&
              Parse([route, ""] + LinkLines(links)).value.graph[links[k].0] == links[k].1
  {
    ParseWrittenAt([route, ""] + LinkLines(links), route, links);
  }

  lemma ParseWrittenAt(lines: seq<string>, route: string, links: seq<(string, (string, string))>)
    requires lines == [route, ""] + LinkLines(links)
    requires forall i :: 0 <= i < |route| ==> route[i] == 'L' || route[i] == 'R'
    requires forall k :: 0 <= k < |links| ==> IsName(links[k].0) && IsName(links[k].1.0) && IsName(links[k].1.1)
    ensures Parse(lines).Some?
    ensures var p := Parse(lines).value;
            |p.route| == |route| && (forall i :: 0 <= i < |route| ==> (p.route[i] == 0 <==> route[i] == 'L')) &&
            forall n :: n in p.graph <==> exists k :: 0 <= k < |links| && links[k].0 == n
    ensures forall k :: 0 <= k < |links| && (forall j :: k < j < |links| ==> links[j].0 != links[k].0) ==>
              links[k].0 in Parse(lines).value.graph && Parse(lines).value.graph[links[k].0] == links[k].1
  {
    var ls := LinkLines(links);
    assert lines[0] == route && lines[2..] == ls;
    if route != [] {
      StripKeeps(route);
    }
    forall k | 0 <= k < |ls|
      ensures ParseLink(ls[k]) == Some(links[k])
    {
      ParseLinkWritten(links[k].0, links[k].1.0, links[k].1.1, "");
      assert LinkLine(links[k].0, links[k].1.0, links[k].1.1) + "" == ls[k];
    }
    ParseLinksSome(ls);
    ParseLinksKeys(ls);
    forall k | 0 <= k < |links| && (forall j :: k < j < |links| ==> links[j].0 != links[k].0)
      ensures links[k].0 in ParseLinks(ls).value.0 && ParseLinks(ls).value.0[links[k].0] == links[k].1
    {
      ParseLinksLast(ls, k);
    }
  }

  /** The second sample: LLR from AAA reaches ZZZ at tick 6 and not before. */
  lemma SampleB()
    ensures var p := Puzzle([0, 0, 1], map["AAA" := ("BBB", "BBB"), "BBB" := ("AAA", "ZZZ"), "ZZZ" := ("ZZZ", "ZZZ")],
                           ["AAA", "BBB", "ZZZ"]);
            Walk(p, "AAA", 6) == Some("ZZZ") &&
            forall t :: 1 <= t < 6 ==> Walk(p, "AAA", t) != Some("ZZZ")
  {
    var p := Puzzle([0, 0, 1], map["AAA" := ("BBB", "BBB"), "BBB" := ("AAA", "ZZZ"), "ZZZ" := ("ZZZ", "ZZZ")],
                    ["AAA", "BBB", "ZZZ"]);
    assert Walk(p, "AAA", 1) == Some("BBB");
    assert Walk(p, "AAA", 2) == Some("AAA");
    assert Walk(p, "AAA", 3) == Some("BBB");
    assert Walk(p, "AAA", 4) == Some("AAA");
    assert Walk(p, "AAA", 5) == Some("BBB");
    assert Walk(p, "AAA", 6) == Some("ZZZ");
  }

  /** The first sample: RL from AAA reaches ZZZ at tick 2. */
  lemma SampleA()
    ensures var p := Puzzle([1, 0], map["AAA" := ("BBB", "CCC"), "BBB" := ("DDD", "EEE"), "CCC" := ("ZZZ", "GGG"),
                                       "DDD" := ("DDD", "DDD"), "EEE" := ("EEE", "EEE"), "GGG" := ("GGG", "GGG"),
                                       "ZZZ" := ("ZZZ", "ZZZ")], ["AAA", "BBB", "CCC", "DDD", "EEE", "GGG", "ZZZ"]);
            Walk(p, "AAA", 1) == Some("CCC") && Walk(p, "AAA", 2) == Some("ZZZ")
  {
  }
}
