/** Hot springs (aoc23/day12.py): each row is a degraded floor plan of
    operational (`.`), damaged (`#`) and unknown (`?`) springs, together with
    the lengths of the runs of damaged springs. A row's counts become a
    regular-expression-like pattern, and a recursive matcher enumerates the
    arrangements of the plan that the pattern admits. Part b unfolds each
    row five times and splits the counts between the five copies. */
module Day12 {
  import opened Common

  // ---------------------------------------------------------------------
  // Counts and patterns
  // ---------------------------------------------------------------------

  /** One entry of a chunk of counts: a run of `n` damaged springs, or the
      border `'-'` that anchors the chunk to an edge of its floor plan. */
  datatype Count = Run(n: int) | Border

  /** One element of a pattern: `.*` (any number of dots), `.+` (at least
      one dot) or a string of `n` hashes. */
  datatype Elem = AnyDots | SomeDots | Hashes(n: nat)

  predicate IsDots(e: Elem) { e == AnyDots || e == SomeDots }

  /** The run lengths of a chunk whose borders have been stripped; a border
      left inside the chunk makes `n * '#'` fail. */
  function RunsOf(cs: seq<Count>): (r: Option<seq<int>>)
    ensures r.Some? <==> forall i :: 0 <= i < |cs| ==> cs[i].Run?
    ensures r.Some? ==> |r.value| == |cs| && forall i :: 0 <= i < |cs| ==> r.value[i] == cs[i].n
  {
    if cs == [] then Some([])
    else match (cs[0], RunsOf(cs[1..]))
      case (Run(n), Some(ns)) => Some([n] + ns)
      case _ => None
  }

  /** The hashes of one run: nothing when it is empty (the string `''` that
      the constructor filters out). */
  function HashesOf(n: int): (r: seq<Elem>)
    ensures n > 0 ==> r == [Hashes(n)]
    ensures n <= 0 ==> r == []
  {
    if n > 0 then [Hashes(n)] else []
  }

  /** The runs separated by `.+`, without the empty runs. */
  function Body(ns: seq<int>): seq<Elem>
  {
    if ns == [] then []
    else if |ns| == 1 then HashesOf(ns[0])
    else HashesOf(ns[0]) + [SomeDots] + Body(ns[1..])
  }

  /** The counts without a leading border, and whether there was one. */
  function DropLead(counts: seq<Count>): (bool, seq<Count>)
  {
    if counts != [] && counts[0] == Border then (true, counts[1..]) else (false, counts)
  }

  /** The counts without a trailing border, and whether there was one. */
  function DropTail(counts: seq<Count>): (bool, seq<Count>)
  {
    if counts != [] && counts[|counts| - 1] == Border then (true, counts[..|counts| - 1])
    else (false, counts)
  }

  /** The expression of the runs `ns`, with `.*` at the ends that are not
      anchored; `.*` `.*` collapses to one. */
  function Assemble(softLead: bool, softTail: bool, ns: seq<int>): seq<Elem>
  {
    var e := (if softLead then [AnyDots] else []) + Body(ns) + (if softTail then [AnyDots] else []);
    if e == [AnyDots, AnyDots] then [AnyDots] else e
  }

  /** `Body` never holds a `.*`. */
  lemma {:induction false} BodyNoAnyDots(ns: seq<int>)
    ensures forall i :: 0 <= i < |Body(ns)| ==> Body(ns)[i] != AnyDots
  {
    if |ns| > 1 {
      BodyNoAnyDots(ns[1..]);
      var b, h := Body(ns), HashesOf(ns[0]);
      assert b == h + [SomeDots] + Body(ns[1..]);
      assert forall i :: |h| + 1 <= i < |b| ==> b[i] == Body(ns[1..])[i - |h| - 1];
    }
  }

  /** Only an empty body can leave `.*` `.*` to collapse. */
  lemma AssembleShape(softLead: bool, softTail: bool, ns: seq<int>)
    requires Body(ns) != []
    ensures Assemble(softLead, softTail, ns) ==
            (if softLead then [AnyDots] else []) + Body(ns) + (if softTail then [AnyDots] else [])
  {
    BodyNoAnyDots(ns);
    var e := (if softLead then [AnyDots] else []) + Body(ns) + (if softTail then [AnyDots] else []);
    assert e[if softLead then 1 else 0] == Body(ns)[0];
  }

  /** `Pattern.__init__`: a leading or trailing border drops the `.*` at that
      end, the runs are separated by `.+`, empty runs vanish, and a pattern
      left as two `.*` collapses to one. */
  function Pattern(counts: seq<Count>): (r: Option<seq<Elem>>)
    ensures (forall i :: 0 <= i < |counts| ==> counts[i].Run?) ==> r.Some?
  {
    var (hardLead, c1) := DropLead(counts);
    var (hardTail, c2) := DropTail(c1);
    match RunsOf(c2)
    case None => None
    case Some(ns) => Some(Assemble(!hardLead, !hardTail, ns))
  }

  /** `Pattern` in terms of its three steps. */
  lemma PatternOf(counts: seq<Count>, hardLead: bool, c1: seq<Count>, hardTail: bool, c2: seq<Count>, ns: seq<int>)
    requires DropLead(counts) == (hardLead, c1) && DropTail(c1) == (hardTail, c2)
    requires RunsOf(c2) == Some(ns)
    ensures Pattern(counts) == Some(Assemble(!hardLead, !hardTail, ns))
  {
  }

  // ---------------------------------------------------------------------
  // The reference meaning of a pattern
  // ---------------------------------------------------------------------

  predicate AllHash(s: string) { forall i :: 0 <= i < |s| ==> s[i] == '#' }

  predicate AllDots(s: string) { forall i :: 0 <= i < |s| ==> s[i] == '.' }

  /** The strings a pattern denotes, read as the regular expression it is
      written as: `.*` is zero or more dots, `.+` is a dot followed by `.*`,
      and `n` hashes are exactly `n` hashes. */
  predicate Accepts(p: seq<Elem>, s: string)
    decreases |s|, |p|
  {
    if p == [] then s == []
    else match p[0]
      case AnyDots => (s != [] && s[0] == '.' && Accepts(p, s[1..])) || Accepts(p[1..], s)
      case SomeDots => s != [] && s[0] == '.' && Accepts([AnyDots] + p[1..], s[1..])
      case Hashes(n) => n <= |s| && AllHash(s[..n]) && (if n == 0 then Accepts(p[1..], s) else Accepts(p[1..], s[n..]))
  }

  /** Patterns as the constructor builds them for the chunks of this puzzle:
      no empty run of hashes and no two dot elements side by side. */
  predicate Tidy(p: seq<Elem>)
  {
    (forall i :: 0 <= i < |p| ==> p[i] != Hashes(0)) &&
    (forall i :: 0 <= i < |p| - 1 ==> !(IsDots(p[i]) && IsDots(p[i + 1])))
  }

  /** A floor plan: operational, damaged and unknown springs. */
  predicate IsPlan(plan: string)
  {
    forall i :: 0 <= i < |plan| ==> plan[i] in ".#?"
  }

  /** One spring of an arrangement agrees with one spring of the plan. */
  predicate Fits(c: char, q: char)
  {
    if q == '?' then c == '.' || c == '#' else c == q
  }

  /** An arrangement of a plan: every unknown spring decided, every known
      spring kept. */
  predicate Conforms(s: string, plan: string)
  {
    |s| == |plan| && forall i :: 0 <= i < |s| ==> Fits(s[i], plan[i])
  }

  // ---------------------------------------------------------------------
  // The matcher
  // ---------------------------------------------------------------------

  /** The module-level `matches` generator: every way `pattern` can match
      `plan`, each prefixed by `prefix`, in the order the generator yields
      them. */
  function Matches(plan: string, pattern: seq<Elem>, prefix: string): seq<string>
    decreases |plan|, |pattern|
  {
    if plan == [] then
      if pattern == [] then [prefix]
      else if pattern == [AnyDots] then Matches(plan, [], prefix)
      else []
    else if pattern == [] then []
    else match pattern[0]
      case AnyDots =>
        if plan[0] == '.' then Matches(plan[1..], pattern, prefix + ".")
        else if plan[0] == '#' then Matches(plan, pattern[1..], prefix)
        else if plan[0] == '?' then Matches(plan[1..], pattern, prefix + ".") + Matches(plan, pattern[1..], prefix)
        else []
      case SomeDots =>
        if plan[0] == '#' then []
        else Matches(plan[1..], [AnyDots] + pattern[1..], prefix + ".")
      case Hashes(n) =>
        if n == 0 || n > |plan| || plan[0] == '.' then []
        else if n > 1 then Matches(plan[1..], [Hashes(n - 1)] + pattern[1..], prefix + "#")
        else Matches(plan[1..], pattern[1..], prefix + "#")
  }

  lemma FitsHead(s: string, plan: string)
    requires |s| == |plan| && s != []
    ensures Conforms(s, plan) <==> Fits(s[0], plan[0]) && Conforms(s[1..], plan[1..])
  {
    if Fits(s[0], plan[0]) && Conforms(s[1..], plan[1..]) {
      forall i | 0 <= i < |s| ensures Fits(s[i], plan[i]) {
        if i > 0 {
          assert s[1..][i - 1] == s[i] && plan[1..][i - 1] == plan[i];
        }
      }
    }
    if Conforms(s, plan) {
      forall i | 0 <= i < |s| - 1 ensures Fits(s[1..][i], plan[1..][i]) {
        assert Fits(s[i + 1], plan[i + 1]);
      }
    }
  }

  /** A run of `n > 1` hashes is one hash followed by a run of `n - 1`. */
  lemma AcceptsHashStep(n: nat, rest: seq<Elem>, s: string)
    requires n > 1 && s != []
    ensures Accepts([Hashes(n)] + rest, s) <==>
            s[0] == '#' && Accepts([Hashes(n - 1)] + rest, s[1..])
  {
    var p, q := [Hashes(n)] + rest, [Hashes(n - 1)] + rest;
    assert p[1..] == rest && q[1..] == rest;
    if n <= |s| {
      assert s[1..][n - 1..] == s[n..];
      var h, t := s[..n], s[1..][..n - 1];
      assert forall i :: 0 <= i < n - 1 ==> t[i] == h[i + 1];
      if AllHash(h) {
        assert s[0] == h[0];
      }
      if s[0] == '#' && AllHash(t) {
        forall i | 0 <= i < n ensures h[i] == '#' {
          if i > 0 {
            assert h[i] == t[i - 1];
          }
        }
      }
    }
  }

  /** A run of one hash is one hash. */
  lemma AcceptsHashOne(rest: seq<Elem>, s: string)
    requires s != []
    ensures Accepts([Hashes(1)] + rest, s) <==> s[0] == '#' && Accepts(rest, s[1..])
  {
    assert ([Hashes(1)] + rest)[1..] == rest;
    assert s[..1] == [s[0]];
  }

  /** A non-empty string accepted by a pattern that starts with hashes starts
      with a hash. */
  lemma HashesFirst(p: seq<Elem>, s: string)
    requires p != [] && p[0].Hashes? && p[0].n > 0 && Accepts(p, s)
    ensures s != [] && s[0] == '#'
  {
    assert s[..p[0].n][0] == s[0];
  }

  /** Every string the matcher yields is the prefix followed by an arrangement
      of the plan that the pattern accepts. */
  lemma {:induction false} MatchesSound(plan: string, p: seq<Elem>, prefix: string, r: string)
    requires IsPlan(plan)
    requires r in Matches(plan, p, prefix)
    ensures |r| == |prefix| + |plan| && r[..|prefix|] == prefix
    ensures Conforms(r[|prefix|..], plan) && Accepts(p, r[|prefix|..])
    decreases |plan|, |p|
  {
    var k := |prefix|;
    if plan == [] {
      if p != [] {
        MatchesSound(plan, [], prefix, r);
      }
    } else {
      assert plan[0] in ".#?";
      assert IsPlan(plan[1..]) by {
        forall i | 0 <= i < |plan| - 1 ensures plan[1..][i] in ".#?" {
          assert plan[1..][i] == plan[i + 1];
        }
      }
      match p[0]
      case AnyDots =>
        if plan[0] == '#' || (plan[0] == '?' && r !in Matches(plan[1..], p, prefix + ".")) {
          MatchesSound(plan, p[1..], prefix, r);
        } else {
          MatchesSound(plan[1..], p, prefix + ".", r);
          ShiftOne(plan, prefix, '.', r);
        }
      case SomeDots =>
        MatchesSound(plan[1..], [AnyDots] + p[1..], prefix + ".", r);
        ShiftOne(plan, prefix, '.', r);
      case Hashes(n) =>
        assert p == [Hashes(n)] + p[1..];
        if n > 1 {
          MatchesSound(plan[1..], [Hashes(n - 1)] + p[1..], prefix + "#", r);
        } else {
          MatchesSound(plan[1..], p[1..], prefix + "#", r);
        }
        ShiftOne(plan, prefix, '#', r);
        if n > 1 {
          AcceptsHashStep(n, p[1..], r[k..]);
        } else {
          AcceptsHashOne(p[1..], r[k..]);
        }
    }
  }

  /** A match of the rest of the plan behind `prefix` and one more character
      c that fits the plan's first character is a match of the whole plan. */
  lemma ShiftOne(plan: string, prefix: string, c: char, r: string)
    requires plan != [] && Fits(c, plan[0])
    requires |r| == |prefix + [c]| + |plan[1..]| && r[..|prefix + [c]|] == prefix + [c]
    requires Conforms(r[|prefix + [c]|..], plan[1..])
    ensures |r| == |prefix| + |plan| && r[..|prefix|] == prefix && r[|prefix|] == c
    ensures r[|prefix|..][1..] == r[|prefix| + 1..] && r[|prefix|..][0] == c
    ensures Conforms(r[|prefix|..], plan)
  {
    var k := |prefix|;
    assert r[k] == (prefix + [c])[k] == c by { assert (prefix + [c])[k] == r[..k + 1][k]; }
    assert r[..k] == r[..k + 1][..k];
    assert r[k..][1..] == r[k + 1..];
    FitsHead(r[k..], plan);
  }


  lemma TidyTail(p: seq<Elem>)
    requires Tidy(p) && p != []
    ensures Tidy(p[1..])
    ensures IsDots(p[0]) && |p| > 1 ==> p[1].Hashes? && p[1].n > 0
    ensures p[0] == SomeDots ==> Tidy([AnyDots] + p[1..])
    ensures p[0].Hashes? && p[0].n > 1 ==> Tidy([Hashes(p[0].n - 1)] + p[1..])
  {
    if |p| > 1 {
      assert !(IsDots(p[0]) && IsDots(p[1]));
      assert p[1] != Hashes(0);
    }
    var q := [AnyDots] + p[1..];
    assert forall i :: 1 <= i < |q| ==> q[i] == p[i];
  }

  /** Every arrangement of the plan that a tidy pattern accepts is yielded. */
  lemma {:induction false} MatchesComplete(plan: string, p: seq<Elem>, prefix: string, s: string)
    requires IsPlan(plan) && Tidy(p)
    requires Conforms(s, plan) && Accepts(p, s)
    ensures prefix + s in Matches(plan, p, prefix)
    decreases |plan|, |p|, 1
  {
    if plan == [] {
      assert prefix + s == prefix;
      if p != [] {
        TidyTail(p);
      }
    } else if p == [] {
    } else if p[0] == AnyDots {
      CompleteAnyDots(plan, p, prefix, s);
    } else if p[0] == SomeDots {
      CompleteSomeDots(plan, p, prefix, s);
    } else {
      CompleteHashes(plan, p, prefix, s);
    }
  }

  lemma PlanTail(plan: string)
    requires IsPlan(plan) && plan != []
    ensures IsPlan(plan[1..]) && plan[0] in ".#?"
  {
    forall i | 0 <= i < |plan| - 1 ensures plan[1..][i] in ".#?" {
      assert plan[1..][i] == plan[i + 1];
    }
  }

  lemma {:induction false} CompleteAnyDots(plan: string, p: seq<Elem>, prefix: string, s: string)
    requires IsPlan(plan) && Tidy(p) && plan != [] && p != [] && p[0] == AnyDots
    requires Conforms(s, plan) && Accepts(p, s)
    ensures prefix + s in Matches(plan, p, prefix)
    decreases |plan|, |p|, 0
  {
    TidyTail(p);
    FitsHead(s, plan);
    PlanTail(plan);
    if s[0] == '.' {
      if !Accepts(p, s[1..]) {
        HashesFirst(p[1..], s);
      }
      MatchesComplete(plan[1..], p, prefix + ".", s[1..]);
      assert (prefix + ".") + s[1..] == prefix + s;
    } else {
      MatchesComplete(plan, p[1..], prefix, s);
    }
  }

  lemma {:induction false} CompleteSomeDots(plan: string, p: seq<Elem>, prefix: string, s: string)
    requires IsPlan(plan) && Tidy(p) && plan != [] && p != [] && p[0] == SomeDots
    requires Conforms(s, plan) && Accepts(p, s)
    ensures prefix + s in Matches(plan, p, prefix)
    decreases |plan|, |p|, 0
  {
    TidyTail(p);
    FitsHead(s, plan);
    PlanTail(plan);
    MatchesComplete(plan[1..], [AnyDots] + p[1..], prefix + ".", s[1..]);
    assert (prefix + ".") + s[1..] == prefix + s;
  }

  lemma {:induction false} CompleteHashes(plan: string, p: seq<Elem>, prefix: string, s: string)
    requires IsPlan(plan) && Tidy(p) && plan != [] && p != [] && p[0].Hashes?
    requires Conforms(s, plan) && Accepts(p, s)
    ensures prefix + s in Matches(plan, p, prefix)
    decreases |plan|, |p|, 0
  {
    TidyTail(p);
    FitsHead(s, plan);
    PlanTail(plan);
    var n := p[0].n;
    assert p == [Hashes(n)] + p[1..];
    if n > 1 {
      AcceptsHashStep(n, p[1..], s);
      MatchesComplete(plan[1..], [Hashes(n - 1)] + p[1..], prefix + "#", s[1..]);
    } else {
      AcceptsHashOne(p[1..], s);
      MatchesComplete(plan[1..], p[1..], prefix + "#", s[1..]);
    }
    ConsHead(prefix, s);
  }

  lemma ConsHead(prefix: string, s: string)
    requires s != []
    ensures (prefix + [s[0]]) + s[1..] == prefix + s
  {
    assert s == [s[0]] + s[1..];
  }

  predicate Distinct(xs: seq<string>)
  {
    forall i, j :: 0 <= i < j < |xs| ==> xs[i] != xs[j]
  }

  lemma DistinctAppend(a: seq<string>, b: seq<string>)
    requires Distinct(a) && Distinct(b)
    requires forall x :: x in a ==> x !in b
    ensures Distinct(a + b)
  {
    forall i, j | 0 <= i < j < |a + b| ensures (a + b)[i] != (a + b)[j] {
      if i < |a| && j >= |a| {
        assert (a + b)[i] in a && (a + b)[j] in b;
      } else if i >= |a| {
        assert (a + b)[i] == b[i - |a|] && (a + b)[j] == b[j - |a|];
      }
    }
  }

  /** A tidy pattern never yields the same arrangement twice, so counting
      the generator's output counts arrangements. */
  lemma {:induction false} MatchesDistinct(plan: string, p: seq<Elem>, prefix: string)
    requires IsPlan(plan) && Tidy(p)
    ensures Distinct(Matches(plan, p, prefix))
    decreases |plan|, |p|
  {
    if plan == [] {
    } else if p == [] {
    } else {
      TidyTail(p);
      assert IsPlan(plan[1..]) by {
        forall i | 0 <= i < |plan| - 1 ensures plan[1..][i] in ".#?" {
          assert plan[1..][i] == plan[i + 1];
        }
      }
      var k := |prefix|;
      match p[0]
      case AnyDots =>
        if plan[0] == '.' {
          MatchesDistinct(plan[1..], p, prefix + ".");
        } else if plan[0] == '#' {
          MatchesDistinct(plan, p[1..], prefix);
        } else {
          var a, b := Matches(plan[1..], p, prefix + "."), Matches(plan, p[1..], prefix);
          MatchesDistinct(plan[1..], p, prefix + ".");
          MatchesDistinct(plan, p[1..], prefix);
          forall x | x in a ensures x !in b {
            MatchesSound(plan[1..], p, prefix + ".", x);
            assert x[k] == '.' by { assert (prefix + ".")[k] == x[..k + 1][k]; }
            if x in b {
              MatchesSound(plan, p[1..], prefix, x);
              HashesFirst(p[1..], x[k..]);
            }
          }
          DistinctAppend(a, b);
        }
      case SomeDots =>
        MatchesDistinct(plan[1..], [AnyDots] + p[1..], prefix + ".");
      case Hashes(n) =>
        if n > 1 {
          MatchesDistinct(plan[1..], [Hashes(n - 1)] + p[1..], prefix + "#");
        } else {
          MatchesDistinct(plan[1..], p[1..], prefix + "#");
        }
    }
  }

  // ---------------------------------------------------------------------
  // What a row's counts mean
  // ---------------------------------------------------------------------

  /** A decided arrangement: every spring operational or damaged. */
  predicate Arrangement(s: string)
  {
    forall i :: 0 <= i < |s| ==> s[i] == '.' || s[i] == '#'
  }

  lemma ArrangementTail(s: string)
    requires Arrangement(s) && s != []
    ensures Arrangement(s[1..])
  {
    assert forall i :: 0 <= i < |s| - 1 ==> s[1..][i] == s[i + 1];
  }

  /** The length of the block of damaged springs at the start of `s`. */
  function HashRun(s: string): (k: nat)
    ensures k <= |s|
    ensures s != [] && s[0] == '#' ==> k >= 1
    decreases |s|
  {
    if s != [] && s[0] == '#' then 1 + HashRun(s[1..]) else 0
  }

  /** The block `HashRun` measures is all hashes and cannot be extended. */
  lemma {:induction false} HashRunMaximal(s: string)
    ensures AllHash(s[..HashRun(s)])
    ensures HashRun(s) < |s| ==> s[HashRun(s)] != '#'
    decreases |s|
  {
    if s != [] && s[0] == '#' {
      HashRunMaximal(s[1..]);
      var k := HashRun(s[1..]);
      var h, t := s[..k + 1], s[1..][..k];
      forall i | 0 <= i < k + 1 ensures h[i] == '#' {
        if i > 0 {
          assert h[i] == t[i - 1];
        }
      }
      if k + 1 < |s| {
        assert s[k + 1] == s[1..][k];
      }
    }
  }

  /** A block of `n` hashes that cannot be extended is what `HashRun` measures. */
  lemma {:induction false} HashRunExact(s: string, n: nat)
    requires n <= |s| && AllHash(s[..n]) && (n < |s| ==> s[n] != '#')
    ensures HashRun(s) == n
    decreases n
  {
    if n > 0 {
      assert s[0] == s[..n][0];
      assert s[1..][..n - 1] == s[1..n];
      var h, t := s[..n], s[1..][..n - 1];
      forall i | 0 <= i < n - 1 ensures t[i] == '#' {
        assert t[i] == h[i + 1];
      }
      if n < |s| {
        assert s[1..][n - 1] == s[n];
      }
      HashRunExact(s[1..], n - 1);
    }
  }

  /** The lengths of the blocks of damaged springs in an arrangement, left to
      right: what a row's counts record. */
  function Groups(s: string): (g: seq<int>)
    decreases |s|
  {
    if s == [] then []
    else if s[0] != '#' then Groups(s[1..])
    else [HashRun(s)] + Groups(s[HashRun(s)..])
  }

  /** An arrangement has no blocks exactly when it is all dots. */
  lemma {:induction false} GroupsNone(s: string)
    requires Arrangement(s)
    ensures Groups(s) == [] <==> AllDots(s)
    decreases |s|
  {
    if s != [] {
      ArrangementTail(s);
      GroupsNone(s[1..]);
      if AllDots(s[1..]) && s[0] == '.' {
        forall i | 0 <= i < |s| ensures s[i] == '.' {
          if i > 0 {
            assert s[i] == s[1..][i - 1];
          }
        }
      }
      if AllDots(s) {
        assert forall i :: 0 <= i < |s| - 1 ==> s[1..][i] == s[i + 1];
      }
    }
  }

  /** `.*` alone accepts exactly the strings of dots. */
  lemma {:induction false} AnyDotsAlone(s: string)
    ensures Accepts([AnyDots], s) <==> AllDots(s)
    decreases |s|
  {
    assert [AnyDots][1..] == [];
    if s != [] {
      AnyDotsAlone(s[1..]);
      assert AllDots(s) <==> s[0] == '.' && AllDots(s[1..]) by {
        if s[0] == '.' && AllDots(s[1..]) {
          forall i | 0 <= i < |s| ensures s[i] == '.' {
            if i > 0 {
              assert s[i] == s[1..][i - 1];
            }
          }
        }
        if AllDots(s) {
          assert forall i :: 0 <= i < |s| - 1 ==> s[1..][i] == s[i + 1];
        }
      }
    }
  }

  predicate Positive(ns: seq<int>)
  {
    forall i :: 0 <= i < |ns| ==> ns[i] > 0
  }

  /** What follows the first run of hashes in `Body(ns) + [AnyDots]`. */
  function After(ns: seq<int>): seq<Elem>
    requires ns != []
  {
    if |ns| == 1 then [AnyDots] else [SomeDots] + (Body(ns[1..]) + [AnyDots])
  }

  lemma AnchoredUnfold(ns: seq<int>, s: string)
    requires ns != [] && ns[0] > 0
    ensures Accepts(Body(ns) + [AnyDots], s) <==>
            ns[0] <= |s| && AllHash(s[..ns[0]]) && Accepts(After(ns), s[ns[0]..])
  {
    var r := After(ns);
    assert Body(ns) + [AnyDots] == [Hashes(ns[0])] + r;
    assert ([Hashes(ns[0])] + r)[1..] == r;
  }

  lemma AfterUnfold(ns: seq<int>, t: string)
    requires |ns| > 1
    ensures Accepts(After(ns), t) <==>
            t != [] && t[0] == '.' && Accepts([AnyDots] + Body(ns[1..]) + [AnyDots], t[1..])
  {
    var r := After(ns);
    assert r[1..] == Body(ns[1..]) + [AnyDots];
    assert [AnyDots] + r[1..] == [AnyDots] + Body(ns[1..]) + [AnyDots];
  }

  lemma SuffixArrangement(s: string, n: nat)
    requires Arrangement(s) && n <= |s|
    ensures Arrangement(s[n..])
  {
    assert forall i :: 0 <= i < |s| - n ==> s[n..][i] == s[n + i];
  }

  /** With no `.*` in front, a pattern accepts the arrangements that start
      with a damaged spring and have exactly the given blocks. */
  lemma {:induction false} AnchoredMeaning(ns: seq<int>, s: string)
    requires ns != [] && Positive(ns) && Arrangement(s)
    ensures Accepts(Body(ns) + [AnyDots], s) <==> s != [] && s[0] == '#' && Groups(s) == ns
    decreases |ns|, 0, 1
  {
    AnchoredUnfold(ns, s);
    if Accepts(Body(ns) + [AnyDots], s) {
      AnchoredOnly(ns, s);
    }
    if s != [] && s[0] == '#' && Groups(s) == ns {
      AnchoredAll(ns, s);
    }
  }

  lemma {:induction false} AnchoredOnly(ns: seq<int>, s: string)
    requires ns != [] && Positive(ns) && Arrangement(s)
    requires ns[0] <= |s| && AllHash(s[..ns[0]]) && Accepts(After(ns), s[ns[0]..])
    ensures s != [] && s[0] == '#' && Groups(s) == ns
    decreases |ns|, 0, 0
  {
    var n := ns[0];
    assert s[0] == s[..n][0];
    var t := s[n..];
    SuffixArrangement(s, n);
    if |ns| == 1 {
      AnyDotsAlone(t);
      GroupsNone(t);
      if n < |s| {
        assert s[n] == t[0];
      }
    } else {
      AfterUnfold(ns, t);
      assert s[n] == t[0];
      ArrangementTail(t);
      FreeMeaning(ns[1..], t[1..]);
    }
    HashRunExact(s, n);
  }

  lemma {:induction false} AnchoredAll(ns: seq<int>, s: string)
    requires ns != [] && Positive(ns) && Arrangement(s)
    requires s != [] && s[0] == '#' && Groups(s) == ns
    ensures ns[0] <= |s| && AllHash(s[..ns[0]]) && Accepts(After(ns), s[ns[0]..])
    decreases |ns|, 0, 0
  {
    HashRunMaximal(s);
    var n := ns[0];
    var t := s[n..];
    assert Groups(t) == ns[1..];
    SuffixArrangement(s, n);
    if |ns| == 1 {
      GroupsNone(t);
      AnyDotsAlone(t);
    } else {
      assert t != [];
      assert t[0] == s[n];
      ArrangementTail(t);
      AfterUnfold(ns, t);
      FreeMeaning(ns[1..], t[1..]);
    }
  }

  /** With `.*` at both ends, a pattern accepts exactly the arrangements whose
      blocks of damaged springs have the given lengths. */
  lemma {:induction false} FreeMeaning(ns: seq<int>, s: string)
    requires ns != [] && Positive(ns) && Arrangement(s)
    ensures Accepts([AnyDots] + Body(ns) + [AnyDots], s) <==> Groups(s) == ns
    decreases |ns|, 1, |s|
  {
    var q := Body(ns) + [AnyDots];
    var p := [AnyDots] + q;
    assert [AnyDots] + Body(ns) + [AnyDots] == p;
    assert p[1..] == q;
    AnchoredMeaning(ns, s);
    if s != [] && s[0] == '.' {
      ArrangementTail(s);
      FreeMeaning(ns, s[1..]);
    }
  }

  // ---------------------------------------------------------------------
  // Patterns of plain counts
  // ---------------------------------------------------------------------

  /** The counts of a `SimpleRow`: runs only, no border. */
  function Plain(ns: seq<int>): (cs: seq<Count>)
    ensures |cs| == |ns| && forall i :: 0 <= i < |ns| ==> cs[i] == Run(ns[i])
  {
    seq(|ns|, i requires 0 <= i < |ns| => Run(ns[i]))
  }

  lemma RunsOfPlain(ns: seq<int>)
    ensures RunsOf(Plain(ns)) == Some(ns)
  {
    var r := RunsOf(Plain(ns));
    assert r.value == ns;
  }

  /** Runs written out one by one are the plain counts. */
  lemma PlainOf(cs: seq<Count>, ns: seq<int>)
    requires |cs| == |ns| && forall i :: 0 <= i < |ns| ==> cs[i] == Run(ns[i])
    ensures cs == Plain(ns) && RunsOf(cs) == Some(ns)
  {
    RunsOfPlain(ns);
  }

  /** Positive runs alternate with `.+`, starting and ending with hashes. */
  lemma {:induction false} BodyShape(ns: seq<int>)
    requires ns != [] && Positive(ns)
    ensures |Body(ns)| == 2 * |ns| - 1
    ensures forall i :: 0 <= i < |Body(ns)| ==>
              Body(ns)[i] == if i % 2 == 0 then Hashes(ns[i / 2]) else SomeDots
  {
    if |ns| > 1 {
      var b, rest := Body(ns), Body(ns[1..]);
      BodyShape(ns[1..]);
      assert b == [Hashes(ns[0]), SomeDots] + rest;
      forall i | 2 <= i < |b|
        ensures b[i] == if i % 2 == 0 then Hashes(ns[i / 2]) else SomeDots
      {
        assert b[i] == rest[i - 2];
        assert (i - 2) % 2 == i % 2 && (i - 2) / 2 == i / 2 - 1;
        assert ns[1..][i / 2 - 1] == ns[i / 2];
      }
    }
  }

  lemma PlainPattern(ns: seq<int>)
    requires ns != [] && Positive(ns)
    ensures Pattern(Plain(ns)) == Some([AnyDots] + Body(ns) + [AnyDots])
  {
    RunsOfPlain(ns);
    BodyShape(ns);
    AssembleShape(true, true, ns);
    assert DropLead(Plain(ns)) == (false, Plain(ns));
    assert DropTail(Plain(ns)) == (false, Plain(ns));
  }

  lemma EmptyPattern()
    ensures Pattern([]) == Some([AnyDots])
  {
    assert Assemble(true, true, []) == [AnyDots];
  }

  /** The pattern of positive counts is tidy: `.*`, the runs separated by
      `.+`, then `.*`. */
  lemma PlainTidy(ns: seq<int>)
    requires Positive(ns)
    ensures Tidy(Pattern(Plain(ns)).value)
  {
    if ns == [] {
      EmptyPattern();
    } else {
      PlainPattern(ns);
      WrappedBodyTidy(ns);
    }
  }

  /** The body between `.*` and `.*` never puts two dot elements side by side. */
  lemma WrappedBodyTidy(ns: seq<int>)
    requires ns != [] && Positive(ns)
    ensures Tidy([AnyDots] + Body(ns) + [AnyDots])
  {
    BodyShape(ns);
    var b := Body(ns);
    var p := [AnyDots] + b + [AnyDots];
    forall i | 1 <= i <= |b| ensures p[i] == b[i - 1] {
    }
    forall i | 0 <= i < |p| ensures p[i] != Hashes(0) {
      if 1 <= i <= |b| && (i - 1) % 2 == 0 {
        assert ns[(i - 1) / 2] > 0;
      }
    }
    forall i | 0 <= i < |p| - 1 ensures !(IsDots(p[i]) && IsDots(p[i + 1])) {
      if 1 <= i && i + 1 <= |b| {
        if (i - 1) % 2 == 0 {
          assert !IsDots(p[i]);
        } else {
          assert i % 2 == 0;
          assert !IsDots(p[i + 1]);
        }
      } else if i == 0 {
        assert !IsDots(p[1]);
      } else {
        assert i == |b| && (i - 1) % 2 == 0;
        assert !IsDots(p[i]);
      }
    }
  }

  /** `Pattern(counts)` for a row's counts accepts exactly the arrangements
      whose blocks of damaged springs are the counts. */
  lemma PatternMeaning(ns: seq<int>, s: string)
    requires Positive(ns) && Arrangement(s)
    ensures Accepts(Pattern(Plain(ns)).value, s) <==> Groups(s) == ns
  {
    if ns == [] {
      EmptyPattern();
      AnyDotsAlone(s);
      GroupsNone(s);
    } else {
      PlainPattern(ns);
      FreeMeaning(ns, s);
    }
  }

  /** Positive runs give a non-empty body. */
  lemma BodyNonEmpty(ns: seq<int>)
    requires ns != [] && ns[0] > 0
    ensures Body(ns) != [] && Body(ns)[0] == Hashes(ns[0])
  {
  }

  /** A chunk of plain counts ends in a run, never in a border. */
  lemma PlainNoBorder(ns: seq<int>)
    ensures DropLead(Plain(ns)) == (false, Plain(ns))
    ensures DropTail(Plain(ns)) == (false, Plain(ns))
  {
    if ns != [] {
      assert Plain(ns)[0] == Run(ns[0]);
      assert Plain(ns)[|ns| - 1] == Run(ns[|ns| - 1]);
    }
  }

  /** With a leading border the pattern starts at the first run. */
  lemma LeadingPattern(ns: seq<int>)
    requires ns != [] && Positive(ns)
    ensures Pattern([Border] + Plain(ns)) == Some(Body(ns) + [AnyDots])
  {
    var cs, ps := [Border] + Plain(ns), Plain(ns);
    assert DropLead(cs) == (true, ps) by {
      assert cs[0] == Border && cs[1..] == ps;
    }
    assert DropTail(ps) == (false, ps) && RunsOf(ps) == Some(ns) by {
      PlainNoBorder(ns);
      RunsOfPlain(ns);
    }
    PatternOf(cs, true, ps, false, ps, ns);
    assert Assemble(false, true, ns) == Body(ns) + [AnyDots] by {
      BodyNonEmpty(ns);
      AssembleShape(false, true, ns);
    }
  }

  /** A leading border drops the leading `.*`: the arrangement must start
      with the first run. */
  lemma LeadingBorder(ns: seq<int>, s: string)
    requires ns != [] && Positive(ns) && Arrangement(s)
    ensures Pattern([Border] + Plain(ns)) == Some(Body(ns) + [AnyDots])
    ensures Accepts(Pattern([Border] + Plain(ns)).value, s) <==>
            s != [] && s[0] == '#' && Groups(s) == ns
  {
    LeadingPattern(ns);
    AnchoredMeaning(ns, s);
  }

  /** A trailing border drops the trailing `.*`: the pattern ends with the
      hashes of the last run. */
  lemma TrailingBorder(ns: seq<int>)
    requires ns != [] && Positive(ns)
    ensures Pattern(Plain(ns) + [Border]) == Some([AnyDots] + Body(ns))
    ensures Pattern(Plain(ns) + [Border]).value[|Body(ns)|] == Hashes(ns[|ns| - 1])
  {
    var cs, ps := Plain(ns) + [Border], Plain(ns);
    assert DropLead(cs) == (false, cs) by {
      assert cs[0] == Run(ns[0]);
    }
    assert DropTail(cs) == (true, ps) by {
      assert |cs| == |ns| + 1 && cs[|ns|] == Border;
      assert cs[..|ns|] == ps;
    }
    assert RunsOf(ps) == Some(ns) by {
      RunsOfPlain(ns);
    }
    PatternOf(cs, false, cs, true, ps, ns);
    assert Assemble(true, false, ns) == [AnyDots] + Body(ns) by {
      BodyNonEmpty(ns);
      AssembleShape(true, false, ns);
    }
    BodyLast(ns);
  }

  lemma BodyLast(ns: seq<int>)
    requires ns != [] && Positive(ns)
    ensures Body(ns)[|Body(ns)| - 1] == Hashes(ns[|ns| - 1])
  {
    BodyShape(ns);
    var k := 2 * |ns| - 2;
    assert k % 2 == 0 && k / 2 == |ns| - 1;
  }

  /** The class docstring's example: counts 3, 2, 1. */
  lemma PatternExample()
    ensures Pattern(Plain([3, 2, 1])) ==
            Some([AnyDots, Hashes(3), SomeDots, Hashes(2), SomeDots, Hashes(1), AnyDots])
  {
    PlainPattern([3, 2, 1]);
    assert [3, 2, 1][1..] == [2, 1] && [2, 1][1..] == [1];
    assert Body([1]) == [Hashes(1)];
    assert Body([2, 1]) == [Hashes(2), SomeDots, Hashes(1)];
    assert Body([3, 2, 1]) == [Hashes(3), SomeDots, Hashes(2), SomeDots, Hashes(1)];
    assert [AnyDots] + Body([3, 2, 1]) + [AnyDots] == [AnyDots, Hashes(3), SomeDots, Hashes(2), SomeDots, Hashes(1), AnyDots];
    assert Pattern(Plain([3, 2, 1])) == Some([AnyDots] + Body([3, 2, 1]) + [AnyDots]);
  }

  /** Empty runs vanish, and what is left of `.*` `.*` collapses. */
  lemma PatternEmptyRuns()
    ensures Pattern([Run(0)]) == Some([AnyDots])
    ensures Pattern([Border, Run(0)]) == Some([AnyDots])
    ensures Pattern([Run(0), Border]) == Some([AnyDots])
  {
    PlainOf([Run(0)], [0]);
    assert Body([0]) == [];
    assert Assemble(true, true, [0]) == [AnyDots];
    assert Assemble(false, true, [0]) == [AnyDots];
    assert Assemble(true, false, [0]) == [AnyDots];
    assert [Border, Run(0)][1..] == [Run(0)];
    assert DropLead([Border, Run(0)]) == (true, [Run(0)]);
    assert DropTail([Run(0)]) == (false, [Run(0)]);
    assert [Run(0), Border][..1] == [Run(0)];
    assert DropTail([Run(0), Border]) == (true, [Run(0)]);
    PatternOf([Run(0)], false, [Run(0)], false, [Run(0)], [0]);
    PatternOf([Border, Run(0)], true, [Run(0)], false, [Run(0)], [0]);
    PatternOf([Run(0), Border], false, [Run(0), Border], true, [Run(0)], [0]);
  }

  /** An empty run next to a border leaves `.+` at that end. */
  lemma PatternBorderZero()
    ensures Pattern([Border, Run(0), Run(2)]) == Some([SomeDots, Hashes(2), AnyDots])
    ensures Pattern([Run(2), Run(0), Border]) == Some([AnyDots, Hashes(2), SomeDots])
  {
    assert [0, 2][1..] == [2] && [2, 0][1..] == [0];
    assert Body([2]) == [Hashes(2)];
    assert Body([0]) == [];
    assert Body([0, 2]) == [SomeDots, Hashes(2)];
    assert Body([2, 0]) == [Hashes(2), SomeDots];
    PlainOf([Run(0), Run(2)], [0, 2]);
    PlainOf([Run(2), Run(0)], [2, 0]);
    assert [Border, Run(0), Run(2)][1..] == [Run(0), Run(2)];
    assert DropLead([Border, Run(0), Run(2)]) == (true, [Run(0), Run(2)]);
    assert DropTail([Run(0), Run(2)]) == (false, [Run(0), Run(2)]);
    assert [Run(2), Run(0), Border][..2] == [Run(2), Run(0)];
    assert DropTail([Run(2), Run(0), Border]) == (true, [Run(2), Run(0)]);
    AssembleShape(false, true, [0, 2]);
    AssembleShape(true, false, [2, 0]);
    assert Assemble(false, true, [0, 2]) == [SomeDots, Hashes(2), AnyDots];
    assert Assemble(true, false, [2, 0]) == [AnyDots, Hashes(2), SomeDots];
    PatternOf([Border, Run(0), Run(2)], true, [Run(0), Run(2)], false, [Run(0), Run(2)], [0, 2]);
    PatternOf([Run(2), Run(0), Border], false, [Run(2), Run(0), Border], true, [Run(2), Run(0)], [2, 0]);
  }

  // ---------------------------------------------------------------------
  // Simple rows (part a)
  // ---------------------------------------------------------------------

  /** A decided spring that fits a plan spring is operational or damaged. */
  lemma ConformsArrangement(s: string, plan: string)
    requires IsPlan(plan) && Conforms(s, plan)
    ensures Arrangement(s)
  {
    forall i | 0 <= i < |s| ensures s[i] == '.' || s[i] == '#' {
      assert Fits(s[i], plan[i]) && plan[i] in ".#?";
    }
  }

  /** `SimpleRow.solutions`: the set of strings the row's pattern yields. */
  function Solutions(plan: string, ns: seq<int>): set<string>
  {
    match Pattern(Plain(ns))
    case None => {}
    case Some(p) => set x | x in Matches(plan, p, "")
  }

  /** The solutions of a row are exactly the arrangements of its plan whose
      blocks of damaged springs are its counts. */
  lemma SolutionsExactly(plan: string, ns: seq<int>, s: string)
    requires IsPlan(plan) && Positive(ns)
    ensures s in Solutions(plan, ns) <==> Conforms(s, plan) && Groups(s) == ns
  {
    RunsOfPlain(ns);
    PlainNoBorder(ns);
    PlainTidy(ns);
    var p := Pattern(Plain(ns)).value;
    if s in Solutions(plan, ns) {
      MatchesSound(plan, p, "", s);
      assert s[|""|..] == s;
      ConformsArrangement(s, plan);
      PatternMeaning(ns, s);
    }
    if Conforms(s, plan) && Groups(s) == ns {
      ConformsArrangement(s, plan);
      PatternMeaning(ns, s);
      MatchesComplete(plan, p, "", s);
      assert "" + s == s;
    }
  }

  /** A list without repeats has as many elements as its set. */
  lemma {:induction false} DistinctCard(xs: seq<string>)
    requires Distinct(xs)
    ensures |set x | x in xs| == |xs|
  {
    if xs != [] {
      var t := xs[..|xs| - 1];
      assert Distinct(t);
      DistinctCard(t);
      var st, sx := set x | x in t, set x | x in xs;
      assert xs[|xs| - 1] !in st;
      assert sx == st + {xs[|xs| - 1]};
    }
  }

  /** The set of solutions loses nothing to duplicates: its size is the
      number of strings the matcher yields. */
  lemma SolutionCount(plan: string, ns: seq<int>)
    requires IsPlan(plan) && Positive(ns)
    ensures Pattern(Plain(ns)).Some?
    ensures |Solutions(plan, ns)| == |Matches(plan, Pattern(Plain(ns)).value, "")|
  {
    RunsOfPlain(ns);
    PlainNoBorder(ns);
    PlainTidy(ns);
    var p := Pattern(Plain(ns)).value;
    MatchesDistinct(plan, p, "");
    DistinctCard(Matches(plan, p, ""));
  }

  /** `SimpleRow.parse` and `UnfoldedRow.parse`: a plan and comma-separated
      counts, separated by whitespace. Anything else raises (None). */
  function ParseRow(line: string): (r: Option<(string, seq<int>)>)
    ensures r.Some? ==> |Words(line)| == 2 && r.value.0 == Words(line)[0]
  {
    var ws := Words(line);
    if |ws| != 2 then None
    else match ParseInts(Split(ws[1], ','))
      case None => None
      case Some(ns) => Some((ws[0], ns))
  }

  /** A row as the puzzle writes it: the plan, a space, then the counts
      joined by commas. */
  function RowLine(plan: string, ns: seq<int>): string
    requires ns != []
  {
    plan + " " + Join(IntTexts(ns), ',')
  }

  /** A written row parses back to its plan and its counts. */
  lemma ParseRowWritten(plan: string, ns: seq<int>)
    requires plan != [] && forall j :: 0 <= j < |plan| ==> !IsSpace(plan[j])
    requires ns != []
    ensures ParseRow(RowLine(plan, ns)) == Some((plan, ns))
  {
    var c := Join(IntTexts(ns), ',');
    CountsText(ns);
    RowWords(RowLine(plan, ns), plan, c);
    ParseIntsWritten(ns);
  }

  /** The comma-joined counts: one word, split back into the written numbers. */
  lemma CountsText(ns: seq<int>)
    requires ns != []
    ensures var c := Join(IntTexts(ns), ',');
            c != [] && (forall j :: 0 <= j < |c| ==> !IsSpace(c[j])) && Split(c, ',') == IntTexts(ns)
  {
    var ts := IntTexts(ns);
    forall i, ch | 0 <= i < |ts| && ch in {' ', '\t', '\n', '\r', ','}
      ensures ch !in ts[i]
    {
      IntTextChars(ns[i], ch);
    }
    JoinAvoids(ts, ',', ' ');
    JoinAvoids(ts, ',', '\t');
    JoinAvoids(ts, ',', '\n');
    JoinAvoids(ts, ',', '\r');
    SplitJoin(ts, ',');
  }

  lemma RowWords(line: string, plan: string, c: string)
    requires line == plan + " " + c
    requires plan != [] && forall j :: 0 <= j < |plan| ==> !IsSpace(plan[j])
    requires c != [] && forall j :: 0 <= j < |c| ==> !IsSpace(c[j])
    ensures Words(line) == [plan, c]
  {
    WordsSpace(line);
    assert " " + line == " " + plan + (" " + c);
    WordsLead(plan, " " + c);
    WordsSpace(c);
    assert " " + c == " " + c + "";
    WordsLead(c, "");
  }

  /** `day12a`: the number of solutions summed over the rows. */
  function Day12A(lines: seq<string>): (r: Option<nat>)
    ensures r.Some? <==> forall i :: 0 <= i < |lines| ==> ParseRow(lines[i]).Some?
  {
    if lines == [] then Some(0)
    else match (ParseRow(lines[0]), Day12A(lines[1..]))
      case (Some((plan, ns)), Some(rest)) => Some(|Solutions(plan, ns)| + rest)
      case _ => None
  }

  // ---------------------------------------------------------------------
  // Floor plans and their memo (part b)
  // ---------------------------------------------------------------------

  /** The number of ways a chunk of counts fits a floor plan; a chunk with a
      border in its middle has no pattern (Python raises on it), and
      `Partitions` never builds one. */
  function Ways(text: string, counts: seq<Count>): nat
  {
    match Pattern(counts)
    case None => 0
    case Some(p) => |Matches(text, p, "")|
  }

  /** `FloorPlan`: the plan text and the memo `ways` of the chunks already
      counted. */
  class FloorPlan {
    const text: string
    var ways: map<seq<Count>, nat>

    /** Every memo entry is the count for its chunk. */
    ghost predicate Valid()
      reads this
    {
      forall c :: c in ways ==> Pattern(c).Some? && ways[c] == Ways(text, c)
    }

    constructor (text: string)
      ensures this.text == text && ways == map[] && Valid()
    {
      this.text := text;
      ways := map[];
    }

    /** `accommodations`: the number of ways the chunk fits, stored in the
        memo on first use; a chunk without a pattern raises (None). */
    method Accommodations(counts: seq<Count>) returns (r: Option<nat>)
      requires Valid()
      modifies this
      ensures Valid()
      ensures r == if Pattern(counts).Some? then Some(Ways(text, counts)) else None
      ensures r.Some? ==> counts in ways && ways == old(ways)[counts := r.value]
      ensures r.None? || counts in old(ways) ==> ways == old(ways)
    {
      if counts !in ways {
        match Pattern(counts)
        case None =>
          return None;
        case Some(p) =>
          var matched := Matches(text, p, "");
          ways := ways[counts := |matched|];
      }
      r := Some(ways[counts]);
    }
  }

  // ---------------------------------------------------------------------
  // Partitions of the unfolded counts
  // ---------------------------------------------------------------------

  /** Counts that may start with a border (a run continued from the previous
      floor plan) and hold runs everywhere else. */
  predicate Continues(counts: seq<Count>)
  {
    forall j :: 0 < j < |counts| ==> counts[j].Run?
  }

  /** `r_min`: a chunk that continues a run must take the border and the
      rest of that run. */
  function Lead(counts: seq<Count>): nat
  {
    if counts != [] && counts[0] == Border then 2 else 0
  }

  /** The module-level `partitions` generator: every way to share `counts`
      between `k` more copies of the floor plan, each appended to `filled`. */
  function Partitions(text: string, counts: seq<Count>, filled: seq<seq<Count>>, k: nat): seq<seq<seq<Count>>>
    requires Continues(counts)
    decreases k, 2, 0, 0
  {
    if k == 0 then (if counts == [] then [filled] else [])
    else Splits(text, counts, filled, k, Lead(counts))
  }

  /** The chunks `counts[0:i]` for `i` from `i` up to `len(counts)`. */
  function Splits(text: string, counts: seq<Count>, filled: seq<seq<Count>>, k: nat, i: nat): seq<seq<seq<Count>>>
    requires k > 0 && Continues(counts) && Lead(counts) <= i
    decreases k, 1, |counts| + 1 - i, 0
  {
    if i > |counts| then []
    else
      var chunk := counts[..i];
      (if Ways(text, chunk) > 0 then Partitions(text, counts[i..], filled + [chunk], k - 1) else [])
      + (if i < |counts| then Overlaps(text, counts, filled, k, i, 0) else [])
      + Splits(text, counts, filled, k, i + 1)
  }

  /** The chunks that pull `n` springs of the next run into this floor plan
      and leave the rest of that run, behind a border, to the next one. */
  function Overlaps(text: string, counts: seq<Count>, filled: seq<seq<Count>>, k: nat, i: nat, n: nat): seq<seq<seq<Count>>>
    requires k > 0 && Continues(counts) && Lead(counts) <= i < |counts|
    decreases k, 1, |counts| - i, counts[i].n - n
  {
    if n >= counts[i].n then []
    else
      var chunk := counts[..i] + [Run(n), Border];
      var cont := [Border, Run(counts[i].n - n - 1)] + counts[i + 1..];
      (if Ways(text, chunk) > 0 then Partitions(text, cont, filled + [chunk], k - 1) else [])
      + Overlaps(text, counts, filled, k, i, n + 1)
  }

  /** Two neighbouring chunks put back together: a run split by the border
      between two floor plans (`n` before, `m` after) is one run of
      `n + 1 + m`, the extra one being the spring between the copies. */
  function Fuse(a: seq<Count>, b: seq<Count>): seq<Count>
  {
    if |a| >= 2 && a[|a| - 1] == Border && a[|a| - 2].Run? && |b| >= 2 && b[0] == Border && b[1].Run?
    then a[..|a| - 2] + [Run(a[|a| - 2].n + b[1].n + 1)] + b[2..]
    else a + b
  }

  /** The counts a sequence of chunks stands for. */
  function Glue(chunks: seq<seq<Count>>): seq<Count>
  {
    if chunks == [] then [] else Fuse(chunks[0], Glue(chunks[1..]))
  }

  /** What every partition satisfies: `filled` kept as its prefix, `k` new
      chunks each of which fits the plan, and together they are the counts. */
  predicate Shares(text: string, counts: seq<Count>, filled: seq<seq<Count>>, k: nat, p: seq<seq<Count>>)
  {
    |p| == |filled| + k && p[..|filled|] == filled &&
    (forall j :: |filled| <= j < |p| ==> Ways(text, p[j]) > 0) &&
    Glue(p[|filled|..]) == counts
  }

  /** Appending one chunk in front of a partition of the rest. */
  lemma SharesStep(text: string, rest: seq<Count>, filled: seq<seq<Count>>, chunk: seq<Count>, k: nat, p: seq<seq<Count>>)
    requires k > 0 && Ways(text, chunk) > 0
    requires Shares(text, rest, filled + [chunk], k - 1, p)
    ensures Shares(text, Fuse(chunk, rest), filled, k, p)
  {
    var m := |filled|;
    assert p[..m + 1] == filled + [chunk];
    assert p[..m] == p[..m + 1][..m] == filled;
    assert p[m] == p[..m + 1][m] == chunk;
    var q := p[m..];
    assert q[0] == chunk && q[1..] == p[m + 1..];
    assert Glue(q) == Fuse(chunk, rest);
  }

  /** A plain split point: the chunk does not end in a border. */
  lemma FuseSplit(counts: seq<Count>, i: nat)
    requires Continues(counts) && Lead(counts) <= i <= |counts|
    ensures Fuse(counts[..i], counts[i..]) == counts
  {
    var a := counts[..i];
    if |a| >= 2 {
      assert a[|a| - 1] == counts[i - 1] && counts[i - 1].Run?;
    }
    assert a + counts[i..] == counts;
  }

  /** An overlapping split: the two halves of the run fuse back into it. */
  lemma FuseOverlap(counts: seq<Count>, i: nat, n: nat)
    requires Continues(counts) && Lead(counts) <= i < |counts| && n < counts[i].n
    ensures Fuse(counts[..i] + [Run(n), Border], [Border, Run(counts[i].n - n - 1)] + counts[i + 1..]) == counts
  {
    var a, b := counts[..i] + [Run(n), Border], [Border, Run(counts[i].n - n - 1)] + counts[i + 1..];
    assert a[..|a| - 2] == counts[..i];
    assert b[2..] == counts[i + 1..];
    assert counts == counts[..i] + [Run(counts[i].n)] + counts[i + 1..];
  }

  /** The leftover of a plain split and of an overlapping split can itself
      be partitioned. */
  lemma ContinuesParts(counts: seq<Count>, i: nat)
    requires Continues(counts) && Lead(counts) <= i < |counts|
    ensures counts[i].Run? && Continues(counts[i..])
    ensures forall n :: Continues([Border, Run(n)] + counts[i + 1..])
  {
    assert forall j :: 0 < j < |counts| - i ==> counts[i..][j] == counts[i + j];
    forall n ensures Continues([Border, Run(n)] + counts[i + 1..]) {
      var c := [Border, Run(n)] + counts[i + 1..];
      assert forall j :: 2 <= j < |c| ==> c[j] == counts[i + j - 1];
    }
  }

  /** Every partition the generator yields shares out the counts. */
  lemma {:induction false} PartitionsSound(text: string, counts: seq<Count>, filled: seq<seq<Count>>, k: nat, p: seq<seq<Count>>)
    requires Continues(counts) && p in Partitions(text, counts, filled, k)
    ensures Shares(text, counts, filled, k, p)
    decreases k, 2, 0, 0
  {
    if k == 0 {
      assert p == filled && p[|filled|..] == [];
    } else {
      SplitsSound(text, counts, filled, k, Lead(counts), p);
    }
  }

  lemma {:induction false} SplitsSound(text: string, counts: seq<Count>, filled: seq<seq<Count>>, k: nat, i: nat, p: seq<seq<Count>>)
    requires k > 0 && Continues(counts) && Lead(counts) <= i
    requires p in Splits(text, counts, filled, k, i)
    ensures Shares(text, counts, filled, k, p)
    decreases k, 1, |counts| + 1 - i, 1
  {
    var chunk := counts[..i];
    var here := if Ways(text, chunk) > 0 then Partitions(text, counts[i..], filled + [chunk], k - 1) else [];
    var over := if i < |counts| then Overlaps(text, counts, filled, k, i, 0) else [];
    assert Splits(text, counts, filled, k, i) == here + over + Splits(text, counts, filled, k, i + 1);
    if p in here {
      SplitHere(text, counts, filled, k, i, p);
    } else if p in over {
      OverlapsSound(text, counts, filled, k, i, 0, p);
    } else {
      SplitsSound(text, counts, filled, k, i + 1, p);
    }
  }

  lemma {:induction false} SplitHere(text: string, counts: seq<Count>, filled: seq<seq<Count>>, k: nat, i: nat, p: seq<seq<Count>>)
    requires k > 0 && Continues(counts) && Lead(counts) <= i <= |counts|
    requires Ways(text, counts[..i]) > 0
    requires p in Partitions(text, counts[i..], filled + [counts[..i]], k - 1)
    ensures Shares(text, counts, filled, k, p)
    decreases k, 1, |counts| + 1 - i, 0
  {
    ContinuesRest(counts, i);
    PartitionsSound(text, counts[i..], filled + [counts[..i]], k - 1, p);
    SharesSplit(text, counts, filled, k, i, p);
  }

  lemma ContinuesRest(counts: seq<Count>, i: nat)
    requires Continues(counts) && Lead(counts) <= i <= |counts|
    ensures Continues(counts[i..])
  {
    if i < |counts| {
      ContinuesParts(counts, i);
    } else {
      assert counts[i..] == [];
    }
  }

  /** A partition of the counts after i, behind the chunk before i, shares
      out all the counts. */
  lemma SharesSplit(text: string, counts: seq<Count>, filled: seq<seq<Count>>, k: nat, i: nat, p: seq<seq<Count>>)
    requires k > 0 && Continues(counts) && Lead(counts) <= i <= |counts|
    requires Ways(text, counts[..i]) > 0
    requires Shares(text, counts[i..], filled + [counts[..i]], k - 1, p)
    ensures Shares(text, counts, filled, k, p)
  {
    SharesStep(text, counts[i..], filled, counts[..i], k, p);
    FuseSplit(counts, i);
  }

  lemma {:induction false} OverlapsSound(text: string, counts: seq<Count>, filled: seq<seq<Count>>, k: nat, i: nat, n: nat, p: seq<seq<Count>>)
    requires k > 0 && Continues(counts) && Lead(counts) <= i < |counts|
    requires p in Overlaps(text, counts, filled, k, i, n)
    ensures Shares(text, counts, filled, k, p)
    decreases k, 1, |counts| - i, counts[i].n - n
  {
    ContinuesParts(counts, i);
    var chunk := counts[..i] + [Run(n), Border];
    var cont := [Border, Run(counts[i].n - n - 1)] + counts[i + 1..];
    var here := if Ways(text, chunk) > 0 then Partitions(text, cont, filled + [chunk], k - 1) else [];
    assert Overlaps(text, counts, filled, k, i, n) == here + Overlaps(text, counts, filled, k, i, n + 1);
    if p in here {
      PartitionsSound(text, cont, filled + [chunk], k - 1, p);
      SharesStep(text, cont, filled, chunk, k, p);
      FuseOverlap(counts, i, n);
    } else {
      OverlapsSound(text, counts, filled, k, i, n + 1, p);
    }
  }

  // ---------------------------------------------------------------------
  // Unfolded rows
  // ---------------------------------------------------------------------

  /** `counts * 5`. */
  function Repeat(ns: seq<int>, times: nat): (r: seq<int>)
    ensures |r| == |ns| * times
  {
    if times == 0 then [] else ns + Repeat(ns, times - 1)
  }

  /** The product of the ways each chunk of a partition fits the plan. */
  function Product(text: string, p: seq<seq<Count>>): nat
  {
    if p == [] then 1 else Ways(text, p[0]) * Product(text, p[1..])
  }

  function SumProducts(text: string, ps: seq<seq<seq<Count>>>): nat
  {
    if ps == [] then 0 else Product(text, ps[0]) + SumProducts(text, ps[1..])
  }

  /** `UnfoldedRow.partitions`: the counts repeated five times, shared out
      between five copies of the plan. */
  function UnfoldedPartitions(plan: string, ns: seq<int>): seq<seq<seq<Count>>>
  {
    Partitions(plan, Plain(Repeat(ns, 5)), [], 5)
  }

  /** Each partition of an unfolded row is five chunks that fit the plan and
      fuse back into the counts repeated five times. */
  lemma UnfoldedPartitionsShare(plan: string, ns: seq<int>, p: seq<seq<Count>>)
    requires p in UnfoldedPartitions(plan, ns)
    ensures |p| == 5 && (forall j :: 0 <= j < 5 ==> Ways(plan, p[j]) > 0)
    ensures Glue(p) == Plain(Repeat(ns, 5))
  {
    var none: seq<seq<Count>> := [];
    PartitionsSound(plan, Plain(Repeat(ns, 5)), none, 5, p);
    assert p[|none|..] == p;
  }

  /** `UnfoldedRow.possibilities`: the sum over the partitions of the product
      of the ways of their chunks. */
  function Possibilities(plan: string, ns: seq<int>): nat
  {
    SumProducts(plan, UnfoldedPartitions(plan, ns))
  }

  /** `day12b`: the possibilities summed over the rows. */
  function Day12B(lines: seq<string>): (r: Option<nat>)
    ensures r.Some? <==> forall i :: 0 <= i < |lines| ==> ParseRow(lines[i]).Some?
  {
    if lines == [] then Some(0)
    else match (ParseRow(lines[0]), Day12B(lines[1..]))
      case (Some((plan, ns)), Some(rest)) => Some(Possibilities(plan, ns) + rest)
      case _ => None
  }

  /** The matcher's doctests for the empty counts. */
  lemma MatchesEmptyCountsExamples()
    ensures Matches("?", Pattern([]).value, "") == ["."]
    ensures Matches("#", Pattern([]).value, "") == []
    ensures Matches(".", Pattern([]).value, "") == ["."]
  {
    EmptyPattern();
    assert "?"[1..] == "" && "."[1..] == "" && "" + "." == ".";
    assert Matches("", [AnyDots], ".") == ["."];
    assert Matches("#", [], "") == [];
  }

  /** The matcher's doctest for two single springs in a plan of three
      unknowns. */
  lemma MatchesOneOneExample()
    ensures Matches("???", Pattern(Plain([1, 1])).value, "") == ["#.#"]
  {
    PlainPattern([1, 1]);
    assert [1, 1][1..] == [1];
    assert Body([1, 1]) == [Hashes(1), SomeDots, Hashes(1)];
    var p := [AnyDots, Hashes(1), SomeDots, Hashes(1), AnyDots];
    assert Pattern(Plain([1, 1])).value == p;
    assert "???"[1..] == "??";
    assert p[1..] == [Hashes(1), SomeDots, Hashes(1), AnyDots];
    OneOneHashFirst();
    OneOneDotFirst();
  }

  /** Starting with a spring, "???" matches the pattern only as "#.#". */
  lemma OneOneHashFirst()
    ensures Matches("???", [Hashes(1), SomeDots, Hashes(1), AnyDots], "") == ["#.#"]
  {
    var tail := [AnyDots, Hashes(1), AnyDots];
    assert "???"[1..] == "??" && "??"[1..] == "?" && "?"[1..] == "";
    assert "" + "#" == "#" && "#" + "." == "#." && "#." + "#" == "#.#" && "#." + "." == "#..";
    assert Matches("", [], "#.#") == ["#.#"];
    assert Matches("", [AnyDots], "#.#") == ["#.#"];
    assert [Hashes(1), AnyDots][1..] == [AnyDots];
    assert Matches("?", [Hashes(1), AnyDots], "#.") == ["#.#"];
    assert tail[1..] == [Hashes(1), AnyDots];
    assert Matches("", tail, "#..") == [];
    assert Matches("?", tail, "#.") == ["#.#"];
    assert [SomeDots, Hashes(1), AnyDots][1..] == [Hashes(1), AnyDots];
    assert [AnyDots] + [Hashes(1), AnyDots] == tail;
    assert Matches("??", [SomeDots, Hashes(1), AnyDots], "#") == ["#.#"];
    assert [Hashes(1), SomeDots, Hashes(1), AnyDots][1..] == [SomeDots, Hashes(1), AnyDots];
  }

  /** Starting with an operational spring, "???" has no room left for two
      springs. */
  lemma OneOneDotFirst()
    ensures Matches("??", [AnyDots, Hashes(1), SomeDots, Hashes(1), AnyDots], ".") == []
  {
    var p := [AnyDots, Hashes(1), SomeDots, Hashes(1), AnyDots];
    var tail := [AnyDots, Hashes(1), AnyDots];
    assert "??"[1..] == "?" && "?"[1..] == "";
    assert "." + "." == ".." && ".." + "." == "..." && ".." + "#" == "..#";
    assert "." + "#" == ".#" && ".#" + "." == ".#.";
    assert p[1..] == [Hashes(1), SomeDots, Hashes(1), AnyDots];
    assert p[1..][1..] == [SomeDots, Hashes(1), AnyDots];
    assert [SomeDots, Hashes(1), AnyDots][1..] == [Hashes(1), AnyDots];
    assert [AnyDots] + [Hashes(1), AnyDots] == tail;
    assert Matches("", [SomeDots, Hashes(1), AnyDots], "..#") == [];
    assert Matches("?", p[1..], "..") == [];
    assert Matches("", p, "...") == [];
    assert Matches("?", p, "..") == [];
    assert Matches("", tail, ".#.") == [];
    assert Matches("?", [SomeDots, Hashes(1), AnyDots], ".#") == [];
    assert Matches("??", p[1..], ".") == [];
  }

  /** The `accommodations` doctests: a chunk that is only an empty run behind
      a border fits three unknowns in one way (all operational). */
  lemma AccommodationsExample()
    ensures Ways("???", [Border, Run(0)]) == 1
    ensures Ways("???", [Run(0), Border]) == 1
  {
    PatternEmptyRuns();
    assert "???"[1..] == "??" && "??"[1..] == "?" && "?"[1..] == "";
    assert "" + "." == "." && "." + "." == ".." && ".." + "." == "...";
    assert Matches("", [AnyDots], "...") == ["..."];
    assert Matches("?", [AnyDots], "..") == ["..."];
    assert Matches("??", [AnyDots], ".") == ["..."];
    assert Matches("???", [AnyDots], "") == ["..."];
  }
}
