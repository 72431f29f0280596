/** Seed almanac (aoc23/day5.py): each mapping shifts the values of a few
    half-open source ranges; part two pushes whole ranges of seeds through
    the mappings, splitting them where a shifted range begins or ends. */
module Day5 {
  import opened Common

  /** Python's `range(start, stop)`, step 1. */
  datatype Range = Range(start: int, stop: int)

  predicate Contains(r: Range, v: int) { r.start <= v < r.stop }

  /** The truth value of a range: it holds some value. */
  predicate NonEmpty(r: Range) { r.start < r.stop }

  function Len(r: Range): (n: nat)
    ensures n > 0 <==> NonEmpty(r)
  {
    if r.start < r.stop then r.stop - r.start else 0
  }

  /** `range_overlap`: the values in both ranges. */
  function Overlap(x: Range, y: Range): (o: Range)
    ensures forall v :: Contains(o, v) <==> Contains(x, v) && Contains(y, v)
  {
    Range(Max(x.start, y.start), Min(x.stop, y.stop))
  }

  /** A perturbation `to fr n` moves `range(fr, fr + n)` by `to - fr`. */
  datatype Perturbation = Perturbation(fr: int, to: int, n: int)

  function Domain(p: Perturbation): Range { Range(p.fr, p.fr + p.n) }

  function Shift(p: Perturbation): int { p.to - p.fr }

  /** `RangePerturbation.__call__`. */
  function Perturb(p: Perturbation, v: int): (w: int)
    ensures Contains(Domain(p), v) ==> w - v == p.to - p.fr
    ensures !Contains(Domain(p), v) ==> w == v
  {
    if Contains(Domain(p), v) then v + Shift(p) else v
  }

  predicate Applies(p: Perturbation, r: Range)
  {
    NonEmpty(Overlap(Domain(p), r))
  }

  /** Some range of rs holds v. */
  predicate Covers(rs: seq<Range>, v: int)
  {
    exists k :: 0 <= k < |rs| && Contains(rs[k], v)
  }

  function SumLen(rs: seq<Range>): nat
  {
    if rs == [] then 0 else SumLen(rs[..|rs| - 1]) + Len(rs[|rs| - 1])
  }

  lemma {:induction false} SumLenAppend(a: seq<Range>, b: seq<Range>)
    ensures SumLen(a + b) == SumLen(a) + SumLen(b)
    decreases |b|
  {
    if b != [] {
      assert (a + b)[..|a + b| - 1] == a + b[..|b| - 1];
      assert (a + b)[|a + b| - 1] == b[|b| - 1];
      SumLenAppend(a, b[..|b| - 1]);
    } else {
      assert a + b == a;
    }
  }

  lemma CoversAppend(a: seq<Range>, b: seq<Range>, v: int)
    ensures Covers(a + b, v) <==> Covers(a, v) || Covers(b, v)
  {
    if Covers(a + b, v) {
      var k :| 0 <= k < |a + b| && Contains((a + b)[k], v);
      if k >= |a| {
        assert Contains(b[k - |a|], v);
      }
    }
    if Covers(a, v) {
      var k :| 0 <= k < |a| && Contains(a[k], v);
      assert Contains((a + b)[k], v);
    }
    if Covers(b, v) {
      var k :| 0 <= k < |b| && Contains(b[k], v);
      assert Contains((a + b)[|a| + k], v);
    }
  }

  /** The non-empty ranges of rs (`[range for range in ... if range]`). */
  function NonEmptyOnly(rs: seq<Range>): (r: seq<Range>)
    ensures SumLen(r) == SumLen(rs)
    ensures forall v :: Covers(r, v) <==> Covers(rs, v)
  {
    if rs == [] then []
    else
      var init := NonEmptyOnly(rs[..|rs| - 1]);
      var last := rs[|rs| - 1];
      var r := if NonEmpty(last) then init + [last] else init;
      forall v ensures Covers(r, v) <==> Covers(rs, v) {
        CoversAppend(init, [last], v);
        CoversAppend(rs[..|rs| - 1], [last], v);
        assert rs == rs[..|rs| - 1] + [last];
      }
      SumLenAppend(init, [last]);
      assert SumLen([last]) == Len(last) by {
        assert [last][..0] == [];
      }
      r
  }

  /** `range_impacts`: the parts of r the perturbation leaves alone, and the
      part it moves, already moved. Together they are as long as r; a value
      stays exactly when it lies outside the domain, and moves exactly when
      it lies inside. */
  function RangeImpacts(p: Perturbation, r: Range): (res: (seq<Range>, seq<Range>))
    ensures SumLen(res.0) + SumLen(res.1) == Len(r)
    ensures forall v :: Covers(res.0, v) <==> Contains(r, v) && !Contains(Domain(p), v)
    ensures forall w :: Covers(res.1, w) <==>
              Contains(r, w - Shift(p)) && Contains(Domain(p), w - Shift(p))
    ensures !Applies(p, r) ==> res == ([r], [])
  {
    var o := Overlap(Domain(p), r);
    if NonEmpty(o) then
      var below := Range(r.start, Max(r.start, o.start));
      var above := Range(o.stop, Max(o.stop, r.stop));
      var moved := Range(o.start + Shift(p), o.stop + Shift(p));
      var us := NonEmptyOnly([below, above]);
      ImpactsKept(p, r, o, below, above);
      SingletonFacts(moved);
      forall w ensures Covers([moved], w) <==> Contains(r, w - Shift(p)) && Contains(Domain(p), w - Shift(p)) {
        assert Contains(moved, w) <==> Contains(o, w - Shift(p));
      }
      (us, [moved])
    else
      SingletonFacts(r);
      ([r], [])
  }

  /** The parts of r below and above the overlap o with the domain hold
      exactly the values of r outside the domain, and are as long as r
      without o. */
  lemma ImpactsKept(p: Perturbation, r: Range, o: Range, below: Range, above: Range)
    requires o == Overlap(Domain(p), r) && NonEmpty(o)
    requires below == Range(r.start, Max(r.start, o.start)) && above == Range(o.stop, Max(o.stop, r.stop))
    ensures forall v :: Covers([below, above], v) <==> Contains(r, v) && !Contains(Domain(p), v)
    ensures SumLen([below, above]) + Len(o) == Len(r)
  {
    forall v ensures Covers([below, above], v) <==> Contains(r, v) && !Contains(Domain(p), v) {
      if Contains(r, v) && !Contains(Domain(p), v) {
        if v < o.start { assert Contains([below, above][0], v); }
        else { assert Contains([below, above][1], v); }
      }
    }
    SingletonFacts(below);
    assert [below, above][..1] == [below];
    assert SumLen([below, above]) == SumLen([below]) + Len(above);
  }

  /** One perturbation applied to a list of unaffected ranges, range by
      range: the ranges it does not touch, the unaffected pieces of those it
      does, and the moved pieces. */
  function Pass(p: Perturbation, rs: seq<Range>): (res: (seq<Range>, seq<Range>, seq<Range>))
    ensures forall x :: x in res.0 ==> !Applies(p, x)
  {
    if rs == [] then ([], [], [])
    else
      var (kept, us, moved) := Pass(p, rs[..|rs| - 1]);
      var last := rs[|rs| - 1];
      if Applies(p, last) then
        var impact := RangeImpacts(p, last);
        (kept, us + impact.0, moved + impact.1)
      else
        (kept + [last], us, moved)
  }

  lemma SingletonFacts(x: Range)
    ensures SumLen([x]) == Len(x)
    ensures forall v :: Covers([x], v) <==> Contains(x, v)
  {
    assert [x][..0] == [];
    forall v | Contains(x, v) ensures Covers([x], v) { assert Contains([x][0], v); }
  }

  /** A pass neither loses nor gains length. */
  lemma {:induction false} PassLength(p: Perturbation, rs: seq<Range>)
    ensures var res := Pass(p, rs); SumLen(res.0) + SumLen(res.1) + SumLen(res.2) == SumLen(rs)
  {
    if rs != [] {
      var init, last := rs[..|rs| - 1], rs[|rs| - 1];
      PassLength(p, init);
      var (kept, us, moved) := Pass(p, init);
      assert rs == init + [last];
      SumLenAppend(init, [last]);
      SingletonFacts(last);
      if Applies(p, last) {
        var impact := RangeImpacts(p, last);
        SumLenAppend(us, impact.0);
        SumLenAppend(moved, impact.1);
      } else {
        SumLenAppend(kept, [last]);
      }
    }
  }

  /** After a pass a value is still unaffected exactly when it was and lies
      outside the perturbation's domain. */
  lemma {:induction false} PassStays(p: Perturbation, rs: seq<Range>, v: int)
    ensures var res := Pass(p, rs);
            Covers(res.0 + res.1, v) <==> Covers(rs, v) && !Contains(Domain(p), v)
  {
    if rs != [] {
      var init, last := rs[..|rs| - 1], rs[|rs| - 1];
      PassStays(p, init, v);
      var (kept, us, moved) := Pass(p, init);
      assert rs == init + [last];
      CoversAppend(init, [last], v);
      SingletonFacts(last);
      CoversAppend(kept, us, v);
      if Applies(p, last) {
        var impact := RangeImpacts(p, last);
        assert kept + (us + impact.0) == (kept + us) + impact.0;
        CoversAppend(kept + us, impact.0, v);
        CoversAppend(us, impact.0, v);
      } else {
        CoversAppend(kept + [last], us, v);
        CoversAppend(kept, [last], v);
      }
    }
  }

  /** After a pass w is among the moved pieces exactly when w minus the shift
      was unaffected and inside the domain. */
  lemma {:induction false} PassMoves(p: Perturbation, rs: seq<Range>, w: int)
    ensures var res := Pass(p, rs);
            Covers(res.2, w) <==> Covers(rs, w - Shift(p)) && Contains(Domain(p), w - Shift(p))
  {
    if rs != [] {
      var init, last := rs[..|rs| - 1], rs[|rs| - 1];
      PassMoves(p, init, w);
      var (kept, us, moved) := Pass(p, init);
      assert rs == init + [last];
      CoversAppend(init, [last], w - Shift(p));
      SingletonFacts(last);
      if Applies(p, last) {
        var impact := RangeImpacts(p, last);
        CoversAppend(moved, impact.1, w);
      }
    }
  }

  /** No perturbation before index i holds v. */
  predicate Untouched(ps: seq<Perturbation>, i: nat, v: int)
    requires i <= |ps|
  {
    forall j :: 0 <= j < i ==> !Contains(Domain(ps[j]), v)
  }

  /** Perturbation j is the first that holds v. */
  predicate HitAt(ps: seq<Perturbation>, j: nat, v: int)
    requires j < |ps|
  {
    Contains(Domain(ps[j]), v) && Untouched(ps, j, v)
  }

  /** The unaffected and the perturbed lists of `apply_to_range` after the
      first i perturbations. */
  function Passes(ps: seq<Perturbation>, r: Range, i: nat): (res: (seq<Range>, seq<Range>))
    requires i <= |ps|
    ensures SumLen(res.0) + SumLen(res.1) == Len(r)
    ensures forall v :: Covers(res.0, v) <==> Contains(r, v) && Untouched(ps, i, v)
    ensures forall w :: Covers(res.1, w) <==> MovedBy(ps, r, i, w)
  {
    if i == 0 then
      assert SumLen([r]) == Len(r) by { assert [r][..0] == []; }
      forall v | Contains(r, v) ensures Covers([r], v) { assert Contains([r][0], v); }
      ([r], [])
    else
      var (us, moved) := Passes(ps, r, i - 1);
      var pass := Pass(ps[i - 1], us);
      var res := (pass.0 + pass.1, moved + pass.2);
      PassLength(ps[i - 1], us);
      SumLenAppend(pass.0, pass.1);
      SumLenAppend(moved, pass.2);
      forall v ensures Covers(res.0, v) <==> Contains(r, v) && Untouched(ps, i, v) {
        PassStays(ps[i - 1], us, v);
      }
      forall w ensures Covers(res.1, w) <==> MovedBy(ps, r, i, w) {
        CoversAppend(moved, pass.2, w);
        PassMoves(ps[i - 1], us, w);
        MovedByStep(ps, r, i - 1, w);
      }
      res
  }

  /** w is the image of a value of r under the first perturbation among the
      first i that holds it. */
  ghost predicate MovedBy(ps: seq<Perturbation>, r: Range, i: nat, w: int)
    requires i <= |ps|
  {
    exists j :: 0 <= j < i && Contains(r, w - Shift(ps[j])) && HitAt(ps, j, w - Shift(ps[j]))
  }

  lemma MovedByStep(ps: seq<Perturbation>, r: Range, i: nat, w: int)
    requires i < |ps|
    ensures MovedBy(ps, r, i + 1, w) <==>
              MovedBy(ps, r, i, w) || (Contains(r, w - Shift(ps[i])) && HitAt(ps, i, w - Shift(ps[i])))
  {
    if MovedBy(ps, r, i + 1, w) {
      var j :| 0 <= j < i + 1 && Contains(r, w - Shift(ps[j])) && HitAt(ps, j, w - Shift(ps[j]));
      if j < i {
        assert MovedBy(ps, r, i, w);
      }
    }
  }

  /** What `apply_to_range` returns: the unaffected ranges, then the perturbed ones. */
  function ApplyToRangeSpec(ps: seq<Perturbation>, r: Range): (out: seq<Range>)
    ensures SumLen(out) == Len(r)
  {
    var (us, moved) := Passes(ps, r, |ps|);
    SumLenAppend(us, moved);
    us + moved
  }

  /** `RangeMapping.__call__`: the first perturbation whose range holds the
      value moves it; a value in none of them maps to itself. */
  function Call(ps: seq<Perturbation>, v: int): int
  {
    if ps == [] then v
    else if Contains(Domain(ps[0]), v) then Perturb(ps[0], v)
    else Call(ps[1..], v)
  }

  lemma {:induction false} CallUntouched(ps: seq<Perturbation>, v: int)
    requires Untouched(ps, |ps|, v)
    ensures Call(ps, v) == v
  {
    if ps != [] {
      assert !Contains(Domain(ps[0]), v);
      assert forall j :: 0 <= j < |ps| - 1 ==> ps[1..][j] == ps[j + 1];
      CallUntouched(ps[1..], v);
    }
  }

  lemma {:induction false} CallHit(ps: seq<Perturbation>, j: nat, v: int)
    requires j < |ps| && HitAt(ps, j, v)
    ensures Call(ps, v) == v + Shift(ps[j])
  {
    if j > 0 {
      assert !Contains(Domain(ps[0]), v);
      assert forall k :: 0 <= k < |ps| - 1 ==> ps[1..][k] == ps[k + 1];
      CallHit(ps[1..], j - 1, v);
    }
  }

  /** A value is either in none of the first i domains or has a first one. */
  lemma {:induction false} FirstHit(ps: seq<Perturbation>, i: nat, v: int)
    requires i <= |ps|
    ensures Untouched(ps, i, v) || exists j :: 0 <= j < i && HitAt(ps, j, v)
  {
    if i > 0 {
      FirstHit(ps, i - 1, v);
      if Untouched(ps, i - 1, v) && Contains(Domain(ps[i - 1]), v) {
        assert HitAt(ps, i - 1, v);
      }
    }
  }

  /** The ranges `apply_to_range` returns cover exactly the images of the
      values of r under the mapping, each value moved by one perturbation at
      most. */
  lemma ApplyToRangeImage(ps: seq<Perturbation>, r: Range, w: int)
    ensures Covers(ApplyToRangeSpec(ps, r), w) <==> exists v :: Contains(r, v) && Call(ps, v) == w
  {
    if Covers(ApplyToRangeSpec(ps, r), w) {
      ImageSound(ps, r, w);
    }
    if exists v :: Contains(r, v) && Call(ps, v) == w {
      var v :| Contains(r, v) && Call(ps, v) == w;
      ImageComplete(ps, r, v);
    }
  }

  lemma ImageSound(ps: seq<Perturbation>, r: Range, w: int)
    requires Covers(ApplyToRangeSpec(ps, r), w)
    ensures exists v :: Contains(r, v) && Call(ps, v) == w
  {
    var (us, moved) := Passes(ps, r, |ps|);
    CoversAppend(us, moved, w);
    var v := w;
    if Covers(us, w) {
      CallUntouched(ps, w);
    } else {
      assert MovedBy(ps, r, |ps|, w);
      var j :| 0 <= j < |ps| && Contains(r, w - Shift(ps[j])) && HitAt(ps, j, w - Shift(ps[j]));
      v := w - Shift(ps[j]);
      CallHit(ps, j, v);
    }
    assert Contains(r, v) && Call(ps, v) == w;
  }

  lemma ImageComplete(ps: seq<Perturbation>, r: Range, v: int)
    requires Contains(r, v)
    ensures Covers(ApplyToRangeSpec(ps, r), Call(ps, v))
  {
    var w := Call(ps, v);
    var (us, moved) := Passes(ps, r, |ps|);
    CoversAppend(us, moved, w);
    FirstHit(ps, |ps|, v);
    if Untouched(ps, |ps|, v) {
      CallUntouched(ps, v);
    } else {
      var j :| 0 <= j < |ps| && HitAt(ps, j, v);
      CallHit(ps, j, v);
      assert w - Shift(ps[j]) == v;
      assert MovedBy(ps, r, |ps|, w);
    }
  }

  /** `list.remove(x)`: drops the first element equal to x. */
  function RemoveFirst(s: seq<Range>, x: Range): (r: seq<Range>)
    requires x in s
    ensures |r| == |s| - 1
  {
    if s[0] == x then s[1..] else [s[0]] + RemoveFirst(s[1..], x)
  }

  lemma {:induction false} RemoveFirstAfter(a: seq<Range>, x: Range, b: seq<Range>)
    requires x !in a
    ensures x in a + [x] + b && RemoveFirst(a + [x] + b, x) == a + b
  {
    if a != [] {
      assert (a + [x] + b)[1..] == a[1..] + [x] + b;
      RemoveFirstAfter(a[1..], x, b);
    } else {
      assert a + [x] + b == [x] + b;
    }
  }

  lemma PassSnoc(p: Perturbation, rs: seq<Range>, x: Range)
    ensures Pass(p, rs + [x]) ==
              if Applies(p, x) then
                (Pass(p, rs).0, Pass(p, rs).1 + RangeImpacts(p, x).0, Pass(p, rs).2 + RangeImpacts(p, x).1)
              else (Pass(p, rs).0 + [x], Pass(p, rs).1, Pass(p, rs).2)
  {
    assert (rs + [x])[..|rs|] == rs;
  }

  /** The inner loop of `apply_to_range` for one perturbation. */
  method ApplyPerturbation(p: Perturbation, unaffected0: seq<Range>, perturbed0: seq<Range>)
    returns (unaffected: seq<Range>, perturbed: seq<Range>)
    ensures unaffected == Pass(p, unaffected0).0 + Pass(p, unaffected0).1
    ensures perturbed == perturbed0 + Pass(p, unaffected0).2
  {
    unaffected, perturbed := unaffected0, perturbed0;
    var snapshot := unaffected0;
    for j := 0 to |snapshot|
      invariant unaffected == Pass(p, snapshot[..j]).0 + snapshot[j..] + Pass(p, snapshot[..j]).1
      invariant perturbed == perturbed0 + Pass(p, snapshot[..j]).2
    {
      unaffected, perturbed := PerturbOne(p, snapshot, j, unaffected, perturbed0, perturbed);
    }
    assert snapshot[..|snapshot|] == snapshot;
  }

  /** One turn of that loop: the range `snapshot[j]`, still in `unaffected`
      just before the ranges already split off, is removed and its pieces
      appended when the perturbation touches it. */
  method PerturbOne(p: Perturbation, snapshot: seq<Range>, j: nat, unaffected0: seq<Range>,
                    ghost perturbed0: seq<Range>, perturbed1: seq<Range>)
    returns (unaffected: seq<Range>, perturbed: seq<Range>)
    requires j < |snapshot|
    requires unaffected0 == Pass(p, snapshot[..j]).0 + snapshot[j..] + Pass(p, snapshot[..j]).1
    requires perturbed1 == perturbed0 + Pass(p, snapshot[..j]).2
    ensures unaffected == Pass(p, snapshot[..j + 1]).0 + snapshot[j + 1..] + Pass(p, snapshot[..j + 1]).1
    ensures perturbed == perturbed0 + Pass(p, snapshot[..j + 1]).2
  {
    unaffected, perturbed := unaffected0, perturbed1;
    var x := snapshot[j];
    var prev := Pass(p, snapshot[..j]);
    assert snapshot[..j + 1] == snapshot[..j] + [x];
    PassSnoc(p, snapshot[..j], x);
    assert snapshot[j..] == [x] + snapshot[j + 1..];
    if Applies(p, x) {
      var (us, moved) := RangeImpacts(p, x);
      perturbed := perturbed + moved;
      var rest := snapshot[j + 1..] + prev.1;
      assert unaffected == prev.0 + [x] + rest;
      RemoveFirstAfter(prev.0, x, rest);
      unaffected := RemoveFirst(unaffected, x);
      unaffected := unaffected + us;
    } else {
      assert unaffected == (prev.0 + [x]) + snapshot[j + 1..] + prev.1;
    }
  }

  /** `RangeMapping.apply_to_range`: for each perturbation, every range of a
      snapshot of `unaffected` that it touches is removed from `unaffected`,
      its untouched pieces appended there and its moved piece appended to
      `perturbed`. */
  method ApplyToRange(ps: seq<Perturbation>, r: Range) returns (out: seq<Range>)
    ensures out == ApplyToRangeSpec(ps, r)
    ensures SumLen(out) == Len(r)
  {
    var unaffected := [r];
    var perturbed := [];
    for i := 0 to |ps|
      invariant (unaffected, perturbed) == Passes(ps, r, i)
    {
      unaffected, perturbed := ApplyPerturbation(ps[i], unaffected, perturbed);
    }
    out := unaffected + perturbed;
  }

  predicate AllNonEmpty(rs: seq<Range>)
  {
    forall k :: 0 <= k < |rs| ==> NonEmpty(rs[k])
  }

  lemma {:induction false} AllNonEmptyAppend(a: seq<Range>, b: seq<Range>)
    ensures AllNonEmpty(a + b) <==> AllNonEmpty(a) && AllNonEmpty(b)
  {
    if AllNonEmpty(a + b) {
      forall k | 0 <= k < |a| ensures NonEmpty(a[k]) { assert a[k] == (a + b)[k]; }
      forall k | 0 <= k < |b| ensures NonEmpty(b[k]) { assert b[k] == (a + b)[|a| + k]; }
    }
    if AllNonEmpty(a) && AllNonEmpty(b) {
      forall k | 0 <= k < |a + b| ensures NonEmpty((a + b)[k]) {
        if k >= |a| { assert (a + b)[k] == b[k - |a|]; }
      }
    }
  }

  /** Splitting a non-empty range yields only non-empty pieces. */
  lemma ImpactsNonEmpty(p: Perturbation, r: Range)
    requires NonEmpty(r)
    ensures AllNonEmpty(RangeImpacts(p, r).0) && AllNonEmpty(RangeImpacts(p, r).1)
  {
    var o := Overlap(Domain(p), r);
    if NonEmpty(o) {
      var below := Range(r.start, Max(r.start, o.start));
      var above := Range(o.stop, Max(o.stop, r.stop));
      NonEmptyOnlyNonEmpty([below, above]);
    }
  }

  lemma {:induction false} NonEmptyOnlyNonEmpty(rs: seq<Range>)
    ensures AllNonEmpty(NonEmptyOnly(rs))
  {
    if rs != [] {
      NonEmptyOnlyNonEmpty(rs[..|rs| - 1]);
      AllNonEmptyAppend(NonEmptyOnly(rs[..|rs| - 1]), [rs[|rs| - 1]]);
    }
  }

  lemma {:induction false} PassNonEmpty(p: Perturbation, rs: seq<Range>)
    requires AllNonEmpty(rs)
    ensures AllNonEmpty(Pass(p, rs).0 + Pass(p, rs).1) && AllNonEmpty(Pass(p, rs).2)
  {
    if rs != [] {
      var init, last := rs[..|rs| - 1], rs[|rs| - 1];
      assert AllNonEmpty(init);
      PassNonEmpty(p, init);
      var (kept, us, moved) := Pass(p, init);
      AllNonEmptyAppend(kept, us);
      if Applies(p, last) {
        ImpactsNonEmpty(p, last);
        var impact := RangeImpacts(p, last);
        AllNonEmptyAppend(us, impact.0);
        AllNonEmptyAppend(kept, us + impact.0);
        AllNonEmptyAppend(moved, impact.1);
      } else {
        AllNonEmptyAppend(kept, [last]);
        AllNonEmptyAppend(kept + [last], us);
      }
    }
  }

  lemma {:induction false} PassesNonEmpty(ps: seq<Perturbation>, r: Range, i: nat)
    requires i <= |ps| && NonEmpty(r)
    ensures AllNonEmpty(Passes(ps, r, i).0) && AllNonEmpty(Passes(ps, r, i).1)
  {
    if i > 0 {
      PassesNonEmpty(ps, r, i - 1);
      var (us, moved) := Passes(ps, r, i - 1);
      PassNonEmpty(ps[i - 1], us);
      AllNonEmptyAppend(moved, Pass(ps[i - 1], us).2);
    }
  }

  lemma ApplyToRangeNonEmpty(ps: seq<Perturbation>, r: Range)
    requires NonEmpty(r)
    ensures AllNonEmpty(ApplyToRangeSpec(ps, r))
  {
    PassesNonEmpty(ps, r, |ps|);
    AllNonEmptyAppend(Passes(ps, r, |ps|).0, Passes(ps, r, |ps|).1);
  }

  /** `apply_to_ranges`: the pieces of every range, concatenated in order. */
  function ApplyToRangesSpec(ps: seq<Perturbation>, rs: seq<Range>): seq<Range>
  {
    if rs == [] then [] else ApplyToRangesSpec(ps, rs[..|rs| - 1]) + ApplyToRangeSpec(ps, rs[|rs| - 1])
  }

  /** A mapping sends the values covered by rs onto exactly the values its
      pieces cover, keeping total length and non-emptiness. */
  lemma {:induction false} ApplyToRangesImage(ps: seq<Perturbation>, rs: seq<Range>, w: int)
    ensures Covers(ApplyToRangesSpec(ps, rs), w) <==> exists v :: Covers(rs, v) && Call(ps, v) == w
  {
    if rs != [] {
      var init, last := rs[..|rs| - 1], rs[|rs| - 1];
      ApplyToRangesImage(ps, init, w);
      ApplyToRangeImage(ps, last, w);
      CoversAppend(ApplyToRangesSpec(ps, init), ApplyToRangeSpec(ps, last), w);
      assert rs == init + [last];
      if exists v :: Covers(rs, v) && Call(ps, v) == w {
        var v :| Covers(rs, v) && Call(ps, v) == w;
        CoversAppend(init, [last], v);
        SingletonFacts(last);
      }
      if exists v :: Covers(init, v) && Call(ps, v) == w {
        var v :| Covers(init, v) && Call(ps, v) == w;
        CoversAppend(init, [last], v);
      }
      if exists v :: Contains(last, v) && Call(ps, v) == w {
        var v :| Contains(last, v) && Call(ps, v) == w;
        CoversAppend(init, [last], v);
        SingletonFacts(last);
      }
    }
  }

  lemma {:induction false} ApplyToRangesKeeps(ps: seq<Perturbation>, rs: seq<Range>)
    ensures SumLen(ApplyToRangesSpec(ps, rs)) == SumLen(rs)
    ensures AllNonEmpty(rs) ==> AllNonEmpty(ApplyToRangesSpec(ps, rs))
  {
    if rs != [] {
      var init, last := rs[..|rs| - 1], rs[|rs| - 1];
      ApplyToRangesKeeps(ps, init);
      SumLenAppend(ApplyToRangesSpec(ps, init), ApplyToRangeSpec(ps, last));
      if AllNonEmpty(rs) {
        assert AllNonEmpty(init);
        ApplyToRangeNonEmpty(ps, last);
        AllNonEmptyAppend(ApplyToRangesSpec(ps, init), ApplyToRangeSpec(ps, last));
      }
    }
  }

  /** `apply_to_ranges` as its loop over the ranges. */
  method ApplyToRanges(ps: seq<Perturbation>, rs: seq<Range>) returns (out: seq<Range>)
    ensures out == ApplyToRangesSpec(ps, rs)
  {
    out := [];
    for k := 0 to |rs|
      invariant out == ApplyToRangesSpec(ps, rs[..k])
    {
      var pieces := ApplyToRange(ps, rs[k]);
      assert rs[..k + 1][..k] == rs[..k];
      out := out + pieces;
    }
    assert rs[..|rs|] == rs;
  }

  /** `PuzzleA.find_location`: the seed pushed through every mapping in turn. */
  function Location(ms: seq<seq<Perturbation>>, v: int): int
  {
    if ms == [] then v else Location(ms[1..], Call(ms[0], v))
  }

  /** The `reduce` applies the mappings in order: the last mapping is applied
      to the location the others reach. */
  lemma {:induction false} LocationLast(ms: seq<seq<Perturbation>>, v: int)
    requires ms != []
    ensures Location(ms, v) == Call(ms[|ms| - 1], Location(ms[..|ms| - 1], v))
  {
    if |ms| > 1 {
      LocationLast(ms[1..], Call(ms[0], v));
      assert ms[..|ms| - 1][1..] == ms[1..][..|ms| - 2];
    }
  }

  /** `PuzzleB.seed_location_ranges`, on the specification side. */
  function LocationRanges(ms: seq<seq<Perturbation>>, rs: seq<Range>): (out: seq<Range>)
    ensures ms != [] ==> out == ApplyToRangesSpec(ms[|ms| - 1], LocationRanges(ms[..|ms| - 1], rs))
  {
    if ms == [] then rs
    else
      assert |ms| > 1 ==> ms[..|ms| - 1][1..] == ms[1..][..|ms| - 2];
      LocationRanges(ms[1..], ApplyToRangesSpec(ms[0], rs))
  }

  /** The location ranges cover exactly the locations of the seeds. */
  lemma {:induction false} LocationRangesImage(ms: seq<seq<Perturbation>>, rs: seq<Range>, w: int)
    ensures Covers(LocationRanges(ms, rs), w) <==> exists v :: Covers(rs, v) && Location(ms, v) == w
  {
    if ms == [] {
      if Covers(rs, w) { assert Location(ms, w) == w; }
    } else {
      var next := ApplyToRangesSpec(ms[0], rs);
      LocationRangesImage(ms[1..], next, w);
      if exists u :: Covers(next, u) && Location(ms[1..], u) == w {
        var u :| Covers(next, u) && Location(ms[1..], u) == w;
        ApplyToRangesImage(ms[0], rs, u);
        var v :| Covers(rs, v) && Call(ms[0], v) == u;
        assert Location(ms, v) == w;
      }
      if exists v :: Covers(rs, v) && Location(ms, v) == w {
        var v :| Covers(rs, v) && Location(ms, v) == w;
        ApplyToRangesImage(ms[0], rs, Call(ms[0], v));
        assert Covers(next, Call(ms[0], v));
      }
    }
  }

  lemma {:induction false} LocationRangesKeep(ms: seq<seq<Perturbation>>, rs: seq<Range>)
    ensures SumLen(LocationRanges(ms, rs)) == SumLen(rs)
    ensures AllNonEmpty(rs) ==> AllNonEmpty(LocationRanges(ms, rs))
  {
    if ms != [] {
      ApplyToRangesKeeps(ms[0], rs);
      LocationRangesKeep(ms[1..], ApplyToRangesSpec(ms[0], rs));
    }
  }

  /** No location range is left only when no seed was covered. */
  lemma NoLocationRanges(ms: seq<seq<Perturbation>>, rs: seq<Range>)
    requires LocationRanges(ms, rs) == []
    ensures !exists v :: Covers(rs, v)
  {
    forall v | Covers(rs, v)
      ensures false
    {
      LocationRangesImage(ms, rs, Location(ms, v));
    }
  }

  /** The mappings applied in turn, as the `reduce` in `seed_location_ranges`. */
  method SeedLocationRanges(ms: seq<seq<Perturbation>>, seeds: seq<Range>) returns (rs: seq<Range>)
    ensures rs == LocationRanges(ms, seeds)
  {
    rs := seeds;
    for i := 0 to |ms|
      invariant LocationRanges(ms[i..], rs) == LocationRanges(ms, seeds)
    {
      assert ms[i..][1..] == ms[i + 1..];
      rs := ApplyToRanges(ms[i], rs);
    }
  }

  function Starts(rs: seq<Range>): (ss: seq<int>)
    ensures |ss| == |rs| && forall k :: 0 <= k < |rs| ==> ss[k] == rs[k].start
  {
    seq(|rs|, k requires 0 <= k < |rs| => rs[k].start)
  }

  /** The least start of a list of non-empty ranges is the least value they cover. */
  lemma MinStartIsLeast(rs: seq<Range>)
    requires rs != [] && AllNonEmpty(rs)
    ensures Covers(rs, MinOf(Starts(rs)))
    ensures forall w :: Covers(rs, w) ==> MinOf(Starts(rs)) <= w
  {
    var m := MinOf(Starts(rs));
    var k :| 0 <= k < |rs| && Starts(rs)[k] == m;
    assert Contains(rs[k], m);
  }

  function Locations(ms: seq<seq<Perturbation>>, seeds: seq<int>): (ls: seq<int>)
    ensures |ls| == |seeds| && forall k :: 0 <= k < |seeds| ==> ls[k] == Location(ms, seeds[k])
  {
    seq(|seeds|, k requires 0 <= k < |seeds| => Location(ms, seeds[k]))
  }

  /** `parse_mapping`: `dest source length` lines taken from the iterator up
      to a blank line (consumed) or its end; returns the perturbations and the
      lines left. None when a line is not three integers. */
  function ParseMapping(lines: seq<string>): (r: Option<(seq<Perturbation>, seq<string>)>)
    ensures r.Some? ==> |r.value.1| <= |lines|
  {
    if lines == [] then Some(([], []))
    else if Strip(lines[0]) == [] then Some(([], lines[1..]))
    else match ParseInts(Words(lines[0]))
      case None => None
      case Some(xs) =>
        if |xs| != 3 then None
        else
          var r := ParseMapping(lines[1..]);
          if r.None? then None
          else Some(([Perturbation(xs[1], xs[0], xs[2])] + r.value.0, r.value.1))
  }

  /** A perturbation as a mapping block writes it: `dest source length`. */
  function MappingLine(p: Perturbation): string
  {
    IntText(p.to) + " " + IntText(p.fr) + " " + IntText(p.n)
  }

  /** A mapping line that is not blank and whose words are the three numbers
      of p. */
  predicate ReadsAs(line: string, p: Perturbation)
  {
    Strip(line) != [] && ParseInts(Words(line)) == Some([p.to, p.fr, p.n])
  }

  lemma MappingLineSpaced(p: Perturbation)
    ensures " " + MappingLine(p) == Spaced([p.to, p.fr, p.n])
  {
    assert Spaced([p.n]) == " " + IntText(p.n) by {
      assert [p.n][1..] == [];
    }
    assert Spaced([p.fr, p.n]) == " " + IntText(p.fr) + Spaced([p.n]) by {
      assert [p.fr, p.n][1..] == [p.n];
    }
    assert Spaced([p.to, p.fr, p.n]) == " " + IntText(p.to) + Spaced([p.fr, p.n]) by {
      assert [p.to, p.fr, p.n][1..] == [p.fr, p.n];
    }
  }

  /** A written mapping line is not blank and splits into its three numbers. */
  lemma MappingLineRead(p: Perturbation)
    ensures ReadsAs(MappingLine(p), p)
  {
    var xs := [p.to, p.fr, p.n];
    MappingLineSpaced(p);
    WordsSpaced(xs, "");
    assert Spaced(xs) + "" == Spaced(xs);
    assert IntTexts(xs) + [] == IntTexts(xs);
    WordsSpace(MappingLine(p));
    ParseIntsWritten(xs);
    IntTextChars(p.to, ' ');
    StripNonEmpty(MappingLine(p), 0);
  }

  /** A block of lines that read as perturbations, ended by a blank line or by
      the end of the input, is read back as exactly those perturbations, in
      order; what is left starts after the blank line. */
  lemma {:induction false} ParseMappingRead(lines: seq<string>, ps: seq<Perturbation>)
    requires |ps| <= |lines|
    requires forall k :: 0 <= k < |ps| ==> ReadsAs(lines[k], ps[k])
    requires |ps| == |lines| || Strip(lines[|ps|]) == []
    ensures ParseMapping(lines) == Some((ps, if |ps| == |lines| then [] else lines[|ps| + 1..]))
  {
    if ps != [] {
      assert ReadsAs(lines[0], ps[0]);
      ReadsShift(lines, ps);
      ParseMappingRead(lines[1..], ps[1..]);
      if |ps| < |lines| {
        assert lines[1..][|ps| - 1 + 1..] == lines[|ps| + 1..];
      }
      assert [ps[0]] + ps[1..] == ps;
    }
  }

  lemma ReadsShift(lines: seq<string>, ps: seq<Perturbation>)
    requires ps != [] && |ps| <= |lines|
    requires forall k :: 0 <= k < |ps| ==> ReadsAs(lines[k], ps[k])
    ensures forall k :: 0 <= k < |ps| - 1 ==> ReadsAs(lines[1..][k], ps[1..][k])
  {
    forall k | 0 <= k < |ps| - 1
      ensures ReadsAs(lines[1..][k], ps[1..][k])
    {
      assert ReadsAs(lines[k + 1], ps[k + 1]);
    }
  }

  /** The mapping lines of one block. */
  function BlockLines(ps: seq<Perturbation>): (ls: seq<string>)
    ensures |ls| == |ps| && forall k :: 0 <= k < |ps| ==> ls[k] == MappingLine(ps[k])
  {
    seq(|ps|, k requires 0 <= k < |ps| => MappingLine(ps[k]))
  }

  /** A block written as `dest source length` lines, followed by nothing or by
      a blank line, is read back as exactly its perturbations, in order, and
      the blank line is consumed. */
  lemma ParseMappingWritten(ps: seq<Perturbation>, after: seq<string>)
    requires after == [] || Strip(after[0]) == []
    ensures ParseMapping(BlockLines(ps) + after) == Some((ps, if after == [] then [] else after[1..]))
  {
    var b := BlockLines(ps);
    forall k | 0 <= k < |ps|
      ensures ReadsAs((b + after)[k], ps[k])
    {
      MappingLineRead(ps[k]);
    }
    if after != [] {
      assert (b + after)[|ps|] == after[0];
      assert (b + after)[|ps| + 1..] == after[1..];
    }
    ParseMappingRead(b + after, ps);
  }

  /** `parse_mappings`: a title line, then a block, until the lines run out. */
  function ParseMappings(lines: seq<string>): (r: Option<seq<seq<Perturbation>>>)
    ensures lines == [] ==> r == Some([])
    ensures r.Some? && lines != [] ==> 1 <= |r.value| <= |lines|
    decreases |lines|
  {
    if lines == [] then Some([])
    else
      var r := ParseMapping(lines[1..]);
      if r.None? then None
      else
        var ms := ParseMappings(r.value.1);
        if ms.None? then None else Some([r.value.0] + ms.value)
  }

  /** The part of a line before its first newline (what `.*` matches). */
  function LineBody(s: string): string
  {
    s[..IndexOf(s, '\n', 0)]
  }

  /** `parse_seeds`: the integers after "seeds: ", none if the line does not start so. */
  function ParseSeeds(line: string): (r: Option<seq<int>>)
    ensures !HasAt(line, 0, "seeds: ") ==> r == Some([])
  {
    if HasAt(line, 0, "seeds: ") then ParseInts(Words(LineBody(line[7..]))) else Some([])
  }

  /** `batched(..., 2)` made into ranges; an odd count leaves a one-element
      batch whose `p[1]` raises IndexError (None). */
  function Pairs(xs: seq<int>): (r: Option<seq<Range>>)
    ensures r.Some? ==> 2 * |r.value| == |xs|
    ensures r.Some? ==> forall k :: 0 <= k < |r.value| ==> r.value[k] == Range(xs[2 * k], xs[2 * k] + xs[2 * k + 1])
  {
    if xs == [] then Some([])
    else if |xs| == 1 then None
    else match Pairs(xs[2..])
      case None => None
      case Some(rest) => Some([Range(xs[0], xs[0] + xs[1])] + rest)
  }

  /** `parse_puzzle_a`/`parse_puzzle_b` share this shape: the seeds line, a
      skipped line, then the mappings. A missing line is a StopIteration (None). */
  function ParseBody(lines: seq<string>): (r: Option<seq<seq<Perturbation>>>)
    ensures r.Some? ==> |lines| >= 2
  {
    if |lines| < 2 then None else ParseMappings(lines[2..])
  }

  /** The seeds line as the almanac writes it: `seeds: 79 14 55 13`. */
  function SeedsLine(xs: seq<int>): string
  {
    "seeds:" + Spaced(xs)
  }

  /** A written seeds line is read back as its numbers (none gives none). */
  lemma ParseSeedsWritten(xs: seq<int>)
    ensures ParseSeeds(SeedsLine(xs)) == Some(xs)
  {
    if xs != [] {
      SeedsHead(xs);
      SeedsBody(xs, SeedsLine(xs)[7..]);
      ParseIntsWritten(xs);
    }
  }

  lemma SeedsHead(xs: seq<int>)
    requires xs != []
    ensures HasAt(SeedsLine(xs), 0, "seeds: ") && Spaced(xs) == " " + SeedsLine(xs)[7..]
  {
    SpacedStart(xs);
    SeedsPrefix(SeedsLine(xs), Spaced(xs));
  }

  lemma SeedsPrefix(line: string, sp: string)
    requires line == "seeds:" + sp && |sp| >= 1 && sp[0] == ' '
    ensures HasAt(line, 0, "seeds: ") && sp == " " + line[7..]
  {
    assert line[..7] == "seeds: ";
    assert line[7..] == sp[1..];
  }

  lemma SeedsBody(xs: seq<int>, t: string)
    requires Spaced(xs) == " " + t
    ensures LineBody(t) == t && Words(t) == IntTexts(xs)
  {
    assert LineBody(t) == t by {
      SpacedChars(xs, '\n');
      IndexOfAt(t, '\n', 0, |t|);
    }
    WordsSpace(t);
    WordsSpaced(xs, "");
    assert Spaced(xs) + "" == Spaced(xs);
    assert IntTexts(xs) + [] == IntTexts(xs);
  }

  /** The mapping blocks as the almanac writes them: each block's title line,
      then its lines, with a blank line between blocks. */
  function Blocks(titles: seq<string>, ms: seq<seq<Perturbation>>): seq<string>
    requires |titles| == |ms|
    decreases |ms|, 0
  {
    if ms == [] then [] else [titles[0]] + (BlockLines(ms[0]) + BlocksAfter(titles[1..], ms[1..]))
  }

  /** What follows a block: nothing after the last one, else a blank line and
      the remaining blocks. */
  function BlocksAfter(titles: seq<string>, ms: seq<seq<Perturbation>>): seq<string>
    requires |titles| == |ms|
    decreases |ms|, 1
  {
    if ms == [] then [] else [""] + Blocks(titles, ms)
  }

  /** A title line, then a block that reads as m, then what reads as rest. */
  lemma ParseMappingsStep(lines: seq<string>, t: string, body: seq<string>, m: seq<Perturbation>,
                          after: seq<string>, rest: seq<seq<Perturbation>>)
    requires lines == [t] + body && ParseMapping(body) == Some((m, after))
    requires ParseMappings(after) == Some(rest)
    ensures ParseMappings(lines) == Some([m] + rest)
  {
    assert lines[1..] == body;
  }

  /** Written blocks are read back as exactly their mappings, in order. */
  lemma {:induction false} ParseMappingsWritten(titles: seq<string>, ms: seq<seq<Perturbation>>)
    requires |titles| == |ms|
    ensures ParseMappings(Blocks(titles, ms)) == Some(ms)
    decreases |ms|
  {
    if ms != [] {
      var after := BlocksAfter(titles[1..], ms[1..]);
      ParseMappingWritten(ms[0], after);
      if ms[1..] != [] {
        ParseMappingsWritten(titles[1..], ms[1..]);
        assert after[1..] == Blocks(titles[1..], ms[1..]);
      }
      ParseMappingsStep(Blocks(titles, ms), titles[0], BlockLines(ms[0]) + after, ms[0],
                        if after == [] then [] else after[1..], ms[1..]);
      assert [ms[0]] + ms[1..] == ms;
    }
  }

  /** A written almanac: the seeds line, a blank line, then the blocks. Its
      seeds and its mappings are read back exactly. */
  lemma ParseAlmanacWritten(xs: seq<int>, titles: seq<string>, ms: seq<seq<Perturbation>>)
    requires |titles| == |ms|
    ensures var lines := [SeedsLine(xs), ""] + Blocks(titles, ms);
            ParseSeeds(lines[0]) == Some(xs) && ParseBody(lines) == Some(ms)
  {
    ParseSeedsWritten(xs);
    ParseMappingsWritten(titles, ms);
    AlmanacParts(SeedsLine(xs), Blocks(titles, ms));
  }

  lemma AlmanacParts(seeds: string, blocks: seq<string>)
    ensures ([seeds, ""] + blocks)[0] == seeds && ([seeds, ""] + blocks)[2..] == blocks
  {
  }

  /** `day5a`: the least location of any seed. None for a malformed input or
      no seeds (`min` of nothing). */
  function Day5A(lines: seq<string>): (r: Option<int>)
    ensures r.Some? ==> |lines| >= 2 && ParseSeeds(lines[0]).Some? && ParseBody(lines).Some? &&
                        var seeds, ms := ParseSeeds(lines[0]).value, ParseBody(lines).value;
                        (exists k :: 0 <= k < |seeds| && Location(ms, seeds[k]) == r.value) &&
                        forall k :: 0 <= k < |seeds| ==> r.value <= Location(ms, seeds[k])
  {
    if |lines| < 2 then None
    else match (ParseSeeds(lines[0]), ParseBody(lines))
      case (Some(seeds), Some(ms)) =>
        if seeds == [] then None else Some(MinOf(Locations(ms, seeds)))
      case _ => None
  }

  /** `day5b`: the least start among the location ranges. */
  method Day5B(lines: seq<string>) returns (r: Option<int>)
    ensures r.Some? ==>
              |lines| >= 2 && ParseSeeds(lines[0]).Some? && Pairs(ParseSeeds(lines[0]).value).Some? &&
              ParseBody(lines).Some? &&
              var seeds, ms := Pairs(ParseSeeds(lines[0]).value).value, ParseBody(lines).value;
              AllNonEmpty(seeds) ==>
                (exists v :: Covers(seeds, v) && Location(ms, v) == r.value) &&
                forall v :: Covers(seeds, v) ==> r.value <= Location(ms, v)
    ensures r.None? ==>
              !(|lines| >= 2 && ParseSeeds(lines[0]).Some? && Pairs(ParseSeeds(lines[0]).value).Some? &&
                ParseBody(lines).Some? && exists v :: Covers(Pairs(ParseSeeds(lines[0]).value).value, v))
  {
    if |lines| < 2 {
      return None;
    }
    var xs := ParseSeeds(lines[0]);
    if xs.None? {
      return None;
    }
    var seeds := Pairs(xs.value);
    var ms := ParseBody(lines);
    if seeds.None? || ms.None? {
      return None;
    }
    var located := SeedLocationRanges(ms.value, seeds.value);
    if located == [] {
      NoLocationRanges(ms.value, seeds.value);
      return None;
    }
    r := Some(MinOf(Starts(located)));
    if AllNonEmpty(seeds.value) {
      LocationRangesKeep(ms.value, seeds.value);
      MinStartIsLeast(located);
      LocationRangesImage(ms.value, seeds.value, r.value);
      forall v | Covers(seeds.value, v)
        ensures r.value <= Location(ms.value, v)
      {
        LocationRangesImage(ms.value, seeds.value, Location(ms.value, v));
      }
    }
  }

  /** The doctest of `range_impacts`: of range(2, 4) only 3 lies outside
      range(0, 3), and 2 moves to 72. */
  lemma RangeImpactsExample()
    ensures RangeImpacts(Perturbation(0, 70, 3), Range(2, 4)) == ([Range(3, 4)], [Range(72, 73)])
  {
    assert NonEmptyOnly([Range(2, 2), Range(3, 4)]) == [Range(3, 4)] by {
      assert [Range(2, 2), Range(3, 4)][..1] == [Range(2, 2)];
      assert [Range(2, 2)][..0] == [];
    }
  }

  /** The sample almanac's seven mappings. */
  function SampleMappings(): seq<seq<Perturbation>>
  {
    [[Perturbation(98, 50, 2), Perturbation(50, 52, 48)],
     [Perturbation(15, 0, 37), Perturbation(52, 37, 2), Perturbation(0, 39, 15)],
     [Perturbation(53, 49, 8), Perturbation(11, 0, 42), Perturbation(0, 42, 7), Perturbation(7, 57, 4)],
     [Perturbation(18, 88, 7), Perturbation(25, 18, 70)],
     [Perturbation(77, 45, 23), Perturbation(45, 81, 19), Perturbation(64, 68, 13)],
     [Perturbation(69, 0, 1), Perturbation(0, 1, 69)],
     [Perturbation(56, 60, 37), Perturbation(93, 56, 4)]]
  }

  lemma SampleSeed79()
    ensures Location(SampleMappings(), 79) == 82
  {
    var ms := SampleMappings();
    assert Call(ms[6], 78) == 82;
    assert Location(ms[6..], 78) == 82 by { assert ms[6..][1..] == []; }
    assert Call(ms[5], 78) == 78;
    assert Location(ms[5..], 78) == 82 by { assert ms[5..][1..] == ms[6..]; }
    assert Call(ms[4], 74) == 78;
    assert Location(ms[4..], 74) == 82 by { assert ms[4..][1..] == ms[5..]; }
    assert Call(ms[3], 81) == 74;
    assert Location(ms[3..], 81) == 82 by { assert ms[3..][1..] == ms[4..]; }
    assert Call(ms[2], 81) == 81;
    assert Location(ms[2..], 81) == 82 by { assert ms[2..][1..] == ms[3..]; }
    assert Call(ms[1], 81) == 81;
    assert Location(ms[1..], 81) == 82 by { assert ms[1..][1..] == ms[2..]; }
    assert Call(ms[0], 79) == 81;
    assert Location(ms[0..], 79) == 82 by { assert ms[0..][1..] == ms[1..]; }
    assert ms[0..] == ms;
  }

  lemma SampleSeed14()
    ensures Location(SampleMappings(), 14) == 43
  {
    var ms := SampleMappings();
    assert Call(ms[6], 43) == 43;
    assert Location(ms[6..], 43) == 43 by { assert ms[6..][1..] == []; }
    assert Call(ms[5], 42) == 43;
    assert Location(ms[5..], 42) == 43 by { assert ms[5..][1..] == ms[6..]; }
    assert Call(ms[4], 42) == 42;
    assert Location(ms[4..], 42) == 43 by { assert ms[4..][1..] == ms[5..]; }
    assert Call(ms[3], 49) == 42;
    assert Location(ms[3..], 49) == 43 by { assert ms[3..][1..] == ms[4..]; }
    assert Call(ms[2], 53) == 49;
    assert Location(ms[2..], 53) == 43 by { assert ms[2..][1..] == ms[3..]; }
    assert Call(ms[1], 14) == 53;
    assert Location(ms[1..], 14) == 43 by { assert ms[1..][1..] == ms[2..]; }
    assert Call(ms[0], 14) == 14;
    assert Location(ms[0..], 14) == 43 by { assert ms[0..][1..] == ms[1..]; }
    assert ms[0..] == ms;
  }

  lemma SampleSeed55()
    ensures Location(SampleMappings(), 55) == 86
  {
    var ms := SampleMappings();
    assert Call(ms[6], 82) == 86;
    assert Location(ms[6..], 82) == 86 by { assert ms[6..][1..] == []; }
    assert Call(ms[5], 82) == 82;
    assert Location(ms[5..], 82) == 86 by { assert ms[5..][1..] == ms[6..]; }
    assert Call(ms[4], 46) == 82;
    assert Location(ms[4..], 46) == 86 by { assert ms[4..][1..] == ms[5..]; }
    assert Call(ms[3], 53) == 46;
    assert Location(ms[3..], 53) == 86 by { assert ms[3..][1..] == ms[4..]; }
    assert Call(ms[2], 57) == 53;
    assert Location(ms[2..], 57) == 86 by { assert ms[2..][1..] == ms[3..]; }
    assert Call(ms[1], 57) == 57;
    assert Location(ms[1..], 57) == 86 by { assert ms[1..][1..] == ms[2..]; }
    assert Call(ms[0], 55) == 57;
    assert Location(ms[0..], 55) == 86 by { assert ms[0..][1..] == ms[1..]; }
    assert ms[0..] == ms;
  }

  lemma SampleSeed13()
    ensures Location(SampleMappings(), 13) == 35
  {
    var ms := SampleMappings();
    assert Call(ms[6], 35) == 35;
    assert Location(ms[6..], 35) == 35 by { assert ms[6..][1..] == []; }
    assert Call(ms[5], 34) == 35;
    assert Location(ms[5..], 34) == 35 by { assert ms[5..][1..] == ms[6..]; }
    assert Call(ms[4], 34) == 34;
    assert Location(ms[4..], 34) == 35 by { assert ms[4..][1..] == ms[5..]; }
    assert Call(ms[3], 41) == 34;
    assert Location(ms[3..], 41) == 35 by { assert ms[3..][1..] == ms[4..]; }
    assert Call(ms[2], 52) == 41;
    assert Location(ms[2..], 52) == 35 by { assert ms[2..][1..] == ms[3..]; }
    assert Call(ms[1], 13) == 52;
    assert Location(ms[1..], 13) == 35 by { assert ms[1..][1..] == ms[2..]; }
    assert Call(ms[0], 13) == 13;
    assert Location(ms[0..], 13) == 35 by { assert ms[0..][1..] == ms[1..]; }
    assert ms[0..] == ms;
  }

  /** The doctest of `RangeMapping.__call__`, and the four sample seeds'
      locations 82, 43, 86 and 35: seed 13 is the closest. */
  lemma SampleLocations()
    ensures Call(SampleMappings()[0], 79) == 81
    ensures Location(SampleMappings(), 79) == 82
    ensures Location(SampleMappings(), 14) == 43
    ensures Location(SampleMappings(), 55) == 86
    ensures Location(SampleMappings(), 13) == 35
    ensures MinOf(Locations(SampleMappings(), [79, 14, 55, 13])) == 35
  {
    SampleSeed79();
    SampleSeed14();
    SampleSeed55();
    SampleSeed13();
    assert Locations(SampleMappings(), [79, 14, 55, 13]) == [82, 43, 86, 35];
  }
}
