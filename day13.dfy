/** Point of incidence (aoc23/day13.py): each block of ash and rocks has a
    mirror between two adjacent columns or rows; part b looks for the mirror
    that holds once exactly one character is changed. */
module Day13 {
  import opened Common

  /** The pairs that a mirror after the first k values sets against each
      other, `vs[k-1-i]` and `vs[k+i]`, agree among the first n values. */
  predicate Reflects(vs: seq<string>, k: nat, n: nat)
    requires n <= |vs|
  {
    forall i :: 0 <= i < k && k + i < n ==> PairAgrees(vs, k, i)
  }

  /** The i-th pair of the mirror after k values. */
  predicate PairAgrees(vs: seq<string>, k: nat, i: nat)
    requires i < k && k + i < |vs|
  {
    vs[k - 1 - i] == vs[k + i]
  }

  /** A mirror after the first k values: at least one value on each side,
      and every value within the shorter side reflected. */
  predicate IsMirror(vs: seq<string>, k: nat)
  {
    1 <= k < |vs| && Reflects(vs, k, |vs|)
  }

  /** The first mirror at k or after, by direct search. */
  function FirstMirror(vs: seq<string>, k: nat): (r: Option<nat>)
    ensures r.Some? ==> k <= r.value && IsMirror(vs, r.value) &&
                        forall j :: k <= j < r.value ==> !IsMirror(vs, j)
    ensures r.None? ==> forall j :: k <= j ==> !IsMirror(vs, j)
    decreases |vs| - k
  {
    if k >= |vs| then None
    else if 1 <= k && Reflects(vs, k, |vs|) then Some(k)
    else FirstMirror(vs, k + 1)
  }

  /** Reading one more value adds at most the pair that value closes. */
  lemma ReflectsStep(vs: seq<string>, k: nat, n: nat)
    requires n < |vs|
    ensures Reflects(vs, k, n + 1) <==>
            Reflects(vs, k, n) && (k <= n < 2 * k ==> vs[2 * k - 1 - n] == vs[n])
  {
    if k <= n < 2 * k {
      assert PairAgrees(vs, k, n - k) <==> vs[2 * k - 1 - n] == vs[n];
    }
  }

  /** Once every pair has been read, more values change nothing. */
  lemma ReflectsSettled(vs: seq<string>, k: nat, n: nat)
    requires 2 * k <= n <= |vs|
    ensures Reflects(vs, k, n) <==> Reflects(vs, k, |vs|)
  {
  }

  predicate Ascending(ks: seq<nat>)
  {
    forall i, j :: 0 <= i < j < |ks| ==> ks[i] < ks[j]
  }

  /** The candidate lists of `find_reflection`: after n values, candidate k
      is the stretch of values it has still to meet, `vs[..2k-n]`. */
  ghost predicate Tracks(vs: seq<string>, n: nat, ss: seq<seq<string>>, ks: seq<nat>)
  {
    n <= |vs| && |ss| == |ks| &&
    forall j :: 0 <= j < |ks| ==> ks[j] <= n <= 2 * ks[j] && ss[j] == vs[..2 * ks[j] - n]
  }

  /** The three filters the searches apply to a candidate `s` when value
      `v` arrives: its next value equals `v`, differs from `v` in exactly one
      character, or equals `v` with more values still to meet. */
  datatype Test = Same | OneOff | SameLonger

  predicate Passes(t: Test, s: seq<string>, v: string)
  {
    s != [] &&
    match t
    case Same => s[|s| - 1] == v
    case OneOff => DifferByOne(s[|s| - 1], v)
    case SameLonger => s[|s| - 1] == v && |s| > 1
  }

  /** The number of positions at which `zip(a, b)` pairs different characters. */
  function DiffCount(a: string, b: string): (r: nat)
    ensures r <= Min(|a|, |b|)
  {
    if a == [] || b == [] then 0
    else (if a[0] != b[0] then 1 else 0) + DiffCount(a[1..], b[1..])
  }

  /** `differ_by_one`. */
  predicate DifferByOne(a: string, b: string)
  {
    DiffCount(a, b) == 1
  }

  /** `[s[:-1] for s in ss if` the test passes `]`. */
  function Pops(ss: seq<seq<string>>, t: Test, v: string): (r: seq<seq<string>>)
    ensures |r| <= |ss|
  {
    if ss == [] then []
    else
      var rest := Pops(ss[1..], t, v);
      if Passes(t, ss[0], v) then [ss[0][..|ss[0]| - 1]] + rest else rest
  }

  /** The candidates `Pops` keeps, in order. */
  ghost function Keeps(ss: seq<seq<string>>, ks: seq<nat>, t: Test, v: string): seq<nat>
    requires |ss| == |ks|
  {
    if ss == [] then []
    else
      var rest := Keeps(ss[1..], ks[1..], t, v);
      if Passes(t, ss[0], v) then [ks[0]] + rest else rest
  }

  lemma TracksTail(vs: seq<string>, n: nat, ss: seq<seq<string>>, ks: seq<nat>)
    requires Tracks(vs, n, ss, ks) && ss != []
    ensures Tracks(vs, n, ss[1..], ks[1..])
  {
    forall j | 0 <= j < |ks[1..]|
      ensures ks[1..][j] <= n <= 2 * ks[1..][j] && ss[1..][j] == vs[..2 * ks[1..][j] - n]
    {
      assert ks[1..][j] == ks[j + 1] && ss[1..][j] == ss[j + 1];
    }
  }

  /** Filtering and shortening the candidates keeps them tracked one value
      later. */
  lemma {:induction false} PopsTracks(vs: seq<string>, n: nat, ss: seq<seq<string>>, ks: seq<nat>,
                                        t: Test, v: string)
    requires n < |vs| && Tracks(vs, n, ss, ks)
    requires forall j :: 0 <= j < |ks| ==> 2 * ks[j] > n
    ensures Tracks(vs, n + 1, Pops(ss, t, v), Keeps(ss, ks, t, v))
    decreases |ss|
  {
    if ss != [] {
      TracksTail(vs, n, ss, ks);
      PopsTracks(vs, n, ss[1..], ks[1..], t, v);
      var k := ks[0];
      assert ss[0] == vs[..2 * k - n] && ss[0] != [];
      assert ss[0][..|ss[0]| - 1] == vs[..2 * k - (n + 1)];
      var r, rk := Pops(ss[1..], t, v), Keeps(ss[1..], ks[1..], t, v);
      if Passes(t, ss[0], v) {
        TracksCons(vs, n + 1, ss[0][..|ss[0]| - 1], k, r, rk);
      }
    }
  }

  /** A candidate with what it still has to meet can go in front. */
  lemma TracksCons(vs: seq<string>, n: nat, s: seq<string>, k: nat, r: seq<seq<string>>, rk: seq<nat>)
    requires Tracks(vs, n, r, rk) && k <= n <= 2 * k && s == vs[..2 * k - n]
    ensures Tracks(vs, n, [s] + r, [k] + rk)
  {
    forall j | 0 < j < |rk| + 1
      ensures ([k] + rk)[j] == rk[j - 1] && ([s] + r)[j] == r[j - 1]
    {
    }
  }

  /** The candidates kept are exactly those whose next value passes the test. */
  lemma {:induction false} KeepsMembers(vs: seq<string>, n: nat, ss: seq<seq<string>>, ks: seq<nat>,
                                          t: Test, v: string)
    requires Tracks(vs, n, ss, ks)
    requires forall j :: 0 <= j < |ks| ==> 2 * ks[j] > n
    ensures forall k :: k in Keeps(ss, ks, t, v) <==> k in ks && Passes(t, vs[..2 * k - n], v)
    decreases |ss|
  {
    if ss != [] {
      TracksTail(vs, n, ss, ks);
      KeepsMembers(vs, n, ss[1..], ks[1..], t, v);
      assert ks == [ks[0]] + ks[1..];
      assert ss[0] == vs[..2 * ks[0] - n] && ss[0] != [];
    }
  }

  /** The candidates kept stay in their order. */
  lemma {:induction false} KeepsAscending(ss: seq<seq<string>>, ks: seq<nat>, t: Test, v: string)
    requires |ss| == |ks| && Ascending(ks)
    ensures Ascending(Keeps(ss, ks, t, v))
    ensures forall k :: k in Keeps(ss, ks, t, v) ==> k in ks
    decreases |ss|
  {
    if ss != [] {
      KeepsAscending(ss[1..], ks[1..], t, v);
      var rk := Keeps(ss[1..], ks[1..], t, v);
      TailAbove(ks);
      assert ks == [ks[0]] + ks[1..];
      if Passes(t, ss[0], v) {
        AscendingCons(ks[0], rk);
      }
    }
  }

  /** In an ascending sequence every later value is above the first. */
  lemma TailAbove(ks: seq<nat>)
    requires Ascending(ks) && ks != []
    ensures forall k :: k in ks[1..] ==> k > ks[0]
  {
    forall k | k in ks[1..]
      ensures k > ks[0]
    {
      var j :| 0 <= j < |ks[1..]| && ks[1..][j] == k;
      assert ks[j + 1] == k;
    }
  }

  /** A value below every member of an ascending sequence can go in front. */
  lemma AscendingCons(x: nat, rest: seq<nat>)
    requires Ascending(rest) && forall k :: k in rest ==> k > x
    ensures Ascending([x] + rest)
  {
    var all := [x] + rest;
    forall i, j | 0 <= i < j < |all|
      ensures all[i] < all[j]
    {
      assert all[j] == rest[j - 1] && rest[j - 1] in rest;
      if i > 0 {
        assert all[i] == rest[i - 1];
      }
    }
  }

  /** `all(ss)`: no candidate has run out of values. */
  predicate AllNonEmpty(ss: seq<seq<string>>)
  {
    forall j :: 0 <= j < |ss| ==> ss[j] != []
  }

  /** What `find_reflection` knows before reading value n: the candidates
      are exactly the mirrors after 2 .. n-1 values that reflect so far and
      still have values to meet, in increasing order; and no mirror that
      would already have met all its values exists. */
  ghost predicate Searching(vs: seq<string>, n: nat, ss: seq<seq<string>>, ks: seq<nat>)
  {
    Tracks(vs, n, ss, ks) && Ascending(ks) &&
    (forall j :: 0 <= j < |ks| ==> 2 * ks[j] > n) &&
    (forall k :: k in ks <==> 2 <= k < n && 2 * k > n && Reflects(vs, k, n)) &&
    (forall k :: 1 <= k && 2 * k <= n ==> !IsMirror(vs, k))
  }

  /** The same once value n has been checked against every candidate. */
  ghost predicate Checked(vs: seq<string>, n: nat, ss: seq<seq<string>>, ks: seq<nat>)
  {
    n < |vs| && Tracks(vs, n + 1, ss, ks) && Ascending(ks) &&
    (forall k :: k in ks <==> 2 <= k < n && 2 * k > n && Reflects(vs, k, n + 1)) &&
    (forall k :: 1 <= k && 2 * k <= n ==> !IsMirror(vs, k))
  }

  lemma CheckValue(vs: seq<string>, n: nat, ss: seq<seq<string>>, ks: seq<nat>)
    requires n < |vs| && Searching(vs, n, ss, ks)
    ensures Checked(vs, n, Pops(ss, Same, vs[n]), Keeps(ss, ks, Same, vs[n]))
  {
    var t, v := Same, vs[n];
    var ks' := Keeps(ss, ks, t, v);
    PopsTracks(vs, n, ss, ks, t, v);
    KeepsMembers(vs, n, ss, ks, t, v);
    KeepsAscending(ss, ks, t, v);
    forall k: nat
      ensures k in ks' <==> 2 <= k < n && 2 * k > n && Reflects(vs, k, n + 1)
    {
      ReflectsStep(vs, k, n);
      if k in ks {
        assert vs[..2 * k - n][2 * k - n - 1] == vs[2 * k - 1 - n];
        assert Passes(t, vs[..2 * k - n], v) <==> Reflects(vs, k, n + 1);
      }
    }
  }

  /** A candidate that has met all its values is the first mirror. */
  lemma CheckedFinished(vs: seq<string>, n: nat, ss: seq<seq<string>>, ks: seq<nat>)
    requires Checked(vs, n, ss, ks) && !AllNonEmpty(ss)
    ensures FirstMirror(vs, 1) == Some((n + 1) / 2)
  {
    var j :| 0 <= j < |ss| && ss[j] == [];
    var k := ks[j];
    assert k in ks;
    ReflectsSettled(vs, k, n + 1);
    FirstMirrorIs(vs, k);
  }

  /** Without a finished candidate the search goes on to value n + 1, with
      the mirror after n values as a new candidate when its pair agrees. */
  lemma CheckedGoesOn(vs: seq<string>, n: nat, ss: seq<seq<string>>, ks: seq<nat>)
    requires Checked(vs, n, ss, ks) && AllNonEmpty(ss)
    requires n == 1 ==> vs[0] != vs[1]
    ensures var paired := 2 <= n && vs[n - 1] == vs[n];
            Searching(vs, n + 1, if paired then ss + [vs[..n - 1]] else ss,
                      if paired then ks + [n] else ks)
  {
    var paired := 2 <= n && vs[n - 1] == vs[n];
    GoesOnTracks(vs, n, ss, ks, paired);
    GoesOnMembers(vs, n, ss, ks, paired);
    GoesOnFinished(vs, n, ss, ks);
  }

  lemma Advance(vs: seq<string>, n: nat, ss: seq<seq<string>>, ks: seq<nat>, paired: bool,
                ss': seq<seq<string>>, ks': seq<nat>)
    requires Checked(vs, n, ss, ks) && AllNonEmpty(ss)
    requires n == 1 ==> vs[0] != vs[1]
    requires paired <==> 2 <= n && vs[n - 1] == vs[n]
    requires ss' == (if paired then ss + [vs[..n - 1]] else ss)
    requires ks' == (if paired then ks + [n] else ks)
    ensures Searching(vs, n + 1, ss', ks')
  {
    CheckedGoesOn(vs, n, ss, ks);
  }

  lemma GoesOnTracks(vs: seq<string>, n: nat, ss: seq<seq<string>>, ks: seq<nat>, paired: bool)
    requires Checked(vs, n, ss, ks) && AllNonEmpty(ss)
    requires paired <==> 2 <= n && vs[n - 1] == vs[n]
    ensures var ss', ks' := if paired then ss + [vs[..n - 1]] else ss, if paired then ks + [n] else ks;
            Tracks(vs, n + 1, ss', ks') && Ascending(ks') &&
            forall j :: 0 <= j < |ks'| ==> 2 * ks'[j] > n + 1
  {
    forall j | 0 <= j < |ks| ensures 2 * ks[j] > n + 1 && ks[j] < n {
      assert ks[j] in ks;
    }
    if paired {
      var ss', ks' := ss + [vs[..n - 1]], ks + [n];
      assert forall j :: 0 <= j < |ks| ==> ks'[j] == ks[j] && ss'[j] == ss[j];
    }
  }

  lemma GoesOnMembers(vs: seq<string>, n: nat, ss: seq<seq<string>>, ks: seq<nat>, paired: bool)
    requires Checked(vs, n, ss, ks) && AllNonEmpty(ss)
    requires paired <==> 2 <= n && vs[n - 1] == vs[n]
    ensures var ks' := if paired then ks + [n] else ks;
            forall k :: k in ks' <==> 2 <= k < n + 1 && 2 * k > n + 1 && Reflects(vs, k, n + 1)
  {
    forall j | 0 <= j < |ks| ensures 2 * ks[j] > n + 1 {
      assert ks[j] in ks;
    }
    ReflectsStep(vs, n, n);
  }

  /** A mirror that would now have met all its values is not one. */
  lemma GoesOnFinished(vs: seq<string>, n: nat, ss: seq<seq<string>>, ks: seq<nat>)
    requires Checked(vs, n, ss, ks) && AllNonEmpty(ss)
    requires n == 1 ==> vs[0] != vs[1]
    ensures forall k :: 1 <= k && 2 * k <= n + 1 ==> !IsMirror(vs, k)
  {
    forall k | 1 <= k && 2 * k == n + 1 ensures !IsMirror(vs, k) {
      if n == 1 {
        assert !PairAgrees(vs, 1, 0);
      } else {
        assert forall j :: 0 <= j < |ks| ==> ks[j] != k;
        assert k !in ks;
        assert !Reflects(vs, k, n + 1);
      }
    }
  }

  /** Candidates left at the end met the last value: the first is the answer. */
  lemma SearchEnded(vs: seq<string>, ss: seq<seq<string>>, ks: seq<nat>)
    requires Searching(vs, |vs|, ss, ks)
    ensures ss != [] ==> |vs| + |ss[0]| == 2 * ks[0] && FirstMirror(vs, 1) == Some(ks[0])
    ensures ss == [] ==> FirstMirror(vs, 1) == None
  {
    if ss != [] {
      EndedIsMirror(vs, ss, ks);
      forall j | 1 <= j < ks[0] ensures !IsMirror(vs, j) {
        EndedBelowFirst(vs, ss, ks, j);
      }
      FirstMirrorIs(vs, ks[0]);
    } else {
      forall j | 1 <= j ensures !IsMirror(vs, j) {
        assert j !in ks;
      }
      FirstMirrorNone(vs);
    }
  }

  lemma EndedIsMirror(vs: seq<string>, ss: seq<seq<string>>, ks: seq<nat>)
    requires Searching(vs, |vs|, ss, ks) && ss != []
    ensures IsMirror(vs, ks[0]) && |vs| + |ss[0]| == 2 * ks[0]
  {
    assert ks[0] in ks;
  }

  lemma EndedBelowFirst(vs: seq<string>, ss: seq<seq<string>>, ks: seq<nat>, j: nat)
    requires Searching(vs, |vs|, ss, ks) && ss != [] && 1 <= j < ks[0]
    ensures !IsMirror(vs, j)
  {
    assert forall i :: 0 <= i < |ks| ==> ks[0] <= ks[i];
    assert j !in ks;
  }

  /** `find_reflection`: the values seen so far grow in `growing`; each
      candidate mirror waits in `shrinking` with the values it has still to
      meet, and is dropped when the next value does not reflect. The result
      is the first mirror, None when there is none. */
  method FindReflection(vs: seq<string>) returns (r: Option<nat>)
    ensures r == FirstMirror(vs, 1)
  {
    var growing: seq<string> := [];
    var shrinking: seq<seq<string>> := [];
    ghost var ks: seq<nat> := [];
    SearchStarts(vs);
    for n := 0 to |vs|
      invariant growing == vs[..n]
      invariant Searching(vs, n, shrinking, ks)
    {
      var v := vs[n];
      CheckValue(vs, n, shrinking, ks);
      ks := Keeps(shrinking, ks, Same, v);
      shrinking := Pops(shrinking, Same, v);
      if !AllNonEmpty(shrinking) {
        CheckedFinished(vs, n, shrinking, ks);
        return Some((n + 1) / 2);
      }
      if n == 1 && growing[0] == v {
        FirstPairMirror(vs);
        return Some(1);
      }
      growing, shrinking, ks := Grow(vs, n, growing, shrinking, ks);
    }
    SearchEnded(vs, shrinking, ks);
    if shrinking != [] {
      assert (|vs| + |shrinking[0]|) / 2 == ks[0];
      return Some((|vs| + |shrinking[0]|) / 2);
    }
    return None;
  }

  /** The end of one round of `find_reflection`: a candidate opens after
      every pair of equal values from the third value on, and the value
      joins `growing`. */
  method Grow(vs: seq<string>, n: nat, growing: seq<string>, shrinking: seq<seq<string>>, ghost ks: seq<nat>)
      returns (growing': seq<string>, shrinking': seq<seq<string>>, ghost ks': seq<nat>)
    requires n < |vs| && growing == vs[..n]
    requires Checked(vs, n, shrinking, ks) && AllNonEmpty(shrinking)
    requires n == 1 ==> vs[0] != vs[1]
    ensures growing' == vs[..n + 1] && Searching(vs, n + 1, shrinking', ks')
  {
    var v := vs[n];
    var paired := n >= 2 && growing[n - 1] == v;
    if paired {
      assert growing[..n - 1] == vs[..n - 1];
    }
    shrinking' := if paired then shrinking + [growing[..n - 1]] else shrinking;
    ks' := if paired then ks + [n] else ks;
    Advance(vs, n, shrinking, ks, paired, shrinking', ks');
    assert vs[..n + 1] == growing + [v];
    growing' := growing + [v];
  }

  lemma SearchStarts(vs: seq<string>)
    ensures Searching(vs, 0, [], [])
  {
  }

  /** Two equal values first: the mirror after the first one. */
  lemma FirstPairMirror(vs: seq<string>)
    requires |vs| >= 2 && vs[0] == vs[1]
    ensures FirstMirror(vs, 1) == Some(1)
  {
    assert PairAgrees(vs, 1, 0);
    FirstMirrorIs(vs, 1);
  }

  lemma FirstMirrorIs(vs: seq<string>, k: nat)
    requires IsMirror(vs, k) && forall j :: 1 <= j < k ==> !IsMirror(vs, j)
    ensures FirstMirror(vs, 1) == Some(k)
  {
  }

  lemma FirstMirrorNone(vs: seq<string>)
    requires forall j :: 1 <= j ==> !IsMirror(vs, j)
    ensures FirstMirror(vs, 1) == None
  {
  }

  // ---------------------------------------------------------------------
  // `differ_by_one` and the smudged search

  /** Identical strings differ nowhere. */
  lemma {:induction false} DiffCountSelf(a: string)
    ensures DiffCount(a, a) == 0
    decreases |a|
  {
    if a != [] {
      DiffCountSelf(a[1..]);
    }
  }

  /** The only position within the shorter string at which a and b differ. */
  predicate OnlyDifference(a: string, b: string, p: nat)
  {
    p < |a| && p < |b| && a[p] != b[p] &&
    forall i :: 0 <= i < |a| && i < |b| && i != p ==> a[i] == b[i]
  }

  /** No position within the shorter string differs. */
  lemma {:induction false} DiffCountZero(a: string, b: string)
    ensures DiffCount(a, b) == 0 <==> forall i :: 0 <= i < |a| && i < |b| ==> a[i] == b[i]
    decreases |a|
  {
    if a != [] && b != [] {
      DiffCountZero(a[1..], b[1..]);
      if DiffCount(a, b) == 0 {
        forall i | 0 <= i < |a| && i < |b| ensures a[i] == b[i] {
          if i > 0 {
            assert a[1..][i - 1] == a[i] && b[1..][i - 1] == b[i];
          }
        }
      }
      if forall i :: 0 <= i < |a| && i < |b| ==> a[i] == b[i] {
        forall i | 0 <= i < |a[1..]| && i < |b[1..]| ensures a[1..][i] == b[1..][i] {
          assert a[1..][i] == a[i + 1] && b[1..][i] == b[i + 1];
        }
      }
    }
  }

  /** `differ_by_one` holds exactly when one position of the zipped pair
      differs. */
  lemma {:induction false} DifferByOneAt(a: string, b: string)
    ensures DifferByOne(a, b) <==> exists p: nat :: OnlyDifference(a, b, p)
    decreases |a|
  {
    if a == [] || b == [] {
      forall p: nat ensures !OnlyDifference(a, b, p) {
      }
    } else {
      var a', b' := a[1..], b[1..];
      DifferByOneAt(a', b');
      DiffCountZero(a', b');
      if DifferByOne(a, b) {
        if a[0] != b[0] {
          forall i | 0 <= i < |a| && i < |b| && i != 0 ensures a[i] == b[i] {
            assert a'[i - 1] == a[i] && b'[i - 1] == b[i];
          }
          assert OnlyDifference(a, b, 0);
        } else {
          var p: nat :| OnlyDifference(a', b', p);
          forall i | 0 <= i < |a| && i < |b| && i != p + 1 ensures a[i] == b[i] {
            if i > 0 {
              assert a'[i - 1] == a[i] && b'[i - 1] == b[i];
            }
          }
          assert a'[p] == a[p + 1] && b'[p] == b[p + 1];
          assert OnlyDifference(a, b, p + 1);
        }
      }
      if p: nat :| OnlyDifference(a, b, p) {
        if p == 0 {
          forall i | 0 <= i < |a'| && i < |b'| ensures a'[i] == b'[i] {
            assert a'[i] == a[i + 1] && b'[i] == b[i + 1];
          }
        } else {
          assert a[0] == b[0];
          forall i | 0 <= i < |a'| && i < |b'| && i != p - 1 ensures a'[i] == b'[i] {
            assert a'[i] == a[i + 1] && b'[i] == b[i + 1];
          }
          assert OnlyDifference(a', b', p - 1);
        }
      }
    }
  }

  /** How well the pairs of a mirror read so far agree: all equal, all
      equal but one that differs by one character, or worse. */
  datatype Fit = Exact | Smudged | Broken

  /** One more pair (a, b) read against fit f. */
  function Combine(f: Fit, a: string, b: string): (r: Fit)
    ensures r == Exact <==> f == Exact && a == b
    ensures r == Smudged <==> (f == Smudged && a == b) || (f == Exact && DifferByOne(a, b))
  {
    DiffCountSelf(a);
    if a == b then f
    else if f == Exact && DifferByOne(a, b) then Smudged
    else Broken
  }

  /** The fit of the mirror after k values over the pairs that lie within
      the first n values. */
  function FitAt(vs: seq<string>, k: nat, n: nat): (r: Fit)
    requires n <= |vs|
    ensures n <= k ==> r == Exact
  {
    if n == 0 then Exact
    else
      var f := FitAt(vs, k, n - 1);
      if k <= n - 1 < 2 * k then Combine(f, vs[2 * k - n], vs[n - 1]) else f
  }

  /** An exact fit is the all-pairs-agree reading of a mirror. */
  lemma {:induction false} FitExact(vs: seq<string>, k: nat, n: nat)
    requires n <= |vs|
    ensures FitAt(vs, k, n) == Exact <==> Reflects(vs, k, n)
  {
    if n > 0 {
      FitExact(vs, k, n - 1);
      ReflectsStep(vs, k, n - 1);
    }
  }

  /** Past the last pair, more values leave the fit alone. */
  lemma {:induction false} FitSettled(vs: seq<string>, k: nat, n: nat)
    requires 2 * k <= n <= |vs|
    ensures FitAt(vs, k, n) == FitAt(vs, k, |vs|)
    decreases |vs| - n
  {
    if n < |vs| {
      FitSettled(vs, k, n + 1);
    }
  }

  /** A smudged mirror: all pairs agree except one whose values differ in
      exactly one character. */
  predicate SmudgedMirror(vs: seq<string>, k: nat)
  {
    1 <= k < |vs| && FitAt(vs, k, |vs|) == Smudged
  }

  /** A mirror is exact or smudged, never both. */
  lemma MirrorKinds(vs: seq<string>, k: nat)
    ensures IsMirror(vs, k) <==> 1 <= k < |vs| && FitAt(vs, k, |vs|) == Exact
    ensures IsMirror(vs, k) ==> !SmudgedMirror(vs, k)
  {
    FitExact(vs, k, |vs|);
  }

  /** The first smudged mirror at k or after, by direct search. */
  function FirstSmudged(vs: seq<string>, k: nat): (r: Option<nat>)
    ensures r.Some? ==> k <= r.value && SmudgedMirror(vs, r.value) &&
                        forall j :: k <= j < r.value ==> !SmudgedMirror(vs, j)
    ensures r.None? ==> forall j :: k <= j ==> !SmudgedMirror(vs, j)
    decreases |vs| - k
  {
    if k >= |vs| then None
    else if SmudgedMirror(vs, k) then Some(k)
    else FirstSmudged(vs, k + 1)
  }

  /** What `find_smudged_reflection` knows before reading value n: the
      precise candidates are the mirrors after 2 .. n-1 values whose pairs
      so far agree, the smudged ones those with one smudge so far, each
      with the values it has still to meet; and no smudged mirror that
      would already have met all its values exists. */
  ghost predicate SmudgeSearching(vs: seq<string>, n: nat, ps: seq<seq<string>>, pks: seq<nat>,
                                  ss: seq<seq<string>>, sks: seq<nat>)
  {
    Tracks(vs, n, ps, pks) && Tracks(vs, n, ss, sks) &&
    (forall j :: 0 <= j < |pks| ==> 2 * pks[j] > n) &&
    (forall j :: 0 <= j < |sks| ==> 2 * sks[j] > n) &&
    (forall k :: k in pks <==> 2 <= k < n && 2 * k > n && FitAt(vs, k, n) == Exact) &&
    (forall k :: k in sks <==> 2 <= k < n && 2 * k > n && FitAt(vs, k, n) == Smudged) &&
    (forall k :: 1 <= k && 2 * k <= n ==> !SmudgedMirror(vs, k))
  }

  /** The same once value n has been checked against every candidate. */
  ghost predicate SmudgeChecked(vs: seq<string>, n: nat, ps: seq<seq<string>>, pks: seq<nat>,
                                ss: seq<seq<string>>, sks: seq<nat>)
  {
    n < |vs| && Tracks(vs, n + 1, ps, pks) && Tracks(vs, n + 1, ss, sks) &&
    (forall k :: k in pks <==> 2 <= k < n && 2 * k > n + 1 && FitAt(vs, k, n + 1) == Exact) &&
    (forall k :: k in sks <==> 2 <= k < n && 2 * k > n && FitAt(vs, k, n + 1) == Smudged) &&
    (forall k :: 1 <= k && 2 * k <= n ==> !SmudgedMirror(vs, k))
  }

  /** Two tracked candidate lists joined are tracked. */
  lemma TracksJoin(vs: seq<string>, n: nat, a: seq<seq<string>>, ka: seq<nat>,
                   b: seq<seq<string>>, kb: seq<nat>)
    requires Tracks(vs, n, a, ka) && Tracks(vs, n, b, kb)
    ensures Tracks(vs, n, a + b, ka + kb)
  {
    forall j | 0 <= j < |ka + kb|
      ensures (ka + kb)[j] <= n <= 2 * (ka + kb)[j] && (a + b)[j] == vs[..2 * (ka + kb)[j] - n]
    {
      if j >= |ka| {
        assert (ka + kb)[j] == kb[j - |ka|] && (a + b)[j] == b[j - |ka|];
      } else {
        assert (ka + kb)[j] == ka[j] && (a + b)[j] == a[j];
      }
    }
  }

  /** How each filter reads the next value a candidate has to meet. */
  lemma PassesNext(vs: seq<string>, n: nat, k: nat, t: Test, v: string)
    requires n < 2 * k <= |vs| + n && k <= n
    ensures Passes(t, vs[..2 * k - n], v) <==>
            match t
            case Same => vs[2 * k - 1 - n] == v
            case OneOff => DifferByOne(vs[2 * k - 1 - n], v)
            case SameLonger => vs[2 * k - 1 - n] == v && 2 * k > n + 1
  {
    assert vs[..2 * k - n][2 * k - n - 1] == vs[2 * k - 1 - n];
  }

  /** Checking value n: smudged candidates whose value equals it stay
      smudged, precise ones one character off become smudged, and precise
      ones that equal it stay precise while they have values left. */
  lemma SmudgeCheckValue(vs: seq<string>, n: nat, ps: seq<seq<string>>, pks: seq<nat>,
                         ss: seq<seq<string>>, sks: seq<nat>)
    requires n < |vs| && SmudgeSearching(vs, n, ps, pks, ss, sks)
    ensures var v := vs[n];
            SmudgeChecked(vs, n, Pops(ps, SameLonger, v), Keeps(ps, pks, SameLonger, v),
                          Pops(ss, Same, v) + Pops(ps, OneOff, v),
                          Keeps(ss, sks, Same, v) + Keeps(ps, pks, OneOff, v))
  {
    var v := vs[n];
    PopsTracks(vs, n, ps, pks, SameLonger, v);
    PopsTracks(vs, n, ss, sks, Same, v);
    PopsTracks(vs, n, ps, pks, OneOff, v);
    TracksJoin(vs, n + 1, Pops(ss, Same, v), Keeps(ss, sks, Same, v),
               Pops(ps, OneOff, v), Keeps(ps, pks, OneOff, v));
    SmudgeCheckMembers(vs, n, ps, pks, ss, sks);
  }

  lemma SmudgeCheck(vs: seq<string>, n: nat, ps: seq<seq<string>>, pks: seq<nat>,
                    ss: seq<seq<string>>, sks: seq<nat>,
                    ps': seq<seq<string>>, pks': seq<nat>, ss': seq<seq<string>>, sks': seq<nat>)
    requires n < |vs| && SmudgeSearching(vs, n, ps, pks, ss, sks)
    requires ps' == Pops(ps, SameLonger, vs[n]) && pks' == Keeps(ps, pks, SameLonger, vs[n])
    requires ss' == Pops(ss, Same, vs[n]) + Pops(ps, OneOff, vs[n])
    requires sks' == Keeps(ss, sks, Same, vs[n]) + Keeps(ps, pks, OneOff, vs[n])
    ensures SmudgeChecked(vs, n, ps', pks', ss', sks')
  {
    SmudgeCheckValue(vs, n, ps, pks, ss, sks);
  }

  lemma SmudgeCheckMembers(vs: seq<string>, n: nat, ps: seq<seq<string>>, pks: seq<nat>,
                           ss: seq<seq<string>>, sks: seq<nat>)
    requires n < |vs| && SmudgeSearching(vs, n, ps, pks, ss, sks)
    ensures var v := vs[n];
            (forall k :: k in Keeps(ps, pks, SameLonger, v) <==>
                         2 <= k < n && 2 * k > n + 1 && FitAt(vs, k, n + 1) == Exact) &&
            (forall k :: k in Keeps(ss, sks, Same, v) + Keeps(ps, pks, OneOff, v) <==>
                         2 <= k < n && 2 * k > n && FitAt(vs, k, n + 1) == Smudged)
  {
    var v := vs[n];
    KeepsMembers(vs, n, ps, pks, SameLonger, v);
    KeepsMembers(vs, n, ss, sks, Same, v);
    KeepsMembers(vs, n, ps, pks, OneOff, v);
    forall k | 2 <= k < n && 2 * k > n
      ensures (Passes(SameLonger, vs[..2 * k - n], v) <==> vs[2 * k - 1 - n] == v && 2 * k > n + 1) &&
              (Passes(Same, vs[..2 * k - n], v) <==> vs[2 * k - 1 - n] == v) &&
              (Passes(OneOff, vs[..2 * k - n], v) <==> DifferByOne(vs[2 * k - 1 - n], v))
      ensures FitAt(vs, k, n + 1) == Combine(FitAt(vs, k, n), vs[2 * k - 1 - n], v)
    {
      PassesNext(vs, n, k, SameLonger, v);
      PassesNext(vs, n, k, Same, v);
      PassesNext(vs, n, k, OneOff, v);
    }
  }

  /** A smudged candidate that has met all its values is the first smudged
      mirror. */
  lemma SmudgeFinished(vs: seq<string>, n: nat, ps: seq<seq<string>>, pks: seq<nat>,
                       ss: seq<seq<string>>, sks: seq<nat>)
    requires SmudgeChecked(vs, n, ps, pks, ss, sks) && !AllNonEmpty(ss)
    ensures FirstSmudged(vs, 1) == Some((n + 1) / 2)
  {
    var j :| 0 <= j < |ss| && ss[j] == [];
    var k := sks[j];
    assert k in sks;
    FitSettled(vs, k, n + 1);
    FirstSmudgedIs(vs, k);
  }

  lemma FirstSmudgedIs(vs: seq<string>, k: nat)
    requires SmudgedMirror(vs, k) && forall j :: 1 <= j < k ==> !SmudgedMirror(vs, j)
    ensures FirstSmudged(vs, 1) == Some(k)
  {
  }

  lemma GrowingPrefix(vs: seq<string>, n: nat, growing: seq<string>)
    requires n < |vs| && growing == vs[..n]
    ensures growing + [vs[n]] == vs[..n + 1]
    ensures 2 <= n ==> growing[..n - 1] == vs[..n - 1] && growing[n - 1] == vs[n - 1]
  {
  }

  /** The first two values one character apart: the smudged mirror after
      the first one. */
  lemma FirstPairSmudged(vs: seq<string>)
    requires |vs| >= 2 && DifferByOne(vs[0], vs[1])
    ensures FirstSmudged(vs, 1) == Some(1)
  {
    FitSettled(vs, 1, 2);
    FirstSmudgedIs(vs, 1);
  }

  /** Without a finished smudged candidate the search goes on to value
      n + 1, with the mirror after n values as a new smudged candidate when
      its pair differs by one character and as a new precise one when it
      agrees. */
  lemma SmudgeAdvance(vs: seq<string>, n: nat, ps: seq<seq<string>>, pks: seq<nat>,
                      ss: seq<seq<string>>, sks: seq<nat>, toSmudged: bool, toPrecise: bool,
                      ps': seq<seq<string>>, pks': seq<nat>, ss': seq<seq<string>>, sks': seq<nat>)
    requires SmudgeChecked(vs, n, ps, pks, ss, sks) && AllNonEmpty(ss)
    requires n == 1 ==> !DifferByOne(vs[0], vs[1])
    requires toSmudged <==> 2 <= n && DifferByOne(vs[n - 1], vs[n])
    requires toPrecise <==> 2 <= n && !DifferByOne(vs[n - 1], vs[n]) && vs[n - 1] == vs[n]
    requires ss' == (if toSmudged then ss + [vs[..n - 1]] else ss)
    requires sks' == (if toSmudged then sks + [n] else sks)
    requires ps' == (if toPrecise then ps + [vs[..n - 1]] else ps)
    requires pks' == (if toPrecise then pks + [n] else pks)
    ensures SmudgeSearching(vs, n + 1, ps', pks', ss', sks')
  {
    SmudgeAdvanceBounds(vs, n, ps, pks, ss, sks);
    if 2 <= n {
      NewPairFit(vs, n);
    }
    AdvanceKind(vs, n, ps, pks, Exact, toPrecise, ps', pks');
    AdvanceKind(vs, n, ss, sks, Smudged, toSmudged, ss', sks');
    SmudgeAdvanceFinished(vs, n, ps, pks, ss, sks);
  }

  /** The candidates of one kind move on to value n + 1, the mirror after n
      values joining them when its first pair fits that kind. */
  lemma AdvanceKind(vs: seq<string>, n: nat, cs: seq<seq<string>>, ks: seq<nat>, fit: Fit, add: bool,
                    cs': seq<seq<string>>, ks': seq<nat>)
    requires n < |vs| && Tracks(vs, n + 1, cs, ks)
    requires forall j :: 0 <= j < |ks| ==> 2 * ks[j] > n + 1
    requires forall k :: k in ks <==> 2 <= k < n && 2 * k > n + 1 && FitAt(vs, k, n + 1) == fit
    requires add <==> 2 <= n && FitAt(vs, n, n + 1) == fit
    requires cs' == (if add then cs + [vs[..n - 1]] else cs)
    requires ks' == (if add then ks + [n] else ks)
    ensures Tracks(vs, n + 1, cs', ks')
    ensures forall j :: 0 <= j < |ks'| ==> 2 * ks'[j] > n + 1
    ensures forall k :: k in ks' <==> 2 <= k < n + 1 && 2 * k > n + 1 && FitAt(vs, k, n + 1) == fit
  {
    if add {
      TracksAdd(vs, n, cs, ks);
    }
    ExtendMembers(vs, n, ks, fit, add, ks');
  }

  /** The mirror after n values joins the candidates with the n - 1 values
      it still has to meet. */
  lemma TracksAdd(vs: seq<string>, n: nat, cs: seq<seq<string>>, ks: seq<nat>)
    requires 2 <= n < |vs| && Tracks(vs, n + 1, cs, ks)
    requires forall j :: 0 <= j < |ks| ==> 2 * ks[j] > n + 1
    ensures Tracks(vs, n + 1, cs + [vs[..n - 1]], ks + [n])
    ensures forall j :: 0 <= j < |ks + [n]| ==> 2 * (ks + [n])[j] > n + 1
  {
    TracksJoin(vs, n + 1, cs, ks, [vs[..n - 1]], [n]);
    forall j | 0 <= j < |ks + [n]|
      ensures 2 * (ks + [n])[j] > n + 1
    {
      if j < |ks| {
        assert (ks + [n])[j] == ks[j];
      }
    }
  }

  /** The pair the mirror after n values closes with value n. */
  lemma NewPairFit(vs: seq<string>, n: nat)
    requires 2 <= n < |vs|
    ensures FitAt(vs, n, n + 1) == Combine(Exact, vs[n - 1], vs[n])
  {
  }

  /** The candidates of one kind, with the mirror after n values added
      when its first pair fits that kind. */
  lemma ExtendMembers(vs: seq<string>, n: nat, ks: seq<nat>, fit: Fit, add: bool, ks': seq<nat>)
    requires n < |vs|
    requires forall k :: k in ks <==> 2 <= k < n && 2 * k > n + 1 && FitAt(vs, k, n + 1) == fit
    requires add <==> 2 <= n && FitAt(vs, n, n + 1) == fit
    requires ks' == if add then ks + [n] else ks
    ensures forall k :: k in ks' <==> 2 <= k < n + 1 && 2 * k > n + 1 && FitAt(vs, k, n + 1) == fit
  {
  }

  lemma SmudgeAdvanceBounds(vs: seq<string>, n: nat, ps: seq<seq<string>>, pks: seq<nat>,
                            ss: seq<seq<string>>, sks: seq<nat>)
    requires SmudgeChecked(vs, n, ps, pks, ss, sks) && AllNonEmpty(ss)
    ensures forall j :: 0 <= j < |pks| ==> 2 * pks[j] > n + 1
    ensures forall j :: 0 <= j < |sks| ==> 2 * sks[j] > n + 1
    ensures forall k :: k in sks <==> 2 <= k < n && 2 * k > n + 1 && FitAt(vs, k, n + 1) == Smudged
  {
    forall j | 0 <= j < |pks| ensures 2 * pks[j] > n + 1 {
      assert pks[j] in pks;
    }
    forall j | 0 <= j < |sks| ensures 2 * sks[j] > n + 1 {
      assert sks[j] in sks && ss[j] != [];
    }
  }

  /** A smudged mirror that would now have met all its values is not one. */
  lemma SmudgeAdvanceFinished(vs: seq<string>, n: nat, ps: seq<seq<string>>, pks: seq<nat>,
                              ss: seq<seq<string>>, sks: seq<nat>)
    requires SmudgeChecked(vs, n, ps, pks, ss, sks) && AllNonEmpty(ss)
    requires n == 1 ==> !DifferByOne(vs[0], vs[1])
    ensures forall k :: 1 <= k && 2 * k <= n + 1 ==> !SmudgedMirror(vs, k)
  {
    SmudgeAdvanceBounds(vs, n, ps, pks, ss, sks);
    forall k | 1 <= k && 2 * k == n + 1 ensures !SmudgedMirror(vs, k) {
      FitSettled(vs, k, n + 1);
      if n == 1 {
        assert FitAt(vs, 1, 2) == Combine(Exact, vs[0], vs[1]);
      } else {
        assert k !in sks;
      }
    }
  }

  /** Candidates left at the end met the last value; the first smudged one
      is a smudged mirror, though not necessarily the first. */
  lemma SmudgeEnded(vs: seq<string>, ps: seq<seq<string>>, pks: seq<nat>,
                    ss: seq<seq<string>>, sks: seq<nat>)
    requires SmudgeSearching(vs, |vs|, ps, pks, ss, sks)
    ensures ss != [] ==> |vs| + |ss[0]| == 2 * sks[0] && SmudgedMirror(vs, sks[0]) &&
                         2 * sks[0] > |vs|
    ensures ss == [] ==> FirstSmudged(vs, 1) == None
    ensures forall k :: 1 <= k && 2 * k <= |vs| ==> !SmudgedMirror(vs, k)
  {
    if ss != [] {
      assert sks[0] in sks;
    } else {
      forall j | 1 <= j ensures !SmudgedMirror(vs, j) {
        assert j !in sks;
      }
      FirstSmudgedNone(vs);
    }
  }

  lemma FirstSmudgedNone(vs: seq<string>)
    requires forall j :: 1 <= j ==> !SmudgedMirror(vs, j)
    ensures FirstSmudged(vs, 1) == None
  {
  }

  /** The `match growing` of `find_smudged_reflection` from the third value
      on: the mirror after n values joins the smudged candidates when its
      pair differs by one character, and the precise ones when it agrees. */
  method Enlist(vs: seq<string>, n: nat, growing: seq<string>,
                precise: seq<seq<string>>, smudged: seq<seq<string>>,
                ghost pks: seq<nat>, ghost sks: seq<nat>)
    returns (precise': seq<seq<string>>, smudged': seq<seq<string>>,
             ghost pks': seq<nat>, ghost sks': seq<nat>)
    requires SmudgeChecked(vs, n, precise, pks, smudged, sks) && AllNonEmpty(smudged)
    requires growing == vs[..n] && (n == 1 ==> !DifferByOne(vs[0], vs[1]))
    ensures var toSmudged := 2 <= n && DifferByOne(vs[n - 1], vs[n]);
            smudged' == if toSmudged then smudged + [vs[..n - 1]] else smudged
    ensures var toPrecise := 2 <= n && !DifferByOne(vs[n - 1], vs[n]) && vs[n - 1] == vs[n];
            precise' == if toPrecise then precise + [vs[..n - 1]] else precise
    ensures SmudgeSearching(vs, n + 1, precise', pks', smudged', sks')
  {
    var v := vs[n];
    var toSmudged := n >= 2 && DifferByOne(growing[n - 1], v);
    var toPrecise := n >= 2 && !toSmudged && growing[n - 1] == v;
    GrowingPrefix(vs, n, growing);
    smudged', precise' := smudged, precise;
    sks', pks' := sks, pks;
    if toSmudged {
      smudged', sks' := smudged + [growing[..n - 1]], sks + [n];
    } else if toPrecise {
      precise', pks' := precise + [growing[..n - 1]], pks + [n];
    }
    SmudgeAdvance(vs, n, precise, pks, smudged, sks, toSmudged, toPrecise,
                  precise', pks', smudged', sks');
  }

  /** `find_smudged_reflection`: like `find_reflection`, with a second list
      of candidates that have used up their one smudge. The result is a
      smudged mirror, None when there is none; it is the first one whenever
      the first one lies in the first half of the values. */
  method FindSmudgedReflection(vs: seq<string>) returns (r: Option<nat>)
    ensures r.None? <==> FirstSmudged(vs, 1).None?
    ensures r.Some? ==> SmudgedMirror(vs, r.value)
    ensures FirstSmudged(vs, 1).Some? && 2 * FirstSmudged(vs, 1).value <= |vs| ==>
            r == FirstSmudged(vs, 1)
  {
    var growing: seq<string> := [];
    var precise: seq<seq<string>> := [];
    var smudged: seq<seq<string>> := [];
    ghost var pks: seq<nat> := [];
    ghost var sks: seq<nat> := [];
    for n := 0 to |vs|
      invariant growing == vs[..n]
      invariant SmudgeSearching(vs, n, precise, pks, smudged, sks)
    {
      var v := vs[n];
      var checkedS := Pops(smudged, Same, v) + Pops(precise, OneOff, v);
      ghost var checkedSks := Keeps(smudged, sks, Same, v) + Keeps(precise, pks, OneOff, v);
      var checkedP := Pops(precise, SameLonger, v);
      ghost var checkedPks := Keeps(precise, pks, SameLonger, v);
      SmudgeCheck(vs, n, precise, pks, smudged, sks, checkedP, checkedPks, checkedS, checkedSks);
      smudged, sks, precise, pks := checkedS, checkedSks, checkedP, checkedPks;
      if !AllNonEmpty(smudged) {
        SmudgeFinished(vs, n, precise, pks, smudged, sks);
        return Some((n + 1) / 2);
      }
      if n == 1 && DifferByOne(growing[0], v) {
        FirstPairSmudged(vs);
        return Some(1);
      }
      precise, smudged, pks, sks := Enlist(vs, n, growing, precise, smudged, pks, sks);
      GrowingPrefix(vs, n, growing);
      growing := growing + [v];
    }
    SmudgeEnded(vs, precise, pks, smudged, sks);
    if smudged != [] {
      assert (|vs| + |smudged[0]|) / 2 == sks[0];
      return Some((|vs| + |smudged[0]|) / 2);
    }
    return None;
  }

  // ---------------------------------------------------------------------
  // Puzzles: blocks of lines, their rows and columns, and the answers

  /** `''.join(row[n] for row in rows)` for each column n of the first row;
      a row shorter than the first would raise IndexError. */
  function Columns(rows: seq<string>): (cols: seq<string>)
    requires rows != [] && forall m :: 0 <= m < |rows| ==> |rows[m]| >= |rows[0]|
    ensures |cols| == |rows[0]|
    ensures forall n :: 0 <= n < |cols| ==> |cols[n]| == |rows|
    ensures forall n, m :: 0 <= n < |cols| && 0 <= m < |rows| ==> cols[n][m] == rows[m][n]
  {
    seq(|rows[0]|, n requires 0 <= n < |rows[0]| =>
      seq(|rows|, m requires 0 <= m < |rows| => rows[m][n]))
  }

  /** The columns of the columns of a rectangular grid are its rows. */
  lemma TransposeTwice(rows: seq<string>)
    requires rows != [] && |rows[0]| > 0 && forall m :: 0 <= m < |rows| ==> |rows[m]| == |rows[0]|
    ensures Columns(Columns(rows)) == rows
  {
    var cols := Columns(rows);
    var back := Columns(cols);
    forall m | 0 <= m < |rows| ensures back[m] == rows[m] {
      assert forall n :: 0 <= n < |rows[m]| ==> back[m][n] == cols[n][m] == rows[m][n];
    }
  }

  function Flatten(gs: seq<seq<string>>): (xs: seq<string>)
  {
    if gs == [] then [] else gs[0] + Flatten(gs[1..])
  }

  /** `groupby(xs, key=len)`: the maximal runs of consecutive strings of
      equal length, in order. */
  function Groups(xs: seq<string>): (gs: seq<seq<string>>)
    ensures Flatten(gs) == xs
    ensures forall i :: 0 <= i < |gs| ==>
              gs[i] != [] && forall j :: 0 <= j < |gs[i]| ==> |gs[i][j]| == |gs[i][0]|
    ensures forall i :: 0 < i < |gs| ==> |gs[i - 1][0]| != |gs[i][0]|
    ensures gs != [] ==> gs[0][0] == xs[0]
    decreases |xs|
  {
    if xs == [] then []
    else
      var rest := Groups(xs[1..]);
      if rest != [] && |rest[0][0]| == |xs[0]| then [[xs[0]] + rest[0]] + rest[1..]
      else [[xs[0]]] + rest
  }

  /** Every string of every group is one of the grouped strings. */
  lemma {:induction false} FlattenHas(gs: seq<seq<string>>, i: nat, j: nat)
    requires i < |gs| && j < |gs[i]|
    ensures gs[i][j] in Flatten(gs)
    decreases i
  {
    if i == 0 {
      assert Flatten(gs)[j] == gs[0][j];
    } else {
      FlattenHas(gs[1..], i - 1, j);
      assert gs[1..][i - 1] == gs[i];
      assert Flatten(gs) == gs[0] + Flatten(gs[1..]);
    }
  }

  /** The groups `if k` keeps: those of non-empty strings. */
  function NonBlank(gs: seq<seq<string>>): (bs: seq<seq<string>>)
    requires forall i :: 0 <= i < |gs| ==> gs[i] != []
    ensures forall i :: 0 <= i < |bs| ==> bs[i] in gs && |bs[i][0]| != 0
    ensures forall i :: 0 <= i < |gs| && |gs[i][0]| != 0 ==> gs[i] in bs
  {
    if gs == [] then []
    else
      var rest := NonBlank(gs[1..]);
      assert forall i :: 0 < i < |gs| ==> gs[i] == gs[1..][i - 1];
      if |gs[0][0]| != 0 then [gs[0]] + rest else rest
  }

  /** The blocks of `day13a` and `day13b`: the runs of stripped lines of
      one non-zero length. Each is rectangular and already stripped. */
  function Blocks(lines: seq<string>): (bs: seq<seq<string>>)
    ensures forall i :: 0 <= i < |bs| ==> bs[i] != [] && |bs[i][0]| > 0
    ensures forall i, j :: 0 <= i < |bs| && 0 <= j < |bs[i]| ==>
              |bs[i][j]| == |bs[i][0]| && Strip(bs[i][j]) == bs[i][j]
  {
    var xs := StripAll(lines);
    var gs := Groups(xs);
    assert forall i, j :: 0 <= i < |gs| && 0 <= j < |gs[i]| ==> Strip(gs[i][j]) == gs[i][j] by {
      forall i, j | 0 <= i < |gs| && 0 <= j < |gs[i]| ensures Strip(gs[i][j]) == gs[i][j] {
        FlattenHas(gs, i, j);
        var y :| 0 <= y < |xs| && xs[y] == gs[i][j];
        StripStripped(lines[y]);
      }
    }
    NonBlank(gs)
  }

  /** A block with its `rows` and `cols`. */
  datatype Puzzle = Puzzle(rows: seq<string>, cols: seq<string>)

  /** `Puzzle.__init__`: the stripped lines and their columns. */
  function PuzzleOf(block: seq<string>): (p: Puzzle)
    requires block != [] && forall m :: 0 <= m < |block| ==> |Strip(block[m])| >= |Strip(block[0])|
    ensures |p.rows| == |block| && forall m :: 0 <= m < |block| ==> p.rows[m] == Strip(block[m])
    ensures p.cols == Columns(p.rows)
  {
    var rows := StripAll(block);
    Puzzle(rows, Columns(rows))
  }

  /** The puzzles of the input, one per block. */
  function Puzzles(lines: seq<string>): (ps: seq<Puzzle>)
    ensures |ps| == |Blocks(lines)|
    ensures forall i :: 0 <= i < |ps| ==>
              ps[i].rows == Blocks(lines)[i] && ps[i].cols == Columns(ps[i].rows) && |ps[i].cols| > 0
  {
    var bs := Blocks(lines);
    seq(|bs|, i requires 0 <= i < |bs| =>
      assert forall m :: 0 <= m < |bs[i]| ==> StripAll(bs[i])[m] == bs[i][m];
      PuzzleOf(bs[i]))
  }

  /** Python's `a or b` on a search result: a unless it is None or 0. */
  function Or(a: Option<nat>, b: nat): (r: nat)
    ensures a.Some? && a.value != 0 ==> r == a.value
    ensures a.None? || a.value == 0 ==> r == b
  {
    if a.Some? && a.value != 0 then a.value else b
  }

  /** `solution_a` over the search's specification: the first column
      mirror, else 100 times the first row mirror, else 0. */
  function AnswerA(p: Puzzle): (r: nat)
    ensures r == 0 <==> forall k :: !IsMirror(p.cols, k) && !IsMirror(p.rows, k)
    ensures (exists k :: IsMirror(p.cols, k)) ==>
              IsMirror(p.cols, r) && forall j :: 1 <= j < r ==> !IsMirror(p.cols, j)
    ensures (forall k :: !IsMirror(p.cols, k)) && (exists k :: IsMirror(p.rows, k)) ==>
              r % 100 == 0 && IsMirror(p.rows, r / 100) && forall j :: 1 <= j < r / 100 ==> !IsMirror(p.rows, j)
  {
    var c, w := FirstMirror(p.cols, 1), FirstMirror(p.rows, 1);
    assert c.None? && w.None? ==> forall k :: !IsMirror(p.cols, k) && !IsMirror(p.rows, k) by {
      if c.None? && w.None? {
        forall k ensures !IsMirror(p.cols, k) && !IsMirror(p.rows, k) {
          if k == 0 {
            assert !IsMirror(p.cols, 0) && !IsMirror(p.rows, 0);
          }
        }
      }
    }
    Or(c, 100 * Or(w, 0))
  }

  /** `Puzzle.solution_a`. */
  method SolutionA(p: Puzzle) returns (r: nat)
    ensures r == AnswerA(p)
  {
    var c := FindReflection(p.cols);
    if c.Some? && c.value != 0 {
      return c.value;
    }
    var w := FindReflection(p.rows);
    r := 100 * Or(w, 0);
  }

  /** What `find_smudged_reflection` may return for vs. */
  predicate SmudgedResult(vs: seq<string>, r: Option<nat>)
  {
    (r.None? <==> FirstSmudged(vs, 1).None?) &&
    (r.Some? ==> SmudgedMirror(vs, r.value)) &&
    (FirstSmudged(vs, 1).Some? && 2 * FirstSmudged(vs, 1).value <= |vs| ==> r == FirstSmudged(vs, 1))
  }

  /** With at most one smudged mirror, as the puzzle promises, the result is
      that mirror. */
  lemma SmudgedResultUnique(vs: seq<string>, r: Option<nat>)
    requires SmudgedResult(vs, r)
    requires forall j, k :: SmudgedMirror(vs, j) && SmudgedMirror(vs, k) ==> j == k
    ensures r == FirstSmudged(vs, 1)
  {
  }

  /** What `solution_b` may score for p: zero exactly when there is no
      smudged mirror at all, and with one smudged mirror on each side a fixed
      score. */
  ghost predicate AnswerB(p: Puzzle, a: nat)
    ensures AnswerB(p, a) ==> (a == 0 <==> FirstSmudged(p.cols, 1).None? && FirstSmudged(p.rows, 1).None?)
    ensures AnswerB(p, a) &&
            (forall j, k :: SmudgedMirror(p.cols, j) && SmudgedMirror(p.cols, k) ==> j == k) &&
            (forall j, k :: SmudgedMirror(p.rows, j) && SmudgedMirror(p.rows, k) ==> j == k) ==>
              a == Or(FirstSmudged(p.cols, 1), 100 * Or(FirstSmudged(p.rows, 1), 0))
  {
    exists c, w :: SmudgedResult(p.cols, c) && SmudgedResult(p.rows, w) && a == Or(c, 100 * Or(w, 0))
  }

  /** `Puzzle.solution_b`. */
  method SolutionB(p: Puzzle) returns (r: nat)
    ensures AnswerB(p, r)
  {
    var c := FindSmudgedReflection(p.cols);
    if c.Some? && c.value != 0 {
      ghost var w := FirstSmudged(p.rows, 1);
      assert SmudgedResult(p.cols, c) && SmudgedResult(p.rows, w) && c.value == Or(c, 100 * Or(w, 0));
      return c.value;
    }
    var w := FindSmudgedReflection(p.rows);
    r := 100 * Or(w, 0);
    assert SmudgedResult(p.cols, c) && SmudgedResult(p.rows, w) && r == Or(c, 100 * Or(w, 0));
  }

  /** The sum of `solution_a` over ps. */
  function TotalA(ps: seq<Puzzle>): (t: int)
    ensures t >= 0
  {
    if ps == [] then 0 else TotalA(ps[..|ps| - 1]) + AnswerA(ps[|ps| - 1])
  }

  /** `day13a`: the sum of `solution_a` over the puzzles. */
  method Day13A(lines: seq<string>) returns (total: int)
    ensures total == TotalA(Puzzles(lines))
  {
    total := SumA(Puzzles(lines));
  }

  /** The loop of `day13a` over parsed puzzles. */
  method SumA(ps: seq<Puzzle>) returns (total: int)
    ensures total == TotalA(ps)
  {
    total := 0;
    for i := 0 to |ps|
      invariant total == TotalA(ps[..i])
    {
      var a := SolutionA(ps[i]);
      TotalANext(ps, i);
      total := total + a;
    }
    assert ps[..|ps|] == ps;
  }

  lemma TotalANext(ps: seq<Puzzle>, i: nat)
    requires i < |ps|
    ensures TotalA(ps[..i + 1]) == TotalA(ps[..i]) + AnswerA(ps[i])
  {
    assert ps[..i + 1][..i] == ps[..i];
  }

  /** `day13b`: the sum of `solution_b` over the puzzles, with the score of
      each. */
  method Day13B(lines: seq<string>) returns (total: int, scores: seq<nat>)
    ensures |scores| == |Puzzles(lines)| && total == Sum(scores)
    ensures forall i :: 0 <= i < |scores| ==> AnswerB(Puzzles(lines)[i], scores[i])
  {
    total, scores := SumB(Puzzles(lines));
  }

  /** The loop of `day13b` over parsed puzzles. */
  method SumB(ps: seq<Puzzle>) returns (total: int, scores: seq<nat>)
    ensures |scores| == |ps| && total == Sum(scores)
    ensures forall i :: 0 <= i < |scores| ==> AnswerB(ps[i], scores[i])
  {
    scores := [];
    total := 0;
    for i := 0 to |ps|
      invariant |scores| == i && total == Sum(scores)
      invariant forall j :: 0 <= j < i ==> AnswerB(ps[j], scores[j])
    {
      var a := SolutionB(ps[i]);
      SumNext(scores, a);
      scores := scores + [a];
      total := total + a;
    }
  }

  lemma SumNext(scores: seq<nat>, a: nat)
    ensures Sum(scores + [a]) == Sum(scores) + a
  {
    assert (scores + [a])[..|scores|] == scores;
  }
}
