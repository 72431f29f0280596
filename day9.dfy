/** Finite-difference extrapolation (aoc23/day9.py): the next value of a
    sequence is its last value plus the next value of its differences. */
module Day9 {
  import opened Common

  /** The successive differences `j - i` of neighbouring values (`pairwise`). */
  function Diffs(s: seq<int>): (d: seq<int>)
    ensures |d| == if s == [] then 0 else |s| - 1
  {
    if s == [] then [] else seq(|s| - 1, i requires 0 <= i < |s| - 1 => s[i + 1] - s[i])
  }

  /** `not any(nums)`: the sequence is empty or every value is zero. */
  predicate AllZero(s: seq<int>)
  {
    forall i :: 0 <= i < |s| ==> s[i] == 0
  }

  /** `compute_next`: extrapolate one value forward. */
  function ComputeNext(s: seq<int>): (r: int)
    ensures AllZero(s) ==> r == 0
    ensures |s| == 1 ==> r == s[0]
    decreases |s|
  {
    if AllZero(s) then 0 else s[|s| - 1] + ComputeNext(Diffs(s))
  }

  /** Extrapolation backwards, written directly: the first value minus the
      backward extrapolation of the differences. This is what `day9b` obtains
      by reversing each line. */
  function ComputePrev(s: seq<int>): int
    decreases |s|
  {
    if AllZero(s) then 0 else s[0] - ComputePrev(Diffs(s))
  }

  function Reverse(s: seq<int>): (r: seq<int>)
    ensures |r| == |s|
  {
    seq(|s|, i requires 0 <= i < |s| => s[|s| - 1 - i])
  }

  function Negate(s: seq<int>): (r: seq<int>)
    ensures |r| == |s|
  {
    seq(|s|, i requires 0 <= i < |s| => -s[i])
  }

  /** Extrapolation is linear: negating the input negates the prediction. */
  lemma {:induction false} NextOfNegate(s: seq<int>)
    ensures ComputeNext(Negate(s)) == -ComputeNext(s)
    decreases |s|
  {
    var n := Negate(s);
    if AllZero(s) {
      assert AllZero(n);
    } else {
      var i :| 0 <= i < |s| && s[i] != 0;
      assert n[i] != 0;
      var dn, ds := Diffs(n), Negate(Diffs(s));
      assert |dn| == |ds|;
      forall k | 0 <= k < |dn| ensures dn[k] == ds[k] {
      }
      assert dn == ds;
      NextOfNegate(Diffs(s));
    }
  }

  /** The differences of a reversed sequence are the negated, reversed differences. */
  lemma DiffsOfReverse(s: seq<int>)
    ensures Diffs(Reverse(s)) == Negate(Reverse(Diffs(s)))
  {
    var a, b := Diffs(Reverse(s)), Negate(Reverse(Diffs(s)));
    assert |a| == |b|;
    forall k | 0 <= k < |a| ensures a[k] == b[k] {
      assert a[k] == s[|s| - 2 - k] - s[|s| - 1 - k];
    }
  }

  /** `day9b` (reverse, then extrapolate forward) extrapolates backwards. */
  lemma {:induction false} NextOfReverseIsPrev(s: seq<int>)
    ensures ComputeNext(Reverse(s)) == ComputePrev(s)
    decreases |s|
  {
    var r := Reverse(s);
    if AllZero(s) {
      assert AllZero(r);
    } else {
      var i :| 0 <= i < |s| && s[i] != 0;
      assert r[|s| - 1 - i] != 0;
      DiffsOfReverse(s);
      NextOfNegate(Reverse(Diffs(s)));
      NextOfReverseIsPrev(Diffs(s));
    }
  }

  /** An arithmetic progression `a + d*i` of length at least two is continued exactly. */
  lemma {:induction false} ArithmeticIsExact(s: seq<int>, a: int, d: int)
    requires |s| >= 2
    requires forall i :: 0 <= i < |s| ==> s[i] == a + d * i
    ensures ComputeNext(s) == a + d * |s|
  {
    var ds := Diffs(s);
    forall i | 0 <= i < |ds| ensures ds[i] == d {
      assert ds[i] == s[i + 1] - s[i];
      assert s[i + 1] == a + d * i + d;
    }
    if AllZero(s) {
      assert s[0] == 0 && s[1] == 0;
    } else if d == 0 {
      assert AllZero(ds);
    } else {
      assert !AllZero(ds) by { assert ds[0] == d; }
      var dds := Diffs(ds);
      assert AllZero(dds);
      assert ComputeNext(ds) == d;
    }
  }

  /** One line of input: whitespace-separated integers. */
  function ParseLine(line: string): (r: Option<seq<int>>)
    ensures r.Some? ==> forall j :: 0 <= j < |Words(line)| ==> ParseInt(Words(line)[j]).Some?
    ensures (forall j :: 0 <= j < |Words(line)| ==> ParseInt(Words(line)[j]).Some?) ==> r.Some?
    ensures r.Some? ==> |r.value| == |Words(line)| &&
                        forall j :: 0 <= j < |Words(line)| ==> ParseInt(Words(line)[j]) == Some(r.value[j])
  {
    var ws := Words(line);
    ParseIntsEach(ws);
    ParseInts(ws)
  }

  /** A history written with single spaces between its numbers parses back
      to itself. */
  lemma ParseLineWritten(xs: seq<int>)
    ensures ParseLine(Spaced(xs)) == Some(xs)
  {
    WordsSpaced(xs, []);
    assert Spaced(xs) + [] == Spaced(xs);
    assert Words(Spaced(xs)) == IntTexts(xs) + [] == IntTexts(xs);
    ParseIntsWritten(xs);
  }

  /** Every line parsed, or None if any token is not an integer. */
  function ParseAll(lines: seq<string>): (r: Option<seq<seq<int>>>)
    ensures r.Some? <==> forall i :: 0 <= i < |lines| ==> ParseLine(lines[i]).Some?
    ensures r.Some? ==> |r.value| == |lines| &&
                        forall i :: 0 <= i < |lines| ==> Some(r.value[i]) == ParseLine(lines[i])
  {
    if lines == [] then Some([])
    else match (ParseLine(lines[0]), ParseAll(lines[1..]))
      case (Some(v), Some(vs)) => Some([v] + vs)
      case _ => None
  }

  function SumNext(vs: seq<seq<int>>): int
  {
    if vs == [] then 0 else ComputeNext(vs[0]) + SumNext(vs[1..])
  }

  function SumNextReversed(vs: seq<seq<int>>): int
  {
    if vs == [] then 0 else ComputeNext(Reverse(vs[0])) + SumNextReversed(vs[1..])
  }

  function SumPrev(vs: seq<seq<int>>): int
  {
    if vs == [] then 0 else ComputePrev(vs[0]) + SumPrev(vs[1..])
  }

  /** `day9a`: the sum of the forward extrapolations of every line; a
      token `int` rejects makes it fail. */
  function Day9A(lines: seq<string>): (r: Option<int>)
    ensures r.Some? <==> forall i :: 0 <= i < |lines| ==> ParseLine(lines[i]).Some?
  {
    match ParseAll(lines)
    case None => None
    case Some(vs) => Some(SumNext(vs))
  }

  /** `day9b`: the sum of the forward extrapolations of every reversed line. */
  function Day9B(lines: seq<string>): (r: Option<int>)
    ensures r.Some? <==> forall i :: 0 <= i < |lines| ==> ParseLine(lines[i]).Some?
  {
    match ParseAll(lines)
    case None => None
    case Some(vs) => Some(SumNextReversed(vs))
  }

  /** Reversing each line and extrapolating forwards extrapolates every
      line backwards. */
  lemma {:induction false} BackwardSum(vs: seq<seq<int>>)
    ensures SumNextReversed(vs) == SumPrev(vs)
  {
    if vs != [] {
      NextOfReverseIsPrev(vs[0]);
      BackwardSum(vs[1..]);
    }
  }

  /** `day9b` extrapolates every line backwards. */
  lemma Day9BIsBackward(lines: seq<string>)
    ensures Day9B(lines).Some? ==> Day9B(lines).value == SumPrev(ParseAll(lines).value)
  {
    if ParseAll(lines).Some? {
      BackwardSum(ParseAll(lines).value);
    }
  }

  /** The values the doctests give for `compute_next`. */
  lemma DoctestNextLinear()
    ensures ComputeNext([0, 3, 6, 9, 12, 15]) == 18
  {
    ArithmeticIsExact([0, 3, 6, 9, 12, 15], 0, 3);
  }

  lemma DoctestNextQuadratic()
    ensures ComputeNext([1, 3, 6, 10, 15, 21]) == 28
  {
    SecondSampleDiffs();
    Level([1, 3, 6, 10, 15, 21], [2, 3, 4, 5, 6], 0);
  }

  lemma SecondSampleDiffs()
    ensures ComputeNext([2, 3, 4, 5, 6]) == 7
  {
    ArithmeticIsExact([2, 3, 4, 5, 6], 2, 1);
  }

  lemma ThirdSampleDiffs()
    ensures ComputeNext([3, 3, 5, 9, 15]) == 23
  {
    ArithmeticIsExact([0, 2, 4, 6], 0, 2);
    Level([3, 3, 5, 9, 15], [0, 2, 4, 6], 0);
  }

  lemma ThirdSampleNext()
    ensures ComputeNext([10, 13, 16, 21, 30, 45]) == 68
  {
    ThirdSampleDiffs();
    Level([10, 13, 16, 21, 30, 45], [3, 3, 5, 9, 15], 0);
  }

  /** The sample puzzle's part-one answer, 114, from its three lines. */
  lemma SampleA()
    ensures ComputeNext([0, 3, 6, 9, 12, 15]) + ComputeNext([1, 3, 6, 10, 15, 21])
            + ComputeNext([10, 13, 16, 21, 30, 45]) == 114
  {
    DoctestNextLinear();
    DoctestNextQuadratic();
    ThirdSampleNext();
  }

  lemma FirstSamplePrev()
    ensures ComputePrev([0, 3, 6, 9, 12, 15]) == -3
  {
    PrevConstant([3, 3, 3, 3, 3], 0);
    PrevLevel([0, 3, 6, 9, 12, 15], [3, 3, 3, 3, 3], 1);
  }

  lemma SecondSamplePrev()
    ensures ComputePrev([1, 3, 6, 10, 15, 21]) == 0
  {
    PrevConstant([1, 1, 1, 1], 0);
    PrevLevel([2, 3, 4, 5, 6], [1, 1, 1, 1], 0);
    PrevLevel([1, 3, 6, 10, 15, 21], [2, 3, 4, 5, 6], 0);
  }

  lemma ThirdSampleDiffsPrev()
    ensures ComputePrev([3, 3, 5, 9, 15]) == 5
  {
    PrevConstant([2, 2, 2], 0);
    PrevLevel([0, 2, 4, 6], [2, 2, 2], 1);
    PrevLevel([3, 3, 5, 9, 15], [0, 2, 4, 6], 0);
  }

  /** The sample puzzle's part-two answer, 2: the backward values are -3, 0 and 5. */
  lemma SampleB()
    ensures ComputePrev([0, 3, 6, 9, 12, 15]) + ComputePrev([1, 3, 6, 10, 15, 21])
            + ComputePrev([10, 13, 16, 21, 30, 45]) == 2
  {
    FirstSamplePrev();
    SecondSamplePrev();
    PrevLevel([10, 13, 16, 21, 30, 45], [3, 3, 5, 9, 15], 0);
    ThirdSampleDiffsPrev();
  }

  /** One step of `compute_next` on a sequence that is not all zero. */
  lemma Level(s: seq<int>, d: seq<int>, w: nat)
    requires 0 <= w < |s| && s[w] != 0
    requires |d| == |s| - 1 && forall i :: 0 <= i < |d| ==> d[i] == s[i + 1] - s[i]
    ensures ComputeNext(s) == s[|s| - 1] + ComputeNext(d)
  {
    var ds := Diffs(s);
    forall i | 0 <= i < |d| ensures ds[i] == d[i] {
    }
    assert ds == d;
  }

  /** One step of the backward extrapolation on a sequence that is not all zero. */
  lemma PrevLevel(s: seq<int>, d: seq<int>, w: nat)
    requires 0 <= w < |s| && s[w] != 0
    requires |d| == |s| - 1 && forall i :: 0 <= i < |d| ==> d[i] == s[i + 1] - s[i]
    ensures ComputePrev(s) == s[0] - ComputePrev(d)
  {
    assert Diffs(s) == d;
  }

  /** A non-zero constant sequence extrapolates backwards to its value. */
  lemma PrevConstant(s: seq<int>, w: nat)
    requires 0 <= w < |s| && s[w] != 0
    requires forall i :: 0 <= i < |s| ==> s[i] == s[0]
    ensures ComputePrev(s) == s[0]
  {
    assert AllZero(Diffs(s));
  }
}
