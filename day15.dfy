/** Lens library (aoc23/day15.py): the HASH function and a 256-bucket hash
    map whose buckets are ordered lists of (lbl, focal length) pairs. */
module Day15 {
  import opened Common

  type Lens = (string, nat)

  /** The HASH fold over a string: `v := (v + ord(c)) * 17 mod 256` for each
      character, starting from 0. */
  function HashSpec(s: string): (v: nat)
    ensures v < 256
  {
    if s == [] then 0 else (HashSpec(s[..|s| - 1]) + s[|s| - 1] as int) * 17 % 256
  }

  /** `hash`: the character loop. */
  method Hash(s: string) returns (v: nat)
    ensures v == HashSpec(s)
  {
    v := 0;
    var i := 0;
    while i < |s|
      invariant 0 <= i <= |s|
      invariant v == HashSpec(s[..i])
    {
      assert s[..i + 1][..i] == s[..i];
      v := v + s[i] as int;
      v := v * 17;
      v := v % 256;
      i := i + 1;
    }
    assert s[..|s|] == s;
  }

  /** Hashing a longer string continues the fold from the hash of its prefix. */
  lemma {:induction false} HashAppend(s: string, t: string)
    ensures HashSpec(s + t) == HashFrom(HashSpec(s), t)
    decreases |t|
  {
    if t == [] {
      assert s + t == s;
    } else {
      assert (s + t)[..|s + t| - 1] == s + t[..|t| - 1];
      HashAppend(s, t[..|t| - 1]);
    }
  }

  /** The fold started from an arbitrary value. */
  function HashFrom(v: nat, t: string): nat
  {
    if t == [] then v else (HashFrom(v, t[..|t| - 1]) + t[|t| - 1] as int) * 17 % 256
  }

  /** The documented example. */
  lemma HashExample()
    ensures HashSpec("HASH") == 52
  {
    assert "H"[..0] == "";
    assert HashSpec("H") == 200;
    assert "HA"[..1] == "H";
    assert HashSpec("HA") == 153;
    assert "HAS"[..2] == "HA";
    assert HashSpec("HAS") == 172;
    assert "HASH"[..3] == "HAS";
  }

  datatype Op = Remove(key: string) | Put(key: string, focal: nat)

  /** `op_re.match(step)`: the shortest label of at least one character that
      is followed by '-' or by '=' and a digit; the focal length is the whole
      digit run. None stands for the failed match. */
  function Parse(step: string): (r: Option<Op>)
    ensures r.Some? ==> 1 <= |r.value.key| < |step| && r.value.key == step[..|r.value.key|]
  {
    if step == [] then None else ParseFrom(step, 1)
  }

  /** The match attempt with label `step[..k]`; `.` does not match a line break. */
  function ParseFrom(step: string, k: nat): (r: Option<Op>)
    requires 1 <= k <= |step|
    ensures r.Some? ==> k <= |r.value.key| < |step| && r.value.key == step[..|r.value.key|]
    decreases |step| - k
  {
    if step[k - 1] == '\n' || k == |step| then None
    else if step[k] == '-' then Some(Remove(step[..k]))
    else if step[k] == '=' && k + 1 < |step| && IsDigit(step[k + 1]) then
      Some(Put(step[..k], DigitsValue(step[k + 1..DigitRunEnd(step, k + 1)])))
    else ParseFrom(step, k + 1)
  }

  /** A label free of '-', '=' and line breaks is read back exactly. */
  predicate PlainLabel(lbl: string)
  {
    |lbl| >= 1 && forall i :: 0 <= i < |lbl| ==> lbl[i] != '-' && lbl[i] != '=' && lbl[i] != '\n'
  }

  lemma {:induction false} ParseFromPlain(lbl: string, rest: string, k: nat)
    requires PlainLabel(lbl) && 1 <= k <= |lbl| && |rest| >= 1
    requires rest[0] == '-' || (rest[0] == '=' && |rest| >= 2 && IsDigit(rest[1]))
    ensures ParseFrom(lbl + rest, k) == ParseFrom(lbl + rest, |lbl|)
    decreases |lbl| - k
  {
    if k < |lbl| {
      ParseFromPlain(lbl, rest, k + 1);
    }
  }

  /** Writing a removal and reading it back gives the same operation. */
  lemma ParseRemoveRoundTrip(lbl: string)
    requires PlainLabel(lbl)
    ensures Parse(lbl + "-") == Some(Remove(lbl))
  {
    ParseFromPlain(lbl, "-", 1);
    assert (lbl + "-")[..|lbl|] == lbl;
  }

  /** Writing an assignment with a decimal focal length and reading it back
      gives the same operation. */
  lemma ParsePutRoundTrip(lbl: string, digits: string)
    requires PlainLabel(lbl) && |digits| >= 1 && AllDigits(digits)
    ensures Parse(lbl + "=" + digits) == Some(Put(lbl, DigitsValue(digits)))
  {
    var rest := "=" + digits;
    var s := lbl + rest;
    var n := |lbl|;
    assert lbl + "=" + digits == s;
    assert rest[0] == '=' && rest[1] == digits[0] && IsDigit(rest[1]);
    assert ParseFrom(s, 1) == ParseFrom(s, n) by {
      ParseFromPlain(lbl, rest, 1);
    }
    assert s[..n] == lbl && s[n + 1..] == digits;
    assert s[n - 1] == lbl[n - 1];
    assert s[n] == rest[0] && s[n + 1] == rest[1];
    ParseFromPutAll(s, n);
  }

  /** A label followed by '=' and nothing but digits reads as a put. */
  lemma ParseFromPutAll(s: string, n: nat)
    requires 1 <= n && n + 1 < |s| && s[n - 1] != '\n' && s[n] == '=' && IsDigit(s[n + 1])
    requires AllDigits(s[n + 1..])
    ensures ParseFrom(s, n) == Some(Put(s[..n], DigitsValue(s[n + 1..])))
  {
    DigitRunToEnd(s, n + 1);
    ParseFromPut(s, n);
    assert s[n + 1..DigitRunEnd(s, n + 1)] == s[n + 1..];
  }

  lemma ParseFromPut(s: string, n: nat)
    requires 1 <= n && n + 1 < |s| && s[n - 1] != '\n' && s[n] == '=' && IsDigit(s[n + 1])
    ensures ParseFrom(s, n) == Some(Put(s[..n], DigitsValue(s[n + 1..DigitRunEnd(s, n + 1)])))
  {
  }

  lemma {:induction false} DigitRunToEnd(s: string, i: nat)
    requires i <= |s| && AllDigits(s[i..])
    ensures DigitRunEnd(s, i) == |s|
    decreases |s| - i
  {
    if i < |s| {
      assert s[i] == s[i..][0];
      assert s[i + 1..] == s[i..][1..];
      DigitRunToEnd(s, i + 1);
    }
  }

  /** The documented examples. */
  lemma ParseExamples()
    ensures Parse("rn=1") == Some(Put("rn", 1))
    ensures Parse("qp-") == Some(Remove("qp"))
  {
    ParsePutRoundTrip("rn", "1");
    assert "rn" + "=" + "1" == "rn=1";
    ParseRemoveRoundTrip("qp");
    assert "qp" + "-" == "qp-";
  }

  /** The labels of a bucket are pairwise distinct. */
  predicate UniqueLabels(b: seq<Lens>)
  {
    forall i, j :: 0 <= i < j < |b| ==> b[i].0 != b[j].0
  }

  /** The index part of `find`: the first slot holding label k, if any. */
  function FindIndex(b: seq<Lens>, k: string): (r: Option<nat>)
    ensures r.Some? ==> r.value < |b| && b[r.value].0 == k &&
                        forall j :: 0 <= j < r.value ==> b[j].0 != k
    ensures r.None? ==> forall j :: 0 <= j < |b| ==> b[j].0 != k
  {
    if b == [] then None
    else if b[0].0 == k then Some(0)
    else match FindIndex(b[1..], k)
      case None => None
      case Some(i) => Some(i + 1)
  }

  /** `__setitem__` on one bucket: replace in place or append. */
  function PutInBucket(b: seq<Lens>, k: string, v: nat): seq<Lens>
  {
    match FindIndex(b, k)
    case None => b + [(k, v)]
    case Some(i) => b[i := (k, v)]
  }

  /** `__delitem__` on one bucket: remove the slot if present. */
  function RemoveFromBucket(b: seq<Lens>, k: string): seq<Lens>
  {
    match FindIndex(b, k)
    case None => b
    case Some(i) => b[..i] + b[i + 1..]
  }

  /** After setting k to v, looking up k finds v. */
  lemma PutThenFind(b: seq<Lens>, k: string, v: nat)
    ensures FindIndex(PutInBucket(b, k, v), k).Some?
    ensures PutInBucket(b, k, v)[FindIndex(PutInBucket(b, k, v), k).value] == (k, v)
  {
    var b' := PutInBucket(b, k, v);
    match FindIndex(b, k)
    case None =>
      assert b'[|b|].0 == k;
    case Some(i) =>
      assert b'[i].0 == k;
  }

  /** Setting an existing label keeps its slot; a new label goes to the end;
      every other slot is unchanged. */
  lemma PutPlacement(b: seq<Lens>, k: string, v: nat)
    ensures FindIndex(b, k).Some? ==>
              PutInBucket(b, k, v) == b[FindIndex(b, k).value := (k, v)]
    ensures FindIndex(b, k).None? ==> PutInBucket(b, k, v) == b + [(k, v)]
    ensures forall j :: 0 <= j < |b| && b[j].0 != k ==> PutInBucket(b, k, v)[j] == b[j]
  {
  }

  /** Setting and removing keep labels unique within a bucket. */
  lemma PutKeepsUnique(b: seq<Lens>, k: string, v: nat)
    requires UniqueLabels(b)
    ensures UniqueLabels(PutInBucket(b, k, v))
  {
  }

  lemma RemoveKeepsUnique(b: seq<Lens>, k: string)
    requires UniqueLabels(b)
    ensures UniqueLabels(RemoveFromBucket(b, k))
  {
    match FindIndex(b, k)
    case None =>
    case Some(i) =>
      var r := b[..i] + b[i + 1..];
      forall x, y | 0 <= x < y < |r| ensures r[x].0 != r[y].0 {
        var x' := if x < i then x else x + 1;
        var y' := if y < i then y else y + 1;
        assert r[x] == b[x'] && r[y] == b[y'];
      }
  }

  /** With unique labels, removing k leaves no k behind and keeps the other
      lenses in their order: it is the bucket filtered by lbl. */
  lemma {:induction false} RemoveIsFilter(b: seq<Lens>, k: string)
    requires UniqueLabels(b)
    ensures RemoveFromBucket(b, k) == Without(b, k)
  {
    if b == [] {
    } else if b[0].0 == k {
      WithoutAbsent(b[1..], k);
    } else {
      RemoveIsFilter(b[1..], k);
      RemoveConsSkip(b, k);
    }
  }

  /** Removing a label other than the first lens's works on the rest. */
  lemma RemoveConsSkip(b: seq<Lens>, k: string)
    requires b != [] && b[0].0 != k
    ensures RemoveFromBucket(b, k) == [b[0]] + RemoveFromBucket(b[1..], k)
  {
    var r := FindIndex(b[1..], k);
    assert FindIndex(b, k) == if r.None? then None else Some(r.value + 1);
    if r.Some? {
      var i := r.value;
      calc {
        RemoveFromBucket(b, k);
        b[..i + 1] + b[i + 2..];
        { assert b[..i + 1] == [b[0]] + b[1..][..i]; assert b[i + 2..] == b[1..][i + 1..]; }
        [b[0]] + (b[1..][..i] + b[1..][i + 1..]);
      }
    }
  }

  /** The bucket with every lens labelled k dropped. */
  function Without(b: seq<Lens>, k: string): (r: seq<Lens>)
    ensures forall j :: 0 <= j < |r| ==> r[j].0 != k
    ensures |r| <= |b|
  {
    if b == [] then [] else (if b[0].0 == k then [] else [b[0]]) + Without(b[1..], k)
  }

  lemma {:induction false} WithoutAbsent(b: seq<Lens>, k: string)
    requires forall j :: 0 <= j < |b| ==> b[j].0 != k
    ensures Without(b, k) == b
  {
    if b != [] {
      WithoutAbsent(b[1..], k);
    }
  }

  lemma {:induction false} WithoutAppend(a: seq<Lens>, b: seq<Lens>, k: string)
    ensures Without(a + b, k) == Without(a, k) + Without(b, k)
  {
    if a != [] {
      assert (a + b)[1..] == a[1..] + b;
      WithoutAppend(a[1..], b, k);
    } else {
      assert a + b == b;
    }
  }

  /** A table of 256 buckets, as a value. */
  type Table = seq<seq<Lens>>

  const EmptyTable: Table := seq(256, _ => [])

  /** Every lens sits in the bucket of its lbl's hash, and no label repeats there. */
  predicate WellFormed(t: Table)
  {
    |t| == 256 &&
    (forall h, i :: 0 <= h < 256 && 0 <= i < |t[h]| ==> HashSpec(t[h][i].0) == h) &&
    (forall h :: 0 <= h < 256 ==> UniqueLabels(t[h]))
  }

  /** One step of `day15b` on the table value. */
  function Apply(t: Table, op: Op): (r: Table)
    requires |t| == 256
    ensures |r| == 256
  {
    var h := HashSpec(op.key);
    match op
    case Remove(k) => t[h := RemoveFromBucket(t[h], k)]
    case Put(k, v) => t[h := PutInBucket(t[h], k, v)]
  }

  /** Every operation keeps the table well formed, so each label occurs at
      most once across the whole table. */
  lemma ApplyKeepsWellFormed(t: Table, op: Op)
    requires WellFormed(t)
    ensures WellFormed(Apply(t, op))
  {
    var h := HashSpec(op.key);
    match op
    case Remove(k) =>
      RemoveKeepsUnique(t[h], k);
      var r := RemoveFromBucket(t[h], k);
      forall i | 0 <= i < |r| ensures HashSpec(r[i].0) == h {
        match FindIndex(t[h], k)
        case None =>
        case Some(x) =>
          assert r[i] == if i < x then t[h][i] else t[h][i + 1];
      }
    case Put(k, v) =>
      PutKeepsUnique(t[h], k, v);
  }

  lemma WellFormedLabelsUnique(t: Table, h1: nat, i1: nat, h2: nat, i2: nat)
    requires WellFormed(t)
    requires h1 < 256 && i1 < |t[h1]| && h2 < 256 && i2 < |t[h2]|
    requires (h1, i1) != (h2, i2)
    ensures t[h1][i1].0 != t[h2][i2].0
  {
    if h1 == h2 {
      if i1 > i2 {
        assert t[h1][i2].0 != t[h1][i1].0;
      }
    }
  }

  function ApplyAll(t: Table, ops: seq<Op>): (r: Table)
    requires |t| == 256
    ensures |r| == 256
  {
    if ops == [] then t else Apply(ApplyAll(t, ops[..|ops| - 1]), ops[|ops| - 1])
  }

  /** The focusing power of one bucket, numbered h from 0: the sum of
      (h + 1) * (slot + 1) * focal length over its first n slots. */
  function BucketPower(h: nat, b: seq<Lens>, n: nat): nat
    requires n <= |b|
  {
    if n == 0 then 0 else BucketPower(h, b, n - 1) + SlotPower(h, n, b[n - 1].1)
  }

  /** The power of one lens: box number times slot number times focal
      length, both numbers counted from 1. */
  function SlotPower(h: nat, slot: nat, focal: nat): nat
    requires slot >= 1
  {
    MulNonNeg(slot, focal);
    MulNonNeg(h + 1, slot * focal);
    (h + 1) * (slot * focal)
  }

  /** The focusing power of the first n buckets. */
  function TablePower(t: Table, n: nat): nat
    requires n <= |t|
  {
    if n == 0 then 0 else TablePower(t, n - 1) + BucketPower(n - 1, t[n - 1], |t[n - 1]|)
  }

  /** Reading every step; any step that does not parse makes `day15b` fail. */
  function ParseAll(steps: seq<string>): (r: Option<seq<Op>>)
    ensures r.Some? ==> |r.value| == |steps|
  {
    if steps == [] then Some([])
    else match (ParseAll(steps[..|steps| - 1]), Parse(steps[|steps| - 1]))
      case (Some(ops), Some(op)) => Some(ops + [op])
      case _ => None
  }

  class HashMap {
    var store: array<seq<Lens>>

    ghost predicate Valid()
      reads this, store
    {
      store.Length == 256 && WellFormed(store[..])
    }

    constructor ()
      ensures Valid() && fresh(store)
      ensures store[..] == EmptyTable
    {
      store := new seq<Lens>[256](_ => []);
    }

    /** `find`: the bucket that label k hashes to and k's slot in it. */
    method Find(k: string) returns (h: nat, index: Option<nat>)
      requires Valid()
      ensures h == HashSpec(k) && h < 256
      ensures index == FindIndex(store[h], k)
    {
      h := Hash(k);
      var b := store[h];
      var n := 0;
      while n < |b| && b[n].0 != k
        invariant 0 <= n <= |b|
        invariant forall j :: 0 <= j < n ==> b[j].0 != k
      {
        n := n + 1;
      }
      index := if n < |b| then Some(n) else None;
    }

    /** `__setitem__`. */
    method Set(k: string, v: nat)
      requires Valid()
      modifies store
      ensures Valid()
      ensures store[..] == Apply(old(store[..]), Put(k, v))
    {
      var h, i := Find(k);
      var b := store[h];
      ghost var t := store[..];
      PutKeepsUnique(b, k, v);
      ApplyKeepsWellFormed(t, Put(k, v));
      match i {
        case None => store[h] := b + [(k, v)];
        case Some(x) => store[h] := b[x := (k, v)];
      }
      assert store[..] == t[h := PutInBucket(t[h], k, v)];
    }

    /** `__delitem__`: a missing label is left alone. */
    method Delete(k: string)
      requires Valid()
      modifies store
      ensures Valid()
      ensures store[..] == Apply(old(store[..]), Remove(k))
    {
      var h, i := Find(k);
      ghost var t := store[..];
      ApplyKeepsWellFormed(t, Remove(k));
      match i {
        case None =>
        case Some(x) =>
          var b := store[h];
          store[h] := b[..x] + b[x + 1..];
      }
      assert store[..] == t[h := RemoveFromBucket(t[h], k)];
    }

    /** `power`: the nested loop over buckets and slots. */
    method Power() returns (n: nat)
      requires Valid()
      ensures n == TablePower(store[..], 256)
    {
      ghost var t := store[..];
      n := 0;
      var i := 0;
      while i < 256
        invariant 0 <= i <= 256
        invariant n == TablePower(t, i)
      {
        var b := store[i];
        assert b == t[i];
        var j := 0;
        var m := n;
        while j < |b|
          invariant 0 <= j <= |b|
          invariant n == m + BucketPower(i, b, j)
        {
          n := n + SlotPower(i, j + 1, b[j].1);
          j := j + 1;
        }
        i := i + 1;
      }
    }
  }

  /** `day15a`: the sum of the hashes of the steps. */
  function Day15A(steps: seq<string>): (r: nat)
    ensures r <= 255 * |steps|
    ensures |steps| == 1 ==> r == HashSpec(steps[0])
  {
    if steps == [] then 0 else Day15A(steps[..|steps| - 1]) + HashSpec(steps[|steps| - 1])
  }

  /** `day15b`: apply each step to a fresh map and report its power. */
  method Day15B(steps: seq<string>) returns (r: Option<nat>)
    ensures ParseAll(steps).None? ==> r.None?
    ensures ParseAll(steps).Some? ==>
              r == Some(TablePower(ApplyAll(EmptyTable, ParseAll(steps).value), 256))
  {
    var m := new HashMap();
    var i := 0;
    ghost var ops: seq<Op> := [];
    while i < |steps|
      invariant 0 <= i <= |steps|
      invariant m.Valid()
      invariant ParseAll(steps[..i]) == Some(ops)
      invariant m.store[..] == ApplyAll(EmptyTable, ops)
      modifies m.store
      decreases |steps| - i
    {
      assert steps[..i + 1][..i] == steps[..i];
      var op := Parse(steps[i]);
      if op.None? {
        assert ParseAll(steps[..i + 1]).None?;
        ParseAllPrefixFails(steps, i + 1);
        return None;
      }
      match op.value {
        case Remove(k) => m.Delete(k);
        case Put(k, v) => m.Set(k, v);
      }
      ghost var prev := ops;
      ops := ops + [op.value];
      assert ops[..|ops| - 1] == prev;
      i := i + 1;
    }
    assert steps[..|steps|] == steps;
    var p := m.Power();
    return Some(p);
  }

  /** A step that fails to parse makes every longer run fail. */
  lemma {:induction false} ParseAllPrefixFails(steps: seq<string>, n: nat)
    requires n <= |steps| && ParseAll(steps[..n]).None?
    ensures ParseAll(steps).None?
    decreases |steps| - n
  {
    if n < |steps| {
      assert steps[..n + 1][..n] == steps[..n];
      ParseAllPrefixFails(steps, n + 1);
    } else {
      assert steps[..n] == steps;
    }
  }

  /** The sample steps. */
  const SampleSteps: seq<string> := ["rn=1", "cm-", "qp=3", "cm=2", "qp-", "pc=4", "ot=9", "ab=5", "pc-", "pc=6", "ot=7"]

  lemma SampleHash0()
    ensures HashSpec("rn=1") == 30
  {
    assert "r"[..0] == "";
    assert HashSpec("r") == 146;
    assert "rn"[..1] == "r";
    assert HashSpec("rn") == 0;
    assert "rn="[..2] == "rn";
    assert HashSpec("rn=") == 13;
    assert "rn=1"[..3] == "rn=";
  }

  lemma SampleHash1()
    ensures HashSpec("cm-") == 253
  {
    assert "c"[..0] == "";
    assert HashSpec("c") == 147;
    assert "cm"[..1] == "c";
    assert HashSpec("cm") == 0;
    assert "cm-"[..2] == "cm";
  }

  lemma SampleHash2()
    ensures HashSpec("qp=3") == 97
  {
    assert "q"[..0] == "";
    assert HashSpec("q") == 129;
    assert "qp"[..1] == "q";
    assert HashSpec("qp") == 1;
    assert "qp="[..2] == "qp";
    assert HashSpec("qp=") == 30;
    assert "qp=3"[..3] == "qp=";
  }

  lemma SampleHash3()
    ensures HashSpec("cm=2") == 47
  {
    assert "c"[..0] == "";
    assert HashSpec("c") == 147;
    assert "cm"[..1] == "c";
    assert HashSpec("cm") == 0;
    assert "cm="[..2] == "cm";
    assert HashSpec("cm=") == 13;
    assert "cm=2"[..3] == "cm=";
  }

  lemma SampleHash4()
    ensures HashSpec("qp-") == 14
  {
    assert "q"[..0] == "";
    assert HashSpec("q") == 129;
    assert "qp"[..1] == "q";
    assert HashSpec("qp") == 1;
    assert "qp-"[..2] == "qp";
  }

  lemma SampleHash5()
    ensures HashSpec("pc=4") == 180
  {
    assert "p"[..0] == "";
    assert HashSpec("p") == 112;
    assert "pc"[..1] == "p";
    assert HashSpec("pc") == 3;
    assert "pc="[..2] == "pc";
    assert HashSpec("pc=") == 64;
    assert "pc=4"[..3] == "pc=";
  }

  lemma SampleHash6()
    ensures HashSpec("ot=9") == 9
  {
    assert "o"[..0] == "";
    assert HashSpec("o") == 95;
    assert "ot"[..1] == "o";
    assert HashSpec("ot") == 3;
    assert "ot="[..2] == "ot";
    assert HashSpec("ot=") == 64;
    assert "ot=9"[..3] == "ot=";
  }

  lemma SampleHash7()
    ensures HashSpec("ab=5") == 197
  {
    assert "a"[..0] == "";
    assert HashSpec("a") == 113;
    assert "ab"[..1] == "a";
    assert HashSpec("ab") == 3;
    assert "ab="[..2] == "ab";
    assert HashSpec("ab=") == 64;
    assert "ab=5"[..3] == "ab=";
  }

  lemma SampleHash8()
    ensures HashSpec("pc-") == 48
  {
    assert "p"[..0] == "";
    assert HashSpec("p") == 112;
    assert "pc"[..1] == "p";
    assert HashSpec("pc") == 3;
    assert "pc-"[..2] == "pc";
  }

  lemma SampleHash9()
    ensures HashSpec("pc=6") == 214
  {
    assert "p"[..0] == "";
    assert HashSpec("p") == 112;
    assert "pc"[..1] == "p";
    assert HashSpec("pc") == 3;
    assert "pc="[..2] == "pc";
    assert HashSpec("pc=") == 64;
    assert "pc=6"[..3] == "pc=";
  }

  lemma SampleHash10()
    ensures HashSpec("ot=7") == 231
  {
    assert "o"[..0] == "";
    assert HashSpec("o") == 95;
    assert "ot"[..1] == "o";
    assert HashSpec("ot") == 3;
    assert "ot="[..2] == "ot";
    assert HashSpec("ot=") == 64;
    assert "ot=7"[..3] == "ot=";
  }

  lemma Day15ASnoc(steps: seq<string>, x: string)
    ensures Day15A(steps + [x]) == Day15A(steps) + HashSpec(x)
  {
    assert (steps + [x])[..|steps|] == steps;
  }

  /** The documented part-one answer on the sample steps. */
  lemma SampleA()
    ensures Day15A(SampleSteps) == 1320
  {
    SampleHash0();
    Day15ASnoc([], "rn=1");
    assert [] + ["rn=1"] == ["rn=1"];
    SampleHash1();
    Day15ASnoc(["rn=1"], "cm-");
    assert ["rn=1"] + ["cm-"] == ["rn=1", "cm-"];
    SampleHash2();
    Day15ASnoc(["rn=1", "cm-"], "qp=3");
    assert ["rn=1", "cm-"] + ["qp=3"] == ["rn=1", "cm-", "qp=3"];
    SampleHash3();
    Day15ASnoc(["rn=1", "cm-", "qp=3"], "cm=2");
    assert ["rn=1", "cm-", "qp=3"] + ["cm=2"] == ["rn=1", "cm-", "qp=3", "cm=2"];
    SampleHash4();
    Day15ASnoc(["rn=1", "cm-", "qp=3", "cm=2"], "qp-");
    assert ["rn=1", "cm-", "qp=3", "cm=2"] + ["qp-"] == ["rn=1", "cm-", "qp=3", "cm=2", "qp-"];
    SampleHash5();
    Day15ASnoc(["rn=1", "cm-", "qp=3", "cm=2", "qp-"], "pc=4");
    assert ["rn=1", "cm-", "qp=3", "cm=2", "qp-"] + ["pc=4"] == ["rn=1", "cm-", "qp=3", "cm=2", "qp-", "pc=4"];
    SampleHash6();
    Day15ASnoc(["rn=1", "cm-", "qp=3", "cm=2", "qp-", "pc=4"], "ot=9");
    assert ["rn=1", "cm-", "qp=3", "cm=2", "qp-", "pc=4"] + ["ot=9"] == ["rn=1", "cm-", "qp=3", "cm=2", "qp-", "pc=4", "ot=9"];
    SampleHash7();
    Day15ASnoc(["rn=1", "cm-", "qp=3", "cm=2", "qp-", "pc=4", "ot=9"], "ab=5");
    assert ["rn=1", "cm-", "qp=3", "cm=2", "qp-", "pc=4", "ot=9"] + ["ab=5"] == ["rn=1", "cm-", "qp=3", "cm=2", "qp-", "pc=4", "ot=9", "ab=5"];
    SampleHash8();
    Day15ASnoc(["rn=1", "cm-", "qp=3", "cm=2", "qp-", "pc=4", "ot=9", "ab=5"], "pc-");
    assert ["rn=1", "cm-", "qp=3", "cm=2", "qp-", "pc=4", "ot=9", "ab=5"] + ["pc-"] == ["rn=1", "cm-", "qp=3", "cm=2", "qp-", "pc=4", "ot=9", "ab=5", "pc-"];
    SampleHash9();
    Day15ASnoc(["rn=1", "cm-", "qp=3", "cm=2", "qp-", "pc=4", "ot=9", "ab=5", "pc-"], "pc=6");
    assert ["rn=1", "cm-", "qp=3", "cm=2", "qp-", "pc=4", "ot=9", "ab=5", "pc-"] + ["pc=6"] == ["rn=1", "cm-", "qp=3", "cm=2", "qp-", "pc=4", "ot=9", "ab=5", "pc-", "pc=6"];
    SampleHash10();
    Day15ASnoc(["rn=1", "cm-", "qp=3", "cm=2", "qp-", "pc=4", "ot=9", "ab=5", "pc-", "pc=6"], "ot=7");
    assert ["rn=1", "cm-", "qp=3", "cm=2", "qp-", "pc=4", "ot=9", "ab=5", "pc-", "pc=6"] + ["ot=7"] == ["rn=1", "cm-", "qp=3", "cm=2", "qp-", "pc=4", "ot=9", "ab=5", "pc-", "pc=6", "ot=7"];
  }
}
