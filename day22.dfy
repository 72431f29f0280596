/** Sand slabs (aoc23/day22.py): bricks given by two corner positions, the
    settling of the bricks onto those below them, and the support graph that
    tells which bricks fall when one is disintegrated. */
module Day22 {
  import opened Common

  datatype Pos = Pos(x: int, y: int, z: int)

  /** `Brick`: an id and two corners. */
  datatype Brick = Brick(id: int, start: Pos, end: Pos)
  {
    function MinZ(): int { Min(start.z, end.z) }
    function MaxZ(): int { Max(start.z, end.z) }
    function Height(): int { MaxZ() - MinZ() + 1 }
  }

  /** A brick spans at least one layer, and it lies in layer z exactly for
      the `Height()` layers from `MinZ()` up. */
  lemma BrickSpan(b: Brick, z: int)
    ensures b.MinZ() <= b.MaxZ() && b.Height() >= 1
    ensures InLayer(b, z) <==> b.MinZ() <= z < b.MinZ() + b.Height()
  {
  }

  /** `Brick.in_layer`. */
  predicate InLayer(b: Brick, z: int)
  {
    b.MinZ() <= z <= b.MaxZ()
  }

  /** `Brick.xy_intersects`, as written: on each axis, one brick's low end
      lies within the other's extent. */
  predicate XYIntersects(b: Brick, other: Brick)
  {
    var oL, oR := Min(other.start.x, other.end.x), Max(other.start.x, other.end.x);
    var sL, sR := Min(b.start.x, b.end.x), Max(b.start.x, b.end.x);
    var oU, oD := Min(other.start.y, other.end.y), Max(other.start.y, other.end.y);
    var sU, sD := Min(b.start.y, b.end.y), Max(b.start.y, b.end.y);
    ((oL <= sL <= oR) || (sL <= oL <= sR)) && ((oU <= sU <= oD) || (sU <= oU <= sD))
  }

  /** The footprints share a cell: some (x, y) lies within both bricks. */
  predicate SharesCell(b: Brick, other: Brick)
  {
    Max(Min(b.start.x, b.end.x), Min(other.start.x, other.end.x)) <= Min(Max(b.start.x, b.end.x), Max(other.start.x, other.end.x))
    && Max(Min(b.start.y, b.end.y), Min(other.start.y, other.end.y)) <= Min(Max(b.start.y, b.end.y), Max(other.start.y, other.end.y))
  }

  /** `xy_intersects` holds exactly when the footprints share a cell, so it
      is symmetric. */
  lemma XYIntersectsShares(b: Brick, other: Brick)
    ensures XYIntersects(b, other) <==> SharesCell(b, other)
    ensures XYIntersects(b, other) <==> XYIntersects(other, b)
  {
  }

  /** `Brick.to_layer`: both corners drop by the same amount so that the
      brick's lowest layer becomes z. */
  function ToLayer(b: Brick, z: int): (r: Brick)
    ensures r.MinZ() == z && r.Height() == b.Height()
    ensures Shifted(b, r)
  {
    var drop := b.MinZ() - z;
    Brick(b.id, Pos(b.start.x, b.start.y, b.start.z - drop), Pos(b.end.x, b.end.y, b.end.z - drop))
  }

  /** r is b moved vertically: same id, same x and y, both corners moved
      by the same amount. */
  predicate Shifted(b: Brick, r: Brick)
  {
    r.id == b.id && r.start.x == b.start.x && r.start.y == b.start.y
    && r.end.x == b.end.x && r.end.y == b.end.y
    && r.start.z - b.start.z == r.end.z - b.end.z
  }

  /** `Brick.parse`: `x,y,z~x,y,z` after stripping the line; None where the
      unpacking or `int` raises. */
  function Parse(i: int, line: string): (r: Option<Brick>)
    ensures r.Some? <==> |Split(Strip(line), '~')| == 2 && ParsePos(Split(Strip(line), '~')[0]).Some? &&
                         ParsePos(Split(Strip(line), '~')[1]).Some?
    ensures r.Some? ==> r.value.id == i && |Split(Strip(line), '~')| == 2
    ensures r.Some? ==> Some(r.value.start) == ParsePos(Split(Strip(line), '~')[0])
    ensures r.Some? ==> Some(r.value.end) == ParsePos(Split(Strip(line), '~')[1])
  {
    var halves := Split(Strip(line), '~');
    if |halves| != 2 then None
    else
      var s, e := ParsePos(halves[0]), ParsePos(halves[1]);
      if s.Some? && e.Some? then Some(Brick(i, s.value, e.value)) else None
  }

  /** Three comma-separated integers. */
  function ParsePos(s: string): (r: Option<Pos>)
    ensures r.Some? <==> |Split(s, ',')| == 3 && forall j :: 0 <= j < 3 ==> ParseInt(Split(s, ',')[j]).Some?
    ensures r.Some? ==> |Split(s, ',')| == 3
    ensures r.Some? ==> ParseInt(Split(s, ',')[0]) == Some(r.value.x)
    ensures r.Some? ==> ParseInt(Split(s, ',')[1]) == Some(r.value.y)
    ensures r.Some? ==> ParseInt(Split(s, ',')[2]) == Some(r.value.z)
  {
    ParseIntsEach(Split(s, ','));
    match ParseInts(Split(s, ','))
    case Some(vs) => if |vs| == 3 then Some(Pos(vs[0], vs[1], vs[2])) else None
    case None => None
  }

  /** A corner as a snapshot line writes it: `1,0,1`. */
  function PosText(p: Pos): string
  {
    Join(IntTexts([p.x, p.y, p.z]), ',')
  }

  /** A brick as a snapshot line writes it: `1,0,1~1,2,1`. */
  function BrickText(b: Brick): string
  {
    PosText(b.start) + "~" + PosText(b.end)
  }

  /** A written corner holds no '~' and no whitespace, starts with a digit
      or '-', ends with a digit, and reads back as itself. */
  lemma PosTextRead(p: Pos)
    ensures var t := PosText(p);
            t != [] && '~' !in t && (forall j :: 0 <= j < |t| ==> !IsSpace(t[j])) && ParsePos(t) == Some(p)
  {
    var ts := IntTexts([p.x, p.y, p.z]);
    forall i, ch | 0 <= i < 3 && ch in {' ', '\t', '\n', '\r', ',', '~'}
      ensures ch !in ts[i]
    {
      IntTextChars([p.x, p.y, p.z][i], ch);
    }
    JoinAvoids(ts, ',', '~');
    JoinAvoids(ts, ',', ' ');
    JoinAvoids(ts, ',', '\t');
    JoinAvoids(ts, ',', '\n');
    JoinAvoids(ts, ',', '\r');
    SplitJoin(ts, ',');
    ParseIntsWritten([p.x, p.y, p.z]);
  }

  /** A written brick, given its id, reads back as that brick. */
  lemma ParseWritten(b: Brick)
    ensures Parse(b.id, BrickText(b)) == Some(b)
  {
    PosTextRead(b.start);
    PosTextRead(b.end);
    BrickAt(BrickText(b), PosText(b.start), PosText(b.end));
  }

  lemma BrickAt(line: string, a: string, e: string)
    requires line == a + "~" + e && a != [] && e != []
    requires '~' !in a && '~' !in e
    requires (forall j :: 0 <= j < |a| ==> !IsSpace(a[j])) && forall j :: 0 <= j < |e| ==> !IsSpace(e[j])
    ensures Strip(line) == line && Split(line, '~') == [a, e]
  {
    assert line[0] == a[0] && line[|line| - 1] == e[|e| - 1];
    StripKeeps(line);
    assert Join([a, e], '~') == line by {
      assert [a, e][1..] == [e];
    }
    SplitJoin([a, e], '~');
  }

  // ---------------------------------------------------------------------
  // Sorting and filtering

  /** `[x for x in s if f(x)]`. */
  function Where(s: seq<Brick>, f: Brick -> bool): (r: seq<Brick>)
    ensures |r| <= |s|
    ensures forall x :: x in r <==> x in s && f(x)
  {
    if s == [] then []
    else Where(s[..|s| - 1], f) + (if f(s[|s| - 1]) then [s[|s| - 1]] else [])
  }

  predicate SortedBy<T>(s: seq<T>, key: T -> int)
  {
    forall i, j :: 0 <= i < j < |s| ==> key(s[i]) <= key(s[j])
  }

  /** `list.sort(key = key)`, as insertion from the right: x goes after every
      element whose key is not above its own. */
  function SortBy<T>(s: seq<T>, key: T -> int): (r: seq<T>)
    ensures |r| == |s|
  {
    if s == [] then [] else Insert(SortBy(s[..|s| - 1], key), s[|s| - 1], key)
  }

  function Insert<T>(t: seq<T>, x: T, key: T -> int): (r: seq<T>)
    ensures |r| == |t| + 1
  {
    if t == [] || key(t[|t| - 1]) <= key(x) then t + [x]
    else Insert(t[..|t| - 1], x, key) + [t[|t| - 1]]
  }

  lemma {:induction false} InsertPerm<T>(t: seq<T>, x: T, key: T -> int)
    ensures multiset(Insert(t, x, key)) == multiset(t) + multiset{x}
  {
    if !(t == [] || key(t[|t| - 1]) <= key(x)) {
      InsertPerm(t[..|t| - 1], x, key);
      assert t == t[..|t| - 1] + [t[|t| - 1]];
    }
  }

  lemma {:induction false} InsertSorted<T>(t: seq<T>, x: T, key: T -> int)
    requires SortedBy(t, key)
    ensures SortedBy(Insert(t, x, key), key)
  {
    if !(t == [] || key(t[|t| - 1]) <= key(x)) {
      var init, last := t[..|t| - 1], t[|t| - 1];
      InsertSorted(init, x, key);
      InsertPerm(init, x, key);
      var r := Insert(init, x, key);
      forall i | 0 <= i < |r|
        ensures key(r[i]) <= key(last)
      {
        assert r[i] in multiset(r);
        if r[i] != x {
          assert r[i] in multiset(init);
          var j :| 0 <= j < |init| && init[j] == r[i];
          assert t[j] == r[i];
        }
      }
    }
  }

  /** Sorting orders by key and keeps the elements. */
  lemma {:induction false} SortByPermSorted<T>(s: seq<T>, key: T -> int)
    ensures multiset(SortBy(s, key)) == multiset(s)
    ensures SortedBy(SortBy(s, key), key)
  {
    if s != [] {
      SortByPermSorted(s[..|s| - 1], key);
      InsertPerm(SortBy(s[..|s| - 1], key), s[|s| - 1], key);
      InsertSorted(SortBy(s[..|s| - 1], key), s[|s| - 1], key);
      assert s == s[..|s| - 1] + [s[|s| - 1]];
    }
  }

  function LowKey(b: Brick): int { b.MinZ() }

  // ---------------------------------------------------------------------
  // Settling

  /** The indices of the bricks whose lowest layer is p, in order. */
  function StartingAt(s: seq<Brick>, p: int): (r: seq<nat>)
    ensures forall j :: 0 <= j < |r| ==> r[j] < |s| && s[r[j]].MinZ() == p
    ensures forall k :: 0 <= k < |s| && s[k].MinZ() == p ==> k in r
    ensures forall i, j :: 0 <= i < j < |r| ==> r[i] < r[j]
  {
    if s == [] then []
    else
      var r := StartingAt(s[..|s| - 1], p);
      assert forall k :: 0 <= k < |s| - 1 ==> s[..|s| - 1][k] == s[k];
      r + (if s[|s| - 1].MinZ() == p then [|s| - 1] else [])
  }

  function Tops(s: seq<Brick>): (r: seq<int>)
    ensures |r| == |s| && forall j :: 0 <= j < |s| ==> r[j] == s[j].MaxZ()
  {
    seq(|s|, j requires 0 <= j < |s| => s[j].MaxZ())
  }

  /** Every brick has only moved vertically from its place in the sorted
      order, and one that has moved lies at layer 1 or above. */
  ghost predicate Condensing(sorted: seq<Brick>, cur: seq<Brick>)
  {
    |cur| == |sorted|
    && forall k :: 0 <= k < |cur| ==> Shifted(sorted[k], cur[k]) && (cur[k] == sorted[k] || cur[k].MinZ() >= 1)
  }

  /** b lies on the floor or directly on a brick of s under it. */
  ghost predicate Rests(b: Brick, s: seq<Brick>)
  {
    b.MinZ() == 1 || exists j :: 0 <= j < |s| && XYIntersects(b, s[j]) && s[j].MaxZ() == b.MinZ() - 1
  }

  /** `condense`: sort the bricks by lowest layer, then, layer by layer, let
      the bricks that start next above it drop as far as the bricks below
      allow. No brick changes its id, x or y; each moves only vertically,
      and one that moves lands at layer 1 or above. Afterwards every brick
      lying from layer 1 up to the highest layer the input reached rests on
      the floor or on a brick under it. An empty list sorts and then raises
      at `max` (false). */
  method Condense(bricks: array<Brick>) returns (ok: bool)
    modifies bricks
    ensures ok <==> bricks.Length > 0
    ensures Condensing(SortBy(old(bricks[..]), LowKey), bricks[..])
    ensures ok ==> forall j :: 0 <= j < bricks.Length && 1 <= bricks[j].MinZ() <= MaxOf(Tops(old(bricks[..]))) ==>
                     Rests(bricks[j], bricks[..])
  {
    ghost var input := bricks[..];
    var sorted := SortBy(bricks[..], LowKey);
    forall k | 0 <= k < bricks.Length {
      bricks[k] := sorted[k];
    }
    if bricks.Length == 0 {
      return false;
    }
    assert bricks[..] == sorted;
    var top := MaxOf(Tops(bricks[..]));
    SortByTop(input, top);
    var layer := 1;
    while layer <= top
      invariant 1 <= layer
      invariant Condensing(sorted, bricks[..])
      invariant RestingUpTo(bricks[..], layer, top, [])
    {
      var ceiling, p := Ceiling(bricks, layer, top);
      EnterCeiling(bricks[..], layer, top, ceiling, p);
      assert Pending(bricks[..], ceiling, p, layer);
      SettleCeiling(bricks, ceiling, layer, p, top, sorted);
      layer := layer + 1;
    }
    RestingAll(bricks[..], layer, top);
    assert input == old(bricks[..]);
    return true;
  }

  /** The inner loop of `condense`: every brick of the ceiling settles in
      turn. */
  method SettleCeiling(bricks: array<Brick>, ceiling: seq<nat>, layer: int, ghost p: int, ghost top: int,
                       ghost sorted: seq<Brick>)
    requires layer >= 1 && Condensing(sorted, bricks[..])
    requires Pending(bricks[..], ceiling, p, layer)
    requires RestingUpTo(bricks[..], layer + 1, top, ceiling)
    modifies bricks
    ensures Condensing(sorted, bricks[..])
    ensures RestingUpTo(bricks[..], layer + 1, top, [])
  {
    var c := 0;
    while c < |ceiling|
      invariant 0 <= c <= |ceiling|
      invariant Condensing(sorted, bricks[..])
      invariant Pending(bricks[..], ceiling[c..], p, layer)
      invariant RestingUpTo(bricks[..], layer + 1, top, ceiling[c..])
    {
      ghost var before := bricks[..];
      assert ceiling[c..][0] == ceiling[c] && ceiling[c..][1..] == ceiling[c + 1..];
      assert before[ceiling[c]].MinZ() == p;
      Settle(bricks, ceiling[c], layer, sorted);
      SettledCeiling(before, bricks[..], layer, top, p, ceiling[c..]);
      c := c + 1;
    }
    assert ceiling[c..] == [];
  }

  /** Every brick from layer 1 up to `hi` and no higher than `top` rests,
      except the ones still pending. */
  ghost predicate RestingUpTo(bs: seq<Brick>, hi: int, top: int, pending: seq<nat>)
  {
    forall j :: 0 <= j < |bs| && 1 <= bs[j].MinZ() <= hi && bs[j].MinZ() <= top && j !in pending ==>
      Rests(bs[j], bs)
  }

  /** The bricks of the ceiling still to settle: in increasing order, all
      starting at layer p above `layer`. */
  ghost predicate Pending(bs: seq<Brick>, pending: seq<nat>, p: int, layer: int)
  {
    (forall j :: 0 <= j < |pending| ==> pending[j] < |bs| && bs[pending[j]].MinZ() == p > layer) &&
    forall i, j :: 0 <= i < j < |pending| ==> pending[i] < pending[j]
  }

  lemma RestingAll(bs: seq<Brick>, layer: int, top: int)
    requires layer > top && RestingUpTo(bs, layer, top, [])
    ensures forall j :: 0 <= j < |bs| && 1 <= bs[j].MinZ() <= top ==> Rests(bs[j], bs)
  {
  }

  /** The bricks starting at the layer above `layer` that are not in the
      ceiling: there are none. */
  lemma EnterCeiling(bs: seq<Brick>, layer: int, top: int, ceiling: seq<nat>, p: int)
    requires RestingUpTo(bs, layer, top, [])
    requires ceiling == [] ==> forall q :: layer < q <= top ==> StartingAt(bs, q) == []
    requires ceiling != [] ==> layer < p <= top && ceiling == StartingAt(bs, p)
    requires ceiling != [] ==> forall q :: layer < q < p ==> StartingAt(bs, q) == []
    ensures RestingUpTo(bs, layer + 1, top, ceiling)
  {
    if layer + 1 <= top {
      var next := StartingAt(bs, layer + 1);
      assert forall j :: 0 <= j < |bs| && bs[j].MinZ() == layer + 1 ==> j in ceiling;
    }
  }

  /** Settling the first pending brick of the ceiling keeps the rest resting:
      it rests itself, and it started above every support below. */
  lemma SettledCeiling(s: seq<Brick>, t: seq<Brick>, layer: int, top: int, p: int, pending: seq<nat>)
    requires pending != [] && |s| == |t| && Pending(s, pending, p, layer)
    requires RestingUpTo(s, layer + 1, top, pending)
    requires Rests(t[pending[0]], t)
    requires forall j :: 0 <= j < |s| && j != pending[0] ==> t[j] == s[j]
    ensures Pending(t, pending[1..], p, layer)
    ensures RestingUpTo(t, layer + 1, top, pending[1..])
  {
    var k := pending[0];
    forall j | 0 <= j < |t| && 1 <= t[j].MinZ() <= layer + 1 && t[j].MinZ() <= top && j !in pending[1..]
      ensures Rests(t[j], t)
    {
      if j != k {
        assert j !in pending;
        RestsKept(t[j], s, t, k);
      }
    }
  }

  /** Sorting keeps the highest top. */
  lemma SortByTop(input: seq<Brick>, top: int)
    requires input != [] && top == MaxOf(Tops(SortBy(input, LowKey)))
    ensures top == MaxOf(Tops(input))
  {
    var sorted := SortBy(input, LowKey);
    SortByPermSorted(input, LowKey);
    var m := MaxOf(Tops(input));
    var i :| 0 <= i < |sorted| && sorted[i].MaxZ() == top;
    assert sorted[i] in multiset(input);
    var a :| 0 <= a < |input| && input[a] == sorted[i];
    var b :| 0 <= b < |input| && input[b].MaxZ() == m;
    assert input[b] in multiset(sorted);
    var c :| 0 <= c < |sorted| && sorted[c] == input[b];
    assert Tops(sorted)[c] <= top && Tops(input)[a] <= m;
  }

  /** A brick keeps resting when only a brick reaching its own layer or
      higher moves: that one cannot have been its support. */
  lemma RestsKept(b: Brick, s: seq<Brick>, t: seq<Brick>, k: nat)
    requires |s| == |t| && k < |s| && Rests(b, s) && s[k].MaxZ() >= b.MinZ()
    requires forall i :: 0 <= i < |s| && i != k ==> t[i] == s[i]
    ensures Rests(b, t)
  {
    if b.MinZ() != 1 {
      var i :| 0 <= i < |s| && XYIntersects(b, s[i]) && s[i].MaxZ() == b.MinZ() - 1;
      assert t[i] == s[i];
    }
  }

  /** The bricks that start at the first layer above `layer`, up to `top`,
      where any brick starts; none when there is no such layer. */
  method Ceiling(bricks: array<Brick>, layer: int, top: int) returns (ceiling: seq<nat>, ghost p: int)
    ensures forall j :: 0 <= j < |ceiling| ==> ceiling[j] < bricks.Length
    ensures ceiling == [] ==> forall q :: layer < q <= top ==> StartingAt(bricks[..], q) == []
    ensures ceiling != [] ==> layer < p <= top && ceiling == StartingAt(bricks[..], p)
    ensures ceiling != [] ==> forall q :: layer < q < p ==> StartingAt(bricks[..], q) == []
  {
    ceiling := [];
    p := layer;
    var pending := layer + 1;
    while pending <= top
      invariant ceiling == []
      invariant forall q :: layer < q < pending ==> StartingAt(bricks[..], q) == []
    {
      ceiling := StartingAt(bricks[..], pending);
      if ceiling != [] {
        p := pending;
        return;
      }
      pending := pending + 1;
    }
  }

  /** One brick of the ceiling drops: from `layer` down, it stops on top of
      the first layer holding bricks under it, or at layer 1. It ends up on
      the floor or directly on such a brick; nothing else moves. */
  method Settle(bricks: array<Brick>, k: nat, layer: int, ghost sorted: seq<Brick>)
    requires k < bricks.Length && bricks[k].MinZ() > layer >= 1 && Condensing(sorted, bricks[..])
    modifies bricks
    ensures Condensing(sorted, bricks[..])
    ensures Rests(bricks[k], bricks[..])
    ensures forall j :: 0 <= j < bricks.Length && j != k ==> bricks[j] == old(bricks[j])
  {
    var s := layer;
    while s > 0
      invariant 0 <= s <= layer && bricks[k].MinZ() > s && (s < layer ==> bricks[k].MinZ() == s + 1)
      invariant Condensing(sorted, bricks[..])
      invariant forall j :: 0 <= j < bricks.Length && j != k ==> bricks[j] == old(bricks[j])
    {
      var landed := Drop(bricks, k, s, sorted);
      if landed {
        return;
      }
      s := s - 1;
    }
  }

  /** The brick looks at layer s: when bricks there lie under it, it lands
      on the highest of them; otherwise it moves down to layer s. */
  method Drop(bricks: array<Brick>, k: nat, s: int, ghost sorted: seq<Brick>) returns (landed: bool)
    requires k < bricks.Length && bricks[k].MinZ() > s >= 1 && Condensing(sorted, bricks[..])
    modifies bricks
    ensures Condensing(sorted, bricks[..])
    ensures landed ==> Rests(bricks[k], bricks[..])
    ensures !landed ==> bricks[k].MinZ() == s
    ensures forall j :: 0 <= j < bricks.Length && j != k ==> bricks[j] == old(bricks[j])
  {
    var cb := bricks[k];
    var supports := Where(bricks[..], b => InLayer(b, s));
    var hits := Where(supports, b => XYIntersects(cb, b));
    if hits != [] {
      var blocked := MaxOf(Tops(hits));
      Lands(bricks[..], k, cb, s, hits, blocked);
      Moved(sorted, bricks[..], k, ToLayer(cb, blocked + 1));
      bricks[k] := ToLayer(cb, blocked + 1);
      return true;
    }
    Moved(sorted, bricks[..], k, ToLayer(cb, s));
    bricks[k] := ToLayer(cb, s);
    return false;
  }

  /** Moving one brick vertically to layer 1 or above keeps the bricks
      condensing. */
  lemma Moved(sorted: seq<Brick>, cur: seq<Brick>, k: nat, b: Brick)
    requires Condensing(sorted, cur) && k < |cur| && Shifted(cur[k], b) && b.MinZ() >= 1
    ensures Condensing(sorted, cur[k := b])
  {
  }

  /** The brick of `hits` with the highest top lies under the dropped
      brick, at another index. */
  lemma Lands(bs: seq<Brick>, k: nat, cb: Brick, s: int, hits: seq<Brick>, blocked: int)
    requires k < |bs| && bs[k] == cb && cb.MinZ() > s >= 1 && hits != []
    requires forall x :: x in hits <==> x in bs && InLayer(x, s) && XYIntersects(cb, x)
    requires blocked == MaxOf(Tops(hits))
    ensures blocked >= 1
    ensures exists j :: 0 <= j < |bs| && j != k && XYIntersects(cb, bs[j]) && bs[j].MaxZ() == blocked
  {
    var i :| 0 <= i < |hits| && Tops(hits)[i] == blocked;
    assert hits[i] in hits;
    var j :| 0 <= j < |bs| && bs[j] == hits[i];
    assert InLayer(hits[i], s);
  }

  // ---------------------------------------------------------------------
  // Supports

  /** The bricks of bs that reach the layer just under b and share a cell
      with it. */
  function Supporters(b: Brick, bs: seq<Brick>): (r: seq<Brick>)
    ensures forall t :: t in r <==> t in bs && InLayer(t, b.MinZ() - 1) && XYIntersects(t, b)
  {
    Where(bs, t => InLayer(t, b.MinZ() - 1) && XYIntersects(t, b))
  }

  /** The bricks of bs that reach the layer just above b and share a cell
      with it. */
  function Supported(b: Brick, bs: seq<Brick>): (r: seq<Brick>)
    ensures forall u :: u in r <==> u in bs && InLayer(u, b.MaxZ() + 1) && XYIntersects(u, b)
  {
    Where(bs, u => InLayer(u, b.MaxZ() + 1) && XYIntersects(u, b))
  }

  function NumberOfSupports(b: Brick, bs: seq<Brick>): nat
  {
    |Supporters(b, bs)|
  }

  /** No brick that b holds up has b's support as its only one (`any` over
      brick objects is true exactly when one is found). */
  predicate Unburdened(b: Brick, bs: seq<Brick>)
  {
    forall u :: u in Supported(b, bs) ==> NumberOfSupports(u, bs) != 1
  }

  /** A brick can go exactly when no brick lying just above it on a shared
      cell has a single supporter. */
  lemma UnburdenedIff(b: Brick, bs: seq<Brick>)
    ensures Unburdened(b, bs) <==>
      forall u :: u in bs && InLayer(u, b.MaxZ() + 1) && XYIntersects(u, b) ==> |Supporters(u, bs)| != 1
  {
    var above := Supported(b, bs);
    assert forall u :: u in above <==> u in bs && InLayer(u, b.MaxZ() + 1) && XYIntersects(u, b);
  }

  /** A supporter of b that is its only one makes every brick it does not
      share a cell with irrelevant: one supporter means exactly one brick
      below b on a shared cell. */
  lemma SoleSupporter(b: Brick, bs: seq<Brick>, t: Brick)
    requires NumberOfSupports(b, bs) == 1 && t in Supporters(b, bs)
    ensures forall t' :: t' in bs && InLayer(t', b.MinZ() - 1) && XYIntersects(t', b) ==> t' == t
  {
    var r := Supporters(b, bs);
    assert r == [r[0]];
    forall t' | t' in bs && InLayer(t', b.MinZ() - 1) && XYIntersects(t', b)
      ensures t' == t
    {
      assert t' in r && t in r;
    }
  }

  ghost function UnburdenedBelow(bs: seq<Brick>, k: int): set<nat>
  {
    set j: nat | j < k && j < |bs| && Unburdened(bs[j], bs)
  }

  lemma UnburdenedNext(bs: seq<Brick>, k: nat)
    requires k < |bs|
    ensures |UnburdenedBelow(bs, k + 1)| == |UnburdenedBelow(bs, k)| + (if Unburdened(bs[k], bs) then 1 else 0)
  {
    if Unburdened(bs[k], bs) {
      assert UnburdenedBelow(bs, k + 1) == UnburdenedBelow(bs, k) + {k};
    } else {
      assert UnburdenedBelow(bs, k + 1) == UnburdenedBelow(bs, k);
    }
  }

  /** `unburdened`: the number of bricks that can be taken out without
      anything falling. */
  method CountUnburdened(bs: seq<Brick>) returns (count: nat)
    ensures count == |UnburdenedBelow(bs, |bs|)|
  {
    count := 0;
    var k := 0;
    while k < |bs|
      invariant 0 <= k <= |bs| && count == |UnburdenedBelow(bs, k)|
    {
      var b := bs[k];
      var supported := Supported(b, bs);
      var supporting := exists u :: u in supported && NumberOfSupports(u, bs) == 1;
      UnburdenedNext(bs, k);
      if !supporting {
        count := count + 1;
      }
      k := k + 1;
    }
  }

  // ---------------------------------------------------------------------
  // Nodes

  /** A brick as a node: its id, and the ids of the bricks under and over
      it (the path matrix is never used and is left out; the tags live in
      the Tower). */
  datatype Node = Node(id: int, supporters: seq<int>, supporteds: seq<int>)

  function Ids(s: seq<Brick>): (r: seq<int>)
    ensures |r| == |s| && forall j :: 0 <= j < |s| ==> r[j] == s[j].id
  {
    seq(|s|, j requires 0 <= j < |s| => s[j].id)
  }

  function NodeId(n: Node): int { n.id }

  /** The node of b: the ids of the bricks of bs under it on a shared
      cell, and of those over it. */
  function NodeOf(b: Brick, bs: seq<Brick>): (r: Node)
    ensures r.id == b.id
  {
    Node(b.id, Ids(Supporters(b, bs)), Ids(Supported(b, bs)))
  }

  lemma IdsMembers(s: seq<Brick>)
    ensures forall t :: t in s ==> t.id in Ids(s)
    ensures forall x :: x in Ids(s) ==> exists t :: t in s && t.id == x
  {
    forall t | t in s
      ensures t.id in Ids(s)
    {
      var j :| 0 <= j < |s| && s[j] == t;
      assert Ids(s)[j] == t.id;
    }
  }

  /** The supporters of b's node are exactly the ids of the bricks just
      under it on a shared cell, its supporteds those just over it. */
  lemma NodeOfLinks(b: Brick, bs: seq<Brick>)
    ensures forall t :: t in bs && InLayer(t, b.MinZ() - 1) && XYIntersects(t, b) ==> t.id in NodeOf(b, bs).supporters
    ensures forall x :: x in NodeOf(b, bs).supporters ==>
      exists t :: t in bs && t.id == x && InLayer(t, b.MinZ() - 1) && XYIntersects(t, b)
    ensures forall u :: u in bs && InLayer(u, b.MaxZ() + 1) && XYIntersects(u, b) ==> u.id in NodeOf(b, bs).supporteds
    ensures forall x :: x in NodeOf(b, bs).supporteds ==>
      exists u :: u in bs && u.id == x && InLayer(u, b.MaxZ() + 1) && XYIntersects(u, b)
  {
    IdsMembers(Supporters(b, bs));
    IdsMembers(Supported(b, bs));
  }

  /** `to_nodes`: one node per brick, ordered by id. */
  method ToNodes(bs: seq<Brick>) returns (nodes: seq<Node>)
    ensures multiset(nodes) == multiset(seq(|bs|, k requires 0 <= k < |bs| => NodeOf(bs[k], bs)))
    ensures SortedBy(nodes, NodeId)
  {
    var unsorted := [];
    var k := 0;
    while k < |bs|
      invariant 0 <= k <= |bs|
      invariant unsorted == seq(k, j requires 0 <= j < k => NodeOf(bs[j], bs))
    {
      unsorted := unsorted + [NodeOf(bs[k], bs)];
      k := k + 1;
    }
    nodes := SortBy(unsorted, NodeId);
    SortByPermSorted(unsorted, NodeId);
  }

  // ---------------------------------------------------------------------
  // Tagging what falls

  /** The support graph is layered: node k has id k, the nodes it names
      exist, each relation is the other read backwards, and rank grows
      strictly from a supporter to what it supports, staying below R.
      Settled bricks that do not overlap give this, with the lowest layer
      as rank. */
  ghost predicate Layered(nodes: seq<Node>, rank: seq<nat>, R: nat)
  {
    |rank| == |nodes|
    && forall k :: 0 <= k < |nodes| ==> nodes[k].id == k && rank[k] < R && Linked(nodes, rank, k)
  }

  /** Node k's supporters lie below it and name it as supported; the nodes
      it supports lie above it and name it as a supporter. */
  ghost predicate Linked(nodes: seq<Node>, rank: seq<nat>, k: int)
    requires |rank| == |nodes| && 0 <= k < |nodes|
  {
    (forall s :: s in nodes[k].supporters ==>
       0 <= s < |nodes| && rank[s] < rank[k] && k in nodes[s].supporteds)
    && (forall u :: u in nodes[k].supporteds ==>
          0 <= u < |nodes| && rank[k] < rank[u] && k in nodes[u].supporters)
  }

  /** Node k comes down when brick i is taken out: it is i, or it has
      supporters and all of them come down. */
  ghost predicate Falls(nodes: seq<Node>, rank: seq<nat>, R: nat, i: int, k: int)
    requires Layered(nodes, rank, R) && 0 <= k < |nodes|
    decreases rank[k]
  {
    k == i
    || (nodes[k].supporters != [] && forall s :: s in nodes[k].supporters ==> Falls(nodes, rank, R, i, s))
  }

  /** The number of walks up the supporteds relation from k: a bound on the
      visits of k's search. */
  ghost function Paths(nodes: seq<Node>, rank: seq<nat>, R: nat, k: int): nat
    requires Layered(nodes, rank, R) && 0 <= k < |nodes|
    decreases R - rank[k], 1
  {
    assert Linked(nodes, rank, k);
    assert forall j :: 0 <= j < |nodes[k].supporteds| ==> nodes[k].supporteds[j] in nodes[k].supporteds;
    1 + Work(nodes, rank, R, nodes[k].supporteds, R - rank[k])
  }

  /** The visits owed to the queue q; m only bounds the recursion. */
  ghost function Work(nodes: seq<Node>, rank: seq<nat>, R: nat, q: seq<int>, m: int): nat
    requires Layered(nodes, rank, R)
    requires forall j :: 0 <= j < |q| ==> 0 <= q[j] < |nodes| && R - rank[q[j]] < m
    decreases m, 0, |q|
  {
    if q == [] then 0
    else Work(nodes, rank, R, q[..|q| - 1], m) + Paths(nodes, rank, R, q[|q| - 1])
  }

  lemma {:induction false} WorkBound(nodes: seq<Node>, rank: seq<nat>, R: nat, q: seq<int>, m: int, m': int)
    requires Layered(nodes, rank, R)
    requires forall j :: 0 <= j < |q| ==> 0 <= q[j] < |nodes| && R - rank[q[j]] < m && R - rank[q[j]] < m'
    ensures Work(nodes, rank, R, q, m) == Work(nodes, rank, R, q, m')
    decreases |q|
  {
    if q != [] {
      WorkBound(nodes, rank, R, q[..|q| - 1], m, m');
    }
  }

  lemma {:induction false} WorkAppend(nodes: seq<Node>, rank: seq<nat>, R: nat, a: seq<int>, b: seq<int>, m: int)
    requires Layered(nodes, rank, R)
    requires forall j :: 0 <= j < |a| ==> 0 <= a[j] < |nodes| && R - rank[a[j]] < m
    requires forall j :: 0 <= j < |b| ==> 0 <= b[j] < |nodes| && R - rank[b[j]] < m
    ensures Work(nodes, rank, R, a + b, m) == Work(nodes, rank, R, a, m) + Work(nodes, rank, R, b, m)
    decreases |b|
  {
    if b != [] {
      assert (a + b)[..|a + b| - 1] == a + b[..|b| - 1];
      assert (a + b)[|a + b| - 1] == b[|b| - 1];
      WorkAppend(nodes, rank, R, a, b[..|b| - 1], m);
    } else {
      assert a + b == a;
    }
  }

  /** Popping the last node of a queue of nodes lowers the work owed, also
      when the nodes it supports are queued in its place. */
  lemma WorkPop(nodes: seq<Node>, rank: seq<nat>, R: nat, queue: seq<int>)
    requires Layered(nodes, rank, R) && queue != []
    requires forall j :: 0 <= j < |queue| ==> 0 <= queue[j] < |nodes|
    ensures Work(nodes, rank, R, queue[..|queue| - 1], R + 1) < Work(nodes, rank, R, queue, R + 1)
  {
  }

  lemma WorkDrops(nodes: seq<Node>, rank: seq<nat>, R: nat, queue: seq<int>, next: seq<int>)
    requires Layered(nodes, rank, R) && queue != []
    requires forall j :: 0 <= j < |queue| ==> 0 <= queue[j] < |nodes|
    requires next == queue[..|queue| - 1] + nodes[queue[|queue| - 1]].supporteds
    requires forall j :: 0 <= j < |next| ==> 0 <= next[j] < |nodes|
    ensures Work(nodes, rank, R, next, R + 1) < Work(nodes, rank, R, queue, R + 1)
  {
    var k, rest := queue[|queue| - 1], queue[..|queue| - 1];
    SupportedQueued(nodes, rank, R, k);
    WorkAppend(nodes, rank, R, rest, nodes[k].supporteds, R + 1);
    WorkUnfold(nodes, rank, R, queue, k);
  }

  lemma WorkUnfold(nodes: seq<Node>, rank: seq<nat>, R: nat, queue: seq<int>, k: int)
    requires Layered(nodes, rank, R) && queue != [] && k == queue[|queue| - 1]
    requires forall j :: 0 <= j < |queue| ==> 0 <= queue[j] < |nodes|
    ensures forall j :: 0 <= j < |nodes[k].supporteds| ==> 0 <= nodes[k].supporteds[j] < |nodes|
    ensures Work(nodes, rank, R, queue, R + 1)
         == Work(nodes, rank, R, queue[..|queue| - 1], R + 1) + 1 + Work(nodes, rank, R, nodes[k].supporteds, R + 1)
  {
    SupportedQueued(nodes, rank, R, k);
    WorkBound(nodes, rank, R, nodes[k].supporteds, R + 1, R - rank[k]);
  }

  /** The nodes over k lie above it. */
  lemma SupportedQueued(nodes: seq<Node>, rank: seq<nat>, R: nat, k: int)
    requires Layered(nodes, rank, R) && 0 <= k < |nodes|
    ensures forall j :: 0 <= j < |nodes[k].supporteds| ==>
      0 <= nodes[k].supporteds[j] < |nodes| && R - rank[nodes[k].supporteds[j]] < R - rank[k]
  {
    assert Linked(nodes, rank, k);
    assert forall j :: 0 <= j < |nodes[k].supporteds| ==> nodes[k].supporteds[j] in nodes[k].supporteds;
  }

  /** Every supporter of node k carries tag i. */
  predicate AllTagged(tags: seq<set<int>>, sup: seq<int>, i: int)
  {
    forall s :: s in sup ==> 0 <= s < |tags| && i in tags[s]
  }

  /** The state of the search for what falls with brick i: queued entries
      are nodes, each i or resting on something; every tagged node is i or
      has all its supporters tagged; i is tagged or queued; and a node over
      a tagged one whose supporters are all tagged is tagged or queued. */
  ghost predicate Tagging(nodes: seq<Node>, tags: seq<set<int>>, i: int, queue: seq<int>)
  {
    |tags| == |nodes| && 0 <= i < |nodes|
    && (forall j :: 0 <= j < |queue| ==> 0 <= queue[j] < |nodes| && (queue[j] == i || nodes[queue[j]].supporters != []))
    && (i in tags[i] || i in queue)
    && (forall k :: 0 <= k < |nodes| && i in tags[k] ==>
          k == i || (nodes[k].supporters != [] && AllTagged(tags, nodes[k].supporters, i)))
    && (forall t, k :: 0 <= t < |nodes| && 0 <= k < |nodes| && i in tags[t] && k in nodes[t].supporteds
          && AllTagged(tags, nodes[k].supporters, i)
          ==> i in tags[k] || k in queue)
  }

  /** Once the queue is empty the tags are exactly what falls. */
  lemma {:induction false} TaggedFalls(nodes: seq<Node>, rank: seq<nat>, R: nat, tags: seq<set<int>>, i: int, k: int)
    requires Layered(nodes, rank, R) && Tagging(nodes, tags, i, []) && 0 <= k < |nodes|
    ensures i in tags[k] <==> Falls(nodes, rank, R, i, k)
    decreases rank[k]
  {
    var sup := nodes[k].supporters;
    if i in tags[k] && k != i {
      forall s | s in sup
        ensures Falls(nodes, rank, R, i, s)
      {
        TaggedFalls(nodes, rank, R, tags, i, s);
      }
    }
    if Falls(nodes, rank, R, i, k) && k != i {
      forall s | s in sup
        ensures i in tags[s]
      {
        TaggedFalls(nodes, rank, R, tags, i, s);
      }
      var s0 := sup[0];
      assert s0 in sup && k in nodes[s0].supporteds;
      assert AllTagged(tags, sup, i);
    }
  }

  /** The nodes of the tower, and for each the set of bricks whose removal
      brings it down, built one brick at a time. */
  class Tower {
    const nodes: seq<Node>
    var tags: seq<set<int>>
    ghost const rank: seq<nat>
    ghost const R: nat

    ghost predicate Valid()
      reads this
    {
      Layered(nodes, rank, R) && |tags| == |nodes|
    }

    /** The nodes of `to_nodes`, each with an empty tag set. */
    constructor(nodes: seq<Node>, ghost rank: seq<nat>, ghost R: nat)
      requires Layered(nodes, rank, R)
      ensures Valid() && this.nodes == nodes
      ensures forall k :: 0 <= k < |tags| ==> tags[k] == {}
    {
      this.nodes := nodes;
      this.rank := rank;
      this.R := R;
      tags := seq(|nodes|, k => {});
    }

    /** `tag_dependents`: tag with i every node other than i that comes down
      when brick i is taken out, leaving the other tags alone. */
    method TagDependents(i: int)
      requires Valid() && 0 <= i < |nodes|
      requires forall k :: 0 <= k < |tags| ==> i !in tags[k]
      modifies this
      ensures Valid()
      ensures forall k :: 0 <= k < |tags| ==> (i in tags[k] <==> k != i && Falls(nodes, rank, R, i, k))
      ensures forall k, j :: 0 <= k < |tags| && j != i ==> (j in tags[k] <==> j in old(tags[k]))
    {
      var queue := [i];
      while queue != []
        invariant Valid() && Tagging(nodes, tags, i, queue)
        invariant forall k, j :: 0 <= k < |tags| && j != i ==> (j in tags[k] <==> j in old(tags[k]))
        decreases Work(nodes, rank, R, queue, R + 1)
      {
        queue := TagNext(i, queue);
      }
      forall k | 0 <= k < |nodes|
        ensures i in tags[k] <==> Falls(nodes, rank, R, i, k)
      {
        TaggedFalls(nodes, rank, R, tags, i, k);
      }
      if i in tags[i] {
        tags := tags[i := tags[i] - {i}];
      }
    }

    /** One round of the search: pop a node and tag it when it is i or all
      its supporters are tagged, queueing what it supports. */
    method TagNext(i: int, queue: seq<int>) returns (queue': seq<int>)
      requires Valid() && queue != [] && Tagging(nodes, tags, i, queue)
      modifies this
      ensures Valid() && Tagging(nodes, tags, i, queue')
      ensures forall k, j :: 0 <= k < |tags| && j != i ==> (j in tags[k] <==> j in old(tags[k]))
      ensures Work(nodes, rank, R, queue', R + 1) < Work(nodes, rank, R, queue, R + 1)
    {
      var k := queue[|queue| - 1];
      queue' := queue[..|queue| - 1];
      if nodes[k].id == i || AllTagged(tags, nodes[k].supporters, i) {
        tags := tags[k := tags[k] + {i}];
        TaggedStep(nodes, rank, R, old(tags), tags, i, k, queue, queue');
        queue' := queue' + nodes[k].supporteds;
        WorkDrops(nodes, rank, R, queue, queue');
      } else {
        SkippedStep(nodes, rank, R, tags, i, k, queue, queue');
        WorkPop(nodes, rank, R, queue);
      }
    }

    /** The nodes that carry tag j. */
    function TaggedWith(j: int): (r: set<int>)
      reads this
      ensures forall k :: k in r <==> 0 <= k < |tags| && j in tags[k]
    {
      set k | 0 <= k < |tags| && j in tags[k]
    }

    /** Tag every node with every brick whose removal brings it down. */
    method TagAll()
      requires Valid() && forall k :: 0 <= k < |tags| ==> tags[k] == {}
      modifies this
      ensures Valid()
      ensures forall k, j :: 0 <= k < |tags| ==> (j in tags[k] <==> 0 <= j < |nodes| && k != j && Falls(nodes, rank, R, j, k))
    {
      var i := 0;
      while i < |nodes|
        invariant Valid() && 0 <= i <= |nodes|
        invariant forall k, j :: 0 <= k < |tags| ==> (j in tags[k] <==> 0 <= j < i && k != j && Falls(nodes, rank, R, j, k))
      {
        TagDependents(i);
        i := i + 1;
      }
    }

    /** `direct`: for every brick, the number of other bricks that come
      down when it is taken out. */
    method Direct() returns (counts: seq<nat>)
      requires Valid() && forall k :: 0 <= k < |tags| ==> tags[k] == {}
      modifies this
      ensures |counts| == |nodes|
      ensures forall i :: 0 <= i < |nodes| ==> counts[i] == |FallenBy(nodes, rank, R, i)|
    {
      TagAll();
      counts := seq(|nodes|, j requires 0 <= j < |nodes| reads this => |TaggedWith(j)|);
      forall j | 0 <= j < |nodes|
        ensures counts[j] == |FallenBy(nodes, rank, R, j)|
      {
        assert TaggedWith(j) == FallenBy(nodes, rank, R, j);
      }
    }
  }

  /** The other nodes that come down when brick i is taken out. */
  ghost function FallenBy(nodes: seq<Node>, rank: seq<nat>, R: nat, i: int): (r: set<int>)
    requires Layered(nodes, rank, R)
    ensures forall k :: k in r <==> 0 <= k < |nodes| && k != i && Falls(nodes, rank, R, i, k)
  {
    set k | 0 <= k < |nodes| && k != i && Falls(nodes, rank, R, i, k)
  }

  /** Tagging node k, which is i or has all supporters tagged, and queueing
      what it supports keeps the search state. */
  lemma TaggedStep(nodes: seq<Node>, rank: seq<nat>, R: nat, tags: seq<set<int>>, tags': seq<set<int>>,
                   i: int, k: int, queue: seq<int>, rest: seq<int>)
    requires Layered(nodes, rank, R) && Tagging(nodes, tags, i, queue) && queue != []
    requires k == queue[|queue| - 1] && rest == queue[..|queue| - 1]
    requires nodes[k].id == i || AllTagged(tags, nodes[k].supporters, i)
    requires tags' == tags[k := tags[k] + {i}]
    ensures Tagging(nodes, tags', i, rest + nodes[k].supporteds)
  {
    var q' := rest + nodes[k].supporteds;
    forall j | 0 <= j < |q'|
      ensures 0 <= q'[j] < |nodes| && (q'[j] == i || nodes[q'[j]].supporters != [])
    {
      if j >= |rest| {
        assert q'[j] in nodes[k].supporteds;
        assert k in nodes[q'[j]].supporters;
      } else {
        assert q'[j] == queue[j];
      }
    }
    assert i in tags'[i] || i in q' by {
      if i !in tags[i] && i != k {
        assert i in rest;
      }
    }
    forall t | 0 <= t < |nodes| && i in tags'[t]
      ensures t == i || (nodes[t].supporters != [] && AllTagged(tags', nodes[t].supporters, i))
    {
      if t != i {
        assert nodes[t].supporters != [] && AllTagged(tags, nodes[t].supporters, i);
      }
    }
    forall t, u | 0 <= t < |nodes| && 0 <= u < |nodes| && i in tags'[t] && u in nodes[t].supporteds
        && AllTagged(tags', nodes[u].supporters, i)
      ensures i in tags'[u] || u in q'
    {
      if t == k || k in nodes[u].supporters {
        assert u in nodes[k].supporteds;
        var j :| 0 <= j < |nodes[k].supporteds| && nodes[k].supporteds[j] == u;
        assert q'[|rest| + j] == u;
      } else if i !in tags'[u] {
        assert AllTagged(tags, nodes[u].supporters, i);
        var j :| 0 <= j < |queue| && queue[j] == u;
        assert rest[j] == u;
      }
    }
  }

  /** Skipping a node that is not ready keeps the search state. */
  lemma SkippedStep(nodes: seq<Node>, rank: seq<nat>, R: nat, tags: seq<set<int>>,
                    i: int, k: int, queue: seq<int>, rest: seq<int>)
    requires Layered(nodes, rank, R) && Tagging(nodes, tags, i, queue) && queue != []
    requires k == queue[|queue| - 1] && rest == queue[..|queue| - 1]
    requires nodes[k].id != i && !AllTagged(tags, nodes[k].supporters, i)
    ensures Tagging(nodes, tags, i, rest)
  {
    assert forall j :: 0 <= j < |rest| ==> rest[j] == queue[j];
    forall t, u | 0 <= t < |nodes| && 0 <= u < |nodes| && i in tags[t] && u in nodes[t].supporteds
        && AllTagged(tags, nodes[u].supporters, i)
      ensures i in tags[u] || u in rest
    {
      if i !in tags[u] {
        var j :| 0 <= j < |queue| && queue[j] == u;
        if j < |rest| {
          assert rest[j] == u;
        }
      }
    }
  }
}
