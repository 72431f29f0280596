/** Wiring diagram (aoc23/day25.py): an undirected graph kept as a set of
    directed (source, target) pairs, its neighbour relation, edge removal,
    and the breadth-first searches over it. */
module Day25 {
  import opened Common

  type Edge = (string, string)

  /** `G`: the edges as written in the input and the vertices that had a
      line of their own. */
  datatype G = G(edges: set<Edge>, vertices: set<string>)

  /** Every name an edge touches. */
  function Nodes(g: G): set<string>
  {
    (set e | e in g.edges :: e.0) + (set e | e in g.edges :: e.1)
  }

  /** `G.neighbours`: the other ends of the edges at v, in either
      orientation. */
  function Neighbours(g: G, v: string): (r: set<string>)
    ensures forall u :: u in r <==> (v, u) in g.edges || (u, v) in g.edges
    ensures r <= Nodes(g)
  {
    (set e | e in g.edges && e.0 == v :: e.1) + (set e | e in g.edges && e.1 == v :: e.0)
  }

  /** Adjacency is symmetric. */
  lemma NeighboursSymmetric(g: G, u: string, v: string)
    ensures v in Neighbours(g, u) <==> u in Neighbours(g, v)
  {
  }

  function Reversed(es: seq<Edge>): seq<Edge>
  {
    seq(|es|, i requires 0 <= i < |es| => (es[i].1, es[i].0))
  }

  /** `G.without`: a new graph lacking each of the edges in either
      orientation, with the same vertices. */
  function Without(g: G, es: seq<Edge>): (r: G)
    ensures r.vertices == g.vertices
    ensures forall e :: e in r.edges <==> e in g.edges && e !in es && (e.1, e.0) !in es
  {
    var gone := set e | e in es + Reversed(es);
    assert forall e :: e in gone <==> e in es || (e.1, e.0) in es by {
      forall e
        ensures e in gone <==> e in es || (e.1, e.0) in es
      {
        if e in Reversed(es) {
          var i :| 0 <= i < |es| && Reversed(es)[i] == e;
        }
        if (e.1, e.0) in es {
          var i :| 0 <= i < |es| && es[i] == (e.1, e.0);
          assert Reversed(es)[i] == e;
        }
      }
    }
    G(g.edges - gone, g.vertices)
  }

  /** After removing edges, v and u are neighbours exactly when they were
      and neither orientation of their edge was removed. */
  lemma WithoutNeighbours(g: G, es: seq<Edge>, v: string, u: string)
    ensures u in Neighbours(Without(g, es), v)
      <==> u in Neighbours(g, v) && (v, u) !in es && (u, v) !in es
  {
  }

  // ---------------------------------------------------------------------
  // Parsing

  /** The source of a `source: targets` line. */
  function Source(line: string): string
  {
    Strip(Split(line, ':')[0])
  }

  /** The targets of a `source: targets` line. */
  function Targets(line: string): seq<string>
    requires |Split(line, ':')| >= 2
  {
    Words(Split(line, ':')[1])
  }

  /** The edges a `source: targets` line adds. */
  function LineEdges(line: string): set<Edge>
    requires |Split(line, ':')| >= 2
  {
    Outgoing(Source(line), Targets(line))
  }

  /** The graph the lines describe, or None when a line does not split in
      two at ':' (the unpacking raises). */
  function Parsed(lines: seq<string>): Option<G>
  {
    if lines == [] then Some(G({}, {}))
    else
      var line := lines[|lines| - 1];
      match Parsed(lines[..|lines| - 1])
      case None => None
      case Some(g) =>
        if |Split(line, ':')| != 2 then None
        else Some(G(g.edges + LineEdges(line), g.vertices + {Source(line)}))
  }

  /** Parsing succeeds exactly when every line splits in two at ':'. */
  lemma {:induction false} ParsedSome(lines: seq<string>)
    ensures Parsed(lines).Some? <==> forall i :: 0 <= i < |lines| ==> |Split(lines[i], ':')| == 2
  {
    if lines != [] {
      var init := lines[..|lines| - 1];
      ParsedSome(init);
      assert forall i :: 0 <= i < |init| ==> init[i] == lines[i];
    }
  }

  /** The vertices are exactly the sources of the lines. */
  lemma {:induction false} ParsedVertices(lines: seq<string>, v: string)
    requires Parsed(lines).Some?
    ensures v in Parsed(lines).value.vertices <==> exists i :: 0 <= i < |lines| && v == Source(lines[i])
  {
    if lines != [] {
      var init := lines[..|lines| - 1];
      ParsedVertices(init, v);
      assert forall i :: 0 <= i < |init| ==> init[i] == lines[i];
      if v == Source(lines[|lines| - 1]) {
        assert v in Parsed(lines).value.vertices;
      }
    }
  }

  /** The edges are exactly the (source, target) pairs of the lines. */
  lemma {:induction false} ParsedEdges(lines: seq<string>, e: Edge)
    requires Parsed(lines).Some?
    ensures e in Parsed(lines).value.edges
      <==> exists i :: 0 <= i < |lines| && |Split(lines[i], ':')| == 2 && e in LineEdges(lines[i])
  {
    if lines != [] {
      var init := lines[..|lines| - 1];
      ParsedEdges(init, e);
      assert forall i :: 0 <= i < |init| ==> init[i] == lines[i];
      var last := lines[|lines| - 1];
      if e in LineEdges(last) {
        assert e in Parsed(lines).value.edges;
      }
    }
  }

  /** Only sources become vertices, so every edge leaves a vertex, while a
      target without a line of its own is no vertex. */
  lemma EdgesLeaveVertices(lines: seq<string>, e: Edge)
    requires Parsed(lines).Some? && e in Parsed(lines).value.edges
    ensures e.0 in Parsed(lines).value.vertices
  {
    ParsedEdges(lines, e);
    var i :| 0 <= i < |lines| && |Split(lines[i], ':')| == 2 && e in LineEdges(lines[i]);
    ParsedVertices(lines, e.0);
  }

  /** `G.parse`. */
  method Parse(lines: seq<string>) returns (r: Option<G>)
    ensures r == Parsed(lines)
  {
    var edges: set<Edge> := {};
    var vertices: set<string> := {};
    for k := 0 to |lines|
      invariant Parsed(lines[..k]) == Some(G(edges, vertices))
    {
      assert lines[..k + 1][..k] == lines[..k];
      var parts := Split(lines[k], ':');
      if |parts| != 2 {
        NoneStays(lines, k + 1);
        return None;
      }
      var source := Strip(parts[0]);
      vertices := vertices + {source};
      edges := AddEdges(edges, source, Words(parts[1]));
      assert lines[..k + 1][k] == lines[k];
    }
    assert lines[..|lines|] == lines;
    r := Some(G(edges, vertices));
  }

  /** The inner loop of `G.parse`: one edge from the source per target. */
  method AddEdges(edges: set<Edge>, source: string, targets: seq<string>) returns (r: set<Edge>)
    ensures r == edges + Outgoing(source, targets)
  {
    r := edges;
    for j := 0 to |targets|
      invariant r == edges + Outgoing(source, targets[..j])
    {
      OutgoingSnoc(source, targets[..j], targets[j]);
      assert targets[..j + 1] == targets[..j] + [targets[j]];
      r := r + {(source, Strip(targets[j]))};
    }
    assert targets[..|targets|] == targets;
  }

  function Outgoing(source: string, targets: seq<string>): set<Edge>
  {
    set t | t in targets :: (source, Strip(t))
  }

  lemma OutgoingSnoc(source: string, targets: seq<string>, t: string)
    ensures Outgoing(source, targets + [t]) == Outgoing(source, targets) + {(source, Strip(t))}
  {
    assert forall u :: u in targets + [t] <==> u in targets || u == t;
  }

  /** A failure on some line is the failure of the whole parse. */
  lemma {:induction false} NoneStays(lines: seq<string>, k: nat)
    requires k <= |lines| && Parsed(lines[..k]) == None
    ensures Parsed(lines) == None
    decreases |lines| - k
  {
    if k < |lines| {
      assert lines[..k + 1][..k] == lines[..k];
      NoneStays(lines, k + 1);
    } else {
      assert lines[..k] == lines;
    }
  }

  // ---------------------------------------------------------------------
  // Walks

  /** The neighbours of x a search may enter: those not to be avoided. */
  function Allowed(g: G, avoid: set<string>, x: string): (r: set<string>)
    ensures r <= Nodes(g)
  {
    set y | y in Neighbours(g, x) && y !in avoid
  }

  lemma AllowedAll(g: G, x: string)
    ensures Allowed(g, {}, x) == Neighbours(g, x)
  {
  }

  /** Each node of w after the first is an allowed neighbour of the one
      before. */
  predicate IsWalk(g: G, avoid: set<string>, w: seq<string>)
  {
    forall i :: 0 <= i < |w| - 1 ==> w[i + 1] in Allowed(g, avoid, w[i])
  }

  /** u can be reached from v in one step or more. */
  ghost predicate Linked(g: G, avoid: set<string>, v: string, u: string)
  {
    exists w :: |w| >= 2 && w[0] == v && w[|w| - 1] == u && IsWalk(g, avoid, w)
  }

  /** Everything reachable from v in one step or more. */
  ghost function Reachable(g: G, avoid: set<string>, v: string): set<string>
  {
    set u | u in Nodes(g) && Linked(g, avoid, v, u)
  }

  lemma ReachableExactly(g: G, avoid: set<string>, v: string, u: string)
    ensures u in Reachable(g, avoid, v) <==> Linked(g, avoid, v, u)
  {
    if Linked(g, avoid, v, u) {
      var w :| |w| >= 2 && w[0] == v && w[|w| - 1] == u && IsWalk(g, avoid, w);
      assert w[|w| - 1] in Allowed(g, avoid, w[|w| - 2]);
    }
  }

  /** A node linked to v starts from one of v's allowed neighbours. */
  lemma LinkedLeaves(g: G, avoid: set<string>, v: string, u: string)
    requires Linked(g, avoid, v, u)
    ensures Allowed(g, avoid, v) != {}
  {
    var w :| |w| >= 2 && w[0] == v && w[|w| - 1] == u && IsWalk(g, avoid, w);
    assert w[1] in Allowed(g, avoid, w[0]);
  }

  /** One more step from v, or from something linked to v. */
  lemma LinkedStep(g: G, avoid: set<string>, v: string, n: string, nn: string)
    requires n == v || Linked(g, avoid, v, n)
    requires nn in Allowed(g, avoid, n)
    ensures Linked(g, avoid, v, nn)
  {
    if n == v {
      assert IsWalk(g, avoid, [v, nn]);
    } else {
      var w :| |w| >= 2 && w[0] == v && w[|w| - 1] == n && IsWalk(g, avoid, w);
      var w' := w + [nn];
      assert forall i :: 0 <= i < |w| ==> w'[i] == w[i];
      assert IsWalk(g, avoid, w');
    }
  }

  /** A set holding the allowed neighbours of v and of each of its own
      members holds everything reachable from v. */
  lemma {:induction false} ClosedHoldsWalk(g: G, avoid: set<string>, v: string, closed: set<string>, w: seq<string>)
    requires Allowed(g, avoid, v) <= closed
    requires forall x :: x in closed ==> Allowed(g, avoid, x) <= closed
    requires |w| >= 2 && w[0] == v && IsWalk(g, avoid, w)
    ensures w[|w| - 1] in closed
  {
    var k := |w| - 1;
    assert w[k] in Allowed(g, avoid, w[k - 1]);
    if k > 1 {
      var w' := w[..k];
      assert forall i :: 0 <= i < k ==> w'[i] == w[i];
      ClosedHoldsWalk(g, avoid, v, closed, w');
    }
  }

  lemma ClosedHoldsReachable(g: G, avoid: set<string>, v: string, closed: set<string>)
    requires Allowed(g, avoid, v) <= closed
    requires forall x :: x in closed ==> Allowed(g, avoid, x) <= closed
    ensures Reachable(g, avoid, v) <= closed
  {
    forall u | u in Reachable(g, avoid, v)
      ensures u in closed
    {
      var w :| |w| >= 2 && w[0] == v && w[|w| - 1] == u && IsWalk(g, avoid, w);
      ClosedHoldsWalk(g, avoid, v, closed, w);
    }
  }

  // ---------------------------------------------------------------------
  // Gathering and components

  /** `G.bfs_gather`: everything reachable from v in one step or more. The
      start itself is gathered only when a walk returns to it, so an
      isolated vertex gathers nothing. */
  method BfsGather(g: G, v: string) returns (visited: set<string>)
    ensures visited == Reachable(g, {}, v)
  {
    visited := {};
    var queue := [v];
    while queue != []
      invariant Gathering(g, v, visited, queue)
      decreases |Nodes(g)| - |visited|, |queue|
    {
      visited, queue := Gather(g, v, visited, queue);
    }
    ClosedHoldsReachable(g, {}, v, visited);
  }

  /** One round of `bfs_gather`: pop a node and gather its neighbours not
      seen before, queueing each. */
  method Gather(g: G, v: string, visited: set<string>, queue: seq<string>) returns (visited': set<string>, queue': seq<string>)
    requires Gathering(g, v, visited, queue) && queue != []
    ensures Gathering(g, v, visited', queue')
    ensures visited <= visited' && (visited' == visited ==> queue' == queue[1..])
    ensures |Nodes(g)| - |visited'| < |Nodes(g)| - |visited| || (visited' == visited && |queue'| < |queue|)
  {
    var n := queue[0];
    visited', queue' := visited, queue[1..];
    var todo := Neighbours(g, n);
    while todo != {}
      invariant Visiting(g, v, n, todo, visited', queue')
      invariant visited <= visited' && (visited' == visited ==> queue' == queue[1..])
      decreases |todo|
    {
      todo, visited', queue' := Visit(g, v, n, todo, visited', queue');
    }
    AllowedAll(g, n);
    if visited' != visited {
      StrictCard(visited, visited');
    }
  }

  /** Look at one neighbour of n: gather and queue it if it is new. */
  method Visit(g: G, v: string, n: string, todo: set<string>, visited: set<string>, queue: seq<string>)
    returns (todo': set<string>, visited': set<string>, queue': seq<string>)
    requires Visiting(g, v, n, todo, visited, queue) && todo != {}
    ensures Visiting(g, v, n, todo', visited', queue') && |todo'| < |todo|
    ensures visited <= visited' && (visited' == visited ==> queue' == queue)
  {
    var nn :| nn in todo;
    todo' := todo - {nn};
    visited', queue' := visited, queue;
    if nn !in visited {
      AllowedAll(g, n);
      LinkedStep(g, {}, v, n, nn);
      visited' := visited + {nn};
      queue' := queue + [nn];
      SubsetCard(visited', Nodes(g));
    }
  }

  /** The invariant of the outer loop of `bfs_gather`: what is gathered is
      reachable, the queue holds the start or gathered nodes, and a node
      that has left the queue has all its neighbours gathered. */
  ghost predicate Gathering(g: G, v: string, visited: set<string>, queue: seq<string>)
  {
    visited <= Nodes(g) && |visited| <= |Nodes(g)|
    && (forall x :: x in visited ==> Linked(g, {}, v, x))
    && (forall i :: 0 <= i < |queue| ==> queue[i] == v || queue[i] in visited)
    && (forall x :: (x == v || x in visited) && x !in queue ==> Allowed(g, {}, x) <= visited)
  }

  /** The invariant of the inner loop, while the neighbours `todo` of n are
      still to be looked at. */
  ghost predicate Visiting(g: G, v: string, n: string, todo: set<string>, visited: set<string>, queue: seq<string>)
  {
    visited <= Nodes(g) && |visited| <= |Nodes(g)| && (n == v || n in visited) && todo <= Neighbours(g, n)
    && (forall x :: x in visited ==> Linked(g, {}, v, x))
    && (forall i :: 0 <= i < |queue| ==> queue[i] == v || queue[i] in visited)
    && (forall x :: (x == v || x in visited) && x !in queue && x != n ==> Allowed(g, {}, x) <= visited)
    && (forall y :: y in Neighbours(g, n) && y !in todo ==> y in visited)
  }

  lemma StrictCard(a: set<string>, b: set<string>)
    requires a <= b && a != b
    ensures |a| < |b|
  {
    var x :| x in b && x !in a;
    SubsetCard(a, b - {x});
  }

  lemma {:induction false} SubsetCard(a: set<string>, b: set<string>)
    requires a <= b
    ensures |a| <= |b|
    decreases a
  {
    if a != {} {
      var x :| x in a;
      SubsetCard(a - {x}, b - {x});
    }
  }

  /** A vertex without edges gathers nothing, so `components` removes
      nothing from the vertices still to be placed and never finishes. */
  lemma IsolatedGathersNothing(g: G, v: string)
    requires Neighbours(g, v) == {}
    ensures Reachable(g, {}, v) == {}
  {
    forall u | u in Reachable(g, {}, v)
      ensures false
    {
      LinkedLeaves(g, {}, v, u);
    }
  }

  /** The line "a:" describes a vertex with no edges; gathering from it
      leaves it among the vertices still to be placed. */
  lemma LoneVertex()
    ensures Parsed(["a:"]) == Some(G({}, {"a"}))
    ensures "a" in G({}, {"a"}).vertices - Reachable(G({}, {"a"}), {}, "a")
  {
    var line := "a:";
    assert line == "a" + [':'] + "";
    SplitFirst("a", "", ':');
    SplitNone("", ':');
    assert Split(line, ':') == ["a", ""];
    assert Strip("a") == "a";
    assert Source(line) == "a";
    assert Targets(line) == [];
    assert LineEdges(line) == {};
    var lines := [line];
    assert lines[..0] == [] && lines[0] == line;
    assert Parsed(lines[..0]) == Some(G({}, {}));
    assert |Split(line, ':')| == 2;
    assert Parsed(lines) == Some(G({} + LineEdges(line), {} + {Source(line)}));
    assert {} + LineEdges(line) == {} && {} + {Source(line)} == {"a"};
    IsolatedGathersNothing(G({}, {"a"}), "a");
  }

  /** A walk read backwards is a walk: adjacency is symmetric. */
  lemma LinkedBack(g: G, v: string, u: string)
    requires Linked(g, {}, v, u)
    ensures Linked(g, {}, u, v)
  {
    var w :| |w| >= 2 && w[0] == v && w[|w| - 1] == u && IsWalk(g, {}, w);
    var b := seq(|w|, i requires 0 <= i < |w| => w[|w| - 1 - i]);
    forall i | 0 <= i < |b| - 1
      ensures b[i + 1] in Allowed(g, {}, b[i])
    {
      var k := |w| - 2 - i;
      assert w[k + 1] in Allowed(g, {}, w[k]);
      NeighboursSymmetric(g, w[k], w[k + 1]);
    }
    assert IsWalk(g, {}, b) && b[0] == u && b[|b| - 1] == v;
  }

  /** Walks join end to start. */
  lemma LinkedTrans(g: G, avoid: set<string>, a: string, b: string, c: string)
    requires Linked(g, avoid, a, b) && Linked(g, avoid, b, c)
    ensures Linked(g, avoid, a, c)
  {
    var w1 :| |w1| >= 2 && w1[0] == a && w1[|w1| - 1] == b && IsWalk(g, avoid, w1);
    var w2 :| |w2| >= 2 && w2[0] == b && w2[|w2| - 1] == c && IsWalk(g, avoid, w2);
    var w := w1 + w2[1..];
    forall i | 0 <= i < |w| - 1
      ensures w[i + 1] in Allowed(g, avoid, w[i])
    {
      if i < |w1| - 1 {
        assert w[i] == w1[i] && w[i + 1] == w1[i + 1];
      } else {
        var k := i - |w1| + 1;
        assert w[i] == w2[k] && w[i + 1] == w2[k + 1];
      }
    }
    assert w[|w| - 1] == w2[|w2| - 1];
  }

  /** The component of v: v and everything reachable from it. */
  ghost function Component(g: G, v: string): set<string>
  {
    Reachable(g, {}, v) + {v}
  }

  /** Components that meet contain each other's vertices. */
  lemma ComponentsMeet(g: G, m: string, n: string, x: string)
    requires x in Component(g, m) && x in Component(g, n)
    ensures n in Component(g, m)
  {
    if n != m && x != n {
      ReachableExactly(g, {}, n, x);
      LinkedBack(g, n, x);
      if x != m {
        ReachableExactly(g, {}, m, x);
        LinkedTrans(g, {}, m, x, n);
      }
      ReachableExactly(g, {}, m, n);
    }
  }

  /** Every member of the component of r has that same component. */
  lemma ComponentOfMember(g: G, r: string, v: string)
    requires v in Component(g, r)
    ensures Component(g, v) == Component(g, r)
  {
    ComponentWithin(g, r, v);
    ComponentsMeet(g, v, r, v);
    ComponentWithin(g, v, r);
  }

  /** A set that is the component of its member x holds every n whose
      component reaches x. */
  lemma ComponentHolds(g: G, c: set<string>, n: string, x: string)
    requires x in c && c == Component(g, x) && x in Component(g, n)
    ensures n in c
  {
    ComponentOfMember(g, n, x);
  }

  lemma ComponentWithin(g: G, r: string, v: string)
    requires v in Component(g, r)
    ensures Component(g, v) <= Component(g, r)
  {
    forall x | x in Component(g, v) && x != v && v != r && x != r
      ensures x in Component(g, r)
    {
      ReachableExactly(g, {}, v, x);
      ReachableExactly(g, {}, r, v);
      LinkedTrans(g, {}, r, v, x);
      ReachableExactly(g, {}, r, x);
    }
  }

  /** `G.components`, with each component holding the vertex it was
      gathered from: the components cover the vertices, each is non-empty
      and is the component of every one of its members, and no two
      meet. */
  method Components(g: G) returns (cs: seq<set<string>>)
    ensures forall v :: v in g.vertices ==> exists i :: 0 <= i < |cs| && v in cs[i]
    ensures forall i :: 0 <= i < |cs| ==> cs[i] != {}
    ensures forall i, v :: 0 <= i < |cs| && v in cs[i] ==> cs[i] == Component(g, v)
    ensures forall i, j :: 0 <= i < j < |cs| ==> cs[i] * cs[j] == {}
  {
    var vs := g.vertices;
    cs := [];
    ghost var home: map<string, nat> := map[];
    while vs != {}
      invariant Placing(g, vs, cs, home)
      decreases |vs|
    {
      vs, cs, home := Place(g, vs, cs, home);
    }
    forall v | v in g.vertices
      ensures exists i :: 0 <= i < |cs| && v in cs[i]
    {
      assert v in cs[home[v]];
    }
  }

  /** The invariant of `components`: every vertex is still to be placed or
      in the component `home` names, each component is non-empty, misses
      the vertices still to be placed and is the component of each of its
      members, and no two components meet. */
  ghost predicate Placing(g: G, vs: set<string>, cs: seq<set<string>>, home: map<string, nat>)
  {
    vs <= g.vertices
    && (forall v :: v in g.vertices ==> v in vs || (v in home && home[v] < |cs| && v in cs[home[v]]))
    && (forall i :: 0 <= i < |cs| ==> cs[i] != {})
    && (forall i, v :: 0 <= i < |cs| && v in cs[i] ==> v !in vs && cs[i] == Component(g, v))
    && (forall i, j :: 0 <= i < j < |cs| ==> cs[i] * cs[j] == {})
  }

  /** One round of `components`: gather from some vertex still to be
      placed and set its component aside. */
  method Place(g: G, vs: set<string>, cs: seq<set<string>>, ghost home: map<string, nat>)
    returns (vs': set<string>, cs': seq<set<string>>, ghost home': map<string, nat>)
    requires Placing(g, vs, cs, home) && vs != {}
    ensures Placing(g, vs', cs', home') && |vs'| < |vs|
  {
    var n :| n in vs;
    var gathered := BfsGather(g, n);
    var component := gathered + {n};
    cs' := cs + [component];
    vs' := vs - component;
    home' := Rehome(g, home, component, |cs|);
    Placed(g, vs, cs, home, n);
    StrictCard(vs', vs);
  }

  /** `home` with every vertex of a newly placed component sent to its
      index k. */
  ghost function Rehome(g: G, home: map<string, nat>, component: set<string>, k: nat): map<string, nat>
  {
    map v | v in g.vertices && (v in home || v in component) :: if v in component then k else home[v]
  }

  /** Setting the component of a vertex still to be placed aside keeps the
      invariant. */
  lemma Placed(g: G, vs: set<string>, cs: seq<set<string>>, home: map<string, nat>, n: string)
    requires Placing(g, vs, cs, home) && n in vs
    ensures Placing(g, vs - Component(g, n), cs + [Component(g, n)], Rehome(g, home, Component(g, n), |cs|))
  {
    PlacedCover(g, vs, cs, home, Component(g, n));
    PlacedMembers(g, vs, cs, home, n);
    ComponentApart(g, vs, cs, home, n);
    PlacedApart(cs, Component(g, n));
  }

  lemma PlacedCover(g: G, vs: set<string>, cs: seq<set<string>>, home: map<string, nat>, c: set<string>)
    requires forall v :: v in g.vertices ==> v in vs || (v in home && home[v] < |cs| && v in cs[home[v]])
    ensures var vs', cs', home' := vs - c, cs + [c], Rehome(g, home, c, |cs|);
      forall v :: v in g.vertices ==> v in vs' || (v in home' && home'[v] < |cs'| && v in cs'[home'[v]])
  {
    var vs', cs', home' := vs - c, cs + [c], Rehome(g, home, c, |cs|);
    forall v | v in g.vertices && v !in vs'
      ensures v in home' && home'[v] < |cs'| && v in cs'[home'[v]]
    {
      if v !in c {
        assert cs'[home[v]] == cs[home[v]];
      }
    }
  }

  lemma PlacedMembers(g: G, vs: set<string>, cs: seq<set<string>>, home: map<string, nat>, n: string)
    requires Placing(g, vs, cs, home) && n in vs
    ensures var c := Component(g, n); var vs', cs' := vs - c, cs + [c];
      && (forall i :: 0 <= i < |cs'| ==> cs'[i] != {})
      && (forall i, v :: 0 <= i < |cs'| && v in cs'[i] ==> v !in vs' && cs'[i] == Component(g, v))
  {
    var c := Component(g, n);
    var cs' := cs + [c];
    forall v | v in c
      ensures c == Component(g, v)
    {
      ComponentOfMember(g, n, v);
    }
    assert n in cs'[|cs|];
    assert forall i :: 0 <= i < |cs| ==> cs'[i] == cs[i];
  }

  lemma PlacedApart(cs: seq<set<string>>, c: set<string>)
    requires forall i, j :: 0 <= i < j < |cs| ==> cs[i] * cs[j] == {}
    requires forall i :: 0 <= i < |cs| ==> cs[i] * c == {}
    ensures var cs' := cs + [c]; forall i, j :: 0 <= i < j < |cs'| ==> cs'[i] * cs'[j] == {}
  {
    var cs' := cs + [c];
    assert forall i :: 0 <= i < |cs| ==> cs'[i] == cs[i];
  }

  /** The component of a vertex still to be placed meets none placed. */
  lemma ComponentApart(g: G, vs: set<string>, cs: seq<set<string>>, home: map<string, nat>, n: string)
    requires Placing(g, vs, cs, home) && n in vs
    ensures forall i :: 0 <= i < |cs| ==> cs[i] * Component(g, n) == {}
  {
    forall i | 0 <= i < |cs|
      ensures cs[i] * Component(g, n) == {}
    {
      forall x | x in cs[i] && x in Component(g, n)
        ensures false
      {
        ComponentHolds(g, cs[i], n, x);
      }
    }
  }

  // ---------------------------------------------------------------------
  // Searches that keep paths

  /** A path from u: it starts at u and steps only to allowed neighbours. */
  predicate PathFrom(g: G, avoid: set<string>, u: string, p: seq<string>)
  {
    |p| >= 1 && p[0] == u && IsWalk(g, avoid, p)
  }

  /** One more allowed step keeps a path a path. */
  lemma PathExtends(g: G, avoid: set<string>, u: string, p: seq<string>, nn: string)
    requires PathFrom(g, avoid, u, p) && nn in Allowed(g, avoid, p[|p| - 1])
    ensures PathFrom(g, avoid, u, p + [nn])
  {
    var q := p + [nn];
    forall i | 0 <= i < |q| - 1
      ensures q[i + 1] in Allowed(g, avoid, q[i])
    {
      if i < |p| - 1 {
        assert q[i] == p[i] && q[i + 1] == p[i + 1];
      }
    }
  }

  /** The node a path ends at. */
  function Tip(p: seq<string>): string
  {
    if p == [] then "" else p[|p| - 1]
  }

  /** The nodes the queued paths end at, in queue order. */
  function Tips(queue: seq<seq<string>>): (r: seq<string>)
    ensures |r| == |queue| && forall i :: 0 <= i < |queue| ==> r[i] == Tip(queue[i])
  {
    seq(|queue|, i requires 0 <= i < |queue| => Tip(queue[i]))
  }

  lemma TipsPop(queue: seq<seq<string>>)
    requires queue != []
    ensures Tips(queue[1..]) == Tips(queue)[1..]
  {
  }

  lemma TipsPush(queue: seq<seq<string>>, p: seq<string>)
    ensures Tips(queue + [p]) == Tips(queue) + [Tip(p)]
  {
  }

  /** u and each visited node, unless a queued path still ends at it or it
      is in `open`, has all its allowed neighbours visited. */
  ghost predicate Settled(g: G, avoid: set<string>, u: string, visited: set<string>, queue: seq<seq<string>>, open: set<string>)
  {
    forall x :: (x == u || x in visited) && x !in Tips(queue) && x !in open ==> Allowed(g, avoid, x) <= visited
  }

  /** Once nothing is queued, everything reachable from u was visited. */
  lemma SettledHolds(g: G, avoid: set<string>, u: string, visited: set<string>)
    requires Settled(g, avoid, u, visited, [], {})
    ensures Reachable(g, avoid, u) <= visited
  {
    ClosedHoldsReachable(g, avoid, u, visited);
  }

  /** A walk from u to x of at most n nodes. */
  ghost predicate WalkWithin(g: G, u: string, x: string, n: nat)
  {
    exists w :: |w| <= n && PathFrom(g, {}, u, w) && w[|w| - 1] == x
  }

  /** `G.bfs_shortest_path_to_furthest_node`: the path popped last is a
      path from u, and every node reachable from u has a walk from u no
      longer than it. The queue starts non-empty, so a path is always
      popped and the result is never None. */
  method BfsFurthest(g: G, u: string) returns (last: seq<string>)
    ensures PathFrom(g, {}, u, last)
    ensures forall x :: x in Reachable(g, {}, u) ==> WalkWithin(g, u, x, |last|)
  {
    var visited: set<string> := {};
    var queue := [[u]];
    last := [u];
    ghost var pathTo: map<string, seq<string>> := map[];
    assert Tips(queue) == [u];
    while queue != []
      invariant Furthest(g, u, visited, queue, last, pathTo)
      decreases |Nodes(g)| - |visited|, |queue|
    {
      visited, queue, last, pathTo := FurthestRound(g, u, visited, queue, last, pathTo);
    }
    FurthestDone(g, u, visited, last, pathTo);
  }

  /** What a breadth-first search over paths keeps: the queued paths are
      paths from u, sorted by length and at most one node longer than the
      path popped last; each visited node has a recorded path to it no more
      than one node longer than that, and a path that long is still
      queued. */
  ghost predicate Searched(g: G, u: string, visited: set<string>, queue: seq<seq<string>>, last: seq<string>, pathTo: map<string, seq<string>>)
  {
    visited <= Nodes(g) && |visited| <= |Nodes(g)| && visited == pathTo.Keys && PathFrom(g, {}, u, last)
    && Layered(g, u, queue, last) && Recorded(g, u, visited, queue, last, pathTo)
  }

  /** The queued paths are paths from u, at most one node longer than the
      last one popped, in order of length. */
  ghost predicate Layered(g: G, u: string, queue: seq<seq<string>>, last: seq<string>)
  {
    (forall i :: 0 <= i < |queue| ==> PathFrom(g, {}, u, queue[i]) && |last| <= |queue[i]| <= |last| + 1)
    && (forall i, j :: 0 <= i < j < |queue| ==> |queue[i]| <= |queue[j]|)
  }

  /** Every visited node has a recorded path ending at it, and the longest
      of those are still queued. */
  ghost predicate Recorded(g: G, u: string, visited: set<string>, queue: seq<seq<string>>, last: seq<string>, pathTo: map<string, seq<string>>)
    requires visited <= pathTo.Keys
  {
    (forall x :: x in visited ==> PathFrom(g, {}, u, pathTo[x]) && pathTo[x][|pathTo[x]| - 1] == x && |pathTo[x]| <= |last| + 1)
    && (forall x :: x in visited && |pathTo[x]| == |last| + 1 ==> pathTo[x] in queue)
  }

  /** The invariant of the outer loop of the furthest-node search. */
  ghost predicate Furthest(g: G, u: string, visited: set<string>, queue: seq<seq<string>>, last: seq<string>, pathTo: map<string, seq<string>>)
  {
    Searched(g, u, visited, queue, last, pathTo) && Settled(g, {}, u, visited, queue, {})
  }

  /** The invariant of the inner loop, while the neighbours `todo` of e, the
      end of the path popped last, are still to be looked at. */
  ghost predicate Extending(g: G, u: string, e: string, todo: set<string>, visited: set<string>, queue: seq<seq<string>>, last: seq<string>, pathTo: map<string, seq<string>>)
  {
    Searched(g, u, visited, queue, last, pathTo) && Settled(g, {}, u, visited, queue, {e})
    && e == Tip(last) && todo <= Allowed(g, {}, e)
    && (forall y :: y in Allowed(g, {}, e) && y !in todo ==> y in visited)
  }

  /** One round of the furthest-node search: pop a path and queue it
      extended by each neighbour of its end not seen before. */
  method FurthestRound(g: G, u: string, visited: set<string>, queue: seq<seq<string>>, last: seq<string>, ghost pathTo: map<string, seq<string>>)
    returns (visited': set<string>, queue': seq<seq<string>>, last': seq<string>, ghost pathTo': map<string, seq<string>>)
    requires Furthest(g, u, visited, queue, last, pathTo) && queue != []
    ensures Furthest(g, u, visited', queue', last', pathTo')
    ensures |Nodes(g)| - |visited'| < |Nodes(g)| - |visited| || (visited' == visited && |queue'| < |queue|)
  {
    var path := queue[0];
    Popped(g, u, visited, queue, last, pathTo);
    last' := path;
    visited', queue', pathTo' := ExpandTip(g, u, Tip(path), visited, queue[1..], path, pathTo);
    if visited' != visited {
      StrictCard(visited, visited');
    }
  }

  /** The inner loop of the furthest-node search: look at each neighbour of
      e, the end of the path popped last. */
  method ExpandTip(g: G, u: string, e: string, visited: set<string>, queue: seq<seq<string>>, last: seq<string>, ghost pathTo: map<string, seq<string>>)
    returns (visited': set<string>, queue': seq<seq<string>>, ghost pathTo': map<string, seq<string>>)
    requires Extending(g, u, e, Allowed(g, {}, e), visited, queue, last, pathTo)
    ensures Furthest(g, u, visited', queue', last, pathTo')
    ensures visited <= visited' && (visited' == visited ==> queue' == queue)
  {
    visited', queue', pathTo' := visited, queue, pathTo;
    var todo := Neighbours(g, e);
    AllowedAll(g, e);
    while todo != {}
      invariant Extending(g, u, e, todo, visited', queue', last, pathTo')
      invariant visited <= visited' && (visited' == visited ==> queue' == queue)
      decreases |todo|
    {
      todo, visited', queue', pathTo' := Extend(g, u, e, todo, visited', queue', last, pathTo');
    }
    Expanded(g, u, e, visited', queue', last, pathTo');
  }

  /** Popping the first path keeps the invariant, with its end still to be
      expanded. */
  lemma Popped(g: G, u: string, visited: set<string>, queue: seq<seq<string>>, last: seq<string>, pathTo: map<string, seq<string>>)
    requires Furthest(g, u, visited, queue, last, pathTo) && queue != []
    ensures Extending(g, u, Tip(queue[0]), Allowed(g, {}, Tip(queue[0])), visited, queue[1..], queue[0], pathTo)
  {
    var p := queue[0];
    var rest := queue[1..];
    forall i | 0 <= i < |rest|
      ensures PathFrom(g, {}, u, rest[i]) && |p| <= |rest[i]| <= |p| + 1
    {
      assert rest[i] == queue[i + 1];
    }
    forall x | x in visited && |pathTo[x]| == |p| + 1
      ensures pathTo[x] in rest
    {
      var i :| 0 <= i < |queue| && queue[i] == pathTo[x];
      assert rest[i - 1] == pathTo[x];
    }
    TipsPop(queue);
    forall x | (x == u || x in visited) && x !in Tips(rest) && x != Tip(p)
      ensures Allowed(g, {}, x) <= visited
    {
      assert x !in Tips(queue);
    }
  }

  /** Look at one neighbour of e: if it is new, visit it and queue the last
      path extended by it. */
  method Extend(g: G, u: string, e: string, todo: set<string>, visited: set<string>, queue: seq<seq<string>>, last: seq<string>, ghost pathTo: map<string, seq<string>>)
    returns (todo': set<string>, visited': set<string>, queue': seq<seq<string>>, ghost pathTo': map<string, seq<string>>)
    requires Extending(g, u, e, todo, visited, queue, last, pathTo) && todo != {}
    ensures Extending(g, u, e, todo', visited', queue', last, pathTo') && |todo'| < |todo|
    ensures visited <= visited' && (visited' == visited ==> queue' == queue)
  {
    var nn :| nn in todo;
    todo' := todo - {nn};
    visited', queue', pathTo' := visited, queue, pathTo;
    if nn !in visited {
      var p := last + [nn];
      Extended(g, u, e, todo, visited, queue, last, pathTo, nn);
      visited' := visited + {nn};
      queue' := queue + [p];
      pathTo' := pathTo[nn := p];
    }
  }

  /** Visiting a new neighbour nn of e and queueing the last path extended
      by it keeps the inner invariant. */
  lemma Extended(g: G, u: string, e: string, todo: set<string>, visited: set<string>, queue: seq<seq<string>>, last: seq<string>, pathTo: map<string, seq<string>>, nn: string)
    requires Extending(g, u, e, todo, visited, queue, last, pathTo) && nn in todo && nn !in visited
    ensures Extending(g, u, e, todo - {nn}, visited + {nn}, queue + [last + [nn]], last, pathTo[nn := last + [nn]])
  {
    var p := last + [nn];
    PathExtends(g, {}, u, last, nn);
    SubsetCard(visited + {nn}, Nodes(g));
    SearchedPush(g, u, visited, queue, last, pathTo, nn);
    TipsPush(queue, p);
    assert Tip(p) == nn;
  }

  lemma SearchedPush(g: G, u: string, visited: set<string>, queue: seq<seq<string>>, last: seq<string>, pathTo: map<string, seq<string>>, nn: string)
    requires Searched(g, u, visited, queue, last, pathTo) && nn !in visited && nn in Nodes(g)
    requires PathFrom(g, {}, u, last + [nn]) && |visited + {nn}| <= |Nodes(g)|
    ensures Searched(g, u, visited + {nn}, queue + [last + [nn]], last, pathTo[nn := last + [nn]])
  {
    var p := last + [nn];
    assert p[|p| - 1] == nn;
    QueuePush(g, u, queue, last, p);
    RecordPush(g, u, visited, queue, last, pathTo, nn, p);
  }

  /** Queueing a path one node longer than the last keeps the queued paths
      in order of length. */
  lemma QueuePush(g: G, u: string, queue: seq<seq<string>>, last: seq<string>, p: seq<string>)
    requires Layered(g, u, queue, last) && PathFrom(g, {}, u, p) && |p| == |last| + 1
    ensures Layered(g, u, queue + [p], last)
  {
    var q := queue + [p];
    assert forall i :: 0 <= i < |queue| ==> q[i] == queue[i];
    assert q[|queue|] == p;
  }

  /** Recording the queued path of a new node keeps every visited node's
      path recorded, and the longest ones queued. */
  lemma RecordPush(g: G, u: string, visited: set<string>, queue: seq<seq<string>>, last: seq<string>,
                   pathTo: map<string, seq<string>>, nn: string, p: seq<string>)
    requires visited == pathTo.Keys && Recorded(g, u, visited, queue, last, pathTo)
    requires PathFrom(g, {}, u, p) && p[|p| - 1] == nn && |p| == |last| + 1
    ensures Recorded(g, u, visited + {nn}, queue + [p], last, pathTo[nn := p])
  {
    var q := queue + [p];
    assert forall i :: 0 <= i < |queue| ==> q[i] == queue[i];
    assert q[|queue|] == p;
  }

  /** With every neighbour of e looked at, e is settled as well. */
  lemma Expanded(g: G, u: string, e: string, visited: set<string>, queue: seq<seq<string>>, last: seq<string>, pathTo: map<string, seq<string>>)
    requires Extending(g, u, e, {}, visited, queue, last, pathTo)
    ensures Furthest(g, u, visited, queue, last, pathTo)
  {
  }

  /** With nothing queued, every reachable node has its recorded path, no
      longer than the path popped last. */
  lemma FurthestDone(g: G, u: string, visited: set<string>, last: seq<string>, pathTo: map<string, seq<string>>)
    requires Furthest(g, u, visited, [], last, pathTo)
    ensures forall x :: x in Reachable(g, {}, u) ==> WalkWithin(g, u, x, |last|)
  {
    SettledHolds(g, {}, u, visited);
    forall x | x in Reachable(g, {}, u)
      ensures WalkWithin(g, u, x, |last|)
    {
      var w := pathTo[x];
      assert |w| <= |last| && PathFrom(g, {}, u, w) && w[|w| - 1] == x;
    }
  }

  /** The nodes of the used paths other than dest, which a new path may
      not pass through. */
  function OutOfBounds(used: seq<seq<string>>, dest: string): (r: set<string>)
    ensures forall x :: x in r <==> x != dest && exists i :: 0 <= i < |used| && x in used[i]
  {
    (set i, x | 0 <= i < |used| && x in used[i] :: x) - {dest}
  }

  /** `G.bfs_next_augmenting_path_to`: a path from u to dest that steps
      onto no node of the used paths other than dest, or None when there
      is no such path. At least one used path is needed: the union of
      the used paths is a reduce without a start value. */
  method BfsAugmenting(g: G, u: string, dest: string, used: seq<seq<string>>) returns (r: Option<seq<string>>)
    requires used != []
    ensures r.Some? ==> PathFrom(g, OutOfBounds(used, dest), u, r.value) && Tip(r.value) == dest
    ensures r.None? ==> u != dest && dest !in Reachable(g, OutOfBounds(used, dest), u)
  {
    var avoid := OutOfBounds(used, dest);
    var visited: set<string> := {};
    var queue := [[u]];
    assert Tips(queue) == [u];
    while queue != []
      invariant Augmenting(g, avoid, u, dest, visited, queue)
      decreases |Nodes(g)| - |visited|, |queue|
    {
      var path := queue[0];
      if path[|path| - 1] == dest {
        return Some(path);
      }
      visited, queue := AugmentRound(g, avoid, u, dest, visited, queue);
    }
    AugmentDone(g, avoid, u, dest, visited);
    return None;
  }

  /** The invariant of the outer loop of the augmenting-path search: the
      queued paths are paths from u that keep off `avoid`, a queued path
      ends at dest once dest has been seen, and the settled nodes have all
      their allowed neighbours visited. */
  ghost predicate Augmenting(g: G, avoid: set<string>, u: string, dest: string, visited: set<string>, queue: seq<seq<string>>)
  {
    visited <= Nodes(g) && |visited| <= |Nodes(g)|
    && (forall i :: 0 <= i < |queue| ==> PathFrom(g, avoid, u, queue[i]))
    && ((u == dest || dest in visited) ==> dest in Tips(queue))
    && Settled(g, avoid, u, visited, queue, {})
  }

  /** The invariant of the inner loop, while the allowed neighbours `todo`
      of e, the end of the popped path `last`, are still to be looked at. */
  ghost predicate AugmentExtending(g: G, avoid: set<string>, u: string, dest: string, e: string, todo: set<string>, visited: set<string>, queue: seq<seq<string>>, last: seq<string>)
  {
    visited <= Nodes(g) && |visited| <= |Nodes(g)|
    && (forall i :: 0 <= i < |queue| ==> PathFrom(g, avoid, u, queue[i]))
    && ((u == dest || dest in visited) ==> dest in Tips(queue))
    && Settled(g, avoid, u, visited, queue, {e})
    && PathFrom(g, avoid, u, last) && e == Tip(last) && todo <= Allowed(g, avoid, e)
    && (forall y :: y in Allowed(g, avoid, e) && y !in todo ==> y in visited)
  }

  /** One round of the augmenting-path search, for a popped path that does
      not end at dest. */
  method AugmentRound(g: G, avoid: set<string>, u: string, dest: string, visited: set<string>, queue: seq<seq<string>>)
    returns (visited': set<string>, queue': seq<seq<string>>)
    requires Augmenting(g, avoid, u, dest, visited, queue) && queue != [] && Tip(queue[0]) != dest
    ensures Augmenting(g, avoid, u, dest, visited', queue')
    ensures |Nodes(g)| - |visited'| < |Nodes(g)| - |visited| || (visited' == visited && |queue'| < |queue|)
  {
    var path := queue[0];
    AugmentPopped(g, avoid, u, dest, visited, queue);
    visited', queue' := AugmentTip(g, avoid, u, dest, Tip(path), visited, queue[1..], path);
    if visited' != visited {
      StrictCard(visited, visited');
    }
  }

  lemma AugmentPopped(g: G, avoid: set<string>, u: string, dest: string, visited: set<string>, queue: seq<seq<string>>)
    requires Augmenting(g, avoid, u, dest, visited, queue) && queue != [] && Tip(queue[0]) != dest
    ensures AugmentExtending(g, avoid, u, dest, Tip(queue[0]), Allowed(g, avoid, Tip(queue[0])), visited, queue[1..], queue[0])
  {
    var rest := queue[1..];
    TipsPop(queue);
    forall i | 0 <= i < |rest|
      ensures PathFrom(g, avoid, u, rest[i])
    {
      assert rest[i] == queue[i + 1];
    }
    forall x | (x == u || x in visited) && x !in Tips(rest) && x != Tip(queue[0])
      ensures Allowed(g, avoid, x) <= visited
    {
      assert x !in Tips(queue);
    }
  }

  /** The inner loop of the augmenting-path search: look at each allowed
      neighbour of e. */
  method AugmentTip(g: G, avoid: set<string>, u: string, dest: string, e: string, visited: set<string>, queue: seq<seq<string>>, last: seq<string>)
    returns (visited': set<string>, queue': seq<seq<string>>)
    requires AugmentExtending(g, avoid, u, dest, e, Allowed(g, avoid, e), visited, queue, last)
    ensures Augmenting(g, avoid, u, dest, visited', queue')
    ensures visited <= visited' && (visited' == visited ==> queue' == queue)
  {
    visited', queue' := visited, queue;
    var todo := Allowed(g, avoid, e);
    while todo != {}
      invariant AugmentExtending(g, avoid, u, dest, e, todo, visited', queue', last)
      invariant visited <= visited' && (visited' == visited ==> queue' == queue)
      decreases |todo|
    {
      todo, visited', queue' := AugmentVisit(g, avoid, u, dest, e, todo, visited', queue', last);
    }
    AugmentExpanded(g, avoid, u, dest, e, visited', queue', last);
  }

  /** Look at one allowed neighbour of e: if it is new, visit it and queue
      the popped path extended by it. */
  method AugmentVisit(g: G, avoid: set<string>, u: string, dest: string, e: string, todo: set<string>, visited: set<string>, queue: seq<seq<string>>, last: seq<string>)
    returns (todo': set<string>, visited': set<string>, queue': seq<seq<string>>)
    requires AugmentExtending(g, avoid, u, dest, e, todo, visited, queue, last) && todo != {}
    ensures AugmentExtending(g, avoid, u, dest, e, todo', visited', queue', last) && |todo'| < |todo|
    ensures visited <= visited' && (visited' == visited ==> queue' == queue)
  {
    var nn :| nn in todo;
    todo' := todo - {nn};
    visited', queue' := visited, queue;
    if nn !in visited {
      AugmentExtended(g, avoid, u, dest, e, todo, visited, queue, last, nn);
      visited' := visited + {nn};
      queue' := queue + [last + [nn]];
    }
  }

  lemma AugmentExtended(g: G, avoid: set<string>, u: string, dest: string, e: string, todo: set<string>, visited: set<string>, queue: seq<seq<string>>, last: seq<string>, nn: string)
    requires AugmentExtending(g, avoid, u, dest, e, todo, visited, queue, last) && nn in todo && nn !in visited
    ensures AugmentExtending(g, avoid, u, dest, e, todo - {nn}, visited + {nn}, queue + [last + [nn]], last)
  {
    var p := last + [nn];
    var q := queue + [p];
    PathExtends(g, avoid, u, last, nn);
    SubsetCard(visited + {nn}, Nodes(g));
    TipsPush(queue, p);
    assert Tip(p) == nn;
    assert forall i :: 0 <= i < |queue| ==> q[i] == queue[i];
  }

  /** With every allowed neighbour of e looked at, e is settled as well. */
  lemma AugmentExpanded(g: G, avoid: set<string>, u: string, dest: string, e: string, visited: set<string>, queue: seq<seq<string>>, last: seq<string>)
    requires AugmentExtending(g, avoid, u, dest, e, {}, visited, queue, last)
    ensures Augmenting(g, avoid, u, dest, visited, queue)
  {
  }

  /** With nothing queued, dest was never seen, so it is not u and cannot
      be reached from u. */
  lemma AugmentDone(g: G, avoid: set<string>, u: string, dest: string, visited: set<string>)
    requires Augmenting(g, avoid, u, dest, visited, [])
    ensures u != dest && dest !in Reachable(g, avoid, u)
  {
    SettledHolds(g, avoid, u, visited);
  }
}
