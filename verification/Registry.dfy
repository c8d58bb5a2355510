/**
 The spec registry as a graph, and the bounded breadth-first search that `impact` and `context` share.
 */
module Registry {
  import opened Options

  datatype Edge = Edge(src: string, rel: string, dst: string)

  datatype Graph = Graph(nodes: set<string>, edges: seq<Edge>)

  /** One search's question: which way to follow edges, and which relations. */
  datatype Filter = Filter(direction: string, rels: Option<set<string>>) {
    predicate Forward() {
      direction == "out" || direction == "both"
    }

    predicate Backward() {
      direction == "in" || direction == "both"
    }

    predicate Admits(e: Edge) {
      rels.None? || e.rel in rels.value
    }
  }

  // ----- Reachability, straight from the edges

  /** One hop from `x` to `y` along an edge the filter admits. */
  predicate Hop(g: Graph, f: Filter, x: string, y: string) {
    exists i :: 0 <= i < |g.edges| && f.Admits(g.edges[i])
      && ((f.Forward() && g.edges[i].src == x && g.edges[i].dst == y)
          || (f.Backward() && g.edges[i].dst == x && g.edges[i].src == y))
  }

  predicate HasEdge(g: Graph, f: Filter, src: string, dst: string) {
    exists i :: 0 <= i < |g.edges| && g.edges[i].src == src && g.edges[i].dst == dst
      && (f.rels.None? || g.edges[i].rel in f.rels.value)
  }

  /** `out` follows edges, `in` goes against them, `both` does either, and any other word does neither. */
  lemma {:induction false} DirectionWords(g: Graph, f: Filter, x: string, y: string)
    ensures f.direction == "out" ==> (Hop(g, f, x, y) <==> HasEdge(g, f, x, y))
    ensures f.direction == "in" ==> (Hop(g, f, x, y) <==> HasEdge(g, f, y, x))
    ensures f.direction == "both" ==> (Hop(g, f, x, y) <==> HasEdge(g, f, x, y) || HasEdge(g, f, y, x))
    ensures f.direction != "out" && f.direction != "in" && f.direction != "both" ==> !Hop(g, f, x, y)
  {
  }

  /** Where one hop leads, as a relation of its own. */
  type Hops = (string, string) -> bool

  function HopsOf(g: Graph, f: Filter): Hops {
    (x: string, y: string) => Hop(g, f, x, y)
  }

  /** A walk through registered nodes only, from a registered root. */
  ghost predicate IsWalk(nodes: set<string>, hop: Hops, roots: seq<string>, walk: seq<string>) {
    && walk != [] && walk[0] in roots
    && (forall i :: 0 <= i < |walk| ==> walk[i] in nodes)
    && (forall i :: 0 < i < |walk| ==> hop(walk[i - 1], walk[i]))
  }

  ghost predicate ReachedIn(nodes: set<string>, hop: Hops, roots: seq<string>, id: string, hops: nat) {
    exists walk :: IsWalk(nodes, hop, roots, walk) && walk[|walk| - 1] == id && |walk| == hops + 1
  }

  /** The search's answer: exactly the nodes some walk of at most `depth` hops reaches, each with the
      length of a shortest such walk. */
  ghost predicate IsDistances(nodes: set<string>, hop: Hops, roots: seq<string>, depth: int, seen: map<string, nat>) {
    && (forall id :: id in seen ==>
          ReachedIn(nodes, hop, roots, id, seen[id]) && (seen[id] == 0 || seen[id] <= depth))
    && (forall id, n: nat :: ReachedIn(nodes, hop, roots, id, n) && (n == 0 || n <= depth) ==>
          id in seen && seen[id] <= n)
  }

  // ----- Balls

  function Rooted(nodes: set<string>, roots: seq<string>): set<string> {
    set r | r in roots && r in nodes
  }

  predicate Touches(hop: Hops, from: set<string>, y: string) {
    exists x :: x in from && hop(x, y)
  }

  function Around(nodes: set<string>, hop: Hops, from: set<string>): set<string> {
    set y | y in nodes && Touches(hop, from, y)
  }

  function Grown(nodes: set<string>, hop: Hops, b: set<string>): set<string> {
    b + Around(nodes, hop, b)
  }

  /** The nodes within `n` hops. */
  function Ball(nodes: set<string>, hop: Hops, roots: seq<string>, n: nat): set<string> {
    if n == 0 then Rooted(nodes, roots) else Grown(nodes, hop, Ball(nodes, hop, roots, n - 1))
  }

  lemma {:induction false} BallGrows(nodes: set<string>, hop: Hops, roots: seq<string>, m: nat, n: nat)
    requires m <= n
    ensures Ball(nodes, hop, roots, m) <= Ball(nodes, hop, roots, n)
    decreases n
  {
    if m < n {
      BallGrows(nodes, hop, roots, m, n - 1);
    }
  }

  lemma {:induction false} HopLeavesBall(
      nodes: set<string>, hop: Hops, roots: seq<string>, n: nat, x: string, y: string)
    requires x in Ball(nodes, hop, roots, n) && y in nodes && hop(x, y)
    ensures y in Ball(nodes, hop, roots, n + 1)
  {
    assert Touches(hop, Ball(nodes, hop, roots, n), y);
  }

  lemma {:induction false} FarFromInside(
      nodes: set<string>, hop: Hops, roots: seq<string>, n: nat, x: string, y: string)
    requires y in nodes && hop(x, y) && y !in Ball(nodes, hop, roots, n + 1)
    ensures x !in Ball(nodes, hop, roots, n)
  {
    if x in Ball(nodes, hop, roots, n) {
      HopLeavesBall(nodes, hop, roots, n, x, y);
    }
  }

  lemma {:induction false} WalkEndsInBall(nodes: set<string>, hop: Hops, roots: seq<string>, walk: seq<string>)
    requires IsWalk(nodes, hop, roots, walk)
    ensures walk[|walk| - 1] in Ball(nodes, hop, roots, |walk| - 1)
    decreases |walk|
  {
    if |walk| > 1 {
      var n := |walk| - 1;
      WalkEndsInBall(nodes, hop, roots, walk[..n]);
      HopLeavesBall(nodes, hop, roots, n - 1, walk[n - 1], walk[n]);
    }
  }

  lemma {:induction false} ExtendWalk(nodes: set<string>, hop: Hops, roots: seq<string>, x: string, y: string, n: nat)
    requires ReachedIn(nodes, hop, roots, x, n) && y in nodes && hop(x, y)
    ensures ReachedIn(nodes, hop, roots, y, n + 1)
  {
    var walk :| IsWalk(nodes, hop, roots, walk) && walk[|walk| - 1] == x && |walk| == n + 1;
    assert IsWalk(nodes, hop, roots, walk + [y]);
  }

  lemma {:induction false} EnteredFrom(nodes: set<string>, hop: Hops, roots: seq<string>, id: string, n: nat)
      returns (x: string)
    requires id in Ball(nodes, hop, roots, n + 1) && id !in Ball(nodes, hop, roots, n)
    ensures id in nodes && hop(x, id) && x in Ball(nodes, hop, roots, n)
    ensures n > 0 ==> x !in Ball(nodes, hop, roots, n - 1)
  {
    var inner := Ball(nodes, hop, roots, n);
    assert id in Around(nodes, hop, inner);
    x :| x in inner && hop(x, id);
    if n > 0 {
      FarFromInside(nodes, hop, roots, n - 1, x, id);
    }
  }

  lemma {:induction false} BallHasWalk(nodes: set<string>, hop: Hops, roots: seq<string>, id: string, n: nat)
    requires id in Ball(nodes, hop, roots, n) && (n == 0 || id !in Ball(nodes, hop, roots, n - 1))
    ensures ReachedIn(nodes, hop, roots, id, n)
    decreases n
  {
    if n == 0 {
      assert IsWalk(nodes, hop, roots, [id]);
    } else {
      var x := EnteredFrom(nodes, hop, roots, id, n - 1);
      BallHasWalk(nodes, hop, roots, x, n - 1);
      ExtendWalk(nodes, hop, roots, x, id, n - 1);
    }
  }

  lemma {:induction false} StableBall(nodes: set<string>, hop: Hops, roots: seq<string>, d: nat, n: nat)
    requires d <= n && Ball(nodes, hop, roots, d) == Ball(nodes, hop, roots, d + 1)
    ensures Ball(nodes, hop, roots, n) == Ball(nodes, hop, roots, d)
    decreases n
  {
    if n > d {
      StableBall(nodes, hop, roots, d, n - 1);
      assert Ball(nodes, hop, roots, n) == Grown(nodes, hop, Ball(nodes, hop, roots, n - 1));
      assert Ball(nodes, hop, roots, d + 1) == Grown(nodes, hop, Ball(nodes, hop, roots, d));
    }
  }

  /** The search state after `d` rounds: each node of the ball, with the round it entered. */
  ghost predicate Layered(ball: nat -> set<string>, d: nat, seen: map<string, nat>) {
    && seen.Keys == ball(d)
    && forall id :: id in seen ==>
         && seen[id] <= d && id in ball(seen[id])
         && (seen[id] > 0 ==> id !in ball(seen[id] - 1))
  }

  ghost function Balls(nodes: set<string>, hop: Hops, roots: seq<string>): nat -> set<string> {
    (n: nat) => Ball(nodes, hop, roots, n)
  }

  lemma {:induction false} EntersInTime(ball: nat -> set<string>, d: nat, seen: map<string, nat>, id: string, n: nat)
    requires Layered(ball, d, seen) && id in ball(d) && forall m: nat :: n <= m ==> id in ball(m)
    ensures id in seen && seen[id] <= n
  {
    assert id in seen.Keys;
  }

  lemma {:induction false} ReachedStaysInBall(
      nodes: set<string>, hop: Hops, roots: seq<string>, id: string, n: nat, m: nat)
    requires ReachedIn(nodes, hop, roots, id, n) && n <= m
    ensures id in Ball(nodes, hop, roots, m)
  {
    var walk :| IsWalk(nodes, hop, roots, walk) && walk[|walk| - 1] == id && |walk| == n + 1;
    WalkEndsInBall(nodes, hop, roots, walk);
    BallGrows(nodes, hop, roots, n, m);
  }

  lemma {:induction false} ReachedIsSeen(nodes: set<string>, hop: Hops, roots: seq<string>, d: nat,
                                         seen: map<string, nat>, id: string, n: nat)
    requires Layered(Balls(nodes, hop, roots), d, seen) && ReachedIn(nodes, hop, roots, id, n)
    requires n <= d || Ball(nodes, hop, roots, d) == Ball(nodes, hop, roots, d + 1)
    ensures id in seen && seen[id] <= n
  {
    var ball := Balls(nodes, hop, roots);
    forall m: nat | n <= m
      ensures id in ball(m)
    {
      ReachedStaysInBall(nodes, hop, roots, id, n, m);
    }
    if n > d {
      StableBall(nodes, hop, roots, d, n);
      assert ball(n) == ball(d);
    }
    EntersInTime(ball, d, seen, id, n);
  }

  lemma {:induction false} SeenIsReached(nodes: set<string>, hop: Hops, roots: seq<string>, d: nat,
                                         seen: map<string, nat>, id: string)
    requires Layered(Balls(nodes, hop, roots), d, seen) && id in seen
    ensures ReachedIn(nodes, hop, roots, id, seen[id]) && seen[id] <= d
  {
    var n := seen[id];
    assert Balls(nodes, hop, roots)(n) == Ball(nodes, hop, roots, n);
    assert n > 0 ==> Balls(nodes, hop, roots)(n - 1) == Ball(nodes, hop, roots, n - 1);
    BallHasWalk(nodes, hop, roots, id, n);
  }

  /** Stopping at the depth or at an empty frontier leaves exactly the shortest distances. */
  lemma {:induction false} LayeredIsDistances(nodes: set<string>, hop: Hops, roots: seq<string>, depth: int, d: nat,
                                              seen: map<string, nat>)
    requires Layered(Balls(nodes, hop, roots), d, seen) && (d == 0 || d <= depth)
    requires d >= depth || Ball(nodes, hop, roots, d) == Ball(nodes, hop, roots, d + 1)
    ensures IsDistances(nodes, hop, roots, depth, seen)
  {
    forall id | id in seen
      ensures ReachedIn(nodes, hop, roots, id, seen[id]) && seen[id] <= d
    {
      SeenIsReached(nodes, hop, roots, d, seen, id);
    }
    forall id, n: nat | ReachedIn(nodes, hop, roots, id, n) && (n == 0 || n <= depth)
      ensures id in seen && seen[id] <= n
    {
      ReachedIsSeen(nodes, hop, roots, d, seen, id, n);
    }
  }

  // ----- One round

  /** What one round adds: the nodes one hop from the frontier, at distance `d`. */
  ghost predicate Expanded(add: set<string>, d: nat, before: map<string, nat>, after: map<string, nat>) {
    && after.Keys == before.Keys + add
    && (forall id :: id in before ==> after[id] == before[id])
    && (forall id :: id in after && id !in before ==> after[id] == d)
  }

  /** The frontier: what entered the ball in round `d`. */
  ghost function Frontier(ball: nat -> set<string>, d: nat): set<string> {
    if d == 0 then ball(0) else ball(d) - ball(d - 1)
  }

  lemma {:induction false} NewcomerTouchesFrontier(
      nodes: set<string>, hop: Hops, roots: seq<string>, d: nat, front: set<string>, y: string)
    requires y in Ball(nodes, hop, roots, d + 1) && y !in Ball(nodes, hop, roots, d)
    requires forall x :: x in Ball(nodes, hop, roots, d) && (d == 0 || x !in Ball(nodes, hop, roots, d - 1)) ==>
               x in front
    ensures y in Around(nodes, hop, front)
  {
    var x := EnteredFrom(nodes, hop, roots, y, d);
    assert x in front;
  }

  lemma {:induction false} AroundStaysInBall(
      nodes: set<string>, hop: Hops, roots: seq<string>, d: nat, front: set<string>, y: string)
    requires y in Around(nodes, hop, front) && front <= Ball(nodes, hop, roots, d)
    ensures y in Ball(nodes, hop, roots, d + 1)
  {
    var x :| x in front && hop(x, y);
    HopLeavesBall(nodes, hop, roots, d, x, y);
  }

  /** Expanding the frontier alone gives the next ball: older nodes' neighbours are inside already. */
  lemma {:induction false} FrontierSuffices(
      nodes: set<string>, hop: Hops, roots: seq<string>, d: nat, front: set<string>)
    requires front == Frontier(Balls(nodes, hop, roots), d)
    ensures Ball(nodes, hop, roots, d) + Around(nodes, hop, front) == Ball(nodes, hop, roots, d + 1)
  {
    var inner, outer := Ball(nodes, hop, roots, d), Ball(nodes, hop, roots, d + 1);
    BallGrows(nodes, hop, roots, d, d + 1);
    forall y | y in outer && y !in inner
      ensures y in Around(nodes, hop, front)
    {
      NewcomerTouchesFrontier(nodes, hop, roots, d, front, y);
    }
    forall y | y in Around(nodes, hop, front)
      ensures y in outer
    {
      AroundStaysInBall(nodes, hop, roots, d, front, y);
    }
  }

  lemma {:induction false} RoundKeepsLayers(ball: nat -> set<string>, add: set<string>, d: nat,
                                            before: map<string, nat>, after: map<string, nat>)
    requires Layered(ball, d, before) && ball(d) + add == ball(d + 1) && Expanded(add, d + 1, before, after)
    ensures Layered(ball, d + 1, after)
    ensures after.Keys - before.Keys == Frontier(ball, d + 1)
  {
  }

  /** The search before a round: the layers so far and the list of nodes that entered last. */
  ghost predicate Searching(nodes: set<string>, hop: Hops, roots: seq<string>, d: nat, seen: map<string, nat>,
                            frontier: seq<string>) {
    && Layered(Balls(nodes, hop, roots), d, seen)
    && Members(frontier) == Frontier(Balls(nodes, hop, roots), d)
  }

  lemma {:induction false} RoundKeepsSearching(
      nodes: set<string>, hop: Hops, roots: seq<string>, d: nat, before: map<string, nat>, frontier: seq<string>,
      after: map<string, nat>, nxt: seq<string>)
    requires Searching(nodes, hop, roots, d, before, frontier)
    requires Expanded(Around(nodes, hop, Members(frontier)), d + 1, before, after)
    requires forall id :: id in nxt <==> id in after && id !in before
    ensures Searching(nodes, hop, roots, d + 1, after, nxt)
  {
    FrontierSuffices(nodes, hop, roots, d, Members(frontier));
    RoundKeepsLayers(Balls(nodes, hop, roots), Around(nodes, hop, Members(frontier)), d, before, after);
    assert Members(nxt) == after.Keys - before.Keys;
  }

  lemma {:induction false} SearchEnds(
      nodes: set<string>, hop: Hops, roots: seq<string>, depth: int, d: nat,
      seen: map<string, nat>, frontier: seq<string>)
    requires Searching(nodes, hop, roots, d, seen, frontier) && (d == 0 || d <= depth)
    requires frontier == [] || d >= depth
    ensures IsDistances(nodes, hop, roots, depth, seen)
  {
    if frontier == [] {
      FrontierSuffices(nodes, hop, roots, d, Members(frontier));
      assert Around(nodes, hop, Members(frontier)) == {};
    }
    LayeredIsDistances(nodes, hop, roots, depth, d, seen);
  }

  lemma {:induction false} SearchStarts(nodes: set<string>, hop: Hops, roots: seq<string>, seen: map<string, nat>,
                                        frontier: seq<string>)
    requires seen.Keys == Rooted(nodes, roots) && Members(frontier) == seen.Keys
    requires forall id :: id in seen ==> seen[id] == 0
    ensures Searching(nodes, hop, roots, 0, seen, frontier)
  {
  }

  // ----- The class

  function Sources(edges: seq<Edge>, id: string): seq<Edge> {
    if edges == [] then []
    else Sources(edges[..|edges| - 1], id)
         + if edges[|edges| - 1].src == id then [edges[|edges| - 1]] else []
  }

  function Targets(edges: seq<Edge>, id: string): seq<Edge> {
    if edges == [] then []
    else Targets(edges[..|edges| - 1], id)
         + if edges[|edges| - 1].dst == id then [edges[|edges| - 1]] else []
  }

  lemma {:induction false} AppendEdge(edges: seq<Edge>, e: Edge, id: string)
    ensures Sources(edges + [e], id) == Sources(edges, id) + (if e.src == id then [e] else [])
    ensures Targets(edges + [e], id) == Targets(edges, id) + (if e.dst == id then [e] else [])
  {
    assert (edges + [e])[..|edges|] == edges;
  }

  function Get(m: map<string, seq<Edge>>, id: string): seq<Edge> {
    if id in m then m[id] else []
  }

  ghost predicate SourcesListed(edges: seq<Edge>, m: map<string, seq<Edge>>) {
    forall id :: Get(m, id) == Sources(edges, id)
  }

  ghost predicate TargetsListed(edges: seq<Edge>, m: map<string, seq<Edge>>) {
    forall id :: Get(m, id) == Targets(edges, id)
  }

  lemma {:induction false} ListSource(edges: seq<Edge>, m: map<string, seq<Edge>>, e: Edge)
    requires SourcesListed(edges, m)
    ensures SourcesListed(edges + [e], m[e.src := Get(m, e.src) + [e]])
  {
    var m' := m[e.src := Get(m, e.src) + [e]];
    forall id
      ensures Get(m', id) == Sources(edges + [e], id)
    {
      AppendEdge(edges, e, id);
      assert Get(m, id) == Sources(edges, id);
    }
  }

  lemma {:induction false} ListTarget(edges: seq<Edge>, m: map<string, seq<Edge>>, e: Edge)
    requires TargetsListed(edges, m)
    ensures TargetsListed(edges + [e], m[e.dst := Get(m, e.dst) + [e]])
  {
    var m' := m[e.dst := Get(m, e.dst) + [e]];
    forall id
      ensures Get(m', id) == Targets(edges + [e], id)
    {
      AppendEdge(edges, e, id);
      assert Get(m, id) == Targets(edges, id);
    }
  }

  function Admitted(f: Filter, edges: seq<Edge>): seq<Edge> {
    if edges == [] then []
    else Admitted(f, edges[..|edges| - 1])
         + if f.Admits(edges[|edges| - 1]) then [edges[|edges| - 1]] else []
  }

  lemma {:induction false} SourcesMembers(edges: seq<Edge>, id: string, e: Edge)
    ensures e in Sources(edges, id) <==> e in edges && e.src == id
    ensures e in Targets(edges, id) <==> e in edges && e.dst == id
    decreases |edges|
  {
    if edges != [] {
      var n := |edges| - 1;
      SourcesMembers(edges[..n], id, e);
      assert edges == edges[..n] + [edges[n]];
    }
  }

  lemma {:induction false} AdmittedMembers(f: Filter, edges: seq<Edge>, e: Edge)
    ensures e in Admitted(f, edges) <==> e in edges && f.Admits(e)
    decreases |edges|
  {
    if edges != [] {
      var n := |edges| - 1;
      AdmittedMembers(f, edges[..n], e);
      assert edges == edges[..n] + [edges[n]];
    }
  }

  /** The edges at `id` that the filter follows, outgoing ones first. */
  function NeighborEdges(edges: seq<Edge>, f: Filter, id: string): seq<Edge> {
    Admitted(f, (if f.Forward() then Sources(edges, id) else [])
                + (if f.Backward() then Targets(edges, id) else []))
  }

  /** `both` gives the outgoing edges and then the incoming ones. */
  lemma {:induction false} OutgoingFirst(edges: seq<Edge>, rels: Option<set<string>>, id: string)
    ensures NeighborEdges(edges, Filter("both", rels), id)
         == NeighborEdges(edges, Filter("out", rels), id) + NeighborEdges(edges, Filter("in", rels), id)
  {
    AdmittedAppend(Filter("both", rels), Sources(edges, id), Targets(edges, id));
    AdmittedAlike(Filter("both", rels), Filter("out", rels), Sources(edges, id));
    AdmittedAlike(Filter("both", rels), Filter("in", rels), Targets(edges, id));
    assert Sources(edges, id) + [] == Sources(edges, id) && [] + Targets(edges, id) == Targets(edges, id);
  }

  lemma {:induction false} AdmittedAppend(f: Filter, a: seq<Edge>, b: seq<Edge>)
    ensures Admitted(f, a + b) == Admitted(f, a) + Admitted(f, b)
    decreases |b|
  {
    if b == [] {
      assert a + b == a;
    } else {
      assert (a + b)[..|a + b| - 1] == a + b[..|b| - 1];
      AdmittedAppend(f, a, b[..|b| - 1]);
    }
  }

  lemma {:induction false} AdmittedAlike(f: Filter, g: Filter, edges: seq<Edge>)
    requires f.rels == g.rels
    ensures Admitted(f, edges) == Admitted(g, edges)
  {
    if edges != [] {
      AdmittedAlike(f, g, edges[..|edges| - 1]);
    }
  }

  function Other(e: Edge, id: string): string {
    if e.src == id then e.dst else e.src
  }

  ghost predicate NoLoops(edges: seq<Edge>) {
    forall i :: 0 <= i < |edges| ==> edges[i].src != edges[i].dst
  }

  /** The far ends of the neighbour edges are exactly the nodes one hop away. */
  lemma {:induction false} NeighborsAreHops(g: Graph, f: Filter, id: string, y: string)
    requires NoLoops(g.edges)
    ensures Hop(g, f, id, y) <==> exists e :: e in NeighborEdges(g.edges, f, id) && Other(e, id) == y
  {
    if Hop(g, f, id, y) {
      var i :| 0 <= i < |g.edges| && f.Admits(g.edges[i])
        && ((f.Forward() && g.edges[i].src == id && g.edges[i].dst == y)
            || (f.Backward() && g.edges[i].dst == id && g.edges[i].src == y));
      var e := g.edges[i];
      NeighborMember(g.edges, f, id, e);
      assert e in NeighborEdges(g.edges, f, id) && Other(e, id) == y;
    }
    if e :| e in NeighborEdges(g.edges, f, id) && Other(e, id) == y {
      NeighborMember(g.edges, f, id, e);
      var i :| 0 <= i < |g.edges| && g.edges[i] == e;
      assert Hop(g, f, id, y);
    }
  }

  lemma {:induction false} NeighborMember(edges: seq<Edge>, f: Filter, id: string, e: Edge)
    ensures e in NeighborEdges(edges, f, id)
       <==> e in edges && f.Admits(e) && ((f.Forward() && e.src == id) || (f.Backward() && e.dst == id))
  {
    SourcesMembers(edges, id, e);
    AdmittedMembers(f, (if f.Forward() then Sources(edges, id) else [])
                       + (if f.Backward() then Targets(edges, id) else []), e);
  }

  // ----- The loops' sets

  function Members(s: seq<string>): set<string> {
    set x | x in s
  }

  function Ends(nodes: set<string>, edges: seq<Edge>, id: string): set<string> {
    set e | e in edges && Other(e, id) in nodes :: Other(e, id)
  }

  lemma {:induction false} EndsGrow(nodes: set<string>, edges: seq<Edge>, i: nat, id: string)
    requires i < |edges|
    ensures Ends(nodes, edges[..i + 1], id)
         == Ends(nodes, edges[..i], id) + if Other(edges[i], id) in nodes then {Other(edges[i], id)} else {}
  {
    assert edges[..i + 1] == edges[..i] + [edges[i]];
  }

  lemma {:induction false} EndsAreAround(g: Graph, f: Filter, id: string)
    requires NoLoops(g.edges)
    ensures Ends(g.nodes, NeighborEdges(g.edges, f, id), id) == Around(g.nodes, HopsOf(g, f), {id})
  {
    forall y
      ensures y in Ends(g.nodes, NeighborEdges(g.edges, f, id), id) <==> y in Around(g.nodes, HopsOf(g, f), {id})
    {
      NeighborsAreHops(g, f, id, y);
      assert Touches(HopsOf(g, f), {id}, y) <==> Hop(g, f, id, y);
    }
  }

  lemma {:induction false} AroundGrows(nodes: set<string>, hop: Hops, frontier: seq<string>, i: nat)
    requires i < |frontier|
    ensures Around(nodes, hop, Members(frontier[..i + 1]))
         == Around(nodes, hop, Members(frontier[..i])) + Around(nodes, hop, {frontier[i]})
  {
    assert Members(frontier[..i + 1]) == Members(frontier[..i]) + {frontier[i]};
    forall y
      ensures Touches(hop, Members(frontier[..i + 1]), y)
         <==> Touches(hop, Members(frontier[..i]), y) || Touches(hop, {frontier[i]}, y)
    {
    }
  }

  lemma {:induction false} ExpandedTwice(one: set<string>, two: set<string>, d: nat, a: map<string, nat>,
                                         b: map<string, nat>, c: map<string, nat>)
    requires Expanded(one, d, a, b) && Expanded(two, d, b, c)
    ensures Expanded(one + two, d, a, c)
  {
  }

  class Model {
    var nodes: set<string>
    var edges: seq<Edge>
    var outgoing: map<string, seq<Edge>>
    var incoming: map<string, seq<Edge>>

    /** Both adjacency maps list exactly the edges at a node, in order, and no edge is a loop. */
    ghost predicate Valid()
      reads this
    {
      && NoLoops(edges)
      && SourcesListed(edges, outgoing)
      && TargetsListed(edges, incoming)
    }

    function View(): Graph
      reads this
    {
      Graph(nodes, edges)
    }

    constructor ()
      ensures Valid() && View() == Graph({}, [])
    {
      nodes, edges, outgoing, incoming := {}, [], map[], map[];
    }

    method AddNode(id: string)
      requires Valid()
      modifies this`nodes
      ensures Valid() && View() == Graph(old(nodes) + {id}, old(edges))
    {
      nodes := nodes + {id};
    }

    method AddEdge(src: string, rel: string, dst: string)
      requires Valid()
      modifies this
      ensures Valid()
      ensures nodes == old(nodes)
      ensures edges == if src == dst then old(edges) else old(edges) + [Edge(src, rel, dst)]
    {
      if src == dst {
        return;
      }
      var e := Edge(src, rel, dst);
      ListSource(edges, outgoing, e);
      ListTarget(edges, incoming, e);
      edges := edges + [e];
      outgoing := outgoing[src := Get(outgoing, src) + [e]];
      incoming := incoming[dst := Get(incoming, dst) + [e]];
    }

    method Neighbors(id: string, f: Filter) returns (found: seq<Edge>)
      requires Valid()
      ensures found == NeighborEdges(edges, f, id)
    {
      var forward := if f.Forward() then Get(outgoing, id) else [];
      var backward := if f.Backward() then Get(incoming, id) else [];
      found := Admitted(f, forward + backward);
    }

    /** Follow every edge at `nid`: a registered node not seen before enters at distance `d`. */
    method Expand(f: Filter, nid: string, d: nat, before: map<string, nat>)
      returns (seen: map<string, nat>, entered: seq<string>)
      requires Valid()
      ensures Expanded(Around(nodes, HopsOf(View(), f), {nid}), d, before, seen)
      ensures forall id :: id in entered <==> id in seen && id !in before
    {
      var found := Neighbors(nid, f);
      seen, entered := Follow(nodes, found, nid, d, before);
      EndsAreAround(View(), f, nid);
    }

    static method Follow(nodes: set<string>, found: seq<Edge>, nid: string, d: nat, before: map<string, nat>)
      returns (seen: map<string, nat>, entered: seq<string>)
      ensures Expanded(Ends(nodes, found, nid), d, before, seen)
      ensures forall id :: id in entered <==> id in seen && id !in before
    {
      seen, entered := before, [];
      for i := 0 to |found|
        invariant Expanded(Ends(nodes, found[..i], nid), d, before, seen)
        invariant forall id :: id in entered <==> id in seen && id !in before
      {
        EndsGrow(nodes, found, i, nid);
        var other := Other(found[i], nid);
        if other in nodes && other !in seen {
          seen := seen[other := d];
          entered := entered + [other];
        }
      }
      assert found[..|found|] == found;
    }

    method Round(f: Filter, frontier: seq<string>, d: nat, before: map<string, nat>)
      returns (seen: map<string, nat>, nxt: seq<string>)
      requires Valid()
      ensures Expanded(Around(nodes, HopsOf(View(), f), Members(frontier)), d, before, seen)
      ensures forall id :: id in nxt <==> id in seen && id !in before
    {
      seen, nxt := before, [];
      for i := 0 to |frontier|
        invariant Expanded(Around(nodes, HopsOf(View(), f), Members(frontier[..i])), d, before, seen)
        invariant forall id :: id in nxt <==> id in seen && id !in before
      {
        ghost var mid := seen;
        var more;
        seen, more := Expand(f, frontier[i], d, seen);
        nxt := nxt + more;
        AroundGrows(nodes, HopsOf(View(), f), frontier, i);
        ExpandedTwice(Around(nodes, HopsOf(View(), f), Members(frontier[..i])),
                      Around(nodes, HopsOf(View(), f), {frontier[i]}), d, before, mid, seen);
      }
      assert frontier[..|frontier|] == frontier;
    }

    /** The registered nodes within `depth` hops of the registered roots, each with its distance. */
    method Bfs(roots: seq<string>, f: Filter, depth: int) returns (seen: map<string, nat>)
      requires Valid()
      ensures IsDistances(nodes, HopsOf(View(), f), roots, depth, seen)
    {
      ghost var hop := HopsOf(View(), f);
      var frontier;
      seen, frontier := Start(roots);
      SearchStarts(nodes, hop, roots, seen, frontier);
      var d: nat := 0;
      while frontier != [] && d < depth
        invariant d == 0 || d <= depth
        invariant Searching(nodes, hop, roots, d, seen, frontier)
        decreases depth - d
      {
        var after, nxt := Round(f, frontier, d + 1, seen);
        RoundKeepsSearching(nodes, hop, roots, d, seen, frontier, after, nxt);
        seen, frontier, d := after, nxt, d + 1;
      }
      SearchEnds(nodes, hop, roots, depth, d, seen, frontier);
    }

    method Start(roots: seq<string>) returns (seen: map<string, nat>, frontier: seq<string>)
      ensures seen.Keys == Rooted(nodes, roots) && Members(frontier) == seen.Keys
      ensures forall id :: id in seen ==> seen[id] == 0
    {
      seen, frontier := map[], [];
      for i := 0 to |roots|
        invariant seen.Keys == Rooted(nodes, roots[..i]) && Members(frontier) == seen.Keys
        invariant forall id :: id in seen ==> seen[id] == 0
      {
        if roots[i] in nodes && roots[i] !in seen {
          seen := seen[roots[i] := 0];
          frontier := frontier + [roots[i]];
        }
      }
      assert roots[..|roots|] == roots;
    }
  }
}
