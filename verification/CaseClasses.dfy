/**
 `fold_classes`: the case-fold classes of a list of candidate pairs, by union-find with path halving. The
 parent of a code point is always smaller, so the root of a class is its least member.
 */
module CaseClasses {
  import opened Sorting

  datatype Pair = Pair(a: nat, b: nat)

  type Parents = map<nat, nat>

  // ----- Reported equality and its closure

  /** The pairs reported equal, as `zip` reads the two lists: up to the shorter one's end. */
  function Reported(pairs: seq<Pair>, eq: seq<bool>): seq<Pair>
    decreases |pairs|
  {
    if pairs == [] || eq == [] then []
    else (if eq[0] then [pairs[0]] else []) + Reported(pairs[1..], eq[1..])
  }

  predicate Linked(links: seq<Pair>, x: nat, y: nat) {
    Pair(x, y) in links || Pair(y, x) in links
  }

  ghost predicate IsPath(links: seq<Pair>, path: seq<nat>) {
    path != [] && forall i: nat :: i + 1 < |path| ==> Linked(links, path[i], path[i + 1])
  }

  /** `x` and `y` are joined by a chain of reported pairs. */
  ghost predicate Connected(links: seq<Pair>, x: nat, y: nat) {
    exists path :: IsPath(links, path) && path[0] == x && path[|path| - 1] == y
  }

  lemma {:induction false} Reflexive(links: seq<Pair>, x: nat)
    ensures Connected(links, x, x)
  {
    assert IsPath(links, [x]);
  }

  lemma {:induction false} Transitive(links: seq<Pair>, x: nat, y: nat, z: nat)
    requires Connected(links, x, y) && Connected(links, y, z)
    ensures Connected(links, x, z)
  {
    var p :| IsPath(links, p) && p[0] == x && p[|p| - 1] == y;
    var q :| IsPath(links, q) && q[0] == y && q[|q| - 1] == z;
    var r := p + q[1..];
    forall i: nat | i + 1 < |r|
      ensures Linked(links, r[i], r[i + 1])
    {
      if i + 1 < |p| {
      } else {
        var k: nat := i + 1 - |p|;
        assert r[i] == q[k] && r[i + 1] == q[k + 1];
      }
    }
    assert IsPath(links, r);
  }

  lemma {:induction false} LinkConnects(links: seq<Pair>, x: nat, y: nat)
    requires Linked(links, x, y)
    ensures Connected(links, x, y) && Connected(links, y, x)
  {
    assert IsPath(links, [x, y]) && IsPath(links, [y, x]);
  }

  lemma {:induction false} MoreLinks(links: seq<Pair>, more: seq<Pair>, x: nat, y: nat)
    requires Connected(links, x, y) && forall e :: e in links ==> e in more
    ensures Connected(more, x, y)
  {
    var p :| IsPath(links, p) && p[0] == x && p[|p| - 1] == y;
    assert IsPath(more, p);
  }

  // ----- The forest

  ghost predicate Descending(parent: Parents) {
    forall x :: x in parent ==> parent[x] < x
  }

  function Root(parent: Parents, x: nat): (r: nat)
    requires Descending(parent)
    ensures r <= x && r !in parent
    decreases x
  {
    if x in parent then Root(parent, parent[x]) else x
  }

  /** `parent.get(x, x)`. */
  function Parent(parent: Parents, x: nat): nat {
    if x in parent then parent[x] else x
  }

  ghost predicate SameRoots(p: Parents, q: Parents) {
    Descending(p) && Descending(q) && forall y: nat :: Root(q, y) == Root(p, y)
  }

  /** Halving: pointing a node at its grandparent moves no root and keeps parents smaller. */
  lemma {:induction false} HalvingKeepsRoot(p: Parents, x: nat, y: nat)
    requires Descending(p) && x in p
    ensures Descending(p[x := Parent(p, p[x])])
    ensures Root(p[x := Parent(p, p[x])], y) == Root(p, y)
    decreases y
  {
    var q := p[x := Parent(p, p[x])];
    if y in p {
      HalvingKeepsRoot(p, x, q[y]);
    }
  }

  lemma {:induction false} HalvingKeepsRoots(p: Parents, x: nat)
    requires Descending(p) && x in p
    ensures SameRoots(p, p[x := Parent(p, p[x])])
  {
    forall y: nat
      ensures Descending(p[x := Parent(p, p[x])]) && Root(p[x := Parent(p, p[x])], y) == Root(p, y)
    {
      HalvingKeepsRoot(p, x, y);
    }
  }

  /** Finds the root while halving the path; every root stays where it was. */
  method Find(parent: Parents, start: nat) returns (root: nat, halved: Parents)
    requires Descending(parent)
    ensures SameRoots(parent, halved) && root == Root(parent, start)
  {
    var x := start;
    halved := parent;
    while Parent(halved, x) != x
      invariant SameRoots(parent, halved) && Root(halved, x) == Root(parent, start)
      decreases x
    {
      HalvingKeepsRoots(halved, x);
      halved := halved[x := Parent(halved, halved[x])];
      x := halved[x];
    }
    root := x;
  }

  lemma {:induction false} UnionMovesRoot(p: Parents, lo: nat, hi: nat, y: nat)
    requires Descending(p) && lo < hi && lo !in p && hi !in p
    ensures Descending(p[hi := lo])
    ensures Root(p[hi := lo], y) == if Root(p, y) == hi then lo else Root(p, y)
    decreases y
  {
    if y in p {
      UnionMovesRoot(p, lo, hi, p[y]);
    }
  }

  // ----- The forest stands for the links

  ghost predicate ToRoot(p: Parents, links: seq<Pair>, x: nat)
    requires Descending(p)
  {
    Connected(links, x, Root(p, x)) && Connected(links, Root(p, x), x)
  }

  ghost predicate Represents(p: Parents, links: seq<Pair>) {
    && Descending(p)
    && (forall x: nat :: ToRoot(p, links, x))
    && (forall e :: e in links ==> Root(p, e.a) == Root(p, e.b))
  }

  lemma {:induction false} PathKeepsRoot(p: Parents, links: seq<Pair>, path: seq<nat>)
    requires Represents(p, links) && IsPath(links, path)
    ensures Root(p, path[0]) == Root(p, path[|path| - 1])
    decreases |path|
  {
    if |path| > 1 {
      var n := |path| - 1;
      PathKeepsRoot(p, links, path[..n]);
      assert Linked(links, path[n - 1], path[n]);
    }
  }

  /** Two code points have one root exactly when reported pairs join them. */
  lemma {:induction false} SameRootIffConnected(p: Parents, links: seq<Pair>, x: nat, y: nat)
    requires Represents(p, links)
    ensures Root(p, x) == Root(p, y) <==> Connected(links, x, y)
  {
    assert ToRoot(p, links, x) && ToRoot(p, links, y);
    if Root(p, x) == Root(p, y) {
      Transitive(links, x, Root(p, x), y);
    }
    if path :| IsPath(links, path) && path[0] == x && path[|path| - 1] == y {
      PathKeepsRoot(p, links, path);
    }
  }

  lemma {:induction false} HalvedRepresents(p: Parents, q: Parents, links: seq<Pair>)
    requires Represents(p, links) && SameRoots(p, q)
    ensures Represents(q, links)
  {
    forall x: nat
      ensures ToRoot(q, links, x)
    {
      assert ToRoot(p, links, x);
    }
  }

  lemma {:induction false} JoinedToRoot(p: Parents, links: seq<Pair>, e: Pair, more: seq<Pair>, x: nat, y: nat)
    requires Represents(p, links) && more == links + [e]
    requires Root(p, x) == Root(p, e.a) && Root(p, y) == Root(p, e.b)
    ensures Connected(more, x, y) && Connected(more, y, x)
  {
    SameRootIffConnected(p, links, x, e.a);
    SameRootIffConnected(p, links, e.a, x);
    SameRootIffConnected(p, links, y, e.b);
    SameRootIffConnected(p, links, e.b, y);
    MoreLinks(links, more, x, e.a);
    MoreLinks(links, more, e.a, x);
    MoreLinks(links, more, y, e.b);
    MoreLinks(links, more, e.b, y);
    assert Linked(more, e.a, e.b);
    LinkConnects(more, e.a, e.b);
    Transitive(more, x, e.a, e.b);
    Transitive(more, x, e.b, y);
    Transitive(more, y, e.b, e.a);
    Transitive(more, y, e.a, x);
  }

  lemma {:induction false} OldToRoot(p: Parents, links: seq<Pair>, e: Pair, x: nat)
    requires Represents(p, links)
    ensures ToRoot(p, links + [e], x)
  {
    assert ToRoot(p, links, x);
    MoreLinks(links, links + [e], x, Root(p, x));
    MoreLinks(links, links + [e], Root(p, x), x);
  }

  lemma {:induction false} AlreadyJoined(p: Parents, links: seq<Pair>, e: Pair)
    requires Represents(p, links) && Root(p, e.a) == Root(p, e.b)
    ensures Represents(p, links + [e])
  {
    forall x: nat
      ensures ToRoot(p, links + [e], x)
    {
      OldToRoot(p, links, e, x);
    }
  }

  lemma {:induction false} UnionToRoot(p: Parents, links: seq<Pair>, e: Pair, lo: nat, hi: nat, x: nat)
    requires Represents(p, links) && lo < hi
    requires (Root(p, e.a) == lo && Root(p, e.b) == hi) || (Root(p, e.a) == hi && Root(p, e.b) == lo)
    ensures Descending(p[hi := lo]) && ToRoot(p[hi := lo], links + [e], x)
  {
    UnionMovesRoot(p, lo, hi, x);
    if Root(p, x) == hi {
      assert Root(p, lo) == lo && Root(p, hi) == hi;
      if Root(p, e.a) == hi {
        JoinedToRoot(p, links, e, links + [e], x, lo);
      } else {
        JoinedToRoot(p, links, e, links + [e], lo, x);
      }
    } else {
      OldToRoot(p, links, e, x);
    }
  }

  /** Hanging the larger root under the smaller adds exactly the new pair to what the forest joins. */
  lemma {:induction false} UnionRepresents(p: Parents, links: seq<Pair>, e: Pair, lo: nat, hi: nat)
    requires Represents(p, links) && lo < hi
    requires (Root(p, e.a) == lo && Root(p, e.b) == hi) || (Root(p, e.a) == hi && Root(p, e.b) == lo)
    ensures Represents(p[hi := lo], links + [e])
  {
    UnionMovesRoot(p, lo, hi, 0);
    var q := p[hi := lo];
    forall x: nat
      ensures ToRoot(q, links + [e], x)
    {
      UnionToRoot(p, links, e, lo, hi, x);
    }
    forall d | d in links + [e]
      ensures Root(p[hi := lo], d.a) == Root(p[hi := lo], d.b)
    {
      UnionMovesRoot(p, lo, hi, d.a);
      UnionMovesRoot(p, lo, hi, d.b);
    }
  }

  method Unite(parent: Parents, ghost links: seq<Pair>, e: Pair) returns (joined: Parents)
    requires Represents(parent, links)
    ensures Represents(joined, links + [e])
  {
    var ra, halved := Find(parent, e.a);
    HalvedRepresents(parent, halved, links);
    var rb;
    rb, joined := Find(halved, e.b);
    HalvedRepresents(halved, joined, links);
    if ra == rb {
      AlreadyJoined(joined, links, e);
    } else {
      var lo, hi := if ra < rb then ra else rb, if ra < rb then rb else ra;
      UnionRepresents(joined, links, e, lo, hi);
      joined := joined[hi := lo];
    }
  }

  lemma {:induction false} ReportedStep(links: seq<Pair>, pairs: seq<Pair>, eq: seq<bool>, i: nat)
    requires i < |pairs| && i < |eq|
    ensures links + Reported(pairs[i..], eq[i..])
         == (if eq[i] then links + [pairs[i]] else links) + Reported(pairs[i + 1..], eq[i + 1..])
  {
    assert pairs[i..][1..] == pairs[i + 1..] && eq[i..][1..] == eq[i + 1..];
  }

  lemma EmptyRepresents()
    ensures Represents(map[], [])
  {
    forall x: nat
      ensures ToRoot(map[], [], x)
    {
      Reflexive([], x);
    }
  }

  method BuildForest(pairs: seq<Pair>, eq: seq<bool>) returns (parent: Parents)
    ensures Represents(parent, Reported(pairs, eq))
  {
    parent := map[];
    ghost var links := [];
    EmptyRepresents();
    var i := 0;
    while i < |pairs| && i < |eq|
      invariant i <= |pairs| && i <= |eq|
      invariant Represents(parent, links)
      invariant links + Reported(pairs[i..], eq[i..]) == Reported(pairs, eq)
    {
      ReportedStep(links, pairs, eq, i);
      if eq[i] {
        parent := Unite(parent, links, pairs[i]);
        links := links + [pairs[i]];
      }
      i := i + 1;
    }
    assert links + [] == links;
  }

  // ----- The classes

  function Nodes(pairs: seq<Pair>): set<nat> {
    (set e | e in pairs :: e.a) + (set e | e in pairs :: e.b)
  }

  /** A pair is reported exactly when the answer at its place says so. */
  lemma {:induction false} ReportedIff(pairs: seq<Pair>, eq: seq<bool>, e: Pair)
    ensures e in Reported(pairs, eq) <==> exists i :: 0 <= i < |pairs| && i < |eq| && pairs[i] == e && eq[i]
    decreases |pairs|
  {
    if pairs != [] && eq != [] {
      ReportedIff(pairs[1..], eq[1..], e);
      if i :| 0 <= i < |pairs| && i < |eq| && pairs[i] == e && eq[i] {
        assert i > 0 ==> pairs[1..][i - 1] == e && eq[1..][i - 1];
      }
      if i :| 0 <= i < |pairs[1..]| && i < |eq[1..]| && pairs[1..][i] == e && eq[1..][i] {
        assert pairs[i + 1] == e && eq[i + 1];
      }
    }
  }

  predicate NatLe(x: nat, y: nat) {
    x <= y
  }

  predicate Ascending(c: seq<nat>) {
    forall i, j :: 0 <= i < j < |c| ==> c[i] < c[j]
  }

  /** Python's list order: the first difference decides, a prefix comes first. */
  predicate LexLe(c: seq<nat>, d: seq<nat>) {
    c == [] || (d != [] && (c[0] < d[0] || (c[0] == d[0] && LexLe(c[1..], d[1..]))))
  }

  /** `c` is a class: two or more code points, in order, all those joined to its first and no others. */
  ghost predicate IsClass(links: seq<Pair>, nodes: set<nat>, c: seq<nat>) {
    && |c| >= 2 && Ascending(c)
    && forall y: nat :: y in c <==> y in nodes && Connected(links, c[0], y)
  }

  /** The class list: each class once, by least member, and every point joined to another in one. */
  ghost predicate IsClassList(links: seq<Pair>, nodes: set<nat>, classes: seq<seq<nat>>) {
    && (forall c :: c in classes ==> IsClass(links, nodes, c))
    && HeadsAscend(classes)
    && (forall x: nat, y: nat :: x in nodes && y in nodes && x != y && Connected(links, x, y) ==>
          InSome(classes, x))
  }

  ghost predicate HeadsAscend(classes: seq<seq<nat>>) {
    forall i, j :: 0 <= i < j < |classes| ==> HeadBelow(classes[i], classes[j])
  }

  predicate HeadBelow(c: seq<nat>, d: seq<nat>) {
    c != [] && d != [] && c[0] < d[0]
  }

  ghost predicate InSome(classes: seq<seq<nat>>, x: nat) {
    exists c :: c in classes && x in c
  }

  ghost predicate Distinct(s: seq<nat>) {
    forall i, j :: 0 <= i < j < |s| ==> s[i] != s[j]
  }

  /** `groups` splits `done` by root. */
  ghost predicate Grouped(p: Parents, done: set<nat>, groups: map<nat, seq<nat>>) {
    && Descending(p)
    && (forall r: nat, y: nat :: r in groups ==> (y in groups[r] <==> y in done && Root(p, y) == r))
    && (forall r: nat :: r in groups ==> Distinct(groups[r]))
    && (forall y: nat :: y in done ==> Root(p, y) in groups)
  }

  lemma {:induction false} GroupOne(p: Parents, done: set<nat>, groups: map<nat, seq<nat>>, x: nat)
    requires Grouped(p, done, groups) && x !in done
    ensures var r := Root(p, x);
            Grouped(p, done + {x}, groups[r := (if r in groups then groups[r] else []) + [x]])
  {
  }

  method Group(parent: Parents, nodes: set<nat>) returns (groups: map<nat, seq<nat>>)
    requires Descending(parent)
    ensures Grouped(parent, nodes, groups)
  {
    groups := map[];
    var forest, rest := parent, nodes;
    while rest != {}
      invariant rest <= nodes && SameRoots(parent, forest)
      invariant Grouped(parent, nodes - rest, groups)
      decreases rest
    {
      var x :| x in rest;
      var r;
      r, forest := Find(forest, x);
      GroupOne(parent, nodes - rest, groups, x);
      groups := groups[r := (if r in groups then groups[r] else []) + [x]];
      assert nodes - (rest - {x}) == (nodes - rest) + {x};
      rest := rest - {x};
    }
    assert nodes - rest == nodes;
  }

  // ----- Sorting a group and the list of groups

  lemma {:induction false} LexTotal(c: seq<nat>, d: seq<nat>)
    ensures LexLe(c, d) || LexLe(d, c)
  {
    if c != [] && d != [] && c[0] == d[0] {
      LexTotal(c[1..], d[1..]);
    }
  }

  lemma {:induction false} LexTransitive(c: seq<nat>, d: seq<nat>, e: seq<nat>)
    requires LexLe(c, d) && LexLe(d, e)
    ensures LexLe(c, e)
  {
    if c != [] && c[0] == d[0] && d[0] == e[0] {
      LexTransitive(c[1..], d[1..], e[1..]);
    }
  }

  lemma LexOrders()
    ensures TotalPreorder(LexLe)
  {
    forall c, d
      ensures LexLe(c, d) || LexLe(d, c)
    {
      LexTotal(c, d);
    }
    forall c, d, e | LexLe(c, d) && LexLe(d, e)
      ensures LexLe(c, e)
    {
      LexTransitive(c, d, e);
    }
  }

  lemma {:induction false} SortedLists(lists: seq<seq<nat>>)
    ensures SortedBy(Sort(lists, LexLe), LexLe)
  {
    LexOrders();
    SortSorted(lists, LexLe);
  }

  lemma {:induction false} DistinctCounts(s: seq<nat>)
    ensures Distinct(s) <==> forall x: nat :: multiset(s)[x] <= 1
    decreases |s|
  {
    if s != [] {
      var n := |s| - 1;
      assert s == s[..n] + [s[n]];
      DistinctCounts(s[..n]);
      assert forall x: nat :: multiset(s)[x] == multiset(s[..n])[x] + if x == s[n] then 1 else 0;
      assert multiset(s[..n])[s[n]] == 0 <==> s[n] !in s[..n];
    }
  }

  lemma {:induction false} SortedGroup(s: seq<nat>)
    requires Distinct(s)
    ensures Ascending(Sort(s, NatLe)) && forall x: nat :: x in Sort(s, NatLe) <==> x in s
  {
    var t := Sort(s, NatLe);
    SortSorted(s, NatLe);
    SortMembers(s, NatLe);
    DistinctCounts(s);
    DistinctCounts(t);
    forall i, j | 0 <= i < j < |t|
      ensures t[i] < t[j]
    {
      assert NatLe(t[i], t[j]);
    }
  }

  function ClassAt(groups: map<nat, seq<nat>>, r: nat): seq<nat> {
    if r in groups then Sort(groups[r], NatLe) else []
  }

  predicate IsLarge(groups: map<nat, seq<nat>>, r: nat) {
    r in groups && |groups[r]| > 1
  }

  /** A group of two or more, once sorted, is a class, and its first member has its root. */
  lemma {:induction false} GroupIsClass(
      p: Parents, links: seq<Pair>, nodes: set<nat>, groups: map<nat, seq<nat>>, r: nat)
    requires Represents(p, links) && Grouped(p, nodes, groups) && IsLarge(groups, r)
    ensures var c := ClassAt(groups, r); IsClass(links, nodes, c) && Root(p, c[0]) == r
  {
    var c := ClassAt(groups, r);
    SortedGroup(groups[r]);
    assert c[0] in c;
    forall y: nat
      ensures y in c <==> y in nodes && Connected(links, c[0], y)
    {
      SameRootIffConnected(p, links, c[0], y);
    }
  }

  /** `roots` lists the roots of the large groups among `taken`, each once. */
  ghost predicate Roots(groups: map<nat, seq<nat>>, taken: set<nat>, roots: seq<nat>) {
    && Distinct(roots)
    && forall r: nat :: r in roots <==> r in taken && IsLarge(groups, r)
  }

  function ClassesOf(groups: map<nat, seq<nat>>, roots: seq<nat>): (r: seq<seq<nat>>)
    ensures |r| == |roots| && forall i :: 0 <= i < |r| ==> r[i] == ClassAt(groups, roots[i])
  {
    seq(|roots|, i requires 0 <= i < |roots| => ClassAt(groups, roots[i]))
  }

  ghost predicate HeadsDiffer(classes: seq<seq<nat>>) {
    && (forall c :: c in classes ==> c != [])
    && forall i, j :: 0 <= i < j < |classes| ==>
         classes[i] != [] && classes[j] != [] && classes[i][0] != classes[j][0]
  }

  lemma {:induction false} ClassesOfRoots(p: Parents, links: seq<Pair>, nodes: set<nat>, groups: map<nat, seq<nat>>,
                                          roots: seq<nat>)
    requires Represents(p, links) && Grouped(p, nodes, groups) && Roots(groups, groups.Keys, roots)
    ensures forall c :: c in ClassesOf(groups, roots) ==> IsClass(links, nodes, c)
    ensures HeadsDiffer(ClassesOf(groups, roots))
  {
    var classes := ClassesOf(groups, roots);
    forall i | 0 <= i < |classes|
      ensures IsClass(links, nodes, classes[i]) && Root(p, classes[i][0]) == roots[i]
    {
      assert roots[i] in roots;
      GroupIsClass(p, links, nodes, groups, roots[i]);
    }
  }

  lemma {:induction false} TwoInGroup(g: seq<nat>, x: nat, y: nat)
    requires x in g && y in g && x != y
    ensures |g| > 1
  {
    var i :| 0 <= i < |g| && g[i] == x;
    var j :| 0 <= j < |g| && g[j] == y;
    assert i != j;
  }

  lemma {:induction false} JoinedAreListed(p: Parents, links: seq<Pair>, nodes: set<nat>, groups: map<nat, seq<nat>>,
                                           roots: seq<nat>, x: nat, y: nat)
    requires Represents(p, links) && Grouped(p, nodes, groups) && Roots(groups, groups.Keys, roots)
    requires x in nodes && y in nodes && x != y && Connected(links, x, y)
    ensures InSome(ClassesOf(groups, roots), x)
  {
    SameRootIffConnected(p, links, x, y);
    var r := Root(p, x);
    TwoInGroup(groups[r], x, y);
    SortedGroup(groups[r]);
    assert IsLarge(groups, r);
    var k :| 0 <= k < |roots| && roots[k] == r;
    assert ClassesOf(groups, roots)[k] == ClassAt(groups, r);
    assert ClassAt(groups, r) in ClassesOf(groups, roots);
  }

  lemma {:induction false} HeadOnce(classes: seq<seq<nat>>, h: nat)
    requires HeadsDiffer(classes)
    ensures forall c, d :: c in classes && d in classes && c[0] == h && d[0] == h ==> c == d
    ensures forall c :: c in classes ==> multiset(classes)[c] == 1
    decreases |classes|
  {
    if classes != [] {
      var n := |classes| - 1;
      var init, last := classes[..n], classes[n];
      assert classes == init + [last];
      HeadOnce(init, h);
      assert forall c :: c in init ==> c[0] != last[0];
      assert last !in init;
    }
  }

  lemma {:induction false} SortedHeads(classes: seq<seq<nat>>, out: seq<seq<nat>>, i: nat, j: nat)
    requires HeadsDiffer(classes) && multiset(out) == multiset(classes) && SortedBy(out, LexLe)
    requires i < j < |out|
    ensures HeadBelow(out[i], out[j])
  {
    assert out[i] in multiset(classes) && out[j] in multiset(classes);
    assert out[i] in classes && out[j] in classes;
    assert LexLe(out[i], out[j]);
    HeadOnce(classes, out[j][0]);
    TakenTwice(out, i, j);
  }

  lemma {:induction false} TakenTwice(s: seq<seq<nat>>, i: nat, j: nat)
    requires i < j < |s|
    ensures s[i] == s[j] ==> multiset(s)[s[i]] >= 2
  {
    assert s == s[..j] + s[j..];
    assert s[i] in s[..j] && s[j] in s[j..];
  }

  lemma {:induction false} SortingHeads(classes: seq<seq<nat>>, out: seq<seq<nat>>)
    requires HeadsDiffer(classes) && multiset(out) == multiset(classes) && SortedBy(out, LexLe)
    ensures HeadsAscend(out)
  {
    forall i, j | 0 <= i < j < |out|
      ensures HeadBelow(out[i], out[j])
    {
      SortedHeads(classes, out, i, j);
    }
  }

  lemma {:induction false} StillInSome(classes: seq<seq<nat>>, x: nat)
    requires InSome(classes, x)
    ensures InSome(Sort(classes, LexLe), x)
  {
    SortMembers(classes, LexLe);
  }

  lemma {:induction false} StillClasses(links: seq<Pair>, nodes: set<nat>, classes: seq<seq<nat>>)
    requires forall c :: c in classes ==> IsClass(links, nodes, c)
    ensures forall c :: c in Sort(classes, LexLe) ==> IsClass(links, nodes, c)
  {
    SortMembers(classes, LexLe);
  }

  lemma {:induction false} SortedClasses(p: Parents, links: seq<Pair>, nodes: set<nat>, groups: map<nat, seq<nat>>,
                                         roots: seq<nat>)
    requires Represents(p, links) && Grouped(p, nodes, groups) && Roots(groups, groups.Keys, roots)
    ensures IsClassList(links, nodes, Sort(ClassesOf(groups, roots), LexLe))
  {
    ClassesOfRoots(p, links, nodes, groups, roots);
    SortedLists(ClassesOf(groups, roots));
    SortingHeads(ClassesOf(groups, roots), Sort(ClassesOf(groups, roots), LexLe));
    StillClasses(links, nodes, ClassesOf(groups, roots));
    forall x: nat, y: nat | x in nodes && y in nodes && x != y && Connected(links, x, y)
      ensures InSome(Sort(ClassesOf(groups, roots), LexLe), x)
    {
      JoinedAreListed(p, links, nodes, groups, roots, x, y);
      StillInSome(ClassesOf(groups, roots), x);
    }
  }

  /** The large groups' roots, and their sorted members, in the order the dictionary is walked. */
  method ListClasses(groups: map<nat, seq<nat>>) returns (classes: seq<seq<nat>>, ghost roots: seq<nat>)
    ensures Roots(groups, groups.Keys, roots) && classes == ClassesOf(groups, roots)
  {
    classes, roots := [], [];
    var rest := groups.Keys;
    while rest != {}
      invariant rest <= groups.Keys && Roots(groups, groups.Keys - rest, roots)
      invariant classes == ClassesOf(groups, roots)
      decreases rest
    {
      var r :| r in rest;
      if |groups[r]| > 1 {
        classes, roots := classes + [Sort(groups[r], NatLe)], roots + [r];
      }
      rest := rest - {r};
    }
  }

  /** The classes returned are exactly the components of two or more code points of the reported pairs,
      each once, in order of their least members. */
  method FoldClasses(pairs: seq<Pair>, eq: seq<bool>) returns (classes: seq<seq<nat>>)
    ensures IsClassList(Reported(pairs, eq), Nodes(pairs), classes)
  {
    var parent := BuildForest(pairs, eq);
    var groups := Group(parent, Nodes(pairs));
    var listed, roots := ListClasses(groups);
    SortedClasses(parent, Reported(pairs, eq), Nodes(pairs), groups, roots);
    classes := Sort(listed, LexLe);
  }

  lemma {:induction false} LeastOfClass(links: seq<Pair>, nodes: set<nat>, c: seq<nat>, y: nat)
    requires IsClass(links, nodes, c) && y in nodes && Connected(links, c[0], y)
    ensures c[0] <= y
  {
    assert y in c;
  }

  lemma {:induction false} ReportedWithin(pairs: seq<Pair>, eq: seq<bool>)
    ensures forall e :: e in Reported(pairs, eq) ==> e in pairs
    decreases |pairs|
  {
    if pairs != [] && eq != [] {
      ReportedWithin(pairs[1..], eq[1..]);
    }
  }

  lemma {:induction false} JoinedIsCandidate(pairs: seq<Pair>, eq: seq<bool>, x: nat, y: nat)
    requires Connected(Reported(pairs, eq), x, y) && x in Nodes(pairs)
    ensures y in Nodes(pairs)
  {
    var links := Reported(pairs, eq);
    var path :| IsPath(links, path) && path[0] == x && path[|path| - 1] == y;
    ReportedWithin(pairs, eq);
    if |path| > 1 {
      assert Linked(links, path[|path| - 2], path[|path| - 1]);
    }
  }

  /** The root of a class, in any forest that stands for the reported pairs, is its least member. */
  lemma {:induction false} RootIsLeast(p: Parents, pairs: seq<Pair>, eq: seq<bool>, c: seq<nat>, y: nat)
    requires Represents(p, Reported(pairs, eq)) && IsClass(Reported(pairs, eq), Nodes(pairs), c) && y in c
    ensures Root(p, y) == c[0]
  {
    var links, r := Reported(pairs, eq), Root(p, c[0]);
    assert c[0] in c && ToRoot(p, links, c[0]);
    JoinedIsCandidate(pairs, eq, c[0], r);
    LeastOfClass(links, Nodes(pairs), c, r);
    SameRootIffConnected(p, links, c[0], y);
  }

  /** Two classes of the list share no code point. */
  lemma {:induction false} ClassesAreDisjoint(
      links: seq<Pair>, nodes: set<nat>, classes: seq<seq<nat>>, i: nat, j: nat, x: nat)
    requires IsClassList(links, nodes, classes) && i < j < |classes| && x in classes[i]
    ensures x !in classes[j]
  {
    var c, d := classes[i], classes[j];
    assert c in classes && d in classes && c[0] in c && d[0] in d;
    assert IsClass(links, nodes, c) && IsClass(links, nodes, d);
    if Connected(links, d[0], x) {
      ConnectedBack(links, c[0], x);
      Transitive(links, d[0], x, c[0]);
      LeastOfClass(links, nodes, d, c[0]);
    }
  }

  lemma {:induction false} ConnectedBack(links: seq<Pair>, x: nat, y: nat)
    requires Connected(links, x, y)
    ensures Connected(links, y, x)
  {
    var p :| IsPath(links, p) && p[0] == x && p[|p| - 1] == y;
    PathBack(links, p);
  }

  lemma {:induction false} PathBack(links: seq<Pair>, p: seq<nat>)
    requires IsPath(links, p)
    ensures Connected(links, p[|p| - 1], p[0])
    decreases |p|
  {
    if |p| == 1 {
      Reflexive(links, p[0]);
    } else {
      var n := |p| - 1;
      PathBack(links, p[..n]);
      assert Linked(links, p[n - 1], p[n]);
      LinkConnects(links, p[n - 1], p[n]);
      Transitive(links, p[n], p[n - 1], p[0]);
    }
  }
}
