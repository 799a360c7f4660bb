/**
 Moving weights off a spanning tree (Figure 4 of [Ball94]).  The depth-first search
 gives every node a potential, the signed weight of its tree path from the root; a
 chord ends up with its weight plus the potential difference of its ends.
 */
module ChordSpec {
  import opened Basics
  import opened Graphs

  function Other(g: Graph, f: nat, n: nat): nat
    requires f < |g.edges|
  {
    if g.edges[f].target == n then g.edges[f].source else g.edges[f].target
  }

  /** The parent edge of `n`, if there is one, leads to a node of the tree that is nearer to the root. */
  ghost predicate ParentFits(g: Graph, tree: seq<nat>, parent: seq<Option<nat>>, depth: seq<nat>, n: nat)
    requires EndsInRange(g) && |parent| == |depth| == g.nodes && n < g.nodes
  {
    parent[n].Some? ==>
      var f := parent[n].value;
      && f in tree && f < |g.edges|
      && (g.edges[f].source == n || g.edges[f].target == n)
      && depth[Other(g, f, n)] < depth[n]
      && (Other(g, f, n) == g.root || parent[Other(g, f, n)].Some?)
  }

  /**
   `parent` and `depth` show that the tree edges form a tree that hangs from the root:
   each tree edge is the parent edge of one of its ends.  The tree need not span.
   */
  ghost predicate IsTree(g: Graph, tree: seq<nat>, parent: seq<Option<nat>>, depth: seq<nat>) {
    && EndsInRange(g) && Distinct(tree)
    && |parent| == |depth| == g.nodes && parent[g.root] == None
    && (forall n :: 0 <= n < g.nodes ==> depth[n] < g.nodes)
    && (forall n :: 0 <= n < g.nodes && parent[n].Some? ==> parent[n].value < |g.edges|)
    && (forall n {:trigger ParentFits(g, tree, parent, depth, n)} ::
          0 <= n < g.nodes ==> ParentFits(g, tree, parent, depth, n))
    && (forall i :: 0 <= i < |tree| ==>
          && tree[i] < |g.edges|
          && (parent[g.edges[tree[i]].source] == Some(tree[i]) || parent[g.edges[tree[i]].target] == Some(tree[i])))
  }

  function Potential(g: Graph, tree: seq<nat>, parent: seq<Option<nat>>, depth: seq<nat>, n: nat): int
    requires IsTree(g, tree, parent, depth) && n < g.nodes
    decreases depth[n]
  {
    assert ParentFits(g, tree, parent, depth, n);
    match parent[n]
    case None => 0
    case Some(f) =>
      var up := Potential(g, tree, parent, depth, Other(g, f, n));
      if g.edges[f].target == n then up + g.edges[f].weight else up - g.edges[f].weight
  }

  /** The weight with which the search arrives at `n`: negated if it goes against the parent edge. */
  function Arrival(g: Graph, tree: seq<nat>, parent: seq<Option<nat>>, depth: seq<nat>, n: nat): int
    requires IsTree(g, tree, parent, depth) && n < g.nodes
  {
    assert ParentFits(g, tree, parent, depth, n);
    var p := Potential(g, tree, parent, depth, n);
    if parent[n].None? || g.edges[parent[n].value].target == n then p else -p
  }

  /** The relative direction of two edges. */
  function Dir(g: Graph, e: Option<nat>, f: nat): int
    requires f < |g.edges| && (e.Some? ==> e.value < |g.edges|)
  {
    match e
    case None => 1
    case Some(e) =>
      if g.edges[e].source == g.edges[f].target || g.edges[e].target == g.edges[f].source then 1 else -1
  }

  /** What the visit of node `n` adds to chord `c`. */
  function Share(g: Graph, tree: seq<nat>, parent: seq<Option<nat>>, depth: seq<nat>, c: nat, n: nat): int
    requires IsTree(g, tree, parent, depth) && n < g.nodes && c < |g.edges|
  {
    var e := g.edges[c];
    if e.source == n && e.target == n then Arrival(g, tree, parent, depth, n)
    else if e.source == n then Potential(g, tree, parent, depth, n)
    else if e.target == n then -Potential(g, tree, parent, depth, n)
    else 0
  }

  /** What the visits of the nodes in `visited` add to chord `c`. */
  function Shares(g: Graph, tree: seq<nat>, parent: seq<Option<nat>>, depth: seq<nat>, c: nat, visited: set<nat>): int
    requires IsTree(g, tree, parent, depth) && c < |g.edges|
  {
    var s, t := g.edges[c].source, g.edges[c].target;
    (if s in visited then Share(g, tree, parent, depth, c, s) else 0)
    + if t in visited && t != s then Share(g, tree, parent, depth, c, t) else 0
  }

  /** The increment of a chord in the end. */
  function ChordIncrement(g: Graph, tree: seq<nat>, parent: seq<Option<nat>>, depth: seq<nat>, c: nat): int
    requires IsTree(g, tree, parent, depth) && c < |g.edges|
  {
    var s, t := g.edges[c].source, g.edges[c].target;
    g.edges[c].weight +
    if s == t then Arrival(g, tree, parent, depth, s)
    else Potential(g, tree, parent, depth, s) - Potential(g, tree, parent, depth, t)
  }

  /** Node `n` is in the subtree of `v`. */
  predicate InSubtree(g: Graph, tree: seq<nat>, parent: seq<Option<nat>>, depth: seq<nat>, n: nat, v: nat)
    requires IsTree(g, tree, parent, depth)
    decreases if n < g.nodes then depth[n] else 0
  {
    && n < g.nodes
    && (assert ParentFits(g, tree, parent, depth, n); true)
    && (n == v || (parent[n].Some?
                   && InSubtree(g, tree, parent, depth, Other(g, parent[n].value, n), v)))
  }

  function Subtree(g: Graph, tree: seq<nat>, parent: seq<Option<nat>>, depth: seq<nat>, v: nat): (s: set<nat>)
    requires IsTree(g, tree, parent, depth)
    ensures forall n :: n in s <==> InSubtree(g, tree, parent, depth, n, v)
  {
    set n: nat | n < g.nodes && InSubtree(g, tree, parent, depth, n, v)
  }

  /** The child of `v` in whose subtree `n` is. */
  function Branch(g: Graph, tree: seq<nat>, parent: seq<Option<nat>>, depth: seq<nat>, n: nat, v: nat): (c: nat)
    requires IsTree(g, tree, parent, depth) && InSubtree(g, tree, parent, depth, n, v) && n != v
    ensures c < g.nodes && parent[c].Some? && Other(g, parent[c].value, c) == v
    ensures InSubtree(g, tree, parent, depth, n, c)
    decreases depth[n]
  {
    assert ParentFits(g, tree, parent, depth, n);
    var up := Other(g, parent[n].value, n);
    if up == v then n else Branch(g, tree, parent, depth, up, v)
  }

  lemma {:induction false} SubtreeDepth(
    g: Graph, tree: seq<nat>, parent: seq<Option<nat>>, depth: seq<nat>, n: nat, v: nat)
    requires IsTree(g, tree, parent, depth) && v < g.nodes && InSubtree(g, tree, parent, depth, n, v)
    ensures depth[v] <= depth[n]
    decreases depth[n]
  {
    assert ParentFits(g, tree, parent, depth, n);
    if n != v {
      SubtreeDepth(g, tree, parent, depth, Other(g, parent[n].value, n), v);
    }
  }

  /** The subtrees of two children of one node are disjoint. */
  lemma {:induction false} OneBranch(
    g: Graph, tree: seq<nat>, parent: seq<Option<nat>>, depth: seq<nat>, n: nat, a: nat, b: nat)
    requires IsTree(g, tree, parent, depth) && a < g.nodes && b < g.nodes
    requires parent[a].Some? && parent[b].Some?
    requires Other(g, parent[a].value, a) == Other(g, parent[b].value, b)
    requires InSubtree(g, tree, parent, depth, n, a) && InSubtree(g, tree, parent, depth, n, b)
    ensures a == b
    decreases depth[n]
  {
    assert ParentFits(g, tree, parent, depth, n);
    assert ParentFits(g, tree, parent, depth, a) && ParentFits(g, tree, parent, depth, b);
    if n == a && n != b {
      SubtreeDepth(g, tree, parent, depth, Other(g, parent[n].value, n), b);
      assert false;
    } else if n == b && n != a {
      SubtreeDepth(g, tree, parent, depth, Other(g, parent[n].value, n), a);
      assert false;
    } else if n != a {
      OneBranch(g, tree, parent, depth, Other(g, parent[n].value, n), a, b);
    }
  }

  lemma {:induction false} SubtreeTransitive(
    g: Graph, tree: seq<nat>, parent: seq<Option<nat>>, depth: seq<nat>, n: nat, c: nat, v: nat)
    requires IsTree(g, tree, parent, depth)
    requires InSubtree(g, tree, parent, depth, n, c) && InSubtree(g, tree, parent, depth, c, v)
    ensures InSubtree(g, tree, parent, depth, n, v)
    decreases depth[n]
  {
    assert ParentFits(g, tree, parent, depth, n);
    if n != c {
      SubtreeTransitive(g, tree, parent, depth, Other(g, parent[n].value, n), c, v);
    }
  }

  lemma {:induction false} TreeIsRootSubtree(
    g: Graph, tree: seq<nat>, parent: seq<Option<nat>>, depth: seq<nat>, n: nat)
    requires IsTree(g, tree, parent, depth) && n < g.nodes && parent[n].Some?
    ensures InSubtree(g, tree, parent, depth, n, g.root)
    decreases depth[n]
  {
    assert ParentFits(g, tree, parent, depth, n);
    var up := Other(g, parent[n].value, n);
    if up != g.root {
      TreeIsRootSubtree(g, tree, parent, depth, up);
    }
  }

  /** A tree edge at `v`, other than the parent edge of `v`, is the parent edge of a child of `v`. */
  lemma ChildEdge(g: Graph, tree: seq<nat>, parent: seq<Option<nat>>, depth: seq<nat>, v: nat, f: nat)
    requires IsTree(g, tree, parent, depth) && v < g.nodes && f in tree && parent[v] != Some(f)
    requires g.edges[f].source == v || g.edges[f].target == v
    ensures var c := Other(g, f, v);
      c != v && parent[c] == Some(f) && Other(g, f, c) == v && depth[v] < depth[c]
  {
    var i :| 0 <= i < |tree| && tree[i] == f;
    assert ParentFits(g, tree, parent, depth, Other(g, f, v));
  }

  /** The weight handed to a child is the weight with which the search arrives there. */
  lemma DirToChild(g: Graph, tree: seq<nat>, parent: seq<Option<nat>>, depth: seq<nat>, v: nat, f: nat)
    requires IsTree(g, tree, parent, depth) && v < g.nodes && f in tree && parent[v] != Some(f)
    requires g.edges[f].source == v || g.edges[f].target == v
    ensures Dir(g, parent[v], f) * Arrival(g, tree, parent, depth, v) + g.edges[f].weight
         == Arrival(g, tree, parent, depth, Other(g, f, v))
  {
    ChildEdge(g, tree, parent, depth, v, f);
    assert ParentFits(g, tree, parent, depth, v);
  }

  /** What the search adds to a chord at `v`. */
  lemma DirToChord(g: Graph, tree: seq<nat>, parent: seq<Option<nat>>, depth: seq<nat>, v: nat, c: nat)
    requires IsTree(g, tree, parent, depth) && v < g.nodes && c < |g.edges|
    requires g.edges[c].source == v || g.edges[c].target == v
    ensures Dir(g, parent[v], c) * Arrival(g, tree, parent, depth, v) == Share(g, tree, parent, depth, c, v)
  {
    assert ParentFits(g, tree, parent, depth, v);
  }

  /** Visits of disjoint sets of nodes add up. */
  lemma SharesAdd(g: Graph, tree: seq<nat>, parent: seq<Option<nat>>, depth: seq<nat>,
                  c: nat, a: set<nat>, b: set<nat>)
    requires IsTree(g, tree, parent, depth) && c < |g.edges| && a !! b
    ensures Shares(g, tree, parent, depth, c, a + b)
         == Shares(g, tree, parent, depth, c, a) + Shares(g, tree, parent, depth, c, b)
  {
  }

  /** Visiting the whole tree gives each chord its increment, short of its own weight. */
  lemma AllShares(g: Graph, tree: seq<nat>, parent: seq<Option<nat>>, depth: seq<nat>, c: nat)
    requires IsTree(g, tree, parent, depth) && c < |g.edges|
    ensures Shares(g, tree, parent, depth, c, Subtree(g, tree, parent, depth, g.root)) + g.edges[c].weight
         == ChordIncrement(g, tree, parent, depth, c)
  {
    var s, t := g.edges[c].source, g.edges[c].target;
    if parent[s].Some? {
      TreeIsRootSubtree(g, tree, parent, depth, s);
    }
    if parent[t].Some? {
      TreeIsRootSubtree(g, tree, parent, depth, t);
    }
  }

  /** `after` is `before` plus what the visits of the nodes in `visited` add to the chords. */
  ghost predicate Increased(
    g: Graph, tree: seq<nat>, parent: seq<Option<nat>>, depth: seq<nat>, chords: seq<nat>,
    before: seq<int>, after: seq<int>, visited: set<nat>)
  {
    && IsTree(g, tree, parent, depth) && |before| == |after| == |g.edges|
    && forall c {:trigger IncreasedAt(g, tree, parent, depth, chords, before, after, visited, c)} ::
         0 <= c < |g.edges| ==> IncreasedAt(g, tree, parent, depth, chords, before, after, visited, c)
  }

  ghost predicate IncreasedAt(
    g: Graph, tree: seq<nat>, parent: seq<Option<nat>>, depth: seq<nat>, chords: seq<nat>,
    before: seq<int>, after: seq<int>, visited: set<nat>, c: nat)
    requires IsTree(g, tree, parent, depth) && |before| == |after| == |g.edges| && c < |g.edges|
  {
    after[c] == before[c] + if c in chords then Shares(g, tree, parent, depth, c, visited) else 0
  }

  lemma IncreasedTwice(
    g: Graph, tree: seq<nat>, parent: seq<Option<nat>>, depth: seq<nat>, chords: seq<nat>,
    before: seq<int>, middle: seq<int>, after: seq<int>, a: set<nat>, b: set<nat>)
    requires Increased(g, tree, parent, depth, chords, before, middle, a)
    requires Increased(g, tree, parent, depth, chords, middle, after, b)
    requires a !! b
    ensures Increased(g, tree, parent, depth, chords, before, after, a + b)
  {
    forall c | 0 <= c < |g.edges|
      ensures IncreasedAt(g, tree, parent, depth, chords, before, after, a + b, c)
    {
      assert IncreasedAt(g, tree, parent, depth, chords, before, middle, a, c);
      assert IncreasedAt(g, tree, parent, depth, chords, middle, after, b, c);
      SharesAdd(g, tree, parent, depth, c, a, b);
    }
  }

  /** The nodes behind the first `i` tree edges, as seen from `v`. */
  ghost function Behind(
    g: Graph, tree: seq<nat>, parent: seq<Option<nat>>, depth: seq<nat>, v: nat, i: nat): (s: set<nat>)
    requires IsTree(g, tree, parent, depth) && i <= |tree|
  {
    set n: nat | n < g.nodes && InSubtree(g, tree, parent, depth, n, v) && n != v
      && parent[Branch(g, tree, parent, depth, n, v)].value in tree[..i]
  }

  /** Tree edge `i` leads from `v` to a child of `v`. */
  predicate LeadsDown(g: Graph, tree: seq<nat>, parent: seq<Option<nat>>, v: nat, i: nat)
    requires i < |tree| && tree[i] < |g.edges| && v < |parent|
  {
    parent[v] != Some(tree[i]) && (g.edges[tree[i]].source == v || g.edges[tree[i]].target == v)
  }

  /** Below child `c` of `v`, all nodes branch off at `c`. */
  lemma BranchOfChild(g: Graph, tree: seq<nat>, parent: seq<Option<nat>>, depth: seq<nat>, v: nat, c: nat, n: nat)
    requires IsTree(g, tree, parent, depth) && v < g.nodes && c < g.nodes
    requires parent[c].Some? && Other(g, parent[c].value, c) == v && InSubtree(g, tree, parent, depth, n, c)
    ensures InSubtree(g, tree, parent, depth, n, v) && n != v && Branch(g, tree, parent, depth, n, v) == c
  {
    SubtreeDepth(g, tree, parent, depth, n, c);
    assert ParentFits(g, tree, parent, depth, c);
    assert InSubtree(g, tree, parent, depth, v, v) && InSubtree(g, tree, parent, depth, c, v);
    SubtreeTransitive(g, tree, parent, depth, n, c, v);
    OneBranch(g, tree, parent, depth, n, Branch(g, tree, parent, depth, n, v), c);
  }

  lemma BehindNext(g: Graph, tree: seq<nat>, parent: seq<Option<nat>>, depth: seq<nat>, v: nat, i: nat)
    requires IsTree(g, tree, parent, depth) && v < g.nodes && i < |tree| && LeadsDown(g, tree, parent, v, i)
    ensures var c := Other(g, tree[i], v);
      && Behind(g, tree, parent, depth, v, i) !! Subtree(g, tree, parent, depth, c)
      && Behind(g, tree, parent, depth, v, i + 1)
      == Behind(g, tree, parent, depth, v, i) + Subtree(g, tree, parent, depth, c)
  {
    var f, c := tree[i], Other(g, tree[i], v);
    var here, next := Behind(g, tree, parent, depth, v, i), Behind(g, tree, parent, depth, v, i + 1);
    assert f in tree;
    ChildEdge(g, tree, parent, depth, v, f);
    assert tree[..i + 1] == tree[..i] + [f];
    assert f !in tree[..i];
    forall n: nat | InSubtree(g, tree, parent, depth, n, c)
      ensures n in next && n !in here
    {
      BranchOfChild(g, tree, parent, depth, v, c, n);
    }
    forall n: nat | n in next
      ensures n in here || InSubtree(g, tree, parent, depth, n, c)
    {
      var b := Branch(g, tree, parent, depth, n, v);
      assert ParentFits(g, tree, parent, depth, b);
      assert parent[b].value == f ==> Other(g, f, b) == v && b == c;
    }
  }

  lemma BehindSame(g: Graph, tree: seq<nat>, parent: seq<Option<nat>>, depth: seq<nat>, v: nat, i: nat)
    requires IsTree(g, tree, parent, depth) && v < g.nodes && i < |tree| && !LeadsDown(g, tree, parent, v, i)
    ensures Behind(g, tree, parent, depth, v, i + 1) == Behind(g, tree, parent, depth, v, i)
  {
    var f := tree[i];
    assert tree[..i + 1] == tree[..i] + [f];
    forall n: nat | InSubtree(g, tree, parent, depth, n, v) && n != v
      ensures parent[Branch(g, tree, parent, depth, n, v)] != Some(f)
    {
      var b := Branch(g, tree, parent, depth, n, v);
      assert ParentFits(g, tree, parent, depth, b) && ParentFits(g, tree, parent, depth, v);
    }
  }

  lemma BehindNone(
    g: Graph, tree: seq<nat>, parent: seq<Option<nat>>, depth: seq<nat>, chords: seq<nat>, before: seq<int>, v: nat)
    requires IsTree(g, tree, parent, depth) && v < g.nodes && |before| == |g.edges|
    ensures Increased(g, tree, parent, depth, chords, before, before, Behind(g, tree, parent, depth, v, 0))
  {
    assert Behind(g, tree, parent, depth, v, 0) == {};
  }

  lemma BehindAll(g: Graph, tree: seq<nat>, parent: seq<Option<nat>>, depth: seq<nat>, v: nat)
    requires IsTree(g, tree, parent, depth) && v < g.nodes
    ensures v !in Behind(g, tree, parent, depth, v, |tree|)
    ensures Behind(g, tree, parent, depth, v, |tree|) + {v} == Subtree(g, tree, parent, depth, v)
  {
    assert tree[..|tree|] == tree;
    forall n: nat | InSubtree(g, tree, parent, depth, n, v) && n != v
      ensures parent[Branch(g, tree, parent, depth, n, v)].value in tree
    {
      assert ParentFits(g, tree, parent, depth, Branch(g, tree, parent, depth, n, v));
    }
  }

  /** The search goes on behind tree edge `i`, if that leads down from `v`. */
  lemma VisitBehind(
    g: Graph, tree: seq<nat>, parent: seq<Option<nat>>, depth: seq<nat>, chords: seq<nat>,
    before: seq<int>, middle: seq<int>, after: seq<int>, v: nat, i: nat)
    requires IsTree(g, tree, parent, depth) && v < g.nodes && i < |tree|
    requires Increased(g, tree, parent, depth, chords, before, middle, Behind(g, tree, parent, depth, v, i))
    requires if LeadsDown(g, tree, parent, v, i)
      then Increased(g, tree, parent, depth, chords, middle, after,
                     Subtree(g, tree, parent, depth, Other(g, tree[i], v)))
      else middle == after
    ensures Increased(g, tree, parent, depth, chords, before, after, Behind(g, tree, parent, depth, v, i + 1))
  {
    if LeadsDown(g, tree, parent, v, i) {
      BehindNext(g, tree, parent, depth, v, i);
      IncreasedTwice(g, tree, parent, depth, chords, before, middle, after,
                     Behind(g, tree, parent, depth, v, i),
                     Subtree(g, tree, parent, depth, Other(g, tree[i], v)));
    } else {
      BehindSame(g, tree, parent, depth, v, i);
    }
  }

  lemma VisitLast(
    g: Graph, tree: seq<nat>, parent: seq<Option<nat>>, depth: seq<nat>, chords: seq<nat>,
    before: seq<int>, middle: seq<int>, after: seq<int>, v: nat)
    requires IsTree(g, tree, parent, depth) && v < g.nodes
    requires Increased(g, tree, parent, depth, chords, before, middle, Behind(g, tree, parent, depth, v, |tree|))
    requires Increased(g, tree, parent, depth, chords, middle, after, {v})
    ensures Increased(g, tree, parent, depth, chords, before, after, Subtree(g, tree, parent, depth, v))
  {
    BehindAll(g, tree, parent, depth, v);
    IncreasedTwice(g, tree, parent, depth, chords, before, middle, after,
                   Behind(g, tree, parent, depth, v, |tree|), {v});
  }

  /** The search visits a chord at `v`. */
  lemma VisitChord(
    g: Graph, tree: seq<nat>, parent: seq<Option<nat>>, depth: seq<nat>, chords: seq<nat>, i: nat,
    before: seq<int>, middle: seq<int>, after: seq<int>, v: nat)
    requires IsTree(g, tree, parent, depth) && v < g.nodes && i < |chords|
    requires Distinct(chords) && chords[i] < |g.edges|
    requires Increased(g, tree, parent, depth, chords[..i], before, middle, {v})
    requires var f := chords[i];
      after == if v == g.edges[f].source || v == g.edges[f].target
               then middle[f := middle[f] + Dir(g, parent[v], f) * Arrival(g, tree, parent, depth, v)]
               else middle
    ensures Increased(g, tree, parent, depth, chords[..i + 1], before, after, {v})
  {
    var f := chords[i];
    assert f !in chords[..i] && chords[..i + 1] == chords[..i] + [f];
    if v == g.edges[f].source || v == g.edges[f].target {
      DirToChord(g, tree, parent, depth, v, f);
    }
    var seen := chords[..i + 1];
    forall c | 0 <= c < |g.edges|
      ensures IncreasedAt(g, tree, parent, depth, seen, before, after, {v}, c)
    {
      assert IncreasedAt(g, tree, parent, depth, chords[..i], before, middle, {v}, c);
    }
  }

  /** With its own weight added, each chord has its increment. */
  lemma WeightsAdded(
    g: Graph, tree: seq<nat>, parent: seq<Option<nat>>, depth: seq<nat>, chords: seq<nat>,
    zeros: seq<int>, shares: seq<int>, inc: seq<int>)
    requires IsTree(g, tree, parent, depth)
    requires Increased(g, tree, parent, depth, chords, zeros, shares, Subtree(g, tree, parent, depth, g.root))
    requires |inc| == |g.edges| && forall e :: 0 <= e < |g.edges| ==> zeros[e] == 0
    requires forall e: nat :: e in chords <==> e < |g.edges| && g.edges[e].kind != SplitEdge && e !in tree
    requires forall e :: 0 <= e < |g.edges| ==> inc[e] == shares[e] + if e in chords then g.edges[e].weight else 0
    ensures ChordsMoved(g, tree, parent, depth, inc)
    ensures forall e :: 0 <= e < |g.edges| && g.edges[e].kind == SplitEdge ==> inc[e] == 0
  {
    forall e | 0 <= e < |g.edges|
      ensures inc[e] == if e in chords then ChordIncrement(g, tree, parent, depth, e) else 0
    {
      assert IncreasedAt(g, tree, parent, depth, chords, zeros, shares, Subtree(g, tree, parent, depth, g.root), e);
      AllShares(g, tree, parent, depth, e);
    }
  }

  // ----- what the increments mean -----

  /** `inc` is what the chord step leaves: 0 on tree edges, the chord's increment on chords. */
  ghost predicate ChordsMoved(g: Graph, tree: seq<nat>, parent: seq<Option<nat>>, depth: seq<nat>, inc: seq<int>) {
    && IsTree(g, tree, parent, depth) && |inc| == |g.edges|
    && (forall e :: 0 <= e < |g.edges| && g.edges[e].kind != SplitEdge ==>
          inc[e] == if e in tree then 0 else ChordIncrement(g, tree, parent, depth, e))
  }

  /** An edge of which the search sees both ends. */
  ghost predicate IsBalanced(g: Graph, e: nat) {
    e < |g.edges| && g.edges[e].kind != SplitEdge && g.edges[e].source != g.edges[e].target
  }

  lemma EdgeIsBalanced(g: Graph, tree: seq<nat>, parent: seq<Option<nat>>, depth: seq<nat>, inc: seq<int>, e: nat)
    requires ChordsMoved(g, tree, parent, depth, inc) && IsBalanced(g, e)
    ensures inc[e] == g.edges[e].weight + Potential(g, tree, parent, depth, g.edges[e].source)
                      - Potential(g, tree, parent, depth, g.edges[e].target)
  {
    if e in tree {
      var s, t := g.edges[e].source, g.edges[e].target;
      assert ParentFits(g, tree, parent, depth, s) && ParentFits(g, tree, parent, depth, t);
      if parent[t] == Some(e) {
        assert Other(g, e, t) == s;
      } else {
        assert parent[s] == Some(e) && Other(g, e, s) == t;
      }
    }
  }

  /** Chord theorem: on every closed walk, the increments add up to the weights. */
  lemma ClosedWalkSums(
    g: Graph, tree: seq<nat>, parent: seq<Option<nat>>, depth: seq<nat>, inc: seq<int>, p: seq<nat>, a: nat)
    requires ChordsMoved(g, tree, parent, depth, inc)
    requires Walk(g, p, a, a) && forall i :: 0 <= i < |p| ==> p[i] < |g.edges| && IsBalanced(g, p[i])
    ensures Sum(inc, p) == Sum(Weights(g), p)
  {
    var potential := (n: nat) => if n < g.nodes then Potential(g, tree, parent, depth, n) else 0;
    forall i | 0 <= i < |p|
      ensures DiffersByPotential(g, Weights(g), inc, potential, p[i])
    {
      EdgeIsBalanced(g, tree, parent, depth, inc, p[i]);
    }
    PotentialSum(g, Weights(g), inc, potential, p, a, a);
  }

  /** Both ends have the same potential; the search sees a self-loop only once, so there it has to be 0. */
  predicate HasEvenEnds(g: Graph, tree: seq<nat>, parent: seq<Option<nat>>, depth: seq<nat>, c: nat)
    requires IsTree(g, tree, parent, depth) && c < |g.edges|
  {
    var s, t := g.edges[c].source, g.edges[c].target;
    if s == t then Potential(g, tree, parent, depth, s) == 0
    else Potential(g, tree, parent, depth, s) == Potential(g, tree, parent, depth, t)
  }

  /**
   When a chord keeps its weight as its increment.  For a backedge, whose weight is 0, this
   matters: a split of it leaves the increment behind on a normal edge.
   */
  lemma ChordKeepsWeight(g: Graph, tree: seq<nat>, parent: seq<Option<nat>>, depth: seq<nat>, inc: seq<int>, c: nat)
    requires ChordsMoved(g, tree, parent, depth, inc)
    requires c < |g.edges| && g.edges[c].kind != SplitEdge && c !in tree
    ensures inc[c] == g.edges[c].weight <==> HasEvenEnds(g, tree, parent, depth, c)
  {
  }
}
