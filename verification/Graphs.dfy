/**
 The control-flow graph on which the instrumentation works, after the base class
 has cut its backedges.  Nodes and edges are numbered; an edge pointer of the
 source is the index of the edge in `edges`.
 */
module Graphs {
  import opened Basics

  datatype EdgeType =
    | Normal | Backedge | BackedgePhony | SplitEdge | SplitEdgePhony | CallEdgePhony

  datatype Edge = Edge(
    source: nat,
    target: nat,
    kind: EdgeType,
    weight: int,
    phonyRoot: Option<nat>,
    phonyExit: Option<nat>)

  datatype Graph = Graph(
    nodes: nat,
    root: nat,
    exit: nat,
    edges: seq<Edge>,
    succs: seq<seq<nat>>,
    preds: seq<seq<nat>>)

  /** A real edge that starts a new path: it is replaced in the DAG by two phony edges. */
  predicate CutKind(kind: EdgeType) {
    kind == Backedge || kind == SplitEdge
  }

  predicate IsCut(g: Graph, e: nat)
    requires e < |g.edges|
  {
    CutKind(g.edges[e].kind)
  }

  predicate IsPhony(g: Graph, e: nat)
    requires e < |g.edges|
  {
    || g.edges[e].kind == BackedgePhony
    || g.edges[e].kind == SplitEdgePhony
    || g.edges[e].kind == CallEdgePhony
  }

  /** The exit->root edge is the first successor edge of the exit node. */
  predicate HasExitRoot(g: Graph) {
    g.exit < |g.succs| && |g.succs[g.exit]| > 0
  }

  function ExitRoot(g: Graph): nat
    requires HasExitRoot(g)
  {
    g.succs[g.exit][0]
  }

  /** An edge of the acyclic graph that the paths are numbered in. */
  predicate IsDag(g: Graph, e: nat)
    requires HasExitRoot(g)
  {
    e < |g.edges| && !IsCut(g, e) && e != ExitRoot(g)
  }

  /** An edge the program itself can take. */
  predicate IsReal(g: Graph, e: nat)
    requires HasExitRoot(g)
  {
    e < |g.edges| && !IsPhony(g, e) && e != ExitRoot(g)
  }

  // ----- well-formedness: what the base class hands over -----

  ghost predicate EndsInRange(g: Graph) {
    && g.root < g.nodes && g.exit < g.nodes && g.root != g.exit
    && |g.succs| == g.nodes && |g.preds| == g.nodes
    && (forall e :: 0 <= e < |g.edges| ==>
          g.edges[e].source < g.nodes && g.edges[e].target < g.nodes)
  }

  predicate IsEdge(g: Graph, e: nat) {
    e < |g.edges|
  }

  /** The successor and predecessor lists hold each edge exactly once, at its ends. */
  ghost predicate ListsAgree(g: Graph)
    requires EndsInRange(g)
  {
    && (forall n :: 0 <= n < g.nodes ==> Distinct(g.succs[n]) && Distinct(g.preds[n]))
    && (forall n, i :: 0 <= n < g.nodes && 0 <= i < |g.succs[n]| ==>
          IsEdge(g, g.succs[n][i]) && g.edges[g.succs[n][i]].source == n)
    && (forall n, i :: 0 <= n < g.nodes && 0 <= i < |g.preds[n]| ==>
          IsEdge(g, g.preds[n][i]) && g.edges[g.preds[n][i]].target == n)
    && (forall e :: 0 <= e < |g.edges| && IsEdge(g, e) ==>
          e in g.succs[g.edges[e].source] && e in g.preds[g.edges[e].target])
  }

  /** exit->root is the only edge out of the exit and the only edge into the root. */
  ghost predicate ClosedByExitRoot(g: Graph)
    requires EndsInRange(g)
  {
    && |g.succs[g.exit]| == 1
    && g.preds[g.root] == g.succs[g.exit]
    && ExitRoot(g) < |g.edges|
    && g.edges[ExitRoot(g)].kind == Normal
  }

  /** `rank` is a topological order of all edges except backedges and exit->root. */
  ghost predicate Ranked(g: Graph, rank: seq<nat>)
    requires EndsInRange(g) && HasExitRoot(g)
  {
    && |rank| == g.nodes
    && (forall n :: 0 <= n < g.nodes ==> rank[n] < g.nodes)
    && (forall e :: 0 <= e < |g.edges| && g.edges[e].kind != Backedge && e != ExitRoot(g) ==>
          rank[g.edges[e].source] < rank[g.edges[e].target])
  }

  /** A cut edge v->w has weight 0 and its two phony edges, root->w and v->exit. */
  ghost predicate CutEdgesHavePhonies(g: Graph) {
    forall e :: 0 <= e < |g.edges| && IsCut(g, e) ==>
      && g.edges[e].weight == 0
      && g.edges[e].phonyRoot.Some? && g.edges[e].phonyExit.Some?
      && var top, bottom := g.edges[e].phonyRoot.value, g.edges[e].phonyExit.value;
      && top < |g.edges| && IsPhony(g, top)
      && g.edges[top].source == g.root && g.edges[top].target == g.edges[e].target
      && bottom < |g.edges| && IsPhony(g, bottom)
      && g.edges[bottom].source == g.edges[e].source && g.edges[bottom].target == g.exit
  }

  /** A walk over edges of any kind. */
  ghost predicate Walk(g: Graph, p: seq<nat>, a: nat, b: nat) {
    if p == [] then a == b
    else p[0] < |g.edges| && g.edges[p[0]].source == a && Walk(g, p[1..], g.edges[p[0]].target, b)
  }

  ghost predicate IsForward(g: Graph, e: nat)
    requires HasExitRoot(g)
  {
    e < |g.edges| && g.edges[e].kind != Backedge && e != ExitRoot(g)
  }

  ghost predicate ForwardPath(g: Graph, p: seq<nat>, a: nat, b: nat)
    requires HasExitRoot(g)
  {
    Walk(g, p, a, b) && forall i :: 0 <= i < |p| ==> IsForward(g, p[i])
  }

  /** A backedge returns to a node it was reached from without taking a backedge. */
  ghost predicate BackedgesReturn(g: Graph)
    requires HasExitRoot(g)
  {
    forall e :: 0 <= e < |g.edges| && g.edges[e].kind == Backedge ==>
      exists p :: ForwardPath(g, p, g.edges[e].target, g.edges[e].source)
  }

  ghost predicate WellFormed(g: Graph, rank: seq<nat>) {
    && EndsInRange(g)
    && ListsAgree(g)
    && ClosedByExitRoot(g)
    && Ranked(g, rank)
    && CutEdgesHavePhonies(g)
    && BackedgesReturn(g)
  }

  // ----- paths and sums -----

  ghost predicate DagPath(g: Graph, p: seq<nat>, a: nat, b: nat)
    requires HasExitRoot(g)
  {
    Walk(g, p, a, b) && forall i :: 0 <= i < |p| ==> IsDag(g, p[i])
  }

  /** What the program does: a walk over real edges. */
  ghost predicate Run(g: Graph, p: seq<nat>, a: nat, b: nat)
    requires HasExitRoot(g)
  {
    Walk(g, p, a, b) && forall i :: 0 <= i < |p| ==> IsReal(g, p[i])
  }

  function Sum(value: seq<int>, p: seq<nat>): int
    requires forall i :: 0 <= i < |p| ==> p[i] < |value|
  {
    if p == [] then 0 else value[p[0]] + Sum(value, p[1..])
  }

  function Weights(g: Graph): (w: seq<int>) {
    seq(|g.edges|, (e: nat) requires e < |g.edges| => g.edges[e].weight)
  }

  lemma {:induction false} WalkAppend(g: Graph, p: seq<nat>, q: seq<nat>, a: nat, b: nat, c: nat)
    requires Walk(g, p, a, b) && Walk(g, q, b, c)
    ensures Walk(g, p + q, a, c)
  {
    if p == [] {
      assert p + q == q;
    } else {
      assert (p + q)[1..] == p[1..] + q;
      WalkAppend(g, p[1..], q, g.edges[p[0]].target, b, c);
    }
  }

  lemma {:induction false} WalkDropLast(g: Graph, p: seq<nat>, a: nat, b: nat)
    requires p != [] && Walk(g, p, a, b)
    ensures p[|p| - 1] < |g.edges|
    ensures Walk(g, p[..|p| - 1], a, g.edges[p[|p| - 1]].source)
    ensures g.edges[p[|p| - 1]].target == b
  {
    if |p| > 1 {
      var q := p[1..];
      WalkDropLast(g, q, g.edges[p[0]].target, b);
      assert p[..|p| - 1][1..] == q[..|q| - 1];
    }
  }

  lemma DagPathDropLast(g: Graph, p: seq<nat>, a: nat, b: nat)
    requires HasExitRoot(g) && p != [] && DagPath(g, p, a, b)
    ensures IsDag(g, p[|p| - 1]) && g.edges[p[|p| - 1]].target == b
    ensures DagPath(g, p[..|p| - 1], a, g.edges[p[|p| - 1]].source)
  {
    WalkDropLast(g, p, a, b);
  }

  lemma {:induction false} SumAppend(value: seq<int>, p: seq<nat>, q: seq<nat>)
    requires forall i :: 0 <= i < |p| ==> p[i] < |value|
    requires forall i :: 0 <= i < |q| ==> q[i] < |value|
    ensures forall i :: 0 <= i < |p + q| ==> (p + q)[i] < |value|
    ensures Sum(value, p + q) == Sum(value, p) + Sum(value, q)
  {
    if p == [] {
      assert p + q == q;
    } else {
      assert (p + q)[1..] == p[1..] + q;
      SumAppend(value, p[1..], q);
    }
  }

  lemma SumLast(value: seq<int>, q: seq<nat>, e: nat)
    requires forall i :: 0 <= i < |q| ==> q[i] < |value|
    requires e < |value|
    ensures forall i :: 0 <= i < |q + [e]| ==> (q + [e])[i] < |value|
    ensures Sum(value, q + [e]) == Sum(value, q) + value[e]
  {
    SumAppend(value, q, [e]);
  }

  /** Two value columns that differ by a potential difference on every edge of a closed walk. */
  ghost predicate DiffersByPotential(
    g: Graph, before: seq<int>, after: seq<int>, potential: nat -> int, e: nat)
    requires e < |g.edges| && |before| == |after| == |g.edges|
  {
    after[e] == before[e] + potential(g.edges[e].source) - potential(g.edges[e].target)
  }

  /** Moving values around by potentials changes a walk's sum only at its two ends. */
  lemma {:induction false} PotentialSum(
    g: Graph, before: seq<int>, after: seq<int>, potential: nat -> int, p: seq<nat>, a: nat, b: nat)
    requires |before| == |after| == |g.edges|
    requires Walk(g, p, a, b)
    requires forall i :: 0 <= i < |p| ==> p[i] < |g.edges|
    requires forall i :: 0 <= i < |p| ==> DiffersByPotential(g, before, after, potential, p[i])
    ensures Sum(after, p) == Sum(before, p) + potential(a) - potential(b)
  {
    if p != [] {
      var q := p[1..];
      assert forall i :: 0 <= i < |q| ==> q[i] == p[i + 1];
      PotentialSum(g, before, after, potential, q, g.edges[p[0]].target, b);
      assert DiffersByPotential(g, before, after, potential, p[0]);
    }
  }
}
