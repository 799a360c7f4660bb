/**
 Path numbers: with the weights that the base class assigns, the weight sum numbers
 the paths of the DAG from 0 up, and the log of a run determines the run.
 */
module PathNumbering {
  import opened Basics
  import opened Graphs
  import opened PathTheorem
  import opened RunTheorem

  /** The part of well-formedness that numbering needs. */
  ghost predicate DagLists(g: Graph, rank: seq<nat>) {
    && EndsInRange(g) && HasExitRoot(g) && ExitRoot(g) < |g.edges| && |rank| == g.nodes
    && (forall n, i :: 0 <= n < g.nodes && 0 <= i < |g.succs[n]| ==>
          g.succs[n][i] < |g.edges| && g.edges[g.succs[n][i]].source == n)
    && (forall e :: 0 <= e < |g.edges| && IsDag(g, e) ==>
          && e in g.succs[g.edges[e].source]
          && rank[g.edges[e].source] < rank[g.edges[e].target] < g.nodes)
  }

  /** Nothing but exit->root leaves the exit. */
  ghost predicate ExitIsLast(g: Graph)
    requires HasExitRoot(g)
  {
    forall e :: 0 <= e < |g.edges| && g.edges[e].source == g.exit ==> e == ExitRoot(g)
  }

  /** The number of paths, by the table `paths`, that start with one of the first `i` successor edges of `n`. */
  function PathsBefore(g: Graph, paths: seq<nat>, n: nat, i: nat): nat
    requires EndsInRange(g) && HasExitRoot(g) && |paths| == g.nodes && n < g.nodes && i <= |g.succs[n]|
  {
    if i == 0 then 0
    else
      var e := g.succs[n][i - 1];
      PathsBefore(g, paths, n, i - 1) + if IsDag(g, e) then paths[g.edges[e].target] else 0
  }

  ghost predicate CountAgrees(g: Graph, paths: seq<nat>, n: nat)
    requires EndsInRange(g) && HasExitRoot(g) && |paths| == g.nodes && n < g.nodes
  {
    paths[n] == PathsBefore(g, paths, n, |g.succs[n]|)
  }

  ghost predicate WeightAgrees(g: Graph, paths: seq<nat>, n: nat, i: nat)
    requires EndsInRange(g) && HasExitRoot(g) && |paths| == g.nodes
    requires n < g.nodes && i < |g.succs[n]| && g.succs[n][i] < |g.edges|
  {
    g.edges[g.succs[n][i]].weight == PathsBefore(g, paths, n, i)
  }

  /**
   What `calculatePathNumbers` establishes: `paths` counts the paths from each node to
   the exit, and the weight of an edge is the number of paths that start with an
   earlier sibling.
   */
  ghost predicate PathsCounted(g: Graph, paths: seq<nat>) {
    && EndsInRange(g) && HasExitRoot(g) && ExitRoot(g) < |g.edges|
    && |paths| == g.nodes && paths[g.exit] == 1
    && g.edges[ExitRoot(g)].weight == 0
    && (forall n {:trigger CountAgrees(g, paths, n)} ::
          0 <= n < g.nodes && n != g.exit ==> CountAgrees(g, paths, n))
    && (forall n, i {:trigger WeightAgrees(g, paths, n, i)} ::
          0 <= n < g.nodes && 0 <= i < |g.succs[n]| && IsDag(g, g.succs[n][i]) ==>
            WeightAgrees(g, paths, n, i))
  }

  ghost predicate Numbered(g: Graph, rank: seq<nat>, paths: seq<nat>) {
    DagLists(g, rank) && ExitIsLast(g) && PathsCounted(g, paths)
  }

  /** Counting the paths of a well-formed graph is all it takes to number them. */
  lemma WellFormedNumbered(g: Graph, rank: seq<nat>, paths: seq<nat>)
    requires WellFormed(g, rank) && PathsCounted(g, paths)
    ensures Numbered(g, rank, paths)
  {
    assert forall e :: 0 <= e < |g.edges| ==> IsEdge(g, e);
  }

  lemma {:induction false} PathsBeforeMonotone(g: Graph, paths: seq<nat>, n: nat, i: nat, j: nat)
    requires EndsInRange(g) && HasExitRoot(g) && |paths| == g.nodes && n < g.nodes
    requires i <= j <= |g.succs[n]|
    ensures PathsBefore(g, paths, n, i) <= PathsBefore(g, paths, n, j)
    decreases j
  {
    if i < j {
      PathsBeforeMonotone(g, paths, n, i, j - 1);
    }
  }

  /** The position of an edge in its source's list, which fixes its weight. */
  lemma SiblingIndex(g: Graph, rank: seq<nat>, paths: seq<nat>, e: nat) returns (i: nat)
    requires Numbered(g, rank, paths) && IsDag(g, e)
    ensures var n := g.edges[e].source;
      && i < |g.succs[n]| && g.succs[n][i] == e && n != g.exit
      && g.edges[e].weight == PathsBefore(g, paths, n, i)
      && g.edges[e].weight + paths[g.edges[e].target] == PathsBefore(g, paths, n, i + 1)
      <= PathsBefore(g, paths, n, |g.succs[n]|) == paths[n]
  {
    var n := g.edges[e].source;
    i :| 0 <= i < |g.succs[n]| && g.succs[n][i] == e;
    assert WeightAgrees(g, paths, n, i) && CountAgrees(g, paths, n);
    PathsBeforeMonotone(g, paths, n, i + 1, |g.succs[n]|);
  }

  lemma DagPathTail(g: Graph, p: seq<nat>, n: nat, b: nat)
    requires HasExitRoot(g) && p != [] && DagPath(g, p, n, b)
    ensures IsDag(g, p[0]) && g.edges[p[0]].source == n
    ensures DagPath(g, p[1..], g.edges[p[0]].target, b)
  {
    assert forall i :: 0 <= i < |p[1..]| ==> p[1..][i] == p[i + 1];
  }

  /** The last successor edge with at most `k` paths before it, among the first `i`. */
  function Pick(g: Graph, paths: seq<nat>, n: nat, k: nat, i: nat): (j: nat)
    requires EndsInRange(g) && HasExitRoot(g) && |paths| == g.nodes && n < g.nodes
    requires i <= |g.succs[n]| && k < PathsBefore(g, paths, n, i)
    ensures j < i && PathsBefore(g, paths, n, j) <= k < PathsBefore(g, paths, n, j + 1)
    ensures IsDag(g, g.succs[n][j])
    decreases i
  {
    if PathsBefore(g, paths, n, i - 1) <= k then i - 1 else Pick(g, paths, n, k, i - 1)
  }

  /** The path from `n` to the exit with number `k`. */
  function Decode(g: Graph, rank: seq<nat>, paths: seq<nat>, n: nat, k: nat): seq<nat>
    requires Numbered(g, rank, paths) && n < g.nodes && k < paths[n]
    decreases g.nodes - rank[n]
  {
    if n == g.exit then []
    else
      assert CountAgrees(g, paths, n);
      var j := Pick(g, paths, n, k, |g.succs[n]|);
      var e := g.succs[n][j];
      [e] + Decode(g, rank, paths, g.edges[e].target, k - PathsBefore(g, paths, n, j))
  }

  /** The first edge of a decoded path takes up its weight, and leaves a number for the rest. */
  lemma DecodeStep(g: Graph, rank: seq<nat>, paths: seq<nat>, n: nat, k: nat) returns (e: nat, k': nat)
    requires Numbered(g, rank, paths) && n < g.nodes && n != g.exit && k < paths[n]
    ensures IsDag(g, e) && g.edges[e].source == n && rank[n] < rank[g.edges[e].target] < g.nodes
    ensures k == g.edges[e].weight + k' && k' < paths[g.edges[e].target]
    ensures Decode(g, rank, paths, n, k) == [e] + Decode(g, rank, paths, g.edges[e].target, k')
  {
    assert CountAgrees(g, paths, n);
    var j := Pick(g, paths, n, k, |g.succs[n]|);
    assert WeightAgrees(g, paths, n, j);
    e, k' := g.succs[n][j], k - PathsBefore(g, paths, n, j);
  }

  /** Every number below the path count is the number of a path. */
  lemma {:induction false} SumOfDecode(g: Graph, rank: seq<nat>, paths: seq<nat>, n: nat, k: nat)
    requires Numbered(g, rank, paths) && n < g.nodes && k < paths[n]
    ensures DagPath(g, Decode(g, rank, paths, n, k), n, g.exit)
    ensures Sum(Weights(g), Decode(g, rank, paths, n, k)) == k
    decreases g.nodes - rank[n]
  {
    if n != g.exit {
      var e, k' := DecodeStep(g, rank, paths, n, k);
      var rest := Decode(g, rank, paths, g.edges[e].target, k');
      SumOfDecode(g, rank, paths, g.edges[e].target, k');
      assert ([e] + rest)[1..] == rest;
    }
  }

  /** The weight sum of a path lies in [0, number of paths). */
  lemma {:induction false} PathSumInRange(g: Graph, rank: seq<nat>, paths: seq<nat>, p: seq<nat>, n: nat)
    requires Numbered(g, rank, paths) && n < g.nodes && DagPath(g, p, n, g.exit)
    ensures 0 <= Sum(Weights(g), p) < paths[n]
    decreases |p|
  {
    if p != [] {
      DagPathTail(g, p, n, g.exit);
      PathSumInRange(g, rank, paths, p[1..], g.edges[p[0]].target);
      var i := SiblingIndex(g, rank, paths, p[0]);
    }
  }

  /** Siblings own disjoint ranges of numbers. */
  lemma SiblingRanges(g: Graph, rank: seq<nat>, paths: seq<nat>, e: nat, e': nat, k: int, k': int)
    requires Numbered(g, rank, paths) && IsDag(g, e) && IsDag(g, e')
    requires g.edges[e].source == g.edges[e'].source
    requires 0 <= k < paths[g.edges[e].target] && 0 <= k' < paths[g.edges[e'].target]
    requires g.edges[e].weight + k == g.edges[e'].weight + k'
    ensures e == e' && k == k'
  {
    var i := SiblingIndex(g, rank, paths, e);
    var i' := SiblingIndex(g, rank, paths, e');
    if i < i' {
      PathsBeforeMonotone(g, paths, g.edges[e].source, i + 1, i');
    } else if i' < i {
      PathsBeforeMonotone(g, paths, g.edges[e].source, i' + 1, i);
    }
  }

  /** Different paths have different numbers. */
  lemma {:induction false} SumIsInjective(
    g: Graph, rank: seq<nat>, paths: seq<nat>, p: seq<nat>, p': seq<nat>, n: nat)
    requires Numbered(g, rank, paths) && n < g.nodes
    requires DagPath(g, p, n, g.exit) && DagPath(g, p', n, g.exit)
    requires Sum(Weights(g), p) == Sum(Weights(g), p')
    ensures p == p'
    decreases |p|
  {
    if p != [] {
      DagPathTail(g, p, n, g.exit);
    }
    if p' != [] {
      DagPathTail(g, p', n, g.exit);
    }
    if p != [] && p' != [] {
      PathSumInRange(g, rank, paths, p[1..], g.edges[p[0]].target);
      PathSumInRange(g, rank, paths, p'[1..], g.edges[p'[0]].target);
      SiblingRanges(g, rank, paths, p[0], p'[0], Sum(Weights(g), p[1..]), Sum(Weights(g), p'[1..]));
      SumIsInjective(g, rank, paths, p[1..], p'[1..], g.edges[p[0]].target);
      assert p == [p[0]] + p[1..] && p' == [p'[0]] + p'[1..];
    }
  }

  /** Decoding a path's weight sum gives the path back. */
  lemma DecodeOfSum(g: Graph, rank: seq<nat>, paths: seq<nat>, p: seq<nat>, n: nat)
    requires Numbered(g, rank, paths) && n < g.nodes && DagPath(g, p, n, g.exit)
    ensures 0 <= Sum(Weights(g), p) < paths[n]
    ensures Decode(g, rank, paths, n, Sum(Weights(g), p)) == p
  {
    PathSumInRange(g, rank, paths, p, n);
    SumOfDecode(g, rank, paths, n, Sum(Weights(g), p));
    SumIsInjective(g, rank, paths, Decode(g, rank, paths, n, Sum(Weights(g), p)), p, n);
  }

  // ----- the log determines the run -----

  /** No two cut edges share their root->w edge. */
  ghost predicate OwnPhonyRoots(g: Graph)
    requires CutEdgesHavePhonies(g)
  {
    forall e, f | 0 <= e < |g.edges| && 0 <= f < |g.edges| && IsCut(g, e) && IsCut(g, f) ::
      g.edges[e].phonyRoot.value == g.edges[f].phonyRoot.value ==> e == f
  }

  lemma {:induction false} FirstSegmentExtends(g: Graph, prefix: seq<nat>, run: seq<nat>)
    requires CutEdgesHavePhonies(g) && forall i :: 0 <= i < |run| ==> run[i] < |g.edges|
    ensures |Segments(g, prefix, run)| > 0 && prefix <= Segments(g, prefix, run)[0]
    decreases |run|
  {
    if run != [] && !IsCut(g, run[0]) {
      FirstSegmentExtends(g, prefix + [run[0]], run[1..]);
      assert prefix <= prefix + [run[0]];
    }
  }

  function NextInSegment(g: Graph, e: nat): nat
    requires CutEdgesHavePhonies(g) && e < |g.edges|
  {
    if IsCut(g, e) then g.edges[e].phonyExit.value else e
  }

  /** The edge that the first segment takes after `prefix`. */
  lemma FirstSegmentNext(g: Graph, prefix: seq<nat>, run: seq<nat>)
    requires CutEdgesHavePhonies(g) && run != []
    requires forall i :: 0 <= i < |run| ==> run[i] < |g.edges|
    ensures var segments := Segments(g, prefix, run);
      |segments| > 0 && |segments[0]| > |prefix| && segments[0][|prefix|] == NextInSegment(g, run[0])
  {
    if !IsCut(g, run[0]) {
      FirstSegmentExtends(g, prefix + [run[0]], run[1..]);
    }
  }

  lemma SegmentsAfterCut(g: Graph, prefix: seq<nat>, run: seq<nat>)
    requires CutEdgesHavePhonies(g) && run != []
    requires forall i :: 0 <= i < |run| ==> run[i] < |g.edges|
    requires IsCut(g, run[0])
    ensures var segments := Segments(g, prefix, run);
      && |segments| > 1 && segments[1..] == Segments(g, [g.edges[run[0]].phonyRoot.value], run[1..])
      && |segments[1]| > 0 && segments[1][0] == g.edges[run[0]].phonyRoot.value
  {
    FirstSegmentExtends(g, [g.edges[run[0]].phonyRoot.value], run[1..]);
  }

  /** The first edges of two runs that have the same segments are the same. */
  lemma SameFirstEdge(g: Graph, prefix: seq<nat>, run: seq<nat>, run': seq<nat>)
    requires HasExitRoot(g) && CutEdgesHavePhonies(g) && OwnPhonyRoots(g)
    requires run != [] && run' != []
    requires forall i :: 0 <= i < |run| ==> run[i] < |g.edges|
    requires forall i :: 0 <= i < |run'| ==> run'[i] < |g.edges|
    requires IsReal(g, run[0]) && IsReal(g, run'[0])
    requires Segments(g, prefix, run) == Segments(g, prefix, run')
    ensures run[0] == run'[0]
  {
    FirstSegmentNext(g, prefix, run);
    FirstSegmentNext(g, prefix, run');
    assert NextInSegment(g, run[0]) == NextInSegment(g, run'[0]);
    if IsCut(g, run[0]) && IsCut(g, run'[0]) {
      SegmentsAfterCut(g, prefix, run);
      SegmentsAfterCut(g, prefix, run');
    }
  }

  /** Two runs with the same segments are the same run. */
  lemma {:induction false} SegmentsDetermineRun(
    g: Graph, prefix: seq<nat>, n: nat, run: seq<nat>, run': seq<nat>)
    requires HasExitRoot(g) && CutEdgesHavePhonies(g) && OwnPhonyRoots(g) && ExitIsLast(g)
    requires Run(g, run, n, g.exit) && Run(g, run', n, g.exit)
    requires Segments(g, prefix, run) == Segments(g, prefix, run')
    ensures run == run'
    decreases |run|
  {
    if run != [] {
      RunTail(g, run, n, g.exit);
    }
    if run' != [] {
      RunTail(g, run', n, g.exit);
    }
    if run != [] && run' != [] {
      SameFirstEdge(g, prefix, run, run');
      var e := g.edges[run[0]];
      if IsCut(g, run[0]) {
        SegmentsAfterCut(g, prefix, run);
        SegmentsAfterCut(g, prefix, run');
        SegmentsDetermineRun(g, [e.phonyRoot.value], e.target, run[1..], run'[1..]);
      } else {
        SegmentsDetermineRun(g, prefix + [run[0]], e.target, run[1..], run'[1..]);
      }
      assert run == [run[0]] + run[1..] && run' == [run'[0]] + run'[1..];
    }
  }

  /** In 32 bits the number of a path still identifies it, if there are at most 2^32 paths. */
  lemma NumberIdentifiesPath(g: Graph, rank: seq<nat>, paths: seq<nat>, p: seq<nat>)
    requires Numbered(g, rank, paths) && paths[g.root] <= WORD
    requires DagPath(g, p, g.root, g.exit)
    ensures 0 <= PathNumber(g, Weights(g), p) < paths[g.root]
    ensures Decode(g, rank, paths, g.root, PathNumber(g, Weights(g), p)) == p
  {
    DecodeOfSum(g, rank, paths, p, g.root);
  }

  /** Equal logs come from equal runs. */
  lemma LogDeterminesRun(g: Graph, rank: seq<nat>, paths: seq<nat>, run: seq<nat>, run': seq<nat>)
    requires Numbered(g, rank, paths) && paths[g.root] <= WORD
    requires CutEdgesHavePhonies(g) && OwnPhonyRoots(g)
    requires Run(g, run, g.root, g.exit) && Run(g, run', g.root, g.exit)
    requires AreDagPaths(g, Segments(g, [], run)) && AreDagPaths(g, Segments(g, [], run'))
    requires Numbers(g, Weights(g), Segments(g, [], run)) == Numbers(g, Weights(g), Segments(g, [], run'))
    ensures run == run'
  {
    var s, s' := Segments(g, [], run), Segments(g, [], run');
    var w := Weights(g);
    assert |s| == |Numbers(g, w, s)| && |s'| == |Numbers(g, w, s')|;
    forall i | 0 <= i < |s|
      ensures s[i] == s'[i]
    {
      NumberIdentifiesPath(g, rank, paths, s[i]);
      NumberIdentifiesPath(g, rank, paths, s'[i]);
      assert Numbers(g, w, s)[i] == Numbers(g, w, s')[i];
    }
    assert s == s';
    SegmentsDetermineRun(g, [], g.root, run, run');
  }
}
