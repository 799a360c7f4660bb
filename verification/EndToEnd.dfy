/**
 The whole pass: from the weights of a well-formed graph to the log of every run of the
 instrumented program.
 */
module EndToEnd {
  import opened Basics
  import opened Graphs
  import opened ChordSpec
  import opened PushSpec
  import opened RegisterMachine
  import opened PathTheorem
  import opened RunTheorem
  import opened PathNumbering
  import opened EdgeSplitting
  import opened Emission

  // ----- the spanning tree as written is empty -----

  function NoParents(g: Graph): seq<Option<nat>> {
    seq(g.nodes, _ => None)
  }

  function NoDepth(g: Graph): seq<nat> {
    seq(g.nodes, _ => 0)
  }

  lemma EmptyTree(g: Graph)
    requires EndsInRange(g)
    ensures IsTree(g, [], NoParents(g), NoDepth(g))
  {
  }

  /** With no tree edge, every edge keeps its weight as increment. */
  lemma EmptyTreeKeepsWeights(g: Graph, inc: seq<int>)
    requires EndsInRange(g) && CutEdgesHavePhonies(g)
    requires ChordsMoved(g, [], NoParents(g), NoDepth(g), inc)
    requires forall e :: 0 <= e < |g.edges| && g.edges[e].kind == SplitEdge ==> inc[e] == 0
    ensures inc == Weights(g)
  {
    forall e | 0 <= e < |g.edges|
      ensures inc[e] == g.edges[e].weight
    {
      if g.edges[e].kind == SplitEdge {
        assert IsCut(g, e);
      }
    }
  }

  /** A path from root to exit, closed by exit->root, is a closed walk without self-loops. */
  lemma ClosedPath(g: Graph, rank: seq<nat>, p: seq<nat>)
    requires WellFormed(g, rank) && DagPath(g, p, g.root, g.exit)
    ensures var c := [ExitRoot(g)] + p;
      Walk(g, c, g.exit, g.exit) && forall i :: 0 <= i < |c| ==> c[i] < |g.edges| && IsBalanced(g, c[i])
  {
    var c := [ExitRoot(g)] + p;
    RootPassed(g, rank);
    assert c[1..] == p;
    forall i | 0 <= i < |c|
      ensures c[i] < |g.edges| && IsBalanced(g, c[i])
    {
      assert i > 0 ==> c[i] == p[i - 1] && IsDag(g, p[i - 1]);
    }
  }

  /** Any tree would do: whatever the tree, a path from root to exit has the same number. */
  lemma AnyTreeKeepsNumbers(
    g: Graph, rank: seq<nat>, tree: seq<nat>, parent: seq<Option<nat>>, depth: seq<nat>, inc: seq<int>, p: seq<nat>)
    requires WellFormed(g, rank) && ChordsMoved(g, tree, parent, depth, inc)
    requires DagPath(g, p, g.root, g.exit)
    ensures PathNumber(g, inc, p) == PathNumber(g, Weights(g), p)
  {
    ClosedPath(g, rank, p);
    assert ([ExitRoot(g)] + p)[1..] == p;
    ClosedWalkSums(g, tree, parent, depth, inc, [ExitRoot(g)] + p, g.exit);
  }

  // ----- the unlinked graph is ready for the walk -----

  /** A block that returns has no other way out. */
  ghost predicate ReturnsEnd(g: Graph) {
    forall e, f :: 0 <= e < |g.edges| && 0 <= f < |g.edges| && IsLinked(g, e) && IsLinked(g, f)
                   && g.edges[e].target == g.exit && g.edges[e].source == g.edges[f].source ==>
      e == f
  }

  lemma UnlinkedReady(g: Graph, rank: seq<nat>, l: Labels)
    requires WellFormed(g, rank) && ReturnsEnd(g) && Labelled(g, l)
    requires forall e :: 0 <= e < |g.edges| ==> l.isInit[e] == InitFlag(g, rank, e)
    requires forall e :: 0 <= e < |g.edges| ==> l.isCounter[e] == CounterFlag(g, rank, l.isInit, e)
    ensures ReadyToEmit(Unlinked(g), l)
  {
    var u, x := Unlinked(g), ExitRoot(g);
    UnlinkedLists(g);
    assert Keep(g, |g.edges|, [x]) == [x] by {
      assert [x][1..] == [];
    }
    assert g.succs[g.exit] == [x] && g.preds[g.root] == [x];
    forall e | 0 <= e < |u.edges| && IsLinked(u, e) && u.edges[e].target == u.exit
      ensures |u.succs[u.edges[e].source]| == 1
    {
      assert NodeLists(u, u.edges[e].source) && IsLinked(g, e);
      assert e in u.succs[u.edges[e].source];
      forall f: nat | f in u.succs[u.edges[e].source]
        ensures f == e
      {
        assert IsLinked(u, f) && IsLinked(g, f);
      }
      OnlyMember(u.succs[u.edges[e].source], e);
    }
    forall e | 0 <= e < |g.edges| && IsCut(g, e)
      ensures l.isInit[g.edges[e].phonyRoot.value] && l.isCounter[g.edges[e].phonyExit.value]
    {
      PhonyFlagsStay(g, rank, l.isInit, e);
    }
  }

  /** Before the walk nothing has been split, emitted or visited. */
  lemma WalkStarts(g0: Graph, l0: Labels, s: Emitter)
    requires ReadyToEmit(g0, l0) && s.g == g0 && s.l == l0
    requires |s.has| == |s.code| == |s.place| == |g0.edges|
    requires forall e :: 0 <= e < |s.has| ==> !s.has[e] && s.place[e] == Nowhere
    ensures Invariant(g0, l0, s, [])
    ensures Closed(s, {}) && IsLinked(g0, ExitRoot(g0))
  {
    assert NodeLists(g0, g0.exit);
    assert ExitRoot(g0) in g0.succs[g0.exit];
  }

  lemma {:induction false} WalkSameEdges(g: Graph, h: Graph, p: seq<nat>, a: nat, b: nat)
    requires g.edges == h.edges && Walk(g, p, a, b)
    ensures Walk(h, p, a, b)
  {
    if p != [] {
      WalkSameEdges(g, h, p[1..], g.edges[p[0]].target, b);
    }
  }

  /** exit->root is a real edge, so it stays the first edge out of the exit. */
  lemma UnlinkedExitRoot(g: Graph)
    requires HasExitRoot(g) && ExitRoot(g) < |g.edges| && g.edges[ExitRoot(g)].kind == Normal
    ensures HasExitRoot(Unlinked(g)) && ExitRoot(Unlinked(g)) == ExitRoot(g)
  {
  }

  lemma ExitRootKept(g: Graph, l: Labels, s: Emitter, splits: seq<nat>)
    requires HasExitRoot(g) && ExitRoot(g) < |g.edges| && g.edges[ExitRoot(g)].kind == Normal
    requires Invariant(Unlinked(g), l, s, splits)
    ensures HasExitRoot(s.g) && ExitRoot(s.g) == ExitRoot(g)
  {
    UnlinkedExitRoot(g);
    assert s.g.succs[g.exit] == Unlinked(g).succs[g.exit];
  }

  // ----- every run -----

  /**
   The instrumented program `g`, `code` logs, on what has become of the run `run` of the
   original program `g0`, the number of each of its segments, in order, and nothing else.
   */
  ghost predicate LogsRun(g0: Graph, g: Graph, code: seq<Action>, splits: seq<nat>, run: seq<nat>)
    requires CutEdgesHavePhonies(g0) && HasExitRoot(g0) && ExitRoot(g0) < |g0.edges| && HasExitRoot(g)
    requires forall i :: 0 <= i < |run| ==> run[i] < |g0.edges|
  {
    var p := Expand(|g0.edges|, splits, run);
    && Run(g, p, g0.root, g0.exit) && InCode(code, p)
    && AreDagPaths(g0, Segments(g0, [], run))
    && Execute(code, p, START) == Machine(None, Numbers(g0, Weights(g0), Segments(g0, [], run)))
  }

  /** An edge that a run does not take is not in what has become of the run. */
  lemma {:induction false} ExpandAvoids(n0: nat, splits: seq<nat>, run: seq<nat>, x: nat)
    requires x < n0 && forall i :: 0 <= i < |run| ==> run[i] != x
    ensures forall i :: 0 <= i < |Expand(n0, splits, run)| ==> Expand(n0, splits, run)[i] != x
  {
    if run != [] {
      assert forall i :: 0 <= i < |run[1..]| ==> run[1..][i] == run[i + 1];
      ExpandAvoids(n0, splits, run[1..], x);
    }
  }

  /** A run is still a run after the splits, and the walk has been everywhere on it. */
  lemma RunIsVisited(g: Graph, l: Labels, s: Emitter, splits: seq<nat>, run: seq<nat>, b: nat)
    requires HasExitRoot(g) && Invariant(Unlinked(g), l, s, splits) && Closed(s, {})
    requires ExitRoot(g) < |g.edges| && s.has[ExitRoot(g)] && s.g.edges[ExitRoot(g)].target == g.root
    requires HasExitRoot(s.g) && ExitRoot(s.g) == ExitRoot(g)
    requires Run(g, run, g.root, b)
    ensures var p := Expand(|g.edges|, splits, run);
      Run(s.g, p, g.root, b) && AllVisited(s, p, |p|)
  {
    var u, p := Unlinked(g), Expand(|g.edges|, splits, run);
    WalkSameEdges(g, u, run, g.root, b);
    assert forall i :: 0 <= i < |run| ==> IsReal(g, run[i]) && IsLinked(u, run[i]);
    ExpandWalk(u, s.g, splits, run, g.root, b);
    ExpandAvoids(|g.edges|, splits, run, ExitRoot(g));
    WalkIsVisited(s, ExitRoot(g), p, b);
  }

  /** Unlinking takes edges out of lists, which the code does not depend on. */
  lemma CodeOfUnlinked(g: Graph, l: Labels)
    requires Labelled(g, l) && CutEdgesLinked(g)
    ensures CutEdgesLinked(Unlinked(g)) && CodeOf(Unlinked(g), l) == CodeOf(g, l)
  {
    var u := Unlinked(g);
    assert forall e :: 0 <= e < |g.edges| ==> ActionOf(u, l, e) == ActionOf(g, l, e);
  }

  /** Splitting and emitting edge by edge does not change what a run does. */
  lemma RunUnchanged(g: Graph, l: Labels, s: Emitter, splits: seq<nat>, run: seq<nat>)
    requires HasExitRoot(g) && Invariant(Unlinked(g), l, s, splits) && CutsUnlabelled(Unlinked(g), l)
    requires Labelled(g, l) && CutEdgesLinked(g)
    requires forall i :: 0 <= i < |run| ==> IsReal(g, run[i])
    requires AllVisited(s, Expand(|g.edges|, splits, run), |Expand(|g.edges|, splits, run)|)
    ensures InCode(s.code, Expand(|g.edges|, splits, run)) && InCode(CodeOf(g, l), run)
    ensures Execute(s.code, Expand(|g.edges|, splits, run), START) == Execute(CodeOf(g, l), run, START)
  {
    var u := Unlinked(g);
    assert forall i :: 0 <= i < |run| ==> run[i] < |u.edges| && IsLinked(u, run[i]);
    CodeOfUnlinked(g, l);
    ExpandExecute(u, l, s, splits, run, START);
  }

  lemma InstrumentedRunLogs(g: Graph, l: Labels, pl: Placement, s: Emitter, splits: seq<nat>, run: seq<nat>)
    requires Placed(g, Weights(g), l, pl) && Invariant(Unlinked(g), l, s, splits) && Closed(s, {})
    requires s.has[ExitRoot(g)] && s.g.edges[ExitRoot(g)].target == g.root
    requires HasExitRoot(s.g) && ExitRoot(s.g) == ExitRoot(g)
    requires Run(g, run, g.root, g.exit)
    ensures LogsRun(g, s.g, s.code, splits, run)
  {
    RunIsVisited(g, l, s, splits, run, g.exit);
    CutsAreUnlabelled(g, l, pl);
    RunUnchanged(g, l, s, splits, run);
    RunLogsItsSegments(g, Weights(g), l, pl, run);
  }

  lemma CutsAreUnlabelled(g: Graph, l: Labels, pl: Placement)
    requires Placed(g, Weights(g), l, pl)
    ensures CutsUnlabelled(Unlinked(g), l)
  {
  }

  /** The run `p` of the split graph is what has become of the original run `run`. */
  ghost predicate ComesFrom(g0: Graph, splits: seq<nat>, p: seq<nat>, run: seq<nat>)
    requires HasExitRoot(g0)
  {
    Run(g0, run, g0.root, g0.exit) && p == Expand(|g0.edges|, splits, run)
  }

  /** All original runs are logged, and the runs of the split graph are these and no others. */
  ghost predicate LogsAllRuns(g0: Graph, g: Graph, code: seq<Action>, splits: seq<nat>)
    requires CutEdgesHavePhonies(g0) && HasExitRoot(g0) && ExitRoot(g0) < |g0.edges|
  {
    && HasExitRoot(g)
    && (forall run | Run(g0, run, g0.root, g0.exit) :: LogsRun(g0, g, code, splits, run))
    && (forall p | Run(g, p, g.root, g.exit) ::
          exists run :: ComesFrom(g0, splits, p, run) && LogsRun(g0, g, code, splits, run))
  }

  lemma AllRunsLogged(g: Graph, l: Labels, pl: Placement, s: Emitter, splits: seq<nat>)
    requires Placed(g, Weights(g), l, pl) && Invariant(Unlinked(g), l, s, splits) && Closed(s, {})
    requires s.has[ExitRoot(g)] && s.g.edges[ExitRoot(g)].target == g.root
    ensures LogsAllRuns(g, s.g, s.code, splits)
  {
    ExitRootKept(g, l, s, splits);
    forall run | Run(g, run, g.root, g.exit)
      ensures LogsRun(g, s.g, s.code, splits, run)
    {
      InstrumentedRunLogs(g, l, pl, s, splits, run);
    }
    ShapeOfOriginal(g, s.g, splits);
    NoOtherRuns(g, s.g, s.code, splits);
  }

  /** What the instrumented program has logged when the run `run` has come to node `b`. */
  ghost predicate LogsSoFar(g0: Graph, g: Graph, code: seq<Action>, splits: seq<nat>, run: seq<nat>, b: nat)
    requires CutEdgesHavePhonies(g0) && HasExitRoot(g0) && ExitRoot(g0) < |g0.edges| && HasExitRoot(g)
    requires forall i :: 0 <= i < |run| ==> run[i] < |g0.edges|
  {
    var p, segments := Expand(|g0.edges|, splits, run), Segments(g0, [], run);
    && Run(g, p, g0.root, b) && InCode(code, p)
    && segments != [] && AreDagPaths(g0, Completed(segments)) && DagPath(g0, OpenOne(segments), g0.root, b)
    && SoFar(g0, Weights(g0), segments, b, Execute(code, p, START))
  }

  /** Also a run that never ends, or ends early, is logged as far as it has come. */
  ghost predicate LogsPartialRuns(g0: Graph, g: Graph, code: seq<Action>, splits: seq<nat>)
    requires CutEdgesHavePhonies(g0) && HasExitRoot(g0) && ExitRoot(g0) < |g0.edges|
  {
    && HasExitRoot(g)
    && (forall run, b | 0 <= b < g0.nodes && Run(g0, run, g0.root, b) :: LogsSoFar(g0, g, code, splits, run, b))
  }

  lemma PartialRunLogs(g: Graph, l: Labels, pl: Placement, s: Emitter, splits: seq<nat>, run: seq<nat>, b: nat)
    requires Placed(g, Weights(g), l, pl) && Invariant(Unlinked(g), l, s, splits) && Closed(s, {})
    requires s.has[ExitRoot(g)] && s.g.edges[ExitRoot(g)].target == g.root
    requires HasExitRoot(s.g) && ExitRoot(s.g) == ExitRoot(g)
    requires b < g.nodes && Run(g, run, g.root, b)
    ensures LogsSoFar(g, s.g, s.code, splits, run, b)
  {
    RunIsVisited(g, l, s, splits, run, b);
    CutsAreUnlabelled(g, l, pl);
    RunUnchanged(g, l, s, splits, run);
    RunIsInState(g, Weights(g), l, pl, run, b);
    StateIsSoFar(g, Weights(g), l, pl, Segments(g, [], run), b);
  }

  lemma AllPartialRunsLogged(g: Graph, l: Labels, pl: Placement, s: Emitter, splits: seq<nat>)
    requires Placed(g, Weights(g), l, pl) && Invariant(Unlinked(g), l, s, splits) && Closed(s, {})
    requires s.has[ExitRoot(g)] && s.g.edges[ExitRoot(g)].target == g.root
    ensures LogsPartialRuns(g, s.g, s.code, splits)
  {
    ExitRootKept(g, l, s, splits);
    forall run, b | 0 <= b < g.nodes && Run(g, run, g.root, b)
      ensures LogsSoFar(g, s.g, s.code, splits, run, b)
    {
      PartialRunLogs(g, l, pl, s, splits, run, b);
    }
  }

  lemma ShapeOfOriginal(g: Graph, h: Graph, splits: seq<nat>)
    requires SplitShape(Unlinked(g), h, splits)
    ensures SplitShape(g, h, splits)
  {
  }

  /** Two runs of the instrumented program that write the same log are the same run. */
  lemma InstrumentedLogDeterminesRun(
    g0: Graph, rank: seq<nat>, paths: seq<nat>, g: Graph, code: seq<Action>, splits: seq<nat>,
    p: seq<nat>, p': seq<nat>)
    requires WellFormed(g0, rank) && PathsCounted(g0, paths) && paths[g0.root] <= WORD && OwnPhonyRoots(g0)
    requires LogsAllRuns(g0, g, code, splits)
    requires Run(g, p, g.root, g.exit) && Run(g, p', g.root, g.exit)
    requires InCode(code, p) && InCode(code, p') && Execute(code, p, START) == Execute(code, p', START)
    ensures p == p'
  {
    var run :| ComesFrom(g0, splits, p, run) && LogsRun(g0, g, code, splits, run);
    var run' :| ComesFrom(g0, splits, p', run') && LogsRun(g0, g, code, splits, run');
    WellFormedNumbered(g0, rank, paths);
    LogDeterminesRun(g0, rank, paths, run, run');
  }

  // ----- nothing else runs -----

  /** From a new node there is one way on. */
  lemma FromNewNode(g0: Graph, g: Graph, splits: seq<nat>, k: nat, f: nat)
    requires EndsInRange(g0) && SplitShape(g0, g, splits) && k < |splits|
    requires f < |g.edges| && g.edges[f].source == g0.nodes + k
    ensures f == |g0.edges| + k && g.edges[f].target == g0.edges[splits[k]].target
  {
    SourceOf(g0, g, splits, f);
    assert g.edges[|g0.edges| + k] == SecondHalf(g0.edges[splits[k]], g0.nodes + k);
  }

  lemma TargetOf(g0: Graph, g: Graph, splits: seq<nat>, e: nat)
    requires SplitShape(g0, g, splits) && e < |g0.edges|
    ensures g.edges[e].target == if e in splits then g0.nodes + IndexOf(splits, e) else g0.edges[e].target
  {
  }

  /** A walk of the split graph that starts at an original node starts with all of what an edge has become. */
  lemma FirstHop(g0: Graph, g: Graph, splits: seq<nat>, p: seq<nat>, a: nat, b: nat)
    requires EndsInRange(g0) && SplitShape(g0, g, splits) && a < g0.nodes && b < g0.nodes
    requires p != [] && Walk(g, p, a, b)
    ensures p[0] < |g0.edges| && g0.edges[p[0]].source == a
    ensures var hop := ExpandEdge(|g0.edges|, splits, p[0]);
      hop <= p && Walk(g, p[|hop|..], g0.edges[p[0]].target, b)
  {
    SourceOf(g0, g, splits, p[0]);
    TargetOf(g0, g, splits, p[0]);
    if p[0] in splits {
      var q := p[1..];
      FromNewNode(g0, g, splits, IndexOf(splits, p[0]), q[0]);
      assert p[2..] == q[1..];
    }
  }

  /** An original edge that is real after the splits was real before. */
  lemma RealBefore(g0: Graph, g: Graph, splits: seq<nat>, e: nat)
    requires HasExitRoot(g0) && HasExitRoot(g) && ExitRoot(g) == ExitRoot(g0)
    requires SplitShape(g0, g, splits) && e < |g0.edges| && IsReal(g, e)
    ensures IsReal(g0, e)
  {
    if e in splits {
      var k :| 0 <= k < |splits| && splits[k] == e;
    }
  }

  lemma RestOfRun(g: Graph, p: seq<nat>, n: nat, a: nat, b: nat, c: nat)
    requires HasExitRoot(g) && Run(g, p, a, b) && n <= |p| && Walk(g, p[n..], c, b)
    ensures Run(g, p[n..], c, b) && p == p[..n] + p[n..]
  {
    assert forall i :: 0 <= i < |p[n..]| ==> p[n..][i] == p[n + i];
  }

  /** The first step of a run of the split graph, as a step of the original graph. */
  lemma FirstRunHop(g0: Graph, g: Graph, splits: seq<nat>, p: seq<nat>, a: nat, b: nat) returns (q: seq<nat>)
    requires EndsInRange(g0) && SplitShape(g0, g, splits) && a < g0.nodes && b < g0.nodes
    requires HasExitRoot(g0) && HasExitRoot(g) && ExitRoot(g) == ExitRoot(g0)
    requires p != [] && Run(g, p, a, b)
    ensures IsReal(g0, p[0]) && g0.edges[p[0]].source == a && g0.edges[p[0]].target < g0.nodes
    ensures |q| < |p| && p == ExpandEdge(|g0.edges|, splits, p[0]) + q
    ensures Run(g, q, g0.edges[p[0]].target, b)
  {
    var hop := ExpandEdge(|g0.edges|, splits, p[0]);
    FirstHop(g0, g, splits, p, a, b);
    RealBefore(g0, g, splits, p[0]);
    q := p[|hop|..];
    RestOfRun(g, p, |hop|, a, b, g0.edges[p[0]].target);
  }

  lemma ExpandCons(n0: nat, splits: seq<nat>, e: nat, rest: seq<nat>)
    ensures Expand(n0, splits, [e] + rest) == ExpandEdge(n0, splits, e) + Expand(n0, splits, rest)
  {
    assert ([e] + rest)[1..] == rest;
  }

  lemma RunCons(g: Graph, e: nat, rest: seq<nat>, b: nat)
    requires HasExitRoot(g) && IsReal(g, e) && Run(g, rest, g.edges[e].target, b)
    ensures Run(g, [e] + rest, g.edges[e].source, b)
  {
    assert ([e] + rest)[1..] == rest;
  }

  /** A run of the split graph that starts at an original node is what has become of an original run. */
  lemma {:induction false} ContractRun(g0: Graph, g: Graph, splits: seq<nat>, p: seq<nat>, a: nat, b: nat)
    returns (run: seq<nat>)
    requires EndsInRange(g0) && SplitShape(g0, g, splits) && a < g0.nodes && b < g0.nodes
    requires HasExitRoot(g0) && HasExitRoot(g) && ExitRoot(g) == ExitRoot(g0)
    requires Run(g, p, a, b)
    ensures Run(g0, run, a, b) && Expand(|g0.edges|, splits, run) == p
    decreases |p|
  {
    if p == [] {
      run := [];
    } else {
      var q := FirstRunHop(g0, g, splits, p, a, b);
      var rest := ContractRun(g0, g, splits, q, g0.edges[p[0]].target, b);
      run := [p[0]] + rest;
      RunCons(g0, p[0], rest, b);
      ExpandCons(|g0.edges|, splits, p[0], rest);
    }
  }

  lemma NoOtherRuns(g0: Graph, g: Graph, code: seq<Action>, splits: seq<nat>)
    requires EndsInRange(g0) && SplitShape(g0, g, splits) && CutEdgesHavePhonies(g0)
    requires HasExitRoot(g0) && HasExitRoot(g) && ExitRoot(g) == ExitRoot(g0) < |g0.edges|
    requires forall run | Run(g0, run, g0.root, g0.exit) :: LogsRun(g0, g, code, splits, run)
    ensures LogsAllRuns(g0, g, code, splits)
  {
    forall p | Run(g, p, g.root, g.exit)
      ensures exists run :: ComesFrom(g0, splits, p, run) && LogsRun(g0, g, code, splits, run)
    {
      var run := ContractRun(g0, g, splits, p, g.root, g.exit);
      assert ComesFrom(g0, splits, p, run);
    }
  }
}
