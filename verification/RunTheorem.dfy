/**
 A run of the program, backedges and split edges included, logs the numbers of the
 acyclic paths that it consists of, in order.
 */
module RunTheorem {
  import opened Basics
  import opened Graphs
  import opened RegisterMachine
  import opened PathTheorem

  /**
   The DAG paths that a run consists of.  `prefix` is the part of the current path
   that is already done.  A cut edge v->w ends a path with v->exit and starts the
   next one with root->w.
   */
  ghost function Segments(g: Graph, prefix: seq<nat>, run: seq<nat>): seq<seq<nat>>
    requires CutEdgesHavePhonies(g) && forall i :: 0 <= i < |run| ==> run[i] < |g.edges|
    decreases |run|
  {
    if run == [] then [prefix]
    else if IsCut(g, run[0]) then
      var e := g.edges[run[0]];
      [prefix + [e.phonyExit.value]] + Segments(g, [e.phonyRoot.value], run[1..])
    else Segments(g, prefix + [run[0]], run[1..])
  }

  ghost predicate AreDagPaths(g: Graph, segments: seq<seq<nat>>)
    requires HasExitRoot(g)
  {
    forall i :: 0 <= i < |segments| ==> DagPath(g, segments[i], g.root, g.exit)
  }

  lemma ExtendDagPath(g: Graph, p: seq<nat>, a: nat, e: nat)
    requires HasExitRoot(g) && IsDag(g, e) && DagPath(g, p, a, g.edges[e].source)
    ensures DagPath(g, p + [e], a, g.edges[e].target)
  {
    assert Walk(g, [e], g.edges[e].source, g.edges[e].target);
    WalkAppend(g, p, [e], a, g.edges[e].source, g.edges[e].target);
  }

  lemma RunTail(g: Graph, run: seq<nat>, n: nat, b: nat)
    requires HasExitRoot(g) && run != [] && Run(g, run, n, b)
    ensures IsReal(g, run[0]) && g.edges[run[0]].source == n
    ensures Run(g, run[1..], g.edges[run[0]].target, b)
  {
    assert forall i :: 0 <= i < |run[1..]| ==> run[1..][i] == run[i + 1];
  }

  /** exit->root is an ordinary edge, and cut edges have their phony edges. */
  ghost predicate HasRealExitRoot(g: Graph) {
    && HasExitRoot(g) && CutEdgesHavePhonies(g)
    && ExitRoot(g) < |g.edges| && g.edges[ExitRoot(g)].kind == Normal
  }

  lemma {:induction false} SegmentsArePaths(g: Graph, prefix: seq<nat>, run: seq<nat>, n: nat)
    requires HasRealExitRoot(g)
    requires DagPath(g, prefix, g.root, n) && Run(g, run, n, g.exit)
    ensures AreDagPaths(g, Segments(g, prefix, run))
    decreases |run|
  {
    if run != [] {
      RunTail(g, run, n, g.exit);
      var e := g.edges[run[0]];
      if IsCut(g, run[0]) {
        ExtendDagPath(g, prefix, g.root, e.phonyExit.value);
        ExtendDagPath(g, [], g.root, e.phonyRoot.value);
        assert [] + [e.phonyRoot.value] == [e.phonyRoot.value];
        SegmentsArePaths(g, [e.phonyRoot.value], run[1..], e.target);
      } else {
        ExtendDagPath(g, prefix, g.root, run[0]);
        SegmentsArePaths(g, prefix + [run[0]], run[1..], e.target);
      }
    }
  }

  ghost function Numbers(g: Graph, value: seq<int>, segments: seq<seq<nat>>): seq<int>
    requires HasExitRoot(g) && ExitRoot(g) < |g.edges| && |value| == |g.edges| && AreDagPaths(g, segments)
  {
    seq(|segments|, i requires 0 <= i < |segments| => PathNumber(g, value, segments[i]))
  }

  lemma NumbersOfCons(g: Graph, value: seq<int>, first: seq<nat>, rest: seq<seq<nat>>)
    requires HasExitRoot(g) && ExitRoot(g) < |g.edges| && |value| == |g.edges|
    requires AreDagPaths(g, [first] + rest)
    ensures AreDagPaths(g, rest) && DagPath(g, first, g.root, g.exit)
    ensures Numbers(g, value, [first] + rest) == [PathNumber(g, value, first)] + Numbers(g, value, rest)
  {
    var s := [first] + rest;
    assert s[0] == first;
    assert forall i :: 0 <= i < |rest| ==> s[i + 1] == rest[i];
  }

  /** The code of a cut edge does what the codes of its two phony edges would do. */
  lemma CutIsBottomThenTop(m: Machine, bottomIsInit: bool, bottom: int, top: int, topIsCounter: bool)
    requires m.Machine? && m.log == [] && (bottomIsInit <==> m.reg.None?)
    ensures var m1 := Step(EdgeAction(bottomIsInit, bottom, true), m);
      && m1.Machine? && m1.reg == None
      && Step(CutAction(bottom, top, topIsCounter), m)
      == After(m1.log, Step(EdgeAction(true, top, topIsCounter), START))
  {
  }

  lemma CutStep(g: Graph, inc0: seq<int>, l: Labels, pl: Placement, prefix: seq<nat>, e: nat)
    requires Placed(g, inc0, l, pl) && e < |g.edges| && IsCut(g, e)
    requires DagPath(g, prefix, g.root, g.edges[e].source)
    ensures var bottom, top := g.edges[e].phonyExit.value, g.edges[e].phonyRoot.value;
      var code := CodeOf(g, l);
      && DagPath(g, prefix + [bottom], g.root, g.exit)
      && Execute(code, [e], Execute(code, prefix, START))
      == After([PathNumber(g, inc0, prefix + [bottom])], Execute(code, [top], START))
  {
    var code, n := CodeOf(g, l), g.edges[e].source;
    var bottom, top := g.edges[e].phonyExit.value, g.edges[e].phonyRoot.value;
    StateAlongPath(g, inc0, l, pl, prefix, n);
    ExtendDagPath(g, prefix, g.root, bottom);
    PathLogsItsNumber(g, inc0, l, pl, prefix + [bottom]);
    ExecuteLast(code, prefix, bottom, START);
    assert EdgePlaced(g, inc0, l, pl, bottom);
    assert EdgePlaced(g, inc0, l, pl, top);
    CutIsBottomThenTop(Execute(code, prefix, START), l.isInit[bottom], l.increment[bottom],
                       l.increment[top], l.isCounter[top]);
  }

  // ----- the state at any point of a run -----

  /** The segments that a run has completed; the last one is still open. */
  ghost function Completed(segments: seq<seq<nat>>): seq<seq<nat>>
    requires segments != []
  {
    segments[..|segments| - 1]
  }

  ghost function OpenOne(segments: seq<seq<nat>>): seq<nat>
    requires segments != []
  {
    segments[|segments| - 1]
  }

  lemma CompletedCons(first: seq<nat>, rest: seq<seq<nat>>)
    requires rest != []
    ensures Completed([first] + rest) == [first] + Completed(rest) && OpenOne([first] + rest) == OpenOne(rest)
  {
  }

  /** What has been done is root-to-exit paths, and a path to where the run is. */
  lemma {:induction false} SegmentsSoFar(g: Graph, prefix: seq<nat>, run: seq<nat>, n: nat, b: nat)
    requires HasRealExitRoot(g)
    requires DagPath(g, prefix, g.root, n) && Run(g, run, n, b)
    ensures var segments := Segments(g, prefix, run);
      && segments != [] && AreDagPaths(g, Completed(segments)) && DagPath(g, OpenOne(segments), g.root, b)
    decreases |run|
  {
    if run != [] {
      RunTail(g, run, n, b);
      var e := g.edges[run[0]];
      if IsCut(g, run[0]) {
        ExtendDagPath(g, prefix, g.root, e.phonyExit.value);
        ExtendDagPath(g, [], g.root, e.phonyRoot.value);
        assert [] + [e.phonyRoot.value] == [e.phonyRoot.value];
        SegmentsSoFar(g, [e.phonyRoot.value], run[1..], e.target, b);
        CompletedCons(prefix + [e.phonyExit.value], Segments(g, [e.phonyRoot.value], run[1..]));
      } else {
        ExtendDagPath(g, prefix, g.root, run[0]);
        SegmentsSoFar(g, prefix + [run[0]], run[1..], e.target, b);
      }
    }
  }

  /** The machine at node `b`: the completed segments are logged, the open one has got to its state at `b`. */
  ghost function StateAt(g: Graph, inc0: seq<int>, l: Labels, pl: Placement, segments: seq<seq<nat>>, b: nat): Machine
    requires Placed(g, inc0, l, pl) && b < g.nodes && segments != []
    requires AreDagPaths(g, Completed(segments)) && DagPath(g, OpenOne(segments), g.root, b)
  {
    After(Numbers(g, inc0, Completed(segments)),
          State(pl.passed[b], pl.lifted[b], pl.pending[b], inc0[ExitRoot(g)] + Sum(inc0, OpenOne(segments))))
  }

  lemma AfterBoth(v: int, log: seq<int>, m: Machine)
    ensures After([v], After(log, m)) == After([v] + log, m)
  {
    if m.Machine? {
      assert [v] + (log + m.log) == ([v] + log) + m.log;
    }
  }

  lemma StateAtCons(
    g: Graph, inc0: seq<int>, l: Labels, pl: Placement, first: seq<nat>, others: seq<seq<nat>>, b: nat)
    requires Placed(g, inc0, l, pl) && b < g.nodes && others != [] && DagPath(g, first, g.root, g.exit)
    requires AreDagPaths(g, Completed(others)) && DagPath(g, OpenOne(others), g.root, b)
    ensures AreDagPaths(g, Completed([first] + others)) && DagPath(g, OpenOne([first] + others), g.root, b)
    ensures StateAt(g, inc0, l, pl, [first] + others, b)
         == After([PathNumber(g, inc0, first)], StateAt(g, inc0, l, pl, others, b))
  {
    CompletedCons(first, others);
    NumbersOfCons(g, inc0, first, Completed(others));
    AfterBoth(PathNumber(g, inc0, first), Numbers(g, inc0, Completed(others)),
              State(pl.passed[b], pl.lifted[b], pl.pending[b], inc0[ExitRoot(g)] + Sum(inc0, OpenOne(others))));
  }

  lemma {:induction false} StateFrom(
    g: Graph, inc0: seq<int>, l: Labels, pl: Placement, prefix: seq<nat>, run: seq<nat>, n: nat, b: nat)
    requires Placed(g, inc0, l, pl) && n < g.nodes && b < g.nodes
    requires DagPath(g, prefix, g.root, n) && Run(g, run, n, b)
    ensures var segments := Segments(g, prefix, run);
      && segments != [] && AreDagPaths(g, Completed(segments)) && DagPath(g, OpenOne(segments), g.root, b)
      && Execute(CodeOf(g, l), run, Execute(CodeOf(g, l), prefix, START)) == StateAt(g, inc0, l, pl, segments, b)
    decreases |run|
  {
    var code := CodeOf(g, l);
    SegmentsSoFar(g, prefix, run, n, b);
    if run == [] {
      StateAlongPath(g, inc0, l, pl, prefix, b);
    } else {
      RunTail(g, run, n, b);
      var e, rest := run[0], run[1..];
      assert run == [e] + rest;
      ExecuteAppend(code, [e], rest, Execute(code, prefix, START));
      if IsCut(g, e) {
        StateAcrossCut(g, inc0, l, pl, prefix, run, b);
      } else {
        ExtendDagPath(g, prefix, g.root, e);
        ExecuteLast(code, prefix, e, START);
        StateFrom(g, inc0, l, pl, prefix + [e], rest, g.edges[e].target, b);
      }
    }
  }

  lemma {:induction false} StateAcrossCut(
    g: Graph, inc0: seq<int>, l: Labels, pl: Placement, prefix: seq<nat>, run: seq<nat>, b: nat)
    requires Placed(g, inc0, l, pl) && b < g.nodes && run != [] && IsReal(g, run[0]) && IsCut(g, run[0])
    requires DagPath(g, prefix, g.root, g.edges[run[0]].source)
    requires Run(g, run[1..], g.edges[run[0]].target, b)
    requires forall i :: 0 <= i < |run| ==> run[i] < |g.edges|
    requires var segments := Segments(g, prefix, run);
      segments != [] && AreDagPaths(g, Completed(segments)) && DagPath(g, OpenOne(segments), g.root, b)
    ensures Execute(CodeOf(g, l), run[1..], Execute(CodeOf(g, l), [run[0]], Execute(CodeOf(g, l), prefix, START)))
         == StateAt(g, inc0, l, pl, Segments(g, prefix, run), b)
    decreases |run|, 0
  {
    var code, e, rest := CodeOf(g, l), run[0], run[1..];
    var bottom, top := g.edges[e].phonyExit.value, g.edges[e].phonyRoot.value;
    var first, others := prefix + [bottom], Segments(g, [top], rest);
    CutStep(g, inc0, l, pl, prefix, e);
    ExtendDagPath(g, [], g.root, top);
    assert [] + [top] == [top];
    StateFrom(g, inc0, l, pl, [top], rest, g.edges[e].target, b);
    ExecuteAfter(code, rest, [PathNumber(g, inc0, first)], Execute(code, [top], START));
    StateAtCons(g, inc0, l, pl, first, others, b);
  }

  /**
   At every point of every run, the machine has logged the numbers of the completed
   segments, in order, and is as far with the open one as its node says.
   */
  lemma RunIsInState(g: Graph, inc0: seq<int>, l: Labels, pl: Placement, run: seq<nat>, b: nat)
    requires Placed(g, inc0, l, pl) && b < g.nodes && Run(g, run, g.root, b)
    ensures var segments := Segments(g, [], run);
      && segments != [] && AreDagPaths(g, Completed(segments)) && DagPath(g, OpenOne(segments), g.root, b)
      && Execute(CodeOf(g, l), run, START) == StateAt(g, inc0, l, pl, segments, b)
  {
    StateFrom(g, inc0, l, pl, [], run, g.root, b);
  }

  lemma NumbersOfSnoc(g: Graph, value: seq<int>, segments: seq<seq<nat>>)
    requires HasExitRoot(g) && ExitRoot(g) < |g.edges| && |value| == |g.edges|
    requires segments != [] && AreDagPaths(g, segments)
    ensures AreDagPaths(g, Completed(segments))
    ensures Numbers(g, value, segments)
         == Numbers(g, value, Completed(segments)) + [PathNumber(g, value, OpenOne(segments))]
  {
  }

  /**
   End to end: a complete run, from the entry to the exit over real edges, logs one
   number per segment, namely the segment's own, and ends with the register unset.
   */
  lemma RunLogsItsSegments(g: Graph, inc0: seq<int>, l: Labels, pl: Placement, run: seq<nat>)
    requires Placed(g, inc0, l, pl) && Run(g, run, g.root, g.exit)
    ensures AreDagPaths(g, Segments(g, [], run))
    ensures Execute(CodeOf(g, l), run, START) == Machine(None, Numbers(g, inc0, Segments(g, [], run)))
  {
    RunIsInState(g, inc0, l, pl, run, g.exit);
    SegmentsArePaths(g, [], run, g.root);
    NumbersOfSnoc(g, inc0, Segments(g, [], run));
  }

  // ----- the log at any point of a run -----

  /** What is pending behind the counter is what any way to the exit would still have added. */
  lemma {:induction false} PendingIsSum(g: Graph, inc0: seq<int>, l: Labels, pl: Placement, q: seq<nat>, b: nat)
    requires Placed(g, inc0, l, pl) && b < g.nodes && pl.lifted[b] && DagPath(g, q, b, g.exit)
    ensures pl.pending[b] == Sum(inc0, q)
    decreases |q|
  {
    if q != [] {
      var e := q[0];
      assert IsDag(g, e) && EdgePlaced(g, inc0, l, pl, e);
      assert forall i :: 0 <= i < |q[1..]| ==> q[1..][i] == q[i + 1];
      PendingIsSum(g, inc0, l, pl, q[1..], g.edges[e].target);
    }
  }

  /**
   The log of a run that has come to node `b`: the numbers of the completed segments, and
   possibly one more, which is the number that the open segment will have however it goes on.
   */
  ghost predicate SoFar(g: Graph, value: seq<int>, segments: seq<seq<nat>>, b: nat, m: Machine)
    requires HasExitRoot(g) && ExitRoot(g) < |g.edges| && |value| == |g.edges|
    requires segments != [] && AreDagPaths(g, Completed(segments)) && DagPath(g, OpenOne(segments), g.root, b)
  {
    var numbers := Numbers(g, value, Completed(segments));
    && m.Machine?
    && (m.log == numbers
        || (|m.log| == |numbers| + 1 && numbers <= m.log
            && forall q | DagPath(g, q, b, g.exit) ::
                 m.log[|numbers|] == PathNumber(g, value, OpenOne(segments) + q)))
  }

  lemma StateIsSoFar(g: Graph, inc0: seq<int>, l: Labels, pl: Placement, segments: seq<seq<nat>>, b: nat)
    requires Placed(g, inc0, l, pl) && b < g.nodes && segments != []
    requires AreDagPaths(g, Completed(segments)) && DagPath(g, OpenOne(segments), g.root, b)
    ensures SoFar(g, inc0, segments, b, StateAt(g, inc0, l, pl, segments, b))
  {
    var numbers, open := Numbers(g, inc0, Completed(segments)), OpenOne(segments);
    if pl.lifted[b] && !pl.passed[b] {
      forall q | DagPath(g, q, b, g.exit)
        ensures (inc0[ExitRoot(g)] + Sum(inc0, open) + pl.pending[b]) % WORD == PathNumber(g, inc0, open + q)
      {
        PendingIsSum(g, inc0, l, pl, q, b);
        SumAppend(inc0, open, q);
      }
    }
  }
}
