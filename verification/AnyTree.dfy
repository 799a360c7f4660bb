/**
 The pass with a spanning tree that is not empty.  A backedge may then get an increment.
 The code of a cut edge does not use it, but a split leaves it behind on the first half,
 where it counts.  This module says exactly when the log is still right.
 */
module AnyTree {
  import opened Basics
  import opened Graphs
  import opened ChordSpec
  import opened RegisterMachine
  import opened PathTheorem
  import opened RunTheorem
  import opened EdgeSplitting
  import opened Emission
  import opened EndToEnd

  // ----- the emitted code, edge by edge -----

  /** The code on what has become of edge `e`. */
  ghost predicate EdgeCoded(g: Graph, l: Labels, code: seq<Action>, splits: seq<nat>, e: nat)
    requires Labelled(g, l) && CutEdgesLinked(g) && e < |g.edges|
  {
    if e in splits then
      var f := |g.edges| + IndexOf(splits, e);
      && e < |code| && f < |code|
      && code[e] == EdgeAction(l.isInit[e], l.increment[e], l.isCounter[e])
      && code[f] == if IsCut(g, e) then ActionOf(g, l, e) else IDLE
    else
      e < |code| && code[e] == ActionOf(g, l, e)
  }

  lemma SplitIsCoded(g0: Graph, l0: Labels, s: Emitter, splits: seq<nat>, k: nat)
    requires Invariant(g0, l0, s, splits) && k < |splits| && s.has[splits[k]] && s.has[|g0.edges| + k]
    ensures var e, f := splits[k], |g0.edges| + k;
      && e < |g0.edges| && e < |s.code| && f < |s.code|
      && s.code[e] == EdgeAction(l0.isInit[e], l0.increment[e], l0.isCounter[e])
      && s.code[f] == if IsCut(g0, e) then ActionOf(g0, l0, e) else IDLE
  {
    assert EdgeEmitted(s, splits[k]) && EdgeEmitted(s, |g0.edges| + k);
    SplitActions(g0, l0, s, splits, k);
  }

  lemma EdgeIsCoded(g0: Graph, l0: Labels, s: Emitter, splits: seq<nat>, e: nat)
    requires Invariant(g0, l0, s, splits) && IsLinked(g0, e)
    requires AllVisited(s, ExpandEdge(|g0.edges|, splits, e), |ExpandEdge(|g0.edges|, splits, e)|)
    ensures EdgeCoded(g0, l0, s.code, splits, e)
  {
    var p := ExpandEdge(|g0.edges|, splits, e);
    assert p[0] == e && s.has[p[0]];
    if e in splits {
      assert s.has[p[1]];
      SplitIsCoded(g0, l0, s, splits, IndexOf(splits, e));
    } else {
      assert EdgeEmitted(s, e);
      UnsplitAction(g0, l0, s, splits, e);
    }
  }

  ghost predicate RunCoded(g: Graph, l: Labels, code: seq<Action>, splits: seq<nat>, run: seq<nat>)
    requires Labelled(g, l) && CutEdgesLinked(g)
  {
    forall i :: 0 <= i < |run| ==> run[i] < |g.edges| && EdgeCoded(g, l, code, splits, run[i])
  }

  lemma {:induction false} RunIsCoded(g0: Graph, l0: Labels, s: Emitter, splits: seq<nat>, run: seq<nat>)
    requires Invariant(g0, l0, s, splits) && forall i :: 0 <= i < |run| ==> IsLinked(g0, run[i])
    requires AllVisited(s, Expand(|g0.edges|, splits, run), |Expand(|g0.edges|, splits, run)|)
    ensures RunCoded(g0, l0, s.code, splits, run)
    decreases |run|
  {
    if run != [] {
      var rest := run[1..];
      var p, q := ExpandEdge(|g0.edges|, splits, run[0]), Expand(|g0.edges|, splits, rest);
      assert forall i :: 0 <= i < |rest| ==> rest[i] == run[i + 1];
      assert forall i :: 0 <= i < |p| ==> (p + q)[i] == p[i];
      assert forall i :: 0 <= i < |q| ==> (p + q)[|p| + i] == q[i];
      EdgeIsCoded(g0, l0, s, splits, run[0]);
      RunIsCoded(g0, l0, s, splits, rest);
    }
  }

  lemma CodedBeforeUnlinking(g: Graph, l: Labels, code: seq<Action>, splits: seq<nat>, run: seq<nat>)
    requires Labelled(g, l) && CutEdgesLinked(g) && CutEdgesLinked(Unlinked(g))
    requires RunCoded(Unlinked(g), l, code, splits, run)
    ensures RunCoded(g, l, code, splits, run)
  {
    forall i | 0 <= i < |run|
      ensures run[i] < |g.edges| && EdgeCoded(g, l, code, splits, run[i])
    {
      assert EdgeCoded(Unlinked(g), l, code, splits, run[i]);
      assert ActionOf(Unlinked(g), l, run[i]) == ActionOf(g, l, run[i]);
    }
  }

  lemma {:induction false} CodedInCode(g: Graph, l: Labels, code: seq<Action>, splits: seq<nat>, run: seq<nat>)
    requires Labelled(g, l) && CutEdgesLinked(g) && RunCoded(g, l, code, splits, run)
    ensures InCode(code, Expand(|g.edges|, splits, run))
  {
    if run != [] {
      assert EdgeCoded(g, l, code, splits, run[0]);
      assert forall i :: 0 <= i < |run[1..]| ==> run[1..][i] == run[i + 1];
      CodedInCode(g, l, code, splits, run[1..]);
    }
  }

  /** A cut edge whose increment a split has left on its first half. */
  predicate SplitCut(g: Graph, splits: seq<nat>, e: nat) {
    e < |g.edges| && IsCut(g, e) && e in splits
  }

  /** What crossing edge `e` does: first the increment that was left behind, if any, then the edge's own code. */
  function Cross(g: Graph, l: Labels, splits: seq<nat>, e: nat, m: Machine): Machine
    requires Labelled(g, l) && CutEdgesLinked(g) && e < |g.edges|
  {
    Step(ActionOf(g, l, e),
         if SplitCut(g, splits, e) then Step(EdgeAction(l.isInit[e], l.increment[e], l.isCounter[e]), m) else m)
  }

  lemma CrossEdge(g: Graph, l: Labels, code: seq<Action>, splits: seq<nat>, e: nat, m: Machine)
    requires Labelled(g, l) && CutEdgesLinked(g) && e < |g.edges| && EdgeCoded(g, l, code, splits, e)
    ensures InCode(code, ExpandEdge(|g.edges|, splits, e))
    ensures Execute(code, ExpandEdge(|g.edges|, splits, e), m) == Cross(g, l, splits, e, m)
  {
    if e in splits {
      var f := |g.edges| + IndexOf(splits, e);
      assert [e, f][1..] == [f];
      ExecuteOne(code, f, Step(code[e], m));
      IdleStep(Step(code[e], m));
    } else {
      ExecuteOne(code, e, m);
    }
  }

  // ----- when an increment that was left behind does no harm -----

  /** The register is set there and the increment vanishes in 32 bits, or there is no increment. */
  predicate Harmless(g: Graph, l: Labels, pl: Placement, e: nat)
    requires Labelled(g, l) && e < |g.edges| && g.edges[e].source < |pl.passed|
  {
    l.increment[e] == 0 || (!pl.passed[g.edges[e].source] && l.increment[e] % WORD == 0)
  }

  ghost predicate HarmlessRun(g: Graph, l: Labels, pl: Placement, splits: seq<nat>, run: seq<nat>)
    requires Labelled(g, l) && EndsInRange(g) && |pl.passed| == g.nodes
  {
    forall i :: 0 <= i < |run| && SplitCut(g, splits, run[i]) ==> Harmless(g, l, pl, run[i])
  }

  lemma AddMultiple(v: int, x: int)
    requires 0 <= v < WORD
    ensures (v + x) % WORD == v <==> x % WORD == 0
  {
    var q, r := x / WORD, x % WORD;
    assert x == q * WORD + r;
    assert (v + x) % WORD == (v + r) % WORD by {
      assert v + x == q * WORD + (v + r);
      Shift(v + r, q);
    }
  }

  lemma Shift(a: int, q: int)
    ensures (q * WORD + a) % WORD == a % WORD
  {
    var b, r := a / WORD, a % WORD;
    assert q * WORD + a == (q + b) * WORD + r;
  }

  lemma DifferentSums(v: int, w: int, b: int)
    requires 0 <= v < WORD && 0 <= w < WORD && v != w
    ensures (v + b) % WORD != (w + b) % WORD
  {
  }

  /** The first number in the log of `m` is not `v`, and will not be. */
  predicate Wrong(m: Machine, v: int) {
    m.Stuck? || (|m.log| > 0 && m.log[0] != v)
  }

  lemma {:induction false} WrongStays(code: seq<Action>, p: seq<nat>, m: Machine, v: int)
    requires InCode(code, p) && Wrong(m, v)
    ensures Wrong(Execute(code, p, m), v)
  {
    if p != [] {
      WrongStays(code, p[1..], Step(code[p[0]], m), v);
    }
  }

  lemma CutLogsFirst(v: int, bottom: int, top: int, topIsCounter: bool)
    requires 0 <= v < WORD
    ensures var m := Step(CutAction(bottom, top, topIsCounter), Machine(Some(v), []));
      m.Machine? && |m.log| > 0 && m.log[0] == (v + bottom) % WORD
  {
  }

  /** A harmless increment leaves the state before a cut edge as it is; any other spoils the next number. */
  lemma LeftBehind(x: int, passed: bool, pending: int, sum: int, bottom: int, top: int, topIsCounter: bool, v: int)
    requires var m := Step(CutAction(bottom, top, topIsCounter), State(passed, false, pending, sum));
      m.Machine? && |m.log| > 0 && m.log[0] == v
    ensures var m := State(passed, false, pending, sum);
      var m' := Step(EdgeAction(false, x, false), m);
      if x == 0 || (!passed && x % WORD == 0) then m' == m
      else Wrong(Step(CutAction(bottom, top, topIsCounter), m'), v)
  {
    if !passed {
      var r := sum % WORD;
      AddMultiple(r, x);
      CutLogsFirst(r, bottom, top, topIsCounter);
      CutLogsFirst((r + x) % WORD, bottom, top, topIsCounter);
      if x % WORD != 0 {
        DifferentSums(r, (r + x) % WORD, bottom);
      }
    }
  }

  /** Crossing a cut edge at the end of `prefix` is right if what was left behind is harmless, and wrong if not. */
  lemma CrossCut(g: Graph, inc0: seq<int>, l: Labels, pl: Placement, splits: seq<nat>, prefix: seq<nat>, e: nat)
    requires Placed(g, inc0, l, pl) && e < |g.edges| && IsCut(g, e)
    requires DagPath(g, prefix, g.root, g.edges[e].source)
    ensures var bottom, top := g.edges[e].phonyExit.value, g.edges[e].phonyRoot.value;
      var code, m := CodeOf(g, l), Execute(CodeOf(g, l), prefix, START);
      && DagPath(g, prefix + [bottom], g.root, g.exit)
      && var number := PathNumber(g, inc0, prefix + [bottom]);
      if SplitCut(g, splits, e) && !Harmless(g, l, pl, e) then Wrong(Cross(g, l, splits, e, m), number)
      else Cross(g, l, splits, e, m) == After([number], Execute(code, [top], START))
  {
    var code, n := CodeOf(g, l), g.edges[e].source;
    var bottom, top := g.edges[e].phonyExit.value, g.edges[e].phonyRoot.value;
    var sum := inc0[ExitRoot(g)] + Sum(inc0, prefix);
    CutStep(g, inc0, l, pl, prefix, e);
    ExecuteOne(code, e, Execute(code, prefix, START));
    StateAlongPath(g, inc0, l, pl, prefix, n);
    CutGoesOn(g, inc0, l, pl, top);
    LeftBehind(l.increment[e], pl.passed[n], pl.pending[n], sum, l.increment[bottom], l.increment[top],
               l.isCounter[top], PathNumber(g, inc0, prefix + [bottom]));
  }

  lemma CutGoesOn(g: Graph, inc0: seq<int>, l: Labels, pl: Placement, top: nat)
    requires Placed(g, inc0, l, pl) && IsDag(g, top) && g.edges[top].source == g.root
    ensures Execute(CodeOf(g, l), [top], START).Machine?
  {
    assert Walk(g, [top], g.root, g.edges[top].target);
    StateAlongPath(g, inc0, l, pl, [top], g.edges[top].target);
  }

  // ----- the log of a run -----

  /** Some number of the log of `m` is not what it should be, or `m` got stuck. */
  ghost predicate Misses(numbers: seq<int>, m: Machine) {
    m.Stuck? || exists j :: 0 <= j < |numbers| && j < |m.log| && m.log[j] != numbers[j]
  }

  lemma MissesAfter(v: int, numbers: seq<int>, m: Machine)
    requires Misses(numbers, m)
    ensures Misses([v] + numbers, After([v], m))
  {
    if m.Machine? {
      var j :| 0 <= j < |numbers| && j < |m.log| && m.log[j] != numbers[j];
      assert ([v] + m.log)[j + 1] != ([v] + numbers)[j + 1];
    }
  }

  /**
   The code, run on what has become of `run` after `prefix`, is in the state it should be in
   at node `b` if all that was left behind on the way is harmless, and else has logged a wrong number.
   */
  ghost predicate StateOrMiss(
    g: Graph, inc0: seq<int>, l: Labels, pl: Placement, code: seq<Action>, splits: seq<nat>,
    prefix: seq<nat>, run: seq<nat>, b: nat)
    requires Placed(g, inc0, l, pl) && b < g.nodes && InCode(CodeOf(g, l), prefix)
    requires forall i :: 0 <= i < |run| ==> run[i] < |g.edges|
  {
    var p, segments := Expand(|g.edges|, splits, run), Segments(g, prefix, run);
    && InCode(code, p)
    && segments != [] && AreDagPaths(g, Completed(segments)) && DagPath(g, OpenOne(segments), g.root, b)
    && var m := Execute(code, p, Execute(CodeOf(g, l), prefix, START));
       if HarmlessRun(g, l, pl, splits, run) then m == StateAt(g, inc0, l, pl, segments, b)
       else Misses(Numbers(g, inc0, Completed(segments)), m)
  }

  lemma CrossFirst(
    g: Graph, l: Labels, code: seq<Action>, splits: seq<nat>, run: seq<nat>, m: Machine)
    requires Labelled(g, l) && CutEdgesLinked(g) && run != [] && RunCoded(g, l, code, splits, run)
    ensures RunCoded(g, l, code, splits, run[1..])
    ensures InCode(code, Expand(|g.edges|, splits, run)) && InCode(code, Expand(|g.edges|, splits, run[1..]))
    ensures Execute(code, Expand(|g.edges|, splits, run), m)
         == Execute(code, Expand(|g.edges|, splits, run[1..]), Cross(g, l, splits, run[0], m))
  {
    var e, rest := run[0], run[1..];
    assert forall i :: 0 <= i < |rest| ==> rest[i] == run[i + 1];
    CodedInCode(g, l, code, splits, rest);
    CrossEdge(g, l, code, splits, e, m);
    ExecuteAppend(code, ExpandEdge(|g.edges|, splits, e), Expand(|g.edges|, splits, rest), m);
  }

  lemma HarmlessTail(g: Graph, l: Labels, pl: Placement, splits: seq<nat>, run: seq<nat>)
    requires Labelled(g, l) && EndsInRange(g) && |pl.passed| == g.nodes && run != []
    ensures HarmlessRun(g, l, pl, splits, run) <==>
      (SplitCut(g, splits, run[0]) ==> Harmless(g, l, pl, run[0])) && HarmlessRun(g, l, pl, splits, run[1..])
  {
    assert forall i :: 0 <= i < |run[1..]| ==> run[1..][i] == run[i + 1];
    assert forall i :: 0 < i < |run| ==> run[i] == run[1..][i - 1];
  }

  lemma NumbersOfFirst(g: Graph, value: seq<int>, first: seq<nat>, others: seq<seq<nat>>)
    requires HasExitRoot(g) && ExitRoot(g) < |g.edges| && |value| == |g.edges|
    requires others != [] && DagPath(g, first, g.root, g.exit) && AreDagPaths(g, Completed(others))
    ensures AreDagPaths(g, Completed([first] + others))
    ensures Numbers(g, value, Completed([first] + others))
         == [PathNumber(g, value, first)] + Numbers(g, value, Completed(others))
  {
    CompletedCons(first, others);
    NumbersOfCons(g, value, first, Completed(others));
  }

  lemma WrongMisses(numbers: seq<int>, v: int, m: Machine)
    requires Wrong(m, v) && numbers != [] && numbers[0] == v
    ensures Misses(numbers, m)
  {
  }

  lemma {:induction false} StateOrMissFrom(
    g: Graph, inc0: seq<int>, l: Labels, pl: Placement, code: seq<Action>, splits: seq<nat>,
    prefix: seq<nat>, run: seq<nat>, n: nat, b: nat)
    requires Placed(g, inc0, l, pl) && n < g.nodes && b < g.nodes && RunCoded(g, l, code, splits, run)
    requires DagPath(g, prefix, g.root, n) && Run(g, run, n, b)
    ensures StateOrMiss(g, inc0, l, pl, code, splits, prefix, run, b)
    decreases |run|
  {
    SegmentsSoFar(g, prefix, run, n, b);
    if run == [] {
      StateAlongPath(g, inc0, l, pl, prefix, b);
    } else {
      RunTail(g, run, n, b);
      var e, rest := run[0], run[1..];
      CrossFirst(g, l, code, splits, run, Execute(CodeOf(g, l), prefix, START));
      HarmlessTail(g, l, pl, splits, run);
      if IsCut(g, e) {
        StateOrMissAcrossCut(g, inc0, l, pl, code, splits, prefix, run, b);
      } else {
        ExtendDagPath(g, prefix, g.root, e);
        ExecuteLast(CodeOf(g, l), prefix, e, START);
        StateOrMissFrom(g, inc0, l, pl, code, splits, prefix + [e], rest, g.edges[e].target, b);
      }
    }
  }

  lemma {:induction false} StateOrMissAcrossCut(
    g: Graph, inc0: seq<int>, l: Labels, pl: Placement, code: seq<Action>, splits: seq<nat>,
    prefix: seq<nat>, run: seq<nat>, b: nat)
    requires Placed(g, inc0, l, pl) && b < g.nodes && run != [] && IsReal(g, run[0]) && IsCut(g, run[0])
    requires RunCoded(g, l, code, splits, run[1..])
    requires DagPath(g, prefix, g.root, g.edges[run[0]].source)
    requires Run(g, run[1..], g.edges[run[0]].target, b)
    requires forall i :: 0 <= i < |run| ==> run[i] < |g.edges|
    requires InCode(code, Expand(|g.edges|, splits, run[1..]))
    requires var segments := Segments(g, prefix, run);
      segments != [] && AreDagPaths(g, Completed(segments)) && DagPath(g, OpenOne(segments), g.root, b)
    ensures var segments := Segments(g, prefix, run);
      var m := Execute(code, Expand(|g.edges|, splits, run[1..]),
                       Cross(g, l, splits, run[0], Execute(CodeOf(g, l), prefix, START)));
      if (SplitCut(g, splits, run[0]) ==> Harmless(g, l, pl, run[0])) && HarmlessRun(g, l, pl, splits, run[1..])
      then m == StateAt(g, inc0, l, pl, segments, b)
      else Misses(Numbers(g, inc0, Completed(segments)), m)
    decreases |run|, 0
  {
    var e, rest, q := run[0], run[1..], Expand(|g.edges|, splits, run[1..]);
    var bottom, top := g.edges[e].phonyExit.value, g.edges[e].phonyRoot.value;
    var first, others := prefix + [bottom], Segments(g, [top], rest);
    CrossCut(g, inc0, l, pl, splits, prefix, e);
    var number := PathNumber(g, inc0, first);
    ExtendDagPath(g, [], g.root, top);
    assert [] + [top] == [top];
    StateOrMissFrom(g, inc0, l, pl, code, splits, [top], rest, g.edges[e].target, b);
    NumbersOfFirst(g, inc0, first, others);
    if SplitCut(g, splits, e) && !Harmless(g, l, pl, e) {
      WrongStays(code, q, Cross(g, l, splits, e, Execute(CodeOf(g, l), prefix, START)), number);
      WrongMisses(Numbers(g, inc0, Completed(Segments(g, prefix, run))), number,
                  Execute(code, q, Cross(g, l, splits, e, Execute(CodeOf(g, l), prefix, START))));
    } else {
      var start := Execute(CodeOf(g, l), [top], START);
      ExecuteAfter(code, q, [number], start);
      StateAtCons(g, inc0, l, pl, first, others, b);
      if !HarmlessRun(g, l, pl, splits, rest) {
        MissesAfter(number, Numbers(g, inc0, Completed(others)), Execute(code, q, start));
      }
    }
  }

  // ----- with any tree -----

  /** What the pass has established when its walk is over, whatever the tree was. */
  ghost predicate Instrumented(
    g: Graph, rank: seq<nat>, tree: seq<nat>, parent: seq<Option<nat>>, depth: seq<nat>,
    inc0: seq<int>, l: Labels, pl: Placement, s: Emitter, splits: seq<nat>)
  {
    && WellFormed(g, rank) && ChordsMoved(g, tree, parent, depth, inc0) && Placed(g, inc0, l, pl)
    && Invariant(Unlinked(g), l, s, splits) && Closed(s, {})
    && s.has[ExitRoot(g)] && s.g.edges[ExitRoot(g)].target == g.root
    && HasExitRoot(s.g) && ExitRoot(s.g) == ExitRoot(g)
    && (forall e :: 0 <= e < |g.edges| && g.edges[e].kind == SplitEdge ==> inc0[e] == 0)
    && (forall e :: 0 <= e < |g.edges| && g.edges[e].kind == Backedge ==> !pl.passed[g.edges[e].source])
  }

  lemma NumbersOfAnyTree(
    g: Graph, rank: seq<nat>, tree: seq<nat>, parent: seq<Option<nat>>, depth: seq<nat>,
    inc0: seq<int>, segments: seq<seq<nat>>)
    requires WellFormed(g, rank) && ChordsMoved(g, tree, parent, depth, inc0) && AreDagPaths(g, segments)
    ensures Numbers(g, inc0, segments) == Numbers(g, Weights(g), segments)
  {
    forall i | 0 <= i < |segments|
      ensures PathNumber(g, inc0, segments[i]) == PathNumber(g, Weights(g), segments[i])
    {
      AnyTreeKeepsNumbers(g, rank, tree, parent, depth, inc0, segments[i]);
    }
  }

  /** A number that is still open does not depend on the tree either. */
  lemma SoFarOfAnyTree(
    g: Graph, rank: seq<nat>, tree: seq<nat>, parent: seq<Option<nat>>, depth: seq<nat>,
    inc0: seq<int>, segments: seq<seq<nat>>, b: nat, m: Machine)
    requires WellFormed(g, rank) && ChordsMoved(g, tree, parent, depth, inc0) && segments != []
    requires AreDagPaths(g, Completed(segments)) && DagPath(g, OpenOne(segments), g.root, b)
    ensures SoFar(g, inc0, segments, b, m) <==> SoFar(g, Weights(g), segments, b, m)
  {
    NumbersOfAnyTree(g, rank, tree, parent, depth, inc0, Completed(segments));
    var open := OpenOne(segments);
    forall q | DagPath(g, q, b, g.exit)
      ensures DagPath(g, open + q, g.root, g.exit)
      ensures PathNumber(g, inc0, open + q) == PathNumber(g, Weights(g), open + q)
    {
      WalkAppend(g, open, q, g.root, b, g.exit);
      AnyTreeKeepsNumbers(g, rank, tree, parent, depth, inc0, open + q);
    }
  }

  lemma InstrumentedRunIsCoded(g: Graph, l: Labels, s: Emitter, splits: seq<nat>, run: seq<nat>, b: nat)
    requires HasExitRoot(g) && Invariant(Unlinked(g), l, s, splits) && Closed(s, {})
    requires ExitRoot(g) < |g.edges| && s.has[ExitRoot(g)] && s.g.edges[ExitRoot(g)].target == g.root
    requires HasExitRoot(s.g) && ExitRoot(s.g) == ExitRoot(g)
    requires Labelled(g, l) && CutEdgesLinked(g) && Run(g, run, g.root, b)
    ensures Run(s.g, Expand(|g.edges|, splits, run), g.root, b)
    ensures RunCoded(g, l, s.code, splits, run)
  {
    RunIsVisited(g, l, s, splits, run, b);
    assert forall i :: 0 <= i < |run| ==> IsReal(g, run[i]) && IsLinked(Unlinked(g), run[i]);
    RunIsCoded(Unlinked(g), l, s, splits, run);
    CodedBeforeUnlinking(g, l, s.code, splits, run);
  }

  lemma MissIsNotSoFar(g: Graph, value: seq<int>, segments: seq<seq<nat>>, b: nat, m: Machine)
    requires HasExitRoot(g) && ExitRoot(g) < |g.edges| && |value| == |g.edges|
    requires segments != [] && AreDagPaths(g, Completed(segments)) && DagPath(g, OpenOne(segments), g.root, b)
    requires Misses(Numbers(g, value, Completed(segments)), m)
    ensures !SoFar(g, value, segments, b, m)
  {
  }

  /** At every point of a run, the log is right exactly when all increments left behind on the way are harmless. */
  lemma SoFarIfHarmless(
    g: Graph, rank: seq<nat>, tree: seq<nat>, parent: seq<Option<nat>>, depth: seq<nat>,
    inc0: seq<int>, l: Labels, pl: Placement, s: Emitter, splits: seq<nat>, run: seq<nat>, b: nat)
    requires Instrumented(g, rank, tree, parent, depth, inc0, l, pl, s, splits)
    requires b < g.nodes && Run(g, run, g.root, b)
    ensures LogsSoFar(g, s.g, s.code, splits, run, b) <==> HarmlessRun(g, l, pl, splits, run)
  {
    var p, segments := Expand(|g.edges|, splits, run), Segments(g, [], run);
    InstrumentedRunIsCoded(g, l, s, splits, run, b);
    StateOrMissFrom(g, inc0, l, pl, s.code, splits, [], run, g.root, b);
    var m := Execute(s.code, p, START);
    SoFarOfAnyTree(g, rank, tree, parent, depth, inc0, segments, b, m);
    if HarmlessRun(g, l, pl, splits, run) {
      StateIsSoFar(g, inc0, l, pl, segments, b);
    } else {
      MissIsNotSoFar(g, inc0, segments, b, m);
    }
  }

  /** At the exit nothing is open. */
  lemma StateAtExit(g: Graph, inc0: seq<int>, l: Labels, pl: Placement, segments: seq<seq<nat>>)
    requires Placed(g, inc0, l, pl) && segments != [] && AreDagPaths(g, segments)
    ensures AreDagPaths(g, Completed(segments))
    ensures StateAt(g, inc0, l, pl, segments, g.exit) == Machine(None, Numbers(g, inc0, segments))
    ensures forall m :: Misses(Numbers(g, inc0, Completed(segments)), m) ==>
      m != Machine(None, Numbers(g, inc0, segments))
  {
    NumbersOfSnoc(g, inc0, segments);
  }

  lemma LogsIfHarmless(
    g: Graph, rank: seq<nat>, tree: seq<nat>, parent: seq<Option<nat>>, depth: seq<nat>,
    inc0: seq<int>, l: Labels, pl: Placement, s: Emitter, splits: seq<nat>, run: seq<nat>)
    requires Instrumented(g, rank, tree, parent, depth, inc0, l, pl, s, splits)
    requires Run(g, run, g.root, g.exit)
    ensures LogsRun(g, s.g, s.code, splits, run) <==> HarmlessRun(g, l, pl, splits, run)
  {
    InstrumentedRunIsCoded(g, l, s, splits, run, g.exit);
    StateOrMissFrom(g, inc0, l, pl, s.code, splits, [], run, g.root, g.exit);
    SegmentsArePaths(g, [], run, g.root);
    StateAtExit(g, inc0, l, pl, Segments(g, [], run));
    NumbersOfAnyTree(g, rank, tree, parent, depth, inc0, Segments(g, [], run));
  }

  /** A critical edge on a run has been split. */
  lemma CriticalOnRun(g: Graph, l: Labels, s: Emitter, splits: seq<nat>, run: seq<nat>, b: nat, i: nat)
    requires HasExitRoot(g) && Invariant(Unlinked(g), l, s, splits) && Closed(s, {})
    requires ExitRoot(g) < |g.edges| && s.has[ExitRoot(g)] && s.g.edges[ExitRoot(g)].target == g.root
    requires HasExitRoot(s.g) && ExitRoot(s.g) == ExitRoot(g)
    requires Run(g, run, g.root, b) && i < |run| && Critical(Unlinked(g), run[i])
    ensures run[i] in splits
  {
    RunIsVisited(g, l, s, splits, run, b);
    ExpandVisits(s, |g.edges|, splits, run, i);
    assert IsReal(g, run[i]);
    CriticalIsSplit(Unlinked(g), l, s, splits, run[i]);
  }

  // ----- in terms of the graph and the tree -----

  /** Edge `e` is a critical backedge whose increment, with this tree, does not vanish in 32 bits. */
  ghost predicate UnevenEdge(g: Graph, tree: seq<nat>, parent: seq<Option<nat>>, depth: seq<nat>, e: nat) {
    && e < |g.edges| && g.edges[e].kind == Backedge && e !in tree
    && EndsInRange(Unlinked(g)) && Critical(Unlinked(g), e)
    && IsTree(g, tree, parent, depth) && ChordIncrement(g, tree, parent, depth, e) % WORD != 0
  }

  /** No step of the run is over such an edge. */
  ghost predicate EvenRun(g: Graph, tree: seq<nat>, parent: seq<Option<nat>>, depth: seq<nat>, run: seq<nat>) {
    forall i :: 0 <= i < |run| ==> !UnevenEdge(g, tree, parent, depth, run[i])
  }

  lemma UnevenIsHarmful(
    g: Graph, inc0: seq<int>, l: Labels, pl: Placement, splits: seq<nat>, run: seq<nat>, i: nat)
    requires Placed(g, inc0, l, pl) && i < |run| && SplitCut(g, splits, run[i]) && inc0[run[i]] % WORD != 0
    ensures !HarmlessRun(g, l, pl, splits, run)
  {
    assert !Harmless(g, l, pl, run[i]);
  }

  /** The increment that a split can leave behind to do harm is that of an uneven edge. */
  lemma HarmfulIsUneven(
    g: Graph, rank: seq<nat>, tree: seq<nat>, parent: seq<Option<nat>>, depth: seq<nat>,
    inc0: seq<int>, l: Labels, pl: Placement, s: Emitter, splits: seq<nat>, e: nat)
    requires Instrumented(g, rank, tree, parent, depth, inc0, l, pl, s, splits)
    requires SplitCut(g, splits, e) && !Harmless(g, l, pl, e)
    ensures UnevenEdge(g, tree, parent, depth, e)
  {
    var k := IndexOf(splits, e);
    assert Critical(Unlinked(g), splits[k]);
    assert l.increment[e] == inc0[e];
  }

  lemma EvenIsHarmless(
    g: Graph, rank: seq<nat>, tree: seq<nat>, parent: seq<Option<nat>>, depth: seq<nat>,
    inc0: seq<int>, l: Labels, pl: Placement, s: Emitter, splits: seq<nat>, run: seq<nat>, b: nat)
    requires Instrumented(g, rank, tree, parent, depth, inc0, l, pl, s, splits)
    requires Run(g, run, g.root, b)
    ensures HarmlessRun(g, l, pl, splits, run) <==> EvenRun(g, tree, parent, depth, run)
  {
    if i: nat :| i < |run| && UnevenEdge(g, tree, parent, depth, run[i]) {
      CriticalOnRun(g, l, s, splits, run, b, i);
      UnevenIsHarmful(g, inc0, l, pl, splits, run, i);
    } else {
      forall i | 0 <= i < |run| && SplitCut(g, splits, run[i])
        ensures Harmless(g, l, pl, run[i])
      {
        if !Harmless(g, l, pl, run[i]) {
          HarmfulIsUneven(g, rank, tree, parent, depth, inc0, l, pl, s, splits, run[i]);
          assert false;
        }
      }
    }
  }

  /** Whatever the tree, a run is logged exactly when no step of it is uneven. */
  lemma TreeLogsRun(
    g: Graph, rank: seq<nat>, tree: seq<nat>, parent: seq<Option<nat>>, depth: seq<nat>,
    inc0: seq<int>, l: Labels, pl: Placement, s: Emitter, splits: seq<nat>, run: seq<nat>)
    requires Instrumented(g, rank, tree, parent, depth, inc0, l, pl, s, splits)
    requires Run(g, run, g.root, g.exit)
    ensures LogsRun(g, s.g, s.code, splits, run) <==> EvenRun(g, tree, parent, depth, run)
  {
    LogsIfHarmless(g, rank, tree, parent, depth, inc0, l, pl, s, splits, run);
    EvenIsHarmless(g, rank, tree, parent, depth, inc0, l, pl, s, splits, run, g.exit);
  }

  /** The same at any point of a run. */
  lemma TreeLogsSoFar(
    g: Graph, rank: seq<nat>, tree: seq<nat>, parent: seq<Option<nat>>, depth: seq<nat>,
    inc0: seq<int>, l: Labels, pl: Placement, s: Emitter, splits: seq<nat>, run: seq<nat>, b: nat)
    requires Instrumented(g, rank, tree, parent, depth, inc0, l, pl, s, splits)
    requires b < g.nodes && Run(g, run, g.root, b)
    ensures LogsSoFar(g, s.g, s.code, splits, run, b) <==> EvenRun(g, tree, parent, depth, run)
  {
    SoFarIfHarmless(g, rank, tree, parent, depth, inc0, l, pl, s, splits, run, b);
    EvenIsHarmless(g, rank, tree, parent, depth, inc0, l, pl, s, splits, run, b);
  }

  /** So all runs are logged exactly when none of them has an uneven step. */
  lemma TreeLogsAllRuns(
    g: Graph, rank: seq<nat>, tree: seq<nat>, parent: seq<Option<nat>>, depth: seq<nat>,
    inc0: seq<int>, l: Labels, pl: Placement, s: Emitter, splits: seq<nat>)
    requires Instrumented(g, rank, tree, parent, depth, inc0, l, pl, s, splits)
    ensures LogsAllRuns(g, s.g, s.code, splits)
       <==> forall run | Run(g, run, g.root, g.exit) :: EvenRun(g, tree, parent, depth, run)
  {
    forall run | Run(g, run, g.root, g.exit)
      ensures LogsRun(g, s.g, s.code, splits, run) <==> EvenRun(g, tree, parent, depth, run)
    {
      TreeLogsRun(g, rank, tree, parent, depth, inc0, l, pl, s, splits, run);
    }
    if forall run | Run(g, run, g.root, g.exit) :: EvenRun(g, tree, parent, depth, run) {
      ShapeOfOriginal(g, s.g, splits);
      NoOtherRuns(g, s.g, s.code, splits);
    }
  }

  lemma TreeLogsPartialRuns(
    g: Graph, rank: seq<nat>, tree: seq<nat>, parent: seq<Option<nat>>, depth: seq<nat>,
    inc0: seq<int>, l: Labels, pl: Placement, s: Emitter, splits: seq<nat>)
    requires Instrumented(g, rank, tree, parent, depth, inc0, l, pl, s, splits)
    ensures LogsPartialRuns(g, s.g, s.code, splits)
       <==> forall run, b | 0 <= b < g.nodes && Run(g, run, g.root, b) :: EvenRun(g, tree, parent, depth, run)
  {
    forall run, b | 0 <= b < g.nodes && Run(g, run, g.root, b)
      ensures LogsSoFar(g, s.g, s.code, splits, run, b) <==> EvenRun(g, tree, parent, depth, run)
    {
      TreeLogsSoFar(g, rank, tree, parent, depth, inc0, l, pl, s, splits, run, b);
    }
  }

  /** No uneven edge lies on a complete run. */
  ghost predicate EvenTree(g: Graph, tree: seq<nat>, parent: seq<Option<nat>>, depth: seq<nat>)
    requires HasExitRoot(g)
  {
    forall e: nat | UnevenEdge(g, tree, parent, depth, e) ::
      forall run | Run(g, run, g.root, g.exit) :: e !in run
  }

  lemma EvenTreeLogsAllRuns(
    g: Graph, rank: seq<nat>, tree: seq<nat>, parent: seq<Option<nat>>, depth: seq<nat>,
    inc0: seq<int>, l: Labels, pl: Placement, s: Emitter, splits: seq<nat>)
    requires Instrumented(g, rank, tree, parent, depth, inc0, l, pl, s, splits)
    ensures LogsAllRuns(g, s.g, s.code, splits) <==> EvenTree(g, tree, parent, depth)
  {
    TreeLogsAllRuns(g, rank, tree, parent, depth, inc0, l, pl, s, splits);
    EvenTreeHasEvenRuns(g, tree, parent, depth);
  }

  lemma EvenTreeHasEvenRuns(g: Graph, tree: seq<nat>, parent: seq<Option<nat>>, depth: seq<nat>)
    requires HasExitRoot(g)
    ensures EvenTree(g, tree, parent, depth)
       <==> forall run | Run(g, run, g.root, g.exit) :: EvenRun(g, tree, parent, depth, run)
  {
    if EvenTree(g, tree, parent, depth) {
      forall run, i | Run(g, run, g.root, g.exit) && 0 <= i < |run|
        ensures !UnevenEdge(g, tree, parent, depth, run[i])
      {
        assert run[i] in run;
      }
    }
  }

  lemma UnevenIsMislogged(
    g: Graph, rank: seq<nat>, tree: seq<nat>, parent: seq<Option<nat>>, depth: seq<nat>,
    inc0: seq<int>, l: Labels, pl: Placement, s: Emitter, splits: seq<nat>, run: seq<nat>, e: nat)
    requires Instrumented(g, rank, tree, parent, depth, inc0, l, pl, s, splits)
    requires Run(g, run, g.root, g.exit) && e in run && UnevenEdge(g, tree, parent, depth, e)
    ensures !LogsRun(g, s.g, s.code, splits, run) && !LogsAllRuns(g, s.g, s.code, splits)
  {
    TreeLogsRun(g, rank, tree, parent, depth, inc0, l, pl, s, splits, run);
  }

  /** Ends of equal potential, as with the empty tree, are enough for an edge to be even. */
  lemma EvenEndsAreEven(g: Graph, tree: seq<nat>, parent: seq<Option<nat>>, depth: seq<nat>, e: nat)
    requires IsTree(g, tree, parent, depth) && CutEdgesHavePhonies(g) && e < |g.edges|
    requires HasEvenEnds(g, tree, parent, depth, e)
    ensures !UnevenEdge(g, tree, parent, depth, e)
  {
    assert g.edges[e].kind == Backedge ==> IsCut(g, e);
  }
}
