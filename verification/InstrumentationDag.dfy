/**
 The instrumentation pass over one function: the labels of the edges are columns that
 the steps update in place, the graph itself changes when phony edges are unlinked and
 critical edges are split.
 */
module InstrumentationDag {
  import opened Basics
  import opened Graphs
  import opened ChordSpec
  import opened PushSpec
  import opened PushForest
  import opened PushTrees
  import opened RegisterMachine
  import opened EdgeSplitting
  import opened Emission
  import opened PathTheorem
  import opened EndToEnd
  import opened AnyTree
  import opened BlockCode

  datatype Color = White | Gray | Black

  class Dag {
    var g: Graph
    var increment: seq<int>
    var isInit: seq<bool>
    var isCounter: seq<bool>
    var inTree: seq<bool>
    var treeEdges: seq<nat>
    var chordEdges: seq<nat>
    var hasInstrumentation: seq<bool>
    var code: seq<Action>
    var place: seq<Place>
    ghost var splits: seq<nat>

    ghost predicate Sized()
      reads this
    {
      |increment| == |isInit| == |isCounter| == |inTree| == |g.edges|
    }

    // ----- spanning tree and chords -----

    /**
     As written, all nodes are White before the search and White nodes are skipped, so
     the search stops at the root and finds no tree edge.
     */
    method CalculateSpanningTree()
      requires Sized() && g.root < g.nodes
      requires forall e :: 0 <= e < |g.edges| ==> !inTree[e]
      requires chordEdges == []
      modifies this`chordEdges
      ensures Distinct(chordEdges)
      ensures forall e: nat :: e in chordEdges <==> e < |g.edges| && g.edges[e].kind != SplitEdge
    {
      var color := new Color[g.nodes];
      for n := 0 to g.nodes
        invariant chordEdges == []
        invariant forall m :: 0 <= m < n ==> color[m] == White
      {
        color[n] := White;
      }
      var stack: seq<nat> := [g.root];
      while stack != []
        invariant chordEdges == []
        invariant forall m :: 0 <= m < g.nodes ==> color[m] == White
        invariant forall i :: 0 <= i < |stack| ==> stack[i] < g.nodes
        decreases |stack|
      {
        var node := stack[|stack| - 1];
        stack := stack[..|stack| - 1];
        if color[node] == White {
          continue;
        }
        assert false;
      }
      CollectChords();
    }

    /** The loop at the end of `calculateSpanningTree`: what is not in the tree is a chord. */
    method CollectChords()
      requires Sized() && chordEdges == []
      modifies this`chordEdges
      ensures Distinct(chordEdges)
      ensures forall e: nat :: e in chordEdges <==> e < |g.edges| && g.edges[e].kind != SplitEdge && !inTree[e]
    {
      for e := 0 to |g.edges|
        invariant Distinct(chordEdges)
        invariant forall f: nat :: f in chordEdges <==> f < e && g.edges[f].kind != SplitEdge && !inTree[f]
      {
        if !inTree[e] && g.edges[e].kind != SplitEdge {
          chordEdges := chordEdges + [e];
        }
      }
    }

    method MakeEdgeSpanning(e: nat)
      requires Sized() && e < |g.edges|
      modifies this`inTree, this`treeEdges
      ensures inTree == old(inTree)[e := true] && treeEdges == old(treeEdges) + [e]
    {
      inTree := inTree[e := true];
      treeEdges := treeEdges + [e];
    }

    /** Visits the subtree of `v`, which was reached over `e` with `weight`. */
    method CalculateChordIncrementsDfs(
      weight: int, v: nat, e: Option<nat>, ghost parent: seq<Option<nat>>, ghost depth: seq<nat>)
      requires Sized() && IsTree(g, treeEdges, parent, depth)
      requires Distinct(chordEdges) && forall c: nat :: c in chordEdges ==> c < |g.edges|
      requires v < g.nodes && e == parent[v] && (v == g.root || e.Some?)
      requires weight == Arrival(g, treeEdges, parent, depth, v)
      modifies this`increment
      ensures Sized()
      ensures Increased(g, treeEdges, parent, depth, chordEdges, old(increment), increment,
                        Subtree(g, treeEdges, parent, depth, v))
      decreases g.nodes - depth[v], 2
    {
      BehindNone(g, treeEdges, parent, depth, chordEdges, increment, v);
      for i := 0 to |treeEdges|
        invariant Sized()
        invariant Increased(g, treeEdges, parent, depth, chordEdges, old(increment), increment,
                            Behind(g, treeEdges, parent, depth, v, i))
      {
        ghost var before := increment;
        VisitTreeEdge(weight, v, e, i, parent, depth);
        VisitBehind(g, treeEdges, parent, depth, chordEdges, old(increment), before, increment, v, i);
      }
      ghost var before := increment;
      AddToChordsAt(weight, v, e, parent, depth);
      VisitLast(g, treeEdges, parent, depth, chordEdges, old(increment), before, increment, v);
    }

    /** Follows tree edge `i` away from `v`, if it is there and not the one the search came over. */
    method VisitTreeEdge(
      weight: int, v: nat, e: Option<nat>, i: nat, ghost parent: seq<Option<nat>>, ghost depth: seq<nat>)
      requires Sized() && IsTree(g, treeEdges, parent, depth)
      requires Distinct(chordEdges) && forall c: nat :: c in chordEdges ==> c < |g.edges|
      requires v < g.nodes && e == parent[v] && i < |treeEdges|
      requires weight == Arrival(g, treeEdges, parent, depth, v)
      modifies this`increment
      ensures Sized()
      ensures if LeadsDown(g, treeEdges, parent, v, i)
        then Increased(g, treeEdges, parent, depth, chordEdges, old(increment), increment,
                       Subtree(g, treeEdges, parent, depth, Other(g, treeEdges[i], v)))
        else increment == old(increment)
      decreases g.nodes - depth[v], 1
    {
      var f := treeEdges[i];
      assert f in treeEdges;
      if LeadsDown(g, treeEdges, parent, v, i) {
        ChildEdge(g, treeEdges, parent, depth, v, f);
        DirToChild(g, treeEdges, parent, depth, v, f);
      }
      if e != Some(f) && v == g.edges[f].target {
        CalculateChordIncrementsDfs(Dir(g, e, f) * weight + g.edges[f].weight, g.edges[f].source, Some(f), parent, depth);
      }
      if e != Some(f) && v == g.edges[f].source {
        CalculateChordIncrementsDfs(Dir(g, e, f) * weight + g.edges[f].weight, g.edges[f].target, Some(f), parent, depth);
      }
    }

    /** The visit of `v` itself. */
    method AddToChordsAt(
      weight: int, v: nat, e: Option<nat>, ghost parent: seq<Option<nat>>, ghost depth: seq<nat>)
      requires Sized() && IsTree(g, treeEdges, parent, depth)
      requires Distinct(chordEdges) && forall c: nat :: c in chordEdges ==> c < |g.edges|
      requires v < g.nodes && e == parent[v]
      requires weight == Arrival(g, treeEdges, parent, depth, v)
      modifies this`increment
      ensures Sized()
      ensures Increased(g, treeEdges, parent, depth, chordEdges, old(increment), increment, {v})
      decreases g.nodes - depth[v], 0
    {
      for i := 0 to |chordEdges|
        invariant Sized()
        invariant Increased(g, treeEdges, parent, depth, chordEdges[..i], old(increment), increment, {v})
      {
        var f := chordEdges[i];
        assert f in chordEdges;
        ghost var before := increment;
        if v == g.edges[f].source || v == g.edges[f].target {
          increment := increment[f := increment[f] + Dir(g, e, f) * weight];
        }
        VisitChord(g, treeEdges, parent, depth, chordEdges, i, old(increment), before, increment, v);
      }
      assert chordEdges[..|chordEdges|] == chordEdges;
    }

    method CalculateChordIncrements(ghost parent: seq<Option<nat>>, ghost depth: seq<nat>)
      requires Sized() && IsTree(g, treeEdges, parent, depth)
      requires forall e :: 0 <= e < |g.edges| ==> increment[e] == 0
      requires Distinct(chordEdges)
      requires forall e: nat :: e in chordEdges <==> e < |g.edges| && g.edges[e].kind != SplitEdge && e !in treeEdges
      modifies this`increment
      ensures Sized()
      ensures ChordsMoved(g, treeEdges, parent, depth, increment)
      ensures forall e :: 0 <= e < |g.edges| && g.edges[e].kind == SplitEdge ==> increment[e] == 0
    {
      CalculateChordIncrementsDfs(0, g.root, None, parent, depth);
      ghost var shares := increment;
      for i := 0 to |chordEdges|
        invariant Sized()
        invariant forall e :: 0 <= e < |g.edges| ==>
          increment[e] == shares[e] + if e in chordEdges[..i] then g.edges[e].weight else 0
      {
        var chord := chordEdges[i];
        assert chord in chordEdges;
        assert chord !in chordEdges[..i] && chordEdges[..i + 1] == chordEdges[..i] + [chord];
        increment := increment[chord := increment[chord] + g.edges[chord].weight];
      }
      assert chordEdges[..|chordEdges|] == chordEdges;
      WeightsAdded(g, treeEdges, parent, depth, chordEdges, old(increment), shares, increment);
    }

    // ----- pushing the initialisation down -----

    method PushInitializationFromEdge(e: nat, ghost t: Forest, ghost inc0: seq<int>)
      requires InitPlan(g, t)
      requires Columns(t, inc0, increment, isInit) && Loaded(t, inc0, increment, isInit, e)
      modifies this`increment, this`isInit
      ensures Columns(t, inc0, increment, isInit) && Done(t, inc0, increment, isInit, e)
      ensures SameElsewhere(t, old(increment), old(isInit), increment, isInit, e)
      decreases g.nodes - t.height[e]
    {
      var target := g.edges[e].target;
      if |g.preds[target]| > 1 || target == g.exit {
        StopIsDone(t, inc0, increment, isInit, e);
        return;
      }
      var succs := g.succs[target];
      LoopStart(t, inc0, increment, isInit, e, succs);
      for i := 0 to |succs|
        invariant LoopState(t, inc0, old(increment), old(isInit), increment, isInit, e, succs, i)
      {
        var next := succs[i];
        if g.edges[next].kind == SplitEdge {
          SkipNonChild(t, inc0, old(increment), old(isInit), increment, isInit, e, succs, i);
          continue;
        }
        ghost var inc, init := increment, isInit;
        LoadChild(t, inc0, inc, init, e, succs, i);
        increment := increment[next := increment[next] + increment[e]];
        isInit := isInit[next := true];
        PushInitializationFromEdge(next, t, inc0);
        AfterChild(t, inc0, old(increment), old(isInit), inc, init, increment, isInit, e, succs, i);
      }
      AfterLoop(t, inc0, old(increment), old(isInit), increment, isInit, e, succs);
      increment := increment[e := 0];
      isInit := isInit[e := false];
    }

    method PushInitialization(ghost rank: seq<nat>)
      requires WellFormed(g, rank) && Sized()
      requires forall f :: 0 <= f < |g.edges| ==> !isInit[f]
      modifies this`increment, this`isInit
      ensures InitPushed(g, rank, old(increment), increment, isInit)
    {
      ghost var t := InitForest(g, rank);
      InitFollowsPlan(g, rank);
      var exitRoot := ExitRoot(g);
      isInit := isInit[exitRoot := true];
      PushInitializationFromEdge(exitRoot, t, old(increment));
      InitComplete(g, rank, old(increment), increment, isInit);
    }

    // ----- pushing the counters up -----

    method PushCountersFromEdge(e: nat, ghost t: Forest, ghost inc0: seq<int>)
      requires CounterPlan(g, isInit, t)
      requires Columns(t, inc0, increment, isCounter) && Loaded(t, inc0, increment, isCounter, e)
      modifies this`increment, this`isCounter
      ensures Columns(t, inc0, increment, isCounter) && Done(t, inc0, increment, isCounter, e)
      ensures SameElsewhere(t, old(increment), old(isCounter), increment, isCounter, e)
      decreases g.nodes - t.height[e]
    {
      var source := g.edges[e].source;
      if |g.succs[source]| > 1 || source == g.root || isInit[e] {
        StopIsDone(t, inc0, increment, isCounter, e);
        return;
      }
      var preds := g.preds[source];
      LoopStart(t, inc0, increment, isCounter, e, preds);
      for i := 0 to |preds|
        invariant LoopState(t, inc0, old(increment), old(isCounter), increment, isCounter, e, preds, i)
      {
        var previous := preds[i];
        if g.edges[previous].kind == SplitEdge {
          SkipNonChild(t, inc0, old(increment), old(isCounter), increment, isCounter, e, preds, i);
          continue;
        }
        ghost var inc, counter := increment, isCounter;
        LoadChild(t, inc0, inc, counter, e, preds, i);
        increment := increment[previous := increment[previous] + increment[e]];
        isCounter := isCounter[previous := true];
        PushCountersFromEdge(previous, t, inc0);
        AfterChild(t, inc0, old(increment), old(isCounter), inc, counter, increment, isCounter, e, preds, i);
      }
      AfterLoop(t, inc0, old(increment), old(isCounter), increment, isCounter, e, preds);
      increment := increment[e := 0];
      isCounter := isCounter[e := false];
    }

    method PushCounters(ghost rank: seq<nat>)
      requires WellFormed(g, rank) && Sized()
      requires forall f :: 0 <= f < |g.edges| ==> isInit[f] == InitFlag(g, rank, f)
      requires forall f :: 0 <= f < |g.edges| ==> !isCounter[f]
      modifies this`increment, this`isCounter
      ensures CountersPushed(g, rank, old(increment), isInit, increment, isCounter)
    {
      ghost var t := CounterForest(g, rank, isInit);
      CounterFollowsPlan(g, rank, isInit);
      var exitRoot := ExitRoot(g);
      isCounter := isCounter[exitRoot := true];
      PushCountersFromEdge(exitRoot, t, old(increment));
      CounterComplete(g, rank, old(increment), isInit, increment, isCounter);
    }

    // ----- unlinking phony edges -----

    method UnlinkPhony()
      requires EndsInRange(g) && ListsAgree(g)
      modifies this`g
      ensures g == Unlinked(old(g))
    {
      ghost var stages := UnlinkStages(g);
      var edges := g.edges;
      for e := 0 to |edges|
        invariant g == stages[e]
      {
        if IsPhony(g, e) {
          UnlinkEdge(e);
        }
      }
    }

    method UnlinkEdge(e: nat)
      requires EndsInRange(g) && e < |g.edges|
      modifies this`g
      ensures g == Detached(old(g), e)
    {
      var source, target := g.edges[e].source, g.edges[e].target;
      g := g.(succs := g.succs[source := Without(g.succs[source], e)]);
      g := g.(preds := g.preds[target := Without(g.preds[target], e)]);
    }

    // ----- emitting the code -----

    function Snapshot(): Emitter
      reads this
    {
      Emitter(g, Labels(increment, isInit, isCounter), hasInstrumentation, code, place)
    }

    /** Updates the graph when a block has been put on edge `e`. */
    method SplitUpdate(e: nat)
      requires EndsInRange(g) && e < |g.edges| == |hasInstrumentation| == |code| == |place| && Sized()
      modifies this`g, this`increment, this`isInit, this`isCounter, this`inTree
      modifies this`hasInstrumentation, this`code, this`place
      ensures g == SplitAt(old(g), e) && Sized()
      ensures increment == old(increment) + [0] && isInit == old(isInit) + [false]
      ensures isCounter == old(isCounter) + [false] && inTree == old(inTree) + [false]
      ensures hasInstrumentation == old(hasInstrumentation) + [false] && code == old(code) + [IDLE]
      ensures place == old(place) + [Nowhere]
    {
      SplitGraph(e);
      increment, isInit, isCounter, inTree := increment + [0], isInit + [false], isCounter + [false], inTree + [false];
      hasInstrumentation, code, place := hasInstrumentation + [false], code + [IDLE], place + [Nowhere];
    }

    /** The part of `splitUpdate` that concerns nodes and edges. */
    method SplitGraph(e: nat)
      requires EndsInRange(g) && e < |g.edges|
      modifies this`g
      ensures g == SplitAt(old(g), e)
    {
      SplitSteps(g, e);
      var oldTarget := g.edges[e].target;
      g := AddNode(g);
      g := SetTarget(g, e, g.nodes - 1);
      g := g.(preds := g.preds[oldTarget := Without(g.preds[oldTarget], e)]);
      g := AddEdge(g, g.nodes - 1, oldTarget);
      if IsCut(g, e) {
        g := g.(edges := MoveCut(g.edges, e, |g.edges| - 1));
      }
    }

    method SplitCritical(e: nat)
      requires EndsInRange(g) && e < |g.edges| == |hasInstrumentation| == |code| == |place| && Sized()
      modifies this`g, this`increment, this`isInit, this`isCounter, this`inTree
      modifies this`hasInstrumentation, this`code, this`place
      ensures Sized() && Snapshot() == SplitIfCritical(old(Snapshot()), e)
    {
      var source, target := g.edges[e].source, g.edges[e].target;
      if source == g.exit || target == g.exit || |g.succs[source]| <= 1 || |g.preds[target]| == 1 {
        return;
      }
      SplitUpdate(e);
    }

    /** The part of `insertInstrumentationStartingAt` that concerns edge `e` itself. */
    method InstrumentEdge(e: nat, ghost g0: Graph, ghost l0: Labels)
      requires Invariant(g0, l0, Snapshot(), splits) && Sized()
      requires IsLinked(g, e) && !hasInstrumentation[e]
      modifies this`g, this`increment, this`isInit, this`isCounter, this`inTree
      modifies this`hasInstrumentation, this`code, this`place, this`splits
      ensures Sized() && Snapshot() == Instrument(old(Snapshot()), e)
      ensures Invariant(g0, l0, Snapshot(), splits)
    {
      InstrumentKeeps(g0, l0, Snapshot(), splits, e);
      splits := if Critical(g, e) then splits + [e] else splits;
      MarkSplitAndEmit(e);
    }

    method MarkSplitAndEmit(e: nat)
      requires Emitted(Snapshot()) && e < |g.edges| && Sized()
      requires CanEmit(Instrument(Snapshot(), e), e)
      modifies this`g, this`increment, this`isInit, this`isCounter, this`inTree
      modifies this`hasInstrumentation, this`code, this`place
      ensures Sized() && Snapshot() == Instrument(old(Snapshot()), e)
    {
      ghost var before := Snapshot();
      MarkedAndSplit(before, e);
      hasInstrumentation := hasInstrumentation[e := true];
      SplitCritical(e);
      EmitCode(e, Instrument(before, e));
    }

    /** Finds a block for the code of edge `e` and puts it there; there always is one. */
    method EmitCode(e: nat, ghost after: Emitter)
      requires CanEmit(after, e)
      requires g == after.g && Labels(increment, isInit, isCounter) == after.l
      requires |code| == |place| == |g.edges|
      requires after.code == code[e := ActionOf(after.g, after.l, e)] && after.place == place[e := PlaceOf(after.g, e)]
      modifies this`code, this`place
      ensures code == after.code && place == after.place
    {
      var source, target := g.edges[e].source, g.edges[e].target;
      if source != g.exit && |g.succs[source]| <= 1 {
        place := place[e := AtEnd(source)];
      } else if |g.preds[target]| == 1 {
        place := place[e := AtBeginning(target)];
      } else {
        assert false;
      }
      if IsCut(g, e) {
        var top, bottom := g.edges[e].phonyRoot.value, g.edges[e].phonyExit.value;
        assert isInit[top];
        assert isCounter[bottom];
        code := code[e := CutAction(increment[bottom], increment[top], isCounter[top])];
      } else {
        code := code[e := EdgeAction(isInit[e], increment[e], isCounter[e])];
      }
    }

    method InsertInstrumentationStartingAt(e: nat, ghost g0: Graph, ghost l0: Labels, ghost stack: set<nat>)
      requires Invariant(g0, l0, Snapshot(), splits) && Sized()
      requires IsLinked(g, e) && !hasInstrumentation[e]
      requires Closed(Snapshot(), stack)
      modifies this`g, this`increment, this`isInit, this`isCounter, this`inTree
      modifies this`hasInstrumentation, this`code, this`place, this`splits
      ensures Invariant(g0, l0, Snapshot(), splits) && Sized()
      ensures Grown(old(Snapshot()), Snapshot()) && hasInstrumentation[e]
      ensures Closed(Snapshot(), stack)
      ensures Todo(hasInstrumentation, |g0.edges|) < Todo(old(hasInstrumentation), |g0.edges|)
      decreases Todo(hasInstrumentation, |g0.edges|), 0
    {
      ghost var before := Snapshot();
      InstrumentGrows(before, e);
      TodoDecreases(g0, l0, before, splits, e);
      InstrumentEdge(e, g0, l0);
      InstrumentClosed(before, e, stack);
      ghost var here := Snapshot();
      VisitSuccessors(g.edges[e].target, g0, l0, stack + {e});
      GrownTransitive(before, here, Snapshot());
      CloseStack(here, Snapshot(), e, stack);
    }

    /** The loop at the end of `insertInstrumentationStartingAt`. */
    method VisitSuccessors(target: nat, ghost g0: Graph, ghost l0: Labels, ghost stack: set<nat>)
      requires Invariant(g0, l0, Snapshot(), splits) && Sized() && target < g.nodes
      requires Closed(Snapshot(), stack)
      modifies this`g, this`increment, this`isInit, this`isCounter, this`inTree
      modifies this`hasInstrumentation, this`code, this`place, this`splits
      ensures Invariant(g0, l0, Snapshot(), splits) && Sized()
      ensures Grown(old(Snapshot()), Snapshot()) && Closed(Snapshot(), stack)
      ensures AllVisited(Snapshot(), old(g).succs[target], |old(g).succs[target]|)
      ensures Todo(hasInstrumentation, |g0.edges|) <= Todo(old(hasInstrumentation), |g0.edges|)
      decreases Todo(hasInstrumentation, |g0.edges|), 1
    {
      ghost var here := Snapshot();
      var succs := g.succs[target];
      for i := 0 to |succs|
        invariant Invariant(g0, l0, Snapshot(), splits) && Sized()
        invariant Grown(here, Snapshot()) && Closed(Snapshot(), stack)
        invariant Todo(hasInstrumentation, |g0.edges|) <= Todo(here.has, |g0.edges|)
        invariant AllVisited(Snapshot(), succs, i)
      {
        ghost var middle := Snapshot();
        SuccessorIsLinked(here, middle, target, i);
        if !hasInstrumentation[succs[i]] {
          InsertInstrumentationStartingAt(succs[i], g0, l0, stack);
        }
        VisitedFurther(here, middle, Snapshot(), succs, i);
      }
    }

    // ----- the pass -----

    /** A graph as the base class has built it, not yet labelled. */
    constructor (graph: Graph)
      ensures g == graph && IsFresh()
    {
      g := graph;
      var n := |graph.edges|;
      increment := seq(n, _ => 0);
      isInit, isCounter := seq(n, _ => false), seq(n, _ => false);
      inTree, hasInstrumentation := seq(n, _ => false), seq(n, _ => false);
      treeEdges, chordEdges := [], [];
      code, place := seq(n, _ => IDLE), seq(n, _ => Nowhere);
      splits := [];
    }

    ghost predicate IsFresh()
      reads this
    {
      && Sized() && |hasInstrumentation| == |code| == |place| == |g.edges|
      && treeEdges == [] && chordEdges == [] && splits == []
      && (forall e :: 0 <= e < |g.edges| ==>
            && increment[e] == 0 && !isInit[e] && !isCounter[e] && !inTree[e] && !hasInstrumentation[e]
            && place[e] == Nowhere)
    }

    /** As written, the tree and chord steps together make each weight an increment. */
    method ChordSteps()
      requires IsFresh() && EndsInRange(g) && CutEdgesHavePhonies(g)
      modifies this`increment, this`chordEdges
      ensures Sized() && increment == Weights(g)
    {
      CalculateSpanningTree();
      EmptyTree(g);
      CalculateChordIncrements(NoParents(g), NoDepth(g));
      EmptyTreeKeepsWeights(g, increment);
    }

    /** Edge `e` has no label. */
    ghost predicate ClearedAt(e: nat)
      reads this
    {
      Sized() && e < |g.edges| && increment[e] == 0 && !isInit[e] && !isCounter[e]
    }

    /** The two pushes place the increments that they find. */
    method PushLabels(ghost rank: seq<nat>) returns (ghost pl: Placement)
      requires Sized() && WellFormed(g, rank)
      requires forall e :: 0 <= e < |g.edges| ==> !isInit[e] && !isCounter[e]
      modifies this`increment, this`isInit, this`isCounter
      ensures Sized() && Placed(g, old(increment), Labels(increment, isInit, isCounter), pl)
      ensures forall e :: 0 <= e < |g.edges| ==> isInit[e] == InitFlag(g, rank, e)
      ensures forall e :: 0 <= e < |g.edges| ==> isCounter[e] == CounterFlag(g, rank, isInit, e)
      ensures forall e :: 0 <= e < |g.edges| && g.edges[e].kind == Backedge ==> !pl.passed[g.edges[e].source]
      ensures ClearedAt(ExitRoot(g))
    {
      ghost var inc0 := increment;
      PushInitialization(rank);
      ghost var inc1 := increment;
      PushCounters(rank);
      PushesPlace(g, rank, inc0, inc1, Labels(increment, isInit, isCounter));
      pl := PlacementOf(g, rank, inc0, inc1, isInit);
      ExitRootIsCleared(g, rank, inc0, inc1, isInit, increment, isCounter);
      forall e | 0 <= e < |g.edges| && g.edges[e].kind == Backedge
        ensures !pl.passed[g.edges[e].source]
      {
        NoBackedgeOut(g, rank, e);
      }
    }

    /** The steps that place the labels. */
    method PlaceLabels(ghost rank: seq<nat>) returns (ghost pl: Placement)
      requires IsFresh() && WellFormed(g, rank)
      modifies this`increment, this`isInit, this`isCounter, this`chordEdges
      ensures Sized() && Placed(g, Weights(g), Labels(increment, isInit, isCounter), pl)
      ensures forall e :: 0 <= e < |g.edges| ==> isInit[e] == InitFlag(g, rank, e)
      ensures forall e :: 0 <= e < |g.edges| ==> isCounter[e] == CounterFlag(g, rank, isInit, e)
      ensures ClearedAt(ExitRoot(g))
    {
      ChordSteps();
      pl := PushLabels(rank);
    }

    /** Splits and emits everywhere, starting from exit->root. */
    method InsertInstrumentation(ghost l: Labels)
      requires ReadyToEmit(g, l) && l == Labels(increment, isInit, isCounter) && Sized()
      requires |hasInstrumentation| == |code| == |place| == |g.edges| && splits == []
      requires forall e :: 0 <= e < |hasInstrumentation| ==> !hasInstrumentation[e] && place[e] == Nowhere
      modifies this
      ensures Invariant(old(g), l, Snapshot(), splits) && Closed(Snapshot(), {})
      ensures hasInstrumentation[ExitRoot(old(g))] && g.edges[ExitRoot(old(g))].target == old(g).root
    {
      ghost var g0 := g;
      var exitRoot := ExitRoot(g);
      WalkStarts(g, l, Snapshot());
      InsertInstrumentationStartingAt(exitRoot, g0, l, {});
      ExitRootStays(g0, l, Snapshot(), splits);
    }

    /** The steps that turn the labels into code. */
    method UnlinkAndInsert(ghost rank: seq<nat>, ghost l: Labels)
      requires WellFormed(g, rank) && ReturnsEnd(g) && l == Labels(increment, isInit, isCounter) && Sized()
      requires forall e :: 0 <= e < |g.edges| ==> l.isInit[e] == InitFlag(g, rank, e)
      requires forall e :: 0 <= e < |g.edges| ==> l.isCounter[e] == CounterFlag(g, rank, l.isInit, e)
      requires |hasInstrumentation| == |code| == |place| == |g.edges| && splits == []
      requires forall e :: 0 <= e < |hasInstrumentation| ==> !hasInstrumentation[e] && place[e] == Nowhere
      requires ClearedAt(ExitRoot(g))
      modifies this
      ensures BlocksDoRuns(Snapshot())
      ensures Invariant(Unlinked(old(g)), l, Snapshot(), splits) && Closed(Snapshot(), {})
      ensures hasInstrumentation[ExitRoot(old(g))] && g.edges[ExitRoot(old(g))].target == old(g).root
    {
      UnlinkedReady(g, rank, l);
      UnlinkedExitRoot(g);
      RootPassed(g, rank);
      ghost var u := Unlinked(g);
      UnlinkPhony();
      InsertInstrumentation(l);
      WalkEnters(u, l, Snapshot(), splits);
      BlocksDoAllRuns(Snapshot());
    }

    /** Instruments the function: every complete run then logs the numbers of its segments. */
    method RunOnFunction(ghost rank: seq<nat>)
      requires IsFresh() && WellFormed(g, rank) && ReturnsEnd(g)
      modifies this
      ensures LogsAllRuns(old(g), g, code, splits) && LogsPartialRuns(old(g), g, code, splits)
      ensures BlocksDoRuns(Snapshot())
      ensures SplitShape(old(g), g, splits) && (OnlyCutsHavePhonies(old(g)) ==> OnlyCutsHavePhonies(g))
      ensures Emitted(Snapshot())
    {
      ghost var g0 := g;
      ghost var pl := PlaceLabels(rank);
      ghost var l := Labels(increment, isInit, isCounter);
      UnlinkAndInsert(rank, l);
      AllRunsLogged(g0, l, pl, Snapshot(), splits);
      AllPartialRunsLogged(g0, l, pl, Snapshot(), splits);
      ShapeOfOriginal(g0, g, splits);
      if OnlyCutsHavePhonies(g0) {
        SplitsMoveLinks(g0, g, splits);
      }
    }

    /** The same steps after the tree has been found, with any tree in place of the empty one. */
    method InstrumentWithTree(ghost rank: seq<nat>, ghost parent: seq<Option<nat>>, ghost depth: seq<nat>)
      returns (ghost inc0: seq<int>, ghost l: Labels, ghost pl: Placement)
      requires WellFormed(g, rank) && ReturnsEnd(g)
      requires Sized() && |hasInstrumentation| == |code| == |place| == |g.edges| && splits == []
      requires forall e :: 0 <= e < |g.edges| ==>
        increment[e] == 0 && !isInit[e] && !isCounter[e] && !hasInstrumentation[e] && place[e] == Nowhere
      requires IsTree(g, treeEdges, parent, depth) && Distinct(chordEdges)
      requires forall e: nat :: e in chordEdges <==> e < |g.edges| && g.edges[e].kind != SplitEdge && e !in treeEdges
      modifies this
      ensures BlocksDoRuns(Snapshot())
      ensures Instrumented(old(g), rank, old(treeEdges), parent, depth, inc0, l, pl, Snapshot(), splits)
    {
      ghost var g0 := g;
      CalculateChordIncrements(parent, depth);
      inc0 := increment;
      pl := PushLabels(rank);
      l := Labels(increment, isInit, isCounter);
      UnlinkAndInsert(rank, l);
      ExitRootKept(g0, l, Snapshot(), splits);
    }
  }

  /** A graph as the base class hands it over, and a tree for it. */
  ghost predicate CanInstrument(
    g: Graph, rank: seq<nat>, tree: seq<nat>, parent: seq<Option<nat>>, depth: seq<nat>)
  {
    WellFormed(g, rank) && ReturnsEnd(g) && IsTree(g, tree, parent, depth)
  }

  /** Makes the edges of `tree` the spanning tree of a new graph, and all others chords. */
  method DagWithTree(graph: Graph, tree: seq<nat>) returns (d: Dag)
    requires forall i :: 0 <= i < |tree| ==> tree[i] < |graph.edges|
    ensures fresh(d) && d.g == graph && d.treeEdges == tree && d.Sized()
    ensures |d.hasInstrumentation| == |d.code| == |d.place| == |graph.edges| && d.splits == []
    ensures forall e :: 0 <= e < |graph.edges| ==>
      d.increment[e] == 0 && !d.isInit[e] && !d.isCounter[e] && !d.hasInstrumentation[e] && d.place[e] == Nowhere
    ensures Distinct(d.chordEdges)
    ensures forall e: nat :: e in d.chordEdges <==> e < |graph.edges| && graph.edges[e].kind != SplitEdge && e !in tree
  {
    d := new Dag(graph);
    for i := 0 to |tree|
      invariant d.Sized() && d.treeEdges == tree[..i] && d.g == graph && d.chordEdges == [] && d.splits == []
      invariant |d.hasInstrumentation| == |d.code| == |d.place| == |graph.edges|
      invariant forall e :: 0 <= e < |graph.edges| ==>
        d.increment[e] == 0 && !d.isInit[e] && !d.isCounter[e] && !d.hasInstrumentation[e] && d.place[e] == Nowhere
      invariant forall e :: 0 <= e < |graph.edges| ==> (d.inTree[e] <==> e in tree[..i])
    {
      d.MakeEdgeSpanning(tree[i]);
    }
    assert tree[..|tree|] == tree;
    d.CollectChords();
  }

  /**
   The pass on any graph, with any tree.  Whether it logs a run, and whether it logs all
   runs, can be told from the graph and the tree.
   */
  method InstrumentGraph(
    graph: Graph, tree: seq<nat>, ghost rank: seq<nat>, ghost parent: seq<Option<nat>>, ghost depth: seq<nat>)
    returns (d: Dag)
    requires CanInstrument(graph, rank, tree, parent, depth)
    ensures fresh(d) && HasExitRoot(d.g) && BlocksDoRuns(d.Snapshot())
    ensures forall run | Run(graph, run, graph.root, graph.exit) ::
      LogsRun(graph, d.g, d.code, d.splits, run) <==> EvenRun(graph, tree, parent, depth, run)
    ensures forall run, b | 0 <= b < graph.nodes && Run(graph, run, graph.root, b) ::
      LogsSoFar(graph, d.g, d.code, d.splits, run, b) <==> EvenRun(graph, tree, parent, depth, run)
    ensures LogsAllRuns(graph, d.g, d.code, d.splits) <==> EvenTree(graph, tree, parent, depth)
  {
    d := DagWithTree(graph, tree);
    ghost var inc0, l, pl := d.InstrumentWithTree(rank, parent, depth);
    forall run | Run(graph, run, graph.root, graph.exit)
      ensures LogsRun(graph, d.g, d.code, d.splits, run) <==> EvenRun(graph, tree, parent, depth, run)
    {
      TreeLogsRun(graph, rank, tree, parent, depth, inc0, l, pl, d.Snapshot(), d.splits, run);
    }
    forall run, b | 0 <= b < graph.nodes && Run(graph, run, graph.root, b)
      ensures LogsSoFar(graph, d.g, d.code, d.splits, run, b) <==> EvenRun(graph, tree, parent, depth, run)
    {
      TreeLogsSoFar(graph, rank, tree, parent, depth, inc0, l, pl, d.Snapshot(), d.splits, run, b);
    }
    EvenTreeLogsAllRuns(graph, rank, tree, parent, depth, inc0, l, pl, d.Snapshot(), d.splits);
  }
}
