/**
 A loop that the pass would log wrongly with the tree that its own search would find, if
 only the test of the root's colour let the search begin: the search looks at the root's
 edges and goes no further, so the tree is the star of the root's neighbours.  The star
 gives the backedge an increment, and the backedge is split.
 */
module UnevenLoop {
  import opened Basics
  import opened Graphs
  import opened ChordSpec
  import opened PathNumbering
  import opened EdgeSplitting
  import opened Emission
  import opened EndToEnd
  import opened AnyTree
  import opened InstrumentationDag

  /** 0 is the root, 1 the block before the loop, 2 the loop, 3 returns and 4 is the exit; edge 3 is the backedge. */
  const EDGES: seq<Edge> := [
    Edge(4, 0, Normal, 0, None, None),
    Edge(0, 1, Normal, 0, None, None),
    Edge(1, 2, Normal, 0, None, None),
    Edge(2, 2, Backedge, 0, Some(4), Some(5)),
    Edge(0, 2, BackedgePhony, 2, None, None),
    Edge(2, 4, BackedgePhony, 0, None, None),
    Edge(2, 3, Normal, 1, None, None),
    Edge(3, 4, Normal, 0, None, None)]

  const LOOP: Graph := Graph(
    5, 0, 4, EDGES,
    [[1, 4], [2], [3, 5, 6], [7], [0]],
    [[0], [1], [2, 3, 4], [6], [5, 7]])

  const RANK: seq<nat> := [0, 1, 2, 3, 4]

  /** How many paths lead from each node to the exit. */
  const PATHS: seq<nat> := [4, 2, 2, 1, 1]

  /** The root's edges: out to 1, out to 2, and in from the exit. */
  const STAR: seq<nat> := [1, 4, 0]
  const PARENT: seq<Option<nat>> := [None, Some(1), Some(4), None, Some(0)]
  const DEPTH: seq<nat> := [0, 1, 1, 0, 1]

  // ----- the loop is a proper graph -----

  lemma ListsOf(n: nat)
    requires n < 5
    ensures Distinct(LOOP.succs[n]) && Distinct(LOOP.preds[n])
    ensures forall i :: 0 <= i < |LOOP.succs[n]| ==> LOOP.succs[n][i] < 8 && EDGES[LOOP.succs[n][i]].source == n
    ensures forall i :: 0 <= i < |LOOP.preds[n]| ==> LOOP.preds[n][i] < 8 && EDGES[LOOP.preds[n][i]].target == n
  {
    if n == 0 {
    } else if n == 1 {
    } else if n == 2 {
    } else if n == 3 {
    }
  }

  lemma EdgeListed(e: nat)
    requires e < 8
    ensures EDGES[e].source < 5 && EDGES[e].target < 5
    ensures e in LOOP.succs[EDGES[e].source] && e in LOOP.preds[EDGES[e].target]
    ensures EDGES[e].kind != Backedge && e != 0 ==> EDGES[e].source < EDGES[e].target
    ensures IsCut(LOOP, e) <==> e == 3
    ensures (EDGES[e].source == 3 || (EDGES[e].target == 4 && !IsPhony(LOOP, e))) <==> e == 7
  {
    if e == 0 {
    } else if e == 1 {
    } else if e == 2 {
    } else if e == 3 {
    } else if e == 4 {
    } else if e == 5 {
    } else if e == 6 {
    }
  }

  lemma LoopEnds()
    ensures EndsInRange(LOOP)
  {
    forall e | 0 <= e < 8
      ensures EDGES[e].source < 5 && EDGES[e].target < 5
    {
      EdgeListed(e);
    }
  }

  lemma LoopLists()
    ensures EndsInRange(LOOP) && ListsAgree(LOOP)
  {
    forall e | 0 <= e < 8
      ensures EDGES[e].source < 5 && EDGES[e].target < 5
      ensures e in LOOP.succs[EDGES[e].source] && e in LOOP.preds[EDGES[e].target]
    {
      EdgeListed(e);
    }
    forall n | 0 <= n < 5
      ensures Distinct(LOOP.succs[n]) && Distinct(LOOP.preds[n])
      ensures forall i :: 0 <= i < |LOOP.succs[n]| ==> LOOP.succs[n][i] < 8 && EDGES[LOOP.succs[n][i]].source == n
      ensures forall i :: 0 <= i < |LOOP.preds[n]| ==> LOOP.preds[n][i] < 8 && EDGES[LOOP.preds[n][i]].target == n
    {
      ListsOf(n);
    }
  }

  lemma LoopIsRanked()
    requires EndsInRange(LOOP)
    ensures Ranked(LOOP, RANK)
  {
    forall e | 0 <= e < 8 && EDGES[e].kind != Backedge && e != 0
      ensures RANK[EDGES[e].source] < RANK[EDGES[e].target]
    {
      EdgeListed(e);
    }
  }

  lemma LoopHasPhonies()
    ensures CutEdgesHavePhonies(LOOP)
  {
    forall e | 0 <= e < 8 && IsCut(LOOP, e)
      ensures e == 3
    {
      EdgeListed(e);
    }
  }

  lemma LoopReturns()
    ensures BackedgesReturn(LOOP)
  {
    forall e | 0 <= e < 8 && EDGES[e].kind == Backedge
      ensures e == 3
    {
      EdgeListed(e);
    }
    assert ForwardPath(LOOP, [], 2, 2);
  }

  lemma ReturnIsLast()
    ensures ReturnsEnd(LOOP)
  {
    forall e, f | 0 <= e < 8 && 0 <= f < 8 && IsLinked(LOOP, e) && IsLinked(LOOP, f)
                  && EDGES[e].target == 4 && EDGES[e].source == EDGES[f].source
      ensures e == f
    {
      EdgeListed(e);
      EdgeListed(f);
    }
  }

  lemma LoopIsWellFormed()
    ensures WellFormed(LOOP, RANK) && ExitRoot(LOOP) == 0
  {
    LoopLists();
    LoopIsRanked();
    LoopHasPhonies();
    LoopReturns();
  }

  lemma CountsOf(n: nat)
    requires EndsInRange(LOOP) && n < 4
    ensures CountAgrees(LOOP, PATHS, n)
  {
    if n == 0 {
    } else if n == 1 {
      assert PathsBefore(LOOP, PATHS, 1, 0) == 0;
    } else if n == 2 {
      assert PathsBefore(LOOP, PATHS, 2, 1) == 0;
    } else {
      assert PathsBefore(LOOP, PATHS, 3, 0) == 0;
    }
  }

  lemma WeightsOf(n: nat, i: nat)
    requires EndsInRange(LOOP) && n < 4 && i < |LOOP.succs[n]| && LOOP.succs[n][i] != 3
    ensures WeightAgrees(LOOP, PATHS, n, i)
  {
    if n == 0 {
    } else if n == 1 {
    } else if n == 2 {
      assert PathsBefore(LOOP, PATHS, 2, 1) == 0;
    }
  }

  lemma LoopIsCounted()
    requires EndsInRange(LOOP)
    ensures PathsCounted(LOOP, PATHS)
  {
    forall n | 0 <= n < 5 && n != 4
      ensures CountAgrees(LOOP, PATHS, n)
    {
      CountsOf(n);
    }
    forall n, i | 0 <= n < 5 && 0 <= i < |LOOP.succs[n]| && IsDag(LOOP, LOOP.succs[n][i])
      ensures WeightAgrees(LOOP, PATHS, n, i)
    {
      if n < 4 {
        WeightsOf(n, i);
      }
    }
  }

  // ----- the star is a tree of it, and gives the backedge an increment -----

  lemma ParentOf(n: nat)
    requires EndsInRange(LOOP) && n < 5
    ensures ParentFits(LOOP, STAR, PARENT, DEPTH, n) && (PARENT[n].Some? ==> PARENT[n].value < 8) && DEPTH[n] < 5
  {
    if n == 0 {
    } else if n == 1 {
    } else if n == 2 {
    } else if n == 3 {
    }
  }

  lemma LoopHasTree()
    requires EndsInRange(LOOP)
    ensures IsTree(LOOP, STAR, PARENT, DEPTH)
  {
    var parent, depth := PARENT, DEPTH;
    forall n | 0 <= n < 5
      ensures ParentFits(LOOP, STAR, parent, depth, n)
    {
      ParentOf(n);
    }
    forall n | 0 <= n < 5
      ensures depth[n] < 5 && (parent[n].Some? ==> parent[n].value < 8)
    {
      ParentOf(n);
    }
  }

  lemma BackedgeGetsTwo()
    requires IsTree(LOOP, STAR, PARENT, DEPTH)
    ensures ChordIncrement(LOOP, STAR, PARENT, DEPTH, 3) == 2
  {
    assert Potential(LOOP, STAR, PARENT, DEPTH, 0) == 0;
    assert Potential(LOOP, STAR, PARENT, DEPTH, 2) == 2;
  }

  /** Into the loop, around it once, and out. */
  const RUN: seq<nat> := [1, 2, 3, 6, 7]

  lemma RunIsRun()
    ensures HasExitRoot(LOOP) && Run(LOOP, RUN, 0, 4)
  {
    var r1, r2, r3, r4, r5: seq<nat> := RUN[1..], RUN[2..], RUN[3..], RUN[4..], [];
    assert r1[1..] == r2 && r2[1..] == r3 && r3[1..] == r4 && r4[1..] == r5;
    assert Walk(LOOP, r4, 3, 4);
    assert Walk(LOOP, r3, 2, 4);
    assert Walk(LOOP, r2, 2, 4);
    assert Walk(LOOP, r1, 1, 4);
  }

  lemma BackedgeIsCritical()
    requires EndsInRange(Unlinked(LOOP))
    ensures Critical(Unlinked(LOOP), 3)
  {
    assert [3, 5, 6][1..] == [5, 6] && [5, 6][1..] == [6];
    assert Keep(LOOP, 8, [3, 5, 6]) == [3, 6];
    assert [2, 3, 4][1..] == [3, 4] && [3, 4][1..] == [4];
    assert Keep(LOOP, 8, [2, 3, 4]) == [2, 3];
  }

  /** The loop is a graph that the pass can be given, with the weights it would have, and the star is a tree of it. */
  lemma LoopIsProper()
    ensures CanInstrument(LOOP, RANK, STAR, PARENT, DEPTH) && PathsCounted(LOOP, PATHS)
  {
    LoopIsWellFormed();
    ReturnIsLast();
    LoopIsCounted();
    LoopHasTree();
  }

  lemma LoopIsUneven()
    ensures HasExitRoot(LOOP) && Run(LOOP, RUN, LOOP.root, LOOP.exit)
    ensures !EvenRun(LOOP, STAR, PARENT, DEPTH, RUN) && !EvenTree(LOOP, STAR, PARENT, DEPTH)
  {
    LoopEnds();
    LoopHasTree();
    BackedgeGetsTwo();
    RunIsRun();
    BackedgeIsCritical();
    assert RUN[2] == 3 && 3 in RUN && UnevenEdge(LOOP, STAR, PARENT, DEPTH, 3);
  }

  /** The pass with the star as its tree logs the loop wrongly. */
  method InstrumentLoop() returns (d: Dag)
    ensures CutEdgesHavePhonies(LOOP) && Run(LOOP, RUN, LOOP.root, LOOP.exit) && HasExitRoot(d.g)
    ensures !LogsRun(LOOP, d.g, d.code, d.splits, RUN) && !LogsAllRuns(LOOP, d.g, d.code, d.splits)
  {
    LoopIsProper();
    LoopIsUneven();
    d := InstrumentGraph(LOOP, STAR, RANK, PARENT, DEPTH);
  }
}
