/**
 The two forests of edges over which the push recursions run, and what it means for
 the graph that they have been settled.
 */
module PushTrees {
  import opened Basics
  import opened Graphs
  import opened PushSpec
  import opened PushForest

  // ----- initialisation: children are the successor edges -----

  function InitForest(g: Graph, rank: seq<nat>): (t: Forest)
    requires WellFormed(g, rank)
    ensures |t.up| == |t.member| == |t.inner| == |t.height| == |g.edges|
  {
    Forest(
      seq(|g.edges|, (f: nat) requires f < |g.edges| =>
        if IsDag(g, f) && Passed(g, rank, g.edges[f].source) then Some(g.preds[g.edges[f].source][0]) else None),
      seq(|g.edges|, (f: nat) requires f < |g.edges| => Covered(g, rank, f)),
      seq(|g.edges|, (f: nat) requires f < |g.edges| => Covered(g, rank, f) && Passed(g, rank, g.edges[f].target)),
      seq(|g.edges|, (f: nat) requires f < |g.edges| =>
        if f == ExitRoot(g) then 0 else rank[g.edges[f].source] + 1))
  }

  lemma InitIsForest(g: Graph, rank: seq<nat>)
    requires WellFormed(g, rank)
    ensures IsForest(InitForest(g, rank))
    ensures forall f :: 0 <= f < |g.edges| ==> InitForest(g, rank).height[f] <= g.nodes
  {
  }

  /** Every successor edge of a passed node, other than a split edge, is an edge of the DAG. */
  lemma PassedSuccessor(g: Graph, rank: seq<nat>, n: nat, j: nat)
    requires WellFormed(g, rank) && n < g.nodes && Passed(g, rank, n) && j < |g.succs[n]|
    ensures g.succs[n][j] < |g.edges| && g.edges[g.succs[n][j]].source == n
    ensures g.edges[g.succs[n][j]].kind != SplitEdge <==> IsDag(g, g.succs[n][j])
  {
    var s := g.succs[n][j];
    assert IsEdge(g, s);
    if g.edges[s].kind == Backedge {
      NoBackedgeOut(g, rank, s);
    }
    RootPassed(g, rank);
  }

  /** The test in the recursion decides whether the target of `e` is passed. */
  lemma InitPasses(g: Graph, rank: seq<nat>, e: nat)
    requires WellFormed(g, rank) && Covered(g, rank, e)
    ensures InitForest(g, rank).inner[e] <==>
      !(|g.preds[g.edges[e].target]| > 1 || g.edges[e].target == g.exit)
  {
    assert IsEdge(g, e);
    if |g.preds[g.edges[e].target]| == 1 {
      SolePred(g, rank, e);
    }
  }

  lemma InitChildren(g: Graph, rank: seq<nat>, e: nat)
    requires WellFormed(g, rank) && Covered(g, rank, e) && Passed(g, rank, g.edges[e].target)
    requires IsForest(InitForest(g, rank))
    ensures ListsChildren(InitForest(g, rank), e, g.succs[g.edges[e].target])
    ensures forall j :: 0 <= j < |g.succs[g.edges[e].target]| ==>
      (g.edges[g.succs[g.edges[e].target][j]].kind != SplitEdge
       <==> InitForest(g, rank).up[g.succs[g.edges[e].target][j]] == Some(e))
  {
    var t, n := InitForest(g, rank), g.edges[e].target;
    SolePred(g, rank, e);
    forall j | 0 <= j < |g.succs[n]|
      ensures g.succs[n][j] < |g.edges|
      ensures g.edges[g.succs[n][j]].kind != SplitEdge <==> t.up[g.succs[n][j]] == Some(e)
    {
      PassedSuccessor(g, rank, n, j);
    }
    forall f | 0 <= f < |g.edges| && t.up[f] == Some(e)
      ensures f in g.succs[n]
    {
      assert IsEdge(g, g.preds[g.edges[f].source][0]) && IsEdge(g, f);
    }
  }

  /** The tests of the recursion and its loop follow the forest `t`. */
  ghost predicate InitPlan(g: Graph, t: Forest) {
    && EndsInRange(g) && IsForest(t) && |t.up| == |g.edges|
    && (forall e :: 0 <= e < |g.edges| ==> t.height[e] <= g.nodes)
    && (forall e :: 0 <= e < |g.edges| && t.member[e] ==>
          (t.inner[e] <==> !(|g.preds[g.edges[e].target]| > 1 || g.edges[e].target == g.exit)))
    && (forall e :: 0 <= e < |g.edges| && t.member[e] && t.inner[e] ==>
          && ListsChildren(t, e, g.succs[g.edges[e].target])
          && OnlySplitEdgesSkipped(g, t, e, g.succs[g.edges[e].target]))
  }

  ghost predicate OnlySplitEdgesSkipped(g: Graph, t: Forest, e: nat, s: seq<nat>)
    requires IsForest(t) && |t.up| == |g.edges|
    requires forall j :: 0 <= j < |s| ==> s[j] < |g.edges|
  {
    forall j :: 0 <= j < |s| ==> (g.edges[s[j]].kind != SplitEdge <==> t.up[s[j]] == Some(e))
  }

  lemma InitFollowsPlan(g: Graph, rank: seq<nat>)
    requires WellFormed(g, rank)
    ensures InitPlan(g, InitForest(g, rank))
  {
    var t := InitForest(g, rank);
    InitIsForest(g, rank);
    forall e | 0 <= e < |g.edges| && t.member[e]
      ensures t.inner[e] <==> !(|g.preds[g.edges[e].target]| > 1 || g.edges[e].target == g.exit)
      ensures t.inner[e] ==> ListsChildren(t, e, g.succs[g.edges[e].target])
      ensures t.inner[e] ==> OnlySplitEdgesSkipped(g, t, e, g.succs[g.edges[e].target])
    {
      InitPasses(g, rank, e);
      if t.inner[e] {
        InitChildren(g, rank, e);
      }
    }
  }

  lemma {:induction false} InitLoad(g: Graph, rank: seq<nat>, inc0: seq<int>, f: nat)
    requires WellFormed(g, rank) && |inc0| == |g.edges| && Covered(g, rank, f)
    requires IsForest(InitForest(g, rank))
    ensures Load(InitForest(g, rank), inc0, f) == inc0[f] + Carried(g, rank, inc0, g.edges[f].source)
    decreases InitForest(g, rank).height[f]
  {
    if f == ExitRoot(g) {
      RootPassed(g, rank);
    } else {
      InitLoad(g, rank, inc0, g.preds[g.edges[f].source][0]);
    }
  }

  /** Settled edges are as the specification of the push says. */
  lemma InitSettled(g: Graph, rank: seq<nat>, inc0: seq<int>, f: nat)
    requires WellFormed(g, rank) && |inc0| == |g.edges| && f < |g.edges|
    requires IsForest(InitForest(g, rank))
    ensures Settled(InitForest(g, rank), inc0, f) == InitIncrement(g, rank, inc0, f)
    ensures SettledMark(InitForest(g, rank), f) == InitFlag(g, rank, f)
  {
    if IsCut(g, f) {
    } else {
      if Passed(g, rank, g.edges[f].target) {
        SolePred(g, rank, f);
      }
      if Covered(g, rank, f) {
        InitLoad(g, rank, inc0, f);
      }
    }
  }

  lemma {:induction false} MemberBelowExitRoot(g: Graph, rank: seq<nat>, f: nat)
    requires WellFormed(g, rank) && IsForest(InitForest(g, rank)) && Covered(g, rank, f)
    ensures Below(InitForest(g, rank), f, ExitRoot(g))
    decreases InitForest(g, rank).height[f]
  {
    if f != ExitRoot(g) {
      MemberBelowExitRoot(g, rank, g.preds[g.edges[f].source][0]);
    }
  }

  lemma InitComplete(
    g: Graph, rank: seq<nat>, inc0: seq<int>, inc: seq<int>, init: seq<bool>)
    requires WellFormed(g, rank) && IsForest(InitForest(g, rank))
    requires |inc0| == |inc| == |init| == |g.edges|
    requires Done(InitForest(g, rank), inc0, inc, init, ExitRoot(g))
    requires forall f :: 0 <= f < |g.edges| && !Below(InitForest(g, rank), f, ExitRoot(g)) ==>
      inc[f] == inc0[f] && !init[f]
    ensures InitPushed(g, rank, inc0, inc, init)
  {
    forall f | 0 <= f < |g.edges|
      ensures inc[f] == InitIncrement(g, rank, inc0, f) && init[f] == InitFlag(g, rank, f)
    {
      InitSettled(g, rank, inc0, f);
      if Covered(g, rank, f) {
        MemberBelowExitRoot(g, rank, f);
      }
    }
  }

  // ----- counters: children are the predecessor edges -----

  function CounterForest(g: Graph, rank: seq<nat>, init: seq<bool>): (t: Forest)
    requires WellFormed(g, rank) && |init| == |g.edges|
    ensures |t.up| == |t.member| == |t.inner| == |t.height| == |g.edges|
  {
    Forest(
      seq(|g.edges|, (f: nat) requires f < |g.edges| =>
        if IsDag(g, f) && Lifted(g, rank, init, g.edges[f].target) then Some(g.succs[g.edges[f].target][0]) else None),
      seq(|g.edges|, (f: nat) requires f < |g.edges| => Counted(g, rank, init, f)),
      seq(|g.edges|, (f: nat) requires f < |g.edges| =>
        Counted(g, rank, init, f) && Lifted(g, rank, init, g.edges[f].source)),
      seq(|g.edges|, (f: nat) requires f < |g.edges| =>
        if f == ExitRoot(g) then 0 else g.nodes - rank[g.edges[f].target]))
  }

  lemma CounterIsForest(g: Graph, rank: seq<nat>, init: seq<bool>)
    requires WellFormed(g, rank) && |init| == |g.edges|
    ensures IsForest(CounterForest(g, rank, init))
    ensures forall f :: 0 <= f < |g.edges| ==> CounterForest(g, rank, init).height[f] <= g.nodes
  {
  }

  /** Every predecessor edge of a lifted node, other than a split edge, is an edge of the DAG. */
  lemma LiftedPredecessor(g: Graph, rank: seq<nat>, init: seq<bool>, n: nat, j: nat)
    requires WellFormed(g, rank) && |init| == |g.edges|
    requires n < g.nodes && Lifted(g, rank, init, n) && j < |g.preds[n]|
    ensures g.preds[n][j] < |g.edges| && g.edges[g.preds[n][j]].target == n
    ensures g.edges[g.preds[n][j]].kind != SplitEdge <==> IsDag(g, g.preds[n][j])
  {
    var s := g.preds[n][j];
    assert IsEdge(g, s);
    if g.edges[s].kind == Backedge {
      NoBackedgeIn(g, rank, init, s);
    }
    RootPassed(g, rank);
  }

  /** The test in the recursion decides whether the source of `e` is passed. */
  lemma CounterPasses(g: Graph, rank: seq<nat>, init: seq<bool>, e: nat)
    requires WellFormed(g, rank) && |init| == |g.edges| && Counted(g, rank, init, e)
    ensures CounterForest(g, rank, init).inner[e] <==>
      !(|g.succs[g.edges[e].source]| > 1 || g.edges[e].source == g.root || init[e])
  {
    assert IsEdge(g, e);
    if |g.succs[g.edges[e].source]| == 1 {
      SoleSucc(g, rank, e);
    }
  }

  lemma CounterChildren(g: Graph, rank: seq<nat>, init: seq<bool>, e: nat)
    requires WellFormed(g, rank) && |init| == |g.edges|
    requires Counted(g, rank, init, e) && Lifted(g, rank, init, g.edges[e].source)
    requires IsForest(CounterForest(g, rank, init))
    ensures ListsChildren(CounterForest(g, rank, init), e, g.preds[g.edges[e].source])
    ensures forall j :: 0 <= j < |g.preds[g.edges[e].source]| ==>
      (g.edges[g.preds[g.edges[e].source][j]].kind != SplitEdge
       <==> CounterForest(g, rank, init).up[g.preds[g.edges[e].source][j]] == Some(e))
  {
    var t, n := CounterForest(g, rank, init), g.edges[e].source;
    SoleSucc(g, rank, e);
    forall j | 0 <= j < |g.preds[n]|
      ensures g.preds[n][j] < |g.edges|
      ensures g.edges[g.preds[n][j]].kind != SplitEdge <==> t.up[g.preds[n][j]] == Some(e)
    {
      LiftedPredecessor(g, rank, init, n, j);
    }
    forall f | 0 <= f < |g.edges| && t.up[f] == Some(e)
      ensures f in g.preds[n]
    {
      assert IsEdge(g, g.succs[g.edges[f].target][0]) && IsEdge(g, f);
    }
  }

  ghost predicate CounterPlan(g: Graph, init: seq<bool>, t: Forest) {
    && EndsInRange(g) && IsForest(t) && |t.up| == |init| == |g.edges|
    && (forall e :: 0 <= e < |g.edges| ==> t.height[e] <= g.nodes)
    && (forall e :: 0 <= e < |g.edges| && t.member[e] ==>
          (t.inner[e] <==> !(|g.succs[g.edges[e].source]| > 1 || g.edges[e].source == g.root || init[e])))
    && (forall e :: 0 <= e < |g.edges| && t.member[e] && t.inner[e] ==>
          && ListsChildren(t, e, g.preds[g.edges[e].source])
          && OnlySplitEdgesSkipped(g, t, e, g.preds[g.edges[e].source]))
  }

  lemma CounterFollowsPlan(g: Graph, rank: seq<nat>, init: seq<bool>)
    requires WellFormed(g, rank) && |init| == |g.edges|
    ensures CounterPlan(g, init, CounterForest(g, rank, init))
  {
    var t := CounterForest(g, rank, init);
    CounterIsForest(g, rank, init);
    forall e | 0 <= e < |g.edges| && t.member[e]
      ensures t.inner[e] <==> !(|g.succs[g.edges[e].source]| > 1 || g.edges[e].source == g.root || init[e])
      ensures t.inner[e] ==> ListsChildren(t, e, g.preds[g.edges[e].source])
      ensures t.inner[e] ==> OnlySplitEdgesSkipped(g, t, e, g.preds[g.edges[e].source])
    {
      CounterPasses(g, rank, init, e);
      if t.inner[e] {
        CounterChildren(g, rank, init, e);
      }
    }
  }

  lemma {:induction false} CounterLoad(g: Graph, rank: seq<nat>, inc: seq<int>, init: seq<bool>, f: nat)
    requires WellFormed(g, rank) && |inc| == |init| == |g.edges| && Counted(g, rank, init, f)
    requires IsForest(CounterForest(g, rank, init))
    ensures Load(CounterForest(g, rank, init), inc, f) == inc[f] + Pending(g, rank, inc, init, g.edges[f].target)
    decreases CounterForest(g, rank, init).height[f]
  {
    if f == ExitRoot(g) {
      RootPassed(g, rank);
    } else {
      CounterLoad(g, rank, inc, init, g.succs[g.edges[f].target][0]);
    }
  }

  /** Settled edges are as the specification of the push says. */
  lemma CounterSettled(g: Graph, rank: seq<nat>, inc: seq<int>, init: seq<bool>, f: nat)
    requires WellFormed(g, rank) && |inc| == |init| == |g.edges| && f < |g.edges|
    requires IsForest(CounterForest(g, rank, init))
    ensures Settled(CounterForest(g, rank, init), inc, f) == CounterIncrement(g, rank, inc, init, f)
    ensures SettledMark(CounterForest(g, rank, init), f) == CounterFlag(g, rank, init, f)
  {
    if IsCut(g, f) {
    } else {
      if Lifted(g, rank, init, g.edges[f].source) {
        SoleSucc(g, rank, f);
      }
      if Counted(g, rank, init, f) {
        CounterLoad(g, rank, inc, init, f);
      }
    }
  }

  lemma {:induction false} CountedBelowExitRoot(g: Graph, rank: seq<nat>, init: seq<bool>, f: nat)
    requires WellFormed(g, rank) && |init| == |g.edges| && Counted(g, rank, init, f)
    requires IsForest(CounterForest(g, rank, init))
    ensures Below(CounterForest(g, rank, init), f, ExitRoot(g))
    decreases CounterForest(g, rank, init).height[f]
  {
    if f != ExitRoot(g) {
      CountedBelowExitRoot(g, rank, init, g.succs[g.edges[f].target][0]);
    }
  }

  lemma CounterComplete(
    g: Graph, rank: seq<nat>, inc1: seq<int>, init: seq<bool>, inc: seq<int>, counter: seq<bool>)
    requires WellFormed(g, rank) && |inc1| == |init| == |inc| == |counter| == |g.edges|
    requires IsForest(CounterForest(g, rank, init))
    requires Done(CounterForest(g, rank, init), inc1, inc, counter, ExitRoot(g))
    requires forall f :: 0 <= f < |g.edges| && !Below(CounterForest(g, rank, init), f, ExitRoot(g)) ==>
      inc[f] == inc1[f] && !counter[f]
    ensures CountersPushed(g, rank, inc1, init, inc, counter)
  {
    forall f | 0 <= f < |g.edges|
      ensures inc[f] == CounterIncrement(g, rank, inc1, init, f)
      ensures counter[f] == CounterFlag(g, rank, init, f)
    {
      CounterSettled(g, rank, inc1, init, f);
      if Counted(g, rank, init, f) {
        CountedBelowExitRoot(g, rank, init, f);
      }
    }
  }
}
