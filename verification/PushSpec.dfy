/**
 Where the register initialisation and the counter increment end up.

 `pushInitialization` moves values down through nodes with one predecessor edge,
 `pushCounters` moves them up through nodes with one successor edge.  Both are
 described here without reference to the order in which the recursions work: a set
 of nodes that is passed through and a potential on these nodes.
 */
module PushSpec {
  import opened Graphs

  // ----- initialisation -----

  /** The initialisation moves down through `n`: every node from the root to `n` has one predecessor edge. */
  predicate Passed(g: Graph, rank: seq<nat>, n: nat)
    requires WellFormed(g, rank) && n < g.nodes
    decreases rank[n]
  {
    && |g.preds[n]| == 1 && n != g.exit
    && var e := g.preds[n][0];
    && (e == ExitRoot(g) || (IsDag(g, e) && Passed(g, rank, g.edges[e].source)))
  }

  /** The value that the initialisation carries down through `n`. */
  function Carried(g: Graph, rank: seq<nat>, inc: seq<int>, n: nat): int
    requires WellFormed(g, rank) && n < g.nodes && |inc| == |g.edges|
    decreases rank[n]
  {
    if !Passed(g, rank, n) then 0
    else
      var e := g.preds[n][0];
      inc[e] + if e == ExitRoot(g) then 0 else Carried(g, rank, inc, g.edges[e].source)
  }

  /** Edges that are marked as initialisation at some moment of the push. */
  predicate Covered(g: Graph, rank: seq<nat>, e: nat)
    requires WellFormed(g, rank)
  {
    && e < |g.edges|
    && (e == ExitRoot(g) || (IsDag(g, e) && Passed(g, rank, g.edges[e].source)))
  }

  predicate InitFlag(g: Graph, rank: seq<nat>, e: nat)
    requires WellFormed(g, rank) && e < |g.edges|
  {
    Covered(g, rank, e) && !Passed(g, rank, g.edges[e].target)
  }

  function InitIncrement(g: Graph, rank: seq<nat>, inc: seq<int>, e: nat): int
    requires WellFormed(g, rank) && |inc| == |g.edges| && e < |g.edges|
  {
    if IsCut(g, e) then inc[e]
    else inc[e] + Carried(g, rank, inc, g.edges[e].source) - Carried(g, rank, inc, g.edges[e].target)
  }

  /** The two columns after `pushInitialization`. */
  ghost predicate InitPushed(g: Graph, rank: seq<nat>, inc0: seq<int>, inc: seq<int>, init: seq<bool>) {
    && WellFormed(g, rank)
    && |inc0| == |inc| == |init| == |g.edges|
    && (forall e :: 0 <= e < |g.edges| ==> inc[e] == InitIncrement(g, rank, inc0, e))
    && (forall e :: 0 <= e < |g.edges| ==> init[e] == InitFlag(g, rank, e))
  }

  // ----- counters -----

  /** The counter moves up through `n`: from `n` to the exit every node has one successor edge, none an initialisation. */
  predicate Lifted(g: Graph, rank: seq<nat>, init: seq<bool>, n: nat)
    requires WellFormed(g, rank) && n < g.nodes && |init| == |g.edges|
    decreases g.nodes - rank[n]
  {
    && |g.succs[n]| == 1 && n != g.root
    && var e := g.succs[n][0];
    && !init[e]
    && (e == ExitRoot(g) || (IsDag(g, e) && Lifted(g, rank, init, g.edges[e].target)))
  }

  /** The value that the counter carries up through `n`. */
  function Pending(g: Graph, rank: seq<nat>, inc: seq<int>, init: seq<bool>, n: nat): int
    requires WellFormed(g, rank) && n < g.nodes && |inc| == |init| == |g.edges|
    decreases g.nodes - rank[n]
  {
    if !Lifted(g, rank, init, n) then 0
    else
      var e := g.succs[n][0];
      inc[e] + if e == ExitRoot(g) then 0 else Pending(g, rank, inc, init, g.edges[e].target)
  }

  /** Edges that are marked as counter increment at some moment of the push. */
  predicate Counted(g: Graph, rank: seq<nat>, init: seq<bool>, e: nat)
    requires WellFormed(g, rank) && |init| == |g.edges|
  {
    && e < |g.edges|
    && (e == ExitRoot(g) || (IsDag(g, e) && Lifted(g, rank, init, g.edges[e].target)))
  }

  predicate CounterFlag(g: Graph, rank: seq<nat>, init: seq<bool>, e: nat)
    requires WellFormed(g, rank) && |init| == |g.edges| && e < |g.edges|
  {
    Counted(g, rank, init, e) && !Lifted(g, rank, init, g.edges[e].source)
  }

  function CounterIncrement(g: Graph, rank: seq<nat>, inc: seq<int>, init: seq<bool>, e: nat): int
    requires WellFormed(g, rank) && |inc| == |init| == |g.edges| && e < |g.edges|
  {
    if IsCut(g, e) then inc[e]
    else inc[e] + Pending(g, rank, inc, init, g.edges[e].target) - Pending(g, rank, inc, init, g.edges[e].source)
  }

  /** The two columns after `pushCounters`, which leaves the initialisation flags alone. */
  ghost predicate CountersPushed(
    g: Graph, rank: seq<nat>, inc1: seq<int>, init: seq<bool>, inc: seq<int>, counter: seq<bool>)
  {
    && WellFormed(g, rank)
    && |inc1| == |init| == |inc| == |counter| == |g.edges|
    && (forall e :: 0 <= e < |g.edges| ==> inc[e] == CounterIncrement(g, rank, inc1, init, e))
    && (forall e :: 0 <= e < |g.edges| ==> counter[e] == CounterFlag(g, rank, init, e))
  }

  // ----- cut edges have company at both ends -----

  lemma TwoPreds(g: Graph, rank: seq<nat>, e: nat)
    requires WellFormed(g, rank) && e < |g.edges| && IsCut(g, e)
    ensures |g.preds[g.edges[e].target]| > 1
    ensures g.edges[e].target != g.root
  {
    var top := g.edges[e].phonyRoot.value;
    assert IsEdge(g, e) && IsEdge(g, top);
    assert e in g.preds[g.edges[e].target] && top in g.preds[g.edges[e].target];
  }

  lemma TwoSuccs(g: Graph, rank: seq<nat>, e: nat)
    requires WellFormed(g, rank) && e < |g.edges| && IsCut(g, e)
    ensures |g.succs[g.edges[e].source]| > 1
    ensures g.edges[e].source != g.exit
  {
    var bottom := g.edges[e].phonyExit.value;
    assert IsEdge(g, e) && IsEdge(g, bottom);
    assert e in g.succs[g.edges[e].source] && bottom in g.succs[g.edges[e].source];
  }

  lemma SolePred(g: Graph, rank: seq<nat>, e: nat)
    requires WellFormed(g, rank) && e < |g.edges| && |g.preds[g.edges[e].target]| == 1
    ensures g.preds[g.edges[e].target][0] == e
  {
    assert IsEdge(g, e);
  }

  lemma SoleSucc(g: Graph, rank: seq<nat>, e: nat)
    requires WellFormed(g, rank) && e < |g.edges| && |g.succs[g.edges[e].source]| == 1
    ensures g.succs[g.edges[e].source][0] == e
  {
    assert IsEdge(g, e);
  }

  lemma {:induction false} PassedBackwards(g: Graph, rank: seq<nat>, p: seq<nat>, a: nat, b: nat)
    requires WellFormed(g, rank) && a < g.nodes && b < g.nodes
    requires ForwardPath(g, p, a, b) && Passed(g, rank, b)
    ensures Passed(g, rank, a)
    decreases |p|
  {
    if p != [] {
      var e := p[|p| - 1];
      WalkDropLast(g, p, a, b);
      SolePred(g, rank, e);
      assert IsForward(g, e);
      PassedBackwards(g, rank, p[..|p| - 1], a, g.edges[e].source);
    }
  }

  /** The initialisation never comes to a node that has a backedge among its successors. */
  lemma NoBackedgeOut(g: Graph, rank: seq<nat>, e: nat)
    requires WellFormed(g, rank) && e < |g.edges| && g.edges[e].kind == Backedge
    ensures !Passed(g, rank, g.edges[e].source)
  {
    var v, h := g.edges[e].source, g.edges[e].target;
    TwoPreds(g, rank, e);
    var p :| ForwardPath(g, p, h, v);
    if Passed(g, rank, v) {
      PassedBackwards(g, rank, p, h, v);
      assert false;
    }
  }

  lemma {:induction false} LiftedForwards(
    g: Graph, rank: seq<nat>, init: seq<bool>, p: seq<nat>, a: nat, b: nat)
    requires WellFormed(g, rank) && |init| == |g.edges| && a < g.nodes && b < g.nodes
    requires ForwardPath(g, p, a, b) && Lifted(g, rank, init, a)
    ensures Lifted(g, rank, init, b)
    decreases |p|
  {
    if p != [] {
      var e := p[0];
      assert IsForward(g, e);
      SoleSucc(g, rank, e);
      assert forall i :: 0 <= i < |p[1..]| ==> p[1..][i] == p[i + 1];
      LiftedForwards(g, rank, init, p[1..], g.edges[e].target, b);
    }
  }

  /** The counter never comes to a node that has a backedge among its predecessors. */
  lemma NoBackedgeIn(g: Graph, rank: seq<nat>, init: seq<bool>, e: nat)
    requires WellFormed(g, rank) && |init| == |g.edges|
    requires e < |g.edges| && g.edges[e].kind == Backedge
    ensures !Lifted(g, rank, init, g.edges[e].target)
  {
    var v, h := g.edges[e].source, g.edges[e].target;
    TwoSuccs(g, rank, e);
    var p :| ForwardPath(g, p, h, v);
    if Lifted(g, rank, init, h) {
      LiftedForwards(g, rank, init, p, h, v);
      assert false;
    }
  }

  /** After the pushes the phony root edges are still initialisations, the phony exit edges still counters. */
  lemma PhonyFlagsStay(g: Graph, rank: seq<nat>, init: seq<bool>, e: nat)
    requires WellFormed(g, rank) && |init| == |g.edges|
    requires e < |g.edges| && IsCut(g, e)
    requires forall f :: 0 <= f < |g.edges| ==> init[f] == InitFlag(g, rank, f)
    ensures InitFlag(g, rank, g.edges[e].phonyRoot.value)
    ensures CounterFlag(g, rank, init, g.edges[e].phonyExit.value)
  {
    TwoPreds(g, rank, e);
    TwoSuccs(g, rank, e);
    RootPassed(g, rank);
    ExitLifted(g, rank, init);
  }

  lemma RootPassed(g: Graph, rank: seq<nat>)
    requires WellFormed(g, rank)
    ensures Passed(g, rank, g.root)
    ensures g.edges[ExitRoot(g)].source == g.exit && g.edges[ExitRoot(g)].target == g.root
  {
    assert g.preds[g.root][0] == ExitRoot(g);
    assert g.succs[g.exit][0] == ExitRoot(g);
  }

  lemma ExitLifted(g: Graph, rank: seq<nat>, init: seq<bool>)
    requires WellFormed(g, rank) && |init| == |g.edges|
    requires forall f :: 0 <= f < |g.edges| ==> init[f] == InitFlag(g, rank, f)
    ensures Lifted(g, rank, init, g.exit)
  {
    RootPassed(g, rank);
  }

  /** Both pushes move everything off exit->root: it is left with no label at all. */
  lemma ExitRootIsCleared(
    g: Graph, rank: seq<nat>, inc0: seq<int>, inc1: seq<int>, init: seq<bool>, inc: seq<int>, counter: seq<bool>)
    requires InitPushed(g, rank, inc0, inc1, init) && CountersPushed(g, rank, inc1, init, inc, counter)
    ensures inc[ExitRoot(g)] == 0 && !init[ExitRoot(g)] && !counter[ExitRoot(g)]
  {
    var x := ExitRoot(g);
    RootPassed(g, rank);
    ExitLifted(g, rank, init);
    assert inc1[x] == InitIncrement(g, rank, inc0, x) && inc[x] == CounterIncrement(g, rank, inc1, init, x);
    assert !Passed(g, rank, g.exit) && !Lifted(g, rank, init, g.root);
    assert Carried(g, rank, inc0, g.root) == inc0[x] && Carried(g, rank, inc0, g.exit) == 0;
    assert Pending(g, rank, inc1, init, g.exit) == inc1[x] && Pending(g, rank, inc1, init, g.root) == 0;
  }
}
