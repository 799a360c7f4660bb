/**
 Where the flags are on a path: one initialisation, one counter increment not before
 it, and no increment outside of the two.
 */
module PathShape {
  import opened Graphs
  import opened PushSpec
  import opened RegisterMachine
  import opened PathTheorem
  import opened PathNumbering

  // ----- after pushInitialization -----

  /** `i` is the only initialisation on `p`, and nothing is added before it. */
  ghost predicate OnlyInit(inc: seq<int>, init: seq<bool>, p: seq<nat>, i: nat) {
    && i < |p| && |inc| == |init| && (forall k :: 0 <= k < |p| ==> p[k] < |inc|)
    && (forall k :: 0 <= k < |p| ==> (init[p[k]] <==> k == i))
    && (forall k :: 0 <= k < i ==> inc[p[k]] == 0)
  }

  lemma OnlyInitFurther(inc: seq<int>, init: seq<bool>, p: seq<nat>, j: nat)
    requires p != [] && OnlyInit(inc, init, p[1..], j) && p[0] < |inc| && inc[p[0]] == 0 && !init[p[0]]
    ensures OnlyInit(inc, init, p, j + 1)
  {
    assert forall k :: 0 < k < |p| ==> p[k] == p[1..][k - 1];
  }

  lemma OnlyInitFirst(inc: seq<int>, init: seq<bool>, p: seq<nat>)
    requires p != [] && |inc| == |init| && p[0] < |inc| && init[p[0]]
    requires forall k :: 0 <= k < |p[1..]| ==> p[1..][k] < |init| && !init[p[1..][k]]
    ensures OnlyInit(inc, init, p, 0)
  {
    assert forall k :: 0 < k < |p| ==> p[k] == p[1..][k - 1];
  }

  lemma InitStep(g: Graph, rank: seq<nat>, inc0: seq<int>, inc: seq<int>, init: seq<bool>, e: nat)
    requires InitPushed(g, rank, inc0, inc, init) && IsDag(g, e)
    ensures var ps, pt := Passed(g, rank, g.edges[e].source), Passed(g, rank, g.edges[e].target);
      && (pt ==> ps && inc[e] == 0) && init[e] == (ps && !pt)
      && inc[e] == inc0[e] + Carried(g, rank, inc0, g.edges[e].source) - Carried(g, rank, inc0, g.edges[e].target)
  {
    assert inc[e] == InitIncrement(g, rank, inc0, e) && init[e] == InitFlag(g, rank, e);
    if Passed(g, rank, g.edges[e].target) {
      SolePred(g, rank, e);
    }
  }

  lemma {:induction false} NoInitLater(
    g: Graph, rank: seq<nat>, inc0: seq<int>, inc: seq<int>, init: seq<bool>, p: seq<nat>, n: nat, b: nat)
    requires InitPushed(g, rank, inc0, inc, init) && n < g.nodes
    requires DagPath(g, p, n, b) && !Passed(g, rank, n)
    ensures forall k :: 0 <= k < |p| ==> p[k] < |init| && !init[p[k]]
    decreases |p|
  {
    if p != [] {
      DagPathTail(g, p, n, b);
      InitStep(g, rank, inc0, inc, init, p[0]);
      NoInitLater(g, rank, inc0, inc, init, p[1..], g.edges[p[0]].target, b);
      assert forall k :: 0 < k < |p| ==> p[k] == p[1..][k - 1];
    }
  }

  lemma {:induction false} FindInit(
    g: Graph, rank: seq<nat>, inc0: seq<int>, inc: seq<int>, init: seq<bool>, p: seq<nat>, n: nat) returns (i: nat)
    requires InitPushed(g, rank, inc0, inc, init) && n < g.nodes
    requires DagPath(g, p, n, g.exit) && Passed(g, rank, n)
    ensures OnlyInit(inc, init, p, i)
    decreases |p|
  {
    DagPathTail(g, p, n, g.exit);
    var t := g.edges[p[0]].target;
    InitStep(g, rank, inc0, inc, init, p[0]);
    if Passed(g, rank, t) {
      var j := FindInit(g, rank, inc0, inc, init, p[1..], t);
      OnlyInitFurther(inc, init, p, j);
      i := j + 1;
    } else {
      NoInitLater(g, rank, inc0, inc, init, p[1..], t, g.exit);
      OnlyInitFirst(inc, init, p);
      i := 0;
    }
  }

  /** Every path has one initialisation, and adds up to what it added up to before the push. */
  lemma InitOnEveryPath(
    g: Graph, rank: seq<nat>, inc0: seq<int>, inc: seq<int>, init: seq<bool>, p: seq<nat>) returns (i: nat)
    requires InitPushed(g, rank, inc0, inc, init) && DagPath(g, p, g.root, g.exit)
    ensures OnlyInit(inc, init, p, i)
    ensures Sum(inc, p) == inc0[ExitRoot(g)] + Sum(inc0, p)
  {
    RootPassed(g, rank);
    i := FindInit(g, rank, inc0, inc, init, p, g.root);
    var potential := (n: nat) => if n < g.nodes then Carried(g, rank, inc0, n) else 0;
    forall k | 0 <= k < |p|
      ensures p[k] < |g.edges| && DiffersByPotential(g, inc0, inc, potential, p[k])
    {
      assert IsDag(g, p[k]);
      InitStep(g, rank, inc0, inc, init, p[k]);
    }
    PotentialSum(g, inc0, inc, potential, p, g.root, g.exit);
  }

  // ----- after pushCounters -----

  /** `i` is the only initialisation on `p`, `j` the only counter; all that is added is added between them. */
  ghost predicate OnlyInitAndCounter(l: Labels, p: seq<nat>, i: nat, j: nat) {
    && OnlyInit(l.increment, l.isInit, p, i)
    && i <= j < |p| && |l.isCounter| == |l.increment|
    && (forall k :: 0 <= k < |p| ==> (l.isCounter[p[k]] <==> k == j))
    && (forall k :: j < k < |p| ==> l.increment[p[k]] == 0)
  }

  ghost predicate Plain(l: Labels, e: nat)
    requires |l.increment| == |l.isInit| == |l.isCounter|
  {
    e < |l.increment| && l.increment[e] == 0 && !l.isInit[e] && !l.isCounter[e]
  }

  lemma {:induction false} PlainAfterCounter(
    g: Graph, inc0: seq<int>, l: Labels, pl: Placement, p: seq<nat>, n: nat, b: nat)
    requires Placed(g, inc0, l, pl) && n < g.nodes && DagPath(g, p, n, b) && pl.lifted[n]
    ensures forall k :: 0 <= k < |p| ==> Plain(l, p[k])
    decreases |p|
  {
    if p != [] {
      DagPathTail(g, p, n, b);
      assert EdgePlaced(g, inc0, l, pl, p[0]);
      PlainAfterCounter(g, inc0, l, pl, p[1..], g.edges[p[0]].target, b);
      assert forall k :: 0 < k < |p| ==> p[k] == p[1..][k - 1];
    }
  }

  lemma {:induction false} FindCounter(
    g: Graph, inc0: seq<int>, l: Labels, pl: Placement, p: seq<nat>, n: nat) returns (j: nat)
    requires Placed(g, inc0, l, pl) && n < g.nodes && DagPath(g, p, n, g.exit) && !pl.passed[n] && !pl.lifted[n]
    ensures j < |p| && forall k :: 0 <= k < |p| ==> p[k] < |g.edges|
    ensures forall k :: 0 <= k < |p| ==> !l.isInit[p[k]] && (l.isCounter[p[k]] <==> k == j)
    ensures forall k :: j < k < |p| ==> l.increment[p[k]] == 0
    decreases |p|
  {
    DagPathTail(g, p, n, g.exit);
    var t := g.edges[p[0]].target;
    assert EdgePlaced(g, inc0, l, pl, p[0]);
    assert forall k :: 0 < k < |p| ==> p[k] == p[1..][k - 1];
    if pl.lifted[t] {
      PlainAfterCounter(g, inc0, l, pl, p[1..], t, g.exit);
      j := 0;
    } else {
      var j' := FindCounter(g, inc0, l, pl, p[1..], t);
      j := j' + 1;
    }
  }

  lemma {:induction false} FindBoth(
    g: Graph, inc0: seq<int>, l: Labels, pl: Placement, p: seq<nat>, n: nat) returns (i: nat, j: nat)
    requires Placed(g, inc0, l, pl) && n < g.nodes && DagPath(g, p, n, g.exit) && pl.passed[n]
    ensures OnlyInitAndCounter(l, p, i, j)
    decreases |p|
  {
    DagPathTail(g, p, n, g.exit);
    var t := g.edges[p[0]].target;
    assert EdgePlaced(g, inc0, l, pl, p[0]);
    assert forall k :: 0 < k < |p| ==> p[k] == p[1..][k - 1];
    if pl.passed[t] {
      var i', j' := FindBoth(g, inc0, l, pl, p[1..], t);
      i, j := i' + 1, j' + 1;
    } else if pl.lifted[t] {
      PlainAfterCounter(g, inc0, l, pl, p[1..], t, g.exit);
      i, j := 0, 0;
    } else {
      var j' := FindCounter(g, inc0, l, pl, p[1..], t);
      i, j := 0, j' + 1;
    }
  }

  /** Every path has one initialisation and one counter, and its increments add up to its old sum. */
  lemma BothOnEveryPath(g: Graph, inc0: seq<int>, l: Labels, pl: Placement, p: seq<nat>) returns (i: nat, j: nat)
    requires Placed(g, inc0, l, pl) && DagPath(g, p, g.root, g.exit)
    ensures OnlyInitAndCounter(l, p, i, j)
    ensures Sum(l.increment, p) == inc0[ExitRoot(g)] + Sum(inc0, p)
  {
    i, j := FindBoth(g, inc0, l, pl, p, g.root);
    var potential := (n: nat) =>
      if n >= g.nodes then 0
      else (if pl.passed[n] then pl.carried[n] else 0) - if pl.lifted[n] then pl.pending[n] else 0;
    forall k | 0 <= k < |p|
      ensures p[k] < |g.edges| && DiffersByPotential(g, inc0, l.increment, potential, p[k])
    {
      assert IsDag(g, p[k]) && EdgePlaced(g, inc0, l, pl, p[k]);
    }
    PotentialSum(g, inc0, l.increment, potential, p, g.root, g.exit);
    DagPathTail(g, p, g.root, g.exit);
    assert EdgePlaced(g, inc0, l, pl, p[0]);
  }
}
