/**
 The labels left by the two pushes, run along any path of the DAG, log the sum that
 the path had before the pushes, once, and leave the register unset.
 */
module PathTheorem {
  import opened Basics
  import opened Graphs
  import opened PushSpec
  import opened RegisterMachine

  /**
   Where a path's register is unset, set, and unset again: it is set after the nodes
   in `passed`, where `carried` is what has been added up so far, and logged before
   the nodes in `lifted`, where `pending` is what was still to be added.
   */
  datatype Placement = Placement(passed: seq<bool>, carried: seq<int>, lifted: seq<bool>, pending: seq<int>)

  ghost predicate EdgePlaced(g: Graph, inc0: seq<int>, l: Labels, pl: Placement, e: nat)
    requires e < |g.edges| && |inc0| == |g.edges| && Labelled(g, l) && EndsInRange(g)
    requires |pl.passed| == |pl.carried| == |pl.lifted| == |pl.pending| == g.nodes
  {
    var s, t := g.edges[e].source, g.edges[e].target;
    var ps, pt, ls, lt := pl.passed[s], pl.passed[t], pl.lifted[s], pl.lifted[t];
    && (pt ==> ps && !lt && pl.carried[t] == pl.carried[s] + inc0[e])
    && (ls ==> lt && !ps && pl.pending[s] == inc0[e] + pl.pending[t])
    && (!lt ==> pl.pending[t] == 0)
    && l.isInit[e] == (ps && !pt) && l.isCounter[e] == (lt && !ls)
    && (pt || ls ==> l.increment[e] == 0)
    && (ps && !pt ==> l.increment[e] == inc0[e] + pl.carried[s] + pl.pending[t])
    && (!ps && !ls ==> l.increment[e] == inc0[e] + pl.pending[t])
  }

  ghost predicate Placed(g: Graph, inc0: seq<int>, l: Labels, pl: Placement) {
    && EndsInRange(g) && HasExitRoot(g)
    && ExitRoot(g) < |g.edges| && g.edges[ExitRoot(g)].kind == Normal
    && CutEdgesHavePhonies(g)
    && |inc0| == |g.edges| && Labelled(g, l)
    && |pl.passed| == |pl.carried| == |pl.lifted| == |pl.pending| == g.nodes
    && pl.passed[g.root] && pl.carried[g.root] == inc0[ExitRoot(g)]
    && !pl.passed[g.exit] && pl.lifted[g.exit] && pl.pending[g.exit] == 0
    && (forall e :: 0 <= e < |g.edges| && IsDag(g, e) ==> EdgePlaced(g, inc0, l, pl, e))
    && (forall e :: 0 <= e < |g.edges| && IsCut(g, e) ==>
          !pl.lifted[g.edges[e].source] && !pl.passed[g.edges[e].target] && l.increment[e] == inc0[e]
          && !l.isInit[e] && !l.isCounter[e])
  }

  /** The machine at a node, when the values on the way there, exit->root included, add up to `sum`. */
  function State(passed: bool, lifted: bool, pending: int, sum: int): Machine {
    if passed then START
    else if lifted then Machine(None, [(sum + pending) % WORD])
    else Machine(Some(sum % WORD), [])
  }

  lemma ModAdd(a: int, b: int)
    ensures (a % WORD + b) % WORD == (a + b) % WORD
  {
  }

  lemma StepCases(ps: bool, pt: bool, ls: bool, lt: bool, pendS: int, pendT: int,
                  value: int, sum: int, increment: int)
    requires (pt ==> ps && !lt) && (ls ==> lt && !ps)
    requires pt || ls ==> increment == 0
    requires ps && !pt ==> increment == value + sum + pendT
    requires !ps && !ls ==> increment == value + pendT
    requires (ls ==> pendS == value + pendT) && (!lt ==> pendT == 0)
    ensures Step(EdgeAction(ps && !pt, increment, lt && !ls), State(ps, ls, pendS, sum))
         == State(pt, lt, pendT, sum + value)
  {
    ModAdd(sum, increment);
  }

  /** One edge takes the machine from the state at its source to the state at its target. */
  lemma StateAfterEdge(g: Graph, inc0: seq<int>, l: Labels, pl: Placement, e: nat, sum: int)
    requires Placed(g, inc0, l, pl) && IsDag(g, e)
    requires pl.passed[g.edges[e].source] ==> pl.carried[g.edges[e].source] == sum
    ensures var s, t := g.edges[e].source, g.edges[e].target;
      && Step(CodeOf(g, l)[e], State(pl.passed[s], pl.lifted[s], pl.pending[s], sum))
         == State(pl.passed[t], pl.lifted[t], pl.pending[t], sum + inc0[e])
      && (pl.passed[t] ==> pl.carried[t] == sum + inc0[e])
  {
    var s, t := g.edges[e].source, g.edges[e].target;
    assert EdgePlaced(g, inc0, l, pl, e);
    StepCases(pl.passed[s], pl.passed[t], pl.lifted[s], pl.lifted[t], pl.pending[s], pl.pending[t],
              inc0[e], sum, l.increment[e]);
  }

  /** The state of the machine at every node of every path from the root. */
  lemma {:induction false} StateAlongPath(
    g: Graph, inc0: seq<int>, l: Labels, pl: Placement, p: seq<nat>, n: nat)
    requires Placed(g, inc0, l, pl) && n < g.nodes && DagPath(g, p, g.root, n)
    ensures var sum := inc0[ExitRoot(g)] + Sum(inc0, p);
      && Execute(CodeOf(g, l), p, START) == State(pl.passed[n], pl.lifted[n], pl.pending[n], sum)
      && (pl.passed[n] ==> pl.carried[n] == sum)
    decreases |p|
  {
    if p != [] {
      var q, e := p[..|p| - 1], p[|p| - 1];
      DagPathDropLast(g, p, g.root, n);
      StateAlongPath(g, inc0, l, pl, q, g.edges[e].source);
      StateAfterEdge(g, inc0, l, pl, e, inc0[ExitRoot(g)] + Sum(inc0, q));
      ExecuteLast(CodeOf(g, l), q, e, START);
      SumLast(inc0, q, e);
      assert p == q + [e];
    }
  }

  /** The number of a path: the values on it and on exit->root, in 32 bits. */
  function PathNumber(g: Graph, value: seq<int>, p: seq<nat>): int
    requires HasExitRoot(g) && ExitRoot(g) < |value|
    requires forall i :: 0 <= i < |p| ==> p[i] < |value|
  {
    (value[ExitRoot(g)] + Sum(value, p)) % WORD
  }

  /** Every path through the DAG logs exactly its own number. */
  lemma PathLogsItsNumber(g: Graph, inc0: seq<int>, l: Labels, pl: Placement, p: seq<nat>)
    requires Placed(g, inc0, l, pl) && DagPath(g, p, g.root, g.exit)
    ensures Execute(CodeOf(g, l), p, START) == Machine(None, [PathNumber(g, inc0, p)])
  {
    StateAlongPath(g, inc0, l, pl, p, g.exit);
  }

  // ----- the pushes place the labels -----

  /** A node that the initialisation passes is not one that the counter passes. */
  lemma {:induction false} PassedNotLifted(g: Graph, rank: seq<nat>, init: seq<bool>, n: nat)
    requires WellFormed(g, rank) && n < g.nodes && |init| == |g.edges|
    requires forall f :: 0 <= f < |g.edges| ==> init[f] == InitFlag(g, rank, f)
    requires Passed(g, rank, n)
    ensures !Lifted(g, rank, init, n)
    decreases g.nodes - rank[n]
  {
    if Lifted(g, rank, init, n) {
      var e := g.succs[n][0];
      assert IsEdge(g, e) && g.edges[e].source == n;
      assert e != ExitRoot(g) by { RootPassed(g, rank); }
      PassedNotLifted(g, rank, init, g.edges[e].target);
      assert false;
    }
  }

  function PlacementOf(g: Graph, rank: seq<nat>, inc0: seq<int>, inc1: seq<int>, init: seq<bool>): Placement
    requires WellFormed(g, rank) && |inc0| == |inc1| == |init| == |g.edges|
  {
    Placement(
      seq(g.nodes, (n: nat) requires n < g.nodes => Passed(g, rank, n)),
      seq(g.nodes, (n: nat) requires n < g.nodes => Carried(g, rank, inc0, n)),
      seq(g.nodes, (n: nat) requires n < g.nodes => Lifted(g, rank, init, n)),
      seq(g.nodes, (n: nat) requires n < g.nodes => Pending(g, rank, inc1, init, n)))
  }

  /** `inc0`, `inc1` and `l.increment` are the increments before, between and after the two pushes. */
  ghost predicate Pushed(g: Graph, rank: seq<nat>, inc0: seq<int>, inc1: seq<int>, l: Labels) {
    && InitPushed(g, rank, inc0, inc1, l.isInit)
    && CountersPushed(g, rank, inc1, l.isInit, l.increment, l.isCounter)
  }

  lemma EdgeIsPlaced(g: Graph, rank: seq<nat>, inc0: seq<int>, inc1: seq<int>, l: Labels, e: nat)
    requires Pushed(g, rank, inc0, inc1, l) && IsDag(g, e)
    ensures EdgePlaced(g, inc0, l, PlacementOf(g, rank, inc0, inc1, l.isInit), e)
  {
    var s, t := g.edges[e].source, g.edges[e].target;
    assert l.increment[e] == CounterIncrement(g, rank, inc1, l.isInit, e);
    assert inc1[e] == InitIncrement(g, rank, inc0, e);
    assert l.isInit[e] == InitFlag(g, rank, e);
    assert l.isCounter[e] == CounterFlag(g, rank, l.isInit, e);
    if Passed(g, rank, s) {
      PassedNotLifted(g, rank, l.isInit, s);
    }
    if Passed(g, rank, t) {
      SolePred(g, rank, e);
      PassedNotLifted(g, rank, l.isInit, t);
    }
    if Lifted(g, rank, l.isInit, s) {
      SoleSucc(g, rank, e);
    }
  }

  lemma PushesPlace(g: Graph, rank: seq<nat>, inc0: seq<int>, inc1: seq<int>, l: Labels)
    requires Pushed(g, rank, inc0, inc1, l)
    ensures Placed(g, inc0, l, PlacementOf(g, rank, inc0, inc1, l.isInit))
  {
    forall e | 0 <= e < |g.edges| && IsDag(g, e)
      ensures EdgePlaced(g, inc0, l, PlacementOf(g, rank, inc0, inc1, l.isInit), e)
    {
      EdgeIsPlaced(g, rank, inc0, inc1, l, e);
    }
    forall e | 0 <= e < |g.edges| && IsCut(g, e)
      ensures !Lifted(g, rank, l.isInit, g.edges[e].source) && !Passed(g, rank, g.edges[e].target)
      ensures l.increment[e] == inc0[e] && !l.isInit[e] && !l.isCounter[e]
    {
      TwoSuccs(g, rank, e);
      TwoPreds(g, rank, e);
    }
    ExitLifted(g, rank, l.isInit);
    RootPassed(g, rank);
    assert inc1[ExitRoot(g)] == InitIncrement(g, rank, inc0, ExitRoot(g));
  }
}
