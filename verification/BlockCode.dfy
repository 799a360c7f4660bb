/**
 The emitted code as it runs: not edge by edge, but in the blocks in which it was put.
 When a run goes from block to block, the blocks run the codes of exactly the edges that
 the run takes, in order.
 */
module BlockCode {
  import opened Basics
  import opened Graphs
  import opened RegisterMachine
  import opened EdgeSplitting
  import opened Emission

  /** The edges among the first `k` whose code is at `p`. */
  function EdgesAt(place: seq<Place>, p: Place, k: nat): seq<nat>
    requires k <= |place|
  {
    if k == 0 then [] else EdgesAt(place, p, k - 1) + if place[k - 1] == p then [k - 1] else []
  }

  function Beginning(s: Emitter, n: nat): seq<nat> {
    EdgesAt(s.place, AtBeginning(n), |s.place|)
  }

  function End(s: Emitter, n: nat): seq<nat> {
    EdgesAt(s.place, AtEnd(n), |s.place|)
  }

  /** The blocks that a walk from `a` goes through. */
  function Nodes(g: Graph, p: seq<nat>, a: nat): seq<nat>
    requires forall i :: 0 <= i < |p| ==> p[i] < |g.edges|
  {
    if p == [] then [a] else [a] + Nodes(g, p[1..], g.edges[p[0]].target)
  }

  /** The edges whose codes the blocks run. */
  function RunBlocks(s: Emitter, nodes: seq<nat>): seq<nat> {
    if nodes == [] then [] else Beginning(s, nodes[0]) + End(s, nodes[0]) + RunBlocks(s, nodes[1..])
  }

  lemma {:induction false} NothingAt(place: seq<Place>, p: Place, k: nat)
    requires k <= |place| && forall i :: 0 <= i < k ==> place[i] != p
    ensures EdgesAt(place, p, k) == []
  {
    if k > 0 {
      NothingAt(place, p, k - 1);
    }
  }

  lemma {:induction false} OnlyOneAt(place: seq<Place>, p: Place, k: nat, e: nat)
    requires k <= |place| && e < k && forall i :: 0 <= i < k ==> (place[i] == p <==> i == e)
    ensures EdgesAt(place, p, k) == [e]
  {
    if e == k - 1 {
      NothingAt(place, p, k - 1);
    } else {
      OnlyOneAt(place, p, k - 1, e);
    }
  }

  /** Code at the end of a block belongs to the only edge out of it. */
  lemma SoleAtEnd(s: Emitter, e: nat, f: nat)
    requires Emitted(s) && RealLists(s.g) && IsLinked(s.g, e)
    requires f < |s.place| && s.place[f] == AtEnd(s.g.edges[e].source)
    ensures f == e
  {
    assert EdgeEmitted(s, f);
    assert NodeLists(s.g, s.g.edges[e].source);
    assert e in s.g.succs[s.g.edges[e].source] && f in s.g.succs[s.g.edges[e].source];
  }

  /** Code at the beginning of a block belongs to the only edge into it. */
  lemma SoleAtBeginning(s: Emitter, e: nat, f: nat)
    requires Emitted(s) && RealLists(s.g) && IsLinked(s.g, e)
    requires f < |s.place| && s.place[f] == AtBeginning(s.g.edges[e].target)
    ensures f == e
  {
    assert EdgeEmitted(s, f);
    assert NodeLists(s.g, s.g.edges[e].target);
    assert e in s.g.preds[s.g.edges[e].target];
  }

  /** Between two blocks, the code of the edge between them runs, once, and no other. */
  lemma BetweenBlocks(s: Emitter, e: nat)
    requires Emitted(s) && RealLists(s.g) && e < |s.has| && s.has[e]
    ensures End(s, s.g.edges[e].source) + Beginning(s, s.g.edges[e].target) == [e]
  {
    var u, v := s.g.edges[e].source, s.g.edges[e].target;
    assert EdgeEmitted(s, e);
    forall f | 0 <= f < |s.place|
      ensures s.place[f] == AtEnd(u) || s.place[f] == AtBeginning(v) ==> f == e
    {
      if s.place[f] == AtEnd(u) {
        SoleAtEnd(s, e, f);
      } else if s.place[f] == AtBeginning(v) {
        SoleAtBeginning(s, e, f);
      }
    }
    if s.place[e] == AtEnd(u) {
      OnlyOneAt(s.place, AtEnd(u), |s.place|, e);
      NothingAt(s.place, AtBeginning(v), |s.place|);
    } else {
      NothingAt(s.place, AtEnd(u), |s.place|);
      OnlyOneAt(s.place, AtBeginning(v), |s.place|, e);
    }
  }

  /** The exit has no block, and no code is put at its end. */
  lemma NothingAtExit(s: Emitter)
    requires Emitted(s)
    ensures End(s, s.g.exit) == []
  {
    forall f | 0 <= f < |s.place|
      ensures s.place[f] != AtEnd(s.g.exit)
    {
      assert EdgeEmitted(s, f);
    }
    NothingAt(s.place, AtEnd(s.g.exit), |s.place|);
  }

  /** Along a walk, the blocks run its edges, after what is at the beginning of the first block. */
  lemma {:induction false} BlocksRunWalk(s: Emitter, p: seq<nat>, a: nat, b: nat)
    requires Emitted(s) && RealLists(s.g) && Walk(s.g, p, a, b) && AllVisited(s, p, |p|)
    ensures RunBlocks(s, Nodes(s.g, p, a)) == Beginning(s, a) + p + End(s, b)
    decreases |p|
  {
    var nodes := Nodes(s.g, p, a);
    if p == [] {
      assert nodes[1..] == [];
    } else {
      var e, rest := p[0], p[1..];
      var t := s.g.edges[e].target;
      assert forall i :: 0 <= i < |rest| ==> rest[i] == p[i + 1];
      assert nodes[1..] == Nodes(s.g, rest, t);
      BlocksRunWalk(s, rest, t, b);
      BetweenBlocks(s, e);
      Regroup(Beginning(s, a), End(s, a), Beginning(s, t), rest, End(s, b));
      assert [e] + rest == p;
    }
  }

  lemma Regroup(a: seq<nat>, b: seq<nat>, c: seq<nat>, d: seq<nat>, e: seq<nat>)
    ensures a + b + (c + d + e) == a + ((b + c) + d) + e
  {
  }

  // ----- every run -----

  /**
   A call of the function goes through the blocks of a run from the root to `b`: they run the
   code of exit->root, the codes of the edges of the run, and what is at the end of `b`.
   */
  ghost predicate BlocksRunTo(s: Emitter, p: seq<nat>, b: nat)
    requires HasExitRoot(s.g) && forall i :: 0 <= i < |p| ==> p[i] < |s.g.edges|
  {
    RunBlocks(s, Nodes(s.g, p, s.g.root)) == [ExitRoot(s.g)] + p + End(s, b)
  }

  /** On a complete run, what the blocks do is what the edges do. */
  ghost predicate BlocksDoRun(s: Emitter, p: seq<nat>)
    requires forall i :: 0 <= i < |p| ==> p[i] < |s.g.edges|
  {
    var ran := RunBlocks(s, Nodes(s.g, p, s.g.root));
    InCode(s.code, ran) && InCode(s.code, p) && Execute(s.code, ran, START) == Execute(s.code, p, START)
  }

  ghost predicate BlocksDoRuns(s: Emitter) {
    && HasExitRoot(s.g)
    && (forall p, b | 0 <= b < s.g.nodes && Run(s.g, p, s.g.root, b) :: BlocksRunTo(s, p, b))
    && (forall p | Run(s.g, p, s.g.root, s.g.exit) :: BlocksDoRun(s, p))
  }

  /** The code of exit->root has been put in front of the root's block, and does nothing. */
  ghost predicate Enters(s: Emitter) {
    && HasExitRoot(s.g)
    && var x := ExitRoot(s.g);
    && x < |s.has| && s.has[x] && x < |s.code| && s.code[x] == IDLE
    && x < |s.g.edges| && s.g.edges[x].source == s.g.exit && s.g.edges[x].target == s.g.root
  }

  lemma WalkEnters(g0: Graph, l0: Labels, s: Emitter, splits: seq<nat>)
    requires Invariant(g0, l0, s, splits) && ExitRoot(g0) < |s.has| && s.has[ExitRoot(g0)]
    requires var x := ExitRoot(g0);
      && g0.edges[x].source == g0.exit && g0.edges[x].target == g0.root && !IsCut(g0, x)
      && l0.increment[x] == 0 && !l0.isInit[x] && !l0.isCounter[x]
    ensures Enters(s)
  {
    var x := ExitRoot(g0);
    assert EdgeEmitted(s, x) && s.g.edges[x] == g0.edges[x];
    assert s.g.succs[g0.exit] == g0.succs[g0.exit];
  }

  lemma BlocksRunRun(s: Emitter, p: seq<nat>, b: nat)
    requires Emitted(s) && RealLists(s.g) && Closed(s, {}) && Enters(s)
    requires b < s.g.nodes && Run(s.g, p, s.g.root, b)
    ensures AllVisited(s, p, |p|) && BlocksRunTo(s, p, b)
  {
    var x := ExitRoot(s.g);
    assert forall i :: 0 <= i < |p| ==> IsReal(s.g, p[i]) && IsLinked(s.g, p[i]);
    WalkIsVisited(s, x, p, b);
    BetweenBlocks(s, x);
    NothingAtExit(s);
    assert Beginning(s, s.g.root) == [x];
    BlocksRunWalk(s, p, s.g.root, b);
  }

  lemma BlocksExecuteRun(s: Emitter, p: seq<nat>)
    requires Emitted(s) && Enters(s) && Run(s.g, p, s.g.root, s.g.exit) && BlocksRunTo(s, p, s.g.exit)
    ensures BlocksDoRun(s, p)
  {
    var x := ExitRoot(s.g);
    NothingAtExit(s);
    assert forall i :: 0 <= i < |p| ==> IsReal(s.g, p[i]);
    assert [x] + p + [] == [x] + p;
    ExecuteAppend(s.code, [x], p, START);
    ExecuteOne(s.code, x, START);
    IdleStep(START);
  }

  lemma BlocksDoAllRuns(s: Emitter)
    requires Emitted(s) && RealLists(s.g) && Closed(s, {}) && Enters(s)
    ensures BlocksDoRuns(s)
  {
    forall p, b | 0 <= b < s.g.nodes && Run(s.g, p, s.g.root, b)
      ensures BlocksRunTo(s, p, b)
    {
      BlocksRunRun(s, p, b);
    }
    forall p | Run(s.g, p, s.g.root, s.g.exit)
      ensures BlocksDoRun(s, p)
    {
      BlocksExecuteRun(s, p);
    }
  }
}
