/**
 Unlinking phony edges, splitting critical edges and emitting code edge by edge.
 Split number k of an original graph puts node `nodes + k` and edge `|edges| + k` behind
 the edge that is split.
 */
module EdgeSplitting {
  import opened Basics
  import opened Graphs

  // ----- adjacency lists -----

  function Without(s: seq<nat>, e: nat): seq<nat> {
    if s == [] then [] else if s[0] == e then s[1..] else [s[0]] + Without(s[1..], e)
  }

  lemma {:induction false} WithoutMembers(s: seq<nat>, e: nat)
    requires Distinct(s)
    ensures Distinct(Without(s, e))
    ensures forall f: nat :: f in Without(s, e) <==> f in s && f != e
    ensures |Without(s, e)| == if e in s then |s| - 1 else |s|
  {
    if s == [] {
    } else {
      assert s == [s[0]] + s[1..];
      assert s[0] !in s[1..];
      assert Distinct(s[1..]) by {
        assert forall i :: 0 <= i < |s[1..]| ==> s[1..][i] == s[i + 1];
      }
      WithoutMembers(s[1..], e);
    }
  }

  /** The list without the phony edges among the first `i` edges. */
  function Keep(g: Graph, i: nat, s: seq<nat>): seq<nat> {
    if s == [] then []
    else if s[0] < i && s[0] < |g.edges| && IsPhony(g, s[0]) then Keep(g, i, s[1..])
    else [s[0]] + Keep(g, i, s[1..])
  }

  lemma {:induction false} KeepMembers(g: Graph, i: nat, s: seq<nat>)
    requires Distinct(s)
    ensures Distinct(Keep(g, i, s))
    ensures forall f: nat :: f in Keep(g, i, s) <==> f in s && !(f < i && f < |g.edges| && IsPhony(g, f))
  {
    if s != [] {
      assert s == [s[0]] + s[1..];
      assert s[0] !in s[1..];
      assert Distinct(s[1..]) by {
        assert forall j :: 0 <= j < |s[1..]| ==> s[1..][j] == s[j + 1];
      }
      KeepMembers(g, i, s[1..]);
    }
  }

  lemma {:induction false} KeepNext(g: Graph, i: nat, s: seq<nat>)
    requires Distinct(s) && i < |g.edges|
    ensures Keep(g, i + 1, s) == if IsPhony(g, i) then Without(Keep(g, i, s), i) else Keep(g, i, s)
    ensures i !in s ==> Keep(g, i + 1, s) == Keep(g, i, s)
  {
    if s != [] {
      assert s[0] !in s[1..];
      assert Distinct(s[1..]) by {
        assert forall j :: 0 <= j < |s[1..]| ==> s[1..][j] == s[j + 1];
      }
      KeepNext(g, i, s[1..]);
    }
  }

  lemma {:induction false} KeepNone(g: Graph, s: seq<nat>)
    ensures Keep(g, 0, s) == s
  {
    if s != [] {
      KeepNone(g, s[1..]);
    }
  }

  /** The graph with the phony edges among the first `i` taken out of all adjacency lists. */
  function UnlinkedUpTo(g: Graph, i: nat): (u: Graph)
    ensures |u.succs| == |g.succs| && |u.preds| == |g.preds|
  {
    g.(succs := seq(|g.succs|, n requires 0 <= n < |g.succs| => Keep(g, i, g.succs[n])),
       preds := seq(|g.preds|, n requires 0 <= n < |g.preds| => Keep(g, i, g.preds[n])))
  }

  /** The graph with all phony edges taken out of the adjacency lists. */
  function Unlinked(g: Graph): (u: Graph) {
    UnlinkedUpTo(g, |g.edges|)
  }

  /** The graph with edge `e` taken out of the lists at its two ends. */
  function Detached(g: Graph, e: nat): Graph
    requires EndsInRange(g) && e < |g.edges|
  {
    var u, v := g.edges[e].source, g.edges[e].target;
    g.(succs := g.succs[u := Without(g.succs[u], e)], preds := g.preds[v := Without(g.preds[v], e)])
  }

  lemma UnlinkedNone(g: Graph)
    ensures UnlinkedUpTo(g, 0) == g
  {
    var u := UnlinkedUpTo(g, 0);
    assert u.succs == g.succs by {
      forall n | 0 <= n < |g.succs|
        ensures u.succs[n] == g.succs[n]
      {
        KeepNone(g, g.succs[n]);
      }
    }
    assert u.preds == g.preds by {
      forall n | 0 <= n < |g.preds|
        ensures u.preds[n] == g.preds[n]
      {
        KeepNone(g, g.preds[n]);
      }
    }
  }

  lemma UnlinkedNext(g: Graph, i: nat)
    requires EndsInRange(g) && ListsAgree(g) && i < |g.edges|
    ensures EndsInRange(UnlinkedUpTo(g, i))
    ensures UnlinkedUpTo(g, i + 1)
         == if IsPhony(g, i) then Detached(UnlinkedUpTo(g, i), i) else UnlinkedUpTo(g, i)
  {
    var u := UnlinkedUpTo(g, i);
    var h := if IsPhony(g, i) then Detached(u, i) else u;
    forall n | 0 <= n < g.nodes
      ensures UnlinkedUpTo(g, i + 1).succs[n] == h.succs[n]
    {
      KeepNext(g, i, g.succs[n]);
    }
    forall n | 0 <= n < g.nodes
      ensures UnlinkedUpTo(g, i + 1).preds[n] == h.preds[n]
    {
      KeepNext(g, i, g.preds[n]);
    }
    assert UnlinkedUpTo(g, i + 1).succs == h.succs && UnlinkedUpTo(g, i + 1).preds == h.preds;
  }

  /** The graphs that edge-by-edge unlinking goes through. */
  lemma UnlinkStages(g: Graph) returns (stages: seq<Graph>)
    requires EndsInRange(g) && ListsAgree(g)
    ensures |stages| == |g.edges| + 1 && stages[0] == g && stages[|g.edges|] == Unlinked(g)
    ensures forall i :: 0 <= i < |g.edges| ==>
      && EndsInRange(stages[i]) && stages[i].edges == g.edges
      && stages[i + 1] == if IsPhony(stages[i], i) then Detached(stages[i], i) else stages[i]
  {
    stages := seq(|g.edges| + 1, i requires 0 <= i <= |g.edges| => UnlinkedUpTo(g, i));
    UnlinkedNone(g);
    forall i | 0 <= i < |g.edges|
      ensures EndsInRange(stages[i]) && stages[i].edges == g.edges
      ensures stages[i + 1] == if IsPhony(stages[i], i) then Detached(stages[i], i) else stages[i]
    {
      UnlinkedNext(g, i);
    }
  }

  /** An edge that is still in the adjacency lists. */
  predicate IsLinked(g: Graph, e: nat) {
    e < |g.edges| && !IsPhony(g, e)
  }

  /** The lists of node `n` hold exactly the real edges at `n`, each once. */
  ghost predicate NodeLists(g: Graph, n: nat)
    requires n < |g.succs| && n < |g.preds|
  {
    && Distinct(g.succs[n]) && Distinct(g.preds[n])
    && (forall e: nat :: e in g.succs[n] <==> IsLinked(g, e) && g.edges[e].source == n)
    && (forall e: nat :: e in g.preds[n] <==> IsLinked(g, e) && g.edges[e].target == n)
  }

  ghost predicate RealLists(g: Graph) {
    EndsInRange(g) && forall n {:trigger NodeLists(g, n)} :: 0 <= n < g.nodes ==> NodeLists(g, n)
  }

  lemma UnlinkedLists(g: Graph)
    requires EndsInRange(g) && ListsAgree(g)
    ensures RealLists(Unlinked(g))
  {
    var u := Unlinked(g);
    forall n | 0 <= n < g.nodes
      ensures NodeLists(u, n)
    {
      KeepMembers(g, |g.edges|, g.succs[n]);
      KeepMembers(g, |g.edges|, g.preds[n]);
      assert forall e: nat :: IsLinked(u, e) ==> IsEdge(g, e);
    }
  }

  // ----- splitting one edge -----

  /** The former edge after the split: it leads to the new node and is an ordinary edge. */
  function FirstHalf(e: Edge, node: nat): Edge {
    if CutKind(e.kind) then e.(target := node, kind := Normal, phonyRoot := None, phonyExit := None)
    else e.(target := node)
  }

  /** The new edge: it leads to the former target and takes over what makes the edge a cut edge. */
  function SecondHalf(e: Edge, node: nat): Edge {
    if CutKind(e.kind) then Edge(node, e.target, e.kind, 0, e.phonyRoot, e.phonyExit)
    else Edge(node, e.target, Normal, 0, None, None)
  }

  function SplitAt(g: Graph, e: nat): Graph
    requires e < |g.edges| && g.edges[e].target < |g.preds|
  {
    var target := g.edges[e].target;
    Graph(
      g.nodes + 1, g.root, g.exit,
      g.edges[e := FirstHalf(g.edges[e], g.nodes)] + [SecondHalf(g.edges[e], g.nodes)],
      g.succs + [[|g.edges|]],
      g.preds[target := Without(g.preds[target], e) + [|g.edges|]] + [[e]])
  }

  // The steps of a split, as the graph's own operations.

  function AddNode(g: Graph): Graph {
    g.(nodes := g.nodes + 1, succs := g.succs + [[]], preds := g.preds + [[]])
  }

  /** Edge `e` leads to node `n` and is in its predecessor list. */
  function SetTarget(g: Graph, e: nat, n: nat): Graph
    requires e < |g.edges| && n < |g.preds|
  {
    g.(edges := g.edges[e := g.edges[e].(target := n)], preds := g.preds[n := g.preds[n] + [e]])
  }

  function AddEdge(g: Graph, source: nat, target: nat): Graph
    requires source < |g.succs| && target < |g.preds|
  {
    g.(edges := g.edges + [Edge(source, target, Normal, 0, None, None)],
       succs := g.succs[source := g.succs[source] + [|g.edges|]],
       preds := g.preds[target := g.preds[target] + [|g.edges|]])
  }

  /** Moves the type and the phony edges of cut edge `e` to edge `f`. */
  function MoveCut(edges: seq<Edge>, e: nat, f: nat): seq<Edge>
    requires e < |edges| && f < |edges|
  {
    var moved := edges[f].(kind := edges[e].kind, phonyRoot := edges[e].phonyRoot, phonyExit := edges[e].phonyExit);
    var former := edges[e].(kind := Normal, phonyRoot := None, phonyExit := None);
    edges[f := moved][e := former]
  }

  /** Step by step, a split arrives at `SplitAt`. */
  lemma SplitSteps(g: Graph, e: nat)
    requires EndsInRange(g) && e < |g.edges|
    ensures var target := g.edges[e].target;
      var g2 := SetTarget(AddNode(g), e, g.nodes);
      var g3 := g2.(preds := g2.preds[target := Without(g2.preds[target], e)]);
      var g4 := AddEdge(g3, g.nodes, target);
      SplitAt(g, e) == if CutKind(g.edges[e].kind) then g4.(edges := MoveCut(g4.edges, e, |g.edges|)) else g4
  {
    var target := g.edges[e].target;
    var g2 := SetTarget(AddNode(g), e, g.nodes);
    var g3 := g2.(preds := g2.preds[target := Without(g2.preds[target], e)]);
    var g4 := AddEdge(g3, g.nodes, target);
    assert [] + [e] == [e] && [] + [|g.edges|] == [|g.edges|];
    assert g4.succs == SplitAt(g, e).succs;
    assert g4.preds == SplitAt(g, e).preds;
    if CutKind(g.edges[e].kind) {
      assert MoveCut(g4.edges, e, |g.edges|) == SplitAt(g, e).edges;
    } else {
      assert g4.edges == SplitAt(g, e).edges;
    }
  }

  lemma SplitAtLists(g: Graph, e: nat)
    requires RealLists(g) && IsLinked(g, e)
    ensures RealLists(SplitAt(g, e))
    ensures forall n :: 0 <= n < g.nodes ==> |SplitAt(g, e).preds[n]| == |g.preds[n]|
  {
    var h, target := SplitAt(g, e), g.edges[e].target;
    assert NodeLists(g, target);
    WithoutMembers(g.preds[target], e);
    assert forall f :: 0 <= f < |g.edges| ==> (IsLinked(h, f) <==> IsLinked(g, f));
    assert IsLinked(h, |g.edges|) && !IsLinked(g, |g.edges|);
    forall n | 0 <= n < h.nodes
      ensures NodeLists(h, n)
    {
      if n < g.nodes {
        assert NodeLists(g, n);
      }
    }
  }

  /** Only cut edges have phony edges. */
  ghost predicate OnlyCutsHavePhonies(g: Graph) {
    forall e :: 0 <= e < |g.edges| && !IsCut(g, e) ==> g.edges[e].phonyRoot == None && g.edges[e].phonyExit == None
  }
}
