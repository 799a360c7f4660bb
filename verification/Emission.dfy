/**
 The walk over the graph that splits critical edges and emits the code, and why the
 code on the split graph does what the labels say on the original graph.
 */
module Emission {
  import opened Basics
  import opened Graphs
  import opened RegisterMachine
  import opened EdgeSplitting

  /** Where the code of an edge is put: at the end or at the beginning of a block. */
  datatype Place = Nowhere | AtEnd(node: nat) | AtBeginning(node: nat)

  /** The state of the walk. */
  datatype Emitter = Emitter(g: Graph, l: Labels, has: seq<bool>, code: seq<Action>, place: seq<Place>)

  const IDLE := EdgeAction(false, 0, false)

  /** Neither end can hold the code of edge `e` alone, so the edge must be split. */
  predicate Critical(g: Graph, e: nat)
    requires EndsInRange(g) && e < |g.edges|
  {
    && g.edges[e].source != g.exit && g.edges[e].target != g.exit
    && |g.succs[g.edges[e].source]| > 1 && |g.preds[g.edges[e].target]| != 1
  }

  /** A block in which code runs exactly when `e` is taken: `e` is its only way out, or its only way in. */
  predicate HasOwnBlock(g: Graph, e: nat)
    requires EndsInRange(g) && e < |g.edges|
  {
    || (g.edges[e].source != g.exit && g.succs[g.edges[e].source] == [e])
    || g.preds[g.edges[e].target] == [e]
  }

  /** The block in which the code of `e` is put: the source if there is no other way out, and else the target. */
  function PlaceOf(g: Graph, e: nat): Place
    requires EndsInRange(g) && e < |g.edges|
  {
    var source, target := g.edges[e].source, g.edges[e].target;
    if source != g.exit && |g.succs[source]| <= 1 then AtEnd(source) else AtBeginning(target)
  }

  function Extended(l: Labels): Labels {
    Labels(l.increment + [0], l.isInit + [false], l.isCounter + [false])
  }

  /** What the visit of edge `e` does before it goes on to the successors. */
  function Instrument(s: Emitter, e: nat): (r: Emitter)
    requires EndsInRange(s.g) && e < |s.g.edges| == |s.has| == |s.code| == |s.place|
    requires Labelled(s.g, s.l) && CutEdgesLinked(s.g)
  {
    if Critical(s.g, e) then
      var g, l := SplitAt(s.g, e), Extended(s.l);
      assert CutEdgesLinked(g) && EndsInRange(g);
      Emitter(g, l, s.has[e := true] + [false], s.code[e := ActionOf(g, l, e)] + [IDLE],
              s.place[e := PlaceOf(g, e)] + [Nowhere])
    else
      s.(has := s.has[e := true], code := s.code[e := ActionOf(s.g, s.l, e)], place := s.place[e := PlaceOf(s.g, e)])
  }

  /** What `splitCritical` makes of the state. */
  function SplitIfCritical(s: Emitter, e: nat): Emitter
    requires EndsInRange(s.g) && e < |s.g.edges|
  {
    if Critical(s.g, e)
    then Emitter(SplitAt(s.g, e), Extended(s.l), s.has + [false], s.code + [IDLE], s.place + [Nowhere])
    else s
  }

  /** When edge `e` has been marked and split, if need be, only its code is missing. */
  lemma MarkedAndSplit(s: Emitter, e: nat)
    requires EndsInRange(s.g) && e < |s.g.edges| == |s.has| == |s.code| == |s.place|
    requires Labelled(s.g, s.l) && CutEdgesLinked(s.g)
    ensures var t, r := SplitIfCritical(s.(has := s.has[e := true]), e), Instrument(s, e);
      && r.g == t.g && r.l == t.l && r.has == t.has && e < |r.has| == |t.code| == |t.place| == |r.g.edges| && r.has[e]
      && Labelled(r.g, r.l) && CutEdgesLinked(r.g) && r.code == t.code[e := ActionOf(r.g, r.l, e)]
      && EndsInRange(r.g) && r.place == t.place[e := PlaceOf(r.g, e)]
  {
    var r := Instrument(s, e);
    assert CutEdgesLinked(r.g) && EndsInRange(r.g);
    if Critical(s.g, e) {
      var a, p := ActionOf(r.g, r.l, e), PlaceOf(r.g, e);
      assert s.code[e := a] + [IDLE] == (s.code + [IDLE])[e := a];
      assert s.place[e := p] + [Nowhere] == (s.place + [Nowhere])[e := p];
    }
  }

  // ----- what the walk maintains -----

  /** `splits` are the edges of `g0` that have been split, in order. */
  ghost predicate SplitShape(g0: Graph, g: Graph, splits: seq<nat>) {
    && Distinct(splits) && (forall k :: 0 <= k < |splits| ==> splits[k] < |g0.edges|)
    && g.root == g0.root && g.exit == g0.exit
    && g.nodes == g0.nodes + |splits| && |g.edges| == |g0.edges| + |splits|
    && (forall e :: 0 <= e < |g0.edges| && e !in splits ==> g.edges[e] == g0.edges[e])
    && (forall k :: 0 <= k < |splits| ==>
          && g.edges[splits[k]] == FirstHalf(g0.edges[splits[k]], g0.nodes + k)
          && g.edges[|g0.edges| + k] == SecondHalf(g0.edges[splits[k]], g0.nodes + k))
  }

  ghost predicate LabelsExtend(l0: Labels, l: Labels, n0: nat, n: nat) {
    && n0 <= n
    && |l0.increment| == |l0.isInit| == |l0.isCounter| == n0
    && |l.increment| == |l.isInit| == |l.isCounter| == n
    && (forall e :: 0 <= e < n0 ==>
          l.increment[e] == l0.increment[e] && l.isInit[e] == l0.isInit[e] && l.isCounter[e] == l0.isCounter[e])
    && (forall e :: n0 <= e < n ==> l.increment[e] == 0 && !l.isInit[e] && !l.isCounter[e])
  }

  /** What the edges of the original graph promise to the walk. */
  ghost predicate ReadyToEmit(g0: Graph, l0: Labels) {
    && RealLists(g0) && Labelled(g0, l0) && CutEdgesLinked(g0)
    && HasExitRoot(g0) && ExitRoot(g0) < |g0.edges|
    && g0.succs[g0.exit] == [ExitRoot(g0)] && g0.preds[g0.root] == [ExitRoot(g0)]
    && (forall e :: 0 <= e < |g0.edges| && IsLinked(g0, e) && g0.edges[e].target == g0.exit ==>
          |g0.succs[g0.edges[e].source]| == 1)
    && (forall e :: 0 <= e < |g0.edges| && IsCut(g0, e) ==>
          l0.isInit[g0.edges[e].phonyRoot.value] && l0.isCounter[g0.edges[e].phonyExit.value])
  }

  /** Edge `e`, if visited, has its code, in a block of its own; if not, its code is nowhere. */
  ghost predicate EdgeEmitted(s: Emitter, e: nat)
    requires e < |s.has| == |s.code| == |s.place| == |s.g.edges|
    requires EndsInRange(s.g) && Labelled(s.g, s.l) && CutEdgesLinked(s.g)
  {
    && (s.has[e] ==> IsLinked(s.g, e) && s.code[e] == ActionOf(s.g, s.l, e) && HasOwnBlock(s.g, e))
    && s.place[e] == if s.has[e] then PlaceOf(s.g, e) else Nowhere
  }

  ghost predicate Emitted(s: Emitter) {
    && |s.has| == |s.code| == |s.place| == |s.g.edges|
    && EndsInRange(s.g) && Labelled(s.g, s.l) && CutEdgesLinked(s.g)
    && (forall e {:trigger EdgeEmitted(s, e)} :: 0 <= e < |s.has| ==> EdgeEmitted(s, e))
  }

  /** Nothing has happened to the successor lists, or to the lengths of the predecessor lists, of old nodes. */
  ghost predicate ListsGrow(g0: Graph, g: Graph)
    requires EndsInRange(g0) && EndsInRange(g) && g0.nodes <= g.nodes
  {
    forall n :: 0 <= n < g0.nodes ==> g.succs[n] == g0.succs[n] && |g.preds[n]| == |g0.preds[n]|
  }

  ghost predicate Invariant(g0: Graph, l0: Labels, s: Emitter, splits: seq<nat>) {
    && ReadyToEmit(g0, l0)
    && SplitShape(g0, s.g, splits) && RealLists(s.g) && ListsGrow(g0, s.g)
    && LabelsExtend(l0, s.l, |g0.edges|, |s.g.edges|)
    && Emitted(s)
    && (forall k :: 0 <= k < |splits| ==> s.has[splits[k]])
    && (forall k {:trigger Critical(g0, splits[k])} :: 0 <= k < |splits| ==> Critical(g0, splits[k]))
    && ExitRoot(g0) !in splits
  }

  lemma ShapeKeepsCuts(g0: Graph, l0: Labels, g: Graph, splits: seq<nat>, e: nat)
    requires ReadyToEmit(g0, l0) && SplitShape(g0, g, splits) && e < |g.edges| && IsCut(g, e)
    ensures var c := if e < |g0.edges| then e else splits[e - |g0.edges|];
      && c < |g0.edges| && IsCut(g0, c)
      && g.edges[e].phonyRoot == g0.edges[c].phonyRoot && g.edges[e].phonyExit == g0.edges[c].phonyExit
  {
    if e >= |g0.edges| {
      var k := e - |g0.edges|;
      assert g.edges[|g0.edges| + k] == SecondHalf(g0.edges[splits[k]], g0.nodes + k);
    }
  }

  /** The links to the phony edges move with a split: no edge is left with links that it should not have. */
  lemma SplitsMoveLinks(g0: Graph, g: Graph, splits: seq<nat>)
    requires SplitShape(g0, g, splits) && OnlyCutsHavePhonies(g0)
    ensures OnlyCutsHavePhonies(g)
  {
    forall e | 0 <= e < |g.edges| && !IsCut(g, e)
      ensures g.edges[e].phonyRoot == None && g.edges[e].phonyExit == None
    {
      if e >= |g0.edges| {
        var k := e - |g0.edges|;
        assert g.edges[|g0.edges| + k] == SecondHalf(g0.edges[splits[k]], g0.nodes + k);
      } else if e in splits {
        var k :| 0 <= k < |splits| && splits[k] == e;
        assert g.edges[splits[k]] == FirstHalf(g0.edges[splits[k]], g0.nodes + k);
      }
    }
  }

  /** The two assertions on the phony edges of a cut edge hold all along. */
  lemma PhonyAssertionsHold(g0: Graph, l0: Labels, s: Emitter, splits: seq<nat>, e: nat)
    requires Invariant(g0, l0, s, splits) && e < |s.g.edges| && IsCut(s.g, e)
    ensures s.l.isInit[s.g.edges[e].phonyRoot.value] && s.l.isCounter[s.g.edges[e].phonyExit.value]
  {
    ShapeKeepsCuts(g0, l0, s.g, splits, e);
  }

  lemma ShapeLinksCuts(g0: Graph, l0: Labels, g: Graph, splits: seq<nat>)
    requires ReadyToEmit(g0, l0) && SplitShape(g0, g, splits)
    ensures CutEdgesLinked(g)
  {
    forall e | 0 <= e < |g.edges| && IsCut(g, e)
      ensures g.edges[e].phonyRoot.Some? && g.edges[e].phonyRoot.value < |g.edges|
      ensures g.edges[e].phonyExit.Some? && g.edges[e].phonyExit.value < |g.edges|
    {
      ShapeKeepsCuts(g0, l0, g, splits, e);
    }
  }

  /** Only original edges are split, and none of them twice. */
  lemma SplitOnce(g0: Graph, l0: Labels, s: Emitter, splits: seq<nat>, e: nat)
    requires Invariant(g0, l0, s, splits) && IsLinked(s.g, e) && !s.has[e] && Critical(s.g, e)
    ensures e < |g0.edges| && e !in splits && IsLinked(g0, e) && e != ExitRoot(g0)
  {
    SourceOf(g0, s.g, splits, ExitRoot(g0));
    assert NodeLists(g0, g0.exit) && ExitRoot(g0) in g0.succs[g0.exit];
    if e >= |g0.edges| {
      var k := e - |g0.edges|;
      OneWayThrough(g0, s.g, splits, k);
      SourceOf(g0, s.g, splits, e);
    }
  }

  /** A critical edge that has been visited has been split. */
  lemma CriticalIsSplit(g0: Graph, l0: Labels, s: Emitter, splits: seq<nat>, e: nat)
    requires Invariant(g0, l0, s, splits) && IsLinked(g0, e) && e < |s.has| && s.has[e] && Critical(g0, e)
    ensures e in splits
  {
    assert EdgeEmitted(s, e);
  }

  /** A new node has one edge in, the split edge, and one edge out, the new edge. */
  lemma OneWayThrough(g0: Graph, g: Graph, splits: seq<nat>, k: nat)
    requires EndsInRange(g0) && RealLists(g) && SplitShape(g0, g, splits) && k < |splits|
    ensures g.succs[g0.nodes + k] == [|g0.edges| + k]
  {
    var n := g0.nodes + k;
    assert NodeLists(g, n);
    assert g.edges[|g0.edges| + k] == SecondHalf(g0.edges[splits[k]], n);
    assert IsLinked(g, |g0.edges| + k) by {
      assert !IsPhony(g, |g0.edges| + k);
    }
    forall e: nat | e in g.succs[n]
      ensures e == |g0.edges| + k
    {
      SourceOf(g0, g, splits, e);
    }
    OnlyMember(g.succs[n], |g0.edges| + k);
  }

  lemma OnlyMember(s: seq<nat>, e: nat)
    requires Distinct(s) && e in s && forall f: nat :: f in s ==> f == e
    ensures s == [e]
  {
    assert s[0] in s && s[|s| - 1] in s;
  }

  lemma SourceOf(g0: Graph, g: Graph, splits: seq<nat>, e: nat)
    requires EndsInRange(g0) && SplitShape(g0, g, splits) && e < |g.edges|
    ensures if e < |g0.edges| then g.edges[e].source == g0.edges[e].source < g0.nodes
            else g.edges[e].source == g0.nodes + (e - |g0.edges|)
  {
    if e >= |g0.edges| {
      var k := e - |g0.edges|;
      assert g.edges[|g0.edges| + k] == SecondHalf(g0.edges[splits[k]], g0.nodes + k);
    } else if e in splits {
      var k :| 0 <= k < |splits| && splits[k] == e;
    }
  }

  // ----- one visit -----

  lemma SplitAtShape(g0: Graph, g: Graph, splits: seq<nat>, e: nat)
    requires EndsInRange(g0) && EndsInRange(g) && SplitShape(g0, g, splits)
    requires e < |g0.edges| && e !in splits
    ensures SplitShape(g0, SplitAt(g, e), splits + [e])
  {
    var h, splits' := SplitAt(g, e), splits + [e];
    forall k | 0 <= k < |splits'|
      ensures h.edges[splits'[k]] == FirstHalf(g0.edges[splits'[k]], g0.nodes + k)
      ensures h.edges[|g0.edges| + k] == SecondHalf(g0.edges[splits'[k]], g0.nodes + k)
    {
      if k < |splits| {
        assert splits'[k] == splits[k] && splits[k] != e;
      }
    }
  }

  /** Splitting `e` leaves other edges their code and their block. */
  lemma SplitKeepsOthers(g: Graph, l: Labels, e: nat, f: nat)
    requires RealLists(g) && IsLinked(g, e) && IsLinked(g, f) && f != e && Labelled(g, l)
    requires CutEdgesLinked(g) && CutEdgesLinked(SplitAt(g, e)) && RealLists(SplitAt(g, e))
    requires HasOwnBlock(g, f)
    ensures IsLinked(SplitAt(g, e), f) && HasOwnBlock(SplitAt(g, e), f)
    ensures ActionOf(SplitAt(g, e), Extended(l), f) == ActionOf(g, l, f)
    ensures PlaceOf(SplitAt(g, e), f) == PlaceOf(g, f)
  {
    assert NodeLists(g, g.edges[e].target);
    assert e in g.preds[g.edges[e].target];
  }

  /** An edge that is not critical has a block of its own. */
  lemma NotCriticalHasBlock(g0: Graph, l0: Labels, s: Emitter, splits: seq<nat>, e: nat)
    requires Invariant(g0, l0, s, splits) && IsLinked(s.g, e) && !s.has[e] && !Critical(s.g, e)
    ensures HasOwnBlock(s.g, e)
  {
    var u, v := s.g.edges[e].source, s.g.edges[e].target;
    assert NodeLists(s.g, u) && NodeLists(s.g, v);
    assert e in s.g.succs[u] && e in s.g.preds[v];
    SourceOf(g0, s.g, splits, e);
    if e >= |g0.edges| {
      OneWayThrough(g0, s.g, splits, e - |g0.edges|);
    } else {
      assert e !in splits;
      assert IsLinked(g0, e);
      if u == g0.exit {
        assert NodeLists(g0, g0.root) && ExitRoot(g0) in g0.preds[g0.root];
      } else if v == g0.exit {
        assert |g0.succs[u]| == 1;
      }
    }
  }

  lemma EmittedAfterSplit(s: Emitter, e: nat)
    requires Emitted(s) && RealLists(s.g) && IsLinked(s.g, e) && !s.has[e] && Critical(s.g, e)
    requires RealLists(SplitAt(s.g, e)) && CutEdgesLinked(SplitAt(s.g, e))
    ensures Emitted(Instrument(s, e))
  {
    var r, h := Instrument(s, e), SplitAt(s.g, e);
    assert h.preds[s.g.nodes] == [e] && h.edges[e].target == s.g.nodes;
    forall f | 0 <= f < |r.has|
      ensures EdgeEmitted(r, f)
    {
      if f < |s.has| {
        assert EdgeEmitted(s, f);
        if s.has[f] {
          SplitKeepsOthers(s.g, s.l, e, f);
        }
      }
    }
  }

  lemma ListsGrowFurther(g0: Graph, g: Graph, e: nat)
    requires EndsInRange(g0) && RealLists(g) && g0.nodes <= g.nodes && ListsGrow(g0, g)
    requires IsLinked(g, e) && RealLists(SplitAt(g, e))
    requires forall n :: 0 <= n < g.nodes ==> |SplitAt(g, e).preds[n]| == |g.preds[n]|
    ensures ListsGrow(g0, SplitAt(g, e))
  {
    assert forall n :: 0 <= n < g.nodes ==> SplitAt(g, e).succs[n] == g.succs[n];
  }

  lemma LabelsExtendFurther(l0: Labels, l: Labels, n0: nat, n: nat)
    requires LabelsExtend(l0, l, n0, n)
    ensures LabelsExtend(l0, Extended(l), n0, n + 1)
  {
  }

  /** The part of the invariant that is about the graph. */
  lemma GraphAfterSplit(g0: Graph, l0: Labels, s: Emitter, splits: seq<nat>, e: nat)
    requires Invariant(g0, l0, s, splits) && IsLinked(s.g, e) && !s.has[e] && Critical(s.g, e)
    ensures var h := SplitAt(s.g, e);
      && SplitShape(g0, h, splits + [e]) && RealLists(h) && g0.nodes <= h.nodes && ListsGrow(g0, h)
      && CutEdgesLinked(h) && e != ExitRoot(g0) && e < |g0.edges| && Critical(g0, e)
  {
    SplitOnce(g0, l0, s, splits, e);
    SplitAtShape(g0, s.g, splits, e);
    SplitAtLists(s.g, e);
    ShapeLinksCuts(g0, l0, SplitAt(s.g, e), splits + [e]);
    ListsGrowFurther(g0, s.g, e);
  }

  lemma SplitsAreVisited(has: seq<bool>, splits: seq<nat>, e: nat)
    requires e < |has| && forall k :: 0 <= k < |splits| ==> splits[k] < |has| && has[splits[k]]
    ensures var has', splits' := has[e := true] + [false], splits + [e];
      forall k :: 0 <= k < |splits'| ==> splits'[k] < |has'| && has'[splits'[k]]
  {
  }

  lemma InstrumentSplit(g0: Graph, l0: Labels, s: Emitter, splits: seq<nat>, e: nat)
    requires Invariant(g0, l0, s, splits) && IsLinked(s.g, e) && !s.has[e] && Critical(s.g, e)
    ensures Invariant(g0, l0, Instrument(s, e), splits + [e])
  {
    GraphAfterSplit(g0, l0, s, splits, e);
    EmittedAfterSplit(s, e);
    LabelsExtendFurther(l0, s.l, |g0.edges|, |s.g.edges|);
    SplitsAreVisited(s.has, splits, e);
  }

  lemma InstrumentUnsplit(g0: Graph, l0: Labels, s: Emitter, splits: seq<nat>, e: nat)
    requires Invariant(g0, l0, s, splits) && IsLinked(s.g, e) && !s.has[e] && !Critical(s.g, e)
    ensures Invariant(g0, l0, Instrument(s, e), splits)
  {
    NotCriticalHasBlock(g0, l0, s, splits, e);
    var r := Instrument(s, e);
    forall f | 0 <= f < |r.has|
      ensures EdgeEmitted(r, f)
    {
      assert EdgeEmitted(s, f);
    }
  }

  // ----- the walk as a whole -----

  /** From `a` to `b` edges were only added, visited or split; visited edges did not change. */
  ghost predicate Grown(a: Emitter, b: Emitter) {
    && a.g.nodes <= b.g.nodes && |a.has| == |a.g.edges| <= |b.has| == |b.g.edges|
    && |a.g.succs| == a.g.nodes && |b.g.succs| == b.g.nodes
    && (forall e :: 0 <= e < |a.has| && a.has[e] ==> b.has[e] && b.g.edges[e] == a.g.edges[e])
    && (forall n :: 0 <= n < a.g.nodes ==> b.g.succs[n] == a.g.succs[n])
  }

  /** Edge `e` has a block of its own, and if it is a cut edge, its phony edges are what the code relies on. */
  ghost predicate CanEmit(s: Emitter, e: nat) {
    && |s.has| == |s.g.edges| && EndsInRange(s.g) && Labelled(s.g, s.l) && CutEdgesLinked(s.g)
    && e < |s.has| && s.has[e] && HasOwnBlock(s.g, e)
    && (IsCut(s.g, e) ==>
          s.l.isInit[s.g.edges[e].phonyRoot.value] && s.l.isCounter[s.g.edges[e].phonyExit.value])
  }

  /** The walk's invariant survives every visit, and the visit finds what it needs. */
  lemma InstrumentKeeps(g0: Graph, l0: Labels, s: Emitter, splits: seq<nat>, e: nat)
    requires Invariant(g0, l0, s, splits) && IsLinked(s.g, e) && !s.has[e]
    ensures Invariant(g0, l0, Instrument(s, e), if Critical(s.g, e) then splits + [e] else splits)
    ensures CanEmit(Instrument(s, e), e)
  {
    var r := Instrument(s, e);
    if Critical(s.g, e) {
      InstrumentSplit(g0, l0, s, splits, e);
    } else {
      InstrumentUnsplit(g0, l0, s, splits, e);
    }
    assert EdgeEmitted(r, e);
    if IsCut(r.g, e) {
      PhonyAssertionsHold(g0, l0, r, if Critical(s.g, e) then splits + [e] else splits, e);
    }
  }

  lemma InstrumentGrows(s: Emitter, e: nat)
    requires Emitted(s) && IsLinked(s.g, e) && !s.has[e]
    ensures Grown(s, Instrument(s, e)) && Instrument(s, e).has[e]
  {
  }

  lemma GrownTransitive(a: Emitter, b: Emitter, c: Emitter)
    requires Grown(a, b) && Grown(b, c)
    ensures Grown(a, c)
  {
  }

  ghost predicate SuccessorsVisited(s: Emitter, e: nat)
    requires EndsInRange(s.g) && e < |s.g.edges|
  {
    var succs := s.g.succs[s.g.edges[e].target];
    forall i :: 0 <= i < |succs| ==> succs[i] < |s.has| && s.has[succs[i]]
  }

  /** Behind every visited edge that is not on the stack, everything has been visited. */
  ghost predicate Closed(s: Emitter, stack: set<nat>)
    requires EndsInRange(s.g) && |s.has| == |s.g.edges|
  {
    forall e {:trigger SuccessorsVisited(s, e)} ::
      0 <= e < |s.has| && s.has[e] && e !in stack ==> SuccessorsVisited(s, e)
  }

  lemma InstrumentClosed(s: Emitter, e: nat, stack: set<nat>)
    requires Emitted(s) && IsLinked(s.g, e) && !s.has[e] && Closed(s, stack)
    requires EndsInRange(Instrument(s, e).g)
    ensures Closed(Instrument(s, e), stack + {e})
  {
    var r := Instrument(s, e);
    InstrumentGrows(s, e);
    forall f | 0 <= f < |r.has| && r.has[f] && f !in stack + {e}
      ensures SuccessorsVisited(r, f)
    {
      assert s.has[f] && SuccessorsVisited(s, f);
    }
  }

  lemma SuccessorIsLinked(a: Emitter, b: Emitter, n: nat, i: nat)
    requires Grown(a, b) && RealLists(b.g) && n < a.g.nodes && i < |a.g.succs[n]|
    ensures IsLinked(b.g, a.g.succs[n][i])
  {
    assert NodeLists(b.g, n);
    assert b.g.succs[n][i] in b.g.succs[n];
  }

  ghost predicate AllVisited(s: Emitter, list: seq<nat>, i: nat) {
    i <= |list| && forall j :: 0 <= j < i ==> list[j] < |s.has| && s.has[list[j]]
  }

  /** The loop over the successors has come to `i`, and goes on after `b` with the next one. */
  lemma VisitedFurther(start: Emitter, a: Emitter, b: Emitter, list: seq<nat>, i: nat)
    requires Grown(start, a) && Grown(a, b) && AllVisited(a, list, i) && i < |list|
    requires list[i] < |b.has| && b.has[list[i]]
    ensures Grown(start, b) && AllVisited(b, list, i + 1)
  {
    GrownTransitive(start, a, b);
  }

  /** Once all successors of `e` have been visited, `e` leaves the stack. */
  lemma CloseStack(a: Emitter, b: Emitter, e: nat, stack: set<nat>)
    requires Grown(a, b) && EndsInRange(a.g) && EndsInRange(b.g) && e < |a.has| && a.has[e]
    requires Closed(b, stack + {e})
    requires var succs := a.g.succs[a.g.edges[e].target]; AllVisited(b, succs, |succs|)
    ensures Closed(b, stack)
  {
    assert SuccessorsVisited(b, e);
  }

  /** An original edge may have to be visited twice, as it may be split; a new edge once. */
  function Todo(has: seq<bool>, n0: nat): nat {
    if has == [] then 0
    else
      var last := |has| - 1;
      Todo(has[..last], n0) + if has[last] then 0 else if last < n0 then 2 else 1
  }

  lemma {:induction false} TodoVisit(has: seq<bool>, n0: nat, e: nat)
    requires e < |has| && !has[e]
    ensures Todo(has[e := true], n0) == Todo(has, n0) - if e < n0 then 2 else 1
  {
    var last := |has| - 1;
    if e == last {
      assert has[e := true][..last] == has[..last];
    } else {
      assert has[e := true][..last] == has[..last][e := true];
      TodoVisit(has[..last], n0, e);
    }
  }

  lemma TodoDecreases(g0: Graph, l0: Labels, s: Emitter, splits: seq<nat>, e: nat)
    requires Invariant(g0, l0, s, splits) && IsLinked(s.g, e) && !s.has[e]
    ensures Todo(Instrument(s, e).has, |g0.edges|) < Todo(s.has, |g0.edges|)
  {
    TodoVisit(s.has, |g0.edges|, e);
    if Critical(s.g, e) {
      SplitOnce(g0, l0, s, splits, e);
      assert (s.has[e := true] + [false])[..|s.has|] == s.has[e := true];
    }
  }

  /** exit->root is not critical, so it still leads to the root. */
  lemma ExitRootStays(g0: Graph, l0: Labels, s: Emitter, splits: seq<nat>)
    requires Invariant(g0, l0, s, splits)
    ensures ExitRoot(g0) < |s.g.edges| && s.g.edges[ExitRoot(g0)].target == g0.root
  {
    var x := ExitRoot(g0);
    assert NodeLists(g0, g0.root) && x in g0.preds[g0.root];
  }

  /** When the walk is over, every edge of every walk from a visited edge has its code. */
  lemma {:induction false} WalkIsVisited(s: Emitter, e: nat, p: seq<nat>, b: nat)
    requires RealLists(s.g) && |s.has| == |s.g.edges| && Closed(s, {})
    requires e < |s.has| && s.has[e] && Walk(s.g, p, s.g.edges[e].target, b)
    requires forall i :: 0 <= i < |p| ==> IsLinked(s.g, p[i])
    ensures AllVisited(s, p, |p|)
    decreases |p|
  {
    if p != [] {
      var n := s.g.edges[e].target;
      assert SuccessorsVisited(s, e) && NodeLists(s.g, n);
      assert p[0] in s.g.succs[n];
      assert forall i :: 0 <= i < |p[1..]| ==> p[1..][i] == p[i + 1];
      WalkIsVisited(s, p[0], p[1..], b);
    }
  }

  // ----- runs of the original and of the split graph -----

  function IndexOf(splits: seq<nat>, e: nat): (k: nat)
    requires e in splits
    ensures k < |splits| && splits[k] == e
  {
    if splits[0] == e then 0 else IndexOf(splits[1..], e) + 1
  }

  /** What has become of edge `e`. */
  function ExpandEdge(n0: nat, splits: seq<nat>, e: nat): seq<nat> {
    if e in splits then [e, n0 + IndexOf(splits, e)] else [e]
  }

  function Expand(n0: nat, splits: seq<nat>, run: seq<nat>): seq<nat> {
    if run == [] then [] else ExpandEdge(n0, splits, run[0]) + Expand(n0, splits, run[1..])
  }

  lemma ExpandEdgeWalk(g0: Graph, g: Graph, splits: seq<nat>, e: nat)
    requires EndsInRange(g0) && SplitShape(g0, g, splits) && IsLinked(g0, e)
    ensures Walk(g, ExpandEdge(|g0.edges|, splits, e), g0.edges[e].source, g0.edges[e].target)
    ensures forall i :: 0 <= i < |ExpandEdge(|g0.edges|, splits, e)| ==>
      IsLinked(g, ExpandEdge(|g0.edges|, splits, e)[i])
  {
    if e in splits {
      var k := IndexOf(splits, e);
      assert g.edges[|g0.edges| + k] == SecondHalf(g0.edges[splits[k]], g0.nodes + k);
      assert Walk(g, [|g0.edges| + k], g0.nodes + k, g0.edges[e].target);
      assert [e, |g0.edges| + k][1..] == [|g0.edges| + k];
    }
  }

  /** A run of the original graph is still there in the split graph. */
  lemma {:induction false} ExpandWalk(g0: Graph, g: Graph, splits: seq<nat>, run: seq<nat>, a: nat, b: nat)
    requires EndsInRange(g0) && SplitShape(g0, g, splits)
    requires Walk(g0, run, a, b) && forall i :: 0 <= i < |run| ==> IsLinked(g0, run[i])
    ensures Walk(g, Expand(|g0.edges|, splits, run), a, b)
    ensures forall i :: 0 <= i < |Expand(|g0.edges|, splits, run)| ==>
      IsLinked(g, Expand(|g0.edges|, splits, run)[i])
    decreases |run|
  {
    if run != [] {
      var e, rest := run[0], run[1..];
      var mid := g0.edges[e].target;
      assert forall i :: 0 <= i < |rest| ==> rest[i] == run[i + 1];
      ExpandEdgeWalk(g0, g, splits, e);
      ExpandWalk(g0, g, splits, rest, mid, b);
      WalkAppend(g, ExpandEdge(|g0.edges|, splits, e), Expand(|g0.edges|, splits, rest), a, mid, b);
    }
  }

  /** If all of what has become of a run has been visited, so have the edges of the run. */
  lemma {:induction false} ExpandVisits(s: Emitter, n0: nat, splits: seq<nat>, run: seq<nat>, i: nat)
    requires AllVisited(s, Expand(n0, splits, run), |Expand(n0, splits, run)|) && i < |run|
    ensures run[i] < |s.has| && s.has[run[i]]
    decreases i
  {
    var p, q := ExpandEdge(n0, splits, run[0]), Expand(n0, splits, run[1..]);
    assert (p + q)[0] == run[0];
    if i > 0 {
      assert forall j :: 0 <= j < |q| ==> (p + q)[|p| + j] == q[j];
      ExpandVisits(s, n0, splits, run[1..], i - 1);
    }
  }

  ghost predicate CutsUnlabelled(g: Graph, l: Labels)
    requires Labelled(g, l)
  {
    forall e :: 0 <= e < |g.edges| && IsCut(g, e) ==> l.increment[e] == 0 && !l.isInit[e] && !l.isCounter[e]
  }

  lemma IdleStep(m: Machine)
    ensures Step(IDLE, m) == m
  {
  }

  /** The code of the two halves: the labels stay on the first, what makes an edge a cut edge goes to the second. */
  lemma SplitActions(g0: Graph, l0: Labels, s: Emitter, splits: seq<nat>, k: nat)
    requires Invariant(g0, l0, s, splits) && k < |splits|
    ensures var e := splits[k];
      var first, second := ActionOf(s.g, s.l, e), ActionOf(s.g, s.l, |g0.edges| + k);
      && first == EdgeAction(l0.isInit[e], l0.increment[e], l0.isCounter[e])
      && second == if IsCut(g0, e) then ActionOf(g0, l0, e) else IDLE
  {
    assert s.g.edges[splits[k]] == FirstHalf(g0.edges[splits[k]], g0.nodes + k);
    assert s.g.edges[|g0.edges| + k] == SecondHalf(g0.edges[splits[k]], g0.nodes + k);
  }

  lemma ExecuteOne(code: seq<Action>, e: nat, m: Machine)
    requires e < |code|
    ensures Execute(code, [e], m) == Step(code[e], m)
  {
    assert [e][1..] == [];
  }

  lemma TwoHalves(code: seq<Action>, e: nat, f: nat, a: Action, m: Machine)
    requires e < |code| && f < |code|
    requires (code[e] == IDLE && code[f] == a) || (code[e] == a && code[f] == IDLE)
    ensures Execute(code, [e, f], m) == Step(a, m)
  {
    assert [e, f][1..] == [f];
    ExecuteOne(code, f, Step(code[e], m));
    IdleStep(m);
    IdleStep(Step(a, m));
  }

  lemma UnsplitAction(g0: Graph, l0: Labels, s: Emitter, splits: seq<nat>, e: nat)
    requires Invariant(g0, l0, s, splits) && IsLinked(g0, e) && e !in splits
    ensures ActionOf(s.g, s.l, e) == ActionOf(g0, l0, e)
  {
  }

  /** Both halves of a split edge together do what the edge would have done. */
  lemma SplitEdgeStep(g0: Graph, l0: Labels, s: Emitter, splits: seq<nat>, k: nat, m: Machine)
    requires Invariant(g0, l0, s, splits) && CutsUnlabelled(g0, l0) && k < |splits|
    requires s.has[splits[k]] && s.has[|g0.edges| + k]
    ensures Execute(s.code, [splits[k], |g0.edges| + k], m) == Step(ActionOf(g0, l0, splits[k]), m)
  {
    assert EdgeEmitted(s, splits[k]) && EdgeEmitted(s, |g0.edges| + k);
    SplitActions(g0, l0, s, splits, k);
    TwoHalves(s.code, splits[k], |g0.edges| + k, ActionOf(g0, l0, splits[k]), m);
  }

  lemma WholeEdgeStep(g0: Graph, l0: Labels, s: Emitter, splits: seq<nat>, e: nat, m: Machine)
    requires Invariant(g0, l0, s, splits) && IsLinked(g0, e) && e !in splits && s.has[e]
    ensures Execute(s.code, [e], m) == Step(ActionOf(g0, l0, e), m)
  {
    assert EdgeEmitted(s, e);
    UnsplitAction(g0, l0, s, splits, e);
    ExecuteOne(s.code, e, m);
  }

  lemma ExpandEdgeStep(g0: Graph, l0: Labels, s: Emitter, splits: seq<nat>, e: nat, m: Machine)
    requires Invariant(g0, l0, s, splits) && CutsUnlabelled(g0, l0) && IsLinked(g0, e)
    requires AllVisited(s, ExpandEdge(|g0.edges|, splits, e), |ExpandEdge(|g0.edges|, splits, e)|)
    ensures InCode(s.code, ExpandEdge(|g0.edges|, splits, e))
    ensures Execute(s.code, ExpandEdge(|g0.edges|, splits, e), m) == Step(ActionOf(g0, l0, e), m)
  {
    var p := ExpandEdge(|g0.edges|, splits, e);
    assert p[0] == e;
    if e in splits {
      assert s.has[p[1]];
      SplitEdgeStep(g0, l0, s, splits, IndexOf(splits, e), m);
    } else {
      WholeEdgeStep(g0, l0, s, splits, e, m);
    }
  }

  /** The emitted code, run on the split graph, does what the labels of the original graph say. */
  lemma {:induction false} ExpandExecute(
    g0: Graph, l0: Labels, s: Emitter, splits: seq<nat>, run: seq<nat>, m: Machine)
    requires Invariant(g0, l0, s, splits) && CutsUnlabelled(g0, l0)
    requires forall i :: 0 <= i < |run| ==> run[i] < |g0.edges| && IsLinked(g0, run[i])
    requires AllVisited(s, Expand(|g0.edges|, splits, run), |Expand(|g0.edges|, splits, run)|)
    ensures InCode(s.code, Expand(|g0.edges|, splits, run)) && InCode(CodeOf(g0, l0), run)
    ensures Execute(s.code, Expand(|g0.edges|, splits, run), m) == Execute(CodeOf(g0, l0), run, m)
    decreases |run|
  {
    if run != [] {
      var e, rest := run[0], run[1..];
      var p, q := ExpandEdge(|g0.edges|, splits, e), Expand(|g0.edges|, splits, rest);
      assert forall i :: 0 <= i < |rest| ==> rest[i] == run[i + 1];
      assert forall i :: 0 <= i < |p| ==> (p + q)[i] == p[i];
      assert forall i :: 0 <= i < |q| ==> (p + q)[|p| + i] == q[i];
      ExpandEdgeStep(g0, l0, s, splits, e, m);
      ExecuteAppend(s.code, p, q, m);
      ExpandExecute(g0, l0, s, splits, rest, Step(ActionOf(g0, l0, e), m));
    }
  }
}
