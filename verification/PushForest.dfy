/**
 Both push recursions run over a forest of edges: what one edge holds is handed to its
 children, then the edge itself is cleared.  This module follows such a recursion from
 edge to edge; `InitForest` and `CounterForest` in `PushTrees` are its two instances.
 */
module PushForest {
  import opened Basics

  /**
   `up` is the parent of an edge.  The recursion reaches the edges in `member`, and it
   passes through those in `inner` and stops at the others.
   */
  datatype Forest = Forest(up: seq<Option<nat>>, member: seq<bool>, inner: seq<bool>, height: seq<nat>)

  ghost predicate IsForest(t: Forest) {
    && |t.up| == |t.member| == |t.inner| == |t.height|
    && (forall f :: 0 <= f < |t.up| && t.up[f].Some? ==>
          && t.member[f] && t.up[f].value < |t.up|
          && t.member[t.up[f].value] && t.inner[t.up[f].value]
          && t.height[t.up[f].value] < t.height[f])
  }

  /** What an edge holds when everything above it has been handed down. */
  function Load(t: Forest, inc0: seq<int>, f: nat): int
    requires IsForest(t) && |inc0| == |t.up| && f < |t.up|
    decreases t.height[f]
  {
    inc0[f] + match t.up[f] case None => 0 case Some(u) => Load(t, inc0, u)
  }

  function Settled(t: Forest, inc0: seq<int>, f: nat): int
    requires IsForest(t) && |inc0| == |t.up| && f < |t.up|
  {
    if !t.member[f] then inc0[f] else if t.inner[f] then 0 else Load(t, inc0, f)
  }

  predicate SettledMark(t: Forest, f: nat)
    requires IsForest(t) && f < |t.up|
  {
    t.member[f] && !t.inner[f]
  }

  predicate Below(t: Forest, f: nat, e: nat)
    requires IsForest(t)
    decreases if f < |t.up| then t.height[f] else 0
  {
    f < |t.up| && (f == e || (t.up[f].Some? && Below(t, t.up[f].value, e)))
  }

  lemma {:induction false} BelowTransitive(t: Forest, f: nat, s: nat, e: nat)
    requires IsForest(t) && Below(t, f, s) && Below(t, s, e)
    ensures Below(t, f, e)
    decreases t.height[f]
  {
    if f != s {
      BelowTransitive(t, t.up[f].value, s, e);
    }
  }

  /** The child of `e` through which `f` is below `e`. */
  function Toward(t: Forest, f: nat, e: nat): (s: nat)
    requires IsForest(t) && Below(t, f, e) && f != e
    ensures s < |t.up| && t.up[s] == Some(e) && Below(t, f, s)
    decreases t.height[f]
  {
    if t.up[f] == Some(e) then f else Toward(t, t.up[f].value, e)
  }

  lemma {:induction false} BelowHeight(t: Forest, f: nat, e: nat)
    requires IsForest(t) && Below(t, f, e)
    ensures e < |t.up| && t.height[e] <= t.height[f]
    decreases t.height[f]
  {
    if f != e {
      BelowHeight(t, t.up[f].value, e);
    }
  }

  /** What lies below two different children of one edge is disjoint. */
  lemma {:induction false} BelowOneChild(t: Forest, f: nat, a: nat, b: nat)
    requires IsForest(t) && Below(t, f, a) && Below(t, f, b) && a < |t.up| && b < |t.up|
    requires t.up[a].Some? && t.up[a] == t.up[b]
    ensures a == b
    decreases t.height[f]
  {
    if f == a && f != b {
      BelowHeight(t, t.up[f].value, b);
      assert false;
    } else if f == b && f != a {
      BelowHeight(t, t.up[f].value, a);
      assert false;
    } else if f != a {
      BelowOneChild(t, t.up[f].value, a, b);
    }
  }

  lemma BelowChild(t: Forest, f: nat, s: nat, e: nat)
    requires IsForest(t) && s < |t.up| && t.up[s] == Some(e) && Below(t, f, s)
    ensures Below(t, f, e) && f != e
  {
    assert Below(t, s, e);
    BelowTransitive(t, f, s, e);
    if f == e {
      BelowHeight(t, e, s);
    }
  }

  // ----- states of the recursion -----

  ghost predicate Columns(t: Forest, inc0: seq<int>, inc: seq<int>, mark: seq<bool>) {
    IsForest(t) && |inc0| == |inc| == |mark| == |t.up|
  }

  ghost predicate Untouched(t: Forest, inc0: seq<int>, inc: seq<int>, mark: seq<bool>, e: nat)
    requires Columns(t, inc0, inc, mark)
  {
    forall f :: 0 <= f < |t.up| && Below(t, f, e) ==> inc[f] == inc0[f] && !mark[f]
  }

  /** `e` is marked and holds its load; below it nothing has happened. */
  ghost predicate Loaded(t: Forest, inc0: seq<int>, inc: seq<int>, mark: seq<bool>, e: nat)
    requires Columns(t, inc0, inc, mark)
  {
    && e < |t.up| && t.member[e] && inc[e] == Load(t, inc0, e) && mark[e]
    && forall f :: 0 <= f < |t.up| && Below(t, f, e) && f != e ==> inc[f] == inc0[f] && !mark[f]
  }

  ghost predicate Done(t: Forest, inc0: seq<int>, inc: seq<int>, mark: seq<bool>, e: nat)
    requires Columns(t, inc0, inc, mark)
  {
    forall f :: 0 <= f < |t.up| && Below(t, f, e) ==>
      inc[f] == Settled(t, inc0, f) && mark[f] == SettledMark(t, f)
  }

  ghost predicate SameElsewhere(
    t: Forest, inc: seq<int>, mark: seq<bool>, inc': seq<int>, mark': seq<bool>, e: nat)
    requires Columns(t, inc, inc', mark) && |mark'| == |mark|
  {
    forall f :: 0 <= f < |t.up| && !Below(t, f, e) ==> inc'[f] == inc[f] && mark'[f] == mark[f]
  }

  /** All children of `e` are in the list `s`, each once. */
  ghost predicate ListsChildren(t: Forest, e: nat, s: seq<nat>)
    requires IsForest(t)
  {
    && e < |t.up| && t.member[e] && t.inner[e] && Distinct(s)
    && (forall j :: 0 <= j < |s| ==> s[j] < |t.up|)
    && (forall f :: 0 <= f < |t.up| && t.up[f] == Some(e) ==> f in s)
  }

  /** In the loop over the children of `e`, in the list `s`: the first `i` are done. */
  ghost predicate InLoop(
    t: Forest, inc0: seq<int>, inc: seq<int>, mark: seq<bool>, e: nat, s: seq<nat>, i: nat)
    requires Columns(t, inc0, inc, mark)
  {
    && ListsChildren(t, e, s) && i <= |s|
    && inc[e] == Load(t, inc0, e) && mark[e]
    && (forall j :: 0 <= j < i && t.up[s[j]] == Some(e) ==> Done(t, inc0, inc, mark, s[j]))
    && (forall j :: i <= j < |s| && t.up[s[j]] == Some(e) ==> Untouched(t, inc0, inc, mark, s[j]))
  }

  /** A recursion that stops at `e` has nothing to do. */
  lemma StopIsDone(t: Forest, inc0: seq<int>, inc: seq<int>, mark: seq<bool>, e: nat)
    requires Columns(t, inc0, inc, mark) && Loaded(t, inc0, inc, mark, e) && !t.inner[e]
    ensures Done(t, inc0, inc, mark, e)
  {
    forall f | 0 <= f < |t.up| && Below(t, f, e)
      ensures f == e
    {
      if f != e {
        var s := Toward(t, f, e);
        assert false;
      }
    }
  }

  lemma LoopStart(t: Forest, inc0: seq<int>, inc: seq<int>, mark: seq<bool>, e: nat, s: seq<nat>)
    requires Columns(t, inc0, inc, mark) && Loaded(t, inc0, inc, mark, e) && ListsChildren(t, e, s)
    ensures InLoop(t, inc0, inc, mark, e, s, 0)
  {
    forall j | 0 <= j < |s| && t.up[s[j]] == Some(e)
      ensures Untouched(t, inc0, inc, mark, s[j])
    {
      forall f | 0 <= f < |t.up| && Below(t, f, s[j])
        ensures inc[f] == inc0[f] && !mark[f]
      {
        BelowChild(t, f, s[j], e);
      }
    }
  }

  /** Marking a child and adding what `e` holds loads the child. */
  lemma LoadChild(t: Forest, inc0: seq<int>, inc: seq<int>, mark: seq<bool>, e: nat, s: seq<nat>, i: nat)
    requires Columns(t, inc0, inc, mark) && InLoop(t, inc0, inc, mark, e, s, i)
    requires i < |s| && t.up[s[i]] == Some(e)
    ensures Loaded(t, inc0, inc[s[i] := inc[s[i]] + inc[e]], mark[s[i] := true], s[i])
  {
    assert Untouched(t, inc0, inc, mark, s[i]);
    assert Below(t, s[i], s[i]);
  }

  /** The recursion on child `i` takes the loop one step further. */
  lemma LoopStep(
    t: Forest, inc0: seq<int>, inc: seq<int>, mark: seq<bool>, inc': seq<int>, mark': seq<bool>,
    e: nat, s: seq<nat>, i: nat)
    requires Columns(t, inc0, inc, mark) && Columns(t, inc0, inc', mark')
    requires InLoop(t, inc0, inc, mark, e, s, i) && i < |s| && t.up[s[i]] == Some(e)
    requires Done(t, inc0, inc', mark', s[i]) && SameElsewhere(t, inc, mark, inc', mark', s[i])
    ensures InLoop(t, inc0, inc', mark', e, s, i + 1)
  {
    if Below(t, e, s[i]) {
      BelowChild(t, e, s[i], e);
    }
    forall j, f | 0 <= j < |s| && j != i && t.up[s[j]] == Some(e) && 0 <= f < |t.up| && Below(t, f, s[j])
      ensures inc'[f] == inc[f] && mark'[f] == mark[f]
    {
      if Below(t, f, s[i]) {
        BelowOneChild(t, f, s[i], s[j]);
      }
    }
    forall j | 0 <= j < i && t.up[s[j]] == Some(e)
      ensures Done(t, inc0, inc', mark', s[j])
    {
      assert Done(t, inc0, inc, mark, s[j]);
    }
    forall j | i < j < |s| && t.up[s[j]] == Some(e)
      ensures Untouched(t, inc0, inc', mark', s[j])
    {
      assert Untouched(t, inc0, inc, mark, s[j]);
    }
  }

  lemma SameFromLoaded(
    t: Forest, inc: seq<int>, mark: seq<bool>, inc': seq<int>, mark': seq<bool>, s: nat, load: int)
    requires Columns(t, inc, inc', mark) && |mark'| == |mark| && s < |t.up|
    requires SameElsewhere(t, inc[s := load], mark[s := true], inc', mark', s)
    ensures SameElsewhere(t, inc, mark, inc', mark', s)
  {
    assert Below(t, s, s);
  }

  lemma SameFurther(
    t: Forest, inc: seq<int>, mark: seq<bool>, inc': seq<int>, mark': seq<bool>,
    inc'': seq<int>, mark'': seq<bool>, e: nat, s: nat)
    requires Columns(t, inc, inc', mark) && Columns(t, inc', inc'', mark') && |mark''| == |mark|
    requires s < |t.up| && t.up[s] == Some(e)
    requires SameElsewhere(t, inc, mark, inc', mark', e)
    requires SameElsewhere(t, inc', mark', inc'', mark'', s)
    ensures SameElsewhere(t, inc, mark, inc'', mark'', e)
  {
    forall f | 0 <= f < |t.up| && Below(t, f, s)
      ensures Below(t, f, e)
    {
      BelowChild(t, f, s, e);
    }
  }

  /** When all children are done, clearing `e` completes the recursion. */
  lemma LoopEnd(t: Forest, inc0: seq<int>, inc: seq<int>, mark: seq<bool>, e: nat, s: seq<nat>)
    requires Columns(t, inc0, inc, mark) && InLoop(t, inc0, inc, mark, e, s, |s|)
    ensures Done(t, inc0, inc[e := 0], mark[e := false], e)
  {
    forall f | 0 <= f < |t.up| && Below(t, f, e) && f != e
      ensures inc[f] == Settled(t, inc0, f) && mark[f] == SettledMark(t, f)
    {
      var c := Toward(t, f, e);
      var j :| 0 <= j < |s| && s[j] == c;
      assert Done(t, inc0, inc, mark, s[j]);
    }
  }

  /** Everything the loop has done: child `i` is next, and nothing outside of `e` has changed. */
  ghost predicate LoopState(
    t: Forest, inc0: seq<int>, inc: seq<int>, mark: seq<bool>, inc': seq<int>, mark': seq<bool>,
    e: nat, s: seq<nat>, i: nat)
  {
    && Columns(t, inc0, inc, mark) && Columns(t, inc0, inc', mark')
    && InLoop(t, inc0, inc', mark', e, s, i)
    && SameElsewhere(t, inc, mark, inc', mark', e)
  }

  lemma SkipNonChild(
    t: Forest, inc0: seq<int>, inc: seq<int>, mark: seq<bool>, inc': seq<int>, mark': seq<bool>,
    e: nat, s: seq<nat>, i: nat)
    requires LoopState(t, inc0, inc, mark, inc', mark', e, s, i) && i < |s| && t.up[s[i]] != Some(e)
    ensures LoopState(t, inc0, inc, mark, inc', mark', e, s, i + 1)
  {
  }

  lemma AfterChild(
    t: Forest, inc0: seq<int>, inc: seq<int>, mark: seq<bool>, inc': seq<int>, mark': seq<bool>,
    inc'': seq<int>, mark'': seq<bool>, e: nat, s: seq<nat>, i: nat)
    requires LoopState(t, inc0, inc, mark, inc', mark', e, s, i) && i < |s| && t.up[s[i]] == Some(e)
    requires Columns(t, inc0, inc'', mark'') && Done(t, inc0, inc'', mark'', s[i])
    requires SameElsewhere(t, inc'[s[i] := inc'[s[i]] + inc'[e]], mark'[s[i] := true], inc'', mark'', s[i])
    ensures LoopState(t, inc0, inc, mark, inc'', mark'', e, s, i + 1)
  {
    SameFromLoaded(t, inc', mark', inc'', mark'', s[i], inc'[s[i]] + inc'[e]);
    LoopStep(t, inc0, inc', mark', inc'', mark'', e, s, i);
    SameFurther(t, inc, mark, inc', mark', inc'', mark'', e, s[i]);
  }

  lemma AfterLoop(
    t: Forest, inc0: seq<int>, inc: seq<int>, mark: seq<bool>, inc': seq<int>, mark': seq<bool>,
    e: nat, s: seq<nat>)
    requires LoopState(t, inc0, inc, mark, inc', mark', e, s, |s|)
    ensures Done(t, inc0, inc'[e := 0], mark'[e := false], e)
    ensures SameElsewhere(t, inc, mark, inc'[e := 0], mark'[e := false], e)
  {
    LoopEnd(t, inc0, inc', mark', e, s);
    assert Below(t, e, e);
  }
}
