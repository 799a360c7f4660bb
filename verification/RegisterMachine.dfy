/**
 The code that the instrumentation puts on edges, and what it does when it runs.
 The path register is 32 bits wide; `None` is the NULL value of a node that has no
 path number yet.  Using a missing path number is `Stuck`.
 */
module RegisterMachine {
  import opened Basics
  import opened Graphs

  datatype Action =
    | EdgeAction(isInit: bool, increment: int, isCounter: bool)
    | CutAction(bottom: int, top: int, topIsCounter: bool)

  datatype Machine =
    | Machine(reg: Option<int>, log: seq<int>)
    | Stuck

  const START := Machine(None, [])

  function Add(reg: Option<int>, increment: int, log: seq<int>): Machine {
    match reg
    case None => Stuck
    case Some(v) => Machine(Some((v + increment) % WORD), log)
  }

  function Count(m: Machine): Machine {
    match m
    case Machine(Some(v), log) => Machine(None, log + [v])
    case _ => Stuck
  }

  function Step(a: Action, m: Machine): Machine {
    if m.Stuck? then Stuck else
    match a
    case EdgeAction(isInit, increment, isCounter) =>
      var m1 :=
        if isInit then Machine(Some(increment % WORD), m.log)
        else if increment != 0 then Add(m.reg, increment, m.log)
        else m;
      if isCounter then Count(m1) else m1
    case CutAction(bottom, top, topIsCounter) =>
      var started := if m.reg.None? then Some(0) else m.reg;
      var m1 := if bottom != 0 then Add(started, bottom, m.log) else Machine(started, m.log);
      var m2 := Count(m1);
      var m3 := Machine(Some(top % WORD), m2.log);
      if topIsCounter then Count(m3) else m3
  }

  /** The register is a 32-bit word: an addition drops the carry, and a negative increment borrows. */
  lemma RegisterAdds(v: int, increment: int, log: seq<int>)
    requires 0 <= v < 0x1_0000_0000 && -0x1_0000_0000 < increment < 0x1_0000_0000
    ensures var sum := v + increment;
      Step(EdgeAction(false, increment, false), Machine(Some(v), log))
      == Machine(Some(if sum < 0 then sum + 0x1_0000_0000 else if sum < 0x1_0000_0000 then sum
                      else sum - 0x1_0000_0000), log)
  {
  }

  predicate InCode(code: seq<Action>, p: seq<nat>) {
    forall i :: 0 <= i < |p| ==> p[i] < |code|
  }

  /** Runs the code of the edges of `p`, in order. */
  function Execute(code: seq<Action>, p: seq<nat>, m: Machine): Machine
    requires InCode(code, p)
  {
    if p == [] then m else Execute(code, p[1..], Step(code[p[0]], m))
  }

  lemma {:induction false} ExecuteAppend(code: seq<Action>, p: seq<nat>, q: seq<nat>, m: Machine)
    requires InCode(code, p) && InCode(code, q)
    ensures Execute(code, p + q, m) == Execute(code, q, Execute(code, p, m))
  {
    if p == [] {
      assert p + q == q;
    } else {
      assert (p + q)[1..] == p[1..] + q;
      ExecuteAppend(code, p[1..], q, Step(code[p[0]], m));
    }
  }

  lemma ExecuteLast(code: seq<Action>, q: seq<nat>, e: nat, m: Machine)
    requires InCode(code, q) && e < |code|
    ensures InCode(code, q + [e])
    ensures Execute(code, q + [e], m) == Step(code[e], Execute(code, q, m))
  {
    ExecuteAppend(code, q, [e], m);
  }

  /** The machine with `log` written before its own log. */
  function After(log: seq<int>, m: Machine): Machine {
    if m.Stuck? then Stuck else Machine(m.reg, log + m.log)
  }

  lemma StepAfter(a: Action, log: seq<int>, m: Machine)
    ensures Step(a, After(log, m)) == After(log, Step(a, m))
  {
    if m.Machine? {
      assert forall v: int :: log + (m.log + [v]) == (log + m.log) + [v];
      assert forall v: int, w: int :: log + (m.log + [v] + [w]) == (log + m.log) + [v] + [w];
    }
  }

  /** No action reads the log: what was logged before only stays in front. */
  lemma {:induction false} ExecuteAfter(code: seq<Action>, p: seq<nat>, log: seq<int>, m: Machine)
    requires InCode(code, p)
    ensures Execute(code, p, After(log, m)) == After(log, Execute(code, p, m))
  {
    if p != [] {
      StepAfter(code[p[0]], log, m);
      ExecuteAfter(code, p[1..], log, Step(code[p[0]], m));
    }
  }

  // ----- the code of a labelled graph -----

  datatype Labels = Labels(increment: seq<int>, isInit: seq<bool>, isCounter: seq<bool>)

  ghost predicate Labelled(g: Graph, l: Labels) {
    |l.increment| == |l.isInit| == |l.isCounter| == |g.edges|
  }

  /** Every cut edge knows its two phony edges. */
  ghost predicate CutEdgesLinked(g: Graph) {
    forall e :: 0 <= e < |g.edges| && IsCut(g, e) ==>
      && g.edges[e].phonyRoot.Some? && g.edges[e].phonyRoot.value < |g.edges|
      && g.edges[e].phonyExit.Some? && g.edges[e].phonyExit.value < |g.edges|
  }

  /** What edge instrumentation emits for edge `e`. */
  function ActionOf(g: Graph, l: Labels, e: nat): Action
    requires Labelled(g, l) && CutEdgesLinked(g) && e < |g.edges|
  {
    if IsCut(g, e) then
      var top, bottom := g.edges[e].phonyRoot.value, g.edges[e].phonyExit.value;
      CutAction(l.increment[bottom], l.increment[top], l.isCounter[top])
    else
      EdgeAction(l.isInit[e], l.increment[e], l.isCounter[e])
  }

  function CodeOf(g: Graph, l: Labels): (code: seq<Action>)
    requires Labelled(g, l) && CutEdgesLinked(g)
  {
    seq(|g.edges|, (e: nat) requires e < |g.edges| => ActionOf(g, l, e))
  }
}
