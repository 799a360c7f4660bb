/**
 All threads of all processes that use the path log, as a transition system: threads
 retire records, finish their buffers, fork, exit and are killed, in any order.
 */
module PathLogSystem {
  import opened Basics
  import opened PathLog

  /** A record with its identity: it is record number `pos` of thread `owner`. */
  datatype Entry = Entry(owner: nat, pos: nat, fn: int, path: int)

  /** A forked thread first runs the fork handler; a thread is over when it or its process has ended. */
  datatype Status = InForkHandler | Running | Over

  datatype Thread = Thread(process: nat, status: Status, buffer: Option<seq<Entry>>, retired: seq<Entry>)

  /** `hooked` are the processes in which `init_process` has run; `out` is all that was ever written, in order. */
  datatype System = System(threads: map<nat, Thread>, hooked: set<nat>, out: seq<Entry>)

  datatype Step =
    | RetireStep(t: nat, fn: int, path: int)
    | CreateStep(t: nat, child: nat)
    | FinishStep(t: nat)
    | EndStep(t: nat)
    | ForkStep(t: nat, child: nat, process: nat)
    | HandlerStep(t: nat)
    | HookStep(t: nat)
    | DieStep(process: nat)

  ghost predicate Initial(s: System) {
    && s.out == []
    && forall t :: t in s.threads ==>
         s.threads[t].status == Running && s.threads[t].buffer == None && s.threads[t].retired == []
  }

  predicate IsRunning(s: System, t: nat) {
    t in s.threads && s.threads[t].status == Running
  }

  predicate NewProcess(s: System, process: nat) {
    process !in s.hooked && forall t :: t in s.threads ==> s.threads[t].process != process
  }

  /** When a step can be taken. */
  predicate Enabled(s: System, a: Step) {
    match a
    case RetireStep(t, _, _) => IsRunning(s, t)
    case CreateStep(t, child) => IsRunning(s, t) && child !in s.threads
    case FinishStep(t) => IsRunning(s, t) && s.threads[t].buffer.Some?
    case EndStep(t) => IsRunning(s, t)
    case ForkStep(t, child, process) => IsRunning(s, t) && child !in s.threads && NewProcess(s, process)
    case HandlerStep(t) => t in s.threads && s.threads[t].status == InForkHandler
    case HookStep(t) => IsRunning(s, t)
    case DieStep(_) => true
  }

  function Flushed(s: System, t: nat): System
    requires t in s.threads
  {
    s.(out := s.out + Held(s.threads[t].buffer), threads := s.threads[t := s.threads[t].(buffer := None)])
  }

  function Apply(s: System, a: Step): System
    requires Enabled(s, a)
  {
    match a
    case RetireStep(t, fn, path) =>
      // ensure_thread_init, then llvm_increment_path_count
      var th := s.threads[t];
      var e := Entry(t, |th.retired|, fn, path);
      var (buffer, chunk) := Retire(th.buffer, e);
      System(s.threads[t := th.(buffer := Some(buffer), retired := th.retired + [e])],
             s.hooked + {th.process}, s.out + chunk)
    case CreateStep(t, child) =>
      s.(threads := s.threads[child := Thread(s.threads[t].process, Running, None, [])])
    case FinishStep(t) =>
      // the thread-specific data destructor
      Flushed(s, t)
    case EndStep(t) =>
      s.(threads := s.threads[t := s.threads[t].(status := Over)])
    case ForkStep(t, child, process) =>
      // the child is a copy of the forking thread, buffer included
      var copy := Thread(process, InForkHandler, s.threads[t].buffer, []);
      s.(threads := s.threads[child := copy],
         hooked := if s.threads[t].process in s.hooked then s.hooked + {process} else s.hooked)
    case HandlerStep(t) =>
      // drop_buffer, if init_process has registered it
      var th := s.threads[t];
      var buffer := if th.process in s.hooked then None else th.buffer;
      s.(threads := s.threads[t := th.(status := Running, buffer := buffer)])
    case HookStep(t) =>
      // finish_main_thread_buffer_hack, in the thread that exits; the process goes on until it dies
      Flushed(s, t)
    case DieStep(process) =>
      // all threads end where they are, and what they hold is lost, also a copy that no handler has dropped
      s.(threads := map u | u in s.threads ::
           if s.threads[u].process != process then s.threads[u]
           else if s.threads[u].status == InForkHandler then s.threads[u].(status := Over, buffer := None)
           else s.threads[u].(status := Over))
  }

  // ----- the invariant -----

  /** What thread `t` has written. */
  function WrittenBy(out: seq<Entry>, t: nat): seq<Entry> {
    if out == [] then []
    else
      var k := |out| - 1;
      WrittenBy(out[..k], t) + if out[k].owner == t then [out[k]] else []
  }

  /** The records of thread `t` are numbered in order. */
  ghost predicate Own(t: nat, es: seq<Entry>) {
    forall i :: 0 <= i < |es| ==> es[i].owner == t && es[i].pos == i
  }

  ghost predicate ThreadOk(s: System, t: nat)
    requires t in s.threads
  {
    var th := s.threads[t];
    && Own(t, th.retired)
    && |Held(th.buffer)| < BUFFER_SIZE
    && (th.buffer.Some? && th.status != Over ==> th.process in s.hooked)
    && if th.status == InForkHandler then th.retired == [] && WrittenBy(s.out, t) == []
       else WrittenBy(s.out, t) + Held(th.buffer) == th.retired
  }

  /** A process that is still in its fork handler has no other thread. */
  ghost predicate AloneInHandler(s: System) {
    forall t, u | t in s.threads && u in s.threads && s.threads[t].status == InForkHandler ::
      s.threads[t].process == s.threads[u].process ==> t == u
  }

  ghost predicate Inv(s: System) {
    && AloneInHandler(s)
    && (forall t {:trigger ThreadOk(s, t)} :: t in s.threads ==> ThreadOk(s, t))
    && (forall i :: 0 <= i < |s.out| ==> s.out[i].owner in s.threads)
  }

  lemma {:induction false} WrittenByAppend(out: seq<Entry>, chunk: seq<Entry>, t: nat)
    ensures WrittenBy(out + chunk, t) == WrittenBy(out, t) + WrittenBy(chunk, t)
    decreases |chunk|
  {
    if chunk == [] {
      assert out + chunk == out;
    } else {
      var k := |chunk| - 1;
      assert (out + chunk)[..|out + chunk| - 1] == out + chunk[..k];
      WrittenByAppend(out, chunk[..k], t);
    }
  }

  lemma {:induction false} WrittenByOne(chunk: seq<Entry>, t: nat, u: nat)
    requires forall i :: 0 <= i < |chunk| ==> chunk[i].owner == t
    ensures WrittenBy(chunk, u) == if u == t then chunk else []
    decreases |chunk|
  {
    if chunk != [] {
      WrittenByOne(chunk[..|chunk| - 1], t, u);
      assert chunk == chunk[..|chunk| - 1] + [chunk[|chunk| - 1]];
    }
  }

  /** Appending a chunk of thread `t` changes what `t` has written, and nothing else. */
  lemma WriteChunk(out: seq<Entry>, chunk: seq<Entry>, t: nat, u: nat)
    requires forall i :: 0 <= i < |chunk| ==> chunk[i].owner == t
    ensures WrittenBy(out + chunk, u) == WrittenBy(out, u) + if u == t then chunk else []
  {
    WrittenByAppend(out, chunk, u);
    WrittenByOne(chunk, t, u);
  }

  /** What a running thread holds is its own. */
  lemma HeldIsOwn(s: System, t: nat)
    requires t in s.threads && ThreadOk(s, t) && s.threads[t].status != InForkHandler
    ensures forall i :: 0 <= i < |Held(s.threads[t].buffer)| ==> Held(s.threads[t].buffer)[i].owner == t
  {
    var w, h := WrittenBy(s.out, t), Held(s.threads[t].buffer);
    assert forall i :: 0 <= i < |h| ==> h[i] == (w + h)[|w| + i];
  }

  lemma {:induction false} OwnersWrote(out: seq<Entry>, t: nat)
    requires forall i :: 0 <= i < |out| ==> out[i].owner != t
    ensures WrittenBy(out, t) == []
    decreases |out|
  {
    if out != [] {
      OwnersWrote(out[..|out| - 1], t);
    }
  }

  lemma FlushKeeps(s: System, t: nat)
    requires Inv(s) && IsRunning(s, t)
    ensures Inv(Flushed(s, t))
  {
    var s' := Flushed(s, t);
    assert ThreadOk(s, t);
    HeldIsOwn(s, t);
    forall u | u in s'.threads
      ensures ThreadOk(s', u)
    {
      assert ThreadOk(s, u);
      WriteChunk(s.out, Held(s.threads[t].buffer), t, u);
    }
  }

  /** The thread that retires a record keeps its books. */
  lemma RetireOne(w: seq<Entry>, held: seq<Entry>, retired: seq<Entry>, chunk: seq<Entry>, buffer: seq<Entry>,
                  t: nat, e: Entry)
    requires w + held == retired && chunk + buffer == held + [e]
    requires Own(t, retired) && e.owner == t && e.pos == |retired|
    ensures (w + chunk) + buffer == retired + [e] && Own(t, retired + [e])
    ensures forall i :: 0 <= i < |chunk| ==> chunk[i].owner == t
  {
    assert (w + chunk) + buffer == w + (chunk + buffer);
    assert w + (held + [e]) == (w + held) + [e];
    forall i | 0 <= i < |chunk|
      ensures chunk[i].owner == t
    {
      assert chunk[i] == (retired + [e])[|w| + i];
    }
  }

  lemma RetireKeeps(s: System, a: Step)
    requires Inv(s) && a.RetireStep? && Enabled(s, a)
    ensures Inv(Apply(s, a))
  {
    var s', t := Apply(s, a), a.t;
    var th := s.threads[t];
    var e := Entry(t, |th.retired|, a.fn, a.path);
    var r := Retire(th.buffer, e);
    assert ThreadOk(s, t);
    RetireOne(WrittenBy(s.out, t), Held(th.buffer), th.retired, r.1, r.0, t, e);
    forall u | u in s'.threads
      ensures ThreadOk(s', u)
    {
      assert ThreadOk(s, u);
      WriteChunk(s.out, r.1, t, u);
    }
  }

  lemma CreateKeeps(s: System, a: Step)
    requires Inv(s) && a.CreateStep? && Enabled(s, a)
    ensures Inv(Apply(s, a))
  {
    var s' := Apply(s, a);
    OwnersWrote(s.out, a.child);
    forall u | u in s'.threads
      ensures ThreadOk(s', u)
    {
      if u != a.child {
        assert ThreadOk(s, u);
      }
    }
  }

  lemma ForkKeeps(s: System, a: Step)
    requires Inv(s) && a.ForkStep? && Enabled(s, a)
    ensures Inv(Apply(s, a))
  {
    var s' := Apply(s, a);
    assert ThreadOk(s, a.t);
    OwnersWrote(s.out, a.child);
    forall u | u in s'.threads
      ensures ThreadOk(s', u)
    {
      if u != a.child {
        assert ThreadOk(s, u);
      }
    }
  }

  lemma OtherKeeps(s: System, a: Step)
    requires Inv(s) && Enabled(s, a) && (a.EndStep? || a.HandlerStep? || a.DieStep?)
    ensures Inv(Apply(s, a))
  {
    var s' := Apply(s, a);
    forall u | u in s'.threads
      ensures ThreadOk(s', u)
    {
      assert ThreadOk(s, u);
    }
  }

  /** Every step keeps the invariant. */
  lemma StepKeeps(s: System, a: Step)
    requires Inv(s) && Enabled(s, a)
    ensures Inv(Apply(s, a))
  {
    match a {
      case RetireStep(_, _, _) => RetireKeeps(s, a);
      case CreateStep(_, _) => CreateKeeps(s, a);
      case FinishStep(t) => FlushKeeps(s, t);
      case EndStep(_) => OtherKeeps(s, a);
      case ForkStep(_, _, _) => ForkKeeps(s, a);
      case HandlerStep(_) => OtherKeeps(s, a);
      case HookStep(t) => FlushKeeps(s, t);
      case DieStep(_) => OtherKeeps(s, a);
    }
  }

  // ----- every run -----

  /** `s` is reached from `s0` by the steps of `steps`, in this order. */
  ghost predicate Reaches(s0: System, steps: seq<Step>, s: System)
    decreases |steps|
  {
    if steps == [] then s0 == s
    else Enabled(s0, steps[0]) && Reaches(Apply(s0, steps[0]), steps[1..], s)
  }

  lemma {:induction false} ReachableInv(s0: System, steps: seq<Step>, s: System)
    requires Inv(s0) && Reaches(s0, steps, s)
    ensures Inv(s)
    decreases |steps|
  {
    if steps != [] {
      StepKeeps(s0, steps[0]);
      ReachableInv(Apply(s0, steps[0]), steps[1..], s);
    }
  }

  lemma InitialInv(s: System)
    requires Initial(s)
    ensures Inv(s)
  {
    forall t | t in s.threads
      ensures ThreadOk(s, t)
    {
    }
  }

  /**
   In every reachable state, what a thread has written is a prefix of what it has retired;
   fewer than a buffer's worth of records are missing, and none once its buffer is finished.
   */
  lemma WrittenIsPrefix(s0: System, steps: seq<Step>, s: System, t: nat)
    requires Initial(s0) && Reaches(s0, steps, s) && t in s.threads
    ensures WrittenBy(s.out, t) <= s.threads[t].retired
    ensures |s.threads[t].retired| - |WrittenBy(s.out, t)| < BUFFER_SIZE
    ensures s.threads[t].buffer.None? ==> WrittenBy(s.out, t) == s.threads[t].retired
    ensures |Held(s.threads[t].buffer)| < BUFFER_SIZE
  {
    InitialInv(s0);
    ReachableInv(s0, steps, s);
    assert ThreadOk(s, t);
  }

  /** A record of `t` at position `i` of the output is one of the records that `t` has written. */
  lemma {:induction false} PositionInWritten(out: seq<Entry>, i: nat) returns (k: nat)
    requires i < |out|
    ensures k < |WrittenBy(out, out[i].owner)| && WrittenBy(out, out[i].owner)[k] == out[i]
    ensures k == |WrittenBy(out[..i], out[i].owner)|
    decreases |out|
  {
    var last := |out| - 1;
    if i == last {
      k := |WrittenBy(out[..last], out[i].owner)|;
    } else {
      k := PositionInWritten(out[..last], i);
      assert out[..last][..i] == out[..i];
    }
  }

  lemma {:induction false} WrittenGrows(out: seq<Entry>, i: nat, j: nat, t: nat)
    requires i < j <= |out| && out[i].owner == t
    ensures |WrittenBy(out[..i], t)| < |WrittenBy(out[..j], t)|
    decreases j
  {
    assert out[..j][..j - 1] == out[..j - 1];
    if i < j - 1 {
      WrittenGrows(out, i, j - 1, t);
    }
  }

  /** No record is ever written twice, whatever is forked when. */
  lemma NothingWrittenTwice(s0: System, steps: seq<Step>, s: System, i: nat, j: nat)
    requires Initial(s0) && Reaches(s0, steps, s) && i < j < |s.out|
    ensures s.out[i] != s.out[j]
  {
    InitialInv(s0);
    ReachableInv(s0, steps, s);
    var t := s.out[i].owner;
    if s.out[j].owner == t {
      assert ThreadOk(s, t);
      var k := PositionInWritten(s.out, i);
      var m := PositionInWritten(s.out, j);
      WrittenGrows(s.out, i, j, t);
      var w := WrittenBy(s.out, t);
      assert w <= s.threads[t].retired;
      assert w[k].pos == k && w[m].pos == m;
    }
  }

  // ----- what the steps alone say -----

  /** What is in a record, without its identity. */
  function Pairs(es: seq<Entry>): seq<(int, int)> {
    seq(|es|, i requires 0 <= i < |es| => (es[i].fn, es[i].path))
  }

  /** The records that thread `t` retires in `steps`, in order. */
  function RetiredIn(steps: seq<Step>, t: nat): seq<(int, int)> {
    if steps == [] then []
    else
      var first := steps[0];
      (if first.RetireStep? && first.t == t then [(first.fn, first.path)] else []) + RetiredIn(steps[1..], t)
  }

  /** The step ends with the buffer of thread `t` finished. */
  predicate Finishes(a: Step, t: nat) {
    a == FinishStep(t) || a == HookStep(t)
  }

  /** A thread whose buffer is finished has written all it has retired, and has no buffer. */
  lemma FinishWritesAll(s: System, a: Step, t: nat)
    requires Inv(s) && Enabled(s, a) && Finishes(a, t)
    ensures var s' := Apply(s, a);
      && t in s'.threads && s'.threads[t].buffer == None && s'.threads[t].retired == s.threads[t].retired
      && WrittenBy(s'.out, t) == s.threads[t].retired
  {
    assert ThreadOk(s, t);
    HeldIsOwn(s, t);
    WriteChunk(s.out, Held(s.threads[t].buffer), t, t);
  }

  function PairsOf(s: System, t: nat): seq<(int, int)> {
    if t in s.threads then Pairs(s.threads[t].retired) else []
  }

  lemma PairsAfterStep(s: System, a: Step, t: nat)
    requires Enabled(s, a)
    ensures PairsOf(Apply(s, a), t)
         == PairsOf(s, t) + if a.RetireStep? && a.t == t then [(a.fn, a.path)] else []
    ensures t in s.threads ==> t in Apply(s, a).threads
    ensures s.out <= Apply(s, a).out
  {
  }

  /** What a thread has retired is what its steps say, and nothing else. */
  lemma {:induction false} RetiredIsInSteps(s0: System, steps: seq<Step>, s: System, t: nat)
    requires Reaches(s0, steps, s)
    ensures PairsOf(s, t) == PairsOf(s0, t) + RetiredIn(steps, t)
    ensures t in s0.threads ==> t in s.threads
    ensures s0.out <= s.out
    decreases |steps|
  {
    if steps != [] {
      var m := Apply(s0, steps[0]);
      PairsAfterStep(s0, steps[0], t);
      RetiredIsInSteps(m, steps[1..], s, t);
      RetiredFirst(steps, t, PairsOf(s0, t), PairsOf(m, t));
    }
  }

  lemma RetiredFirst(steps: seq<Step>, t: nat, before: seq<(int, int)>, after: seq<(int, int)>)
    requires steps != []
    requires var a := steps[0]; after == before + if a.RetireStep? && a.t == t then [(a.fn, a.path)] else []
    ensures after + RetiredIn(steps[1..], t) == before + RetiredIn(steps, t)
  {
  }

  lemma PairsOfPrefix(w: seq<Entry>, es: seq<Entry>)
    requires w <= es
    ensures Pairs(w) <= Pairs(es)
  {
  }

  /** The written stream of a thread, read off the steps: a prefix of what they retire, fewer than 32 records short. */
  lemma WrittenIsInSteps(s0: System, steps: seq<Step>, s: System, t: nat)
    requires Initial(s0) && Reaches(s0, steps, s)
    ensures Pairs(WrittenBy(s.out, t)) <= RetiredIn(steps, t)
    ensures |RetiredIn(steps, t)| - |WrittenBy(s.out, t)| < 32
  {
    RetiredIsInSteps(s0, steps, s, t);
    InitialInv(s0);
    ReachableInv(s0, steps, s);
    if t in s.threads {
      WrittenIsPrefix(s0, steps, s, t);
      PairsOfPrefix(WrittenBy(s.out, t), s.threads[t].retired);
    } else {
      OwnersWrote(s.out, t);
    }
  }

  lemma {:induction false} ReachesSplit(s0: System, a: seq<Step>, b: seq<Step>, s: System) returns (m: System)
    requires Reaches(s0, a + b, s)
    ensures Reaches(s0, a, m) && Reaches(m, b, s)
    decreases |a|
  {
    if a == [] {
      assert a + b == b;
      m := s0;
    } else {
      assert (a + b)[1..] == a[1..] + b;
      m := ReachesSplit(Apply(s0, a[0]), a[1..], b, s);
    }
  }

  lemma {:induction false} RetiredInBoth(a: seq<Step>, b: seq<Step>, t: nat)
    ensures RetiredIn(a + b, t) == RetiredIn(a, t) + RetiredIn(b, t)
    decreases |a|
  {
    if a == [] {
      assert a + b == b;
    } else {
      assert (a + b)[1..] == a[1..] + b;
      RetiredInBoth(a[1..], b, t);
    }
  }

  lemma WrittenGrowsWith(out: seq<Entry>, out': seq<Entry>, t: nat)
    requires out <= out'
    ensures WrittenBy(out, t) <= WrittenBy(out', t)
  {
    WrittenByAppend(out, out'[|out|..], t);
    assert out' == out + out'[|out|..];
  }

  /**
   Once the buffer of a thread has been finished, and until it retires another record, all
   that its steps retired has been written, whatever else happens: forks, deaths, other threads.
   */
  lemma FinishedIsWritten(s0: System, a: seq<Step>, finish: Step, b: seq<Step>, s: System, t: nat)
    requires Initial(s0) && Reaches(s0, a + [finish] + b, s) && Finishes(finish, t)
    requires RetiredIn(b, t) == []
    ensures Pairs(WrittenBy(s.out, t)) == RetiredIn(a + [finish] + b, t)
  {
    var m := ReachesSplit(s0, a + [finish], b, s);
    var k := ReachesSplit(s0, a, [finish], m);
    assert [finish][1..] == [] && m == Apply(k, finish);
    InitialInv(s0);
    ReachableInv(s0, a, k);
    FinishWritesAll(k, finish, t);
    RetiredIsInSteps(s0, a + [finish], m, t);
    RetiredIsInSteps(m, b, s, t);
    WrittenGrowsWith(m.out, s.out, t);
    RetiredInBoth(a + [finish], b, t);
    WrittenIsInSteps(s0, a + [finish] + b, s, t);
  }

  // ----- ends -----

  lemma OverAfterStep(s: System, a: Step, t: nat)
    requires Enabled(s, a) && t in s.threads
    ensures t in Apply(s, a).threads
    ensures s.threads[t].status == Over ==> Apply(s, a).threads[t] == s.threads[t]
    ensures a == EndStep(t) || a == DieStep(s.threads[t].process) ==> Apply(s, a).threads[t].status == Over
    ensures Apply(s, a).threads[t].process == s.threads[t].process
  {
  }

  /** A thread that has ended, or whose process has died, takes no further step. */
  lemma {:induction false} OverIsForever(s0: System, steps: seq<Step>, s: System, t: nat, i: nat)
    requires Reaches(s0, steps, s) && t in s0.threads && s0.threads[t].status == Over && i < |steps|
    ensures t in s.threads && s.threads[t] == s0.threads[t] && RetiredIn(steps, t) == []
    ensures !Finishes(steps[i], t) && steps[i] != EndStep(t) && steps[i] != HandlerStep(t)
    ensures !(steps[i].CreateStep? && steps[i].t == t) && !(steps[i].ForkStep? && steps[i].t == t)
    decreases |steps|
  {
    OverAfterStep(s0, steps[0], t);
    if |steps| > 1 {
      OverIsForever(Apply(s0, steps[0]), steps[1..], s, t, if i == 0 then 0 else i - 1);
    }
  }

  // ----- starts -----

  /** A running thread can retire, finish its buffer, run the exit hook and end. */
  lemma RunningThreadGoesOn(s: System, t: nat, fn: int, path: int)
    requires IsRunning(s, t)
    ensures Enabled(s, RetireStep(t, fn, path)) && Enabled(s, HookStep(t)) && Enabled(s, EndStep(t))
    ensures Enabled(Apply(s, RetireStep(t, fn, path)), FinishStep(t))
    ensures IsRunning(Apply(s, RetireStep(t, fn, path)), t) && IsRunning(Apply(s, HookStep(t)), t)
  {
  }

  /** A forked child runs the handler and starts with nothing to write; nothing changes for its parent. */
  lemma ForkedChildStartsClean(s: System, t: nat, child: nat, process: nat)
    requires Inv(s) && IsRunning(s, t) && child !in s.threads && NewProcess(s, process)
    ensures Enabled(s, ForkStep(t, child, process))
    ensures Enabled(Apply(s, ForkStep(t, child, process)), HandlerStep(child))
    ensures var s' := Apply(Apply(s, ForkStep(t, child, process)), HandlerStep(child));
      && IsRunning(s', child) && s'.threads[child] == Thread(process, Running, None, [])
      && s'.threads[t] == s.threads[t] && s'.out == s.out
  {
    assert ThreadOk(s, t);
  }

  lemma CreatedThreadStartsClean(s: System, t: nat, child: nat)
    requires IsRunning(s, t) && child !in s.threads
    ensures Enabled(s, CreateStep(t, child))
    ensures var s' := Apply(s, CreateStep(t, child));
      && s'.threads[child] == Thread(s.threads[t].process, Running, None, [])
      && s'.threads[t] == s.threads[t] && s'.out == s.out
  {
  }
}
