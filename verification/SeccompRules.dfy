/**
 The seccomp rule macros as a compiler: a list of rules becomes a classic BPF program.
 Running the program gives the verdict of the first rule that matches.
 */
module SeccompRules {
  import opened Basics

  const NR_SOCKETCALL: nat := 102
  const SYS_RECV: nat := 10
  const SYS_ACCEPT: nat := 5

  // ----- the machine -----

  /** `struct seccomp_data`. */
  datatype Data = Data(nr: nat, arch: nat, ip: nat, args: seq<nat>)

  datatype Instr =
    | LdAbs(offset: nat)
    | Jeq(k: nat, jt: nat, jf: nat)
    | Ret(k: nat)

  /** The 32-bit word at an offset of the data, low word first. */
  function LoadWord(d: Data, offset: nat): Option<nat> {
    if offset == 0 then Some(d.nr % WORD)
    else if offset == 4 then Some(d.arch % WORD)
    else if offset == 8 then Some(d.ip % WORD)
    else if offset == 12 then Some(d.ip / WORD % WORD)
    else if offset >= 16 && (offset - 16) / 8 < |d.args| && offset % 4 == 0 then
      var a := d.args[(offset - 16) / 8];
      Some(if offset % 8 == 0 then a % WORD else a / WORD % WORD)
    else None
  }

  /** Runs the program from `pc` on; `None` if it leaves the program or the data. */
  function Run(prog: seq<Instr>, pc: nat, acc: nat, d: Data): Option<nat>
    decreases |prog| - pc
  {
    if pc >= |prog| then None
    else match prog[pc]
      case LdAbs(offset) =>
        (match LoadWord(d, offset)
         case None => None
         case Some(w) => Run(prog, pc + 1, w, d))
      case Jeq(k, jt, jf) => Run(prog, pc + 1 + if acc == k then jt else jf, acc, d)
      case Ret(k) => Some(k)
  }

  // ----- the rules -----

  datatype Verdict = Kill | Trace | Allow

  function Code(v: Verdict): nat {
    match v
    case Kill => 0x0000_0000
    case Trace => 0x7ff0_0000
    case Allow => 0x7fff_0000
  }

  datatype Rule =
    | ExamineSyscall
    | OnSyscall(nr: nat, verdict: Verdict)
    | AllowSocketcall
    | AllowFromCallsite(callsite: nat)
    | OnProcess(verdict: Verdict)

  function Compile(r: Rule): seq<Instr> {
    match r
    case ExamineSyscall => [LdAbs(0)]
    case OnSyscall(nr, v) => [Jeq(nr, 0, 1), Ret(Code(v))]
    case AllowSocketcall =>
      [Jeq(NR_SOCKETCALL, 0, 5), LdAbs(16), Jeq(SYS_RECV, 2, 0), Jeq(SYS_ACCEPT, 1, 0),
       Ret(Code(Allow)), Ret(Code(Trace))]
    case AllowFromCallsite(callsite) => [LdAbs(8), Jeq(callsite % WORD, 0, 1), Ret(Code(Allow))]
    case OnProcess(v) => [Ret(Code(v))]
  }

  function CompileAll(rules: seq<Rule>): seq<Instr> {
    if rules == [] then [] else Compile(rules[0]) + CompileAll(rules[1..])
  }

  // ----- what the rules mean -----

  /** What the accumulator holds. */
  datatype Holds = Nothing | SyscallNr | Callsite

  function Value(h: Holds, d: Data): nat {
    match h
    case Nothing => 0
    case SyscallNr => d.nr % WORD
    case Callsite => d.ip % WORD
  }

  /** A rule either decides or leaves something in the accumulator. */
  datatype Outcome = Decided(verdict: Verdict) | Undecided(holds: Holds)

  function Apply(r: Rule, h: Holds, d: Data): Outcome
    requires |d.args| == 6
  {
    match r
    case ExamineSyscall => Undecided(SyscallNr)
    case OnSyscall(nr, v) => if Value(h, d) == nr then Decided(v) else Undecided(h)
    case AllowSocketcall =>
      if Value(h, d) != NR_SOCKETCALL then Undecided(h)
      else if d.args[0] % WORD == SYS_RECV || d.args[0] % WORD == SYS_ACCEPT then Decided(Trace)
      else Decided(Allow)
    case AllowFromCallsite(callsite) =>
      if d.ip % WORD == callsite % WORD then Decided(Allow) else Undecided(Callsite)
    case OnProcess(v) => Decided(v)
  }

  /** The first rule that decides. */
  function Decide(rules: seq<Rule>, h: Holds, d: Data): Option<Verdict>
    requires |d.args| == 6
  {
    if rules == [] then None
    else match Apply(rules[0], h, d)
      case Decided(v) => Some(v)
      case Undecided(h') => Decide(rules[1..], h', d)
  }

  // ----- the compiler is right -----

  /** The code of rule `r` starts at `pc`. */
  ghost predicate CodeAt(prog: seq<Instr>, pc: nat, r: Rule) {
    pc + |Compile(r)| <= |prog| && prog[pc..pc + |Compile(r)|] == Compile(r)
  }

  /** A verdict as the number that the filter returns. */
  function Returned(v: Option<Verdict>): Option<nat> {
    match v
    case None => None
    case Some(v) => Some(Code(v))
  }

  /** What happens after a rule whose code ends at `pc`. */
  function Continue(prog: seq<Instr>, pc: nat, o: Outcome, d: Data): Option<nat> {
    match o
    case Decided(v) => Some(Code(v))
    case Undecided(h) => Run(prog, pc, Value(h, d), d)
  }

  lemma InstrAt(prog: seq<Instr>, pc: nat, r: Rule, i: nat)
    requires CodeAt(prog, pc, r) && i < |Compile(r)|
    ensures prog[pc + i] == Compile(r)[i]
  {
    assert prog[pc + i] == prog[pc..pc + |Compile(r)|][i];
  }

  lemma RunSocketcall(prog: seq<Instr>, pc: nat, h: Holds, d: Data)
    requires |d.args| == 6 && CodeAt(prog, pc, AllowSocketcall)
    ensures Run(prog, pc, Value(h, d), d) == Continue(prog, pc + 6, Apply(AllowSocketcall, h, d), d)
  {
    InstrAt(prog, pc, AllowSocketcall, 0);
    InstrAt(prog, pc, AllowSocketcall, 1);
    InstrAt(prog, pc, AllowSocketcall, 2);
    InstrAt(prog, pc, AllowSocketcall, 3);
    InstrAt(prog, pc, AllowSocketcall, 4);
    InstrAt(prog, pc, AllowSocketcall, 5);
    var a := d.args[0] % WORD;
    assert LoadWord(d, 16) == Some(a);
    assert Run(prog, pc + 5, a, d) == Some(Code(Trace));
    assert Run(prog, pc + 4, a, d) == Some(Code(Allow));
    assert Run(prog, pc + 3, a, d) == Some(Code(if a == SYS_ACCEPT then Trace else Allow));
    assert Run(prog, pc + 2, a, d) == Some(Code(if a == SYS_RECV || a == SYS_ACCEPT then Trace else Allow));
  }

  /** Running the code of one rule does what the rule means. */
  lemma RunRule(prog: seq<Instr>, pc: nat, r: Rule, h: Holds, d: Data)
    requires |d.args| == 6 && CodeAt(prog, pc, r)
    ensures Run(prog, pc, Value(h, d), d) == Continue(prog, pc + |Compile(r)|, Apply(r, h, d), d)
  {
    InstrAt(prog, pc, r, 0);
    match r {
      case ExamineSyscall =>
      case OnSyscall(nr, v) =>
        InstrAt(prog, pc, r, 1);
        assert Run(prog, pc + 1, Value(h, d), d) == Some(Code(v));
      case AllowSocketcall => RunSocketcall(prog, pc, h, d);
      case AllowFromCallsite(callsite) =>
        InstrAt(prog, pc, r, 1);
        InstrAt(prog, pc, r, 2);
        assert Run(prog, pc + 2, d.ip % WORD, d) == Some(Code(Allow));
      case OnProcess(v) =>
    }
  }

  lemma Layout(before: seq<Instr>, rules: seq<Rule>)
    requires rules != []
    ensures CodeAt(before + CompileAll(rules), |before|, rules[0])
    ensures before + CompileAll(rules) == (before + Compile(rules[0])) + CompileAll(rules[1..])
  {
    var first, rest := Compile(rules[0]), CompileAll(rules[1..]);
    assert CompileAll(rules) == first + rest;
    MiddleOf(before, first, rest);
  }

  lemma MiddleOf(a: seq<Instr>, b: seq<Instr>, c: seq<Instr>)
    ensures a + (b + c) == (a + b) + c && (a + (b + c))[|a|..|a| + |b|] == b
  {
  }

  lemma {:induction false} RunFrom(before: seq<Instr>, rules: seq<Rule>, h: Holds, d: Data)
    requires |d.args| == 6
    ensures Run(before + CompileAll(rules), |before|, Value(h, d), d) == Returned(Decide(rules, h, d))
    decreases |rules|
  {
    if rules != [] {
      var r := rules[0];
      Layout(before, rules);
      RunRule(before + CompileAll(rules), |before|, r, h, d);
      var o := Apply(r, h, d);
      if o.Undecided? {
        RunFrom(before + Compile(r), rules[1..], o.holds, d);
      }
    }
  }

  /** The compiled filter gives the verdict of the first rule that decides. */
  lemma FilterIsDecisionList(rules: seq<Rule>, d: Data)
    requires |d.args| == 6
    ensures Run(CompileAll(rules), 0, 0, d) == Returned(Decide(rules, Nothing, d))
    ensures Run(CompileAll(rules), 0, 0, d) == None <==> Decide(rules, Nothing, d) == None
    ensures Run(CompileAll(rules), 0, 0, d) == Some(0x0000_0000) <==> Decide(rules, Nothing, d) == Some(Kill)
    ensures Run(CompileAll(rules), 0, 0, d) == Some(0x7ff0_0000) <==> Decide(rules, Nothing, d) == Some(Trace)
    ensures Run(CompileAll(rules), 0, 0, d) == Some(0x7fff_0000) <==> Decide(rules, Nothing, d) == Some(Allow)
  {
    assert CompileAll(rules) == [] + CompileAll(rules);
    RunFrom([], rules, Nothing, d);
  }

  lemma {:induction false} LastRuleDecides(rules: seq<Rule>, h: Holds, d: Data)
    requires |d.args| == 6 && rules != [] && rules[|rules| - 1].OnProcess?
    ensures Decide(rules, h, d).Some?
    decreases |rules|
  {
    if |rules| > 1 && Apply(rules[0], h, d).Undecided? {
      LastRuleDecides(rules[1..], Apply(rules[0], h, d).holds, d);
    }
  }

  /** A filter that ends in a rule for the whole process always returns a verdict: it never runs off its end. */
  lemma FilterAlwaysReturns(rules: seq<Rule>, d: Data)
    requires |d.args| == 6 && rules != [] && rules[|rules| - 1].OnProcess?
    ensures exists v :: Run(CompileAll(rules), 0, 0, d) == Some(Code(v))
  {
    FilterIsDecisionList(rules, d);
    LastRuleDecides(rules, Nothing, d);
  }

  // ----- the rules in numbers -----

  /** What a rule about one system call makes of a call, in the numbers of the kernel. */
  lemma SyscallRuleInNumbers(nr: nat, v: Verdict, d: Data)
    requires |d.args| == 6
    ensures Run(CompileAll([ExamineSyscall, OnSyscall(nr, v), OnProcess(Trace)]), 0, 0, d)
         == Some(if d.nr % 0x1_0000_0000 != nr || v == Trace then 0x7ff0_0000 else if v == Kill then 0 else 0x7fff_0000)
  {
    var rules := [ExamineSyscall, OnSyscall(nr, v), OnProcess(Trace)];
    var r1 := rules[1..];
    var r2 := r1[1..];
    assert r1[0] == OnSyscall(nr, v) && r2[0] == OnProcess(Trace);
    assert Decide(r2, SyscallNr, d) == Some(Trace);
    assert Decide(r1, SyscallNr, d) == Some(if d.nr % WORD == nr then v else Trace);
    FilterIsDecisionList(rules, d);
  }

  /** The socket call, number 102, is traced for operations 10 and 5, receive and accept, and allowed for all others. */
  lemma SocketcallRuleInNumbers(d: Data)
    requires |d.args| == 6
    ensures Run(CompileAll([ExamineSyscall, AllowSocketcall, OnProcess(Kill)]), 0, 0, d)
         == Some(if d.nr % 0x1_0000_0000 != 102 then 0
                 else if d.args[0] % 0x1_0000_0000 == 10 || d.args[0] % 0x1_0000_0000 == 5 then 0x7ff0_0000
                 else 0x7fff_0000)
  {
    var rules := [ExamineSyscall, AllowSocketcall, OnProcess(Kill)];
    var r1 := rules[1..];
    var r2 := r1[1..];
    assert r1[0] == AllowSocketcall && r2[0] == OnProcess(Kill);
    assert Decide(r2, SyscallNr, d) == Some(Kill);
    FilterIsDecisionList(rules, d);
  }

  // ----- what a syscall rule compares -----

  /** Every rule about system calls comes when the accumulator holds the system call number. */
  predicate Examined(rules: seq<Rule>, h: Holds) {
    if rules == [] then true
    else match rules[0]
      case ExamineSyscall => Examined(rules[1..], SyscallNr)
      case AllowFromCallsite(_) => Examined(rules[1..], Callsite)
      case OnProcess(_) => true
      case _ => h == SyscallNr && Examined(rules[1..], h)
  }

  /** The rules as a reader takes them: a rule about a system call is about the call being made. */
  function Intended(rules: seq<Rule>, d: Data): Option<Verdict>
    requires |d.args| == 6
  {
    if rules == [] then None
    else match rules[0]
      case ExamineSyscall => Intended(rules[1..], d)
      case OnSyscall(nr, v) => if d.nr % WORD == nr then Some(v) else Intended(rules[1..], d)
      case AllowSocketcall =>
        if d.nr % WORD != NR_SOCKETCALL then Intended(rules[1..], d)
        else Some(if d.args[0] % WORD == SYS_RECV || d.args[0] % WORD == SYS_ACCEPT then Trace else Allow)
      case AllowFromCallsite(callsite) =>
        if d.ip % WORD == callsite % WORD then Some(Allow) else Intended(rules[1..], d)
      case OnProcess(v) => Some(v)
  }

  lemma {:induction false} ExaminedMeansIntended(rules: seq<Rule>, h: Holds, d: Data)
    requires |d.args| == 6 && Examined(rules, h)
    ensures Decide(rules, h, d) == Intended(rules, d)
    decreases |rules|
  {
    if rules != [] {
      match Apply(rules[0], h, d) {
        case Decided(_) =>
        case Undecided(h') => ExaminedMeansIntended(rules[1..], h', d);
      }
    }
  }

  /** A system call rule is about the call being made exactly when the accumulator holds its number. */
  lemma SyscallRuleReads(h: Holds, nr: nat)
    requires nr < WORD
    ensures (forall d: Data :: Value(h, d) == nr <==> d.nr % WORD == nr) <==> h == SyscallNr
  {
    var other := if nr == 0 then 1 else 0;
    var d := Data(nr, 0, other, []);
    var d' := Data(other, 0, nr, []);
    assert d.nr % WORD == nr && d'.nr % WORD == other;
    assert Value(Callsite, d) == other && Value(Nothing, d') == 0 && Value(Nothing, d) == 0;
  }

  /** Without a second examination after a callsite rule, a system call rule compares the address. */
  lemma NotExaminedDiffers()
    ensures var rules := [ExamineSyscall, AllowFromCallsite(7), OnSyscall(3, Kill), OnProcess(Allow)];
      var d := Data(3, 0, 8, [0, 0, 0, 0, 0, 0]);
      && !Examined(rules, Nothing)
      && Intended(rules, d) == Some(Kill) && Run(CompileAll(rules), 0, 0, d) == Some(Code(Allow))
  {
    var rules := [ExamineSyscall, AllowFromCallsite(7), OnSyscall(3, Kill), OnProcess(Allow)];
    var r1 := rules[1..];
    var r2 := r1[1..];
    var r3 := r2[1..];
    assert r1[0] == AllowFromCallsite(7) && r2[0] == OnSyscall(3, Kill) && r3[0] == OnProcess(Allow);
    FilterIsDecisionList(rules, Data(3, 0, 8, [0, 0, 0, 0, 0, 0]));
  }

  /** The system call number that a rule is about. */
  function AboutCall(r: Rule): Option<nat> {
    match r
    case OnSyscall(nr, _) => Some(nr)
    case AllowSocketcall => Some(NR_SOCKETCALL)
    case _ => None
  }

  /** The accumulator and the system call number disagree on whether rule `r` is about this call. */
  predicate Misread(r: Rule, h: Holds, d: Data) {
    AboutCall(r).Some? && (Value(h, d) == AboutCall(r).value) != (d.nr % WORD == AboutCall(r).value)
  }

  /**
   When a filter does to call `d` what its rules say.  Up to the first misread rule it
   does.  If that rule takes the call for its own, the rules after it must give the
   same verdict on the call as it does; if it misses its call, they must make up for it.
   */
  ghost predicate Agrees(rules: seq<Rule>, h: Holds, d: Data)
    requires |d.args| == 6
  {
    if rules == [] then true
    else if Misread(rules[0], h, d) then
      match Apply(rules[0], h, d)
      case Decided(v) => Intended(rules[1..], d) == Some(v)
      case Undecided(h') => Decide(rules[1..], h', d) == Some(Apply(rules[0], SyscallNr, d).verdict)
    else
      match Apply(rules[0], h, d)
      case Decided(_) => true
      case Undecided(h') => Agrees(rules[1..], h', d)
  }

  lemma {:induction false} AgreesFrom(rules: seq<Rule>, h: Holds, d: Data)
    requires |d.args| == 6
    ensures Decide(rules, h, d) == Intended(rules, d) <==> Agrees(rules, h, d)
    decreases |rules|
  {
    if rules != [] && !Misread(rules[0], h, d) && Apply(rules[0], h, d).Undecided? {
      AgreesFrom(rules[1..], Apply(rules[0], h, d).holds, d);
    }
  }

  /** A filter and its rules, as a reader takes them, give a call the same verdict exactly when they agree on it. */
  lemma FilterDoesAsIntended(rules: seq<Rule>, d: Data)
    requires |d.args| == 6
    ensures Run(CompileAll(rules), 0, 0, d) == Returned(Intended(rules, d)) <==> Agrees(rules, Nothing, d)
  {
    FilterIsDecisionList(rules, d);
    AgreesFrom(rules, Nothing, d);
  }

  // ----- a filter can be checked with finitely many calls -----

  /** The words that a rule compares with. */
  function Named(r: Rule): set<nat> {
    match r
    case OnSyscall(nr, _) => {nr}
    case AllowSocketcall => {NR_SOCKETCALL}
    case AllowFromCallsite(callsite) => {callsite % WORD}
    case _ => {}
  }

  function AllNamed(rules: seq<Rule>): set<nat> {
    if rules == [] then {} else Named(rules[0]) + AllNamed(rules[1..])
  }

  predicate Blocks(d: Data)
    requires |d.args| == 6
  {
    d.args[0] % WORD == SYS_RECV || d.args[0] % WORD == SYS_ACCEPT
  }

  /** No comparison with one of `words` tells the two calls apart. */
  ghost predicate Alike(d: Data, d': Data, words: set<nat>)
    requires |d.args| == |d'.args| == 6
  {
    && Blocks(d) == Blocks(d')
    && forall w :: w in words ==> (d.nr % WORD == w <==> d'.nr % WORD == w) && (d.ip % WORD == w <==> d'.ip % WORD == w)
  }

  lemma {:induction false} AlikeSameVerdict(rules: seq<Rule>, h: Holds, d: Data, d': Data, words: set<nat>)
    requires |d.args| == |d'.args| == 6 && AllNamed(rules) <= words && Alike(d, d', words)
    ensures Decide(rules, h, d) == Decide(rules, h, d') && Intended(rules, d) == Intended(rules, d')
    decreases |rules|
  {
    if rules != [] {
      assert Named(rules[0]) <= words && AllNamed(rules[1..]) <= words;
      assert forall w :: w in Named(rules[0]) ==> w in words;
      var o, o' := Apply(rules[0], h, d), Apply(rules[0], h, d');
      assert o == o';
      AlikeSameVerdict(rules[1..], if o.Undecided? then o.holds else h, d, d', words);
    }
  }

  /** The least number from `n` on that is not in `words`. */
  function Fresh(words: set<nat>, n: nat): (f: nat)
    ensures n <= f && f !in words && forall m :: n <= m < f ==> m in words
    decreases |set m | m in words && m >= n|
  {
    if n !in words then n
    else
      assert (set m | m in words && m >= n) == (set m | m in words && m >= n + 1) + {n};
      Fresh(words, n + 1)
  }

  /** A word for `w` in the test calls: itself if a rule names it, and otherwise one that no rule names. */
  function Stand(words: set<nat>, w: nat): nat {
    if w in words then w else Fresh(words, 0)
  }

  function TestCall(nr: nat, ip: nat, blocks: bool): Data {
    Data(nr, 0, ip, [if blocks then SYS_RECV else 0, 0, 0, 0, 0, 0])
  }

  lemma StandIsAlike(words: set<nat>, w: nat, v: nat)
    requires w < WORD && v in words
    ensures Stand(words, w) % WORD == v <==> w == v
  {
    if w !in words {
      assert Fresh(words, 0) <= w;
    }
  }

  /** The filter does to the test calls what its rules say. */
  predicate PassesTests(rules: seq<Rule>) {
    var words := AllNamed(rules);
    var values := words + {Fresh(words, 0)};
    forall nr, ip, blocks | nr in values && ip in values && blocks in {false, true} ::
      var d := TestCall(nr, ip, blocks);
      Run(CompileAll(rules), 0, 0, d) == Returned(Intended(rules, d))
  }

  /** If a filter passes the tests, it does to every call what its rules say; and if not, it does not. */
  lemma TestsSuffice(rules: seq<Rule>)
    ensures PassesTests(rules) <==>
      forall d: Data | |d.args| == 6 :: Run(CompileAll(rules), 0, 0, d) == Returned(Intended(rules, d))
  {
    var words := AllNamed(rules);
    if PassesTests(rules) {
      forall d: Data | |d.args| == 6
        ensures Run(CompileAll(rules), 0, 0, d) == Returned(Intended(rules, d))
      {
        var t := TestCall(Stand(words, d.nr % WORD), Stand(words, d.ip % WORD), Blocks(d));
        forall w | w in words
          ensures (d.nr % WORD == w <==> t.nr % WORD == w) && (d.ip % WORD == w <==> t.ip % WORD == w)
        {
          StandIsAlike(words, d.nr % WORD, w);
          StandIsAlike(words, d.ip % WORD, w);
        }
        AlikeSameVerdict(rules, Nothing, d, t, words);
        FilterIsDecisionList(rules, d);
        FilterIsDecisionList(rules, t);
      }
    }
  }

  // ----- what a callsite rule compares -----

  /** The callsite rule looks at the low word of the instruction pointer, and at nothing else. */
  lemma CallsiteIsLowWord(callsite: nat, d: Data)
    requires |d.args| == 6
    ensures Run(CompileAll([AllowFromCallsite(callsite), OnProcess(Trace)]), 0, 0, d)
         == Some(if d.ip % 0x1_0000_0000 == callsite % 0x1_0000_0000 then 0x7fff_0000 else 0x7ff0_0000)
  {
    var rules := [AllowFromCallsite(callsite), OnProcess(Trace)];
    FilterIsDecisionList(rules, d);
    assert rules[1..] == [OnProcess(Trace)];
  }

  /** So it allows the callsite and, with 64-bit addresses, every address a multiple of 2^32 further on. */
  lemma CallsiteHasTwins(callsite: nat, k: nat, d: Data)
    requires |d.args| == 6 && d.ip == callsite + k * WORD
    ensures Run(CompileAll([AllowFromCallsite(callsite), OnProcess(Trace)]), 0, 0, d) == Some(Code(Allow))
  {
    CallsiteIsLowWord(callsite, d);
    SameLowWord(callsite, k);
  }

  lemma {:induction false} SameLowWord(a: nat, k: nat)
    ensures (a + k * WORD) % WORD == a % WORD
  {
    if k > 0 {
      SameLowWord(a, k - 1);
      assert a + k * WORD == (a + (k - 1) * WORD) + WORD;
    }
  }

  /**
   Among the addresses below `bound` the rule means one address, and not a range of
   them, exactly when it is written with a 32-bit address and its next twin is out of bounds.
   */
  lemma CallsiteIsOneAddress(callsite: nat, bound: nat)
    requires callsite < bound
    ensures (forall d: Data | |d.args| == 6 && d.ip < bound ::
              Run(CompileAll([AllowFromCallsite(callsite), OnProcess(Trace)]), 0, 0, d)
              == Some(Code(if d.ip == callsite then Allow else Trace)))
       <==> callsite < WORD && bound <= callsite + WORD
  {
    var filter := CompileAll([AllowFromCallsite(callsite), OnProcess(Trace)]);
    forall d: Data | |d.args| == 6
      ensures Run(filter, 0, 0, d) == Some(Code(if d.ip % WORD == callsite % WORD then Allow else Trace))
    {
      CallsiteIsLowWord(callsite, d);
    }
    var twin := if callsite < WORD then callsite + WORD else callsite % WORD;
    if callsite >= WORD || bound > callsite + WORD {
      var d := Data(0, 0, twin, [0, 0, 0, 0, 0, 0]);
      assert d.ip % WORD == callsite % WORD && d.ip != callsite && |d.args| == 6;
      assert Run(filter, 0, 0, d) == Some(Code(Allow));
    }
  }
}
