/**
 The patch over `__kernel_vsyscall`: eight bytes that jump to a trampoline, which calls
 a hook with the system call's number and arguments and then puts everything back.
 */
module VsyscallHook {
  import opened Basics

  // ----- the patched bytes -----

  /** push %eax; mov $0, %eax; jmp *%eax */
  const TEMPLATE: seq<int> := [0x50, 0xb8, 0x00, 0x00, 0x00, 0x00, 0xff, 0xe0]

  function LittleEndian(a: int): seq<int> {
    [a % 256, a / 256 % 256, a / 65536 % 256, a / 16777216 % 256]
  }

  function FromLittleEndian(b: seq<int>): int
    requires |b| == 4
  {
    b[0] + 256 * b[1] + 65536 * b[2] + 16777216 * b[3]
  }

  lemma LittleEndianRoundTrip(a: int)
    requires 0 <= a < WORD
    ensures FromLittleEndian(LittleEndian(a)) == a
  {
    assert a == 16777216 * (a / 16777216) + a % 16777216;
    assert a / 65536 == 256 * (a / 16777216) + a / 65536 % 256;
    assert a / 256 == 256 * (a / 65536) + a / 256 % 256;
  }

  datatype Insn = PushEax | MovEax(imm: int) | JmpEax

  /** The instruction at `pc`, and its length. */
  function Decode(code: seq<int>, pc: nat): Option<(Insn, nat)> {
    if pc >= |code| then None
    else if code[pc] == 0x50 then Some((PushEax, 1))
    else if code[pc] == 0xb8 && pc + 5 <= |code| then Some((MovEax(FromLittleEndian(code[pc + 1..pc + 5])), 5))
    else if code[pc] == 0xff && pc + 2 <= |code| && code[pc + 1] == 0xe0 then Some((JmpEax, 2))
    else None
  }

  function Patch(trampoline: int): seq<int> {
    TEMPLATE[..2] + LittleEndian(trampoline) + TEMPLATE[6..]
  }

  /** The eight bytes of the patch: the opcodes, and the address with its lowest byte first. */
  ghost predicate IsPatch(bytes: seq<int>, trampoline: int) {
    && |bytes| == 8 && (forall i :: 0 <= i < 8 ==> 0 <= bytes[i] < 256)
    && bytes[0] == 0x50 && bytes[1] == 0xb8 && bytes[6] == 0xff && bytes[7] == 0xe0
    && bytes[2] + 256 * bytes[3] + 65536 * bytes[4] + 16777216 * bytes[5] == trampoline
  }

  lemma PatchBytes(trampoline: int)
    requires 0 <= trampoline < WORD
    ensures IsPatch(Patch(trampoline), trampoline)
  {
    LittleEndianRoundTrip(trampoline);
    var p, a := Patch(trampoline), LittleEndian(trampoline);
    assert p[2] == a[0] && p[3] == a[1] && p[4] == a[2] && p[5] == a[3];
  }

  /** Whatever the code was, the patch decodes to push, mov of the trampoline's address, and jmp. */
  lemma PatchDecodes(before: seq<int>, after: seq<int>, trampoline: int)
    requires 0 <= trampoline < WORD
    ensures var code, at := before + Patch(trampoline) + after, |before|;
      && Decode(code, at) == Some((PushEax, 1))
      && Decode(code, at + 1) == Some((MovEax(trampoline), 5))
      && Decode(code, at + 6) == Some((JmpEax, 2))
  {
    var code, at, p := before + Patch(trampoline) + after, |before|, Patch(trampoline);
    assert forall i :: 0 <= i < 8 ==> code[at + i] == p[i];
    assert code[at] == 0x50 && code[at + 1] == 0xb8 && code[at + 6] == 0xff && code[at + 7] == 0xe0;
    assert code[at + 2..at + 6] == LittleEndian(trampoline);
    LittleEndianRoundTrip(trampoline);
  }

  /** Overwrites the code at `at` with the template, its address filled in. */
  method MonkeyPatch(code: array<int>, at: nat, trampoline: int)
    requires at + 8 <= code.Length
    modifies code
    ensures code[..] == old(code[..at]) + Patch(trampoline) + old(code[at + 8..])
    ensures 0 <= trampoline < 0x1_0000_0000 ==> IsPatch(code[at..at + 8], trampoline)
  {
    var t := TEMPLATE;
    assert FromLittleEndian(t[2..6]) == 0;
    t := t[..2] + LittleEndian(trampoline) + t[6..];
    for i := 0 to |t|
      invariant code[..at] == old(code[..at]) && code[at + 8..] == old(code[at + 8..])
      invariant code[at..at + i] == t[..i]
    {
      code[at + i] := t[i];
    }
    assert code[..] == code[..at] + code[at..at + 8] + code[at + 8..];
    if 0 <= trampoline < WORD {
      PatchBytes(trampoline);
      assert code[at..at + 8] == Patch(trampoline);
    }
  }

  // ----- the machine -----

  /** A system call as the kernel sees it. */
  datatype Syscall = Syscall(no: int, args: seq<int>)

  class Cpu {
    var eax: int
    var ebx: int
    var ecx: int
    var edx: int
    var esi: int
    var edi: int
    var ebp: int
    var esp: int
    var eip: int
    var mem: map<int, int>
    /** The system calls made so far. */
    var syscalls: seq<Syscall>
    /** The structs the hook has been handed so far. */
    ghost var handed: seq<Syscall>

    method Push(v: int)
      modifies this`esp, this`mem
      ensures esp == old(esp) - 4 && mem == old(mem)[esp := v]
    {
      esp := esp - 4;
      mem := mem[esp := v];
    }

    method Pop() returns (v: int)
      requires esp in mem
      modifies this`esp
      ensures esp == old(esp) + 4 && v == mem[old(esp)]
    {
      v := mem[esp];
      esp := esp + 4;
    }

    /** Runs the patched bytes at `eip` up to and including the jump. */
    method RunPatch(code: seq<int>, trampoline: int)
      requires eip >= 0
      requires Decode(code, eip) == Some((PushEax, 1))
      requires Decode(code, eip + 1) == Some((MovEax(trampoline), 5))
      requires Decode(code, eip + 6) == Some((JmpEax, 2))
      modifies this`esp, this`mem, this`eax, this`eip
      ensures eip == trampoline && esp == old(esp) - 4 && mem == old(mem)[esp := old(eax)]
    {
      var jumped := false;
      ghost var steps := 3;
      while !jumped
        invariant steps == 3 ==> eip == old(eip) && esp == old(esp) && mem == old(mem) && eax == old(eax)
        invariant steps == 2 ==> eip == old(eip) + 1 && esp == old(esp) - 4 && mem == old(mem)[esp := old(eax)]
        invariant steps == 1 ==>
          eip == old(eip) + 6 && esp == old(esp) - 4 && mem == old(mem)[esp := old(eax)] && eax == trampoline
        invariant steps == 0 ==> eip == trampoline && esp == old(esp) - 4 && mem == old(mem)[esp := old(eax)]
        invariant 0 <= steps <= 3 && (jumped <==> steps == 0)
        decreases steps
      {
        var insn, len := Decode(code, eip).value.0, Decode(code, eip).value.1;
        match insn {
          case PushEax =>
            Push(eax);
            eip := eip + len;
          case MovEax(imm) =>
            eax, eip := imm, eip + len;
          case JmpEax =>
            eip, jumped := eax, true;
        }
        steps := steps - 1;
      }
    }

    /** Pushes the registers so that a `struct syscall_info` lies at the stack pointer. */
    method PushInfo()
      modifies this`esp, this`mem
      ensures esp == old(esp) - 28
      ensures InfoAt(mem, esp, Syscall(eax, [ebx, ecx, edx, esi, edi, ebp]))
      ensures mem[esp] == eax && mem[esp + 4] == ebx && mem[esp + 8] == ecx && mem[esp + 12] == edx
      ensures mem[esp + 16] == esi && mem[esp + 20] == edi && mem[esp + 24] == ebp
      ensures SameAbove(old(mem), mem, old(esp))
    {
      Push(ebp);
      Push(edi);
      Push(esi);
      Push(edx);
      Push(ecx);
      Push(ebx);
      Push(eax);
    }

    /** Pops the registers of the struct back, in reverse order; the number has been skipped. */
    method PopArgs(ghost info: int, ghost call: Syscall)
      requires InfoAt(mem, info, call) && esp == info + 4
      modifies this`esp, this`ebx, this`ecx, this`edx, this`esi, this`edi, this`ebp
      ensures esp == info + 28
      ensures [ebx, ecx, edx, esi, edi, ebp] == call.args
    {
      ebx := Pop();
      ecx := Pop();
      edx := Pop();
      esi := Pop();
      edi := Pop();
      ebp := Pop();
    }

    /**
     `vsyscall_hook`, which is at address `hook`, called with a pointer to the struct.  `result` is what the kernel
     returns.  A compiled C function keeps %ebx, %esi, %edi and %ebp; it may leave
     anything (`ecx'`, `edx'`, `scratch`) in %ecx, %edx and in memory below its caller's frame.
     */
    method VsyscallHook(
      hook: int, result: int, ecx': int, edx': int, scratch: map<int, int>, ghost call: Syscall)
      requires eip == hook && esp in mem && esp + 4 in mem && InfoAt(mem, mem[esp + 4], call)
      modifies this`eax, this`ecx, this`edx, this`esp, this`eip, this`mem, this`syscalls, this`handed
      ensures syscalls == old(syscalls) + [Syscall(call.no, call.args[..5])] && eax == result
      ensures var info, m := old(mem)[old(esp) + 4], old(mem);
        syscalls == old(syscalls)
          + [Syscall(m[info], [m[info + 4], m[info + 8], m[info + 12], m[info + 16], m[info + 20]])]
      ensures handed == old(handed) + [call]
      ensures esp == old(esp) + 4 && eip == old(mem)[old(esp)]
      ensures SameAbove(old(mem), mem, old(esp) + 8)
    {
      var info := mem[esp + 4];
      var args := [mem[info + 4], mem[info + 8], mem[info + 12], mem[info + 16], mem[info + 20]];
      assert args == call.args[..5];
      syscalls := syscalls + [Syscall(mem[info], args)];
      handed := handed + [call];
      eax, ecx, edx := result, ecx', edx';
      eip := mem[esp];
      var top := esp + 8;
      esp := esp + 4;
      mem := mem + map a | a in scratch && a < top :: scratch[a];
    }

    /** Calls the hook on the struct at the stack pointer, and drops the pointer and the number. */
    method CallHook(
      hook: int, back: int, result: int, ecx': int, edx': int, scratch: map<int, int>, ghost call: Syscall)
      requires InfoAt(mem, esp, call)
      modifies this`eax, this`ecx, this`edx, this`esp, this`eip, this`mem, this`syscalls, this`handed
      ensures InfoAt(mem, old(esp), call) && esp == old(esp) + 4 && eip == back
      ensures SameAbove(old(mem), mem, old(esp))
      ensures syscalls == old(syscalls) + [Syscall(call.no, call.args[..5])] && eax == result
      ensures handed == old(handed) + [call]
    {
      ghost var info, saved := esp, mem;
      ecx := esp;
      Push(ecx);
      eax := hook;
      Push(back);
      eip := eax;
      InfoKept(saved, mem, info, call);
      VsyscallHook(hook, result, ecx', edx', scratch, call);
      InfoKept(saved, mem, info, call);
      esp := esp + 8;
    }

    /** `_vsyscall_hook_trampoline`, entered by the patch. */
    method Trampoline(
      hook: int, back: int, result: int, ecx': int, edx': int, scratch: map<int, int>, ghost call: Syscall)
      requires esp in mem && esp + 4 in mem
      requires call == Syscall(mem[esp], [ebx, ecx, edx, esi, edi, ebp])
      modifies this
      ensures eip == old(mem)[old(esp) + 4] && esp == old(esp) + 8
      ensures [ebx, ecx, edx, esi, edi, ebp] == call.args && eax == result
      ensures syscalls == old(syscalls) + [Syscall(call.no, call.args[..5])]
      ensures handed == old(handed) + [call]
      ensures SameAbove(old(mem), mem, old(esp) + 4)
    {
      eax := Pop();
      PushInfo();
      ghost var info := esp;
      CallHook(hook, back, result, ecx', edx', scratch, call);
      PopArgs(info, call);
      eip := Pop();
    }

    /**
     A call of the patched `__kernel_vsyscall`: the system call is made once, with its
     number and first five arguments, and its caller finds all registers but %eax, and
     its stack, as they were.
     */
    method PatchedVsyscall(
      code: seq<int>, trampoline: int, hook: int, back: int, result: int, ecx': int, edx': int, scratch: map<int, int>)
      requires 0 <= trampoline < WORD && esp in mem
      requires 0 <= eip <= |code| - 8 && code[eip..eip + 8] == Patch(trampoline)
      modifies this
      ensures eip == old(mem)[old(esp)] && esp == old(esp) + 4 && eax == result
      ensures ebx == old(ebx) && ecx == old(ecx) && edx == old(edx)
      ensures esi == old(esi) && edi == old(edi) && ebp == old(ebp)
      ensures handed == old(handed) + [Syscall(old(eax), old([ebx, ecx, edx, esi, edi, ebp]))]
      ensures syscalls == old(syscalls) + [Syscall(old(eax), old([ebx, ecx, edx, esi, edi]))]
      ensures SameAbove(old(mem), mem, old(esp))
    {
      ghost var call := Syscall(eax, [ebx, ecx, edx, esi, edi, ebp]);
      PatchDecodes(code[..eip], code[eip + 8..], trampoline);
      assert code == code[..eip] + Patch(trampoline) + code[eip + 8..];
      RunPatch(code, trampoline);
      Trampoline(hook, back, result, ecx', edx', scratch, call);
      assert forall i :: 0 <= i < 6 ==> [ebx, ecx, edx, esi, edi, ebp][i] == call.args[i];
      assert call.args[..5] == old([ebx, ecx, edx, esi, edi]);
    }

    /**
     Patches the code at `eip` and then runs it: this is the call that takes the place of
     `__kernel_vsyscall`, whatever the code there was.
     */
    method PatchAndCall(
      code: array<int>, trampoline: int, hook: int, back: int, result: int, ecx': int, edx': int,
      scratch: map<int, int>)
      requires 0 <= trampoline < WORD && esp in mem && 0 <= eip <= code.Length - 8
      modifies this, code
      ensures code[..] == old(code[..eip]) + Patch(trampoline) + old(code[eip + 8..])
      ensures eip == old(mem)[old(esp)] && esp == old(esp) + 4 && eax == result
      ensures ebx == old(ebx) && ecx == old(ecx) && edx == old(edx)
      ensures esi == old(esi) && edi == old(edi) && ebp == old(ebp)
      ensures handed == old(handed) + [Syscall(old(eax), old([ebx, ecx, edx, esi, edi, ebp]))]
      ensures syscalls == old(syscalls) + [Syscall(old(eax), old([ebx, ecx, edx, esi, edi]))]
      ensures SameAbove(old(mem), mem, old(esp))
    {
      ghost var at := eip;
      MonkeyPatch(code, eip, trampoline);
      assert code[..][at..at + 8] == Patch(trampoline);
      PatchedVsyscall(code[..], trampoline, hook, back, result, ecx', edx', scratch);
    }
  }

  /** A `struct syscall_info` at address `p`: the number, then the arguments. */
  ghost predicate InfoAt(mem: map<int, int>, p: int, call: Syscall) {
    && |call.args| == 6
    && p in mem && mem[p] == call.no
    && p + 4 in mem && mem[p + 4] == call.args[0]
    && p + 8 in mem && mem[p + 8] == call.args[1]
    && p + 12 in mem && mem[p + 12] == call.args[2]
    && p + 16 in mem && mem[p + 16] == call.args[3]
    && p + 20 in mem && mem[p + 20] == call.args[4]
    && p + 24 in mem && mem[p + 24] == call.args[5]
  }

  /** Memory from address `a` upwards is as it was. */
  ghost predicate SameAbove(mem: map<int, int>, mem': map<int, int>, a: int) {
    forall b :: b in mem && b >= a ==> b in mem' && mem'[b] == mem[b]
  }

  lemma InfoKept(mem: map<int, int>, mem': map<int, int>, p: int, call: Syscall)
    requires InfoAt(mem, p, call) && SameAbove(mem, mem', p)
    ensures InfoAt(mem', p, call)
  {
    assert p + 4 in mem && p + 8 in mem && p + 12 in mem && p + 16 in mem && p + 20 in mem && p + 24 in mem;
  }
}
