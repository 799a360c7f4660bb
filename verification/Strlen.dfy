/**
 The word-at-a-time `strlen` for i586, register by register.  Addresses and saved
 registers are 32-bit numbers in wrap-around arithmetic; the word that is tested, and
 the register it is tested against, are bit vectors.
 */
module Strlen {
  import opened Basics

  const MAGIC: bv32 := 0xfefefeff
  const INSTRUMENT: int := 0xdeadd00d

  type Memory = int -> bv8

  // ----- what strlen is for -----

  /** The reference: counts bytes up to the first NUL. */
  function ByteScan(mem: Memory, a: int): (n: nat)
    requires 0 <= a <= WORD
    ensures a + n <= WORD
    ensures a + n < WORD ==> mem(a + n) == 0
    ensures forall b :: a <= b < a + n ==> mem(b) != 0
    decreases WORD - a
  {
    if a == WORD || mem(a) == 0 then 0 else 1 + ByteScan(mem, a + 1)
  }

  /** `z` is the address of the first NUL from `a` on. */
  ghost predicate FirstNul(mem: Memory, a: int, z: int) {
    0 <= a <= z < WORD && mem(z) == 0 && forall b :: a <= b < z ==> mem(b) != 0
  }

  // ----- a word of memory -----

  /** Four bytes, the first one lowest. */
  function Combine(b0: bv8, b1: bv8, b2: bv8, b3: bv8): bv32 {
    (b0 as bv32) | ((b1 as bv32) << 8) | ((b2 as bv32) << 16) | ((b3 as bv32) << 24)
  }

  function Word(mem: Memory, a: int): bv32 {
    Combine(mem(a), mem(a + 1), mem(a + 2), mem(a + 3))
  }

  predicate NoNul(mem: Memory, a: int) {
    mem(a) != 0 && mem(a + 1) != 0 && mem(a + 2) != 0 && mem(a + 3) != 0
  }

  predicate NoZeroByte(w: bv32) {
    w & 0xff != 0 && w & 0xff00 != 0 && w & 0xff0000 != 0 && w & 0xff000000 != 0
  }

  /** Adding the magic word changes all the hole bits exactly when no byte of `w` is 0. */
  lemma HoleBits(w: bv32)
    ensures (w + MAGIC < w && ((((0 - w) - 1) ^ (w + MAGIC)) & !MAGIC) == 0) <==> NoZeroByte(w)
  {
  }

  lemma BytesOfWord(b0: bv8, b1: bv8, b2: bv8, b3: bv8)
    ensures var w := Combine(b0, b1, b2, b3);
      && (w & 0xff == 0 <==> b0 == 0) && (w & 0xff00 == 0 <==> b1 == 0)
      && (w & 0xff0000 == 0 <==> b2 == 0) && (w & 0xff000000 == 0 <==> b3 == 0)
  {
  }

  lemma WordTestsBytes(mem: Memory, a: int)
    ensures NoZeroByte(Word(mem, a)) <==> NoNul(mem, a)
  {
    BytesOfWord(mem(a), mem(a + 1), mem(a + 2), mem(a + 3));
  }

  /** The arithmetic of one unrolled iteration on word `w`; `hit` is the jump to L(3). */
  method TestBits(w: bv32, edx: bv32) returns (ecx: bv32, edx': bv32, hit: bool)
    requires edx == 0
    ensures ecx == w + MAGIC
    ensures hit <==> !NoZeroByte(w)
    ensures !hit ==> edx' == 0
  {
    HoleBits(w);
    edx' := edx - w;
    ecx := w + MAGIC;
    var carry := ecx < w;
    edx' := edx' - 1;
    if !carry {
      hit := true;
      return;
    }
    edx' := edx' ^ ecx;
    edx' := edx' & !MAGIC;
    hit := edx' != 0;
  }

  /** One unrolled iteration: loads the word at `eax` and steps over it. */
  method TestWord(mem: Memory, eax: int, edx: bv32) returns (eax': int, ecx: bv32, edx': bv32, hit: bool)
    requires edx == 0
    ensures eax' == (eax + 4) % WORD && ecx == Word(mem, eax) + MAGIC
    ensures hit <==> !NoNul(mem, eax)
    ensures !hit ==> edx' == 0
  {
    WordTestsBytes(mem, eax);
    ecx, edx', hit := TestBits(Word(mem, eax), edx);
    eax' := (eax + 4) % WORD;
  }

  // ----- the prologue -----

  /** The last two bits of an address. */
  function LowBits(a: int): bv32 {
    if a % 4 == 0 then 0 else if a % 4 == 1 then 1 else if a % 4 == 2 then 2 else 3
  }

  /** The parity flag: the low byte has an even number of bits set. */
  predicate EvenParity(x: bv32) {
    var b := x & 0xff;
    var b4 := b ^ (b >> 4);
    var b2 := b4 ^ (b4 >> 2);
    (b2 ^ (b2 >> 1)) & 1 == 0
  }

  /** The second byte of a register. */
  function High(x: bv32): bv8 {
    ((x >> 8) & 0xff) as bv8
  }

  lemma LowBitsFacts(a: int)
    ensures var x := LowBits(a);
      && High(x) == 0 && High(x ^ 2) == 0
      && (x == 0 <==> a % 4 == 0) && (x ^ 2 == 0 <==> a % 4 == 2)
      && (a % 4 != 0 ==> (EvenParity(x) <==> a % 4 == 3))
  {
  }

  function AlignUp(a: int): int {
    (a + 3) / 4 * 4
  }

  lemma AlignUpCases(a: int)
    ensures AlignUp(a) == if a % 4 == 0 then a else a + 4 - a % 4
  {
  }

  /** Tests the byte at `eax` against %dh, which is 0. */
  method TestByte(mem: Memory, eax: int, edx: bv32, ghost z: int) returns (eax': int, found: bool)
    requires FirstNul(mem, eax, z) && High(edx) == 0
    ensures found ==> eax' == eax == z
    ensures !found ==> eax' == eax + 1 && FirstNul(mem, eax', z)
  {
    eax', found := eax, mem(eax) == High(edx);
    if !found {
      eax' := (eax + 1) % WORD;
    }
  }

  /** The bytes read are all those from `start` up to `a`, in order. */
  ghost predicate BytesUpTo(bytes: seq<int>, start: int, a: int) {
    a == start + |bytes| && forall i :: 0 <= i < |bytes| ==> bytes[i] == start + i
  }

  /** Tests single bytes until the pointer is aligned; `found` is the jump to L(2). */
  method Align(mem: Memory, str: int, ghost z: int) returns (eax: int, edx: bv32, found: bool, bytes: seq<int>)
    requires FirstNul(mem, str, z)
    ensures BytesUpTo(bytes, str, if found then z + 1 else AlignUp(str))
    ensures found <==> z < AlignUp(str)
    ensures found ==> eax == z
    ensures !found ==> eax == AlignUp(str) && FirstNul(mem, eax, z) && edx == 0
  {
    eax, found, bytes := str, false, [];
    edx := LowBits(eax);
    LowBitsFacts(eax);
    AlignUpCases(str);
    if edx == 0 {
      return;
    }
    if !EvenParity(edx) {
      bytes := bytes + [eax];
      eax, found := TestByte(mem, eax, edx, z);
      if found {
        return;
      }
      bytes := bytes + [eax];
      eax, found := TestByte(mem, eax, edx, z);
      if found {
        return;
      }
      edx := edx ^ 2;
      if edx == 0 {
        return;
      }
    }
    bytes := bytes + [eax];
    eax, found := TestByte(mem, eax, edx, z);
    if !found {
      edx := edx ^ edx;
    }
  }

  // ----- the unrolled loop -----

  lemma NextWord(mem: Memory, a: int, z: int)
    requires FirstNul(mem, a, z) && a % 4 == 0 && NoNul(mem, a)
    ensures FirstNul(mem, a + 4, z) && (a + 4) % WORD == a + 4
  {
    assert z != a && z != a + 1 && z != a + 2 && z != a + 3;
  }

  lemma LastWord(mem: Memory, a: int, z: int)
    requires FirstNul(mem, a, z) && a % 4 == 0 && !NoNul(mem, a)
    ensures a == z - z % 4
  {
  }

  /** The loads so far are all the words from `start` up to `a`, in order. */
  ghost predicate LoadsUpTo(loads: seq<int>, start: int, a: int) {
    a == start + 4 * |loads| && forall i :: 0 <= i < |loads| ==> loads[i] == start + 4 * i
  }

  /** One unrolled iteration of a scan that started at `start` and looks for the NUL at `z`. */
  method ScanWord(mem: Memory, eax: int, edx: bv32, loads: seq<int>, ghost start: int, ghost z: int)
    returns (eax': int, ecx: bv32, edx': bv32, hit: bool, loads': seq<int>)
    requires FirstNul(mem, eax, z) && eax % 4 == 0 && edx == 0 && LoadsUpTo(loads, start, eax)
    ensures hit ==>
      && eax' == (z - z % 4 + 4) % WORD && ecx == Word(mem, z - z % 4) + MAGIC
      && LoadsUpTo(loads', start, z - z % 4 + 4)
    ensures !hit ==>
      && FirstNul(mem, eax', z) && eax' == eax + 4 && edx' == 0 && LoadsUpTo(loads', start, eax')
  {
    loads' := loads + [eax];
    eax', ecx, edx', hit := TestWord(mem, eax, edx);
    if hit {
      LastWord(mem, eax, z);
    } else {
      NextWord(mem, eax, z);
    }
  }

  /** Goes from word to word, four at a time, and stops behind the word that holds the NUL. */
  method ScanWords(mem: Memory, start: int, edx0: bv32, ghost z: int) returns (eax: int, ecx: bv32, loads: seq<int>)
    requires FirstNul(mem, start, z) && start % 4 == 0 && edx0 == 0
    ensures eax == (z - z % 4 + 4) % WORD && ecx == Word(mem, z - z % 4) + MAGIC
    ensures LoadsUpTo(loads, start, z - z % 4 + 4)
  {
    var edx, hit := edx0, false;
    eax, ecx, loads := start, 0, [];
    while true
      invariant FirstNul(mem, eax, z) && eax % 4 == 0 && edx == 0
      invariant LoadsUpTo(loads, start, eax)
      decreases z - eax
    {
      eax, ecx, edx, hit, loads := ScanWord(mem, eax, edx, loads, start, z);
      if hit {
        return;
      }
      eax, ecx, edx, hit, loads := ScanWord(mem, eax, edx, loads, start, z);
      if hit {
        return;
      }
      eax, ecx, edx, hit, loads := ScanWord(mem, eax, edx, loads, start, z);
      if hit {
        return;
      }
      eax, ecx, edx, hit, loads := ScanWord(mem, eax, edx, loads, start, z);
      if hit {
        return;
      }
    }
  }

  // ----- finding the byte -----

  datatype Registers = Registers(ebx: int, esi: int, edi: int, ebp: int)

  function Inc(r: int): int {
    (r + 1) % WORD
  }

  /** Is %cl zero? */
  predicate LowIsZero(x: bv32) {
    x & 0xff == 0
  }

  /** Is %ch zero? */
  predicate HighIsZero(x: bv32) {
    x & 0xff00 == 0
  }

  function UpperHalf(x: bv32): bv32 {
    x >> 16
  }

  lemma UpperHalfTest(w: bv32)
    ensures LowIsZero(UpperHalf(w)) <==> w & 0xff0000 == 0
  {
  }

  lemma LocatorTests(mem: Memory, a: int)
    ensures LowIsZero(Word(mem, a)) <==> mem(a) == 0
    ensures HighIsZero(Word(mem, a)) <==> mem(a + 1) == 0
    ensures LowIsZero(UpperHalf(Word(mem, a))) <==> mem(a + 2) == 0
  {
    BytesOfWord(mem(a), mem(a + 1), mem(a + 2), mem(a + 3));
    UpperHalfTest(Word(mem, a));
  }

  lemma UndoMagic(w: bv32)
    ensures w + MAGIC - MAGIC == w
  {
  }

  /** The counters after the NUL was found at offset `k` of its word. */
  function Counted(r: Registers, k: int): Registers {
    Registers(Inc(r.ebx), if k >= 1 then Inc(r.esi) else r.esi,
              if k >= 2 then Inc(r.edi) else r.edi, if k >= 3 then Inc(r.ebp) else r.ebp)
  }

  /** Which byte of the word in %ecx is 0, if the lower three are not. */
  function ZeroByte(ecx: bv32): int {
    if LowIsZero(ecx) then 0 else if HighIsZero(ecx) then 1 else if LowIsZero(UpperHalf(ecx)) then 2 else 3
  }

  /** The byte tests from L(3) on; the fourth byte is not tested. */
  method FindByte(eax0: int, ecx0: bv32, r0: Registers) returns (eax: int, r: Registers)
    requires 0 <= eax0 && eax0 + 3 < WORD
    ensures eax == eax0 + ZeroByte(ecx0) && r == Counted(r0, ZeroByte(ecx0))
  {
    eax := eax0;
    var ecx := ecx0;
    r := r0.(ebx := Inc(r0.ebx));
    if LowIsZero(ecx) {
      return;
    }
    r := r.(esi := Inc(r.esi));
    eax := (eax + 1) % WORD;
    if HighIsZero(ecx) {
      return;
    }
    ecx := UpperHalf(ecx);
    eax := (eax + 1) % WORD;
    r := r.(edi := Inc(r.edi));
    if LowIsZero(ecx) {
      return;
    }
    r := r.(ebp := Inc(r.ebp));
    eax := (eax + 1) % WORD;
  }

  /** The byte that the tests arrive at is the NUL, also when they fall through. */
  lemma ZeroByteIsNul(mem: Memory, z: int)
    requires mem(z) == 0 && forall a :: z - z % 4 <= a < z ==> mem(a) != 0
    ensures ZeroByte(Word(mem, z - z % 4)) == z % 4
  {
    LocatorTests(mem, z - z % 4);
  }

  /** L(3): goes back to the word `w` and finds the NUL in it. */
  method Locate(eax0: int, ecx0: bv32, r0: Registers, ghost w: bv32, ghost z: int) returns (eax: int, r: Registers)
    requires 0 <= z < WORD && ZeroByte(w) == z % 4
    requires eax0 == (z - z % 4 + 4) % WORD && ecx0 == w + MAGIC
    ensures eax == z && r == Counted(r0, z % 4)
  {
    UndoMagic(w);
    var ecx := ecx0 - MAGIC;
    assert ecx == w;
    eax := (eax0 - 4) % WORD;
    assert eax == z - z % 4;
    eax, r := FindByte(eax, ecx, r0);
  }

  // ----- the whole routine -----

  /** Either saves the registers or clears them as counters, and leaves a note of which on the stack. */
  method Enter(stack: seq<int>, regs: Registers) returns (stack': seq<int>, regs': Registers)
    ensures if regs.edi == INSTRUMENT
      then stack' == [1] + stack && regs' == Registers(0, 0, 0, 0)
      else stack' == [0, regs.ebp, regs.edi, regs.esi, regs.ebx] + stack && regs' == regs
  {
    stack', regs' := stack, regs;
    if regs.edi == INSTRUMENT {
      regs' := Registers(0, 0, 0, 0);
      stack' := [1] + stack';
    } else {
      stack' := [regs.ebx] + stack';
      stack' := [regs.esi] + stack';
      stack' := [regs.edi] + stack';
      stack' := [regs.ebp] + stack';
      stack' := [0] + stack';
    }
  }

  /** L(2): undoes `Enter`, unless the registers are wanted as counters. */
  method Leave(stack: seq<int>, regs: Registers, ghost stack0: seq<int>, ghost regs0: Registers)
    returns (stack': seq<int>, regs': Registers)
    requires stack == [1] + stack0 || stack == [0, regs0.ebp, regs0.edi, regs0.esi, regs0.ebx] + stack0
    ensures stack' == stack0
    ensures regs' == if stack[0] == 1 then regs else regs0
  {
    stack', regs' := stack, regs;
    var did := stack'[0];
    stack' := stack'[1..];
    if did != 1 {
      regs' := regs'.(ebp := stack'[0]);
      stack' := stack'[1..];
      regs' := regs'.(edi := stack'[0]);
      stack' := stack'[1..];
      regs' := regs'.(esi := stack'[0]);
      stack' := stack'[1..];
      regs' := regs'.(ebx := stack'[0]);
      stack' := stack'[1..];
    }
  }

  /** The registers that instrumentation leaves: the offset of the NUL in its word, in unary. */
  function Unary(str: int, z: int): Registers {
    if z < AlignUp(str) then Registers(0, 0, 0, 0)
    else Registers(1, if z % 4 >= 1 then 1 else 0, if z % 4 >= 2 then 1 else 0, if z % 4 >= 3 then 1 else 0)
  }

  /** Every load is aligned, and none lies behind the word that holds the NUL. */
  lemma LoadsStayInReach(loads: seq<int>, start: int, z: int)
    requires start % 4 == 0 && LoadsUpTo(loads, start, z - z % 4 + 4)
    ensures forall i :: 0 <= i < |loads| ==> loads[i] % 4 == 0 && start <= loads[i] <= z
  {
  }

  /**
   What is read of a string at `str` whose NUL is at `z`: single bytes up to the NUL or the
   next word boundary, and from there words up to and including the one that holds the NUL.
   */
  ghost predicate ReadsAre(bytes: seq<int>, loads: seq<int>, str: int, z: int) {
    if z < AlignUp(str) then BytesUpTo(bytes, str, z + 1) && loads == []
    else BytesUpTo(bytes, str, AlignUp(str)) && LoadsUpTo(loads, AlignUp(str), z - z % 4 + 4)
  }

  /** From the entry value of %eax to the address of the NUL. */
  method FindNul(mem: Memory, str: int, r0: Registers, ghost z: int)
    returns (eax: int, r: Registers, bytes: seq<int>, loads: seq<int>)
    requires FirstNul(mem, str, z)
    ensures eax == z && r == if z < AlignUp(str) then r0 else Counted(r0, z % 4)
    ensures ReadsAre(bytes, loads, str, z)
    ensures forall i :: 0 <= i < |loads| ==> loads[i] % 4 == 0 && str <= loads[i] <= z
  {
    var edx, found;
    eax, edx, found, bytes := Align(mem, str, z);
    r, loads := r0, [];
    if !found {
      var ecx;
      eax, ecx, loads := ScanWords(mem, eax, edx, z);
      LoadsStayInReach(loads, AlignUp(str), z);
      ZeroByteIsNul(mem, z);
      eax, r := Locate(eax, ecx, r, Word(mem, z - z % 4), z);
    }
  }

  /**
   The routine on a stack whose top holds the return address and below it the argument.
   `edi` asks for instrumentation when it holds the magic number.  `bytes` and
   `loads` are the addresses of all bytes and words that are read.
   */
  method StrLen(mem: Memory, stack: seq<int>, regs: Registers)
    returns (eax: int, stack': seq<int>, regs': Registers, bytes: seq<int>, loads: seq<int>)
    requires |stack| >= 2 && 0 <= stack[1] < WORD && stack[1] + ByteScan(mem, stack[1]) < WORD
    ensures eax == ByteScan(mem, stack[1])
    ensures stack' == stack
    ensures regs' == if regs.edi == 0xdeadd00d then Unary(stack[1], stack[1] + eax) else regs
    ensures regs.edi == 0xdeadd00d && eax < (4 - stack[1] % 4) % 4 ==> regs' == Registers(0, 0, 0, 0)
    ensures regs.edi == 0xdeadd00d && eax >= (4 - stack[1] % 4) % 4 ==>
      var offset := (stack[1] + eax) % 4;
      && regs'.ebx == 1 && regs'.esi == (if offset >= 1 then 1 else 0)
      && regs'.edi == (if offset >= 2 then 1 else 0) && regs'.ebp == (if offset == 3 then 1 else 0)
    ensures ReadsAre(bytes, loads, stack[1], stack[1] + eax)
    ensures forall i :: 0 <= i < |loads| ==> loads[i] % 4 == 0 && stack[1] <= loads[i] <= stack[1] + eax
  {
    ghost var z := stack[1] + ByteScan(mem, stack[1]);
    eax := stack[1];
    stack', regs' := Enter(stack, regs);
    eax, regs', bytes, loads := FindNul(mem, eax, regs', z);
    stack', regs' := Leave(stack', regs', stack, regs);
    AlignUpCases(stack[1]);
    eax := (eax - stack'[1]) % WORD;
  }
}
