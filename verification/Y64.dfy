/**
  The Y64 instruction set that lab5/y64asm.c emits and lab4/y64sim.c runs: instructions, their bytes,
  and what each of them does to the machine.
 */
module Y64 {
  import opened LittleEndian

  // ---------- long_t ----------

  const LONG_MAX: int := 0x7fff_ffff_ffff_ffff

  type Long = v: int | -0x8000_0000_0000_0000 <= v <= 0x7fff_ffff_ffff_ffff

  function Signed(a: int): (v: Long)
    requires 0 <= a < ADDRESS_LIMIT
  {
    if a <= LONG_MAX then a else a - ADDRESS_LIMIT
  }

  function Unsigned(v: Long): (a: int)
    ensures 0 <= a < ADDRESS_LIMIT
    ensures Signed(a) == v
  {
    if v >= 0 then v else v + ADDRESS_LIMIT
  }

  // Two's complement wrap-around
  function Wrap(x: int): Long {
    Signed(x % ADDRESS_LIMIT)
  }

  function LongAt(m: seq<Byte>, p: int): Long
    requires 0 <= p <= |m| - 8
  {
    Signed(Address(m, p))
  }

  function LongBytes(v: Long): (s: seq<Byte>)
    ensures |s| == 8
  {
    AddressBytes(Unsigned(v))
  }

  lemma LongOfBytes(m: seq<Byte>, p: int, v: Long)
    requires 0 <= p <= |m| - 8 && m[p..p + 8] == LongBytes(v)
    ensures LongAt(m, p) == v
  {
    AddressOfBytes(m, p, Unsigned(v));
  }

  // ---------- instructions ----------

  type Reg = r: int | 0 <= r <= 15

  const RSP: Reg := 4
  const NONE: Reg := 15

  datatype Cond = Always | Le | L | E | Ne | Ge | G

  datatype Alu = Add | Sub | And | Xor

  datatype Instr =
    | Halt
    | Nop
    | Rrmovq(cond: Cond, ra: Reg, rb: Reg)
    | Irmovq(imm: Long, rb: Reg)
    | Rmmovq(ra: Reg, rb: Reg, disp: Long)
    | Mrmovq(ra: Reg, rb: Reg, disp: Long)
    | Opq(op: Alu, ra: Reg, rb: Reg)
    | Jxx(cond: Cond, dest: Long)
    | Call(dest: Long)
    | Ret
    | Pushq(ra: Reg)
    | Popq(ra: Reg)

  function CondCode(c: Cond): (n: int)
    ensures 0 <= n <= 6
  {
    match c
    case Always => 0
    case Le => 1
    case L => 2
    case E => 3
    case Ne => 4
    case Ge => 5
    case G => 6
  }

  function CondOf(n: int): Cond
    requires 0 <= n <= 6
    ensures CondCode(CondOf(n)) == n
  {
    if n == 0 then Always else if n == 1 then Le else if n == 2 then L else if n == 3 then E
    else if n == 4 then Ne else if n == 5 then Ge else G
  }

  function AluCode(op: Alu): (n: int)
    ensures 0 <= n <= 3
  {
    match op
    case Add => 0
    case Sub => 1
    case And => 2
    case Xor => 3
  }

  function AluOf(n: int): Alu
    requires 0 <= n <= 3
    ensures AluCode(AluOf(n)) == n
  {
    if n == 0 then Add else if n == 1 then Sub else if n == 2 then And else Xor
  }

  type Nibble = n: int | 0 <= n < 16

  // HPACK, HIGH and LOW
  function Pack(hi: int, lo: int): (b: Byte)
    requires 0 <= hi < 16 && 0 <= lo < 16
    ensures High(b) == hi && Low(b) == lo
  {
    16 * hi + lo
  }

  function High(b: Byte): (n: int)
    ensures 0 <= n < 16
  {
    b / 16
  }

  function Low(b: Byte): (n: int)
    ensures 0 <= n < 16
  {
    b % 16
  }

  // The machine code of an instruction.
  function Encode(i: Instr): seq<Byte> {
    match i
    case Halt => [Pack(0, 0)]
    case Nop => [Pack(1, 0)]
    case Rrmovq(cond, ra, rb) => [Pack(2, CondCode(cond)), Pack(ra, rb)]
    case Irmovq(imm, rb) => [Pack(3, 0), Pack(NONE, rb)] + LongBytes(imm)
    case Rmmovq(ra, rb, disp) => [Pack(4, 0), Pack(ra, rb)] + LongBytes(disp)
    case Mrmovq(ra, rb, disp) => [Pack(5, 0), Pack(ra, rb)] + LongBytes(disp)
    case Opq(op, ra, rb) => [Pack(6, AluCode(op)), Pack(ra, rb)]
    case Jxx(cond, dest) => [Pack(7, CondCode(cond))] + LongBytes(dest)
    case Call(dest) => [Pack(8, 0)] + LongBytes(dest)
    case Ret => [Pack(9, 0)]
    case Pushq(ra) => [Pack(10, 0), Pack(ra, NONE)]
    case Popq(ra) => [Pack(11, 0), Pack(ra, NONE)]
  }

  // ---------- fetching ----------

  datatype Fetched =
    | BadAddress                         // a byte of the instruction lies outside the memory
    | BadInstr                           // no such instruction
    | Fetched(instr: Instr, len: int)

  function NeedsRegs(icode: int): bool {
    icode == 2 || icode == 3 || icode == 4 || icode == 5 || icode == 6 || icode == 10 || icode == 11
  }

  function NeedsImm(icode: int): bool {
    icode == 3 || icode == 4 || icode == 5 || icode == 7 || icode == 8
  }

  // The instruction with these fields; what it does not use is ignored.
  function Decode(icode: int, ifun: int, ra: Reg, rb: Reg, imm: Long): (i: Fetched)
    requires 0 <= icode < 16 && 0 <= ifun < 16
  {
    var len := 1 + (if NeedsRegs(icode) then 1 else 0) + (if NeedsImm(icode) then 8 else 0);
    if icode == 0 then Fetched(Halt, len)
    else if icode == 1 then Fetched(Nop, len)
    else if icode == 2 then if ifun <= 6 then Fetched(Rrmovq(CondOf(ifun), ra, rb), len) else BadInstr
    else if icode == 3 then Fetched(Irmovq(imm, rb), len)
    else if icode == 4 then Fetched(Rmmovq(ra, rb, imm), len)
    else if icode == 5 then Fetched(Mrmovq(ra, rb, imm), len)
    else if icode == 6 then if ifun <= 3 then Fetched(Opq(AluOf(ifun), ra, rb), len) else BadInstr
    else if icode == 7 then if ifun <= 6 then Fetched(Jxx(CondOf(ifun), imm), len) else BadInstr
    else if icode == 8 then Fetched(Call(imm), len)
    else if icode == 9 then Fetched(Ret, len)
    else if icode == 10 then Fetched(Pushq(ra), len)
    else if icode == 11 then Fetched(Popq(ra), len)
    else BadInstr
  }

  function Fetch(m: seq<Byte>, pc: int): Fetched {
    if !(0 <= pc < |m|) then BadAddress else
      var icode, ifun := High(m[pc]), Low(m[pc]);
      var regs := pc + 1;
      var imms := if NeedsRegs(icode) then regs + 1 else regs;
      if NeedsRegs(icode) && regs >= |m| then BadAddress
      else if NeedsImm(icode) && imms + 8 > |m| then BadAddress
      else Decode(icode, ifun,
                  if NeedsRegs(icode) then High(m[regs]) else NONE,
                  if NeedsRegs(icode) then Low(m[regs]) else NONE,
                  if NeedsImm(icode) then LongAt(m, imms) else 0)
  }

  // Assembler and simulator agree on the encoding: wherever the bytes of an instruction lie, that
  // instruction is fetched, with its length.
  lemma FetchEncode(i: Instr, m: seq<Byte>, pc: int)
    requires 0 <= pc && pc + |Encode(i)| <= |m| && m[pc..pc + |Encode(i)|] == Encode(i)
    ensures Fetch(m, pc) == Fetched(i, |Encode(i)|)
  {
    hide LongAt, LongBytes, High, Low, Pack;
    var code := Encode(i);
    assert m[pc] == code[0];
    if |code| > 1 && NeedsRegs(High(code[0])) {
      assert m[pc + 1] == m[pc..pc + |code|][1] == code[1];
    }
    match i {
      case Irmovq(imm, _) => FetchedLong(m, pc, code, 2, imm);
      case Rmmovq(_, _, disp) => FetchedLong(m, pc, code, 2, disp);
      case Mrmovq(_, _, disp) => FetchedLong(m, pc, code, 2, disp);
      case Jxx(_, dest) => FetchedLong(m, pc, code, 1, dest);
      case Call(dest) => FetchedLong(m, pc, code, 1, dest);
      case _ =>
    }
  }

  lemma TailOf(m: seq<Byte>, pc: int, at: int)
    requires 0 <= pc && 0 <= at && pc + at + 8 <= |m|
    ensures m[pc..pc + at + 8][at..] == m[pc + at..pc + at + 8]
  {
  }

  lemma FetchedLong(m: seq<Byte>, pc: int, code: seq<Byte>, at: int, v: Long)
    requires 0 <= pc && 0 <= at && |code| == at + 8 && pc + |code| <= |m| && m[pc..pc + |code|] == code
    requires code[at..] == LongBytes(v)
    ensures LongAt(m, pc + at) == v
  {
    hide LongAt, LongBytes;
    TailOf(m, pc, at);
    LongOfBytes(m, pc + at, v);
  }

  // ---------- executing ----------

  datatype Flags = Flags(zf: bool, sf: bool, of: bool)

  datatype Stat = Aok | Hlt | Adr | Ins

  // The architectural state: 15 registers, the memory, the condition codes and the program counter.
  datatype State = State(pc: Long, regs: seq<Long>, mem: seq<Byte>, cc: Flags)

  // C's `&` (and) or `^` on the lowest `n` bits of two words
  function Bitwise(and: bool, x: nat, y: nat, n: nat): nat {
    if n == 0 then 0
    else 2 * Bitwise(and, x / 2, y / 2, n - 1) + if and then x % 2 * (y % 2) else (x + y) % 2
  }

  const LONG_BITS: nat := 64

  function Power(k: nat): (p: nat)
    ensures p >= 1
  {
    if k == 0 then 1 else 2 * Power(k - 1)
  }

  lemma {:induction false} PowerSum(j: nat, k: nat)
    ensures Power(j + k) == Power(j) * Power(k)
  {
    if k > 0 {
      PowerSum(j, k - 1);
      assert Power(j + k) == 2 * Power(j + (k - 1));
    }
  }

  lemma PowerOfTwo()
    ensures Power(2) == 4
  {
  }

  lemma LongPower()
    ensures Power(LONG_BITS) == ADDRESS_LIMIT
  {
    hide Power;
    PowerOfTwo();
    PowerSum(2, 2);
    PowerSum(4, 4);
    PowerSum(8, 8);
    PowerSum(16, 16);
    PowerSum(32, 32);
  }

  lemma {:induction false} BitwiseBound(and: bool, x: nat, y: nat, n: nat)
    ensures Bitwise(and, x, y, n) < Power(n)
  {
    if n > 0 {
      BitwiseBound(and, x / 2, y / 2, n - 1);
    }
  }

  // ... of two longs
  function LongBitwise(and: bool, a: Long, b: Long): Long {
    BitwiseBound(and, Unsigned(b), Unsigned(a), LONG_BITS);
    LongPower();
    Signed(Bitwise(and, Unsigned(b), Unsigned(a), LONG_BITS))
  }

  // compute_alu; `a` is argA and `b` is argB
  function ComputeAlu(op: Alu, a: Long, b: Long): Long {
    match op
    case Add => Wrap(b + a)
    case Sub => Wrap(b - a)
    case And => LongBitwise(true, a, b)
    case Xor => LongBitwise(false, a, b)
  }

  // compute_cc, with the sign taken from the low 32 bits
  function ComputeCC(op: Alu, a: Long, b: Long, val: Long): Flags {
    Flags(val == 0,
          Unsigned(val) % WORD_LIMIT >= WORD_LIMIT / 2,
          (op == And && (a > 0) == (b > 0) && (a > 0) != (val > 0)) ||
          (op == Sub && (a > 0) != (b > 0) && (a > 0) == (val > 0)))
  }

  // cond_doit
  function CondHolds(cc: Flags, cond: Cond): bool {
    match cond
    case Always => true
    case Le => cc.zf || cc.sf != cc.of
    case L => cc.sf != cc.of
    case E => cc.zf
    case Ne => !cc.zf
    case Ge => cc.sf == cc.of
    case G => !cc.zf && cc.sf == cc.of
  }

  function ReadReg(regs: seq<Long>, id: Reg): Long {
    if id < |regs| then regs[id] else 0
  }

  function WriteReg(regs: seq<Long>, id: Reg, v: Long): (regs': seq<Long>)
    ensures |regs'| == |regs|
  {
    if id < |regs| then regs[id := v] else regs
  }

  predicate InMemory(m: seq<Byte>, a: Long) {
    0 <= a && a + 8 <= |m|
  }

  function Store(m: seq<Byte>, a: Long, v: Long): (m': seq<Byte>)
    requires InMemory(m, a)
    ensures |m'| == |m|
  {
    m[..a] + LongBytes(v) + m[a + 8..]
  }

  // One instruction of the architecture; `next` is the address after it.
  function Exec(i: Instr, s: State, next: Long): (State, Stat) {
    var regs := s.regs;
    match i
    case Halt => (s, Hlt)
    case Nop => (s.(pc := next), Aok)
    case Rrmovq(cond, ra, rb) =>
      (s.(pc := next, regs := if CondHolds(s.cc, cond) then WriteReg(regs, rb, ReadReg(regs, ra)) else regs), Aok)
    case Irmovq(imm, rb) => (s.(pc := next, regs := WriteReg(regs, rb, imm)), Aok)
    case Rmmovq(ra, rb, disp) =>
      var a := Wrap(ReadReg(regs, rb) + disp);
      if InMemory(s.mem, a) then (s.(pc := next, mem := Store(s.mem, a, ReadReg(regs, ra))), Aok) else (s, Adr)
    case Mrmovq(ra, rb, disp) =>
      var a := Wrap(ReadReg(regs, rb) + disp);
      if InMemory(s.mem, a) then (s.(pc := next, regs := WriteReg(regs, ra, LongAt(s.mem, a))), Aok) else (s, Adr)
    case Opq(op, ra, rb) =>
      var a, b := ReadReg(regs, ra), ReadReg(regs, rb);
      var val := ComputeAlu(op, a, b);
      (s.(pc := next, regs := WriteReg(regs, rb, val), cc := ComputeCC(op, a, b, val)), Aok)
    case Jxx(cond, dest) => (s.(pc := if CondHolds(s.cc, cond) then dest else next), Aok)
    case Call(dest) =>
      var top := Wrap(ReadReg(regs, RSP) - 8);
      var s' := s.(regs := WriteReg(regs, RSP, top));
      if InMemory(s.mem, top) then (s'.(pc := dest, mem := Store(s.mem, top, next)), Aok) else (s', Adr)
    case Ret =>
      var top := ReadReg(regs, RSP);
      if InMemory(s.mem, top)
      then (s.(pc := LongAt(s.mem, top), regs := WriteReg(regs, RSP, Wrap(top + 8))), Aok) else (s, Adr)
    case Pushq(ra) =>
      var top := Wrap(ReadReg(regs, RSP) - 8);
      var s' := s.(regs := WriteReg(regs, RSP, top));
      if InMemory(s.mem, top) then (s'.(pc := next, mem := Store(s.mem, top, ReadReg(regs, ra))), Aok) else (s', Adr)
    case Popq(ra) =>
      var top := ReadReg(regs, RSP);
      if InMemory(s.mem, top)
      then (s.(pc := next, regs := WriteReg(WriteReg(regs, RSP, Wrap(top + 8)), ra, LongAt(s.mem, top))), Aok)
      else (s, Adr)
  }

  // The size of a memory is an int.
  const MAX_LEN: int := 0x7fff_ffff

  // Fetch and execute: what nexti has to do.
  function NextI(s: State): (State, Stat)
    requires |s.mem| <= MAX_LEN
  {
    match Fetch(s.mem, s.pc)
    case BadAddress => (s, Adr)
    case BadInstr => (s, Ins)
    case Fetched(i, len) => Exec(i, s, s.pc + len)
  }

  // Up to `n` instructions, until one does not return Aok.
  function Run(s: State, n: nat): (State, Stat)
    requires |s.mem| <= MAX_LEN
    decreases n
  {
    if n == 0 then (s, Aok) else
      var (s', stat) := NextI(s);
      if stat == Aok then Run(s', n - 1) else (s', stat)
  }

  lemma NoSteps(s: State)
    requires |s.mem| <= MAX_LEN
    ensures Run(s, 0) == (s, Aok)
  {
  }

  lemma {:induction false} OneMoreStep(s: State, k: nat)
    requires |s.mem| <= MAX_LEN
    ensures var (s', stat) := Run(s, k);
            |s'.mem| == |s.mem| && (stat == Aok ==> Run(s, k + 1) == NextI(s'))
    decreases k
  {
    hide NextI;
    StepLength(s);
    var (s1, stat1) := NextI(s);
    if k > 0 && stat1 == Aok {
      OneMoreStep(s1, k - 1);
    }
  }

  lemma StepLength(s: State)
    requires |s.mem| <= MAX_LEN
    ensures |NextI(s).0.mem| == |s.mem|
  {
    hide Fetch, Wrap, ReadReg, WriteReg, ComputeAlu, ComputeCC, CondHolds, LongAt;
  }

  // A run that has stopped stays where it is.
  lemma {:induction false} RunStops(s: State, k: nat, n: nat)
    requires |s.mem| <= MAX_LEN && k <= n && (k == n || Run(s, k).1 != Aok)
    ensures Run(s, n) == Run(s, k)
    decreases k
  {
    hide NextI;
    StepLength(s);
    if 0 < k < n && NextI(s).1 == Aok {
      RunStops(NextI(s).0, k - 1, n - 1);
    }
  }

  // Bytes are determined by the word they make.
  lemma SameBytes(m: seq<Byte>, m': seq<Byte>, p: int)
    requires 0 <= p <= |m| - 8 && p <= |m'| - 8 && LongAt(m, p) == LongAt(m', p)
    ensures m[p..p + 8] == m'[p..p + 8]
  {
    BytesOfAddress(m, p);
    BytesOfAddress(m', p);
    assert Address(m, p) == Address(m', p) by {
      hide Address;
    }
  }
}
