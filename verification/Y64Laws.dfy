/**
  What the Y64 instructions are for: arithmetic, comparisons, the stack, memory and fetching obey the laws a
  programmer relies on, and where the condition codes of lab4/y64sim.c do not, it is said when.
 */
module Y64Laws {
  import opened LittleEndian
  import opened Y64

  const LONG_MIN: int := -0x8000_0000_0000_0000

  predicate IsLong(x: int) {
    LONG_MIN <= x <= LONG_MAX
  }

  // ---------- arithmetic ----------

  lemma Wraps(x: int) returns (k: int)
    ensures Wrap(x) == x - k * ADDRESS_LIMIT
    ensures IsLong(x) ==> Wrap(x) == x
  {
    k := x / ADDRESS_LIMIT + if x % ADDRESS_LIMIT > LONG_MAX then 1 else 0;
  }

  // Longs that differ by a multiple of 2 to the 64th are equal.
  lemma SameLong(x: Long, y: Long, k: int)
    requires x as int == y as int + k * ADDRESS_LIMIT
    ensures x == y
  {
  }

  // addq and subq are exact where the result is a long, and undo one another everywhere.
  lemma AddSub(a: Long, b: Long)
    ensures IsLong(b as int + a as int) ==> ComputeAlu(Add, a, b) == b + a
    ensures IsLong(b as int - a as int) ==> ComputeAlu(Sub, a, b) == b - a
    ensures ComputeAlu(Sub, a, ComputeAlu(Add, a, b)) == b
    ensures ComputeAlu(Add, a, ComputeAlu(Sub, a, b)) == b
    ensures ComputeAlu(Sub, a, b) == 0 <==> a == b
  {
    hide Wrap;
    var sum, diff := Wrap(b + a), Wrap(b - a);
    var k1 := Wraps(b + a);
    var k2 := Wraps(b - a);
    var k3 := Wraps(sum - a);
    var k4 := Wraps(diff + a);
    SameLong(Wrap(sum - a), b, -k1 - k3);
    SameLong(Wrap(diff + a), b, -k2 - k4);
  }

  // ---------- bits ----------

  function Bit(x: nat, i: nat): nat {
    if i == 0 then x % 2 else Bit(x / 2, i - 1)
  }

  // Bit `i` of the result depends on bit `i` of the operands alone.
  lemma {:induction false} BitOf(and: bool, x: nat, y: nat, n: nat, i: nat)
    requires i < n
    ensures var p, q := Bit(x, i), Bit(y, i);
            Bit(Bitwise(and, x, y, n), i) == if and then (if p == 1 && q == 1 then 1 else 0) else if p != q then 1 else 0
    decreases n
  {
    BitIsOne(x, i);
    BitIsOne(y, i);
    LowBit(x, y);
    var r := Bitwise(and, x, y, n);
    assert r / 2 == Bitwise(and, x / 2, y / 2, n - 1);
    if i > 0 {
      BitOf(and, x / 2, y / 2, n - 1, i - 1);
    }
  }

  lemma {:induction false} BitIsOne(x: nat, i: nat)
    ensures Bit(x, i) == 0 || Bit(x, i) == 1
  {
    if i > 0 {
      BitIsOne(x / 2, i - 1);
    }
  }

  lemma LowBit(x: nat, y: nat)
    ensures x % 2 * (y % 2) == if x % 2 == 1 && y % 2 == 1 then 1 else 0
    ensures (x + y) % 2 == if x % 2 != y % 2 then 1 else 0
  {
  }

  lemma {:induction false} XorSame(x: nat, n: nat)
    ensures Bitwise(false, x, x, n) == 0
  {
    if n > 0 {
      LowBit(x, x);
      XorSame(x / 2, n - 1);
    }
  }

  lemma {:induction false} XorTwice(x: nat, y: nat, n: nat)
    requires x < Power(n) && y < Power(n)
    ensures Bitwise(false, x, Bitwise(false, x, y, n), n) == y
  {
    if n > 0 {
      var r := Bitwise(false, x, y, n);
      XorStep(x, y, r, Bitwise(false, x / 2, y / 2, n - 1));
      XorTwice(x / 2, y / 2, n - 1);
    }
  }

  lemma XorStep(x: nat, y: nat, r: nat, half: nat)
    requires r == 2 * half + (x + y) % 2
    ensures r / 2 == half && (x + r) % 2 == y % 2
  {
  }

  // Adding is adding without carries, and then the carries.
  lemma {:induction false} Carries(x: nat, y: nat, n: nat)
    requires x < Power(n) && y < Power(n)
    ensures x + y == Bitwise(false, x, y, n) + 2 * Bitwise(true, x, y, n)
    ensures Bitwise(true, x, x, n) == x
  {
    if n > 0 {
      LowBit(x, y);
      LowBit(x, x);
      Carries(x / 2, y / 2, n - 1);
    }
  }

  lemma BitsOfLong(a: Long, b: Long)
    ensures Unsigned(ComputeAlu(And, a, b)) == Bitwise(true, Unsigned(b), Unsigned(a), LONG_BITS)
    ensures Unsigned(ComputeAlu(Xor, a, b)) == Bitwise(false, Unsigned(b), Unsigned(a), LONG_BITS)
  {
    hide Bitwise, Power;
    LongPower();
    BitwiseBound(true, Unsigned(b), Unsigned(a), LONG_BITS);
    BitwiseBound(false, Unsigned(b), Unsigned(a), LONG_BITS);
  }

  // andq and xorq work bit by bit.
  lemma AndXorBits(a: Long, b: Long, i: nat)
    requires i < LONG_BITS
    ensures var p, q := Bit(Unsigned(a), i), Bit(Unsigned(b), i);
            && Bit(Unsigned(ComputeAlu(And, a, b)), i) == (if p == 1 && q == 1 then 1 else 0)
            && Bit(Unsigned(ComputeAlu(Xor, a, b)), i) == (if p != q then 1 else 0)
  {
    hide Bitwise, Bit, ComputeAlu, Unsigned;
    BitsOfLong(a, b);
    BitOf(true, Unsigned(b), Unsigned(a), LONG_BITS, i);
    BitOf(false, Unsigned(b), Unsigned(a), LONG_BITS, i);
  }

  // xorq twice with the same operand changes nothing, andq keeps an operand it is given twice, and together
  // they add.
  lemma AndXorLaws(a: Long, b: Long)
    ensures ComputeAlu(Xor, a, ComputeAlu(Xor, a, b)) == b
    ensures ComputeAlu(Xor, a, a) == 0
    ensures ComputeAlu(And, a, a) == a
    ensures ComputeAlu(Add, a, b) == Wrap(Unsigned(ComputeAlu(Xor, a, b)) + 2 * Unsigned(ComputeAlu(And, a, b)))
  {
    hide Bitwise, Power, Wrap, ComputeAlu;
    var x, y := Unsigned(a), Unsigned(b);
    LongPower();
    BitsOfLong(a, b);
    BitsOfLong(a, a);
    BitsOfLong(a, ComputeAlu(Xor, a, b));
    Swapped(false, y, x, LONG_BITS);
    Swapped(false, Bitwise(false, y, x, LONG_BITS), x, LONG_BITS);
    XorTwice(x, y, LONG_BITS);
    XorSame(x, LONG_BITS);
    Carries(y, x, LONG_BITS);
    Carries(x, x, LONG_BITS);
    SumWraps(a, b);
  }

  lemma {:induction false} Swapped(and: bool, x: nat, y: nat, n: nat)
    ensures Bitwise(and, x, y, n) == Bitwise(and, y, x, n)
  {
    if n > 0 {
      LowBit(x, y);
      LowBit(y, x);
      Swapped(and, x / 2, y / 2, n - 1);
    }
  }

  lemma SumWraps(a: Long, b: Long)
    ensures ComputeAlu(Add, a, b) == Wrap(Unsigned(b) + Unsigned(a))
  {
    hide Wrap;
    var k1 := Wraps(b + a);
    var k2 := Wraps(Unsigned(b) + Unsigned(a));
    var n := (if a < 0 then 1 else 0) + if b < 0 then 1 else 0;
    SameLong(Wrap(Unsigned(b) + Unsigned(a)), Wrap(b + a), n - k2 + k1);
  }

  // ---------- comparisons ----------

  // What a condition is meant to say about two numbers that were compared
  predicate Holds(cond: Cond, x: int, y: int) {
    match cond
    case Always => true
    case Le => x <= y
    case L => x < y
    case E => x == y
    case Ne => x != y
    case Ge => x >= y
    case G => x > y
  }

  // The condition codes order `x` and `y` right.
  ghost predicate Orders(cc: Flags, x: int, y: int) {
    forall cond :: CondHolds(cc, cond) == Holds(cond, x, y)
  }

  // The sign of the low 32 bits, which compute_cc looks at, is that of the number.
  predicate SignShown(v: Long) {
    Unsigned(v) % WORD_LIMIT >= WORD_LIMIT / 2 <==> v < 0
  }

  lemma ShortSign(v: Long)
    requires -0x8000_0000 <= v <= 0x7fff_ffff
    ensures SignShown(v)
  {
  }

  lemma Differs(a: Long, b: Long)
    ensures var d := b as int - a as int;
            ComputeAlu(Sub, a, b) == if d > LONG_MAX then d - ADDRESS_LIMIT else if d < LONG_MIN then d + ADDRESS_LIMIT else d
  {
    var d := b as int - a as int;
    var k := Wraps(d);
    SameLong(Wrap(d), if d > LONG_MAX then d - ADDRESS_LIMIT else if d < LONG_MIN then d + ADDRESS_LIMIT else d,
             if d > LONG_MAX then 1 - k else if d < LONG_MIN then -1 - k else -k);
  }

  lemma OrdersIs(cc: Flags, x: int, y: int)
    ensures Orders(cc, x, y) <==> (cc.zf <==> x == y) && (cc.sf != cc.of <==> x < y)
  {
    if Orders(cc, x, y) {
      assert CondHolds(cc, E) == Holds(E, x, y);
      assert CondHolds(cc, L) == Holds(L, x, y);
    }
  }

  // After subq the conditions compare the operands exactly if the sign of the difference shows in its low
  // 32 bits, or 0 was compared with the smallest long.
  lemma SubOrders(a: Long, b: Long)
    ensures var val := ComputeAlu(Sub, a, b);
            Orders(ComputeCC(Sub, a, b, val), b, a) <==> SignShown(val) || (b == 0 && a == LONG_MIN)
  {
    hide Orders, ComputeAlu, Unsigned;
    var val := ComputeAlu(Sub, a, b);
    Differs(a, b);
    OrdersIs(ComputeCC(Sub, a, b, val), b, a);
    if a == LONG_MIN && b == 0 {
      LowestSign();
    }
  }

  lemma LowestSign()
    ensures !SignShown(LONG_MIN)
  {
  }

  // ... so numbers that are not too far apart are compared right,
  lemma NearOrders(a: Long, b: Long)
    requires -0x8000_0000 <= b as int - a as int <= 0x7fff_ffff
    ensures Orders(ComputeCC(Sub, a, b, ComputeAlu(Sub, a, b)), b, a)
  {
    hide Orders, ComputeAlu, ComputeCC, SignShown;
    AddSub(a, b);
    ShortSign(b - a);
    SubOrders(a, b);
  }

  // and 2 to the 31st is taken to be less than 0.
  lemma FarMisordered()
    ensures var a, b := 0, 0x8000_0000;
            CondHolds(ComputeCC(Sub, a, b, ComputeAlu(Sub, a, b)), L) && !Holds(L, b, a)
  {
    AddSub(0, 0x8000_0000);
  }

  // After addq, xorq, or andq of a register with itself the conditions compare the result with 0, under the
  // same condition.
  lemma TestOrders(op: Alu, a: Long, b: Long)
    requires op == Add || op == Xor || (op == And && a == b)
    ensures var val := ComputeAlu(op, a, b); Orders(ComputeCC(op, a, b, val), val, 0) <==> SignShown(val)
  {
    hide Orders, ComputeAlu, Unsigned;
    var val := ComputeAlu(op, a, b);
    AndXorLaws(a, b);
    OrdersIs(ComputeCC(op, a, b, val), val, 0);
  }

  // andq sets the overflow flag on positive operands with no bit in common: its 0 is taken to be less than 0.
  lemma AndMisordered()
    ensures ComputeAlu(And, 1, 2) == 0 && CondHolds(ComputeCC(And, 1, 2, 0), L)
  {
    hide Bitwise, Power;
    BitsOfLong(1, 2);
    NoBits(LONG_BITS - 2);
    AndStep(1, 0, LONG_BITS - 1);
    AndStep(2, 1, LONG_BITS);
  }

  lemma AndStep(x: nat, y: nat, n: nat)
    requires n > 0
    ensures Bitwise(true, x, y, n) == 2 * Bitwise(true, x / 2, y / 2, n - 1) + x % 2 * (y % 2)
  {
  }

  lemma {:induction false} NoBits(n: nat)
    ensures Bitwise(true, 0, 0, n) == 0
  {
    if n > 0 {
      NoBits(n - 1);
    }
  }

  // ---------- instructions ----------

  // The registers an instruction may change
  function Dests(i: Instr): set<Reg> {
    match i
    case Rrmovq(_, _, rb) => {rb}
    case Irmovq(_, rb) => {rb}
    case Mrmovq(ra, _, _) => {ra}
    case Opq(_, _, rb) => {rb}
    case Call(_) => {RSP}
    case Ret => {RSP}
    case Pushq(_) => {RSP}
    case Popq(ra) => {RSP, ra}
    case _ => {}
  }

  // Only arithmetic changes the flags, no register changes but the destinations, control goes on behind the
  // instruction unless it is a jump, a call or a return, and an instruction that fails changes %rsp at most.
  lemma Effects(i: Instr, s: State, next: Long)
    requires |s.regs| == 15
    ensures var (s', stat) := Exec(i, s, next);
            && |s'.regs| == 15 && (forall r :: 0 <= r < 15 && r !in Dests(i) ==> s'.regs[r] == s.regs[r])
            && (!i.Opq? ==> s'.cc == s.cc)
            && (stat == Aok && !i.Jxx? && !i.Call? && !i.Ret? ==> s'.pc == next)
            && (stat != Aok ==> s'.pc == s.pc && s'.mem == s.mem && (stat == Hlt || stat == Adr)
                                && forall r :: 0 <= r < 15 && r != RSP ==> s'.regs[r] == s.regs[r])
            && (stat == Hlt <==> i.Halt?)
  {
    hide Wrap, ComputeAlu, ComputeCC, CondHolds, LongAt, Store;
  }

  lemma StoredLong(m: seq<Byte>, a: Long, v: Long)
    requires InMemory(m, a)
    ensures InMemory(Store(m, a, v), a) && LongAt(Store(m, a, v), a) == v
  {
    hide LongAt, LongBytes;
    assert Store(m, a, v)[a..a + 8] == LongBytes(v);
    LongOfBytes(Store(m, a, v), a, v);
  }

  lemma DownUp(v: Long)
    ensures Wrap(Wrap(v as int - 8) as int + 8) == v
  {
    hide Wrap;
    var k1 := Wraps(v as int - 8);
    var k2 := Wraps(Wrap(v as int - 8) as int + 8);
    SameLong(Wrap(Wrap(v as int - 8) as int + 8), v, -k1 - k2);
  }

  // pushq succeeds exactly if the eight bytes below the stack pointer are memory; popq then undoes it and
  // delivers what was pushed.
  lemma PushPop(s: State, ra: Reg, rb: Reg, next: Long, next': Long)
    requires |s.regs| == 15
    ensures var (s1, stat) := Exec(Pushq(ra), s, next);
            && (stat == Aok <==> InMemory(s.mem, Wrap(s.regs[RSP] as int - 8)))
            && (stat == Aok ==> Exec(Popq(rb), s1, next') ==
                                (s.(pc := next', mem := s1.mem, regs := WriteReg(s.regs, rb, ReadReg(s.regs, ra))), Aok))
  {
    hide Wrap, LongAt, Store;
    DownUp(s.regs[RSP]);
    var top := Wrap(s.regs[RSP] as int - 8);
    if InMemory(s.mem, top) {
      StoredLong(s.mem, top, ReadReg(s.regs, ra));
      assert s.regs[RSP := top][RSP := s.regs[RSP]] == s.regs;
    }
  }

  // A call goes to its destination; a return from there comes back behind it with the old stack pointer.
  lemma CallRet(s: State, dest: Long, next: Long, next': Long)
    requires |s.regs| == 15
    ensures var (s1, stat) := Exec(Call(dest), s, next);
            && (stat == Aok <==> InMemory(s.mem, Wrap(s.regs[RSP] as int - 8)))
            && (stat == Aok ==> s1.pc == dest && Exec(Ret, s1, next') == (s.(pc := next, mem := s1.mem), Aok))
  {
    hide Wrap, LongAt, Store;
    DownUp(s.regs[RSP]);
    var top := Wrap(s.regs[RSP] as int - 8);
    if InMemory(s.mem, top) {
      StoredLong(s.mem, top, next);
      assert s.regs[RSP := top][RSP := s.regs[RSP]] == s.regs;
    }
  }

  // What rmmovq stores at an address, mrmovq loads from there, and no other byte has changed.
  lemma StoreLoad(s: State, ra: Reg, rb: Reg, rc: Reg, disp: Long, next: Long, next': Long)
    requires |s.regs| == 15
    ensures var (s1, stat) := Exec(Rmmovq(ra, rb, disp), s, next);
            var a := Wrap(ReadReg(s.regs, rb) as int + disp);
            && (stat == Aok <==> InMemory(s.mem, a))
            && (stat == Aok ==>
                  && |s1.mem| == |s.mem| && LongAt(s1.mem, a) == ReadReg(s.regs, ra)
                  && (forall p :: 0 <= p < |s.mem| && !(a <= p < a + 8) ==> s1.mem[p] == s.mem[p])
                  && Exec(Mrmovq(rc, rb, disp), s1, next') ==
                     (s1.(pc := next', regs := WriteReg(s.regs, rc, ReadReg(s.regs, ra))), Aok))
  {
    hide Wrap, LongAt, LongBytes;
    var a := Wrap(ReadReg(s.regs, rb) as int + disp);
    if InMemory(s.mem, a) {
      StoredLong(s.mem, a, ReadReg(s.regs, ra));
    }
  }

  // subq ra, rb takes ra from rb.  A jump behind it is taken, and a conditional move moves, exactly if the
  // registers compared so before, unless the difference hides its sign.
  lemma CompareAndBranch(s: State, ra: Reg, rb: Reg, cond: Cond, dest: Long, rc: Reg, rd: Reg, next: Long, next': Long)
    requires |s.regs| == 15 && ra < 15 && rb < 15 && SignShown(ComputeAlu(Sub, s.regs[ra], s.regs[rb]))
    ensures var (s1, stat) := Exec(Opq(Sub, ra, rb), s, next);
            && stat == Aok && s1.regs == s.regs[rb := ComputeAlu(Sub, s.regs[ra], s.regs[rb])] && s1.mem == s.mem
            && Exec(Jxx(cond, dest), s1, next') == (s1.(pc := if Holds(cond, s.regs[rb], s.regs[ra]) then dest else next'), Aok)
            && Exec(Rrmovq(cond, rc, rd), s1, next') ==
               (s1.(pc := next', regs := if Holds(cond, s.regs[rb], s.regs[ra])
                                         then WriteReg(s1.regs, rd, ReadReg(s1.regs, rc)) else s1.regs), Aok)
  {
    hide ComputeAlu, ComputeCC, CondHolds, SignShown, Holds;
    SubOrders(s.regs[ra], s.regs[rb]);
  }

  // Any arithmetic goes from the first register and the second into the second: addq gives back what subq took.
  lemma SubThenAdd(s: State, ra: Reg, rb: Reg, next: Long, next': Long)
    requires |s.regs| == 15 && ra < 15 && rb < 15 && ra != rb
    ensures var s1 := Exec(Opq(Sub, ra, rb), s, next).0;
            && (IsLong(s.regs[rb] as int - s.regs[ra] as int) ==> s1.regs[rb] == s.regs[rb] - s.regs[ra])
            && Exec(Opq(Add, ra, rb), s1, next').0.regs == s.regs
  {
    hide ComputeAlu, ComputeCC;
    AddSub(s.regs[ra], s.regs[rb]);
  }

  // ---------- fetching ----------

  lemma BytesOfLong(m: seq<Byte>, p: int)
    requires 0 <= p <= |m| - 8
    ensures m[p..p + 8] == LongBytes(LongAt(m, p))
  {
    BytesOfAddress(m, p);
    hide Address, AddressBytes;
    assert Unsigned(Signed(Address(m, p))) == Address(m, p);
  }

  // The number of bytes that belong to an instruction code
  function Needed(icode: int): int {
    1 + (if NeedsRegs(icode) then 1 else 0) + (if NeedsImm(icode) then 8 else 0)
  }

  // Code and function that no instruction has
  predicate IsBad(icode: int, ifun: int) {
    icode > 11 || ((icode == 2 || icode == 7) && ifun > 6) || (icode == 6 && ifun > 3)
  }

  // The fields of an instruction's bytes are those it is decoded from.
  lemma DecodeOnly(icode: int, ifun: int, ra: Reg, rb: Reg, imm: Long)
    requires 0 <= icode < 16 && 0 <= ifun < 16
    ensures match Decode(icode, ifun, ra, rb, imm)
            case BadAddress => false
            case BadInstr => IsBad(icode, ifun)
            case Fetched(i, len) =>
              var code := Encode(i);
              && len == Needed(icode) == |code| && High(code[0]) == icode && (i.Rrmovq? || i.Opq? || i.Jxx? ==> Low(code[0]) == ifun)
              && (icode == 2 || icode == 4 || icode == 5 || icode == 6 || icode == 10 || icode == 11 ==> High(code[1]) == ra)
              && (icode == 2 || icode == 3 || icode == 4 || icode == 5 || icode == 6 ==> Low(code[1]) == rb)
              && (NeedsImm(icode) ==> code[len - 8..] == LongBytes(imm))
              && (i.Rrmovq? <==> icode == 2) && (i.Irmovq? <==> icode == 3) && (i.Rmmovq? <==> icode == 4)
              && (i.Mrmovq? <==> icode == 5) && (i.Opq? <==> icode == 6) && (i.Jxx? <==> icode == 7)
              && (i.Pushq? <==> icode == 10) && (i.Popq? <==> icode == 11)
  {
    hide LongBytes;
  }

  lemma SameHalves(b: Byte, c: Byte)
    requires High(b) == High(c) && Low(b) == Low(c)
    ensures b == c
  {
  }

  // Only the bytes of an instruction, but for halves that nexti does not look at, are fetched as that
  // instruction; anything else is an error.
  lemma FetchOnly(m: seq<Byte>, pc: int)
    ensures match Fetch(m, pc)
            case BadAddress => !(0 <= pc < |m|) || pc + Needed(High(m[pc])) > |m|
            case BadInstr => 0 <= pc && pc + Needed(High(m[pc])) <= |m| && IsBad(High(m[pc]), Low(m[pc]))
            case Fetched(i, len) =>
              && 0 <= pc && len == |Encode(i)| && pc + len <= |m|
              && High(m[pc]) == High(Encode(i)[0]) && (i.Rrmovq? || i.Opq? || i.Jxx? ==> m[pc] == Encode(i)[0])
              && (i.Rrmovq? || i.Opq? || i.Rmmovq? || i.Mrmovq? ==> m[pc + 1] == Encode(i)[1])
              && (i.Pushq? || i.Popq? ==> High(m[pc + 1]) == High(Encode(i)[1]))
              && (i.Irmovq? ==> Low(m[pc + 1]) == Low(Encode(i)[1]))
              && (len >= 9 ==> m[pc + len - 8..pc + len] == Encode(i)[len - 8..])
  {
    hide LongAt, LongBytes, Decode, Encode, High, Low, IsBad;
    if 0 <= pc < |m| && pc + Needed(High(m[pc])) <= |m| {
      var icode, ifun := High(m[pc]), Low(m[pc]);
      var regs := pc + 1;
      var imms := if NeedsRegs(icode) then regs + 1 else regs;
      var ra := if NeedsRegs(icode) then High(m[regs]) else NONE;
      var rb := if NeedsRegs(icode) then Low(m[regs]) else NONE;
      var imm := if NeedsImm(icode) then LongAt(m, imms) else 0;
      assert Fetch(m, pc) == Decode(icode, ifun, ra, rb, imm);
      DecodeOnly(icode, ifun, ra, rb, imm);
      if NeedsImm(icode) {
        BytesOfLong(m, imms);
      }
      match Fetch(m, pc) {
        case Fetched(i, _) =>
          if i.Rrmovq? || i.Opq? || i.Jxx? {
            SameHalves(m[pc], Encode(i)[0]);
          }
          if i.Rrmovq? || i.Opq? || i.Rmmovq? || i.Mrmovq? {
            SameHalves(m[regs], Encode(i)[1]);
          }
        case _ =>
      }
    }
  }

  // An instruction that reaches out of memory is an address error and one that does not exist an instruction
  // error; neither changes anything.
  lemma FetchErrors(s: State)
    requires |s.mem| <= MAX_LEN
    ensures !(0 <= s.pc < |s.mem|) || s.pc + Needed(High(s.mem[s.pc])) > |s.mem| ==> NextI(s) == (s, Adr)
    ensures 0 <= s.pc < |s.mem| && s.pc + Needed(High(s.mem[s.pc])) <= |s.mem| && IsBad(High(s.mem[s.pc]), Low(s.mem[s.pc])) ==>
              NextI(s) == (s, Ins)
  {
    hide Exec, LongAt;
  }
}
