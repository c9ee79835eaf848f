/**
  The simulator of lab4/y64sim.c: memory and register file are byte arrays that nexti changes in place.
 */
module Y64Sim {
  import opened LittleEndian
  import opened Y64

  // get_byte_val
  method GetByteVal(m: array<Byte>, addr: Long) returns (ok: bool, dest: Byte)
    ensures ok <==> 0 <= addr < m.Length
    ensures ok ==> dest == m[addr]
  {
    if addr < 0 || addr >= m.Length {
      return false, 0;
    }
    return true, m[addr];
  }

  // A byte shifted left by 8 * i bits
  function ShiftLeft(b: Byte, i: int): int
    requires 0 <= i < 8
  {
    if i == 0 then b
    else if i == 1 then 0x100 * b as int
    else if i == 2 then 0x1_0000 * b as int
    else if i == 3 then 0x100_0000 * b as int
    else if i == 4 then 0x1_0000_0000 * b as int
    else if i == 5 then 0x100_0000_0000 * b as int
    else if i == 6 then 0x1_0000_0000_0000 * b as int
    else 0x100_0000_0000_0000 * b as int
  }

  // The word made of the lowest `n` bytes.
  function Gathered(m: seq<Byte>, p: int, n: int): int
    requires 0 <= p && 0 <= n <= 8 && p + n <= |m|
  {
    if n == 0 then 0 else Gathered(m, p, n - 1) + ShiftLeft(m[p + n - 1], n - 1)
  }

  lemma GatheredAll(m: seq<Byte>, p: int)
    requires 0 <= p <= |m| - 8
    ensures Gathered(m, p, 8) == Address(m, p)
  {
    assert Gathered(m, p, 1) == m[p] as int;
    assert Gathered(m, p, 2) == m[p] as int + 0x100 * m[p + 1] as int;
    assert Gathered(m, p, 3) == Gathered(m, p, 2) + 0x1_0000 * m[p + 2] as int;
    assert Gathered(m, p, 4) == Word(m, p);
    assert Gathered(m, p, 5) == Word(m, p) + WORD_LIMIT * m[p + 4] as int;
    assert Gathered(m, p, 6) == Gathered(m, p, 5) + WORD_LIMIT * (0x100 * m[p + 5] as int);
    assert Gathered(m, p, 7) == Gathered(m, p, 6) + WORD_LIMIT * (0x1_0000 * m[p + 6] as int);
  }

  // get_long_val
  method GetLongVal(m: array<Byte>, addr: Long) returns (ok: bool, dest: Long)
    ensures ok <==> InMemory(m[..], addr)
    ensures ok ==> dest == LongAt(m[..], addr)
  {
    if addr < 0 || addr + 8 > m.Length {
      return false, 0;
    }
    var val := 0;
    for i := 0 to 8
      invariant val == Gathered(m[..], addr, i)
    {
      val := val + ShiftLeft(m[addr + i], i);
    }
    GatheredAll(m[..], addr);
    return true, Signed(val);
  }

  // `v` after `n` arithmetic right shifts by 8 bits
  function Shifted(v: int, n: nat): int {
    if n == 0 then v else Shifted(v, n - 1) / 256
  }

  lemma FourShifts(x: int)
    ensures Shifted(x, 4) == x / WORD_LIMIT
    ensures WordBytes(x % WORD_LIMIT) == [x % 256, Shifted(x, 1) % 256, Shifted(x, 2) % 256, Shifted(x, 3) % 256]
  {
    var x1 := x / 256;
    var x2 := x1 / 256;
    var x3 := x2 / 256;
    assert Shifted(x, 1) == x1;
    assert Shifted(x, 2) == x2;
    assert Shifted(x, 3) == x3;
    assert x3 / 256 == x / WORD_LIMIT;
    DigitsOfWord(x % 256, x1 % 256, x2 % 256, x3 % 256);
  }

  lemma {:induction false} ShiftedMore(x: int, n: nat)
    ensures Shifted(Shifted(x, 4), n) == Shifted(x, n + 4)
  {
    if n > 0 {
      ShiftedMore(x, n - 1);
    }
  }

  lemma HalvesOf(v: Long)
    ensures Unsigned(v) % WORD_LIMIT == v % WORD_LIMIT && Unsigned(v) / WORD_LIMIT == v / WORD_LIMIT % WORD_LIMIT
  {
  }

  lemma ShiftedBytes(v: Long)
    ensures forall i :: 0 <= i < 8 ==> LongBytes(v)[i] == Shifted(v, i) % 256
  {
    hide WordBytes, Shifted, Unsigned;
    HalvesOf(v);
    FourShifts(v);
    FourShifts(v / WORD_LIMIT);
    ShiftedMore(v, 0);
    ShiftedMore(v, 1);
    ShiftedMore(v, 2);
    ShiftedMore(v, 3);
    NoShift(v);
    NoShift(v / WORD_LIMIT);
  }

  lemma NoShift(v: int)
    ensures Shifted(v, 0) == v
  {
  }

  // set_long_val
  method SetLongVal(m: array<Byte>, addr: Long, v: Long) returns (ok: bool)
    modifies m
    ensures ok <==> InMemory(old(m[..]), addr)
    ensures m[..] == if ok then Store(old(m[..]), addr, v) else old(m[..])
  {
    if addr < 0 || addr + 8 > m.Length {
      return false;
    }
    ShiftedBytes(v);
    var val: int := v;
    for i := 0 to 8
      invariant val == Shifted(v, i)
      invariant forall k :: 0 <= k < m.Length ==>
                  m[k] == if addr <= k < addr + i then LongBytes(v)[k - addr] else old(m[k])
    {
      m[addr + i] := val % 256;
      val := val / 256;
    }
    return true;
  }

  // ---------- the register file ----------

  const REG_SIZE: int := 15 * 8
  const MEM_SIZE: int := 8192

  // The registers held in the bytes of a register file.
  ghost function RegsOf(r: seq<Byte>): (regs: seq<Long>)
    requires REG_SIZE <= |r|
    ensures |regs| == 15
  {
    seq(15, id requires 0 <= id < 15 => LongAt(r, 8 * id))
  }

  lemma StoredReg(r: seq<Byte>, id: int, v: Long)
    requires REG_SIZE <= |r| && 0 <= id < 15
    ensures RegsOf(Store(r, 8 * id, v)) == RegsOf(r)[id := v]
  {
    hide LongAt;
    var r' := Store(r, 8 * id, v);
    assert r'[8 * id..8 * id + 8] == LongBytes(v);
    LongOfBytes(r', 8 * id, v);
    forall j | 0 <= j < 15 && j != id ensures LongAt(r', 8 * j) == LongAt(r, 8 * j) {
      assert r'[8 * j..8 * j + 8] == r[8 * j..8 * j + 8];
      SameLong(r, r', 8 * j);
    }
  }

  lemma SameLong(m: seq<Byte>, m': seq<Byte>, p: int)
    requires 0 <= p <= |m| - 8 && |m'| == |m| && m'[p..p + 8] == m[p..p + 8]
    ensures LongAt(m', p) == LongAt(m, p)
  {
    SameAddress(m, p, m', p);
  }

  // get_reg_val
  method GetRegVal(r: array<Byte>, id: Reg) returns (val: Long)
    requires REG_SIZE <= r.Length
    ensures val == ReadReg(RegsOf(r[..]), id)
  {
    if id >= NONE {
      return 0;
    }
    var _, v := GetLongVal(r, id * 8);
    return v;
  }

  // set_reg_val
  method SetRegVal(r: array<Byte>, id: Reg, val: Long)
    requires REG_SIZE <= r.Length
    modifies r
    ensures RegsOf(r[..]) == WriteReg(old(RegsOf(r[..])), id, val)
  {
    if id < NONE {
      StoredReg(r[..], id, val);
      var _ := SetLongVal(r, id * 8, val);
    }
  }

  lemma AddWraps(b: Long, a: Long)
    ensures ComputeAlu(Add, b, a) == Wrap(a as int + b as int)
  {
  }

  // ---------- the machine ----------

  class Simulator {
    var pc: Long
    const r: array<Byte>
    const m: array<Byte>
    var cc: Flags

    // new_y64sim
    constructor (slen: nat)
      requires slen <= MAX_LEN - 31
      ensures Valid() && pc == 0 && cc == Flags(true, false, false)
      ensures m.Length == (slen + 31) / 32 * 32 && fresh(m) && fresh(r)
      ensures forall a :: 0 <= a < m.Length ==> m[a] == 0
      ensures forall a :: 0 <= a < r.Length ==> r[a] == 0
    {
      pc := 0;
      r := new Byte[(REG_SIZE + 31) / 32 * 32](_ => 0);
      m := new Byte[(slen + 31) / 32 * 32](_ => 0);
      cc := Flags(true, false, false);
    }

    ghost predicate Valid() {
      REG_SIZE <= r.Length && m.Length <= MAX_LEN && r != m
    }

    ghost function Abs(): State
      requires Valid()
      reads this, r, m
    {
      State(pc, RegsOf(r[..]), m[..], cc)
    }

    // nexti
    method NextInstr() returns (stat: Stat)
      requires Valid()
      modifies this, r, m
      ensures (Abs(), stat) == NextI(old(Abs()))
    {
      hide LongAt, Store, WriteReg, ReadReg, RegsOf, ComputeAlu, ComputeCC, CondHolds, Wrap, CondOf, AluOf, High, Low;
      var nextPc: int := pc;

      // instruction and function code
      var ok, codefun := GetByteVal(m, nextPc);
      if !ok {
        return Adr;
      }
      var icode, ifun := High(codefun), Low(codefun);
      nextPc := nextPc + 1;

      // the register byte, for the instructions that have one
      var rega, regb := NONE, NONE;
      if icode == 2 || icode == 3 || icode == 4 || icode == 5 || icode == 6 || icode == 10 || icode == 11 {
        var nextb;
        ok, nextb := GetByteVal(m, nextPc);
        if !ok {
          return Adr;
        }
        rega, regb := High(nextb), Low(nextb);
        nextPc := nextPc + 1;
      }

      // the 8-byte operand, likewise
      var imm := 0;
      if icode == 3 || icode == 4 || icode == 5 || icode == 7 || icode == 8 {
        ok, imm := GetLongVal(m, nextPc);
        if !ok {
          return Adr;
        }
        nextPc := nextPc + 8;
      }
      assert Fetch(m[..], pc) == Decode(icode, ifun, rega, regb, imm);
      stat := Execute(icode, ifun, rega, regb, imm, nextPc);
    }

    // The switch of nexti
    method Execute(icode: int, ifun: int, rega: Reg, regb: Reg, imm: Long, nextPc: Long) returns (stat: Stat)
      requires Valid() && 0 <= icode < 16 && 0 <= ifun < 16
      modifies this, r, m
      ensures match Decode(icode, ifun, rega, regb, imm)
              case Fetched(i, _) => (Abs(), stat) == Exec(i, old(Abs()), nextPc)
              case _ => Abs() == old(Abs()) && stat == Ins
    {
      hide LongAt, Store, WriteReg, ReadReg, RegsOf, ComputeAlu, ComputeCC, CondHolds, Wrap, CondOf, AluOf, High, Low;
      if icode == 0 {
        return Hlt;
      } else if icode == 1 {
        pc := nextPc;
      } else if icode == 2 {
        if ifun > 6 {
          return Ins;
        }
        if CondHolds(cc, CondOf(ifun)) {
          var tempv := GetRegVal(r, rega);
          SetRegVal(r, regb, tempv);
        }
        pc := nextPc;
      } else if icode == 3 {
        SetRegVal(r, regb, imm);
        pc := nextPc;
      } else if icode == 4 {
        var tempv := GetRegVal(r, rega);
        var base := GetRegVal(r, regb);
        var ok := SetLongVal(m, Wrap(base + imm), tempv);
        if !ok {
          return Adr;
        }
        pc := nextPc;
      } else if icode == 5 {
        var base := GetRegVal(r, regb);
        var ok, tempv := GetLongVal(m, Wrap(base + imm));
        if !ok {
          return Adr;
        }
        SetRegVal(r, rega, tempv);
        pc := nextPc;
      } else if icode == 6 {
        if ifun >= 4 {
          return Ins;
        }
        var tempva := GetRegVal(r, rega);
        var tempvb := GetRegVal(r, regb);
        var tempv := ComputeAlu(AluOf(ifun), tempva, tempvb);
        SetRegVal(r, regb, tempv);
        cc := ComputeCC(AluOf(ifun), tempva, tempvb, tempv);
        pc := nextPc;
      } else if icode == 7 {
        if ifun > 6 {
          return Ins;
        }
        if CondHolds(cc, CondOf(ifun)) {
          pc := imm;
        } else {
          pc := nextPc;
        }
      } else if icode <= 11 {
        stat := ExecuteStack(icode, rega, imm, nextPc);
        return;
      } else {
        return Ins;
      }
      return Aok;
    }

    // The cases of nexti that use the stack
    method ExecuteStack(icode: int, rega: Reg, imm: Long, nextPc: Long) returns (stat: Stat)
      requires Valid() && 8 <= icode <= 11
      modifies this, r, m
      ensures (Abs(), stat) ==
              Exec(if icode == 8 then Call(imm) else if icode == 9 then Ret else if icode == 10 then Pushq(rega) else Popq(rega),
                   old(Abs()), nextPc)
    {
      hide LongAt, Store, WriteReg, ReadReg, RegsOf, ComputeAlu, ComputeCC, CondHolds, Wrap;
      if icode == 8 {
        var valb := GetRegVal(r, RSP);
        var vale := ComputeAlu(Add, valb, -8);
        AddWraps(valb, -8);
        SetRegVal(r, RSP, vale);
        var ok := SetLongVal(m, Wrap(valb as int - 8), nextPc);
        if !ok {
          return Adr;
        }
        pc := imm;
      } else if icode == 9 {
        var vala := GetRegVal(r, RSP);
        var valb := GetRegVal(r, RSP);
        var vale := ComputeAlu(Add, valb, 8);
        AddWraps(valb, 8);
        var ok, valm := GetLongVal(m, vala);
        if !ok {
          return Adr;
        }
        SetRegVal(r, RSP, vale);
        pc := valm;
      } else if icode == 10 {
        var vala := GetRegVal(r, rega);
        var valb := GetRegVal(r, RSP);
        var vale := ComputeAlu(Add, valb, -8);
        AddWraps(valb, -8);
        SetRegVal(r, RSP, vale);
        var ok := SetLongVal(m, vale, vala);
        if !ok {
          return Adr;
        }
        pc := nextPc;
      } else {
        var vala := GetRegVal(r, RSP);
        var valb := GetRegVal(r, RSP);
        var vale := ComputeAlu(Add, valb, 8);
        AddWraps(valb, 8);
        var ok, valm := GetLongVal(m, vala);
        if !ok {
          return Adr;
        }
        SetRegVal(r, RSP, vale);
        SetRegVal(r, rega, valm);
        pc := nextPc;
      }
      return Aok;
    }

    // load_binfile: fread, then the test for the end of the file.
    method LoadBinfile(file: seq<Byte>) returns (r: int)
      requires Valid()
      modifies m
      ensures r == 0 <==> |file| < m.Length
      ensures r == 0 || r == -1
      ensures m[..] == if |file| < m.Length then file + old(m[..])[|file|..] else file[..m.Length]
    {
      var flen := if |file| < m.Length then |file| else m.Length;
      for i := 0 to flen
        invariant forall a :: 0 <= a < m.Length ==> m[a] == if a < i then file[a] else old(m[a])
      {
        m[i] := file[i];
      }
      Overlaid(m[..], old(m[..]), file, flen);
      // the end of the file was met if fread came back short
      var feof := flen < m.Length;
      if !feof {
        return -1;
      }
      return 0;
    }

    lemma Overlaid(m: seq<Byte>, before: seq<Byte>, file: seq<Byte>, flen: nat)
      requires |m| == |before| && flen <= |file| && flen <= |m|
      requires forall a :: 0 <= a < |m| ==> m[a] == if a < flen then file[a] else before[a]
      ensures m == file[..flen] + before[flen..]
      ensures flen == |file| ==> file[..flen] == file
    {
    }

    // The loop of main; `step` counts the instructions up to the first that does not return Aok.
    method RunSteps(maxSteps: int) returns (step: int, e: Stat)
      requires Valid()
      modifies this, r, m
      ensures (Abs(), e) == Run(old(Abs()), if maxSteps < 0 then 0 else maxSteps)
      ensures 0 <= step && (Abs(), e) == Run(old(Abs()), step)
      ensures if e == Aok then step == (if maxSteps < 0 then 0 else maxSteps) else step <= maxSteps
      ensures forall k :: 0 <= k < step ==> Run(old(Abs()), k).1 == Aok
    {
      hide NextI, Run;
      e, step := Aok, 0;
      ghost var s := Abs();
      NoSteps(s);
      while step < maxSteps && e == Aok
        invariant 0 <= step && (step <= maxSteps || step == 0) && |s.mem| == m.Length
        invariant Run(s, step) == (Abs(), e) && forall k :: 0 <= k < step ==> Run(s, k).1 == Aok
      {
        OneMoreStep(s, step);
        e := NextInstr();
        step := step + 1;
      }
      RunStops(s, step, if maxSteps < step then step else maxSteps);
    }
  }

  // A file that fills the memory is loaded to the last byte and turned down all the same.
  method FullFileTurnedDown() returns (r: int)
    ensures r == -1
  {
    var sim := new Simulator(MEM_SIZE);
    r := sim.LoadBinfile(seq(MEM_SIZE, _ => 0));
    assert sim.m[..] == seq(MEM_SIZE, _ => 0);
  }

  // diff_mem; with `report` every difference is looked at.
  method DiffMem(oldm: array<Byte>, newm: array<Byte>, report: bool) returns (diff: bool)
    requires oldm.Length % 8 == 0 && newm.Length % 8 == 0 && oldm.Length <= MAX_LEN && newm.Length <= MAX_LEN
    ensures diff <==> var len := if newm.Length < oldm.Length then newm.Length else oldm.Length; oldm[..len] != newm[..len]
  {
    hide LongAt, SamePrefix;
    var len := oldm.Length;
    diff := false;
    if newm.Length < len {
      len := newm.Length;
    }
    var pos := 0;
    NoPrefix(oldm[..], newm[..]);
    while (!diff || report) && pos < len
      invariant 0 <= pos <= len && pos % 8 == 0
      invariant diff <==> !SamePrefix(oldm[..], newm[..], pos)
    {
      var _, ov := GetLongVal(oldm, pos);
      var _, nv := GetLongVal(newm, pos);
      OneMoreWord(oldm[..], newm[..], pos);
      if nv != ov {
        diff := true;
      }
      pos := pos + 8;
    }
    PrefixDiffers(oldm[..], newm[..], pos, len);
    PrefixOf(oldm, newm, len);
  }

  lemma PrefixOf(oldm: array<Byte>, newm: array<Byte>, n: nat)
    requires n <= oldm.Length && n <= newm.Length
    ensures SamePrefix(oldm[..], newm[..], n) <==> oldm[..n] == newm[..n]
  {
    assert oldm[..][..n] == oldm[..n] && newm[..][..n] == newm[..n];
  }

  ghost predicate SamePrefix(m: seq<Byte>, m': seq<Byte>, p: int)
    requires 0 <= p <= |m| && p <= |m'|
  {
    m[..p] == m'[..p]
  }

  lemma NoPrefix(m: seq<Byte>, m': seq<Byte>)
    ensures SamePrefix(m, m', 0)
  {
  }

  lemma OneMoreWord(m: seq<Byte>, m': seq<Byte>, p: int)
    requires 0 <= p <= |m| - 8 && p <= |m'| - 8
    ensures SamePrefix(m, m', p + 8) <==> SamePrefix(m, m', p) && LongAt(m, p) == LongAt(m', p)
  {
    assert m[..p + 8] == m[..p] + m[p..p + 8] && m'[..p + 8] == m'[..p] + m'[p..p + 8];
    if LongAt(m, p) == LongAt(m', p) {
      SameBytes(m, m', p);
    } else if m[p..p + 8] == m'[p..p + 8] {
      SameAddress(m, p, m', p);
    }
  }

  lemma PrefixDiffers(m: seq<Byte>, m': seq<Byte>, p: int, n: int)
    requires 0 <= p <= n <= |m| && n <= |m'|
    ensures !SamePrefix(m, m', p) ==> !SamePrefix(m, m', n)
  {
    assert m[..p] == m[..n][..p] && m'[..p] == m'[..n][..p];
  }
}
