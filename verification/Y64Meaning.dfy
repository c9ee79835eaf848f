/**
  The assembler keeps the meaning of a program: running the image on the simulator of lab4/y64sim.c is
  running the source lines, until a store hits the code.
 */
module Y64Meaning {
  import opened Wrappers
  import opened LittleEndian
  import opened Y64
  import opened Y64Syntax
  import opened Y64Source
  import opened Y64Asm
  import opened Y64Image
  import opened Y64Sim
  import opened Y64Text

  predicate CodeAt(m: seq<Byte>, e: Entry, labels: map<string, Long>) {
    e.At? && e.stmt.Some? && e.stmt.value.Code? ==>
      var code := Encode(Resolved(e.stmt.value, labels));
      && 0 <= e.addr <= |m| - |code| && m[e.addr..e.addr + |code|] == code
  }

  // Every instruction of the program lies in memory where its line is.
  ghost predicate CodeIntact(src: Source, m: seq<Byte>) {
    forall j :: 0 <= j < |src.entries| ==> CodeAt(m, src.entries[j], src.labels)
  }

  lemma SameLength(stmt: Stmt, labels: map<string, Long>)
    requires stmt.Code?
    ensures |Encode(Resolved(stmt, labels))| == Extent(stmt) && 1 <= Extent(stmt) <= 10
  {
    hide Pack, LongBytes;
  }

  // Loading the file into a memory that is large enough puts every instruction in place.
  lemma Loaded(file: seq<Byte>, src: Source, rest: seq<Byte>)
    requires ImageOf(file, src)
    ensures CodeIntact(src, file + rest)
  {
    hide StmtOk, LinkedCodes, Encode, Resolved, Extent;
    forall j | 0 <= j < |src.entries| ensures CodeAt(file + rest, src.entries[j], src.labels) {
      var e := src.entries[j];
      if e.At? && e.stmt.Some? && e.stmt.value.Code? {
        LinkedInstr(e.stmt.value, src.labels);
        SameLength(e.stmt.value, src.labels);
        var n := Extent(e.stmt.value);
        assert Y64Image.Holds(file, e, src.labels);
        assert (file + rest)[e.addr..e.addr + n] == file[e.addr..e.addr + n];
      }
    }
  }

  lemma LinkedInstr(stmt: Stmt, labels: map<string, Long>)
    requires stmt.Code? && StmtOk(stmt)
    ensures LinkedCodes(stmt, labels)[..Extent(stmt)] == Encode(Resolved(stmt, labels))
  {
    hide Encode, Resolved;
    SameLength(stmt, labels);
  }

  // One step: fetching and decoding bytes does what the line at the program counter says.
  lemma StepAgrees(src: Source, s: State)
    requires |s.mem| <= MAX_LEN && CodeIntact(src, s.mem) && SourceStep(src, s).Some?
    ensures NextI(s) == SourceStep(src, s).value
  {
    hide Exec, Encode, Resolved, Extent, Fetch, LineAt;
    var k := LineAt(src.entries, s.pc, 0).value;
    var e := src.entries[k];
    assert CodeAt(s.mem, e, src.labels);
    SameLength(e.stmt.value, src.labels);
    FetchEncode(Resolved(e.stmt.value, src.labels), s.mem, s.pc);
    NoWrap(s.pc as int + Extent(e.stmt.value));
  }

  lemma NoWrap(x: int)
    requires 0 <= x <= LONG_MAX
    ensures Wrap(x) == x
  {
  }

  // The address an instruction stores 8 bytes at
  function StoreAddr(i: Instr, s: State): Option<Long> {
    match i
    case Rmmovq(_, rb, disp) => Some(Wrap(ReadReg(s.regs, rb) + disp))
    case Call(_) => Some(Wrap(ReadReg(s.regs, RSP) - 8))
    case Pushq(_) => Some(Wrap(ReadReg(s.regs, RSP) - 8))
    case _ => None
  }

  lemma OnlyStore(i: Instr, s: State, next: Long)
    ensures var s' := Exec(i, s, next).0;
            && |s'.mem| == |s.mem|
            && forall p :: 0 <= p < |s.mem| && !(StoreAddr(i, s).Some? && StoreAddr(i, s).value <= p < StoreAddr(i, s).value + 8) ==>
                 s'.mem[p] == s.mem[p]
  {
    hide ReadReg, WriteReg, ComputeAlu, ComputeCC, CondHolds, Wrap, LongAt, LongBytes;
  }

  predicate Clear(e: Entry, a: Long) {
    e.At? && e.stmt.Some? && e.stmt.value.Code? ==> a as int + 8 <= e.addr || e.addr as int + Extent(e.stmt.value) <= a
  }

  // The step of the source at `s` stores nothing over an instruction.
  ghost predicate SparesCode(src: Source, s: State) {
    match LineAt(src.entries, s.pc, 0)
    case None => true
    case Some(k) =>
      match StoreAddr(Resolved(src.entries[k].stmt.value, src.labels), s)
      case None => true
      case Some(a) => forall j :: 0 <= j < |src.entries| ==> Clear(src.entries[j], a)
  }

  lemma StepKeepsCode(src: Source, s: State)
    requires CodeIntact(src, s.mem) && SparesCode(src, s) && SourceStep(src, s).Some?
    ensures var s' := SourceStep(src, s).value.0; |s'.mem| == |s.mem| && CodeIntact(src, s'.mem)
  {
    hide Exec, Encode, Resolved, Extent, LineAt, StoreAddr;
    var k := LineAt(src.entries, s.pc, 0).value;
    var stmt := src.entries[k].stmt.value;
    var i := Resolved(stmt, src.labels);
    OnlyStore(i, s, Wrap(s.pc as int + Extent(stmt)));
    var s' := SourceStep(src, s).value.0;
    forall j | 0 <= j < |src.entries| ensures CodeAt(s'.mem, src.entries[j], src.labels) {
      var e := src.entries[j];
      assert CodeAt(s.mem, e, src.labels);
      if e.At? && e.stmt.Some? && e.stmt.value.Code? {
        SameLength(e.stmt.value, src.labels);
        var n := Extent(e.stmt.value);
        assert StoreAddr(i, s).Some? ==> Clear(e, StoreAddr(i, s).value);
        assert s'.mem[e.addr..e.addr + n] == s.mem[e.addr..e.addr + n];
      }
    }
  }

  // Up to `n` steps of the source; None when the program counter leaves the instructions of the program
  function SourceRun(src: Source, s: State, n: nat): Option<(State, Stat)>
    decreases n
  {
    if n == 0 then Some((s, Aok)) else
      var (s', stat) :- SourceStep(src, s);
      if stat == Aok then SourceRun(src, s', n - 1) else Some((s', stat))
  }

  // The first `n` steps store nothing over an instruction.
  ghost predicate RunSparesCode(src: Source, s: State, n: nat)
    decreases n
  {
    n > 0 ==>
      && SparesCode(src, s)
      && (SourceStep(src, s).Some? && SourceStep(src, s).value.1 == Aok ==>
            RunSparesCode(src, SourceStep(src, s).value.0, n - 1))
  }

  // Meaning is preserved: as long as no earlier step has stored over an instruction, `n` steps of the
  // simulator are `n` steps of the source.
  lemma {:induction false} RunAgrees(src: Source, s: State, n: nat)
    requires |s.mem| <= MAX_LEN && CodeIntact(src, s.mem)
    requires n > 0 ==> RunSparesCode(src, s, n - 1)
    requires SourceRun(src, s, n).Some?
    ensures Run(s, n) == SourceRun(src, s, n).value
    decreases n
  {
    hide NextI, SourceStep, SparesCode, CodeIntact;
    if n > 0 {
      StepAgrees(src, s);
      var (s', stat) := SourceStep(src, s).value;
      if stat == Aok && n > 1 {
        StepKeepsCode(src, s);
        RunAgrees(src, s', n - 1);
      }
    }
  }

  // From text to run: what the assembler makes of the lines runs as the lines say.
  lemma ImageRuns(src: Source, file: seq<Byte>, s: State, n: nat)
    requires ImageOf(file, src) && |file| <= |s.mem| <= MAX_LEN && s.mem[..|file|] == file
    requires n > 0 ==> RunSparesCode(src, s, n - 1)
    requires SourceRun(src, s, n).Some?
    ensures Run(s, n) == SourceRun(src, s, n).value
  {
    hide *;
    assert s.mem == file + s.mem[|file|..];
    Loaded(file, src, s.mem[|file|..]);
    RunAgrees(src, s, n);
  }

  // The state in which the simulator of the program starts: its file at address 0, and zeros
  ghost predicate Booted(src: Source, start: State) {
    var end := FileEnd(src.entries, |src.entries|);
    && start.pc == 0 && |start.mem| == MEM_SIZE && 0 <= end < MEM_SIZE && Painted(start.mem[..end], src)
    && (forall a :: end <= a < MEM_SIZE ==> start.mem[a] == 0)
    && start.regs == seq(15, _ => 0) && start.cc == Flags(true, false, false)
  }

  // The two programs one after the other: what the lines are assembled to is loaded into a new simulator and
  // run.  It runs as the lines say, as long as no earlier step has stored over an instruction.
  method AssembleAndRun(texts: seq<string>, maxSteps: nat)
    returns (sim: Option<Simulator>, step: int, e: Stat, ghost start: State)
    requires match LayAll(texts, |texts|)
             case None => true
             case Some(src) => Closed(src) ==> InFile(src.entries)
    ensures sim.Some? <==>
              match LayAll(texts, |texts|)
              case None => false
              case Some(src) => Closed(src) && FileEnd(src.entries, |src.entries|) < MEM_SIZE
    ensures sim.Some? ==>
              var src := LayAll(texts, |texts|).value;
              && fresh(sim.value) && sim.value.Valid() && Booted(src, start)
              && (sim.value.Abs(), e) == Run(start, maxSteps)
              && (Forward(src.entries) && (maxSteps > 0 ==> RunSparesCode(src, start, maxSteps - 1)) ==>
                    SourceRun(src, start, maxSteps).Some? ==>
                      (sim.value.Abs(), e) == SourceRun(src, start, maxSteps).value)
  {
    hide LayAll, Forward, Closed, InFile, FileEnd, ImageOf, PaintAt, Run, SourceRun, RunSparesCode, RegsOf, AllOk;
    sim, step, e, start := None, 0, Aok, State(0, [], [], Flags(true, false, false));
    var file := AssembleFile(texts);
    if file == None {
      return;
    }
    var machine := new Simulator(MEM_SIZE);
    NoRegs(machine.r[..]);
    ghost var zeros := machine.m[..];
    var loaded := machine.LoadBinfile(file.value);
    if loaded < 0 {
      return;
    }
    start := machine.Abs();
    ghost var src := LayAll(texts, |texts|).value;
    assert start.mem == file.value + zeros[|file.value|..];
    assert start.mem[..|file.value|] == file.value;
    step, e := machine.RunSteps(maxSteps);
    sim := Some(machine);
    if Forward(src.entries) && (maxSteps > 0 ==> RunSparesCode(src, start, maxSteps - 1)) && SourceRun(src, start, maxSteps).Some? {
      ImageRuns(src, file.value, start, maxSteps);
    }
  }

  lemma NoRegs(r: seq<Byte>)
    requires REG_SIZE <= |r| && forall a :: 0 <= a < |r| ==> r[a] == 0
    ensures RegsOf(r) == seq(15, _ => 0)
  {
    assert forall id :: 0 <= id < 15 ==> LongAt(r, 8 * id) == 0;
  }

  // The printed text of an instruction is parsed to bytes from which that instruction is fetched.
  lemma TextToFetch(def: Option<string>, i: Instr, sym: Option<string>, tail: string, labels: map<string, Long>, m: seq<Byte>, pc: int)
    requires Writable(Code(i, sym)) && IsTail(tail) && (def.Some? ==> IsName(def.value))
    requires StmtOk(Code(i, sym)) && 0 <= pc && pc + Extent(Code(i, sym)) <= |m|
    requires m[pc..pc + Extent(Code(i, sym))] == LinkedCodes(Code(i, sym), labels)[..Extent(Code(i, sym))]
    ensures Parse(LineText(def, Code(i, sym), tail)) == Line(def, Some(Code(i, sym)))
    ensures Fetch(m, pc) == Fetched(Resolved(Code(i, sym), labels), Extent(Code(i, sym)))
  {
    hide Parse, LineText, Writable, IsTail, Fetch, Encode, Resolved, LinkedCodes, Extent;
    var stmt := Code(i, sym);
    ParseLineText(def, stmt, tail);
    LinkedInstr(stmt, labels);
    SameLength(stmt, labels);
    FetchEncode(Resolved(stmt, labels), m, pc);
  }
}
