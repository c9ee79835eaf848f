/**
  The assembler of lab5/y64asm.c: it reads the lines, builds symbol and relocation tables, patches the
  addresses in and lays out the image.
 */
module Y64Asm {
  import opened CString
  import opened Wrappers
  import opened LittleEndian
  import opened Y64
  import opened Y64Syntax
  import opened Y64Source

  // ---------- reading a line ----------

  // SKIP_BLANK
  method SkipBlanks(ptr: string) returns (r: string)
    ensures r == SkipBlank(ptr)
  {
    r := ptr;
    while r != [] && IsBlank(r[0])
      invariant SkipBlank(r) == SkipBlank(ptr)
      decreases |r|
    {
      r := r[1..];
    }
  }

  // The length of the letters and digits at `ptr`
  method ScanWord(ptr: string) returns (p: nat)
    ensures p == WordLen(ptr)
  {
    p := 0;
    while p < |ptr| && IsWordChar(ptr[p])
      invariant p <= |ptr| && WordLen(ptr) == p + WordLen(ptr[p..])
    {
      assert ptr[p..][1..] == ptr[p + 1..];
      p := p + 1;
    }
  }

  // sscanf(ptr, "%s", token)
  method ScanToken(ptr: string) returns (token: string)
    ensures var u := SkipSpace(ptr); token == u[..TokenLen(u)]
  {
    var u := ptr;
    while u != [] && IsSpace(u[0])
      invariant SkipSpace(u) == SkipSpace(ptr)
      decreases |u|
    {
      u := u[1..];
    }
    var p := 0;
    while p < |u| && !IsSpace(u[p])
      invariant p <= |u| && TokenLen(u) == p + TokenLen(u[p..])
    {
      assert u[p..][1..] == u[p + 1..];
      p := p + 1;
    }
    token := u[..p];
  }

  // find_register
  method FindRegister(name: string) returns (r: Option<Reg>)
    ensures r == RegisterFrom(name, 0)
  {
    for i := 0 to 15
      invariant RegisterFrom(name, 0) == RegisterFrom(name, i)
    {
      if REG_TABLE[i] <= name {
        return Some(i);
      }
    }
    return None;
  }

  // find_instr
  method FindInstr(name: string) returns (r: Option<Row>)
    ensures r == InstrFrom(name, 0)
  {
    for i := 0 to INSTR_COUNT
      invariant InstrFrom(name, 0) == InstrFrom(name, i)
    {
      if InstrSet(i).name <= name {
        return Some(InstrSet(i));
      }
    }
    return None;
  }

  // parse_instr
  method ScanInstr(ptr: string) returns (r: Option<(Row, string)>)
    ensures r == ParseInstr(ptr)
  {
    hide InstrFrom;
    var t := SkipBlanks(ptr);
    var token := ScanToken(t);
    var inst := FindInstr(token);
    if inst == None || |inst.value.name| > |t| {
      return None;
    }
    return Some((inst.value, t[|inst.value.name|..]));
  }

  // parse_delim
  method ScanDelim(ptr: string, delim: char) returns (r: Option<string>)
    ensures r == ParseDelim(ptr, delim)
  {
    var t := SkipBlanks(ptr);
    if t == [] || t[0] != delim {
      return None;
    }
    return Some(t[1..]);
  }

  // parse_reg
  method ScanReg(ptr: string) returns (r: Option<(Reg, string)>)
    ensures r == ParseReg(ptr)
  {
    hide RegisterFrom;
    var t := SkipBlanks(ptr);
    if t == [] || t[0] != '%' {
      return None;
    }
    var p := ScanWord(t[1..]);
    var reg := FindRegister(t[..p + 1]);
    if reg == None {
      return None;
    }
    return Some((reg.value, t[p + 1..]));
  }

  // parse_symbol
  method ScanSymbol(ptr: string) returns (r: Option<(string, string)>)
    ensures r == ParseSymbol(ptr)
  {
    var t := SkipBlanks(ptr);
    if t == [] || !IsLetter(t[0]) {
      return None;
    }
    var p := ScanWord(t);
    return Some((t[..p], t[p..]));
  }

  // parse_digit
  method ScanDigit(ptr: string) returns (r: Option<(Long, string)>)
    ensures r == ParseDigit(ptr)
  {
    var t := SkipBlanks(ptr);
    if t == [] || !IsDigit(t[0]) {
      return None;
    }
    return Some(Strtoul(t));
  }

  // parse_imm
  method ScanImm(ptr: string) returns (r: Option<(Operand, string)>)
    ensures r == ParseImm(ptr)
  {
    hide Strtoul;
    var t := SkipBlanks(ptr);
    if t == [] {
      return None;
    }
    if t[0] == '$' {
      if |t| == 1 || !IsDigit(t[1]) {
        return None;
      }
      var (v, rest) := Strtoul(t[1..]);
      return Some((Num(v), rest));
    }
    if IsLetter(t[0]) {
      var sym := ScanSymbol(t);
      if sym == None {
        return None;
      }
      return Some((Sym(sym.value.0), sym.value.1));
    }
    SkipBlankTwice(ptr);
    return None;
  }

  lemma {:induction false} SkipBlankTwice(s: string)
    ensures SkipBlank(SkipBlank(s)) == SkipBlank(s)
    ensures SkipBlank(s) != [] ==> !IsBlank(SkipBlank(s)[0])
  {
    if s != [] && IsBlank(s[0]) {
      SkipBlankTwice(s[1..]);
    }
  }

  // parse_mem
  method ScanMem(ptr: string) returns (r: Option<(Long, Reg, string)>)
    ensures r == ParseMem(ptr)
  {
    hide ParseDigit, ParseReg;
    var t := SkipBlanks(ptr);
    var v, u := 0, t;
    if t == [] || t[0] != '(' {
      var d := ScanDigit(t);
      if d == None {
        return None;
      }
      v, u := d.value.0, d.value.1;
    }
    if u == [] || u[0] != '(' {
      return None;
    }
    var reg := ScanReg(u[1..]);
    if reg == None {
      return None;
    }
    var (id, rest) := reg.value;
    if rest == [] || rest[0] != ')' {
      return None;
    }
    return Some((v, id, rest[1..]));
  }

  // parse_data
  method ScanData(ptr: string) returns (r: Option<(Operand, string)>)
    ensures r == ParseData(ptr)
  {
    hide Strtoul;
    var t := SkipBlanks(ptr);
    if t != [] && IsDigit(t[0]) {
      var (v, rest) := Strtoul(t);
      return Some((Num(v), rest));
    }
    SkipBlankTwice(ptr);
    if t != [] && IsLetter(t[0]) {
      var sym := ScanSymbol(t);
      if sym == None {
        return None;
      }
      return Some((Sym(sym.value.0), sym.value.1));
    }
    return None;
  }

  // parse_label
  method ScanLabel(ptr: string) returns (r: Option<(string, string)>)
    ensures r == ParseLabel(ptr)
  {
    SkipBlankTwice(ptr);
    var t := SkipBlanks(ptr);
    if t == [] || !IsLetter(t[0]) {
      return None;
    }
    var p := ScanWord(t);
    var name := t[..p];
    if p == |t| || t[p] != ':' {
      return None;
    }
    return Some((name, t[p + 1..]));
  }

  // IS_END or IS_COMMENT after blanks
  method ScanEnd(ptr: string) returns (b: bool)
    ensures b == AtEnd(ptr)
  {
    var t := SkipBlanks(ptr);
    b := t == [] || t[0] == '#';
  }

  // ---------- machine code ----------

  // line_t; `codes` are the 10 bytes of y64bin.
  datatype AsmLine = AsmLine(isInstr: bool, addr: Long, codes: seq<Byte>, bytes: int)

  datatype Symbol = Symbol(name: string, addr: Long)

  // reloc_t; `line` is the number of the line to patch.
  datatype Reloc = Reloc(line: nat, name: string)

  function Pad(s: seq<Byte>): (codes: seq<Byte>)
    requires |s| <= 10
    ensures |codes| == 10
  {
    s + seq(10 - |s|, _ => 0)
  }

  // A row of the instruction set.
  predicate RowOk(row: Row) {
    CodeOk(row.icode, row.ifun, row.bytes) && (row.icode == DIRECTIVE ==> NameOk(row))
  }

  // Function code and length go with the instruction code.
  predicate CodeOk(icode: Nibble, ifun: Nibble, bytes: int) {
    && icode <= DIRECTIVE && bytes >= 0
    && (icode < DIRECTIVE ==> bytes == 1 + (if NeedsRegs(icode) then 1 else 0) + (if NeedsImm(icode) then 8 else 0))
    && (icode == 2 || icode == 7 ==> ifun <= 6) && (icode == 6 ==> ifun <= 3)
    && (icode < DIRECTIVE && icode != 2 && icode != 7 && icode != 6 ==> ifun == 0)
    && (icode == DIRECTIVE ==> if ifun == 0 then bytes in {1, 2, 4, 8} else bytes == 0 && ifun <= 2)
  }

  predicate NameOk(row: Row) {
    (row.name == ".pos" <==> row.ifun == 1) && (row.name == ".align" <==> row.ifun == 2)
  }

  lemma TableOk(k: nat)
    requires k < INSTR_COUNT
    ensures RowOk(InstrSet(k))
  {
    hide NameOk;
    TableCodes(k);
    if k >= 27 {
      TableNames(k);
    }
  }

  lemma TableCodes(k: nat)
    requires k < INSTR_COUNT
    ensures CodeOk(InstrSet(k).icode, InstrSet(k).ifun, InstrSet(k).bytes)
    ensures k < 27 ==> InstrSet(k).icode < DIRECTIVE
  {
  }

  lemma TableNames(k: nat)
    requires 27 <= k < INSTR_COUNT
    ensures NameOk(InstrSet(k))
  {
    if k < 31 {
      assert |InstrSet(k).name| == 5;
    }
  }

  lemma {:induction false} FoundOk(token: string, i: nat)
    requires i <= INSTR_COUNT
    ensures InstrFrom(token, i).Some? ==> RowOk(InstrFrom(token, i).value)
    decreases INSTR_COUNT - i
  {
    hide RowOk;
    if i < INSTR_COUNT {
      TableOk(i);
      FoundOk(token, i + 1);
    }
  }

  // A statement as the parser makes it: data of four widths, names in three instructions only
  predicate StmtOk(stmt: Stmt) {
    && (stmt.Data? ==> stmt.width in {1, 2, 4, 8})
    && (stmt.Code? && stmt.sym.Some? ==> stmt.i.Irmovq? || stmt.i.Jxx? || stmt.i.Call?)
  }

  // The bytes of a statement before the addresses of names are known
  function UnlinkedCodes(stmt: Stmt): (codes: seq<Byte>)
    requires StmtOk(stmt)
    ensures |codes| == 10
  {
    match stmt
    case Code(i, _) => Pad(Encode(i))
    case Data(width, Num(v)) => Pad(LongBytes(v)[..width])
    case Data(_, Sym(_)) => Pad([Pack(DIRECTIVE, 0)])
    case Pos(_) => Pad([Pack(DIRECTIVE, 1)])
    case Align(_) => Pad([Pack(DIRECTIVE, 2)])
  }

  // memcpy(codes + at, s, |s|)
  function Overwrite(codes: seq<Byte>, at: int, s: seq<Byte>): (r: seq<Byte>)
    requires 0 <= at && at + |s| <= |codes|
    ensures |r| == |codes|
  {
    codes[..at] + s + codes[at + |s|..]
  }

  lemma ZeroLong()
    ensures LongBytes(0) == [0, 0, 0, 0, 0, 0, 0, 0]
  {
  }

  // The bytes of an instruction, put together the way parse_line does it
  lemma PaddedRegs(code: Byte, regs: Byte)
    ensures Pad([code])[1 := regs] == Pad([code, regs])
  {
  }

  lemma PaddedImm(code: Byte, regs: Byte, v: Long)
    ensures Overwrite(Pad([code]), 2, LongBytes(v))[1 := regs] == Pad([code, regs] + LongBytes(v))
    ensures Overwrite(Pad([code])[1 := regs], 2, LongBytes(v)) == Pad([code, regs] + LongBytes(v))
  {
    hide LongBytes;
  }

  lemma PaddedZero(code: Byte, regs: Byte)
    ensures Pad([code])[1 := regs] == Pad([code, regs] + LongBytes(0))
    ensures Pad([code]) == Pad([code] + LongBytes(0))
  {
    ZeroLong();
  }

  lemma PaddedData(code: Byte, s: seq<Byte>)
    requires 1 <= |s| <= 10
    ensures Overwrite(Pad([code]), 0, s) == Pad(s)
  {
  }

  // What parse_line's switch gets out of the operands: the 10 bytes, the name to relocate, the rest.
  datatype Scanned = Scanned(codes: seq<Byte>, sym: Option<string>, rest: string)

  ghost predicate ScanAgrees(r: Option<Scanned>, spec: Option<(Stmt, string)>, bytes: int) {
    match spec
    case None => r == None
    case Some((stmt, rest)) =>
      && StmtOk(stmt)
      && r == Some(Scanned(UnlinkedCodes(stmt), SymOf(stmt), rest))
      && Extent(stmt) == bytes
  }

  // The instruction cases of parse_line's switch
  method ScanOperands(inst: Row, ptr: string) returns (r: Option<Scanned>)
    requires RowOk(inst) && inst.icode < DIRECTIVE
    ensures ScanAgrees(r, ParseOperands(inst, ptr), inst.bytes)
  {
    hide ParseReg, ParseDelim, ParseMem, ParseImm, ParseSymbol, High, Low, Pack, LongBytes, Pad, Overwrite;
    var icode := inst.icode;
    var codes := Pad([inst.Code()]);
    if icode == 0 || icode == 1 || icode == 9 {
      return Some(Scanned(codes, None, ptr));
    } else if icode == 2 || icode == 6 {
      r := ScanTwoRegs(inst, ptr);
    } else if icode == 3 {
      r := ScanIrmovq(inst, ptr);
    } else if icode == 4 {
      r := ScanRmmovq(inst, ptr);
    } else if icode == 5 {
      r := ScanMrmovq(inst, ptr);
    } else if icode == 7 || icode == 8 {
      PaddedZero(inst.Code(), 0);
      var sym := ScanSymbol(ptr);
      if sym == None {
        return None;
      }
      return Some(Scanned(codes, Some(sym.value.0), sym.value.1));
    } else {
      var ra := ScanReg(ptr);
      if ra == None {
        return None;
      }
      PaddedRegs(inst.Code(), Pack(ra.value.0, NONE));
      return Some(Scanned(codes[1 := Pack(ra.value.0, NONE)], None, ra.value.1));
    }
  }

  method ScanTwoRegs(inst: Row, ptr: string) returns (r: Option<Scanned>)
    requires RowOk(inst) && (inst.icode == 2 || inst.icode == 6)
    ensures ScanAgrees(r, ParseOperands(inst, ptr), inst.bytes)
  {
    hide ParseReg, ParseDelim, ParseMem, ParseImm, ParseSymbol, High, Low, Pack, LongBytes, Pad, Overwrite;
    var ra := ScanReg(ptr);
    if ra == None {
      return None;
    }
    var delim := ScanDelim(ra.value.1, ',');
    if delim == None {
      return None;
    }
    var rb := ScanReg(delim.value);
    if rb == None {
      return None;
    }
    var regs := Pack(ra.value.0, rb.value.0);
    PaddedRegs(inst.Code(), regs);
    return Some(Scanned(Pad([inst.Code()])[1 := regs], None, rb.value.1));
  }

  method ScanIrmovq(inst: Row, ptr: string) returns (r: Option<Scanned>)
    requires RowOk(inst) && inst.icode == 3
    ensures ScanAgrees(r, ParseOperands(inst, ptr), inst.bytes)
  {
    hide ParseReg, ParseDelim, ParseMem, ParseImm, ParseSymbol, High, Low, Pack, LongBytes, Pad, Overwrite;
    var codes := Pad([inst.Code()]);
    var imm := ScanImm(ptr);
    if imm == None {
      return None;
    }
    var sym := None;
    match imm.value.0 {
      case Sym(name) => sym := Some(name);
      case Num(v) => codes := Overwrite(codes, 2, LongBytes(v));
    }
    var delim := ScanDelim(imm.value.1, ',');
    if delim == None {
      return None;
    }
    var rb := ScanReg(delim.value);
    if rb == None {
      return None;
    }
    var regs := Pack(NONE, rb.value.0);
    PaddedZero(inst.Code(), regs);
    PaddedImm(inst.Code(), regs, if imm.value.0.Num? then imm.value.0.v else 0);
    return Some(Scanned(codes[1 := regs], sym, rb.value.1));
  }

  method ScanRmmovq(inst: Row, ptr: string) returns (r: Option<Scanned>)
    requires RowOk(inst) && inst.icode == 4
    ensures ScanAgrees(r, ParseOperands(inst, ptr), inst.bytes)
  {
    hide ParseReg, ParseDelim, ParseMem, ParseImm, ParseSymbol, High, Low, Pack, LongBytes, Pad, Overwrite;
    var ra := ScanReg(ptr);
    if ra == None {
      return None;
    }
    var delim := ScanDelim(ra.value.1, ',');
    if delim == None {
      return None;
    }
    var mem := ScanMem(delim.value);
    if mem == None {
      return None;
    }
    var (value, rb, rest) := mem.value;
    var regs := Pack(ra.value.0, rb);
    PaddedImm(inst.Code(), regs, value);
    return Some(Scanned(Overwrite(Pad([inst.Code()])[1 := regs], 2, LongBytes(value)), None, rest));
  }

  method ScanMrmovq(inst: Row, ptr: string) returns (r: Option<Scanned>)
    requires RowOk(inst) && inst.icode == 5
    ensures ScanAgrees(r, ParseOperands(inst, ptr), inst.bytes)
  {
    hide ParseReg, ParseDelim, ParseMem, ParseImm, ParseSymbol, High, Low, Pack, LongBytes, Pad, Overwrite;
    var mem := ScanMem(ptr);
    if mem == None {
      return None;
    }
    var (value, ra, rest) := mem.value;
    var delim := ScanDelim(rest, ',');
    if delim == None {
      return None;
    }
    var rb := ScanReg(delim.value);
    if rb == None {
      return None;
    }
    var regs := Pack(rb.value.0, ra);
    PaddedImm(inst.Code(), regs, value);
    return Some(Scanned(Overwrite(Pad([inst.Code()])[1 := regs], 2, LongBytes(value)), None, rb.value.1));
  }

  // The directive cases of parse_line's switch, moves of the address left aside
  method ScanDirective(inst: Row, ptr: string) returns (r: Option<Scanned>)
    requires RowOk(inst) && inst.icode == DIRECTIVE && inst.bytes > 0
    ensures ScanAgrees(r, ParseOperands(inst, ptr), inst.bytes)
  {
    hide ParseData, High, Low, Pack, LongBytes;
    var codes := Pad([inst.Code()]);
    var data := ScanData(ptr);
    if data == None {
      return None;
    }
    match data.value.0 {
      case Num(value) =>
        PaddedData(inst.Code(), LongBytes(value)[..inst.bytes]);
        codes := Overwrite(codes, 0, LongBytes(value)[..inst.bytes]);
        return Some(Scanned(codes, None, data.value.1));
      case Sym(name) =>
        return Some(Scanned(codes, Some(name), data.value.1));
    }
  }

  // ---------- tables and source ----------

  function UnlinkedLine(e: Entry): AsmLine
    requires EntryOk(e)
  {
    match e
    case Comment => AsmLine(false, 0, Pad([]), 0)
    case At(addr, None) => AsmLine(true, addr, Pad([]), 0)
    case At(addr, Some(stmt)) => AsmLine(true, addr, UnlinkedCodes(stmt), Extent(stmt))
  }

  predicate EntryOk(e: Entry) {
    e.At? && e.stmt.Some? ==> StmtOk(e.stmt.value)
  }

  // The bytes of a statement once the addresses of names are known
  function LinkedCodes(stmt: Stmt, labels: map<string, Long>): (codes: seq<Byte>)
    requires StmtOk(stmt)
    ensures |codes| == 10
  {
    match stmt
    case Code(_, _) => Pad(Encode(Resolved(stmt, labels)))
    case Data(width, Sym(name)) =>
      if name in labels then Pad(LongBytes(labels[name])[..width]) else UnlinkedCodes(stmt)
    case _ => UnlinkedCodes(stmt)
  }

  function LinkedLine(e: Entry, labels: map<string, Long>): AsmLine
    requires EntryOk(e)
  {
    match e
    case At(addr, Some(stmt)) => AsmLine(true, addr, LinkedCodes(stmt, labels), Extent(stmt))
    case _ => UnlinkedLine(e)
  }

  predicate Listed(symtab: seq<Symbol>, name: string) {
    exists k :: 0 <= k < |symtab| && symtab[k].name == name
  }

  // The symbol table holds every label once.
  ghost predicate SymtabIs(symtab: seq<Symbol>, labels: map<string, Long>) {
    && (forall k :: 0 <= k < |symtab| ==> symtab[k].name in labels && labels[symtab[k].name] == symtab[k].addr)
    && (forall name :: name in labels ==> Listed(symtab, name))
    && (forall j, k :: 0 <= j < k < |symtab| ==> symtab[j].name != symtab[k].name)
  }

  // The relocation table holds the lines that refer to a name, in order, each once.
  ghost predicate ReltabIs(reltab: seq<Reloc>, entries: seq<Entry>) {
    && (forall k :: 0 <= k < |reltab| ==>
          reltab[k].line < |entries| && EntrySym(entries[reltab[k].line]) == Some(reltab[k].name))
    && (forall j, k :: 0 <= j < k < |reltab| ==> reltab[j].line < reltab[k].line)
    && (forall j :: 0 <= j < |entries| && EntrySym(entries[j]).Some? ==> exists k :: 0 <= k < |reltab| && reltab[k].line == j)
  }

  ghost predicate AllOk(entries: seq<Entry>) {
    forall j :: 0 <= j < |entries| ==> EntryOk(entries[j])
  }

  lemma ReltabAppend(reltab: seq<Reloc>, entries: seq<Entry>, e: Entry)
    requires ReltabIs(reltab, entries)
    ensures ReltabIs(if EntrySym(e).Some? then reltab + [Reloc(|entries|, EntrySym(e).value)] else reltab, entries + [e])
  {
    hide EntrySym;
    var reltab' := if EntrySym(e).Some? then reltab + [Reloc(|entries|, EntrySym(e).value)] else reltab;
    forall j | 0 <= j < |entries + [e]| && EntrySym((entries + [e])[j]).Some?
      ensures exists k :: 0 <= k < |reltab'| && reltab'[k].line == j
    {
      if j < |entries| {
        var k :| 0 <= k < |reltab| && reltab[k].line == j;
        assert reltab'[k].line == j;
      } else {
        assert reltab'[|reltab|].line == j;
      }
    }
  }

  lemma SymtabAppend(symtab: seq<Symbol>, labels: map<string, Long>, name: string, addr: Long)
    requires SymtabIs(symtab, labels)
    ensures Listed(symtab, name) <==> name in labels
    ensures name !in labels ==> SymtabIs(symtab + [Symbol(name, addr)], labels[name := addr])
  {
    if name in labels {
      return;
    }
    var symtab' := symtab + [Symbol(name, addr)];
    forall n | n in labels[name := addr] ensures Listed(symtab', n) {
      if n != name {
        assert Listed(symtab, n);
        var k :| 0 <= k < |symtab| && symtab[k].name == n;
        assert symtab'[k].name == n;
      } else {
        assert symtab'[|symtab|].name == n;
      }
    }
  }

  lemma InstrRowOk(ptr: string)
    ensures ParseInstr(ptr).Some? ==> RowOk(ParseInstr(ptr).value.0)
  {
    var u := SkipSpace(SkipBlank(ptr));
    FoundOk(u[..TokenLen(u)], 0);
  }

  // Only .pos and .align, which take up no bytes, move the address.
  lemma NoMove(row: Row, s: string, here: Long)
    requires RowOk(row) && !(row.icode == DIRECTIVE && row.bytes == 0) && ParseOperands(row, s).Some?
    ensures Place(here, ParseOperands(row, s).value.0) == Some(here)
  {
    hide ParseReg, ParseDelim, ParseMem, ParseImm, ParseSymbol, ParseData, ParseDigit, ParseRegs, High, Low;
  }

  // .pos and .align take up no bytes.
  lemma MoveExtent(row: Row, s: string, here: Long)
    requires RowOk(row) && row.icode == DIRECTIVE && row.bytes == 0
    ensures match ParseOperands(row, s)
            case None => true
            case Some((stmt, _)) =>
              Place(here, stmt).Some? ==> Wrap(Place(here, stmt).value as int + Extent(stmt)) == Place(here, stmt).value
  {
    hide ParseDigit, ParseData, High, Low;
  }

  lemma RowBounds(row: Row)
    requires RowOk(row)
    ensures row.icode <= DIRECTIVE && row.bytes >= 0
  {
  }

  // The lines without a statement
  lemma EmptyLines(here: Long)
    ensures UnlinkedLine(Comment) == AsmLine(false, 0, Pad([]), 0) && EntrySym(Comment) == None
    ensures UnlinkedLine(At(here, None)) == AsmLine(true, here, Pad([]), 0) && EntrySym(At(here, None)) == None
    ensures EntryOk(Comment) && EntryOk(At(here, None))
  {
  }

  // Add the statement of a line to the program, its label already added.
  function LayStmt(src: Source, s: string): Option<Source> {
    var stmt :- ParseStmt(s);
    var addr :- Place(src.here, stmt);
    Some(Source(src.entries + [At(addr, Some(stmt))], src.labels, Wrap(addr as int + Extent(stmt))))
  }

  function LayLabelled(src: Source, name: string, rest: string): Option<Source> {
    var src' := src.(labels := src.labels[name := src.here]);
    if name in src.labels then None
    else if AtEnd(rest) then Some(src'.(entries := src.entries + [At(src.here, None)]))
    else LayStmt(src', rest)
  }

  // The order in which parse_line adds label and statement
  lemma LayLine(src: Source, text: string)
    ensures Lay(src, text) ==
            if AtEnd(text) then Some(src.(entries := src.entries + [Comment]))
            else match ParseLabel(text)
              case None => LayStmt(src, text)
              case Some((name, rest)) => LayLabelled(src, name, rest)
  {
    hide ParseStmt, ParseLabel, AtEnd, Place, Extent, Wrap;
  }

  // A line that cannot be read makes the whole program unreadable.
  lemma {:induction false} LayFails(texts: seq<string>, n: nat)
    requires n <= |texts| && LayAll(texts, n) == None
    ensures LayAll(texts, |texts|) == None
    decreases |texts| - n
  {
    if n < |texts| {
      LayFails(texts, n + 1);
    }
  }

  // ---------- relocation ----------

  // The switch of relocate: where the address goes depends on the instruction code alone.
  function Patch(codes: seq<Byte>, bytes: int, addr: Long): (r: seq<Byte>)
    requires |codes| == 10 && 0 <= bytes <= 10
    ensures |r| == 10
  {
    var icode := High(codes[0]);
    if (icode == 3 || icode == 7 || icode == 8) && bytes >= 8 then Overwrite(codes, bytes - 8, LongBytes(addr))
    else if icode == DIRECTIVE && bytes in {1, 2, 4, 8} then Overwrite(codes, 0, LongBytes(addr)[..bytes])
    else codes
  }

  function PatchLine(line: AsmLine, addr: Long): AsmLine
    requires |line.codes| == 10 && 0 <= line.bytes <= 10
  {
    line.(codes := Patch(line.codes, line.bytes, addr))
  }

  // Patching puts in the bytes that the instruction has with the address in place of the name.
  lemma PatchLinks(stmt: Stmt, labels: map<string, Long>)
    requires StmtOk(stmt) && SymOf(stmt).Some? && SymOf(stmt).value in labels
    ensures 0 <= Extent(stmt) <= 10
    ensures Patch(UnlinkedCodes(stmt), Extent(stmt), labels[SymOf(stmt).value]) == LinkedCodes(stmt, labels)
  {
    hide High, Low, Pack, LongBytes;
  }

  lemma PatchEntry(e: Entry, labels: map<string, Long>)
    requires EntryOk(e) && EntrySym(e).Some? && EntrySym(e).value in labels
    ensures var line := UnlinkedLine(e);
            |line.codes| == 10 && 0 <= line.bytes <= 10 && PatchLine(line, labels[EntrySym(e).value]) == LinkedLine(e, labels)
  {
    hide UnlinkedCodes, LinkedCodes, Patch, Extent, SymOf;
    PatchLinks(e.stmt.value, labels);
  }

  // A line without a name is not patched.
  lemma NoName(e: Entry, labels: map<string, Long>)
    requires EntryOk(e) && EntrySym(e) == None
    ensures LinkedLine(e, labels) == UnlinkedLine(e)
  {
  }

  // The first of the bytes that name's address goes to, and how many they are
  function FieldStart(stmt: Stmt): (p: int)
    requires StmtOk(stmt)
  {
    if stmt.Code? then Extent(stmt) - 8 else 0
  }

  function FieldWidth(stmt: Stmt): (n: int) {
    if stmt.Data? then stmt.width else 8
  }

  // Relocation writes the low bytes of the address into the field of the statement and nothing else.
  lemma FieldOnly(stmt: Stmt, labels: map<string, Long>)
    requires StmtOk(stmt) && SymOf(stmt).Some? && SymOf(stmt).value in labels
    ensures var p, n := FieldStart(stmt), FieldWidth(stmt);
            && 0 <= p && p + n == Extent(stmt) <= 10 && 0 <= n <= 8
            && LinkedCodes(stmt, labels)[p..p + n] == LongBytes(labels[SymOf(stmt).value])[..n]
            && (forall q :: 0 <= q < 10 && !(p <= q < p + n) ==> LinkedCodes(stmt, labels)[q] == UnlinkedCodes(stmt)[q])
  {
    hide High, Low, Pack, LongBytes;
  }

  // Every line is as its entry says, with all names replaced.
  ghost predicate Linked(lines: seq<AsmLine>, src: Source) {
    && AllOk(src.entries)
    && |lines| == |src.entries| && (forall j :: 0 <= j < |lines| ==> lines[j] == LinkedLine(src.entries[j], src.labels))
  }

  ghost predicate Visited(reltab: seq<Reloc>, k: nat, j: nat) {
    exists i :: 0 <= i < k && i < |reltab| && reltab[i].line == j
  }

  // The lines that the first `k` relocations are about are patched, the others are not.
  ghost predicate LinkedUpTo(lines: seq<AsmLine>, reltab: seq<Reloc>, k: nat, src: Source) {
    && k <= |reltab| && AllOk(src.entries) && ReltabIs(reltab, src.entries)
    && |lines| == |src.entries|
    && (forall j :: 0 <= j < |lines| ==>
          lines[j] == if Visited(reltab, k, j) then LinkedLine(src.entries[j], src.labels) else UnlinkedLine(src.entries[j]))
  }

  lemma SymtabFinds(symtab: seq<Symbol>, labels: map<string, Long>, name: string)
    requires SymtabIs(symtab, labels)
    ensures name in labels <==> exists k :: 0 <= k < |symtab| && symtab[k].name == name
    ensures forall sym :: sym in symtab && sym.name == name ==> name in labels && labels[name] == sym.addr
  {
    assert Listed(symtab, name) <==> name in labels;
  }

  lemma NotClosed(reltab: seq<Reloc>, k: nat, src: Source)
    requires ReltabIs(reltab, src.entries) && k < |reltab| && reltab[k].name !in src.labels
    ensures !Closed(src)
  {
    hide EntrySym;
    assert EntrySym(src.entries[reltab[k].line]) == Some(reltab[k].name);
  }

  lemma LinkMore(lines: seq<AsmLine>, reltab: seq<Reloc>, k: nat, src: Source)
    requires LinkedUpTo(lines, reltab, k, src) && k < |reltab| && reltab[k].name in src.labels
    ensures var n := reltab[k].line;
            && n < |lines| && |lines[n].codes| == 10 && 0 <= lines[n].bytes <= 10
            && LinkedUpTo(lines[n := PatchLine(lines[n], src.labels[reltab[k].name])], reltab, k + 1, src)
  {
    hide EntrySym, LinkedLine, UnlinkedLine, EntryOk, PatchLine;
    var n := reltab[k].line;
    assert !Visited(reltab, k, n);
    PatchEntry(src.entries[n], src.labels);
    forall j | 0 <= j < |lines| ensures Visited(reltab, k + 1, j) <==> Visited(reltab, k, j) || j == n {
      VisitMore(reltab, k, j);
    }
  }

  lemma VisitMore(reltab: seq<Reloc>, k: nat, j: nat)
    requires k < |reltab|
    ensures Visited(reltab, k + 1, j) <==> Visited(reltab, k, j) || j == reltab[k].line
  {
  }

  lemma AllLinked(lines: seq<AsmLine>, reltab: seq<Reloc>, src: Source)
    requires LinkedUpTo(lines, reltab, |reltab|, src) && forall i :: 0 <= i < |reltab| ==> reltab[i].name in src.labels
    ensures Closed(src) && Linked(lines, src)
  {
    hide EntrySym, LinkedLine, UnlinkedLine, EntryOk;
    forall j | 0 <= j < |lines|
      ensures EntrySym(src.entries[j]).Some? ==> EntrySym(src.entries[j]).value in src.labels
      ensures lines[j] == LinkedLine(src.entries[j], src.labels)
    {
      if EntrySym(src.entries[j]).Some? {
        var k :| 0 <= k < |reltab| && reltab[k].line == j;
        assert Visited(reltab, |reltab|, j);
      } else {
        NoName(src.entries[j], src.labels);
      }
    }
  }

  // ---------- the image ----------

  // What binfile works out as the size of the file: the end of the last line that has bytes
  function FileSize(lines: seq<AsmLine>, n: nat): int
    requires n <= |lines|
  {
    if n == 0 then 0
    else if lines[n - 1].isInstr && lines[n - 1].bytes > 0 then lines[n - 1].addr + lines[n - 1].bytes
    else FileSize(lines, n - 1)
  }

  predicate Covers(line: AsmLine, p: int) {
    line.isInstr && line.addr <= p < line.addr + line.bytes && |line.codes| == 10 && line.bytes <= 10
  }

  // The byte at `p` after the first `n` lines have been copied: that of the last line there, else 0
  function ByteAt(lines: seq<AsmLine>, n: nat, p: int): Byte
    requires n <= |lines|
  {
    if n == 0 then 0
    else if Covers(lines[n - 1], p) then lines[n - 1].codes[p - lines[n - 1].addr]
    else ByteAt(lines, n - 1, p)
  }

  // The bytes of a line lie in a file of `size` bytes.
  predicate Inside(line: AsmLine, size: int) {
    line.isInstr && line.bytes > 0 ==> 0 <= line.addr <= size - line.bytes && |line.codes| == 10 && line.bytes <= 10
  }

  // memcpy(image + at, codes, n)
  method CopyCodes(image: array<Byte>, at: int, codes: seq<Byte>, n: int)
    requires 0 <= at && 0 <= n <= |codes| && at + n <= image.Length
    modifies image
    ensures forall p :: 0 <= p < image.Length ==> image[p] == if at <= p < at + n then codes[p - at] else old(image[p])
  {
    for i := 0 to n
      invariant forall p :: 0 <= p < image.Length ==> image[p] == if at <= p < at + i then codes[p - at] else old(image[p])
    {
      image[at + i] := codes[i];
    }
  }

  datatype LineType = TypeComm | TypeIns | TypeErr

  class Assembler {
    var lines: seq<AsmLine>
    var symtab: seq<Symbol>
    var reltab: seq<Reloc>
    var vmaddr: Long

    // init
    constructor ()
      ensures Holds(EMPTY)
    {
      lines, symtab, reltab, vmaddr := [], [], [], 0;
    }

    // The tables after the lines of `src` have been read
    ghost predicate Holds(src: Source)
      reads this
    {
      && AllOk(src.entries)
      && |lines| == |src.entries| && (forall j :: 0 <= j < |lines| ==> lines[j] == UnlinkedLine(src.entries[j]))
      && SymtabIs(symtab, src.labels) && ReltabIs(reltab, src.entries) && vmaddr == src.here
    }

    // find_symbol
    method FindSymbol(name: string) returns (r: Option<Symbol>)
      ensures match r
              case Some(sym) => exists k :: 0 <= k < |symtab| && symtab[k] == sym && sym.name == name && !Listed(symtab[..k], name)
              case None => !Listed(symtab, name)
    {
      for k := 0 to |symtab|
        invariant forall j :: 0 <= j < k ==> symtab[j].name != name
      {
        if symtab[k].name == name {
          return Some(symtab[k]);
        }
      }
      return None;
    }

    // add_symbol, and the address parse_line gives the new symbol
    method AddSymbol(name: string, addr: Long) returns (r: int)
      modifies this`symtab
      ensures r == if Listed(old(symtab), name) then -1 else 0
      ensures symtab == if r == 0 then old(symtab) + [Symbol(name, addr)] else old(symtab)
    {
      var found := FindSymbol(name);
      if found != None {
        return -1;
      }
      symtab := symtab + [Symbol(name, addr)];
      return 0;
    }

    // add_reloc for the line that is being read
    method AddReloc(name: string)
      modifies this`reltab
      ensures reltab == old(reltab) + [Reloc(|lines|, name)]
    {
      reltab := reltab + [Reloc(|lines|, name)];
    }

    // Append the line of entry `e`, whose name to relocate has been recorded.
    method AppendLine(line: AsmLine, here: Long, ghost src: Source, ghost e: Entry)
      requires AllOk(src.entries) && EntryOk(e) && line == UnlinkedLine(e)
      requires |lines| == |src.entries| && forall j :: 0 <= j < |lines| ==> lines[j] == UnlinkedLine(src.entries[j])
      requires SymtabIs(symtab, src.labels) && ReltabIs(reltab, src.entries + [e])
      modifies this`lines, this`vmaddr
      ensures Holds(Source(src.entries + [e], src.labels, here))
    {
      lines := lines + [line];
      vmaddr := here;
    }

    // The .pos and .align cases of parse_line's switch; the division by 0 of `.align 0` is an error here.
    method ParseMove(row: Row, ptr: string, ghost src: Source) returns (kind: LineType)
      requires Holds(src) && RowOk(row) && row.icode == DIRECTIVE && row.bytes == 0
      modifies this
      ensures match ParseOperands(row, ptr)
              case None => kind == TypeErr
              case Some((stmt, rest)) =>
                if !AtEnd(rest) || Place(src.here, stmt) == None then kind == TypeErr else
                  && kind == TypeIns
                  && Holds(Source(src.entries + [At(Place(src.here, stmt).value, Some(stmt))], src.labels, Place(src.here, stmt).value))
    {
      hide ParseDigit, ReltabIs, SymtabIs, High, Low, Pack, AtEnd, Wrap;
      var digit := ScanDigit(ptr);
      if digit == None {
        return TypeErr;
      }
      var (value, rest) := digit.value;
      var addr := vmaddr;
      ghost var stmt;
      if row.name == ".pos" {
        addr := value;
        stmt := Pos(value);
      } else {
        if value == 0 {
          return TypeErr;
        }
        if Rem(vmaddr, value) != 0 {
          addr := Wrap(vmaddr as int + (value as int - Rem(vmaddr, value)));
        }
        stmt := Align(value);
      }
      var done := ScanEnd(rest);
      if !done {
        return TypeErr;
      }
      ReltabAppend(reltab, src.entries, At(addr, Some(stmt)));
      AppendLine(AsmLine(true, addr, Pad([row.Code()]), 0), addr, src, At(addr, Some(stmt)));
      return TypeIns;
    }

    // The statement of a line, after its label
    method ParseStatement(ptr: string, ghost src: Source) returns (kind: LineType)
      requires Holds(src)
      modifies this
      ensures match LayStmt(src, ptr)
              case None => kind == TypeErr
              case Some(src') => kind == TypeIns && Holds(src')
    {
      hide ParseInstr, ParseOperands, RowOk, ReltabIs, SymtabIs, UnlinkedCodes, Extent, Wrap, AtEnd, InstrFrom, Place;
      var inst := ScanInstr(ptr);
      if inst == None {
        return TypeErr;
      }
      var (row, rest) := inst.value;
      InstrRowOk(ptr);
      RowBounds(row);
      var icode := row.icode;
      if icode == DIRECTIVE && row.bytes == 0 {
        MoveExtent(row, rest, src.here);
        kind := ParseMove(row, rest, src);
        return;
      }
      var r;
      if icode < DIRECTIVE {
        r := ScanOperands(row, rest);
      } else {
        r := ScanDirective(row, rest);
      }
      if r == None {
        return TypeErr;
      }
      ghost var stmt := ParseOperands(row, rest).value.0;
      ghost var e := At(src.here, Some(stmt));
      NoMove(row, rest, src.here);
      ReltabAppend(reltab, src.entries, e);
      if r.value.sym != None {
        AddReloc(r.value.sym.value);
      }
      var done := ScanEnd(r.value.rest);
      if !done {
        return TypeErr;
      }
      AppendLine(AsmLine(true, vmaddr, r.value.codes, row.bytes), Wrap(vmaddr as int + row.bytes), src, e);
      return TypeIns;
    }

    // parse_line, with the line appended to the list as assemble does it
    method ParseLine(text: string, ghost src: Source) returns (kind: LineType)
      requires Holds(src)
      modifies this
      ensures match Lay(src, text)
              case None => kind == TypeErr
              case Some(src') => kind != TypeErr && Holds(src')
    {
      hide Lay, LayStmt, ParseStmt, ParseLabel, AtEnd, ReltabIs, SymtabIs, UnlinkedLine, AllOk;
      LayLine(src, text);
      var blank := ScanEnd(text);
      if blank {
        ReltabAppend(reltab, src.entries, Comment);
        EmptyLines(vmaddr);
        AppendLine(AsmLine(false, 0, Pad([]), 0), vmaddr, src, Comment);
        return TypeComm;
      }
      var def := ScanLabel(text);
      if def == None {
        kind := ParseStatement(text, src);
        return;
      }
      var (name, rest) := def.value;
      kind := ParseLabelled(name, rest, src);
    }

    // A line that begins with a label
    method ParseLabelled(name: string, rest: string, ghost src: Source) returns (kind: LineType)
      requires Holds(src)
      modifies this
      ensures match LayLabelled(src, name, rest)
              case None => kind == TypeErr
              case Some(src') => kind != TypeErr && Holds(src')
    {
      hide LayStmt, ParseStmt, ParseLabel, AtEnd, ReltabIs, SymtabIs, UnlinkedLine, AllOk;
      ghost var symtab0 := symtab;
      var r := AddSymbol(name, vmaddr);
      SymtabAppend(symtab0, src.labels, name, vmaddr);
      if r == -1 {
        return TypeErr;
      }
      ghost var src1 := src.(labels := src.labels[name := src.here]);
      var end := ScanEnd(rest);
      if end {
        ReltabAppend(reltab, src.entries, At(vmaddr, None));
        EmptyLines(vmaddr);
        AppendLine(AsmLine(true, vmaddr, Pad([]), 0), vmaddr, src1, At(vmaddr, None));
        return TypeIns;
      }
      kind := ParseStatement(rest, src1);
    }

    // assemble
    method Assemble(texts: seq<string>) returns (r: int)
      requires Holds(EMPTY)
      modifies this
      ensures match LayAll(texts, |texts|)
              case None => r == -1
              case Some(src) => r == 0 && Holds(src)
    {
      hide Lay, Holds;
      ghost var src := EMPTY;
      for i := 0 to |texts|
        invariant LayAll(texts, i) == Some(src) && Holds(src)
      {
        var kind := ParseLine(texts[i], src);
        if kind == TypeErr {
          LayFails(texts, i + 1);
          return -1;
        }
        src := Lay(src, texts[i]).value;
      }
      return 0;
    }

    // relocate
    method Relocate(ghost src: Source) returns (r: int)
      requires Holds(src)
      modifies this`lines
      ensures r == if Closed(src) then 0 else -1
      ensures Closed(src) ==> Linked(lines, src)
    {
      hide EntrySym, LinkedLine, UnlinkedLine, EntryOk, SymtabIs;
      for k := 0 to |reltab|
        invariant LinkedUpTo(lines, reltab, k, src)
        invariant forall i :: 0 <= i < k ==> reltab[i].name in src.labels
      {
        var name := reltab[k].name;
        var sym := FindSymbol(name);
        SymtabFinds(symtab, src.labels, name);
        if sym == None {
          NotClosed(reltab, k, src);
          return -1;
        }
        var n := reltab[k].line;
        LinkMore(lines, reltab, k, src);
        lines := lines[n := PatchLine(lines[n], sym.value.addr)];
      }
      AllLinked(lines, reltab, src);
      return 0;
    }

    // binfile; the file it writes is returned
    method Binfile() returns (file: seq<Byte>)
      requires 0 <= FileSize(lines, |lines|) <= MAX_LEN
      requires forall j :: 0 <= j < |lines| ==> Inside(lines[j], FileSize(lines, |lines|))
      ensures |file| == FileSize(lines, |lines|)
      ensures forall p :: 0 <= p < |file| ==> file[p] == ByteAt(lines, |lines|, p)
    {
      var filesize := 0;
      for i := 0 to |lines|
        invariant filesize == FileSize(lines, i)
      {
        if lines[i].isInstr && lines[i].bytes > 0 {
          filesize := lines[i].addr + lines[i].bytes;
        }
      }
      var image := new Byte[filesize](_ => 0);
      for i := 0 to |lines|
        invariant forall p :: 0 <= p < filesize ==> image[p] == ByteAt(lines, i, p)
      {
        if lines[i].isInstr && lines[i].bytes > 0 {
          assert Inside(lines[i], filesize);
          CopyCodes(image, lines[i].addr, lines[i].codes, lines[i].bytes);
        }
      }
      return image[..];
    }
  }
}
