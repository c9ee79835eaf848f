/**
  The lines of a Y64 assembly file as lab5/y64asm.c reads them, and the way a statement is written.
  A `char *` cursor is the rest of the line it points at.
 */
module Y64Syntax {
  import opened CString
  import opened Wrappers
  import opened LittleEndian
  import opened Y64

  // ---------- characters ----------

  // IS_DIGIT accepts the signs.
  predicate IsDigit(c: char) {
    '0' <= c <= '9' || c == '-' || c == '+'
  }

  predicate IsLetter(c: char) {
    'a' <= c <= 'z' || 'A' <= c <= 'Z'
  }

  predicate IsBlank(c: char) {
    c == ' ' || c == '\t'
  }

  predicate IsWordChar(c: char) {
    IsLetter(c) || IsDigit(c)
  }

  predicate StartsWith(s: string, p: char -> bool) {
    s != [] && p(s[0])
  }

  function SkipBlank(s: string): (r: string)
    ensures |r| <= |s|
  {
    if s != [] && IsBlank(s[0]) then SkipBlank(s[1..]) else s
  }

  // The number of letters and digits in front.
  function WordLen(s: string): (n: nat)
    ensures n <= |s|
  {
    if s != [] && IsWordChar(s[0]) then 1 + WordLen(s[1..]) else 0
  }

  // ---------- the tables ----------

  const REG_TABLE: seq<string> :=
    ["%rax", "%rcx", "%rdx", "%rbx", "%rsp", "%rbp", "%rsi", "%rdi", "%r8", "%r9", "%r10", "%r11", "%r12", "%r13", "%r14"]

  // instr_t; the code byte is kept as the two halves it is packed from
  datatype Row = Row(name: string, icode: Nibble, ifun: Nibble, bytes: int) {
    function Code(): Byte {
      Pack(icode, ifun)
    }
  }

  const DIRECTIVE: int := 12

  const INSTR_COUNT: nat := 33

  // instr_set
  function InstrSet(k: nat): Row
    requires k < INSTR_COUNT
  {
    if k == 0 then Row("nop", 1, 0, 1)
    else if k == 1 then Row("halt", 0, 0, 1)
    else if k == 2 then Row("rrmovq", 2, 0, 2)
    else if k == 3 then Row("cmovle", 2, 1, 2)
    else if k == 4 then Row("cmovl", 2, 2, 2)
    else if k == 5 then Row("cmove", 2, 3, 2)
    else if k == 6 then Row("cmovne", 2, 4, 2)
    else if k == 7 then Row("cmovge", 2, 5, 2)
    else if k == 8 then Row("cmovg", 2, 6, 2)
    else if k == 9 then Row("irmovq", 3, 0, 10)
    else if k == 10 then Row("rmmovq", 4, 0, 10)
    else if k == 11 then Row("mrmovq", 5, 0, 10)
    else if k == 12 then Row("addq", 6, 0, 2)
    else if k == 13 then Row("subq", 6, 1, 2)
    else if k == 14 then Row("andq", 6, 2, 2)
    else if k == 15 then Row("xorq", 6, 3, 2)
    else if k == 16 then Row("jmp", 7, 0, 9)
    else if k == 17 then Row("jle", 7, 1, 9)
    else if k == 18 then Row("jl", 7, 2, 9)
    else if k == 19 then Row("je", 7, 3, 9)
    else if k == 20 then Row("jne", 7, 4, 9)
    else if k == 21 then Row("jge", 7, 5, 9)
    else if k == 22 then Row("jg", 7, 6, 9)
    else if k == 23 then Row("call", 8, 0, 9)
    else if k == 24 then Row("ret", 9, 0, 1)
    else if k == 25 then Row("pushq", 10, 0, 2)
    else if k == 26 then Row("popq", 11, 0, 2)
    else if k == 27 then Row(".byte", DIRECTIVE, 0, 1)
    else if k == 28 then Row(".word", DIRECTIVE, 0, 2)
    else if k == 29 then Row(".long", DIRECTIVE, 0, 4)
    else if k == 30 then Row(".quad", DIRECTIVE, 0, 8)
    else if k == 31 then Row(".pos", DIRECTIVE, 1, 0)
    else Row(".align", DIRECTIVE, 2, 0)
  }

  // The first register from number `i` on whose name is a prefix of `token`.
  function RegisterFrom(token: string, i: nat): Option<Reg>
    requires i <= 15
    decreases 15 - i
  {
    if i == 15 then None else if REG_TABLE[i] <= token then Some(i) else RegisterFrom(token, i + 1)
  }

  // The first row from number `i` on whose name is a prefix of `token`.
  function InstrFrom(token: string, i: nat): Option<Row>
    requires i <= INSTR_COUNT
    decreases INSTR_COUNT - i
  {
    if i == INSTR_COUNT then None
    else if InstrSet(i).name <= token then Some(InstrSet(i))
    else InstrFrom(token, i + 1)
  }

  // ---------- strtoul(s, &end, 0) ----------

  predicate HexPrefix(s: string) {
    |s| > 2 && s[0] == '0' && (s[1] == 'x' || s[1] == 'X') && DigitValue(s[2]) < 16
  }

  // The number in front, behind its sign, and the rest of the string; None without a digit
  function Magnitude(t: string): (r: Option<(nat, string)>)
    ensures r.Some? ==> |r.value.1| <= |t|
  {
    var base := if HexPrefix(t) then 16 else if t != [] && t[0] == '0' then 8 else 10;
    var u := if base == 16 then t[2..] else t;
    var n := DigitsLen(u, base);
    if n == 0 then None else Some((Value(u[..n], base), u[n..]))
  }

  // The converted value as a long, and the rest of the string; nothing is consumed without a digit.
  function Strtoul(s: string): (r: (Long, string))
    ensures |r.1| <= |s|
  {
    var signed := s != [] && (s[0] == '-' || s[0] == '+');
    var neg := signed && s[0] == '-';
    match Magnitude(if signed then s[1..] else s)
    case None => (0, s)
    case Some((v, rest)) => (if v >= ADDRESS_LIMIT then -1 else Wrap(if neg then -(v as int) else v), rest)
  }

  // ---------- the parse_ functions: what was read, and the rest of the line ----------

  // A value written in the program or an address known by name
  datatype Operand = Num(v: Long) | Sym(name: string)

  function ParseInstr(s: string): Option<(Row, string)> {
    var t := SkipBlank(s);
    var u := SkipSpace(t);
    var row :- InstrFrom(u[..TokenLen(u)], 0);
    if |row.name| <= |t| then Some((row, t[|row.name|..])) else None
  }

  function ParseDelim(s: string, delim: char): Option<string> {
    var t := SkipBlank(s);
    if t != [] && t[0] == delim then Some(t[1..]) else None
  }

  function ParseReg(s: string): Option<(Reg, string)> {
    var t := SkipBlank(s);
    if t == [] || t[0] != '%' then None else
      var n := 1 + WordLen(t[1..]);
      var id :- RegisterFrom(t[..n], 0);
      Some((id, t[n..]))
  }

  function ParseSymbol(s: string): Option<(string, string)> {
    var t := SkipBlank(s);
    if t == [] || !IsLetter(t[0]) then None else Some((t[..WordLen(t)], t[WordLen(t)..]))
  }

  function ParseDigit(s: string): Option<(Long, string)> {
    var t := SkipBlank(s);
    if t == [] || !IsDigit(t[0]) then None else Some(Strtoul(t))
  }

  function ParseImm(s: string): Option<(Operand, string)> {
    var t := SkipBlank(s);
    if t == [] then None
    else if t[0] == '$' then
      if |t| == 1 || !IsDigit(t[1]) then None else
        var (v, r) := Strtoul(t[1..]);
        Some((Num(v), r))
    else
      var (name, r) :- ParseSymbol(t);
      Some((Sym(name), r))
  }

  function ParseMem(s: string): Option<(Long, Reg, string)> {
    var t := SkipBlank(s);
    var (v, u) :- if t != [] && t[0] == '(' then Some((0, t)) else ParseDigit(t);
    if u == [] || u[0] != '(' then None else
      var (id, r) :- ParseReg(u[1..]);
      if r == [] || r[0] != ')' then None else Some((v, id, r[1..]))
  }

  function ParseData(s: string): Option<(Operand, string)> {
    var t := SkipBlank(s);
    if t != [] && IsDigit(t[0]) then
      var (v, r) := Strtoul(t);
      Some((Num(v), r))
    else
      var (name, r) :- ParseSymbol(t);
      Some((Sym(name), r))
  }

  function ParseLabel(s: string): Option<(string, string)> {
    var t := SkipBlank(s);
    var (name, r) :- ParseSymbol(t);
    if r == [] || r[0] != ':' then None else Some((name, r[1..]))
  }

  // ---------- statements ----------

  // An instruction, whose immediate is to be replaced by the address of `sym` if there is one; data;
  // or a move of the current address.
  datatype Stmt =
    | Code(i: Instr, sym: Option<string>)
    | Data(width: int, value: Operand)
    | Pos(v: Long)
    | Align(v: Long)

  function ParseRegs(s: string): Option<(Reg, Reg, string)> {
    var (ra, s) :- ParseReg(s);
    var s :- ParseDelim(s, ',');
    var (rb, s) :- ParseReg(s);
    Some((ra, rb, s))
  }

  // The rest of a statement, after its mnemonic
  function ParseOperands(row: Row, s: string): Option<(Stmt, string)> {
    var icode, ifun := row.icode, row.ifun;
    if icode == 0 then Some((Code(Halt, None), s))
    else if icode == 1 then Some((Code(Nop, None), s))
    else if icode == 9 then Some((Code(Ret, None), s))
    else if icode == 2 then
      var (ra, rb, s) :- ParseRegs(s);
      if ifun <= 6 then Some((Code(Rrmovq(CondOf(ifun), ra, rb), None), s)) else None
    else if icode == 3 then
      var (imm, s) :- ParseImm(s);
      var s :- ParseDelim(s, ',');
      var (rb, s) :- ParseReg(s);
      Some((match imm
            case Num(v) => Code(Irmovq(v, rb), None)
            case Sym(name) => Code(Irmovq(0, rb), Some(name)), s))
    else if icode == 4 then
      var (ra, s) :- ParseReg(s);
      var s :- ParseDelim(s, ',');
      var (v, rb, s) :- ParseMem(s);
      Some((Code(Rmmovq(ra, rb, v), None), s))
    else if icode == 5 then
      var (v, rb, s) :- ParseMem(s);
      var s :- ParseDelim(s, ',');
      var (ra, s) :- ParseReg(s);
      Some((Code(Mrmovq(ra, rb, v), None), s))
    else if icode == 6 then
      var (ra, rb, s) :- ParseRegs(s);
      if ifun <= 3 then Some((Code(Opq(AluOf(ifun), ra, rb), None), s)) else None
    else if icode == 7 then
      var (name, s) :- ParseSymbol(s);
      if ifun <= 6 then Some((Code(Jxx(CondOf(ifun), 0), Some(name)), s)) else None
    else if icode == 8 then
      var (name, s) :- ParseSymbol(s);
      Some((Code(Call(0), Some(name)), s))
    else if icode == 10 then
      var (ra, s) :- ParseReg(s);
      Some((Code(Pushq(ra), None), s))
    else if icode == 11 then
      var (ra, s) :- ParseReg(s);
      Some((Code(Popq(ra), None), s))
    else if icode != DIRECTIVE then None
    else if row.name == ".pos" then
      var (v, s) :- ParseDigit(s);
      Some((Pos(v), s))
    else if row.name == ".align" then
      var (v, s) :- ParseDigit(s);
      Some((Align(v), s))
    else
      var (d, s) :- ParseData(s);
      Some((Data(row.bytes, d), s))
  }

  // Nothing is left but blanks or a comment.
  predicate AtEnd(s: string) {
    var t := SkipBlank(s);
    t == [] || t[0] == '#'
  }

  datatype Parsed =
    | Nothing                                                // blank or comment
    | Line(def: Option<string>, stmt: Option<Stmt>)
    | Malformed

  function ParseStmt(s: string): Option<Stmt> {
    var (row, s) :- ParseInstr(s);
    var (stmt, s) :- ParseOperands(row, s);
    if AtEnd(s) then Some(stmt) else None
  }

  function Parse(text: string): Parsed {
    if AtEnd(text) then Nothing
    else match ParseLabel(text)
      case Some((name, rest)) =>
        if AtEnd(rest) then Line(Some(name), None) else
          (match ParseStmt(rest)
           case Some(stmt) => Line(Some(name), Some(stmt))
           case None => Malformed)
      case None =>
        match ParseStmt(text)
        case Some(stmt) => Line(None, Some(stmt))
        case None => Malformed
  }
}
