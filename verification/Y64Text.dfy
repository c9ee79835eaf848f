/**
  Writing a Y64 statement as a line of assembly, and reading it back: parsing undoes printing.
 */
module Y64Text {
  import opened CString
  import opened Wrappers
  import opened LittleEndian
  import opened Y64
  import opened Y64Syntax

  // ---------- the tables are unambiguous ----------

  lemma NotPrefix(a: string, b: string, k: int)
    requires 0 <= k < |a| && (k < |b| ==> a[k] != b[k])
    ensures !(a <= b)
  {
  }

  lemma RegsDiffer(i: int, j: int)
    requires 0 <= i < 15 && 0 <= j < 15 && i != j
    ensures !(REG_TABLE[i] <= REG_TABLE[j])
  {
    var a, b := REG_TABLE[i], REG_TABLE[j];
    if a[2] != b[2] {
      NotPrefix(a, b, 2);
    } else {
      NotPrefix(a, b, 3);
    }
  }

  lemma {:induction false} RegisterFound(token: string, i: nat, r: Reg)
    requires i <= r < 15 && REG_TABLE[r] <= token && forall j :: i <= j < r ==> !(REG_TABLE[j] <= token)
    ensures RegisterFrom(token, i) == Some(r)
    decreases r - i
  {
    if i < r {
      RegisterFound(token, i + 1, r);
    }
  }

  // No mnemonic hides a later one: the first-prefix search finds every row by its own name.
  lemma EarlyRowsDiffer(i: int, j: int)
    requires 0 <= i < j < 33 && i < 9
    ensures !(InstrSet(i).name <= InstrSet(j).name)
  {
    var a, b := InstrSet(i).name, InstrSet(j).name;
    if |b| < 1 || a[0] != b[0] {
      NotPrefix(a, b, 0);
    } else if |b| < 2 || a[1] != b[1] {
      NotPrefix(a, b, 1);
    } else if |b| < 5 || a[4] != b[4] {
      NotPrefix(a, b, 4);
    } else {
      NotPrefix(a, b, 5);
    }
  }

  lemma MiddleRowsDiffer(i: int, j: int)
    requires 9 <= i < j < 33 && i < 17
    ensures !(InstrSet(i).name <= InstrSet(j).name)
  {
    var a, b := InstrSet(i).name, InstrSet(j).name;
    if |b| < 1 || a[0] != b[0] {
      NotPrefix(a, b, 0);
    } else {
      NotPrefix(a, b, 1);
    }
  }

  lemma LateRowsDiffer(i: int, j: int)
    requires 17 <= i < j < 33
    ensures !(InstrSet(i).name <= InstrSet(j).name)
  {
    var a, b := InstrSet(i).name, InstrSet(j).name;
    if |b| < 1 || a[0] != b[0] {
      NotPrefix(a, b, 0);
    } else if |b| < 2 || a[1] != b[1] {
      NotPrefix(a, b, 1);
    } else {
      NotPrefix(a, b, 2);
    }
  }

  lemma {:induction false} InstrFound(token: string, i: nat, r: nat)
    requires i <= r < INSTR_COUNT && token == InstrSet(r).name
    ensures InstrFrom(token, i) == Some(InstrSet(r))
    decreases r - i
  {
    if i < r {
      InstrFound(token, i + 1, r);
      if i < 9 {
        EarlyRowsDiffer(i, r);
      } else if i < 17 {
        MiddleRowsDiffer(i, r);
      } else {
        LateRowsDiffer(i, r);
      }
    }
  }

  // What the searches find: the first entry whose name begins the token
  lemma {:induction false} RegisterFromIs(token: string, i: nat)
    requires i <= 15
    ensures match RegisterFrom(token, i)
            case None => forall j :: i <= j < 15 ==> !(REG_TABLE[j] <= token)
            case Some(r) => i <= r < 15 && REG_TABLE[r] <= token && forall j :: i <= j < r ==> !(REG_TABLE[j] <= token)
    decreases 15 - i
  {
    if i < 15 {
      RegisterFromIs(token, i + 1);
    }
  }

  lemma {:induction false} InstrFromIs(token: string, i: nat)
    requires i <= INSTR_COUNT
    ensures match InstrFrom(token, i)
            case None => forall j :: i <= j < INSTR_COUNT ==> !(InstrSet(j).name <= token)
            case Some(row) => exists r :: i <= r < INSTR_COUNT && row == InstrSet(r) && InstrSet(r).name <= token
                                          && forall j :: i <= j < r ==> !(InstrSet(j).name <= token)
    decreases INSTR_COUNT - i
  {
    hide InstrSet;
    if i < INSTR_COUNT {
      InstrFromIs(token, i + 1);
    }
  }

  // ---------- words ----------

  lemma {:induction false} WordLenOf(w: string, rest: string)
    requires forall k :: 0 <= k < |w| ==> IsWordChar(w[k])
    requires !StartsWith(rest, IsWordChar)
    ensures WordLen(w + rest) == |w|
  {
    if w == [] {
      assert w + rest == rest;
    } else {
      WordLenOf(w[1..], rest);
      assert (w + rest)[1..] == w[1..] + rest;
    }
  }

  lemma RegChars(r: Reg)
    requires r < 15
    ensures |REG_TABLE[r]| > 0 && REG_TABLE[r][0] == '%'
    ensures forall k :: 1 <= k < |REG_TABLE[r]| ==> IsWordChar(REG_TABLE[r][k])
  {
  }

  lemma ReadRegister(r: Reg, rest: string)
    requires r < 15 && !StartsWith(rest, IsWordChar)
    ensures ParseReg(REG_TABLE[r] + rest) == Some((r, rest))
  {
    hide RegisterFrom;
    var name := REG_TABLE[r];
    RegChars(r);
    var t := name + rest;
    assert t[1..] == name[1..] + rest;
    WordLenOf(name[1..], rest);
    assert t[..1 + WordLen(t[1..])] == name && t[1 + WordLen(t[1..])..] == rest;
    forall j | 0 <= j < r ensures !(REG_TABLE[j] <= name) {
      RegsDiffer(j, r);
    }
    RegisterFound(name, 0, r);
  }

  // A letter, and then letters, digits and signs
  predicate IsName(name: string) {
    && name != [] && ('a' <= name[0] <= 'z' || 'A' <= name[0] <= 'Z')
    && forall k :: 0 <= k < |name| ==>
         'a' <= name[k] <= 'z' || 'A' <= name[k] <= 'Z' || '0' <= name[k] <= '9' || name[k] == '+' || name[k] == '-'
  }

  lemma ReadSymbol(name: string, rest: string)
    requires IsName(name) && !StartsWith(rest, IsWordChar)
    ensures ParseSymbol(name + rest) == Some((name, rest))
  {
    WordLenOf(name, rest);
    assert (name + rest)[..|name|] == name && (name + rest)[|name|..] == rest;
  }

  // ---------- numbers ----------

  function Digit(d: int): char
    requires 0 <= d < 10
  {
    '0' + d as char
  }

  function Decimal(n: nat): (s: string)
    ensures s != []
  {
    if n < 10 then [Digit(n)] else Decimal(n / 10) + [Digit(n % 10)]
  }

  lemma {:induction false} DecimalDigits(n: nat)
    ensures forall k :: 0 <= k < |Decimal(n)| ==> '0' <= Decimal(n)[k] <= '9'
    ensures n > 0 ==> Decimal(n)[0] != '0'
    ensures Value(Decimal(n), 10) == n
  {
    if n >= 10 {
      DecimalDigits(n / 10);
      assert Decimal(n)[..|Decimal(n)| - 1] == Decimal(n / 10);
    } else {
      assert Decimal(n)[..0] == [];
    }
  }

  // A 64-bit value as its unsigned decimal digits
  function Number(v: Long): (s: string)
    ensures s != []
  {
    Decimal(Unsigned(v))
  }

  lemma NumberFirst(v: Long)
    ensures '0' <= Number(v)[0] <= '9'
  {
    DecimalDigits(Unsigned(v));
  }

  lemma ReadZero(rest: string)
    requires rest == [] || DigitValue(rest[0]) == 36
    ensures Strtoul("0" + rest) == (0, rest)
  {
    hide Decimal;
    var t := "0" + rest;
    assert t[0] == '0' && t[1..] == rest && !HexPrefix(t);
    DigitsLenOf("0", rest, 8);
    assert t[..1] == "0" && "0"[..0] == [] && Value("0", 8) == 0;
  }

  lemma ReadPositive(n: nat, rest: string)
    requires 0 < n < ADDRESS_LIMIT && (rest == [] || DigitValue(rest[0]) == 36)
    ensures Strtoul(Decimal(n) + rest) == (Wrap(n), rest)
  {
    DecimalDigits(n);
    hide Decimal, Value, Wrap;
    var w := Decimal(n);
    var t := w + rest;
    assert t[..|w|] == w && t[|w|..] == rest && t[0] == w[0];
    DigitsLenOf(w, rest, 10);
  }

  lemma WrapUnsigned(v: Long)
    ensures Wrap(Unsigned(v)) == v
  {
  }

  lemma ReadNumber(v: Long, rest: string)
    requires rest == [] || DigitValue(rest[0]) == 36
    ensures Strtoul(Number(v) + rest) == (v, rest)
  {
    hide Strtoul, Wrap;
    if Unsigned(v) == 0 {
      ReadZero(rest);
      assert Number(v) == "0";
    } else {
      ReadPositive(Unsigned(v), rest);
      WrapUnsigned(v);
    }
  }

  // The ways to write a number in C: a sign, a prefix that gives the base, and digits
  ghost predicate IsLiteral(sign: string, prefix: string, base: nat, digits: string) {
    && (sign == "" || sign == "+" || sign == "-")
    && digits != "" && (forall k :: 0 <= k < |digits| ==> DigitValue(digits[k]) < base)
    && match base
       case 16 => prefix == "0x" || prefix == "0X"
       case 10 => prefix == "" && digits[0] != '0'
       case 8 => prefix == "0"
       case _ => false
  }

  function Literal(sign: string, prefix: string, digits: string, rest: string): string {
    sign + (prefix + (digits + rest))
  }

  // What such a literal means; a number that is too large means -1.
  function LiteralValue(sign: string, base: nat, digits: string): Long {
    var n := Value(digits, base);
    if n >= ADDRESS_LIMIT then -1 else Wrap(if sign == "-" then -(n as int) else n)
  }

  lemma ReadLiteral(sign: string, prefix: string, base: nat, digits: string, rest: string)
    requires IsLiteral(sign, prefix, base, digits) && (rest == [] || DigitValue(rest[0]) == 36)
    ensures Strtoul(Literal(sign, prefix, digits, rest)) == (LiteralValue(sign, base, digits), rest)
    ensures IsDigit(Literal(sign, prefix, digits, rest)[0])
  {
    hide Magnitude, Value, Wrap;
    var t := prefix + (digits + rest);
    ReadMagnitude(sign, prefix, base, digits, rest);
    var s := sign + t;
    assert s[|sign|..] == t && s[0] == if sign == "" then t[0] else sign[0];
  }

  lemma ReadMagnitude(sign: string, prefix: string, base: nat, digits: string, rest: string)
    requires IsLiteral(sign, prefix, base, digits) && (rest == [] || DigitValue(rest[0]) == 36)
    ensures var t := prefix + (digits + rest); '0' <= t[0] <= '9' && Magnitude(t) == Some((Value(digits, base), rest))
  {
    hide DigitsLen, Value;
    var number := digits + rest;
    var t := prefix + number;
    assert number[..|digits|] == digits && number[|digits|..] == rest && number[0] == digits[0];
    DigitsLenOf(digits, rest, base);
    match base {
      case 16 =>
        assert t[0] == '0' && t[1] == prefix[1] && t[2] == digits[0] && t[2..] == number;
      case 10 =>
        assert t == number;
      case 8 =>
        assert t[0] == '0' && t[1] == digits[0] && t == "0" + number;
        OctalZero(digits, number, rest);
    }
  }

  // The prefix of an octal number is one of its digits.
  lemma OctalZero(digits: string, number: string, rest: string)
    requires digits != "" && number == digits + rest && (rest == [] || DigitValue(rest[0]) == 36)
    requires forall k :: 0 <= k < |digits| ==> DigitValue(digits[k]) < 8
    ensures DigitsLen("0" + number, 8) == 1 + |digits| && ("0" + number)[..1 + |digits|] == "0" + digits
    ensures ("0" + number)[1 + |digits|..] == rest && Value("0" + digits, 8) == Value(digits, 8)
  {
    assert "0" + number == ("0" + digits) + rest;
    DigitsLenOf("0" + digits, rest, 8);
    LeadingZero(digits, 8);
  }

  lemma {:induction false} LeadingZero(digits: string, base: nat)
    ensures Value("0" + digits, base) == Value(digits, base)
  {
    var s := "0" + digits;
    if digits != "" {
      var n := |digits| - 1;
      assert s[..|s| - 1] == "0" + digits[..n];
      LeadingZero(digits[..n], base);
    } else {
      assert s == "0" && s[..0] == "";
      assert Value("", base) == 0;
    }
  }

  // ---------- operands ----------

  // What may follow an operand: a blank, punctuation, a comment or the end of the line
  predicate Ends(rest: string) {
    rest == [] || (DigitValue(rest[0]) == 36 && !IsWordChar(rest[0]))
  }

  // Blanks and a comment, or nothing
  predicate IsTail(tail: string) {
    AtEnd(tail) && (tail == [] || IsBlank(tail[0]))
  }

  // Blanks and tabs, which do not matter in front of anything that is read
  ghost predicate IsGap(gap: string) {
    forall i :: 0 <= i < |gap| ==> gap[i] == ' ' || gap[i] == '\t'
  }

  lemma {:induction false} GapSkipped(gap: string, s: string)
    requires IsGap(gap)
    ensures SkipBlank(gap + s) == SkipBlank(s)
  {
    if gap == "" {
      assert gap + s == s;
    } else {
      assert (gap + s)[1..] == gap[1..] + s;
      GapSkipped(gap[1..], s);
    }
  }

  lemma GapsDoNotMatter(gap: string, s: string, c: char)
    requires IsGap(gap)
    ensures Parse(gap + s) == Parse(s)
    ensures ParseReg(gap + s) == ParseReg(s) && ParseDelim(gap + s, c) == ParseDelim(s, c)
    ensures ParseImm(gap + s) == ParseImm(s) && ParseMem(gap + s) == ParseMem(s) && ParseData(gap + s) == ParseData(s)
    ensures ParseSymbol(gap + s) == ParseSymbol(s) && ParseDigit(gap + s) == ParseDigit(s)
  {
    hide SkipBlank, ParseOperands, InstrFrom, Strtoul, RegisterFrom, IsGap;
    GapSkipped(gap, s);
    assert ParseInstr(gap + s) == ParseInstr(s);
  }

  // The end of a line is blank or a comment, and nothing else is.
  lemma EndIs(gap: string, rest: string)
    requires IsGap(gap) && (rest == "" || (rest[0] != ' ' && rest[0] != '\t'))
    ensures AtEnd(gap + rest) <==> rest == "" || rest[0] == '#'
  {
    GapSkipped(gap, rest);
  }

  function OperandText(o: Operand, mark: string): string {
    match o
    case Num(v) => mark + Number(v)
    case Sym(name) => name
  }

  function RegText(r: Reg): string {
    if r < 15 then REG_TABLE[r] else ""
  }

  lemma BlankFirst(s: string)
    ensures SkipBlank(" " + s) == SkipBlank(s)
  {
    assert (" " + s)[1..] == s;
  }

  lemma ReadRegAfterBlank(r: Reg, rest: string)
    requires r < 15 && Ends(rest)
    ensures ParseReg(" " + (RegText(r) + rest)) == Some((r, rest))
  {
    BlankFirst(RegText(r) + rest);
    ReadRegister(r, rest);
  }

  lemma ReadDelim(c: char, rest: string)
    requires !IsBlank(c)
    ensures ParseDelim([c] + rest, c) == Some(rest)
  {
    assert ([c] + rest)[1..] == rest;
  }

  // " %ra, %rb" and then `rest`
  function RegsText(ra: Reg, rb: Reg, rest: string): string {
    " " + (RegText(ra) + ("," + (" " + (RegText(rb) + rest))))
  }

  lemma ReadRegs(ra: Reg, rb: Reg, rest: string)
    requires ra < 15 && rb < 15 && Ends(rest)
    ensures ParseRegs(RegsText(ra, rb, rest)) == Some((ra, rb, rest))
  {
    hide ParseReg, ParseDelim;
    var afterDelim := " " + (RegText(rb) + rest);
    ReadRegAfterBlank(ra, "," + afterDelim);
    ReadDelim(',', afterDelim);
    ReadRegAfterBlank(rb, rest);
  }

  // "disp(%rb)" and then `rest`
  function MemText(disp: Long, rb: Reg, rest: string): string {
    " " + (Number(disp) + ("(" + (RegText(rb) + (")" + rest))))
  }

  lemma ReadMem(disp: Long, rb: Reg, rest: string)
    requires rb < 15
    ensures ParseMem(MemText(disp, rb, rest)) == Some((disp, rb, rest))
  {
    hide Strtoul, ParseReg;
    var inner := RegText(rb) + (")" + rest);
    var t := Number(disp) + ("(" + inner);
    BlankFirst(t);
    NumberFirst(disp);
    assert t[0] == Number(disp)[0];
    ReadNumber(disp, "(" + inner);
    assert ("(" + inner)[1..] == inner;
    ReadRegister(rb, ")" + rest);
    assert (")" + rest)[1..] == rest;
  }

  // Numbers may be written in any of these ways,
  lemma ReadWritten(sign: string, prefix: string, base: nat, digits: string, rest: string)
    requires IsLiteral(sign, prefix, base, digits) && Ends(rest)
    ensures ParseImm(" $" + Literal(sign, prefix, digits, rest)) == Some((Num(LiteralValue(sign, base, digits)), rest))
    ensures ParseData(" " + Literal(sign, prefix, digits, rest)) == Some((Num(LiteralValue(sign, base, digits)), rest))
    ensures ParseDigit(" " + Literal(sign, prefix, digits, rest)) == Some((LiteralValue(sign, base, digits), rest))
  {
    hide Strtoul, LiteralValue, Literal, ParseSymbol;
    var t := Literal(sign, prefix, digits, rest);
    ReadLiteral(sign, prefix, base, digits, rest);
    Nonempty(sign, prefix, digits, rest);
    assert " $" + t == " " + ("$" + t) && ("$" + t)[1..] == t;
    BlankFirst("$" + t);
    BlankFirst(t);
  }

  lemma Nonempty(sign: string, prefix: string, digits: string, rest: string)
    requires digits != ""
    ensures Literal(sign, prefix, digits, rest) != ""
  {
  }

  // displacements too,
  lemma ReadDisplacement(sign: string, prefix: string, base: nat, digits: string, rb: Reg, rest: string)
    requires IsLiteral(sign, prefix, base, digits) && rb < 15
    ensures ParseMem(" " + Literal(sign, prefix, digits, "(" + (RegText(rb) + (")" + rest)))) ==
            Some((LiteralValue(sign, base, digits), rb, rest))
  {
    hide Strtoul, ParseReg, LiteralValue, Literal;
    var inner := RegText(rb) + (")" + rest);
    var tail := "(" + inner;
    var t := Literal(sign, prefix, digits, tail);
    ReadLiteral(sign, prefix, base, digits, tail);
    Nonempty(sign, prefix, digits, tail);
    assert tail[1..] == inner;
    BlankFirst(t);
    SkipBlankOnce(t);
    ReadRegister(rb, ")" + rest);
    assert (")" + rest)[1..] == rest;
  }

  // and without one the displacement is 0.
  lemma ReadNoDisplacement(rb: Reg, rest: string)
    requires rb < 15
    ensures ParseMem(" (" + (RegText(rb) + (")" + rest))) == Some((0, rb, rest))
  {
    hide ParseReg;
    var inner := RegText(rb) + (")" + rest);
    assert " (" + inner == " " + ("(" + inner) && ("(" + inner)[1..] == inner;
    BlankFirst("(" + inner);
    ReadRegister(rb, ")" + rest);
    assert (")" + rest)[1..] == rest;
  }

  lemma SkipBlankOnce(t: string)
    requires t != "" && !IsBlank(t[0])
    ensures SkipBlank(t) == t
  {
  }

  lemma ReadImm(o: Operand, rest: string)
    requires Ends(rest) && (o.Sym? ==> IsName(o.name))
    ensures ParseImm(" " + (OperandText(o, "$") + rest)) == Some((o, rest))
  {
    hide Strtoul, ParseSymbol;
    var t := OperandText(o, "$") + rest;
    BlankFirst(t);
    match o {
      case Num(v) =>
        NumberFirst(v);
        assert t[1..] == Number(v) + rest;
        ReadNumber(v, rest);
      case Sym(name) =>
        assert t[0] == name[0];
        ReadSymbol(name, rest);
    }
  }

  lemma ReadData(o: Operand, rest: string)
    requires Ends(rest) && (o.Sym? ==> IsName(o.name))
    ensures ParseData(" " + (OperandText(o, "") + rest)) == Some((o, rest))
  {
    hide Strtoul, ParseSymbol;
    var t := OperandText(o, "") + rest;
    BlankFirst(t);
    match o {
      case Num(v) =>
        NumberFirst(v);
        assert t == Number(v) + rest;
        ReadNumber(v, rest);
      case Sym(name) =>
        assert t[0] == name[0];
        ReadSymbol(name, rest);
    }
  }

  lemma ReadPlainNumber(v: Long, rest: string)
    requires Ends(rest)
    ensures ParseDigit(" " + (Number(v) + rest)) == Some((v, rest))
  {
    hide Strtoul;
    BlankFirst(Number(v) + rest);
    NumberFirst(v);
    ReadNumber(v, rest);
  }

  lemma ReadName(name: string, rest: string)
    requires IsName(name) && Ends(rest)
    ensures ParseSymbol(" " + (name + rest)) == Some((name, rest))
  {
    BlankFirst(name + rest);
    ReadSymbol(name, rest);
  }

  // ---------- statements ----------

  // A statement the assembler can be given: operand registers, names for the destinations of jumps and
  // calls, and no other operand where a name stands.
  ghost predicate Writable(stmt: Stmt) {
    match stmt
    case Code(i, sym) =>
      && (sym.Some? ==> IsName(sym.value))
      && (match i
          case Halt => sym.None?
          case Nop => sym.None?
          case Ret => sym.None?
          case Rrmovq(_, ra, rb) => sym.None? && ra < 15 && rb < 15
          case Opq(_, ra, rb) => sym.None? && ra < 15 && rb < 15
          case Rmmovq(ra, rb, _) => sym.None? && ra < 15 && rb < 15
          case Mrmovq(ra, rb, _) => sym.None? && ra < 15 && rb < 15
          case Irmovq(imm, rb) => rb < 15 && (sym.Some? ==> imm == 0)
          case Jxx(_, dest) => sym.Some? && dest == 0
          case Call(dest) => sym.Some? && dest == 0
          case Pushq(ra) => sym.None? && ra < 15
          case Popq(ra) => sym.None? && ra < 15)
    case Data(width, value) => width in {1, 2, 4, 8} && (value.Sym? ==> IsName(value.name))
    case _ => true
  }

  // The row of the instruction table
  function RowOf(stmt: Stmt): (r: nat)
    ensures r < INSTR_COUNT
  {
    match stmt
    case Code(i, _) =>
      (match i
       case Nop => 0
       case Halt => 1
       case Rrmovq(cond, _, _) => 2 + CondCode(cond)
       case Irmovq(_, _) => 9
       case Rmmovq(_, _, _) => 10
       case Mrmovq(_, _, _) => 11
       case Opq(op, _, _) => 12 + AluCode(op)
       case Jxx(cond, _) => 16 + CondCode(cond)
       case Call(_) => 23
       case Ret => 24
       case Pushq(_) => 25
       case Popq(_) => 26)
    case Data(width, _) => if width == 1 then 27 else if width == 2 then 28 else if width == 4 then 29 else 30
    case Pos(_) => 31
    case Align(_) => 32
  }

  // The operands of a statement, and then `rest`
  function OperandsText(stmt: Stmt, rest: string): string {
    match stmt
    case Code(i, sym) =>
      (match i
       case Rrmovq(_, ra, rb) => RegsText(ra, rb, rest)
       case Opq(_, ra, rb) => RegsText(ra, rb, rest)
       case Irmovq(imm, rb) =>
         var o := if sym.Some? then Sym(sym.value) else Num(imm);
         " " + (OperandText(o, "$") + ("," + (" " + (RegText(rb) + rest))))
       case Rmmovq(ra, rb, disp) => " " + (RegText(ra) + ("," + MemText(disp, rb, rest)))
       case Mrmovq(ra, rb, disp) => MemText(disp, rb, "," + (" " + (RegText(ra) + rest)))
       case Jxx(_, _) => " " + ((if sym.Some? then sym.value else "") + rest)
       case Call(_) => " " + ((if sym.Some? then sym.value else "") + rest)
       case Pushq(ra) => " " + (RegText(ra) + rest)
       case Popq(ra) => " " + (RegText(ra) + rest)
       case _ => rest)
    case Data(_, value) => " " + (OperandText(value, "") + rest)
    case Pos(v) => " " + (Number(v) + rest)
    case Align(v) => " " + (Number(v) + rest)
  }

  lemma ReadOperands(stmt: Stmt, rest: string)
    requires Writable(stmt) && Ends(rest)
    ensures ParseOperands(InstrSet(RowOf(stmt)), OperandsText(stmt, rest)) == Some((stmt, rest))
  {
    hide ParseOperands, OperandsText, RowOf, InstrSet, FirstCodes, Ends, Writable;
    match stmt {
      case Code(i, sym) =>
        RowRight(i);
        SameRow(i, sym);
        ReadInstrOperands(InstrSet(RowOf(stmt)), i, sym, rest);
      case _ => ReadDirectiveOperands(stmt, rest);
    }
  }

  lemma ReadDirectiveOperands(stmt: Stmt, rest: string)
    requires Writable(stmt) && Ends(rest) && !stmt.Code?
    ensures ParseOperands(InstrSet(RowOf(stmt)), OperandsText(stmt, rest)) == Some((stmt, rest))
  {
    hide ParseReg, ParseDelim, ParseMem, ParseImm, ParseData, ParseDigit, ParseSymbol, ParseRegs, RegText, OperandText, Number, InstrSet, Ends, RowOf;
    DirectiveRow(stmt);
    match stmt {
      case Data(_, value) => ReadData(value, rest);
      case Pos(v) => ReadPlainNumber(v, rest);
      case Align(v) => ReadPlainNumber(v, rest);
    }
  }

  lemma DirectiveRow(stmt: Stmt)
    requires Writable(stmt) && !stmt.Code?
    ensures var row := InstrSet(RowOf(stmt));
            && row.icode == DIRECTIVE
            && (row.name == ".pos" <==> stmt.Pos?) && (row.name == ".align" <==> stmt.Align?)
            && (stmt.Data? ==> row.bytes == stmt.width)
  {
    var row := InstrSet(RowOf(stmt));
    if stmt.Data? {
      assert |row.name| == 5;
    }
  }

  function Suffix(cond: Cond): string {
    match cond
    case Always => ""
    case Le => "le"
    case L => "l"
    case E => "e"
    case Ne => "ne"
    case Ge => "ge"
    case G => "g"
  }

  // What a statement is called in a listing
  function Mnemonic(stmt: Stmt): string {
    match stmt
    case Code(Nop, _) => "nop"
    case Code(Halt, _) => "halt"
    case Code(Ret, _) => "ret"
    case Code(Rrmovq(cond, _, _), _) => if cond == Always then "rrmovq" else "cmov" + Suffix(cond)
    case Code(Irmovq(_, _), _) => "irmovq"
    case Code(Rmmovq(_, _, _), _) => "rmmovq"
    case Code(Mrmovq(_, _, _), _) => "mrmovq"
    case Code(Opq(op, _, _), _) => (match op case Add => "add" case Sub => "sub" case And => "and" case Xor => "xor") + "q"
    case Code(Jxx(cond, _), _) => if cond == Always then "jmp" else "j" + Suffix(cond)
    case Code(Call(_), _) => "call"
    case Code(Pushq(_), _) => "pushq"
    case Code(Popq(_), _) => "popq"
    case Data(width, _) => if width == 1 then ".byte" else if width == 2 then ".word" else if width == 4 then ".long" else ".quad"
    case Pos(_) => ".pos"
    case Align(_) => ".align"
  }

  // The table names every statement as its condition, operation or width asks for.
  lemma MnemonicOf(stmt: Stmt)
    ensures InstrSet(RowOf(stmt)).name == Mnemonic(stmt)
  {
    if stmt.Code? && (stmt.i.Rrmovq? || stmt.i.Jxx?) {
      ConditionalNames(stmt.i.cond);
    } else {
      hide CondCode, Suffix;
    }
  }

  lemma ConditionalNames(cond: Cond)
    ensures InstrSet(2 + CondCode(cond)).name == if cond == Always then "rrmovq" else "cmov" + Suffix(cond)
    ensures InstrSet(16 + CondCode(cond)).name == if cond == Always then "jmp" else "j" + Suffix(cond)
  {
  }

  // The row of an instruction holds the halves of its first byte.
  function FirstCodes(i: Instr): (Nibble, Nibble) {
    match i
    case Halt => (0, 0)
    case Nop => (1, 0)
    case Rrmovq(cond, _, _) => (2, CondCode(cond))
    case Irmovq(_, _) => (3, 0)
    case Rmmovq(_, _, _) => (4, 0)
    case Mrmovq(_, _, _) => (5, 0)
    case Opq(op, _, _) => (6, AluCode(op))
    case Jxx(cond, _) => (7, CondCode(cond))
    case Call(_) => (8, 0)
    case Ret => (9, 0)
    case Pushq(_) => (10, 0)
    case Popq(_) => (11, 0)
  }

  ghost predicate RowFits(i: Instr) {
    var row := InstrSet(RowOf(Code(i, None)));
    (row.icode, row.ifun) == FirstCodes(i) && row.bytes == |Encode(i)|
  }

  lemma ConditionalRowsFit(cond: Cond, ra: Reg, rb: Reg)
    ensures RowFits(Rrmovq(cond, ra, rb))
  {
  }

  lemma JumpRowsFit(cond: Cond, dest: Long)
    ensures RowFits(Jxx(cond, dest))
  {
  }

  lemma AluRowsFit(op: Alu, ra: Reg, rb: Reg)
    ensures RowFits(Opq(op, ra, rb))
  {
  }

  lemma PlainRowsFit(i: Instr)
    requires !i.Rrmovq? && !i.Jxx? && !i.Opq?
    ensures RowFits(i)
  {
    hide Pack, LongBytes;
  }

  lemma RowRight(i: Instr)
    ensures RowFits(i)
  {
    hide RowFits;
    match i {
      case Rrmovq(cond, ra, rb) => ConditionalRowsFit(cond, ra, rb);
      case Jxx(cond, dest) => JumpRowsFit(cond, dest);
      case Opq(op, ra, rb) => AluRowsFit(op, ra, rb);
      case _ => PlainRowsFit(i);
    }
  }

  lemma SameRow(i: Instr, sym: Option<string>)
    ensures RowOf(Code(i, sym)) == RowOf(Code(i, None))
  {
  }

  lemma CodesBack(cond: Cond, op: Alu)
    ensures CondOf(CondCode(cond)) == cond && AluOf(AluCode(op)) == op
  {
  }

  lemma ReadInstrOperands(row: Row, i: Instr, sym: Option<string>, rest: string)
    requires Writable(Code(i, sym)) && Ends(rest) && (row.icode, row.ifun) == FirstCodes(i)
    ensures ParseOperands(row, OperandsText(Code(i, sym), rest)) == Some((Code(i, sym), rest))
  {
    hide ParseOperands, OperandsText, FirstCodes, IsName, Ends;
    match i {
      case Halt => ReadNoOperand(row, i, rest);
      case Nop => ReadNoOperand(row, i, rest);
      case Ret => ReadNoOperand(row, i, rest);
      case Irmovq(imm, rb) => ReadIrmovq(row, imm, rb, sym, rest);
      case Rmmovq(ra, rb, disp) => ReadRmmovq(row, ra, rb, disp, rest);
      case Mrmovq(ra, rb, disp) => ReadMrmovq(row, ra, rb, disp, rest);
      case Rrmovq(_, _, _) => ReadTwoRegs(row, i, rest);
      case Opq(_, _, _) => ReadTwoRegs(row, i, rest);
      case Jxx(cond, _) => ReadJump(row, cond, sym.value, rest);
      case Call(_) => ReadCall(row, sym.value, rest);
      case Pushq(_) => ReadOneReg(row, i, rest);
      case Popq(_) => ReadOneReg(row, i, rest);
    }
  }

  lemma ReadNoOperand(row: Row, i: Instr, rest: string)
    requires (i.Halt? || i.Nop? || i.Ret?) && (row.icode, row.ifun) == FirstCodes(i)
    ensures ParseOperands(row, OperandsText(Code(i, None), rest)) == Some((Code(i, None), rest))
  {
  }

  lemma ReadTwoRegs(row: Row, i: Instr, rest: string)
    requires (i.Rrmovq? || i.Opq?) && i.ra < 15 && i.rb < 15 && Ends(rest) && (row.icode, row.ifun) == FirstCodes(i)
    ensures ParseOperands(row, OperandsText(Code(i, None), rest)) == Some((Code(i, None), rest))
  {
    hide ParseReg, ParseDelim, ParseMem, ParseImm, ParseData, ParseDigit, ParseSymbol, ParseRegs, RegText, OperandText, Number, MemText;
    hide CondCode, CondOf, AluCode, AluOf;
    ReadRegs(i.ra, i.rb, rest);
    CodesBack(if i.Rrmovq? then i.cond else Always, if i.Opq? then i.op else Add);
  }

  lemma ReadJump(row: Row, cond: Cond, name: string, rest: string)
    requires IsName(name) && Ends(rest) && (row.icode, row.ifun) == FirstCodes(Jxx(cond, 0))
    ensures ParseOperands(row, OperandsText(Code(Jxx(cond, 0), Some(name)), rest)) == Some((Code(Jxx(cond, 0), Some(name)), rest))
  {
    hide ParseReg, ParseDelim, ParseMem, ParseImm, ParseData, ParseDigit, ParseSymbol, ParseRegs, RegText, OperandText, Number, MemText;
    hide CondCode, CondOf, AluCode, AluOf, IsName, Ends;
    var s := " " + (name + rest);
    assert OperandsText(Code(Jxx(cond, 0), Some(name)), rest) == s;
    assert row.icode == 7 && row.ifun == CondCode(cond);
    ReadName(name, rest);
    CodesBack(cond, Add);
    assert ParseOperands(row, s) == Some((Code(Jxx(cond, 0), Some(name)), rest));
  }

  lemma ReadCall(row: Row, name: string, rest: string)
    requires IsName(name) && Ends(rest) && (row.icode, row.ifun) == FirstCodes(Call(0))
    ensures ParseOperands(row, OperandsText(Code(Call(0), Some(name)), rest)) == Some((Code(Call(0), Some(name)), rest))
  {
    hide ParseReg, ParseDelim, ParseMem, ParseImm, ParseData, ParseDigit, ParseSymbol, ParseRegs, RegText, OperandText, Number, MemText;
    hide CondCode, CondOf, AluCode, AluOf, IsName, Ends;
    ReadName(name, rest);
  }

  lemma ReadOneReg(row: Row, i: Instr, rest: string)
    requires (i.Pushq? || i.Popq?) && i.ra < 15 && Ends(rest) && (row.icode, row.ifun) == FirstCodes(i)
    ensures ParseOperands(row, OperandsText(Code(i, None), rest)) == Some((Code(i, None), rest))
  {
    hide ParseReg, ParseDelim, ParseMem, ParseImm, ParseData, ParseDigit, ParseSymbol, ParseRegs, RegText, OperandText, Number, MemText;
    hide CondCode, CondOf, AluCode, AluOf;
    ReadRegAfterBlank(i.ra, rest);
  }

  lemma ReadIrmovq(row: Row, imm: Long, rb: Reg, sym: Option<string>, rest: string)
    requires Writable(Code(Irmovq(imm, rb), sym)) && Ends(rest) && (row.icode, row.ifun) == FirstCodes(Irmovq(imm, rb))
    ensures ParseOperands(row, OperandsText(Code(Irmovq(imm, rb), sym), rest)) == Some((Code(Irmovq(imm, rb), sym), rest))
  {
    hide ParseReg, ParseDelim, ParseMem, ParseImm, ParseData, ParseDigit, ParseSymbol, ParseRegs, RegText, OperandText, Number, MemText;
    hide CondCode, CondOf, AluCode, AluOf;
    var o := if sym.Some? then Sym(sym.value) else Num(imm);
    var last := " " + (RegText(rb) + rest);
    ReadImm(o, "," + last);
    ReadDelim(',', last);
    ReadRegAfterBlank(rb, rest);
  }

  lemma ReadRmmovq(row: Row, ra: Reg, rb: Reg, disp: Long, rest: string)
    requires ra < 15 && rb < 15 && Ends(rest) && (row.icode, row.ifun) == FirstCodes(Rmmovq(ra, rb, disp))
    ensures ParseOperands(row, OperandsText(Code(Rmmovq(ra, rb, disp), None), rest)) == Some((Code(Rmmovq(ra, rb, disp), None), rest))
  {
    hide ParseReg, ParseDelim, ParseMem, ParseImm, ParseData, ParseDigit, ParseSymbol, ParseRegs, RegText, OperandText, Number, MemText;
    hide CondCode, CondOf, AluCode, AluOf;
    ReadRegAfterBlank(ra, "," + MemText(disp, rb, rest));
    ReadDelim(',', MemText(disp, rb, rest));
    ReadMem(disp, rb, rest);
  }

  lemma ReadMrmovq(row: Row, ra: Reg, rb: Reg, disp: Long, rest: string)
    requires ra < 15 && rb < 15 && Ends(rest) && (row.icode, row.ifun) == FirstCodes(Mrmovq(ra, rb, disp))
    ensures ParseOperands(row, OperandsText(Code(Mrmovq(ra, rb, disp), None), rest)) == Some((Code(Mrmovq(ra, rb, disp), None), rest))
  {
    hide ParseReg, ParseDelim, ParseMem, ParseImm, ParseData, ParseDigit, ParseSymbol, ParseRegs, RegText, OperandText, Number, MemText;
    hide CondCode, CondOf, AluCode, AluOf;
    var last := " " + (RegText(ra) + rest);
    ReadMem(disp, rb, "," + last);
    ReadDelim(',', last);
    ReadRegAfterBlank(ra, rest);
  }

  // ---------- lines ----------

  // The line that writes `stmt`, with the label `def` if there is one, and ends in `tail`.
  function StmtText(stmt: Stmt, tail: string): string {
    InstrSet(RowOf(stmt)).name + OperandsText(stmt, tail)
  }

  function LineText(def: Option<string>, stmt: Stmt, tail: string): string {
    match def
    case None => StmtText(stmt, tail)
    case Some(name) => name + (":" + (" " + StmtText(stmt, tail)))
  }

  lemma NameChars(r: nat, k: nat)
    requires r < INSTR_COUNT && k < |InstrSet(r).name|
    ensures IsLetter(InstrSet(r).name[k]) || (k == 0 && InstrSet(r).name[k] == '.')
  {
  }

  lemma RowNamed(r: nat)
    requires r < INSTR_COUNT
    ensures InstrSet(r).name != []
  {
  }

  lemma OperandsStart(stmt: Stmt, tail: string)
    requires Writable(stmt) && IsTail(tail)
    ensures var s := OperandsText(stmt, tail); s == [] || IsBlank(s[0])
  {
  }

  lemma TailEnds(tail: string)
    requires IsTail(tail)
    ensures Ends(tail) && AtEnd(tail)
  {
  }

  lemma ReadStmt(stmt: Stmt, tail: string)
    requires Writable(stmt) && IsTail(tail)
    ensures ParseStmt(StmtText(stmt, tail)) == Some(stmt)
  {
    hide ParseOperands, OperandsText, Writable, InstrFrom, AtEnd, IsTail, RowOf;
    var r := RowOf(stmt);
    var name, operands := InstrSet(r).name, OperandsText(stmt, tail);
    var s := name + operands;
    OperandsStart(stmt, tail);
    TailEnds(tail);
    RowNamed(r);
    forall k | 0 <= k < |name| ensures !IsSpace(name[k]) && !IsBlank(name[k]) {
      NameChars(r, k);
    }
    assert s[0] == name[0];
    TokenLenOf(name, operands);
    assert s[..|name|] == name && s[|name|..] == operands;
    InstrFound(name, 0, r);
    ReadOperands(stmt, tail);
  }

  // A statement does not look like a label.
  lemma NoLabel(stmt: Stmt, tail: string)
    requires Writable(stmt) && IsTail(tail)
    ensures ParseLabel(StmtText(stmt, tail)) == None && !AtEnd(StmtText(stmt, tail))
  {
    hide OperandsText, Writable, IsTail, RowOf;
    var r := RowOf(stmt);
    var name, operands := InstrSet(r).name, OperandsText(stmt, tail);
    OperandsStart(stmt, tail);
    RowNamed(r);
    forall k | 0 <= k < |name| ensures IsLetter(name[k]) || (k == 0 && name[k] == '.') {
      NameChars(r, k);
    }
    var s := name + operands;
    assert s[0] == name[0];
    if name[0] != '.' {
      WordLenOf(name, operands);
      assert s[|name|..] == operands;
    }
  }

  // Parsing undoes printing, whatever the label and the comment.
  lemma ParseLineText(def: Option<string>, stmt: Stmt, tail: string)
    requires Writable(stmt) && IsTail(tail) && (def.Some? ==> IsName(def.value))
    ensures Parse(LineText(def, stmt, tail)) == Line(def, Some(stmt))
  {
    hide ParseStmt, StmtText, Writable, IsTail;
    var body := StmtText(stmt, tail);
    ReadStmt(stmt, tail);
    NoLabel(stmt, tail);
    match def {
      case None =>
      case Some(name) =>
        var s := name + (":" + (" " + body));
        assert s[0] == name[0];
        ReadSymbol(name, ":" + (" " + body));
        assert (":" + (" " + body))[1..] == " " + body;
        BlankFirst(body);
        ReadStmtAfterBlank(body);
    }
  }

  lemma ReadStmtAfterBlank(s: string)
    ensures ParseStmt(" " + s) == ParseStmt(s) && AtEnd(" " + s) == AtEnd(s)
  {
    hide ParseOperands, InstrFrom;
    BlankFirst(s);
    assert ParseInstr(" " + s) == ParseInstr(s);
  }
}
