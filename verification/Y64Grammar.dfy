/**
  What the assembler accepts: a line is read only if it is spelled as the grammar here says.
 */
module Y64Grammar {
  import opened CString
  import opened Wrappers
  import opened Y64
  import opened Y64Syntax
  import opened Y64Text
  import Y64Asm

  // ---------- pieces: what is read from `s` and what is left ----------

  lemma {:induction false} GapOf(s: string) returns (gap: string)
    ensures IsGap(gap) && s == gap + SkipBlank(s)
    ensures SkipBlank(s) != "" ==> !IsBlank(SkipBlank(s)[0])
  {
    if s != "" && IsBlank(s[0]) {
      gap := GapOf(s[1..]);
      gap := [s[0]] + gap;
    } else {
      gap := "";
    }
  }

  // The gap in front of a text that does not begin with a blank is all that is skipped.
  lemma AfterGap(gap: string, t: string)
    requires IsGap(gap) && t != "" && !IsBlank(t[0])
    ensures SkipBlank(gap + t) == t
  {
    GapSkipped(gap, t);
    SkipBlankOnce(t);
  }

  lemma {:induction false} WordOf(s: string)
    ensures forall k :: 0 <= k < WordLen(s) ==> IsWordChar(s[k])
    ensures !StartsWith(s[WordLen(s)..], IsWordChar)
    ensures s != "" && IsLetter(s[0]) ==> WordLen(s) > 0
  {
    if s != "" && IsWordChar(s[0]) {
      WordOf(s[1..]);
      assert s[1..][WordLen(s[1..])..] == s[WordLen(s)..];
    }
  }

  // A percent sign and a word that begins with the name of the register, and of none before it
  ghost predicate IsRegWord(w: string, r: Reg) {
    && w != "" && w[0] == '%' && (forall k :: 1 <= k < |w| ==> IsWordChar(w[k]))
    && r < 15 && REG_TABLE[r] <= w && forall j :: 0 <= j < r ==> !(REG_TABLE[j] <= w)
  }

  ghost predicate RegAt(s: string, r: Reg, rest: string) {
    exists gap, w :: IsGap(gap) && IsRegWord(w, r) && s == gap + (w + rest) && !StartsWith(rest, IsWordChar)
  }

  lemma RegOnly(s: string, r: Reg, rest: string)
    requires ParseReg(s) == Some((r, rest))
    ensures RegAt(s, r, rest)
  {
    hide RegisterFrom, IsRegWord;
    var gap := GapOf(s);
    var t := SkipBlank(s);
    var n := 1 + WordLen(t[1..]);
    WordOf(t[1..]);
    RegWordIs(t[..n], t[1..][..n - 1], r);
    assert t == t[..n] + rest && t[1..][n - 1..] == t[n..];
  }

  lemma RegWordIs(w: string, v: string, r: Reg)
    requires w != "" && w[0] == '%' && v == w[1..] && forall k :: 0 <= k < |v| ==> IsWordChar(v[k])
    ensures RegisterFrom(w, 0) == Some(r) <==> IsRegWord(w, r)
  {
    hide RegisterFrom;
    RegisterFromIs(w, 0);
    assert forall k :: 1 <= k < |w| ==> w[k] == v[k - 1];
  }

  lemma RegIs(s: string, r: Reg, rest: string)
    ensures ParseReg(s) == Some((r, rest)) <==> RegAt(s, r, rest)
  {
    hide RegisterFrom;
    if ParseReg(s) == Some((r, rest)) {
      RegOnly(s, r, rest);
    }
    if RegAt(s, r, rest) {
      var gap, w :| IsGap(gap) && IsRegWord(w, r) && s == gap + (w + rest) && !StartsWith(rest, IsWordChar);
      RegReads(gap, w, r, rest);
    }
  }

  lemma RegReads(gap: string, w: string, r: Reg, rest: string)
    requires IsGap(gap) && IsRegWord(w, r) && !StartsWith(rest, IsWordChar)
    ensures ParseReg(gap + (w + rest)) == Some((r, rest))
  {
    hide RegisterFrom;
    var t := w + rest;
    AfterGap(gap, t);
    assert t[1..] == w[1..] + rest;
    WordLenOf(w[1..], rest);
    assert t[..|w|] == w && t[|w|..] == rest;
    RegWordIs(w, w[1..], r);
  }

  ghost predicate CharAt(s: string, c: char, rest: string) {
    exists gap :: IsGap(gap) && s == gap + ([c] + rest)
  }

  lemma CharIs(s: string, c: char, rest: string)
    requires !IsBlank(c)
    ensures ParseDelim(s, c) == Some(rest) <==> CharAt(s, c, rest)
  {
    if ParseDelim(s, c) == Some(rest) {
      var gap := GapOf(s);
      assert SkipBlank(s) == [c] + rest;
    }
    if CharAt(s, c, rest) {
      var gap :| IsGap(gap) && s == gap + ([c] + rest);
      AfterGap(gap, [c] + rest);
    }
  }

  ghost predicate NameAt(s: string, name: string, rest: string) {
    exists gap :: IsGap(gap) && IsName(name) && s == gap + (name + rest) && !StartsWith(rest, IsWordChar)
  }

  lemma NameOnly(s: string, name: string, rest: string)
    requires ParseSymbol(s) == Some((name, rest))
    ensures NameAt(s, name, rest)
  {
    hide SkipBlank, WordLen, IsLetter, IsWordChar, IsName;
    var gap := GapOf(s);
    var t := SkipBlank(s);
    WordOf(t);
    WordIsName(t, WordLen(t), name);
    assert t == name + rest;
  }

  lemma WordIsName(t: string, n: nat, name: string)
    requires 0 < n <= |t| && name == t[..n] && IsLetter(t[0]) && forall k :: 0 <= k < n ==> IsWordChar(t[k])
    ensures IsName(name)
  {
    assert forall k :: 0 <= k < n ==> name[k] == t[k];
  }

  lemma NameReads(gap: string, name: string, rest: string)
    requires IsGap(gap) && IsName(name) && !StartsWith(rest, IsWordChar)
    ensures ParseSymbol(gap + (name + rest)) == Some((name, rest))
  {
    hide ParseSymbol;
    GapsDoNotMatter(gap, name + rest, ':');
    ReadSymbol(name, rest);
  }

  lemma NameIs(s: string, name: string, rest: string)
    ensures ParseSymbol(s) == Some((name, rest)) <==> NameAt(s, name, rest)
  {
    hide ParseSymbol, IsName, IsGap, StartsWith;
    if ParseSymbol(s) == Some((name, rest)) {
      NameOnly(s, name, rest);
    }
    if NameAt(s, name, rest) {
      var gap :| IsGap(gap) && IsName(name) && s == gap + (name + rest) && !StartsWith(rest, IsWordChar);
      NameReads(gap, name, rest);
    }
  }

  ghost predicate LabelAt(s: string, name: string, rest: string) {
    NameAt(s, name, ":" + rest)
  }

  lemma LabelIs(s: string, name: string, rest: string)
    ensures ParseLabel(s) == Some((name, rest)) <==> LabelAt(s, name, rest)
  {
    hide ParseSymbol, NameAt;
    NameIs(s, name, ":" + rest);
    SymbolAfterBlanks(s);
    assert (":" + rest)[1..] == rest;
    if ParseLabel(s) == Some((name, rest)) {
      assert ParseSymbol(SkipBlank(s)).value.1 == ":" + rest;
    }
  }

  lemma SymbolAfterBlanks(s: string)
    ensures ParseSymbol(SkipBlank(s)) == ParseSymbol(s)
  {
    var gap := GapOf(s);
    GapsDoNotMatter(gap, SkipBlank(s), ':');
  }

  // A number as strtoul reads it, which begins with a digit or a sign
  ghost predicate NumberAt(t: string, v: Long, rest: string) {
    t != "" && IsDigit(t[0]) && Strtoul(t) == (v, rest)
  }

  ghost predicate ImmAt(s: string, o: Operand, rest: string) {
    match o
    case Num(v) => exists gap, t :: IsGap(gap) && s == gap + ("$" + t) && NumberAt(t, v, rest)
    case Sym(name) => NameAt(s, name, rest)
  }

  ghost predicate DataAt(s: string, o: Operand, rest: string) {
    match o
    case Num(v) => exists gap, t :: IsGap(gap) && s == gap + t && NumberAt(t, v, rest)
    case Sym(name) => NameAt(s, name, rest)
  }

  // A base register in parentheses, and a displacement in front of it or 0
  ghost predicate MemAt(s: string, v: Long, r: Reg, rest: string) {
    exists gap, t, x :: IsGap(gap) && s == gap + t && RegAt(x, r, ")" + rest) &&
      if StartsWith(t, c => c == '(') then v == 0 && t == "(" + x else NumberAt(t, v, "(" + x)
  }

  lemma ImmOnly(s: string)
    ensures ParseImm(s).Some? ==> ImmAt(s, ParseImm(s).value.0, ParseImm(s).value.1)
  {
    hide Strtoul, ParseSymbol, NameAt, StartsWith;
    if ParseImm(s).Some? {
      var (o, rest) := ParseImm(s).value;
      var gap := GapOf(s);
      var t := SkipBlank(s);
      if o.Sym? {
        SymbolAfterBlanks(s);
        var (name, r) := ParseSymbol(s).value;
        NameIs(s, name, r);
      } else {
        assert s == gap + ("$" + t[1..]);
        assert NumberAt(t[1..], o.v, rest);
      }
    }
  }

  lemma DataOnly(s: string)
    ensures ParseData(s).Some? ==> DataAt(s, ParseData(s).value.0, ParseData(s).value.1)
  {
    hide Strtoul, ParseSymbol, NameAt, StartsWith;
    if ParseData(s).Some? {
      var (o, rest) := ParseData(s).value;
      var gap := GapOf(s);
      if o.Sym? {
        SymbolAfterBlanks(s);
        var (name, r) := ParseSymbol(s).value;
        NameIs(s, name, r);
      } else {
        assert NumberAt(SkipBlank(s), o.v, rest);
      }
    }
  }

  lemma MemOnly(s: string)
    ensures ParseMem(s).Some? ==> MemAt(s, ParseMem(s).value.0, ParseMem(s).value.1, ParseMem(s).value.2)
  {
    hide Strtoul, ParseReg, RegAt;
    if ParseMem(s).Some? {
      var (v, r, rest) := ParseMem(s).value;
      var gap := GapOf(s);
      var t := SkipBlank(s);
      if t != "" && t[0] != '(' {
        SkipBlankOnce(t);
      }
      var u := if t != "" && t[0] == '(' then t else Strtoul(t).1;
      var x := u[1..];
      assert u == "(" + x;
      assert ParseReg(x).value.1 == ")" + rest;
      RegIs(x, r, ")" + rest);
    }
  }

  // ---------- statements ----------

  ghost predicate RegsAt(s: string, ra: Reg, rb: Reg, rest: string) {
    exists s1, s2 :: RegAt(s, ra, s1) && CharAt(s1, ',', s2) && RegAt(s2, rb, rest)
  }

  // The operands of a statement are spelled in `s` up to `rest`.
  ghost predicate OperandsAt(stmt: Stmt, s: string, rest: string) {
    match stmt
    case Code(i, sym) =>
      (match i
       case Rrmovq(_, ra, rb) => sym == None && RegsAt(s, ra, rb, rest)
       case Opq(_, ra, rb) => sym == None && RegsAt(s, ra, rb, rest)
       case Irmovq(v, rb) =>
         exists s1, s2 :: ImmAt(s, if sym.Some? then Sym(sym.value) else Num(v), s1) && CharAt(s1, ',', s2) && RegAt(s2, rb, rest)
       case Rmmovq(ra, rb, disp) =>
         sym == None && exists s1, s2 :: RegAt(s, ra, s1) && CharAt(s1, ',', s2) && MemAt(s2, disp, rb, rest)
       case Mrmovq(ra, rb, disp) =>
         sym == None && exists s1, s2 :: MemAt(s, disp, rb, s1) && CharAt(s1, ',', s2) && RegAt(s2, ra, rest)
       case Jxx(_, _) => sym.Some? && NameAt(s, sym.value, rest)
       case Call(_) => sym.Some? && NameAt(s, sym.value, rest)
       case Pushq(ra) => sym == None && RegAt(s, ra, rest)
       case Popq(ra) => sym == None && RegAt(s, ra, rest)
       case _ => sym == None && s == rest)
    case Data(_, value) => DataAt(s, value, rest)
    case Pos(v) => DataAt(s, Num(v), rest)
    case Align(v) => DataAt(s, Num(v), rest)
  }

  lemma RegsOnly(s: string)
    ensures ParseRegs(s).Some? ==> RegsAt(s, ParseRegs(s).value.0, ParseRegs(s).value.1, ParseRegs(s).value.2)
  {
    hide ParseReg, ParseDelim, RegAt, CharAt;
    if ParseRegs(s).Some? {
      var (ra, s1) := ParseReg(s).value;
      var s2 := ParseDelim(s1, ',').value;
      var (rb, rest) := ParseReg(s2).value;
      RegIs(s, ra, s1);
      CharIs(s1, ',', s2);
      RegIs(s2, rb, rest);
    }
  }

  lemma DigitOnly(s: string)
    ensures ParseDigit(s).Some? ==> DataAt(s, Num(ParseDigit(s).value.0), ParseDigit(s).value.1)
  {
    hide Strtoul;
    if ParseDigit(s).Some? {
      var gap := GapOf(s);
      assert NumberAt(SkipBlank(s), ParseDigit(s).value.0, ParseDigit(s).value.1);
    }
  }

  // Row `row` of the table stands for the statement.
  ghost predicate Stands(row: Row, stmt: Stmt) {
    match stmt
    case Code(i, _) => (row.icode, row.ifun) == FirstCodes(i)
    case Data(width, _) => row.icode == DIRECTIVE && row.bytes == width && row.name != ".pos" && row.name != ".align"
    case Pos(_) => row.icode == DIRECTIVE && row.name == ".pos"
    case Align(_) => row.icode == DIRECTIVE && row.name == ".align"
  }

  // Code and function of a row are those of the statements it stands for.
  lemma RowStands(k: nat, stmt: Stmt)
    requires k < INSTR_COUNT
    requires Stands(InstrSet(k), stmt)
    ensures k == RowOf(stmt)
  {
  }

  ghost predicate Spelled(row: Row, s: string) {
    match ParseOperands(row, s)
    case None => true
    case Some((stmt, rest)) => Stands(row, stmt) && OperandsAt(stmt, s, rest)
  }

  lemma PlainSpelled(row: Row, s: string)
    requires row.icode in {0, 1, 9, 7, 8, 10, 11} && (row.icode != 7 ==> row.ifun == 0)
    ensures Spelled(row, s)
  {
    hide ParseReg, ParseSymbol, RegAt, NameAt, CondOf, CondCode;
    if ParseOperands(row, s).Some? {
      if row.icode == 7 || row.icode == 8 {
        var (name, rest) := ParseSymbol(s).value;
        NameIs(s, name, rest);
      } else if row.icode >= 10 {
        var (ra, rest) := ParseReg(s).value;
        RegIs(s, ra, rest);
      }
    }
  }

  lemma TwoRegsSpelled(row: Row, s: string)
    requires row.icode == 2 || row.icode == 6
    ensures Spelled(row, s)
  {
    hide ParseRegs, RegsAt, CondOf, CondCode, AluOf, AluCode;
    RegsOnly(s);
  }

  lemma IrmovqSpelled(row: Row, s: string)
    requires row.icode == 3 && row.ifun == 0
    ensures Spelled(row, s)
  {
    hide ParseImm, ParseDelim, ParseReg, ImmAt, CharAt, RegAt;
    if ParseOperands(row, s).Some? {
      var (imm, s1) := ParseImm(s).value;
      var s2 := ParseDelim(s1, ',').value;
      var (rb, rest) := ParseReg(s2).value;
      ImmOnly(s);
      CharIs(s1, ',', s2);
      RegIs(s2, rb, rest);
    }
  }

  lemma MovesSpelled(row: Row, s: string)
    requires (row.icode == 4 || row.icode == 5) && row.ifun == 0
    ensures Spelled(row, s)
  {
    hide ParseMem, ParseDelim, ParseReg, MemAt, CharAt, RegAt;
    if ParseOperands(row, s).Some? {
      if row.icode == 4 {
        var (ra, s1) := ParseReg(s).value;
        var s2 := ParseDelim(s1, ',').value;
        RegIs(s, ra, s1);
        CharIs(s1, ',', s2);
        MemOnly(s2);
      } else {
        var (disp, rb, s1) := ParseMem(s).value;
        var s2 := ParseDelim(s1, ',').value;
        var (ra, rest) := ParseReg(s2).value;
        MemOnly(s);
        CharIs(s1, ',', s2);
        RegIs(s2, ra, rest);
      }
    }
  }

  lemma DirectiveSpelled(row: Row, s: string)
    requires row.icode == DIRECTIVE
    ensures Spelled(row, s)
  {
    hide ParseDigit, ParseData, DataAt;
    DigitOnly(s);
    DataOnly(s);
  }

  // What is read behind a mnemonic is a statement of that name whose operands are spelled there.
  lemma OperandsOnly(k: nat, s: string)
    requires k < INSTR_COUNT
    ensures match ParseOperands(InstrSet(k), s)
            case None => true
            case Some((stmt, rest)) => InstrSet(k).name == Mnemonic(stmt) && OperandsAt(stmt, s, rest)
  {
    hide ParseOperands, OperandsAt, InstrSet, RowOf, Mnemonic, Y64Asm.NameOk;
    var row := InstrSet(k);
    Y64Asm.TableOk(k);
    if row.icode in {0, 1, 9, 7, 8, 10, 11} {
      PlainSpelled(row, s);
    } else if row.icode in {2, 6} {
      TwoRegsSpelled(row, s);
    } else if row.icode == 3 {
      IrmovqSpelled(row, s);
    } else if row.icode in {4, 5} {
      MovesSpelled(row, s);
    } else {
      DirectiveSpelled(row, s);
    }
    if ParseOperands(row, s).Some? {
      var (stmt, rest) := ParseOperands(row, s).value;
      RowStands(k, stmt);
      MnemonicOf(stmt);
    }
  }

  // ---------- lines ----------

  // The mnemonic that the first word of `s` begins with, which is the first such row of the table
  ghost predicate NamedAt(s: string, k: nat, rest: string) {
    k < INSTR_COUNT && exists gap, t :: IsGap(gap) && s == gap + t && !StartsWith(t, IsBlank) && IsFirstWord(t, k, rest)
  }

  ghost predicate IsFirstWord(t: string, k: nat, rest: string)
    requires k < INSTR_COUNT
  {
    var u := SkipSpace(t);
    && |InstrSet(k).name| <= |t| && rest == t[|InstrSet(k).name|..]
    && InstrSet(k).name <= u && forall j :: 0 <= j < k ==> !(InstrSet(j).name <= u[..TokenLen(u)])
  }

  lemma NamedOnly(s: string) returns (k: nat)
    requires ParseInstr(s).Some?
    ensures k < INSTR_COUNT && ParseInstr(s).value.0 == InstrSet(k) && NamedAt(s, k, ParseInstr(s).value.1)
  {
    hide InstrFrom, InstrSet;
    var gap := GapOf(s);
    var u := SkipSpace(SkipBlank(s));
    InstrFromIs(u[..TokenLen(u)], 0);
    k :| 0 <= k < INSTR_COUNT && ParseInstr(s).value.0 == InstrSet(k) && InstrSet(k).name <= u[..TokenLen(u)]
         && forall j :: 0 <= j < k ==> !(InstrSet(j).name <= u[..TokenLen(u)]);
    assert IsFirstWord(SkipBlank(s), k, ParseInstr(s).value.1);
  }

  ghost predicate StmtAt(s: string, stmt: Stmt) {
    exists k, operands, end :: NamedAt(s, k, operands) && InstrSet(k).name == Mnemonic(stmt)
                               && OperandsAt(stmt, operands, end) && AtEnd(end)
  }

  lemma StmtOnly(s: string)
    ensures ParseStmt(s).Some? ==> StmtAt(s, ParseStmt(s).value)
  {
    hide ParseInstr, ParseOperands, OperandsAt, InstrSet, Mnemonic, NamedAt, AtEnd;
    if ParseStmt(s).Some? {
      var k := NamedOnly(s);
      var operands := ParseInstr(s).value.1;
      OperandsOnly(k, operands);
      var (stmt, end) := ParseOperands(InstrSet(k), operands).value;
      assert ParseStmt(s) == Some(stmt);
    }
  }

  // A line that is read is a comment, or a label, or a statement, or a label and a statement, spelled like that.
  lemma LineOnly(text: string)
    ensures match Parse(text)
            case Malformed => true
            case Nothing => AtEnd(text)
            case Line(None, None) => false
            case Line(None, Some(stmt)) => StmtAt(text, stmt)
            case Line(Some(name), None) => exists rest :: LabelAt(text, name, rest) && AtEnd(rest)
            case Line(Some(name), Some(stmt)) => exists rest :: LabelAt(text, name, rest) && StmtAt(rest, stmt)
  {
    hide ParseLabel, ParseStmt, AtEnd, StmtAt, LabelAt;
    if ParseLabel(text).Some? {
      var (name, rest) := ParseLabel(text).value;
      LabelIs(text, name, rest);
      StmtOnly(rest);
    } else {
      StmtOnly(text);
    }
  }
}
