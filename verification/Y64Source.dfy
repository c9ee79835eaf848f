/**
  A Y64 program as its author sees it: statements at addresses, labels that stand for addresses, and
  what running the statements does.  No byte of machine code is mentioned here.
 */
module Y64Source {
  import opened Wrappers
  import opened Y64
  import opened Y64Syntax

  // One line: a comment, or an address with the statement there, if the line has more than a label.
  datatype Entry = Comment | At(addr: Long, stmt: Option<Stmt>)

  // The lines so far, the labels so far, and the address of the next statement.
  datatype Source = Source(entries: seq<Entry>, labels: map<string, Long>, here: Long)

  const EMPTY: Source := Source([], map[], 0)

  // The bytes a statement takes up
  function Extent(stmt: Stmt): (n: int)
    ensures stmt.Code? ==> 1 <= n <= 10
  {
    match stmt
    case Code(i, _) => |Encode(i)|
    case Data(width, _) => width
    case _ => 0
  }

  // The remainder of C's division, which has the sign of `a`
  function Rem(a: int, b: int): int
    requires b != 0
  {
    if a >= 0 then a % b else -((-a) % b)
  }

  function Aligned(here: Long, v: Long): Long
    requires v != 0
  {
    if Rem(here, v) != 0 then Wrap(here as int + (v as int - Rem(here, v))) else here
  }

  // Where a statement goes when `here` is the current address; None for an alignment to 0
  function Place(here: Long, stmt: Stmt): Option<Long> {
    match stmt
    case Pos(v) => Some(v)
    case Align(v) => if v == 0 then None else Some(Aligned(here, v))
    case _ => Some(here)
  }

  // Add a line; None when it is malformed or defines a label again.
  function Lay(src: Source, text: string): Option<Source> {
    match Parse(text)
    case Malformed => None
    case Nothing => Some(src.(entries := src.entries + [Comment]))
    case Line(def, stmt) =>
      if def.Some? && def.value in src.labels then None else
        var labels := if def.Some? then src.labels[def.value := src.here] else src.labels;
        match stmt
        case None => Some(Source(src.entries + [At(src.here, None)], labels, src.here))
        case Some(s) =>
          var addr :- Place(src.here, s);
          Some(Source(src.entries + [At(addr, Some(s))], labels, Wrap(addr as int + Extent(s))))
  }

  // The program made of the first `n` lines
  function LayAll(texts: seq<string>, n: nat): Option<Source>
    requires n <= |texts|
  {
    if n == 0 then Some(EMPTY) else
      var src :- LayAll(texts, n - 1);
      Lay(src, texts[n - 1])
  }

  // The name a statement refers to
  function SymOf(stmt: Stmt): Option<string> {
    match stmt
    case Code(_, sym) => sym
    case Data(_, Sym(name)) => Some(name)
    case _ => None
  }

  function EntrySym(e: Entry): Option<string> {
    if e.At? && e.stmt.Some? then SymOf(e.stmt.value) else None
  }

  // Every name that is referred to is defined.
  predicate Closed(src: Source) {
    forall j :: 0 <= j < |src.entries| ==> EntrySym(src.entries[j]).Some? ==> EntrySym(src.entries[j]).value in src.labels
  }

  // An instruction with its immediate or destination replaced
  function WithTarget(i: Instr, a: Long): Instr {
    match i
    case Irmovq(_, rb) => Irmovq(a, rb)
    case Jxx(cond, _) => Jxx(cond, a)
    case Call(_) => Call(a)
    case _ => i
  }

  // The instruction of a line, with its label replaced by an address
  function Resolved(stmt: Stmt, labels: map<string, Long>): Instr
    requires stmt.Code?
  {
    if stmt.sym.Some? && stmt.sym.value in labels then WithTarget(stmt.i, labels[stmt.sym.value]) else stmt.i
  }

  predicate IsInstrAt(e: Entry, pc: Long) {
    e.At? && e.addr == pc && e.stmt.Some? && e.stmt.value.Code?
  }

  // The first line from number `k` on that holds an instruction at `pc`
  function LineAt(entries: seq<Entry>, pc: Long, k: nat): (r: Option<nat>)
    requires k <= |entries|
    ensures r.Some? ==> k <= r.value < |entries| && IsInstrAt(entries[r.value], pc)
    decreases |entries| - k
  {
    if k == |entries| then None else if IsInstrAt(entries[k], pc) then Some(k) else LineAt(entries, pc, k + 1)
  }

  // One step of the program; None when there is no instruction at the program counter.
  function SourceStep(src: Source, s: State): Option<(State, Stat)> {
    var k :- LineAt(src.entries, s.pc, 0);
    var stmt := src.entries[k].stmt.value;
    Some(Exec(Resolved(stmt, src.labels), s, Wrap(s.pc as int + Extent(stmt))))
  }

  // No line starts before the end of the line above it, and none below address 0.
  predicate Forward(entries: seq<Entry>) {
    && (forall j :: 0 <= j < |entries| && entries[j].At? ==> 0 <= entries[j].addr)
    && (forall j, k :: 0 <= j < k < |entries| && entries[j].At? && entries[k].At? ==>
          entries[j].addr + EntryExtent(entries[j]) <= entries[k].addr)
  }

  function EntryExtent(e: Entry): int {
    if e.At? && e.stmt.Some? then Extent(e.stmt.value) else 0
  }
}
