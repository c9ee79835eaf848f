/**
  What the file that lab5/y64asm.c writes looks like: every statement's bytes at its address.
 */
module Y64Image {
  import opened Wrappers
  import opened LittleEndian
  import opened Y64
  import opened Y64Source
  import opened Y64Asm

  predicate Occupies(e: Entry, p: int) {
    e.At? && e.stmt.Some? && e.addr <= p < e.addr + Extent(e.stmt.value)
  }

  // ---------- any order of addresses ----------

  // The end of the last of the first `n` lines that takes up bytes
  function FileEnd(entries: seq<Entry>, n: nat): int
    requires n <= |entries|
  {
    if n == 0 then 0
    else if EntryExtent(entries[n - 1]) > 0 then entries[n - 1].addr + EntryExtent(entries[n - 1])
    else FileEnd(entries, n - 1)
  }

  // None of the lines `k` to `n` takes up bytes.
  ghost predicate NoBytes(entries: seq<Entry>, k: nat, n: nat)
    requires n <= |entries|
  {
    forall j :: k <= j < n ==> EntryExtent(entries[j]) <= 0
  }

  // Line `j` is the last of the first `n` that takes up bytes.
  ghost predicate LastWithBytes(entries: seq<Entry>, j: nat, n: nat)
    requires n <= |entries|
  {
    j < n && EntryExtent(entries[j]) > 0 && entries[j].At? && NoBytes(entries, j + 1, n)
  }

  lemma {:induction false} LastLine(entries: seq<Entry>, n: nat) returns (j: nat)
    requires n <= |entries| && !NoBytes(entries, 0, n)
    ensures LastWithBytes(entries, j, n)
  {
    hide EntryExtent;
    CommentExtent(entries[n - 1]);
    if EntryExtent(entries[n - 1]) > 0 {
      j := n - 1;
    } else {
      j := LastLine(entries, n - 1);
    }
  }

  lemma {:induction false} EndOfLast(entries: seq<Entry>, n: nat, j: nat)
    requires n <= |entries| && LastWithBytes(entries, j, n)
    ensures FileEnd(entries, n) == entries[j].addr + EntryExtent(entries[j])
  {
    hide EntryExtent;
    if j < n - 1 {
      EndOfLast(entries, n - 1, j);
    }
  }

  lemma {:induction false} NoEnd(entries: seq<Entry>, n: nat)
    requires n <= |entries| && NoBytes(entries, 0, n)
    ensures FileEnd(entries, n) == 0
  {
    hide EntryExtent;
    if n > 0 {
      NoEnd(entries, n - 1);
    }
  }

  // The file ends with the last line that takes up bytes; without one it is empty.
  lemma FileEndIs(entries: seq<Entry>, n: nat)
    requires n <= |entries|
    ensures if NoBytes(entries, 0, n) then FileEnd(entries, n) == 0 else
              exists j :: 0 <= j && LastWithBytes(entries, j, n) && FileEnd(entries, n) == entries[j].addr + EntryExtent(entries[j])
  {
    hide EntryExtent, FileEnd, NoBytes, LastWithBytes;
    if NoBytes(entries, 0, n) {
      NoEnd(entries, n);
    } else {
      var j := LastLine(entries, n);
      InRange(entries, j, n);
      EndOfLast(entries, n, j);
    }
  }

  lemma InRange(entries: seq<Entry>, j: nat, n: nat)
    requires n <= |entries| && LastWithBytes(entries, j, n)
    ensures j < |entries| && entries[j].At?
  {
  }

  predicate EndsIn(e: Entry, size: int) {
    EntryExtent(e) > 0 ==> 0 <= e.addr && e.addr + EntryExtent(e) <= size
  }

  // No statement reaches out of the file, whose end is that of the last line with bytes.
  predicate InFile(entries: seq<Entry>) {
    var size := FileEnd(entries, |entries|);
    0 <= size <= MAX_LEN && forall j :: 0 <= j < |entries| ==> EndsIn(entries[j], size)
  }

  lemma LineShape(e: Entry, labels: map<string, Long>)
    requires EntryOk(e)
    ensures var line := LinkedLine(e, labels);
            && line.isInstr == e.At? && (e.At? ==> line.addr == e.addr)
            && line.bytes == EntryExtent(e) && 0 <= line.bytes <= 10 && |line.codes| == 10
            && (e.At? && e.stmt.Some? ==> line.codes == LinkedCodes(e.stmt.value, labels))
  {
    hide LinkedCodes, UnlinkedCodes, High, Low, Pack, LongBytes;
  }

  // The byte at `p` when the first `n` statements have been written one over the other
  ghost function PaintAt(src: Source, n: nat, p: int): Byte
    requires AllOk(src.entries) && n <= |src.entries|
  {
    if n == 0 then 0
    else if Occupies(src.entries[n - 1], p) then CodeByte(src.entries[n - 1], src.labels, p)
    else PaintAt(src, n - 1, p)
  }

  ghost function CodeByte(e: Entry, labels: map<string, Long>, p: int): Byte
    requires EntryOk(e) && Occupies(e, p)
  {
    LineShape(e, labels);
    LinkedCodes(e.stmt.value, labels)[p - e.addr]
  }

  // The file of any program: where statements overlap the later one wins, and zeros are everywhere else.
  ghost predicate Painted(file: seq<Byte>, src: Source) {
    && AllOk(src.entries) && |file| == FileEnd(src.entries, |src.entries|)
    && forall p :: 0 <= p < |file| ==> file[p] == PaintAt(src, |src.entries|, p)
  }

  lemma {:induction false} SizeIsEnd(lines: seq<AsmLine>, src: Source, n: nat)
    requires Linked(lines, src) && n <= |lines|
    ensures FileSize(lines, n) == FileEnd(src.entries, n)
  {
    hide LinkedLine, EntryOk, EntryExtent;
    if n > 0 {
      LineShape(src.entries[n - 1], src.labels);
      CommentExtent(src.entries[n - 1]);
      SizeIsEnd(lines, src, n - 1);
    }
  }

  lemma CommentExtent(e: Entry)
    ensures EntryExtent(e) > 0 ==> e.At? && e.stmt.Some?
  {
  }

  lemma LinesInside(lines: seq<AsmLine>, src: Source)
    requires Linked(lines, src) && InFile(src.entries)
    ensures 0 <= FileSize(lines, |lines|) <= MAX_LEN
    ensures forall j :: 0 <= j < |lines| ==> Inside(lines[j], FileSize(lines, |lines|))
  {
    hide LinkedLine, EntryOk, EntryExtent, FileSize, FileEnd;
    SizeIsEnd(lines, src, |lines|);
    forall j | 0 <= j < |lines| ensures Inside(lines[j], FileSize(lines, |lines|)) {
      LineShape(src.entries[j], src.labels);
      assert EndsIn(src.entries[j], FileSize(lines, |lines|));
    }
  }

  lemma {:induction false} BytesArePaint(lines: seq<AsmLine>, src: Source, n: nat, p: int)
    requires Linked(lines, src) && n <= |lines|
    ensures ByteAt(lines, n, p) == PaintAt(src, n, p)
  {
    hide LinkedLine, EntryOk, LinkedCodes;
    if n > 0 {
      LineShape(src.entries[n - 1], src.labels);
      BytesArePaint(lines, src, n - 1, p);
    }
  }

  // ---------- addresses that never go back ----------

  // The file holds the bytes of every statement at its address, and zeros elsewhere.
  ghost predicate ImageOf(file: seq<Byte>, src: Source) {
    && AllOk(src.entries)
    && (forall j :: 0 <= j < |src.entries| ==> Holds(file, src.entries[j], src.labels))
    && (forall p :: 0 <= p < |file| && (forall j :: 0 <= j < |src.entries| ==> !Occupies(src.entries[j], p)) ==> file[p] == 0)
  }

  ghost predicate Holds(file: seq<Byte>, e: Entry, labels: map<string, Long>)
    requires EntryOk(e)
  {
    EntryExtent(e) > 0 ==>
      && 0 <= e.addr <= |file| - EntryExtent(e) && EntryExtent(e) <= 10
      && file[e.addr..e.addr + EntryExtent(e)] == LinkedCodes(e.stmt.value, labels)[..EntryExtent(e)]
  }

  // When lines never go back, the end of the last one bounds them all.
  lemma {:induction false} ForwardInside(entries: seq<Entry>, n: nat, j: nat)
    requires Forward(entries) && n <= |entries|
    ensures j < n ==> EndsIn(entries[j], FileEnd(entries, n))
    ensures FileEnd(entries, n) >= 0
  {
    hide EntryExtent;
    if n > 0 {
      CommentExtent(entries[n - 1]);
      ForwardInside(entries, n - 1, j);
      if j < n {
        CommentExtent(entries[j]);
      }
    }
  }

  // No statement ends beyond the largest file.
  predicate Fits(entries: seq<Entry>) {
    forall j :: 0 <= j < |entries| ==> EndsBelow(entries[j])
  }

  predicate EndsBelow(e: Entry) {
    EntryExtent(e) > 0 ==> e.addr + EntryExtent(e) <= MAX_LEN
  }

  lemma {:induction false} FitsFile(entries: seq<Entry>, n: nat)
    requires Fits(entries) && n <= |entries|
    ensures FileEnd(entries, n) <= MAX_LEN
  {
    hide EntryExtent;
    if n > 0 {
      assert EndsBelow(entries[n - 1]);
      FitsFile(entries, n - 1);
    }
  }

  lemma ForwardInFile(entries: seq<Entry>)
    requires Forward(entries) && Fits(entries)
    ensures InFile(entries)
  {
    hide FileEnd, EndsIn, Forward, Fits;
    FitsFile(entries, |entries|);
    ForwardInside(entries, |entries|, 0);
    forall j | 0 <= j < |entries| ensures EndsIn(entries[j], FileEnd(entries, |entries|)) {
      ForwardInside(entries, |entries|, j);
    }
  }

  // A byte is that of the last statement there.
  lemma {:induction false} LastEntry(src: Source, n: nat, j: nat, p: int)
    requires AllOk(src.entries) && j < n <= |src.entries| && Occupies(src.entries[j], p)
    requires forall k :: j < k < n ==> !Occupies(src.entries[k], p)
    ensures PaintAt(src, n, p) == CodeByte(src.entries[j], src.labels, p)
  {
    hide EntryOk, Occupies, CodeByte;
    if n - 1 != j {
      LastEntry(src, n - 1, j, p);
    }
  }

  // When lines never go back, it belongs to one statement at most.
  lemma OnlyEntry(src: Source, n: nat, j: nat, p: int)
    requires AllOk(src.entries) && Forward(src.entries) && j < n <= |src.entries| && Occupies(src.entries[j], p)
    ensures PaintAt(src, n, p) == CodeByte(src.entries[j], src.labels, p)
  {
    hide EntryOk, Extent, CodeByte, PaintAt;
    LastEntry(src, n, j, p);
  }

  lemma {:induction false} NoEntry(src: Source, n: nat, p: int)
    requires AllOk(src.entries) && n <= |src.entries| && forall j :: 0 <= j < n ==> !Occupies(src.entries[j], p)
    ensures PaintAt(src, n, p) == 0
  {
    hide EntryOk, Occupies, CodeByte;
    if n > 0 {
      NoEntry(src, n - 1, p);
    }
  }

  // What is painted in address order is the image of the program.
  lemma {:induction false} FileIsImage(file: seq<Byte>, src: Source)
    requires Painted(file, src) && Forward(src.entries)
    ensures ImageOf(file, src)
  {
    hide EntryOk, Occupies, FileEnd, PaintAt, Forward, Holds;
    forall j | 0 <= j < |src.entries| ensures Holds(file, src.entries[j], src.labels) {
      FileHolds(file, src, j);
    }
    forall p | 0 <= p < |file| && (forall j :: 0 <= j < |src.entries| ==> !Occupies(src.entries[j], p)) ensures file[p] == 0 {
      NoEntry(src, |src.entries|, p);
    }
  }

  lemma {:induction false} FileHolds(file: seq<Byte>, src: Source, j: nat)
    requires Painted(file, src) && Forward(src.entries) && j < |src.entries|
    ensures Holds(file, src.entries[j], src.labels)
  {
    hide StmtOk, FileEnd, PaintAt, Forward, LinkedCodes, Extent;
    var e := src.entries[j];
    LineShape(e, src.labels);
    ForwardInside(src.entries, |src.entries|, j);
    var n := EntryExtent(e);
    if n > 0 {
      forall p | e.addr <= p < e.addr + n ensures file[p] == LinkedCodes(e.stmt.value, src.labels)[p - e.addr] {
        OnlyEntry(src, |src.entries|, j, p);
      }
      assert file[e.addr..e.addr + n] == LinkedCodes(e.stmt.value, src.labels)[..n];
    }
  }

  // ---------- the program ----------

  // The steps of main: assemble, relocate, binfile.  The copies of binfile need the statements of a linkable
  // program to lie inside the file.
  method AssembleFile(texts: seq<string>) returns (r: Option<seq<Byte>>)
    requires match LayAll(texts, |texts|)
             case None => true
             case Some(src) => Closed(src) ==> InFile(src.entries)
    ensures match LayAll(texts, |texts|)
            case None => r == None
            case Some(src) =>
              if !Closed(src) then r == None else
                r.Some? && Painted(r.value, src) && (Forward(src.entries) ==> ImageOf(r.value, src))
  {
    hide LayAll, Forward, Closed, InFile, Linked, ImageOf, Inside, FileSize, ByteAt, FileEnd, PaintAt;
    var asm := new Assembler();
    var done := asm.Assemble(texts);
    if done < 0 {
      return None;
    }
    ghost var src := LayAll(texts, |texts|).value;
    done := asm.Relocate(src);
    if done < 0 {
      return None;
    }
    LinesInside(asm.lines, src);
    var file := asm.Binfile();
    FileIsPainted(file, asm.lines, src);
    if Forward(src.entries) {
      FileIsImage(file, src);
    }
    return Some(file);
  }

  lemma FileIsPainted(file: seq<Byte>, lines: seq<AsmLine>, src: Source)
    requires Linked(lines, src) && |file| == FileSize(lines, |lines|)
    requires forall p :: 0 <= p < |file| ==> file[p] == ByteAt(lines, |lines|, p)
    ensures Painted(file, src)
  {
    hide FileSize, FileEnd, ByteAt, PaintAt, LinkedLine, EntryOk;
    SizeIsEnd(lines, src, |lines|);
    forall p | 0 <= p < |file| ensures file[p] == PaintAt(src, |src.entries|, p) {
      BytesArePaint(lines, src, |lines|, p);
    }
  }
}
