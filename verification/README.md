# Verified model of the ICS labs

A Dafny model of the state-changing cores of seven lab programs, with proofs of what they are for. Each
program keeps its own form: a C object that is updated in place is a class or an array here, a `char *`
cursor that only advances is the rest of the line, and what is pure is a function.

- **Allocator** (`LittleEndian`, `Memlib`, `HeapShape`, `Malloc`; lab7): `mm.c` on a byte array. `HeapShape`
  says what the bytes mean: a tiling of the heap by blocks with boundary tags, sixteen doubly linked free
  lists threaded through the free blocks, and the payloads of the allocated ones. `Malloc.Allocator` performs
  the writes of the source and proves that `Valid()` (tiling, equal tags, sizes, no two free neighbours, the
  lists hold exactly the free blocks, each once, in its class, with matching links) holds after every call,
  and that each call is the right change of the map `Contents()` from live pointers to their bytes.
- **Judge of the allocator** (`Driver`; lab7): `mdriver.c` run over whole traces of allocator calls.
- **Y64 assembler and simulator** (`Y64Syntax`, `Y64Text`, `Y64Grammar`, `Y64Source`, `Y64Layout`, `Y64Asm`,
  `Y64Image`; lab5; `Y64`, `Y64Laws`, `Y64Sim`; lab4; `Y64Meaning` joins them). `Y64Source` runs source lines
  without any machine code; the theorem is that the assembled image on the simulator does the same. What the
  definitions both sides share compute is proved apart: `Y64Laws` has the laws of the instructions, `Y64Layout` the
  address of every line and label, `Y64Text` and `Y64Grammar` what a line means and which lines are read.
- **K-best sampler** (`Fcyc`; lab7), **number output** (`Sio`; lab10), **robust I/O** (`Rio`; lab10) and the
  **proxy** (`Proxy`; lab10).  The proxy rewrites a target from the absolute-form to the origin-form of RFC 9112
  (sections 3.2.2 and 3.2.1).  Of the framing rules in section 6.3 it knows Content-Length only, and the last one
  at that: `Proxy.FramedByLength` says when its messages are those of the section, `Proxy.LastLengthWins` and
  `Proxy.BodyWithoutLengthDropped` what it does instead.
- **Job control** (`Jobs`, `Tsh`; lab9): the shell as a machine whose steps interleave with SIGCHLD, and the
  table routines that carry the steps out; the quoting tokenizer is `Parseline`.
- `CString` and `Wrappers` hold what several of these share.

Where the code does not do what one would expect of it, the model follows the code, says exactly when it goes
right, and, where a lemma is named in parentheses, shows an input on which it does not:

- `Driver.TouchesOrInside`: the range test misses exactly the old ranges strictly inside the new one
  (`Driver.SurroundingRange`).
- `Driver.Judge.EvalValid`: a trace whose demand on the heap fits is accepted exactly if it never reallocates an id
  with a low byte of 128 or more (`Driver.TurnedDownTrace`).
- `Y64Laws.SubOrders`: the conditions after a subtraction compare its operands exactly if the sign of the difference
  shows in its low 32 bits (`Y64Laws.FarMisordered`, and `Y64Laws.AndMisordered` for the overflow flag of andq).
- `Y64Layout.AlignedIs`: .align goes to the next multiple exactly if the address is not below 0 or is one already.
- `Malloc.Allocator.FreeUnlessMarked`: a block is freed exactly if neither of two bytes of client data is 255.
- `Y64Sim.Simulator.LoadBinfile`: a file is accepted exactly if it is shorter than the memory
  (`Y64Sim.FullFileTurnedDown`).
- `Proxy.TargetAccepted`: a target needs a delimiter after the host (`Proxy.BareHostRejected`).
- `Jobs.WaitfgReturns`: `waitfg` can return exactly if its flag is set or a foreground job is left
  (`Jobs.LostSignal`).

`dafny verify dfyconfig.toml` checks everything.

## Model

| member | source | states |
|---|---|---|
| `Memlib.Memory.Sbrk` | lab7/memlib.c:58-69 | the break moves by the increment and its old value is returned, or nothing changes and -1 is returned when the increment is negative or exceeds the heap |
| `Memlib.Memory.ResetBrk` | lab7/memlib.c:48-51 | the heap is empty again |
| `HeapShape.BlockIndexMonotone` | lab7/mm.c:89-124 | a larger block never belongs to an earlier class, so searching upwards misses nothing |
| `HeapShape.ClassLimits` | lab7/mm.c:89-124 | the largest size of each class: 40, and then 128 doubled from class to class |
| `HeapShape.TilesHeap` | lab7/mm.c:61-63 | every address of the heap belongs to exactly one block |
| `HeapShape.LiveDisjoint` | lab7/mm.c:228-358 | two live payloads never overlap, and both lie inside the heap |
| `HeapShape.NoFit` | lab7/mm.c:387-401 | when none of the lists from the request's class up has a block that is large enough, no free block in the heap is |
| `HeapShape.FirstFitSmallestClass` | lab7/mm.c:387-401 | the block found is of the smallest class that holds a block large enough |
| `Malloc.Allocator.Init` | lab7/mm.c:182-202 | the first heap is consistent and holds nothing live |
| `Malloc.Allocator.ExtendHeap` | lab7/mm.c:207-226 | the heap grows by the rounded size, ends in a free block that has swallowed a free last block, and no live byte changes; or nothing changes |
| `Malloc.Allocator.InsertBlock` | lab7/mm.c:129-147 | the block becomes the head of the list of its class, the other lists stay, all links match again, no live byte changes |
| `Malloc.Allocator.RemoveBlock` | lab7/mm.c:152-176 | exactly that block leaves its list, the order of the others stays, all links match again, no live byte changes |
| `Malloc.Allocator.Place` | lab7/mm.c:403-421 | the free block becomes live, split exactly when 24 bytes or more remain, and no other live byte changes |
| `Malloc.Allocator.Coalesce` | lab7/mm.c:451-481 | whatever the two neighbours are, the freed block is merged and listed so that no two free blocks touch and the lists are complete again |
| `Malloc.Allocator.FindFit` | lab7/mm.c:387-401 | the first block that fits in list order, or 0 only if no free block of the heap fits |
| `Malloc.Allocator.Malloc` | lab7/mm.c:266-357 | on the general path adds one fresh live payload of at least the size asked for and changes no other live byte; it is the first fit, split as place does and without moving the break, or, if nothing fits, at the end of a heap grown by exactly the request's extension; 0 exactly for size 0 or when nothing fits and the heap cannot grow; less than a block is wasted |
| `Malloc.Allocator.Free` | lab7/mm.c:444-448 | removes exactly that payload and changes no other live byte |
| `Malloc.Allocator.FreeUnlessMarked` | lab7/mm.c:426-449 | frees exactly if neither marker byte is 255, else clears the first such byte and changes nothing else |
| `Malloc.Allocator.Shrink` | lab7/mm.c:507-529 | in-place shrinking leaves exactly the adjusted size and keeps the remaining bytes, whether or not the rest merges with a free neighbour |
| `Malloc.Allocator.GrowInto` | lab7/mm.c:561-576 | growing into the free neighbour keeps all old bytes and splits exactly when 24 bytes or more remain |
| `Malloc.Allocator.MakeRoom` | lab7/mm.c:531-550 | the heap is extended once exactly under one of the three guards, no live byte changes, and the room found behind the block is what the heap before promised |
| `Malloc.Allocator.ExtendTail` | lab7/mm.c:537-550 | each of the last two guards, and the extension it leads to |
| `Malloc.Allocator.Grow` | lab7/mm.c:554-611 | stays in place exactly if the block behind, and one more extension where it ends the heap, is large enough; moves otherwise |
| `Malloc.Allocator.Move` | lab7/mm.c:603-610 | the old payload is a prefix of the new one, the old pointer is dead; or nothing changes |
| `Malloc.Allocator.Realloc` | lab7/mm.c:486-612 | stays in place exactly if the block, a free block behind it and the extensions made there reach the size, and then extends the heap by just what that takes and has exactly the block size the split leaves; on every path the first min(old, new) bytes are kept, no other live payload changes, and the old block stays live and unchanged when 0 is returned |
| `Malloc.Allocator.Check` | lab7/mm.c:617-679 | among the heaps whose tags tile them and whose lists can be walked, 0 exactly for those that satisfy the whole invariant, so for every heap the allocator leaves |
| `Malloc.Allocator.CheckMarks` | lab7/mm.c:621-628 | passes exactly if every listed block is marked as free |
| `Malloc.Allocator.CheckNeighbours` | lab7/mm.c:630-637 | passes exactly if no two free blocks touch |
| `Malloc.Allocator.CheckCounts` | lab7/mm.c:639-655 | the counts agree exactly if every free block is listed |
| `Malloc.Allocator.CheckLinks` | lab7/mm.c:657-678 | passes exactly if every listed block points back to the one before it |
| `Driver.TouchesOrInside` | lab7/mdriver.c:374-383 | two ranges overlap exactly if add_range's test finds it or the new range strictly surrounds the old one |
| `Driver.SurroundingRange` | lab7/mdriver.c:374-383 | a range around another that the test lets through |
| `Driver.Judge.AddRange` | lab7/mdriver.c:351-399 | accepts exactly aligned ranges inside the heap that touch no recorded one, and records them in front |
| `Driver.Judge.RemoveRange` | lab7/mdriver.c:404-419 | the first range that starts there is taken out |
| `Driver.Judge.EvalValid` | lab7/mdriver.c:547-655 | a well-formed trace is accepted with every live block recorded, apart and filled, or it stops at a request that finds the heap full or reallocates an id with a low byte of 128 or more; if the demand of the trace fits the heap it is accepted exactly if it makes no such reallocation |
| `Driver.TurnedDownTrace` | lab7/mdriver.c:621-633 | a well-formed trace of two requests that fits the heap and makes such a reallocation |
| `Driver.PeakIsHighest` | lab7/mdriver.c:682-742 | the high-water mark is the largest of the sums after each request |
| `Driver.Judge.Meter` | lab7/mdriver.c:682-742 | total_size stays the sum of the live requested sizes, and the heap grows by no more than the request's demand |
| `Driver.Judge.EvalUtil` | lab7/mdriver.c:668-748 | the utilization is the peak of that sum over the heap size, and at most 1; it is missing only if the heap is full at the next request, never if the demand of the trace fits the heap |
| `Y64.FetchEncode` | lab4/y64sim.c:367-396 | the bytes of any instruction, wherever they lie, are fetched as that instruction with its length |
| `Y64Laws.FetchOnly` | lab4/y64sim.c:367-396 | and only those bytes, but for halves that are not looked at; any other code is an error |
| `Y64Laws.FetchErrors` | lab4/y64sim.c:357-396 | an instruction that reaches out of memory gives an address error, a code without instruction an instruction error, and nothing changes |
| `Y64Laws.AddSub` | lab4/y64sim.c:246-268 | addq and subq are exact where the result is a long and undo one another everywhere |
| `Y64Laws.AndXorBits` | lab4/y64sim.c:246-268 | andq and xorq work bit by bit |
| `Y64Laws.AndXorLaws` | lab4/y64sim.c:246-268 | xorq twice changes nothing, andq of equal operands keeps them, and the two together add |
| `Y64Laws.SubOrders` | lab4/y64sim.c:280-345 | after subq all conditions compare the operands exactly if the sign of the difference shows in its low 32 bits or 0 was compared with the smallest long |
| `Y64Laws.NearOrders` | lab4/y64sim.c:280-345 | so numbers whose difference is an int are compared right |
| `Y64Laws.FarMisordered` | lab4/y64sim.c:280-345 | 2 to the 31st is taken to be less than 0 |
| `Y64Laws.TestOrders` | lab4/y64sim.c:280-345 | after addq, xorq, or andq of a register with itself the conditions compare the result with 0, under the same condition |
| `Y64Laws.AndMisordered` | lab4/y64sim.c:286-289 | the 0 of andq on 1 and 2 is taken to be less than 0 |
| `Y64Laws.Effects` | lab4/y64sim.c:398-517 | no instruction changes other registers than its destinations, flags only arithmetic does, and a failed one changes the stack pointer at most |
| `Y64Laws.PushPop` | lab4/y64sim.c:487-517 | popq undoes pushq and delivers what was pushed, which succeeds exactly if the eight bytes below the stack pointer are memory |
| `Y64Laws.CallRet` | lab4/y64sim.c:466-486 | ret comes back behind the call with the old stack pointer |
| `Y64Laws.StoreLoad` | lab4/y64sim.c:424-441 | mrmovq loads what rmmovq stored at the sum of base and displacement, and no other byte has changed |
| `Y64Laws.CompareAndBranch` | lab4/y64sim.c:408-465 | a jump or conditional move behind subq acts exactly if the registers compared so, unless the difference hides its sign |
| `Y64Laws.SubThenAdd` | lab4/y64sim.c:442-453 | subq takes the first register from the second, addq gives it back |
| `Y64Sim.GetLongVal` | lab4/y64sim.c:50-61 | the eight bytes as a signed little-endian number, exactly when they lie in memory |
| `Y64Sim.SetLongVal` | lab4/y64sim.c:71-81 | the eight bytes become the number and no other byte changes, exactly when they lie in memory |
| `Y64Sim.GetRegVal` | lab4/y64sim.c:147-154 | the register's value, 0 for an id that is none |
| `Y64Sim.SetRegVal` | lab4/y64sim.c:156-160 | that register alone changes; nothing for an id that is none |
| `Y64Sim.Simulator.NextInstr` | lab4/y64sim.c:357-518 | one step of the architecture, errors included |
| `Y64Sim.Simulator.Execute` | lab4/y64sim.c:398-517 | the effect of each instruction on registers, memory, flags and program counter |
| `Y64Sim.Simulator.LoadBinfile` | lab4/y64sim.c:220-235 | the file is put at address 0 over untouched memory; success exactly if it is shorter than the memory |
| `Y64Sim.FullFileTurnedDown` | lab4/y64sim.c:220-235 | a file of 8192 bytes is turned down by a memory of 8192 |
| `Y64Sim.Simulator.RunSteps` | lab4/y64sim.c:564-566 | as many steps of the architecture as allowed, up to the first that does not return AOK, and their number |
| `Y64Sim.DiffMem` | lab4/y64sim.c:106-145 | reports a difference exactly if a byte of the common part differs |
| `Y64Text.ReadNumber` | lab5/y64asm.c:334-349 | every 64-bit number comes back from its decimal text |
| `Y64Text.ReadLiteral` | lab5/y64asm.c:334-349 | signed, octal, decimal and hexadecimal numbers are read with their value, modulo 2 to the 64th, and larger ones as -1 |
| `Y64Text.ReadWritten` | lab5/y64asm.c:334-484 | immediates, data and addresses may be written in any of these ways |
| `Y64Text.ReadDisplacement` | lab5/y64asm.c:412-443 | displacements too |
| `Y64Text.ReadNoDisplacement` | lab5/y64asm.c:412-443 | without one the displacement is 0 |
| `Y64Text.RegisterFromIs` | lab5/y64asm.c:40-47 | the search finds the first register whose name begins the token, or there is none |
| `Y64Text.InstrFromIs` | lab5/y64asm.c:88-95 | the search finds the first row whose name begins the token, or there is none |
| `Y64Text.GapsDoNotMatter` | lab5/y64asm.c:212-519 | blanks and tabs in front of anything that is read change nothing |
| `Y64Text.EndIs` | lab5/y64asm.c:758-765 | a line may end in blanks and a comment and in nothing else |
| `Y64Text.ReadStmt` | lab5/y64asm.c:570-765 | every statement comes back from its text, whatever blanks or comment follow |
| `Y64Text.ParseLineText` | lab5/y64asm.c:531-765 | every line comes back from its text, with its label |
| `Y64Text.MnemonicOf` | lab5/y64asm.c:50-86 | the table names every statement as its condition, operation or width asks for |
| `Y64Grammar.OperandsOnly` | lab5/y64asm.c:594-756 | what is read behind a mnemonic is a statement of that name whose operands are spelled there, with all commas and parentheses |
| `Y64Grammar.LineOnly` | lab5/y64asm.c:531-765 | only comments, labels and statements that are spelled as the grammar says are read |
| `Y64Layout.LineAddress` | lab5/y64asm.c:554-710 | every line has the statement written there; it lies behind the line above unless it is a .pos or .align, and a label stands for the address behind the lines above it |
| `Y64Layout.LabelAddress` | lab5/y64asm.c:554-567 | a label in front of a statement is the address of that statement |
| `Y64Layout.NextAddress` | lab5/y64asm.c:570-765 | a statement starts where the one above it ends |
| `Y64Layout.FirstAddress` | lab5/y64asm.c:776-811 | the first statement is at 0 |
| `Y64Layout.AlignedIs` | lab5/y64asm.c:701-710 | .align goes to the least multiple not below the address exactly if that is a long and the address is not below 0 or is one; from below 0 it goes one further |
| `Y64Layout.LabelsDefined` | lab5/y64asm.c:130-151 | the labels are exactly the names that lines define |
| `Y64Layout.LayFailsExactly` | lab5/y64asm.c:776-811 | there is no program exactly if some line is malformed, defines a name again or aligns to 0 |
| `Y64Asm.FindRegister` | lab5/y64asm.c:40-47 | the first register whose name begins the token |
| `Y64Asm.FindInstr` | lab5/y64asm.c:88-95 | the first row of the table whose name begins the token |
| `Y64Asm.ScanInstr` | lab5/y64asm.c:212-228 | reads a mnemonic as the grammar says |
| `Y64Asm.ScanDelim` | lab5/y64asm.c:239-251 | reads a delimiter after blanks |
| `Y64Asm.ScanReg` | lab5/y64asm.c:264-289 | reads a register name |
| `Y64Asm.ScanSymbol` | lab5/y64asm.c:302-321 | reads a name |
| `Y64Asm.ScanDigit` | lab5/y64asm.c:334-349 | reads a number |
| `Y64Asm.ScanImm` | lab5/y64asm.c:367-397 | reads an immediate or a name |
| `Y64Asm.ScanMem` | lab5/y64asm.c:412-443 | reads a displacement and base register |
| `Y64Asm.ScanData` | lab5/y64asm.c:461-484 | reads a data value or a name |
| `Y64Asm.ScanLabel` | lab5/y64asm.c:497-519 | reads a label |
| `Y64Asm.ScanOperands` | lab5/y64asm.c:594-691 | the ten bytes built piece by piece are the encoding of the instruction that was read, with the name to relocate |
| `Y64Asm.ScanDirective` | lab5/y64asm.c:711-756 | the bytes of a data directive are the low bytes of the value |
| `Y64Asm.Assembler.FindSymbol` | lab5/y64asm.c:109-119 | the first entry of that name, or there is none |
| `Y64Asm.Assembler.AddSymbol` | lab5/y64asm.c:130-151 | appends the symbol exactly if it is new |
| `Y64Asm.Assembler.AddReloc` | lab5/y64asm.c:164-179 | appends a relocation of the current line |
| `Y64Asm.Assembler.ParseMove` | lab5/y64asm.c:693-710 | .pos and .align move the current address and make no bytes |
| `Y64Asm.Assembler.ParseLine` | lab5/y64asm.c:531-765 | the line, symbol and relocation tables stay those of the source read so far; an error exactly for a malformed line or a label defined twice |
| `Y64Asm.Assembler.Assemble` | lab5/y64asm.c:776-811 | the tables are those of the whole program, or -1 exactly if some line is in error |
| `Y64Asm.PatchLinks` | lab5/y64asm.c:832-856 | patching the address in gives the bytes of the instruction that has the address in place of the name |
| `Y64Asm.FieldOnly` | lab5/y64asm.c:832-856 | relocation writes the low bytes of the address into the field of the statement and changes no other byte |
| `Y64Asm.Assembler.Relocate` | lab5/y64asm.c:820-862 | 0 exactly if every name that is used is defined, before or after; then every line is linked |
| `Y64Asm.Assembler.Binfile` | lab5/y64asm.c:873-904 | each byte of the file is that of the last line over it, 0 where there is none, and the size is the end of the last line with bytes |
| `Y64Image.LastEntry` | lab5/y64asm.c:873-904 | a byte is that of the last statement over it |
| `Y64Image.FileEndIs` | lab5/y64asm.c:873-904 | the file ends with the last line that has bytes |
| `Y64Image.FileIsImage` | lab5/y64asm.c:873-904 | when addresses never go back, every statement's bytes lie at its address and all else is zero |
| `Y64Image.AssembleFile` | lab5/y64asm.c:1054-1083 | the passes together write every statement at its address, later ones over earlier ones, or nothing exactly if a line is in error or a name is undefined; the image of the program if addresses never go back |
| `Y64Meaning.StepAgrees` | lab4/y64sim.c:357-518 | with the code in place, one fetched and executed instruction is one step of the source line at the program counter |
| `Y64Meaning.StepKeepsCode` | lab4/y64sim.c:71-81 | a step that stores nothing over an instruction leaves all code in place |
| `Y64Meaning.RunAgrees` | lab4/y64sim.c:564-566 | any number of steps agree as long as no earlier step stored over an instruction |
| `Y64Meaning.ImageRuns` | lab5/y64asm.c:873-904 | the assembled image in memory runs as the source lines with labels replaced by addresses |
| `Y64Meaning.AssembleAndRun` | lab4/y64sim.c:552-566 | assembling, loading and running lines from end to end gives the run of the source lines, and works exactly if all lines and names are right and the file is shorter than the memory |
| `Y64Meaning.TextToFetch` | lab5/y64asm.c:570-692 | an instruction's text is parsed, and where its linked bytes lie in memory the same instruction with the same registers, immediate and length is fetched |
| `Fcyc.SortSorts` | lab7/fcyc.c:83-87 | the reference sort gives an ascending permutation |
| `Fcyc.SmallestAreSmallest` | lab7/fcyc.c:67-88 | what is kept is ascending, part of the samples, and no larger than anything left out |
| `Fcyc.SmallestMore` | lab7/fcyc.c:67-88 | the k smallest after one more sample depend only on the k smallest before |
| `Fcyc.FirstIsMinimum` | lab7/fcyc.c:162 | the first value kept is the minimum of all samples |
| `Fcyc.ConvergedMeans` | lab7/fcyc.c:93-98 | the stopping rule holds exactly if at least kbest samples are within the tolerance of the minimum |
| `Fcyc.Sampler.InitSampler` | lab7/fcyc.c:50-62 | no samples, and an empty table |
| `Fcyc.Sampler.AddSample` | lab7/fcyc.c:67-88 | the array holds the smallest min(n, kbest) of all samples in order |
| `Fcyc.Sampler.HasConverged` | lab7/fcyc.c:93-98 | at least kbest samples, and the kbest-th is within epsilon of the minimum |
| `Fcyc.Sampler.Fcyc` | lab7/fcyc.c:129-168 | stops at the first sample at which it may, within max(1, maxsamples) samples, and returns the minimum of all of them |
| `Sio.SioReverse` | lab10/csapp.c:226-235 | the string in the buffer is reversed in place, the rest untouched |
| `Sio.SioLtoa` | lab10/csapp.c:238-255 | the buffer holds the numeral of the number, ended by a NUL |
| `Sio.NumeralMeans` | lab10/csapp.c:238-255 | the numeral reads back to the number in every base from 2 to 36, without a leading zero unless the number is 0 |
| `Sio.NumeralLength` | lab10/csapp.c:276-282 | no numeral is longer than 64 characters, so the buffer of 128 is enough |
| `Sio.SioPutl` | lab10/csapp.c:276-282 | exactly the decimal numeral is written |
| `Rio.LineStops` | lab10/csapp.c:871-893 | a line holds a newline only at its end, and ends in one unless it is full or the stream is over |
| `Rio.RioReadn` | lab10/csapp.c:749-768 | what left the stream is in the buffer at all times; without an error it is the first n bytes, however the reads were split or interrupted |
| `Rio.RioWriten` | lab10/csapp.c:775-792 | all bytes are written in order, or a proper prefix after an error |
| `Rio.RioBuffer.Read` | lab10/csapp.c:805-830 | delivers min(n, rio_cnt) bytes of what is pending, after a refill only if the buffer was empty, or 0 exactly at the end |
| `Rio.RioBuffer.Readnb` | lab10/csapp.c:849-864 | delivered, buffered and unread bytes always make up the stream; without an error exactly the first n are delivered |
| `Rio.RioBuffer.Readlineb` | lab10/csapp.c:871-893 | exactly the first line of the stream, up to maxlen-1 bytes, is delivered and ended by a NUL, however the reads were split |
| `Proxy.TargetAccepted` | lab10/proxy.c:281-291 | a target is accepted exactly if it starts with http:// in any case and a delimiter follows |
| `Proxy.BareHostRejected` | lab10/proxy.c:289-291 | http://host, which section 3.2.2 of RFC 9112 allows, is turned down |
| `Proxy.TargetRoundTrip` | lab10/proxy.c:274-316 | host, port and path come back from the target they are written in; the port is 80 if there is none |
| `Proxy.TargetLoose` | lab10/proxy.c:289-313 | what stands between the port and the slash is ignored, and without a slash the path is empty |
| `Proxy.ParseUri` | lab10/proxy.c:274-316 | takes every target apart as that says, -1 otherwise |
| `Proxy.PlainHead` | lab10/proxy.c:221-231 | lines that fit the buffer and have no NUL are passed on unchanged up to the first empty line, and all their bytes are counted |
| `Proxy.HeadWithoutEnd` | lab10/proxy.c:221-231 | without an empty line the header has no end |
| `Proxy.NulCuts` | lab10/proxy.c:221-231 | of a line with a NUL only the part in front of it is sent, all of it is counted |
| `Proxy.PlainResponse` | lab10/proxy.c:221-258 | then the message passed on is the header and the last Content-Length bytes of body, and the count is its length |
| `Proxy.DeclaredLength` | lab10/proxy.c:225-227 | the number of a Content-Length field in any case and with any blanks is the length in force |
| `Proxy.LastLengthWins` | lab10/proxy.c:225-227 | of several fields the last one counts |
| `Proxy.FramedByLength` | lab10/proxy.c:221-258 | with fields that agree, the message passed on is the one section 6.3 of RFC 9112 frames by Content-Length |
| `Proxy.BodyWithoutLengthDropped` | lab10/proxy.c:239-240 | without such a field only the header is passed on |
| `Proxy.RequestRead` | lab10/proxy.c:143-171 | a line of method, target and HTTP/1.1 becomes the method, the path of the target and HTTP/1.1; any other version, or a target that is turned down, gives none |
| `Proxy.RequestRewritten` | lab10/proxy.c:143-171 | the absolute-form of section 3.2.2 of RFC 9112 becomes the origin-form of section 3.2.1, with the same path, and host and port tell where it goes |
| `Proxy.TooFewTokens` | lab10/proxy.c:148-151 | one or two words are no request |
| `Proxy.NoLineEnd` | lab10/proxy.c:143-146 | nor is a line without an end |
| `Proxy.RequestFits` | lab10/proxy.c:171-176 | the rewritten request line always fits the buffer |
| `Proxy.SendRequestHeader` | lab10/proxy.c:181-194 | the server gets the header as passed on, up to its end |
| `Proxy.SendResponseHeader` | lab10/proxy.c:221-231 | the client gets the header as passed on and the count is the bytes read |
| `Proxy.SendBody` | lab10/proxy.c:204-217 | exactly the given number of bytes is passed on, or it fails because the stream or a write ended |
| `Proxy.DoIt` | lab10/proxy.c:123-263 | with a size other than 0 the server got the rewritten request, the client exactly the response's header and body, and the size counts them; without I/O errors that happens exactly if both messages are complete, however reads are split |
| `Parseline.ReadTyped` | lab9/tsh.c:235-283 | plain and quoted arguments come back from the line they are typed on |
| `Parseline.ReadTypedBackground` | lab9/tsh.c:278-282 | with an ampersand behind them the same arguments come back as a background job |
| `Parseline.NothingTyped` | lab9/tsh.c:235-283 | a blank line, or one of a quotation that is never closed, has no arguments and counts as background |
| `Parseline.ParseLine` | lab9/tsh.c:235-283 | the strings left in the buffer at the argv offsets are the arguments of the line, and the result tells background from foreground |
| `CString.AtoiReads` | lab9/tsh.c:321-334 | atoi reads the number behind white space and a sign, up to the first other character |
| `Jobs.Launched` | lab9/tsh.c:208-222 | starting a job fills the first free slot with the pid, the next number, the state asked for and the command line; the number moves on or back to 1 after 16 |
| `Jobs.ChildStopped` | lab9/tsh.c:402-421 | a stopped child is marked as stopped and keeps its number and command line; nothing else changes but the flag, if it was in the foreground |
| `Jobs.ChildEnded` | lab9/tsh.c:402-439 | the slot of a child that ended is free, the others stay, and the next number is one above all that are left |
| `Jobs.Commanded` | lab9/tsh.c:309-375 | fg and bg act on the first job of the number behind a percent sign, or on the job of the pid: fg puts it in the foreground and waits, bg lets it run; without such a job nothing changes |
| `Jobs.NothingNamed` | lab9/tsh.c:309-345 | without a number nothing changes |
| `Jobs.StepKeeps` | lab9/tsh.c:165-226 | every step keeps the job-table invariant |
| `Jobs.RunsAreSafe` | lab9/tsh.c:165-439 | in every state of every run at most one job is in the foreground, none when a command is read, pid 0 marks exactly the free slots, live pids differ, and the shell has not died |
| `Jobs.NoFatalBranch` | lab9/tsh.c:348-374 | the FG and UNDEF branches of do_bgfg are never reached |
| `Jobs.StuckForever` | lab9/tsh.c:380-389 | once waitfg waits without a foreground job and with the flag clear, it waits in every later state of every run |
| `Jobs.CanWake` | lab9/tsh.c:380-389 | with a foreground job, its next SIGCHLD lets waitfg return |
| `Jobs.WaitfgReturns` | lab9/tsh.c:380-389 | some run returns from waitfg exactly if the flag is set or there is a foreground job |
| `Jobs.LostSignal` | lab9/tsh.c:212-389 | a foreground job that ends before waitfg clears the flag leaves the shell stuck |
| `Tsh.JobTable.InitJobs` | lab9/tsh.c:492-497 | all slots are free |
| `Tsh.JobTable.MaxJobId` | lab9/tsh.c:500-508 | the largest job number in the table, at least 0 |
| `Tsh.JobTable.AddJob` | lab9/tsh.c:511-534 | the first free slot gets the job and the next number, which wraps after 16; nothing changes if there is none |
| `Tsh.JobTable.DeleteJob` | lab9/tsh.c:537-552 | the job's slot is free and the next number is one more than the largest left |
| `Tsh.JobTable.ForegroundPid` | lab9/tsh.c:555-562 | the pid of the first foreground job, 0 if there is none |
| `Tsh.JobTable.GetJobPid` | lab9/tsh.c:565-574 | the first slot with that pid |
| `Tsh.JobTable.GetJobJid` | lab9/tsh.c:577-587 | the first slot with that job number |
| `Tsh.JobTable.Pid2Jid` | lab9/tsh.c:590-601 | the job number of that pid, 0 if there is none |
| `Tsh.JobTable.EvalJob` | lab9/tsh.c:208-222 | starting a job is one step of the machine |
| `Tsh.JobTable.DoBgFg` | lab9/tsh.c:309-375 | fg and bg are one step of the machine |
| `Tsh.JobTable.ClearFlag` | lab9/tsh.c:382 | waitfg's first statement is one step |
| `Tsh.JobTable.TestFlag` | lab9/tsh.c:385-388 | waitfg returns exactly if the flag is set |
| `Tsh.JobTable.SigchldHandler` | lab9/tsh.c:402-439 | the handler is one step of the machine |

## Left out

- Addresses in the allocator are offsets from the start of the heap and NULL is 0; the prologue keeps offset 0 from being a block.
- Malloc.Allocator.Malloc: the shortcuts for single traces (lab7/mm.c:239-264, 277-323, 337-354) are not modelled: sizes 4095 and 8190 always take them, sizes 16, 64, 112 and 448 when the first block has 24 or 72 bytes, size 4092 when the heap has to grow. Sizes stay below 0x3fff0000, so that the computations do not wrap.
- Malloc.Allocator.Free: the two tests of marker bytes in client data (lab7/mm.c:430-441), which serve those shortcuts; FreeUnlessMarked has them, and Realloc and the judge free blocks without them.
- Malloc.Allocator.Realloc: sizes for which mm_malloc may take a shortcut are only modelled where the block can be resized in place; with a null pointer and size 0 the source dereferences NULL; when shrinking, the free neighbour is unlinked before the new tags are written, which touches other bytes than the tags.
- find_first_fit and find_last_fit (lab7/mm.c:363-381), which only the shortcuts call.
- Driver.Judge.EvalValid: requests that may take a shortcut of mm_malloc are not in the traces; ids are non-negative and sizes positive, as the trace reader of lab7/mdriver.c leaves them; the messages of malloc_error are not modelled.
- Y64.ComputeCC: the flags are those the code computes (lab4/y64sim.c:280-292), not the architecture's; Y64Laws says when they order right.
- Y64Sim.GetLongVal: the sum of an address within 8 of the largest long and 8 overflows in the source and is mathematical here.
- Y64Asm.Assembler.ParseMove: `.align 0`, a division by zero in the source, is an error here.
- Y64Asm.Assembler.ParseLine: the tables after a line in error are not described; nothing uses them.
- Y64Asm.Assembler.Binfile: lines must lie inside the file, as the source needs for its copies; Y64Image.ForwardInFile has this from addresses that never go back.
- Y64Image.AssembleFile: file names, the 512-byte line buffer, messages and the listing of print_line.
- Y64Meaning.ImageRuns: says nothing about steps at addresses where no source line has an instruction.
- Fcyc.Sampler.Fcyc: samples are real numbers, the cycle counter and the cache flush are a parameter, and the final free is not modelled.
- Sio.SioLtoa: the smallest long, whose negation overflows in the source, is excluded.
- Rio.Descriptor: the kernel's side of read and write; a write of at least one byte never returns 0.
- Proxy.DoIt: sockets, threads, name lookup and the log line; counts are unbounded integers; Transfer-Encoding and the other rules of section 6.3 of RFC 9112 before Content-Length are not in the code; buf[-1], which the source reads for a request line of fewer than two characters, is taken to hold no line end; a last header line of exactly the 14 characters Content-Length at the end of the stream leaves the length alone.
- Parseline.ParseLine: the line has no NUL, is shorter than the buffer and has fewer than 128 arguments, as the source needs.
- Jobs.StepKeeps: pids are fresh, the table is not full, and every child that waitpid reports is in the table; job numbers may repeat once they have wrapped and nothing is claimed about them.
- Tsh.JobTable.DoBgFg: signal masks, fork, exec and kill; lookup and change of state are one step.
- lab5/y64.c (an earlier draft of the assembler), lab8, timers, graders, scripts and traces.
