# Verified model of the neetan core algorithms

This project models the parts of the emulator in which a non-trivial algorithm has to agree
with a simple statement about it, or has to keep an invariant over whole runs, and proves
those statements with Dafny 4.11. `dafny verify dfyconfig.toml` checks everything.

**BLAKE3** (`TreeShape`, `Blake3Compress`, `Blake3Tree`, `Blake3Hasher`). The specification is
the recursive, left-full tree over 1024-byte chunks of section 2.1 of the BLAKE3 paper,
`Blake3Tree.Blake3`. The incremental hasher keeps a block buffer, a chunk state and a lazily merged
stack of chaining values, all updated in place. Its invariant ties the stack to the row of
subtrees that are pending in the tree, so each `finalize` is the root output of the tree over
all bytes absorbed, however they were split. All tree properties hold for any compression
function; the real one is only what the public constructors install.

**80386/80486 protection** (`I386Memory`, `I386Cpu`, `I386Stack`, `I386Protection`, `I386Gates`,
`I386TaskImage`, `I386Tasks`, `I386TaskReturn`, `I386Far`). Class `Cpu` holds the fields that segment
loads, far transfers, call gates, returns and task switches update step by step. Linear translation is a
fixed map of pages; raising a fault is the result `Fault`, and the claims are about the state at
that instant. The methods that the code writes out for words and for doublewords are one method with a
size. Each step of a task switch is tied to a function of the state before it that also gives its fault, so
the lemmas of `I386TaskReturn` speak of every switch, successful or not, without a `Cpu` object.
`I386GateExamples` and `I386TaskExamples` hold concrete machines, with `I386Identity` for the reads behind them.

**Trace sink** (`TraceWindow`, `TraceSink`). Sink and handle share one state, so they are one
class. What a matcher answers for an event is a parameter, which covers every matcher that does
not call back into the handle. `TraceWindow.Specified` says what a ring capture has to retain, with no
state machine in it.

**Time** (`Calendar`, `GuestClock`). The year and month loops in both directions, the
closed-form weekday, and the guest clock. Where the 16-bit year overflows, the model wraps, as a
release build does; a build with overflow checks stops there.

**Scheduler, run loop, worker pool** (`Sorting`, `Scheduler`, `RunDriver`, `WorkerPool`). The machine
behind a run, and what a poll of a worker's channel finds, are arbitrary functions given as parameters, so
the results hold for every machine and every interleaving. `Sorting.Sort` stands for the library's stable
sort by a key without ties.

**Codecs** (`Adpcm`, `ShiftJis`, `EditorText`). The ADPCM-A step, decoder and lookahead encoder, the Shift-JIS
pair arithmetic with its scanning loop, and the line editor's reading and writing of a file. Shift-JIS bytes are a
bounded type, so each intermediate result is proved to fit eight bits. `Wrappers` holds the optional values and the
saturating 64-bit counts that several modules use.

## Where the code does not do what it promises

The promise is a comment or a test of the repository. For each there is the exact condition under which it
holds, or the exact state that results, and a concrete machine or input that breaks it.

- A call through a gate to an inner level is documented as validated as a whole before it changes anything
  (crates/cpu/src/i386.rs:2559-2564). Once validation has passed, the commit can still fault and leaves the new SS
  loaded. It does so exactly when alignment checking is active at the caller's level and the new stack is
  misaligned, or when a slot straddles the end of a 16-bit stack, where the probe and the push translate different
  last bytes (`I386Gates.TearsWhen`). `I386GateExamples.MisalignedCall` and `WrappedCall` are two far CALLs through a
  gate in the GDT that fault so.
- A call through a gate within the level is documented to leave CS:EIP unchanged when a push faults
  (crates/cpu/src/i386.rs:2747-2749). Once its checks have passed, a push still faults, with CS and EIP of the gate
  loaded, exactly when its slot straddles the end of a 16-bit stack and the last byte that the push translates cannot
  be written at the level (`I386Gates.CheckedCallTearsWhen`). `I386GateExamples.WrappedReturnCall` is such a far CALL.
- The commit of a far return to an outer level is documented as fault-atomic
  (crates/cpu/src/i386/execute.rs:2475-2477). It is torn exactly when the accessed bit of the new SS cannot be
  written after CS was loaded (`I386Protection.CommitReturnOuter`), as with write protection on a read-only
  descriptor table: `I386GateExamples.TornReturn` is a RETF and `TornInterruptReturn` an IRET that fault so.
- A task switch marks the new task before it clears the old one so that the two are never seen idle together
  (crates/cpu/src/i386.rs:1935-1938). While the state saved and the back link keep away from the rights byte of the
  new task, the current task stays marked busy except exactly across an IRET whose back link leads to the current task
  itself (`I386TaskReturn.BusyIsKept`); `I386TaskExamples.SelfReturn` executes such an IRET, and it succeeds. A save
  area or a back link over that byte can lose the mark as well.
- `TraceHandle::start` is documented to clear all buffered state. Nothing is buffered afterwards exactly when no
  ring capture was armed before (`TraceSink.Sink.Start`). An armed one survives, as in `TraceSink.StartedWithRing`,
  and still hands out the window of the events before the start (`TraceSink.CaptureSurvivesStart`).
- The parser of a guest start time holds the day against 31, not against its month. A fresh clock shows the
  start time exactly when the day exists (`GuestClock.FreshClockShowsStart`, `ThirtyFirstOfFebruary`).
- A tick run on a machine that makes no progress reports its target as reached
  (`RunDriver.HungTickRun`).
- A test of the line editor expects bytes that it cannot decode to survive, and they do
  (`EditorText.LoneBytesSurvive`). Opening and saving a
  file writes all its bytes back, line ends as CR LF, exactly when no pair has a lead byte above EF; such a pair is
  decoded and then saved as a question mark (`EditorText.SavedAsRead`, `UserPairIsLost`).

## Model

| member | source | states |
|---|---|---|
| TreeShape.PendingLength | crates/blake3/src/lib.rs:389-413 | The row of pending subtrees over `q` finished groups has as many entries as `q` has 1-bits. |
| TreeShape.PendingCovers | crates/blake3/src/lib.rs:389-413 | The pending subtrees are adjacent and cover exactly the finished chunks. |
| TreeShape.PendingDecreases | crates/blake3/src/lib.rs:389-413 | They are complete power-of-two subtrees in strictly decreasing size. |
| TreeShape.BottomIsLargest | crates/blake3/src/lib.rs:436-452 | The bottom entry is the largest power of two of chunks, the left child that the recursive tree splits off. |
| TreeShape.TreePrefix | crates/blake3/src/lib.rs:416-433 | A tree over finished chunks does not change when more input follows. |
| TreeShape.FoldTop | crates/blake3/src/lib.rs:440-451 | Folding a stack from the top is folding the rest onto the parent of the top and the last output. |
| TreeShape.FoldIsTree | crates/blake3/src/lib.rs:436-452 | Folding the stack of pending subtrees onto the last chunk's output gives the recursive tree over all chunks. |
| Blake3Hasher.RootByteAt | crates/blake3/src/lib.rs:153-167 | Byte `j` of output block `k` is that byte of the root compression whose counter is `k`. |
| Blake3Tree.ChunkCvPrefix | crates/blake3/src/lib.rs:204-230 | The chaining value after a chunk's first blocks depends on those blocks only. |
| Blake3Hasher.ChunkState.constructor | crates/blake3/src/lib.rs:181-190 | A fresh chunk state has absorbed nothing. |
| Blake3Hasher.ChunkState.CompressBlock | crates/blake3/src/lib.rs:206-221 | Compressing a full buffer moves it into the chaining value; the bytes absorbed stay the same. |
| Blake3Hasher.ChunkState.Update | crates/blake3/src/lib.rs:204-230 | The chunk state has absorbed the old bytes followed by the input, and still compresses a block only once more input asks for it. |
| Blake3Hasher.ChunkState.NodeOutput | crates/blake3/src/lib.rs:232-242 | The output of the chunk state is the specified leaf output of the bytes absorbed. |
| Blake3Hasher.StackFits | crates/blake3/src/lib.rs:299-305 | Below 2^64 bytes of input the stack holds as many entries as the chunk count has 1-bits, at most 54. |
| Blake3Hasher.StackSurvives | crates/blake3/src/lib.rs:389-413 | A stack outlives every chunk up to number 2^54 exactly when it has one entry per 1-bit of the chunks finished. |
| Blake3Hasher.Hasher.NewInternal | crates/blake3/src/lib.rs:314-322 | A new hasher is valid and has absorbed nothing. |
| Blake3Hasher.Hasher.PushStack | crates/blake3/src/lib.rs:389-392 | The stack grows by exactly the pushed value. |
| Blake3Hasher.Hasher.PopStack | crates/blake3/src/lib.rs:394-397 | The stack loses exactly its top, which is returned. |
| Blake3Hasher.Hasher.AddChunkChainingValue | crates/blake3/src/lib.rs:399-413 | On any stack that outlives the merges it makes exactly as many of them as the chunk count has trailing zeros, without popping an empty stack or passing 54 entries; from the pending subtrees of the earlier chunks and the new chunk's value it makes those of all chunks. |
| Blake3Hasher.Hasher.Update | crates/blake3/src/lib.rs:416-433 | Any input up to 2^64 bytes: the hasher stays valid and has absorbed the old input followed by the new. |
| Blake3Hasher.Hasher.FoldStack | crates/blake3/src/lib.rs:440-450 | The finalizing loop folds the whole stack onto the last output. |
| Blake3Hasher.Hasher.Finalize | crates/blake3/src/lib.rs:436-452 | The output is the root output of the recursive tree over everything absorbed, at any output length; the hasher is unchanged. |
| Blake3Hasher.Hasher.CaptureState | crates/blake3/src/lib.rs:349-362 | The captured value describes the hasher's mode and all it has absorbed. |
| Blake3Hasher.HasherState.CapturedIsAccepted | crates/blake3/src/lib.rs:349-387 | Every captured state passes the checks of `from_state`. |
| Blake3Hasher.HasherState.AcceptedSurvives | crates/blake3/src/lib.rs:365-387 | Of the states that `from_state` accepts with a chunk counter below 2^54, the stack outlives every chunk up to number 2^54 exactly for those with one entry per 1-bit of the counter. |
| Blake3Hasher.Hasher.FromState | crates/blake3/src/lib.rs:365-387 | It succeeds exactly on states that pass its range checks, and a captured state gives a valid hasher with the same mode and input. |
| Blake3Hasher.Hasher.New | crates/blake3/src/lib.rs:325-327 | Empty hasher with the standard initial vector and no flags. |
| Blake3Hasher.Hasher.NewKeyed | crates/blake3/src/lib.rs:330-334 | Empty hasher keyed with the eight little-endian words of the key. |
| Blake3Hasher.Hasher.NewDeriveKey | crates/blake3/src/lib.rs:338-346 | Empty hasher keyed with the 32-byte BLAKE3 hash of the context in context mode. |
| Blake3Hasher.HashPieces | crates/blake3/src/lib.rs:416-452 | Any split of a message into updates gives the BLAKE3 hash of the whole message. |
| Blake3Hasher.ContinueFromCapture | crates/blake3/src/lib.rs:349-387 | A hasher restored from a capture hashes the old input followed by any further update. |
| Blake3Hasher.ShorterOutputIsPrefix | crates/blake3/src/lib.rs:153-167 | A shorter output is a prefix of a longer one (section 2.6 of the BLAKE3 paper). |
| Blake3Hasher.WriteRootOutput | crates/blake3/src/lib.rs:153-167 | The output loop writes the root output bytes for every output length, the last partial block included. |
| I386Memory.Translate | crates/cpu/src/i386/paging.rs:27-59 | A translation keeps the low twelve bits. |
| I386Memory.TranslatesPermitted | crates/cpu/src/i386/paging.rs:27-59 | An access translates exactly when its page is present, open to the level and, for a write, writable for it; the fault code tells presence, write and level. |
| I386Memory.WithinPage | crates/cpu/src/i386.rs:1705-1806 | Inside a page, translating the first byte alone gives the addresses of all bytes. |
| I386Memory.AddressesJoin | crates/cpu/src/i386.rs:1705-1846 | A range translates part by part: the first part that faults decides the outcome. |
| I386Memory.AddressesDistinct | crates/cpu/src/i386.rs:1705-1806 | The translated bytes of one access are distinct, even across a page boundary. |
| I386Memory.WriteImpliesRead | crates/cpu/src/i386.rs:1716-1784 | A span that can be written can be read, at the same addresses. |
| I386Memory.LoadStore | crates/cpu/src/i386.rs:1705-1806 | A stored little-endian value is loaded back from distinct bytes. |
| I386Memory.SpansDisjoint | crates/cpu/src/i386.rs:1705-1806 | Two accesses at different page offsets touch disjoint bytes, whatever the page map. |
| I386Cpu.Cpu.TranslateSpan | crates/cpu/src/i386.rs:1705-1806 | The fast path within a page and the split path across pages both give the byte-by-byte translation, or its first fault. |
| I386Cpu.Cpu.Read | crates/cpu/src/i386.rs:1705-1765 | A read by linear address is the little-endian value of the bytes translated one by one. |
| I386Cpu.Cpu.Write | crates/cpu/src/i386.rs:1731-1806 | A write stores exactly those bytes; a faulting write changes no memory. |
| I386Cpu.CheckAccess | crates/cpu/src/i386.rs:1093-1171 | An access passes exactly when the segment is usable, the offsets lie within the limit, the rights allow it and it is aligned where that is checked; every fault has error code 0. |
| I386Cpu.Cpu.ReadSegment | crates/cpu/src/i386.rs:1174-1250 | A read by segment is the value of the checked and translated span, or its fault. |
| I386Cpu.Cpu.WriteSegment | crates/cpu/src/i386.rs:1253-1469 | A write by segment stores exactly the checked and translated span; on a fault memory is unchanged. |
| I386Cpu.Cpu.Push | crates/cpu/src/i386.rs:1499-1577 | A push writes below the stack pointer and moves SP or ESP; on a fault memory and registers are unchanged. |
| I386Cpu.Cpu.Pop | crates/cpu/src/i386.rs:1524-1648 | A pop reads at the stack pointer and moves it up; on a fault the registers are unchanged. |
| I386Cpu.Cpu.PushSelector | crates/cpu/src/i386.rs:1584-1609 | A selector pushed into a four-byte slot: the 386SX writes four bytes, the others two, and ESP moves by four; on a fault nothing changes. |
| I386Cpu.Cpu.PushSelectorThenPop | crates/cpu/src/i386.rs:1578-1648 | Whatever the model writes, a doubleword pop has the selector in its lower half and restores all registers. |
| I386Cpu.Cpu.PushThenPop | crates/cpu/src/i386.rs:1499-1648 | After a successful push, a pop returns the value and restores all registers, on 16-bit and 32-bit stacks. |
| I386Cpu.Cpu.WriteThenRead | crates/cpu/src/i386.rs:1253-1469 | What was written through a segment is read back. |
| I386Cpu.Cpu.WritableIsReadable | crates/cpu/src/i386.rs:1093-1250 | What may be written through a segment may be read, at the same distinct bytes. |
| I386Cpu.Cpu.SetAccessedBit | crates/cpu/src/i386.rs:1682-1703 | The accessed bit is set in the descriptor in memory; on a fault memory is unchanged. |
| I386Stack.Frame.ProbedIsPushed | crates/cpu/src/i386/interrupt.rs:85-127 | A probed slot can be pushed exactly when its last byte lies on the page that was probed. |
| I386Stack.Frame.SlotsDisjoint | crates/cpu/src/i386.rs:1499-1577 | Different slots of a new stack frame never share a byte of memory, whatever the page map. |
| I386Stack.Frame.NextSlot | crates/cpu/src/i386.rs:1499-1577 | A push moves from one slot of the frame to the next, 16-bit wrap-around included. |
| I386Protection.LoadProtectedSegment | crates/cpu/src/i386.rs:858-940 | A segment load succeeds exactly for descriptors its register may hold at this CPL and RPL, with the fault vector and code of each refusal; on a fault nothing changes; a protected state stays protected. |
| I386Protection.ValidateCsForReturn | crates/cpu/src/i386.rs:955-996 | The verdict on the CS of a return, with its vector and code; nothing changes. |
| I386Protection.ValidateSsForReturn | crates/cpu/src/i386.rs:1001-1029 | The verdict on the SS of an outer return; nothing changes. |
| I386Protection.CheckDataSegmentAtCpl | crates/cpu/src/i386.rs:1036-1078 | What a data segment becomes at the outer level: kept, reloaded or nulled. |
| I386Protection.CommitReturnOuter | crates/cpu/src/i386/execute.rs:2478-2529 | It succeeds exactly when the return is valid and both descriptors can be marked; then all six segments, ESP, EIP and CPL are those of the validated return. A fault changes nothing, except exactly when the accessed bit of the new SS cannot be written: then CS, EIP and CPL are the new ones. |
| I386Protection.OuterReturnProtects | crates/cpu/src/i386/execute.rs:2478-2529 | Whatever such a return loads is fit for the outer level, in all six segment registers. |
| I386Protection.CommitOuter | crates/cpu/src/i386/execute.rs:2504-2528 | The commit after validation: when it succeeds, its whole new state, and what stays loaded when it does not. |
| I386Protection.CommitReturnSame | crates/cpu/src/i386/execute.rs:2534-2562 | A return within the level changes CS, EIP and the stack pointer together or not at all. |
| I386Gates.PushAll | crates/cpu/src/i386.rs:2719-2743 | Pushing onto probed slots fills them in order, and fails exactly at a slot that misses its probe or is misaligned while alignment is checked. |
| I386Gates.SlotsHoldAfterPush | crates/cpu/src/i386.rs:2719-2743 | A push keeps every slot pushed before. |
| I386Gates.ValidateGate | crates/cpu/src/i386.rs:2616-2700 | Reading the stack from the TSS, checking SS, probing every slot and reading the parameters yields the frame to push, or the first fault; no state changes. |
| I386Gates.CallGateInner | crates/cpu/src/i386.rs:2570-2745 | A call to an inner level: on success CS, SS, ESP, EIP and CPL are the gate's and the new stack holds old SS, old ESP, the parameters, old CS and old EIP; a fault leaves CS, SS, ESP, EIP and CPL unchanged exactly when validation or descriptor marking faulted, and else the new SS loaded; the state stays protected. |
| I386Gates.FrameLayout | crates/cpu/src/i386.rs:2718-2743 | Where each value of the frame lies: the parameters keep the caller's order. |
| I386Gates.ReversedAt | crates/cpu/src/i386.rs:2721-2729 | Pushing the parameters last to first puts parameter `i` at its place from the top. |
| I386Gates.TearsWhen | crates/cpu/src/i386.rs:2570-2745 | A validated commit faults exactly when alignment is checked on a misaligned stack, or a slot wraps past a 16-bit stack end onto an unwritable page. |
| I386Gates.AlignedStackNeverTears | crates/cpu/src/i386.rs:2570-2745 | On an aligned new stack a validated call always completes. |
| I386Gates.EnterCode | crates/cpu/src/i386.rs:2422-2436 | CS is loaded at the current level; a call then pushes CS and EIP onto the current stack, and SP moves by both; if a push faults, CS and EIP stay loaded. |
| I386Gates.CallGateSame | crates/cpu/src/i386.rs:2751-2815 | A gate within the level: exactly when it succeeds, its whole new state; no change when a check or the marking faults, and CS and EIP of the gate when only a push does. |
| I386Gates.CheckedCallTearsWhen | crates/cpu/src/i386.rs:2747-2815 | Once the checks of such a call have passed, a push still faults exactly when one of the two slots wraps past a 16-bit stack end onto a byte the level cannot write. |
| I386GateExamples.MisalignedStackTears | crates/cpu/src/i386.rs:2450-2745 | With ESP0 = 4002h and alignment checking armed, a far CALL of a gate in the GDT passes validation and tears. |
| I386GateExamples.WrappedSlotTears | crates/cpu/src/i386.rs:2450-2745 | With ESP0 = 2 on a 16-bit stack whose limit lies above FFFFh, a far CALL of that gate passes validation and tears at the end of the stack. |
| I386GateExamples.MisalignedCall | crates/cpu/src/i386.rs:2387-2745 | The far CALL on the first of these machines faults with the stack of level 0 in SS. |
| I386GateExamples.WrappedCall | crates/cpu/src/i386.rs:2387-2745 | So does the far CALL on the second. |
| I386GateExamples.WrappedReturnTears | crates/cpu/src/i386.rs:2747-2815 | With SP = 2 at level 3, a far CALL of a gate within the level passes its checks and tears at the first push. |
| I386GateExamples.WrappedReturnCall | crates/cpu/src/i386.rs:2387-2815 | That far CALL faults with EIP of the gate. |
| I386GateExamples.ValidReturnTears | crates/cpu/src/i386/execute.rs:2478-2529 | On a machine with a stack that holds a return frame, the return to level 3 is valid, and the new SS cannot be marked. |
| I386GateExamples.FarReturnTears | crates/cpu/src/i386/execute.rs:2255-2529 | A far return on it reads its frame from the stack and is torn. |
| I386GateExamples.InterruptReturnTears | crates/cpu/src/i386/execute.rs:3169-3385 | An IRET on it reads its frame from the stack and is torn. |
| I386GateExamples.TornReturn | crates/cpu/src/i386/execute.rs:2255-2529 | The far return faults with CS and the level loaded and SS not. |
| I386GateExamples.TornInterruptReturn | crates/cpu/src/i386/execute.rs:3156-3385 | The IRET faults with CS, the level and the popped flags loaded and SS not. |
| I386TaskImage.StoreFieldsHold | crates/cpu/src/i386.rs:1964-2075 | Consecutive TSS fields hold the values written, and no other memory changes. |
| I386TaskImage.WriteFields | crates/cpu/src/i386.rs:1964-2075 | The writing order, its first fault, and the memory it leaves. |
| I386TaskImage.ReadFields | crates/cpu/src/i386.rs:2106-2144 | The fields in order, or the first fault. |
| I386TaskImage.FieldsAtHold | crates/cpu/src/i386.rs:2106-2144 | What reading the fields yields is what each of them holds. |
| I386TaskImage.SaveImage | crates/cpu/src/i386.rs:1962-2075 | The old task's TSS holds EIP, EFLAGS, eight registers and its selectors, or the first fault; nothing outside it changes. |
| I386TaskImage.SaveSucceeds | crates/cpu/src/i386.rs:1896-2075 | A save area translated beforehand can be saved into, field by field. |
| I386TaskImage.LoadImage | crates/cpu/src/i386.rs:2082-2144 | CR3, the general fields, the selectors and the LDT selector of the new TSS, or the first fault. |
| I386TaskImage.ImageAtIsLoaded | crates/cpu/src/i386.rs:2082-2144 | The image loaded is what the TSS holds. |
| I386TaskImage.ImageUnique | crates/cpu/src/i386.rs:1962-2144 | A TSS holds only one image: what was saved is what is loaded. |
| I386TaskImage.ImageUnchanged | crates/cpu/src/i386.rs:1962-2144 | Writes elsewhere leave a saved image alone. |
| I386Tasks.ValidateTask | crates/cpu/src/i386.rs:1856-1890 | The verdict on the new task with vector and code; nothing changes. |
| I386Tasks.TaskAt | crates/cpu/src/i386.rs:1856-1890 | An accepted task is a present TSS in the GDT with the limit its type needs, busy exactly for an IRET, with the descriptor that memory holds. |
| I386Tasks.PreTranslateRange | crates/cpu/src/i386.rs:1827-1846 | A range of any length that does not end in its own first page around the address space: the first fault of its bytes, page by page. |
| I386Tasks.PreTranslate | crates/cpu/src/i386.rs:1896-1926 | Every translation before the commit in its order, or the first fault. |
| I386Tasks.LeaveSucceeds | crates/cpu/src/i386.rs:1896-2080 | Once these translations have succeeded, leaving the old task cannot fault. |
| I386Tasks.LeaveTask | crates/cpu/src/i386.rs:1940-2080 | Memory after the busy bits were moved, the old task saved and the new one linked, or the first fault; only those bytes change. |
| I386Tasks.LoadTaskData | crates/cpu/src/i386.rs:2282-2341 | A data or stack selector of a new task: its verdict, its vector and code, and the segment and marked memory; on a fault nothing changes. |
| I386Tasks.LoadTaskCode | crates/cpu/src/i386.rs:2343-2385 | The code selector of a new task sets CS, EIP and CPL together or not at all. |
| I386Tasks.LoadSegments | crates/cpu/src/i386.rs:2268-2276 | The six loads in their order: it succeeds exactly when all do, with the segments and memory they give, or faults with the first that fails. |
| I386Tasks.SegmentsFit | crates/cpu/src/i386.rs:2268-2276 | Six loaded segments are protected at the level of the new CS. |
| I386Tasks.EnterTask | crates/cpu/src/i386.rs:2082-2280 | Entering a task: the exact state or fault; TR names the new task exactly from the moment its TSS could be read, and its T bit arms the debug trap only when it is entered. |
| I386Tasks.SwitchTask | crates/cpu/src/i386.rs:1809-2280 | The exact outcome of a switch and, on success, the whole new state. A refused selector or a failed translation changes nothing; after that leaving never faults, and TR is the new task exactly when its TSS can be read. |
| I386TaskReturn.LeftSaves | crates/cpu/src/i386.rs:1962-2080 | The task left is in its TSS, unless the back link overwrote it, and on a CALL the back link names it. |
| I386TaskReturn.LeftChanges | crates/cpu/src/i386.rs:1940-2080 | Leaving writes nothing but the two rights bytes, the save area and the back link. |
| I386TaskReturn.AccessedKeepsBusy | crates/cpu/src/i386.rs:1682-1703 | Marking a descriptor accessed never moves a busy bit, for any selector and any descriptor. |
| I386TaskReturn.SwitchKeepsBusy | crates/cpu/src/i386.rs:1940-2280 | After any switch the current task is busy exactly when the switch did not clear the bit it had set or checked; the condition is on the state before. |
| I386TaskReturn.SwitchIdlesOld | crates/cpu/src/i386.rs:1952-1960 | A JMP or IRET leaves the old task available, a CALL leaves it busy. |
| I386TaskReturn.BusyIsKept | crates/cpu/src/i386.rs:1940-1960 | While the saved bytes and the back link keep away from the new task's rights byte, that the current task is busy survives every JMP, CALL and IRET, except exactly an IRET to the current task itself. |
| I386TaskReturn.SelfTransferRefused | crates/cpu/src/i386.rs:1875-1881 | A JMP or CALL to the current task is refused while it is busy. |
| I386TaskReturn.EnteredFits | crates/cpu/src/i386.rs:2082-2280 | A task as entered: its TSS held the image, its registers name the image's selectors, only accessed bits changed, and outside virtual-8086 mode the segments are protected. |
| I386TaskReturn.SwitchProtects | crates/cpu/src/i386.rs:1809-2280 | Every completed switch ends protected at the level of the new CS, or in virtual-8086 mode. |
| I386TaskReturn.IretTask | crates/cpu/src/i386/execute.rs:3157-3167 | The nested return: its exact outcome from the back link on; an unreadable link, a refused task or a failed translation changes nothing. |
| I386TaskReturn.RestoredIsSaved | crates/cpu/src/i386.rs:1962-2144 | An image loaded from an untouched saved TSS is the saved one. |
| I386TaskReturn.FlagsRestored | crates/cpu/src/i386.rs:1965-1973 | The saved flags image gives back the flags and no VM bit. |
| I386TaskReturn.ReturnStaysPossible | crates/cpu/src/i386.rs:1809-2280 | When a callee in separate memory is done, its back link, the caller's image and the caller's descriptor are as the CALL left them. |
| I386TaskReturn.CallReturns | crates/cpu/src/i386.rs:1809-2280 | A CALL and the IRET back over separate memory restore EIP, all the EFLAGS that the processor model can load, all eight registers, six selectors and the level, whatever the callee did to registers, LDT and other memory; the caller is busy again and the callee available. |
| I386TaskReturn.CachesReturn | crates/cpu/src/i386.rs:1809-2385 | If the caller's segments are as the GDT has them, and neither the callee nor the switches touch their descriptors, the six registers come back with base, limit and rights. |
| I386TaskReturn.CallAndReturn | crates/cpu/src/i386.rs:1809-2280 | Both switches succeed exactly as their verdicts on the state before them say; if they do, the same is true of the processor. |
| I386TaskExamples.CallAndReturnSucceed | crates/cpu/src/i386.rs:1809-2280 | A machine on which a CALL and its IRET both succeed over separate memory, so the caller is restored, its six segments with their caches. |
| I386TaskExamples.CallThenReturn | crates/cpu/src/i386.rs:1809-2557 | A far CALL of a task and the IRET of that task, as whole instructions, both switch and restore the caller. |
| I386TaskExamples.IretToSelfIdles | crates/cpu/src/i386/execute.rs:3157-3167 | A machine with NT set whose current task is busy, returns to itself successfully, and is then not busy. |
| I386TaskExamples.SelfReturn | crates/cpu/src/i386/execute.rs:3156-3167 | The IRET instruction on it switches, and the current task is not busy. |
| I386Far.ThroughCallGate | crates/cpu/src/i386.rs:2450-2533 | A gate is refused with its first failing check and nothing changed; otherwise it succeeds exactly when the call within or to the inner level does, and leads to its own target, to an inner level exactly for a nonconforming target of lower DPL and then only by a CALL; exactly when it tears, one segment register and EIP are loaded, and which. |
| I386Far.ToCodeSegment | crates/cpu/src/i386.rs:2405-2437 | A direct transfer stays at its level; its refusals in order with nothing changed, its exact success and new state; when only the push of a CALL's return address faults, CS and EIP are the target's already. |
| I386Far.FarTransfer | crates/cpu/src/i386.rs:2387-2557 | A far JMP or CALL: the exact refusals with nothing changed, the exact condition of success for code, gates and tasks, the whole state after a task switch, the exact torn state, and a protected state; CPL becomes more privileged only by a CALL through a gate or a task switch. |
| I386Far.ReturnFar | crates/cpu/src/i386/execute.rs:2255-2473 | A far return succeeds exactly when its operands can be read, are valid and can be marked; a fault changes nothing exactly when it does not tear, and a torn one leaves CS and CPL of the outer level with the old SS; EIP, CS, ESP and SS come from the stack, never inward, and the state stays protected. |
| I386Far.InterruptReturn | crates/cpu/src/i386/execute.rs:3169-3385 | An IRET without NT: its exact success and new state to the same level, an outer level or virtual-8086 mode; a fault changes nothing, except that a valid outer return that cannot be marked has loaded its flags, and CS and CPL where only SS could not be marked. |
| I386Far.InterruptOrTaskReturn | crates/cpu/src/i386/execute.rs:3156-3385 | IRET in protected mode: with NT it is the task return of the back link, with its exact outcome and state, and without NT the return from the stack; a level above 0 keeps IOPL there, and the state stays protected. |
| I386Far.FlagsGuarded | crates/cpu/src/i386/flags.rs:138-151 | Loaded flags keep IOPL above level 0, and IF above IOPL. |
| I386Far.Run | crates/cpu/src/i386.rs:858-2815 | Over any run of successful loads, transfers, far returns and IRETs, with NT or without, and with anything other instructions do to memory, registers, tables and flags in between, the state stays protected; without inner gate calls and task switches CPL never becomes more privileged, and above level 0 such a run neither changes IOPL nor enters virtual-8086 mode. |
| TraceWindow.StepKeepsSpecified | crates/common/src/tracing.rs:292-376 | Retaining one event at a time yields the window specified for the whole stream. |
| TraceWindow.SpecifiedShape | crates/common/src/tracing.rs:292-376 | The window's bounds; it is triggered exactly when some event triggers, and complete exactly when the tail is full. |
| TraceWindow.CompleteIsFinal | crates/common/src/tracing.rs:293-297 | Once complete, a capture is final. |
| TraceSink.RingTakesWhatFits | crates/common/src/tracing.rs:303-349 | An event enters the ring exactly when it respects the event limit, the byte limit and the sequence counter. |
| TraceSink.RingCountsExactly | crates/common/src/tracing.rs:340-361 | The saturating sums are exact exactly when the byte capacity is below the largest machine word. |
| TraceSink.QueueTakes | crates/common/src/tracing.rs:214-277 | An accepted event keeps all queue limits, the exact byte sum and the strict order of sequence numbers. |
| TraceSink.RoomKeepsRing | crates/common/src/tracing.rs:326-339 | Evicting the oldest event frees exactly its bytes. |
| TraceSink.PlacedKeepsRing | crates/common/src/tracing.rs:350-375 | Placing an event keeps the ring's limits, exact byte sum, order and completion rule. |
| TraceSink.PlacedIsStep | crates/common/src/tracing.rs:292-376 | Eviction and placement act on the window as one specified step. |
| TraceSink.Sink.LatchFailure | crates/common/src/tracing.rs:208-212 | The first failure stays latched. |
| TraceSink.Sink.Record | crates/common/src/tracing.rs:214-277 | An event is queued with the next sequence number, or the failure of the first limit it breaks is latched and nothing else changes. |
| TraceSink.Sink.EvictOldest | crates/common/src/tracing.rs:328-338 | At most the one oldest event leaves a full window. |
| TraceSink.Sink.RingRecord | crates/common/src/tracing.rs:292-376 | The whole new ring, counter and failure for every event; invariants kept. |
| TraceSink.Sink.RingCapture | crates/common/src/tracing.rs:430-457 | Every event offered to an armed ring joins the observed stream; the ring remains the specified window of it. |
| TraceSink.Sink.Trace | crates/common/src/tracing.rs:507-520 | While a failure is latched no event changes queue, ring or sequence and a yield is requested; otherwise the exact effect on queue, ring stream, yield and presentation stop. |
| TraceSink.Sink.Start | crates/common/src/tracing.rs:553-568 | The queue, failure and filters are cleared, sequence numbers continue and the ring is as before; nothing is buffered exactly when none was armed. |
| TraceSink.Sink.Stop | crates/common/src/tracing.rs:587-596 | The ring and filters go; buffered events stay. |
| TraceSink.Sink.ArmRingCapture | crates/common/src/tracing.rs:604-636 | An empty ring with the given bounds; the sequence counter goes on. |
| TraceSink.Sink.RingStatus | crates/common/src/tracing.rs:639-646 | Complete, and armed, exactly as the observed stream says. |
| TraceSink.Sink.TakeRingCapture | crates/common/src/tracing.rs:649-668 | Without a failure since arming, the result is exactly the specified window of all events seen, with a consistent trigger index; the byte limit and the order hold in any case. |
| TraceSink.Sink.Drain | crates/common/src/tracing.rs:727-731 | The queue leaves in order, and everything ever drained is strictly ordered by sequence number. |
| TraceSink.Sink.TakeFailure | crates/common/src/tracing.rs:744-746 | The latched failure is handed out once. |
| TraceSink.Sink.Resume | crates/common/src/tracing.rs:749-756 | A yield is cleared exactly when no failure is latched. |
| TraceSink.CaptureStream | crates/common/src/tracing.rs:604-668 | Armed in any reachable state, fed any events and taken, a capture is the last `before` captured events ahead of the first trigger, the trigger, and the first `after` captured events behind it. |
| TraceSink.CaptureSurvivesStart | crates/common/src/tracing.rs:553-668 | A ring capture that was fed any events and then crossed a start still hands out their window, unless a failure was latched before. |
| TraceSink.StartedWithRing | crates/common/src/tracing.rs:553-568 | A sink in which something is buffered right after a start. |
| Calendar.FromUnixSeconds | crates/common/src/lib.rs:181-212 | The loops end in a calendar date; the month loop stays within the twelve months. |
| Calendar.ToUnixSeconds | crates/common/src/lib.rs:216-230 | The loops count the days year by year and month by month, for any field values. |
| Calendar.SecondsRoundTrip | crates/common/src/lib.rs:181-230 | Seconds to a date and back is the identity exactly up to the end of the year 65535. |
| Calendar.DateRoundTrip | crates/common/src/lib.rs:181-230 | A valid date from 1970 on is recovered from its seconds, with its weekday. |
| Calendar.OrderAgrees | crates/common/src/lib.rs:181-230 | Seconds order valid dates exactly as the calendar does. |
| Calendar.FromUnixValid | crates/common/src/lib.rs:181-212 | Every second count gives a date that exists. |
| Calendar.ToUnixFits | crates/common/src/lib.rs:216-230 | Valid dates stay below the end of the year 65535. |
| Calendar.YearsInClosedForm | crates/common/src/lib.rs:165-193 | The year loop counts 365 days a year and the leap days. |
| Calendar.MonthsInClosedForm | crates/common/src/lib.rs:170-177 | The month loop counts the month table, with the leap day from March on. |
| Calendar.WeekdayAgrees | crates/automation/src/config.rs:123-136 | Sakamoto's weekday is the weekday of the day count, for every date from 1970 on. |
| GuestClock.Clock.Now | crates/automation/src/guest_clock.rs:44-47 | The clock shows the start plus the whole elapsed seconds, always a calendar date. |
| GuestClock.FreshClockShowsStart | crates/automation/src/guest_clock.rs:23-47 | A fresh clock shows its start, weekday included, exactly when the day exists in its month. |
| GuestClock.ThirtyFirstOfFebruary | crates/automation/src/config.rs:81-98 | Started on 31 February of a common year it shows 3 March. |
| GuestClock.ClampingKeepsOrder | crates/automation/src/guest_clock.rs:31-34 | Clamping the elapsed time to 64 bits keeps its order, and changes nothing that fits. |
| GuestClock.ClockMovesForward | crates/automation/src/guest_clock.rs:31-47 | In range the clock never runs backwards and moves exactly when a whole second passes. |
| GuestClock.YearWraps | crates/common/src/lib.rs:184-193 | One second past the range the clock runs backwards. |
| GuestClock.SecondsFit | crates/common/src/lib.rs:216-230 | The seconds of any field values fit 64 bits. |
| Sorting.Sort | crates/common/src/scheduler.rs:73 | A sorted permutation, for a key without ties. |
| Sorting.OrderedIsUnique | crates/common/src/scheduler.rs:73 | An ordered row is determined by its elements. |
| Scheduler.SchedulerState.PopDue | crates/common/src/scheduler.rs:55-75 | Exactly the due slots leave, each once, by deadline and slot; no other slot changes. |
| Scheduler.SchedulerState.NextEventCycle | crates/common/src/scheduler.rs:50-52 | The earliest pending deadline, or none. |
| Scheduler.PopsCompose | crates/common/src/scheduler.rs:55-75 | Popping at one cycle and again at a later one is the single pop at the later cycle, events and remaining slots alike. |
| Scheduler.NextAfterPop | crates/common/src/scheduler.rs:50-75 | After a pop the next deadline lies past the popped cycle, and there is none exactly when all were due. |
| Scheduler.ReplayIsExact | crates/common/src/scheduler.rs:55-75 | Replaying a pop from a captured state gives the same events. |
| WorkerPool.HandleMessage | crates/automation/src/orchestration.rs:347-383 | The counters of a script are those of the messages received so far. |
| WorkerPool.Receive | crates/automation/src/orchestration.rs:176-188 | A poll receives in order, up to its limit, and sees a disconnect only after the last message. |
| WorkerPool.FinishScript | crates/automation/src/orchestration.rs:385-446 | A script that announced its end is counted by what it reported, plus one case of its own if it reported none or ended abnormally; otherwise it is an error. |
| WorkerPool.SumSwapRemove | crates/automation/src/orchestration.rs:191-203 | `swap_remove` takes exactly the removed script out of every total. |
| WorkerPool.FinishPlaced | crates/automation/src/orchestration.rs:190-206 | A finished script moves from active to done; every script stays in exactly one place. |
| WorkerPool.Pool.StartScripts | crates/automation/src/orchestration.rs:165-170 | The pool is filled to the number of jobs or the queue is empty; no script is lost. |
| WorkerPool.Pool.PollScript | crates/automation/src/orchestration.rs:175-206 | One poll keeps all pool invariants; only a broken worker is an error; a poll that finds something makes progress. |
| WorkerPool.Pool.PollAll | crates/automation/src/orchestration.rs:172-209 | One pass over the active scripts, swapped ones included, keeps all invariants. |
| WorkerPool.FailingReportsListFailures | crates/automation/src/orchestration.rs:221 | The failing reports in id order are exactly those of the failing scripts. |
| WorkerPool.Orchestrate | crates/automation/src/orchestration.rs:134-253 | A report covers each script exactly once: exit code 0 exactly when all pass, failures in id order, totals over all scripts; errors exactly for a bad configuration or a broken worker; polls that find something end the run. |
| RunDriver.Driver.DriveTicks | crates/common/src/automation.rs:389-409 | Terminates; chunks stay within the drain interval; the target counts as reached exactly at or past it or on a stall; overshoot is at most one operation. |
| RunDriver.Driver.DriveFrames | crates/common/src/automation.rs:412-441 | Terminates; the stop reason is exact; a machine that honours the armed stop never passes the target frame. |
| RunDriver.Driver.DriveAutomation | crates/common/src/automation.rs:333-386 | Audio is drained for exactly the ticks run, no stop stays armed, the stop reason and overshoot are exact, and frame targets are met to the frame. |
| RunDriver.HungTickRun | crates/common/src/automation.rs:389-409 | On a machine that consumes nothing, a tick run reports its target as reached after 0 ticks. |
| Adpcm.AdpcmStep | utils/rhythm/evolve_rhythm.py:151-164 | One step gives the specified next state and sample; accumulator, step index and sample stay in range. |
| Adpcm.Pcm | utils/rhythm/evolve_rhythm.py:160-164 | Samples lie in -15360..15352. |
| Adpcm.DecodeAdpcmA | utils/rhythm/evolve_rhythm.py:168-174 | The decoding loop plays the specified samples of the lower half of every byte. |
| Adpcm.UpperHalfIgnored | utils/rhythm/evolve_rhythm.py:151-164 | The upper half of a byte has no effect on a step. |
| Adpcm.DecodedAt | utils/rhythm/evolve_rhythm.py:168-174 | Sample `i` is what the decoder state after the first `i` nibbles hears. |
| Adpcm.NearestNibble | utils/rhythm/evolve_rhythm.py:193-205 | The inner loop finds the first nearest nibble and the state after it. |
| Adpcm.LookAhead | utils/rhythm/evolve_rhythm.py:190-205 | The lookahead loop adds the cost of following the nearest nibbles, as 64-bit arithmetic keeps the sum, for any number of samples. |
| Adpcm.BestNibble | utils/rhythm/evolve_rhythm.py:183-212 | For every window of at most 2^47 samples the chosen nibble has the least lookahead cost of all sixteen, the first on a tie, and the carried state is the one after it. |
| Adpcm.EncodeAdpcmA | utils/rhythm/evolve_rhythm.py:178-213 | For any row, with at most 2^47 samples in it or in the lookahead, every nibble emitted is best for the decoder's state after the nibbles emitted before. |
| Adpcm.DecodedIsScored | utils/rhythm/evolve_rhythm.py:168-213 | Decoding plays exactly the samples the encoder scored, so no nibble would have cost less. |
| Adpcm.HeardDistinct | utils/rhythm/evolve_rhythm.py:151-164 | From one state no two nibbles sound the same, for every step size. |
| Adpcm.DecodedEncodesBack | utils/rhythm/evolve_rhythm.py:168-213 | Encoding what the decoder plays yields exactly the original nibbles, for every lookahead. |
| Adpcm.EncodingIsUnique | utils/rhythm/evolve_rhythm.py:178-213 | A row of samples has only one encoding. |
| Adpcm.BytesToNibbles | utils/rhythm/evolve_rhythm.py:217-223 | High nibble first, for every byte. |
| Adpcm.NibblesToBytes | utils/rhythm/evolve_rhythm.py:227-232 | The lower halves of two values to a byte, for any values; an odd last one is dropped. |
| Adpcm.PackUnpacked | utils/rhythm/evolve_rhythm.py:217-232 | Bytes survive unpacking and packing. |
| Adpcm.UnpackPacked | utils/rhythm/evolve_rhythm.py:217-232 | Nibbles survive packing and unpacking exactly when their number is even; else the last is lost. |
| ShiftJis.PairToJis | crates/common/src/jis.rs:175-196 | A pair is accepted exactly for a lead and a trail byte, and gives a double-byte code. |
| ShiftJis.PairOfJis | crates/common/src/jis.rs:175-290 | A double-byte character is recovered from the pair it encodes to. |
| ShiftJis.JisOfPair | crates/common/src/jis.rs:175-290 | A pair is the encoding of its character exactly for lead bytes up to EF. |
| ShiftJis.ScanOfEncoded | crates/common/src/jis.rs:210-290 | Encoding a text and scanning it gives the text back exactly when all its characters are ASCII, half-width katakana or in the standard rows. |
| ShiftJis.EncodedOfScan | crates/common/src/jis.rs:210-290 | Bytes that scan are the encoding of what they scan to exactly when those characters can be carried. |
| ShiftJis.WriteTo | crates/common/src/jis.rs:254-259 | The character's bytes are appended. |
| ShiftJis.ToCodePoints | crates/common/src/jis.rs:210-231 | The scanning loop decodes exactly the scanned characters; a lone lead byte, an unmapped pair or a stray byte gives none. |
| ShiftJis.DecodedOfEncoded | crates/common/src/jis.rs:210-290 | Decoding an encoded text yields the code points of its characters. |
| ShiftJis.DecodableIsEncoded | crates/common/src/jis.rs:210-231 | With a table confined to the standard rows and cells, every byte string that decodes is the encoding of what it scans to. |
| EditorText.FromBytes | crates/dos/src/commands/editor/text_buffer.rs:124-162 | The reading loop finds the specified lines of characters and raw bytes, for every file. |
| EditorText.WriteUnit | crates/dos/src/commands/editor/text_buffer.rs:58-69 | A character is written as its code or a question mark, a raw byte as it is. |
| EditorText.Encode | crates/dos/src/commands/editor/text_buffer.rs:178-189 | The writing loops write the lines unit by unit with CR LF between them. |
| EditorText.TextLine | crates/dos/src/commands/editor/text_buffer.rs:58-69 | A line without raw bytes is written as its text is encoded. |
| EditorText.SavedAsRead | crates/dos/src/commands/editor/text_buffer.rs:124-189 | Opening and saving a file writes every byte back, with CR LF for each line end, exactly when none of its pairs lies beyond lead byte EF. |
| EditorText.OpenAndSave | crates/dos/src/commands/editor/text_buffer.rs:124-189 | The reading and writing loops together give back a file exactly in the cases of these two laws. |
| EditorText.NormalizedUnchanged | crates/dos/src/commands/editor/text_buffer.rs:178-189 | That changes nothing exactly when every line end is CR LF. |
| EditorText.UserPairIsLost | crates/dos/src/commands/editor/text_buffer.rs:124-189 | The pair F0 40 is saved as a question mark. |
| EditorText.LoneBytesSurvive | crates/dos/src/commands/editor/text_buffer.rs:468-472 | A lead byte without a trail byte is saved as it was read. |

## Left out

- I386Memory.Translate: the page walk, the TLB and the accessed and dirty bits of page tables are not modelled; the page map is fixed, and memory is a flat byte store behind the bus.
- I386Tasks.SwitchTask: CR3 is read from the TSS, but the page map stays. When a switch faults in the new task's context, only TR and the debug trap are claimed, not which of its segments are loaded by then.
- I386TaskReturn.CallReturns: stated for a 386 caller TSS and for TSS and descriptor memory that the callee and the two switches do not overwrite.
- I386Tasks.EnterTask: the latch that preserves the resume flag is left out.
- I386Far.Run: a run ends at its first fault and when it enters virtual-8086 mode; interrupt and fault delivery, and execution in real and virtual-8086 mode are not part of this model.
- I386Tasks.PreTranslateRange: a range that ends in its own first page after going around the whole address space is not covered; no caller asks for more than 64 bytes.
- Clock counts, prefetch, instruction decoding, the FPU and the packing of the flag bits: a flags word is one value here.
- The i286 code, which repeats the i386 logic.
- The strength of the BLAKE3 compression function; only its use in the tree matters.
- Blake3Hasher.Hasher.Update: stated up to 2^64 bytes of input, where the chunk counter and the stack end.
- TraceSink.Sink.Trace: matchers that call back into the handle while they decide are not modelled, nor the borrow panics they could cause.
- TraceSink.Sink.TakeRingCapture: after a failure was latched since arming, only the limits and the order are claimed.
- TraceSink.Sink.RingRecord: the ring is a value that the methods replace in its field, as nothing else refers to it.
- The text splitting and number parsing of a guest start time, configuration files and the system clock.
- WorkerPool.Orchestrate: threads, discovery of the scripts, the wording of the report and write errors are left out; a worker is the row of messages it sends, of which `Finished` is the last, as the protocol demands.
- WorkerPool.HandleMessage: an active script is a value in the pool's list, which the methods replace.
- RunDriver.Driver.RunFor: the driver is assumed to report the advance of its own tick counter, which does not wrap.
- Adpcm.EncodeAdpcmA: where more than 2^47 samples are looked at for one nibble, 64-bit totals may wrap, and only the number of nibbles is claimed. The nested loops are three methods here.
- The Unicode tables behind the JIS codes; the table is a parameter.
- EditorText.FromBytes: the cursor, typing, and a lead byte pending while typing are left out.
- The evolutionary and gradient search, transforms and plotting of the Python file.
