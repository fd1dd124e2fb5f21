# Verified models of Inferno's core algorithms

This project models, in Dafny, the parts of the Inferno system whose correctness
is hardest to see by reading them, and proves what they are for. `dafny verify
dfyconfig.toml` checks all of it.

## What is modelled

**The RISC-V just-in-time compiler** (`libinterp/comp-riscv64.c`).
`Rv64` is the instruction set: registers as 64-bit values, byte memory, one step
of execution, and the 32-bit encodings with their decoder. `CodeRun` runs words
fetched from memory. `LoadConst` is `li`. `Relax` and `Layout` are branch
relaxation: a module is a list of items (fixed words, local skips, branch
sites), and the sites are laid out at their longest, then at the form picked
from that layout. `Dis` is the interpreter for the word subset of Dis and what
the compiler emits for it; `Sim` and `Program` prove that running the words is
running the program. `Jit` is the generator itself, a class whose methods emit
words, count, relax and patch in three passes; `Compiler` puts the two together.
`Shift` adds the word shifts, one of which does not always do what the
interpreter does. `CaseJump` is the machine code of the case macro,
`CaseTable` the relocation of case tables during the passes, and `CaseRun` a
whole case instruction of a compiled module; `Mixed` runs programs that mix all
three. `Pool` is the hash-indexed address
pool and `ConAddr` the two instructions that load a constant from it.

**The image compressor** (`libdraw/writeimage.c`). `LzCode` has the decoder, byte
by byte, and a reference encoder that tries every position of the window;
`LzWindow` the 1024-entry ring of hash chains; `WriteImage` the encoder with its
buffers, its restart at a line boundary when the buffer is full, and the reader's
checks; `Twiddle` the complement taken on compressed data.

**Queueing and reader/writer locks** (`lib9/lock.c`). `RWLock` is a transition
system of any number of threads, with the spin locks taken and released in
separate steps; `QLock` is the linked queue in place.

**The code-block allocator** (`libinterp/comp-amd64.c`): `TypeAlloc`.

**9P messages** (`lib9/convS2M.c`, `lib9/convM2S.c`): `Fcall`. The 27 message types
are lists of fields; encoder, exact size, and the decoder that moves strings down
inside its buffer.

**Buffered I/O** (`libbio`): `Bio`. **Path cleaning** (`lib9/cleanname.c`):
`CleanName`. **Quoting and tokenizing** (`lib9/fmtquote.c`, `lib9/tokenize.c`):
`Quote`.

Code that changes things step by step is a method over fields and arrays, proved
equal to a function on values; the laws are lemmas about those functions. Machine
words are integers with the wrap-around written out. `Basics` holds what the
modules share.

Some predicates are guarded by a quantifier over a key, a predicate that always
holds (`Key`, `BraKey`, `TableKey`, ...): they mean what stands behind the guard,
and asserting that key of 0 opens them where a proof needs to look inside.

## What does not hold of the code

- `lsrw` with a negative immediate middle operand. The compiler loads an immediate
  sign-extended to 64 bits whatever load the instruction asks for, so the sign is
  shifted into the low word; the interpreter shifts 32 bits. `Shift.ShiftAgrees`
  says exactly when the two agree, and `Shift.StraysAtOne` is an instance.
- A compile abandoned in pass 0 or later leaves the counts of the case tables it
  reached negated; the data is as loaded exactly when it reached no case
  instruction, and a later compile still relocates every table once.
  `CaseTable.SizeOnly`, `CaseTable.AbandonedKeepsMarks`, `CaseTable.AllPasses`.

Rows without bytes never get as far as the image writer's loop: unloadimage, which
is not part of this model, divides by the bytes in a row (`libdraw/unloadimage.c:43`).

## Model

| member | source | states |
|---|---|---|
| Rv64.DecodeEncode | libinterp/comp-riscv64.c:168-225 | for the instructions used here, every word the encoding macros produce decodes, by the RISC-V field layout, to the instruction and operands that were encoded |
| Rv64.RegisterWord | libinterp/comp-riscv64.c:168-225 | a register-register word is the instruction set's own for the operation, with the three registers in their places |
| Rv64.ImmediateWords | libinterp/comp-riscv64.c:168-225 | with zero operands the other instructions are the instruction set's own words: nop is 0x13, and so on |
| Rv64.BTypeFields | libinterp/comp-riscv64.c:337-343 | btype scatters an even 13-bit offset so that the decoder's branch immediate is that offset |
| Rv64.JTypeFields | libinterp/comp-riscv64.c:345-351 | jtype scatters an even 21-bit offset so that the decoder's jump immediate is that offset |
| CodeRun.RunStraight | libinterp/comp-riscv64.c:324-329 | instructions emitted one after the other run one after the other: fetched from where they were put, in as many steps as there are words |
| CodeRun.FetchOfFetches | libinterp/comp-riscv64.c:324-329 | from a module mapped at a word-aligned base, the fetch of every emitted word gives back its instruction |
| LoadConst.HighBound | libinterp/comp-riscv64.c:486-502 | val - lo is 4096 times the high part modulo 2^64 (also where it wraps near 2^63), and the high part is smaller by 2^12, so li's recursion ends |
| LoadConst.LiWellFormed | libinterp/comp-riscv64.c:481-510 | for every 64-bit value li emits between 1 and 8 instructions, all encodable, every shift amount below 64; 2 for a 32-bit value, 1 for a 12-bit one or a 32-bit multiple of 4096 |
| LoadConst.LiCorrect | libinterp/comp-riscv64.c:481-510 | for every 64-bit value, executing what li emits leaves that value in rd and changes no other register and no memory |
| Jit.Jit.Li | libinterp/comp-riscv64.c:481-510 | the recursive generator with its halving loop emits exactly that sequence |
| Relax.PickReaches | libinterp/comp-riscv64.c:628-646 | a form picked by brform for a distance reaches any target no further away, from where the jump of the site is |
| Relax.PicksShortest | libinterp/comp-riscv64.c:628-646 | no shorter form would reach a target at that distance and the 16 bytes kept for where the jump is |
| Relax.Shrink | libinterp/comp-riscv64.c:648-669 | under any forms at all, the distance between two points is at most what pass 0 measured, and order is kept |
| Relax.SiteTables | libinterp/comp-riscv64.c:653-669 | entry k of the position and form tables belongs to the k-th site, for every site |
| Relax.RelaxationReaches | libinterp/comp-riscv64.c:628-699 | for every module, every site reaches its target in the final layout with the form picked from pass 0's layout |
| Relax.SplitRelValue | libinterp/comp-riscv64.c:513-518 | auipc of the high part and the signed low part of splitrel add up to the offset |
| Relax.SiteRuns | libinterp/comp-riscv64.c:671-699 | the words relbr emits for a site, run, end at the target when the condition holds (with the link set for a call) and just past the site otherwise |
| Layout.PickLegal | libinterp/comp-riscv64.c:628-646 | brform never picks a form that relbr does not emit for that kind |
| Layout.ShapedAt | libinterp/comp-riscv64.c:2479-2550 | each item's words are in the code at the position the layout gave it, and take exactly the room it gave them |
| Layout.FinalLaid | libinterp/comp-riscv64.c:2590-2653 | the final code of every module, mapped at any base, holds every plain instruction, local branch and relaxed site where the layout says |
| Layout.SiteJumps | libinterp/comp-riscv64.c:648-699 | in the final code, run from its first word, every site of every module goes to its target when taken and to the next item otherwise |
| Layout.SkipJumps | libinterp/comp-riscv64.c:353-385 | a local forward branch, patched when its end is reached, lands just past the items it skips |
| Jit.Jit.RelBr | libinterp/comp-riscv64.c:648-699 | in each pass a site is sized, chosen or emitted, and recorded once; the two phase errors cannot occur |
| Jit.Jit.Patchb | libinterp/comp-riscv64.c:373-385 | the word patched is the branch that was left open, aimed here; its registers are read back from the word |
| Jit.Jit.SchedCheck | libinterp/comp-riscv64.c:985-1013 | nothing for a forward branch; otherwise count IC down in place, skip while it lasts, save R.FP and call the reschedule macro |
| Jit.Jit.Comp | libinterp/comp-riscv64.c:1319-1700 | for movw, addw, subw, mulw, andw, orw, xorw, the six word branches and jmp, exactly the items of the specification are emitted, in every pass |
| Jit.Jit.SizeInst | libinterp/comp-riscv64.c:2500-2514 | a sizing pass notes where the instruction starts, and gives up exactly when it overflows the scratch buffer or the module is too large |
| Jit.Jit.EmitInst | libinterp/comp-riscv64.c:2484-2500 | in the emit pass every instruction starts exactly where pass 1 recorded it: the phase error cannot occur |
| Jit.Jit.EmitMacro | libinterp/comp-riscv64.c:2524-2540 | the same for every macro |
| Jit.Jit.Compass | libinterp/comp-riscv64.c:2479-2550 | one pass over instructions, trap and macros; only pass 0 can give up |
| Jit.Jit.Compile | libinterp/comp-riscv64.c:2591-2653 | the three passes succeed exactly for the accepted programs; the site count and the emitted size agree; the words are the final code of the image, and patch and macro are its tables |
| Sim.ExecLoad | libinterp/comp-riscv64.c:772-813 | a load at base register plus any 64-bit offset reads the word at that address modulo 2^64 |
| Sim.ExecStore | libinterp/comp-riscv64.c:772-813 | a store likewise, and clobbers only RCON |
| Sim.ExecSource | libinterp/comp-riscv64.c:855-895 | in every source mode the register gets the word the interpreter reads |
| Sim.ExecDest | libinterp/comp-riscv64.c:855-900 | in every destination mode the result is stored where the interpreter stores it |
| Sim.ExecMiddle | libinterp/comp-riscv64.c:942-964 | in every middle mode, the missing one included, the register gets the interpreter's middle word |
| Sim.ExecOp | libinterp/comp-riscv64.c:1525-1555 | addw, subw, mulw and the logical operations leave the low 32 bits of the interpreter's 64-bit result, sign-extended |
| Sim.ExecArith | libinterp/comp-riscv64.c:1525-1555 | the whole of an arithmetic instruction writes the interpreter's result to the interpreter's place |
| Sim.CmpTaken | libinterp/comp-riscv64.c:719-747 | the funct3 and operand order chosen for a condition make the branch taken exactly when the condition holds |
| Sim.StoreKeepsIC | libinterp/comp-riscv64.c:985-1013 | a store outside the VM's own registers leaves the quantum counter alone |
| Program.ImageOfOk | libinterp/comp-riscv64.c:2479-2550 | the image of every program the loader accepts is well formed: its sites name only instructions and macros that exist |
| Program.SimStep | libinterp/comp-riscv64.c:1407-1700 | one interpreter step of the subset is matched by a positive number of machine steps from patch[i] to patch of the next or target instruction, with the same frame and module memory |
| Program.SchedExpires | libinterp/comp-riscv64.c:985-1013 | when the quantum runs out R.FP is saved and the reschedule macro is called, linked to the branch's own comparison |
| Program.BranchResumes | libinterp/comp-riscv64.c:1001-1013 | resumed at that link, the branch does its own work and is not counted again |
| Program.JumpResumes | libinterp/comp-riscv64.c:1694-1699 | a jump resumed at its link goes to its target and is not counted again |
| Program.CompilerCorrect | libinterp/comp-riscv64.c:8-15 | for every program and every number of interpreter steps that stay in the subset, the final code, decoded and run from patch, ends at patch of the interpreter's pc with the same frame and module memory |
| Compiler.AcceptedSmall | libinterp/comp-riscv64.c:2508-2519 | every module within the compiler's limits is small enough for auipc to reach across it |
| Compiler.AcceptedWhen | libinterp/comp-riscv64.c:2508-2519 | accepted are exactly the programs of at most 16M words in which every instruction takes fewer than 8192 words, or fewer than 64 for each instruction there is |
| Compiler.RefusedWhen | libinterp/comp-riscv64.c:2580-2582 | an instruction of at least 8192 words and 64 for each instruction there is has the program refused |
| Compiler.SubsetAccepted | libinterp/comp-riscv64.c:2508-2519 | every program of at most 524288 word instructions is accepted |
| Compiler.NearOperand | libinterp/comp-riscv64.c:772-813 | an operand within 2048 bytes of its base, or a 12-bit immediate, takes one word, and two words through a pointer |
| Compiler.CompileRuns | libinterp/comp-riscv64.c:2552-2660 | end to end: the words and the patch table Compile leaves, mapped anywhere below 2^63, run every accepted program as the interpreter does |
| Shift.HalfOfWord | libinterp/comp-riscv64.c:783-813 | the 32-bit loads of the middle operand read the low half of its word, zero- or sign-extended |
| Shift.ShiftAgrees | libinterp/comp-riscv64.c:942-964 | what the code computes for shlw, shrw and lsrw is the interpreter's value if and only if it is not lsrw of a negative immediate by an amount that is not a multiple of 64 |
| Shift.StraysAtOne | libinterp/comp-riscv64.c:1570-1576 | lsrw of the immediate -1 by 1: the code gives -1, the interpreter 0x7fffffff |
| Shift.ShiftRuns | libinterp/comp-riscv64.c:1556-1576 | a compiled shift, run from patch[i], ends at the next instruction with only its destination changed, to the interpreter's value exactly under that condition |
| CaseJump.GenCase | libinterp/comp-riscv64.c:2088-2129 | the generator, with its forward branches patched and its jumps back, emits the case macro |
| CaseJump.SearchEnds | libinterp/comp-riscv64.c:2096-2120 | from any ranges left the binary search ends, at a range that holds the value or, only if none left does, at the default |
| CaseJump.CaseDispatch | libinterp/comp-riscv64.c:2088-2129 | run as machine code over any table of sorted disjoint ranges, the macro jumps to the pc of the only range that holds the value, or to the default exactly when none does; memory and other registers are untouched |
| CaseTable.Comcase | libinterp/comp-riscv64.c:1155-1173 | one case instruction in one pass: marked in pass 0 if it was not, relocated and unmarked in the emit pass if it was marked |
| CaseTable.AllPasses | libinterp/comp-riscv64.c:1155-1173 | however many instructions share a table, and also after an abandoned compile, the passes relocate every pc of every table exactly once and leave the rest of the data as loaded |
| CaseTable.SizeOnly | libinterp/comp-riscv64.c:2508-2519 | a compile that gives up before emitting, in pass 0 after k case instructions or later, leaves exactly the tables it reached marked, their counts l as -l - 1, and nothing relocated |
| CaseTable.AbandonedKeepsMarks | libinterp/comp-riscv64.c:1160-1165 | that data is as loaded exactly when no case instruction was reached, and the next compile may start from it |
| CaseRun.MacroInPlace | libinterp/comp-riscv64.c:2524-2546 | every macro's words are in the final code where the macro table says |
| CaseRun.ReachMacro | libinterp/comp-riscv64.c:1149-1154 | a case instruction loads its value and the table's address and reaches the case macro through a relaxed jump |
| CaseRun.CaseRuns | libinterp/comp-riscv64.c:1144-1174 | a compiled case instruction, run from patch[i] with its table relocated in the module's data, ends at patch of the pc loaded for the only range that holds the value, or for the default exactly when none does |
| Mixed.SimMixed | libinterp/comp-riscv64.c:1144-1174 | one step of a word instruction, of a shift that does not stray or of a case over ascending ranges is matched by the final code |
| Mixed.MixedCorrect | libinterp/comp-riscv64.c:8-15 | for every program and every run that mixes them, the final code run from patch of the first pc ends at patch of the last, with the same frame and module memory and every case at the pc loaded for its value |
| Pool.ProbeCovers | libinterp/comp-riscv64.c:562 | probing from anywhere visits every cell |
| Pool.NotAllBusy | libinterp/comp-riscv64.c:562-564 | with more cells than entries, probing meets the value or an empty cell before it has been everywhere |
| Pool.NotStored | libinterp/comp-riscv64.c:562-566 | an empty cell met while probing means that the value is not in the pool |
| Pool.AddressPool.constructor | libinterp/comp-riscv64.c:2620-2625 | twice as many cells as constants and one more, all empty, make an empty pool |
| Pool.AddressPool.Slot | libinterp/comp-riscv64.c:555-570 | the slot returned holds the value; values stay distinct; no slot handed out changes; overflow exactly for a new value in a full pool |
| Pool.AddressPool.SlotAll | libinterp/comp-riscv64.c:555-595 | as many calls as were counted in pass 0 never overflow, and at the end every slot handed out holds the value asked for |
| Pool.AddAllBound | libinterp/comp-riscv64.c:565-569 | adding n constants takes at most n slots, keeps them distinct and moves none |
| ConAddr.ConPosRuns | libinterp/comp-riscv64.c:520-537 | the pair conpos emits leaves the address of the word asked for |
| ConAddr.AcceptedCode | libinterp/comp-riscv64.c:2508-2519 | the limits of compass and the size of the macros bound the final code of every accepted module |
| ConAddr.PlaceNear | libinterp/comp-riscv64.c:2610-2640 | with one slot for each place that was counted in pass 0, every slot of the pool is within reach of every such place in the final code of an accepted module |
| ConAddr.ConstantLoads | libinterp/comp-riscv64.c:572-595 | in every accepted module, the pair emitted for the i-th constant counted loads exactly that constant from the finished pool, whatever was added to the pool after it |
| LzCode.CopyMatch | libdraw/writeimage.c:96-117 | copying from a match reproduces the data, also when the match overlaps what it produces |
| LzCode.CopyHeadSmall | libdraw/writeimage.c:139-143 | with an offset below 1024 and a run of 3 to 34 the control byte stays below 128, so it is never taken for a dump |
| LzCode.CopyHeadSplits | libdraw/writeimage.c:139-143 | and it decodes to that run and offset |
| LzCode.LineDecodes | libdraw/writeimage.c:86-170 | decoding a line's code after the block so far gives the block up to the end of the line |
| LzCode.LineSize | libdraw/writeimage.c:86-170 | a line's code is at most twice its length |
| LzCode.LineBound | libdraw/writeimage.c:86-170 | a line never takes more than its length and a byte for every 128 of it, begun or whole |
| LzCode.TakesRepeat | libdraw/writeimage.c:90-143 | where three bytes or more come again within the last 1024 of the block, what goes out next is the pending dump and, in the two bytes of the format, a repeat at least as long, up to 34 |
| LzCode.TakesByte | libdraw/writeimage.c:118-130 | where no three bytes do, the byte joins the dump, which goes out only when it has 128 |
| LzWindow.HashForgets | libdraw/writeimage.c:83-84 | three updates determine the hash whatever it was before |
| LzWindow.HashSpreads | libdraw/writeimage.c:8 | different bytes after the same ones hash differently |
| LzWindow.OldestIsTail | libdraw/writeimage.c:145-147 | the slot about to be recycled holds the oldest position and is the tail of its chain |
| LzWindow.PutOk | libdraw/writeimage.c:145-156 | linking a position in front of its chain keeps every chain ordered from newest to oldest and complete |
| LzWindow.ChainIsEnough | libdraw/writeimage.c:96-117 | searching one hash chain finds as long a match, and as recent, as trying every position of the window, for any match of three bytes or more |
| LzWindow.Chains.Insert | libdraw/writeimage.c:145-158 | relinking in place keeps that invariant, of the last 1024 positions of the block |
| LzWindow.Chains.Find | libdraw/writeimage.c:90-117 | the search in place finds what the reference encoder finds, a match within the window |
| LzWindow.Chains.Extend | libdraw/writeimage.c:97-109 | comparing backwards first, then on, gives the length of the match if it beats the best so far |
| WriteImage.FirstFits | libdraw/computil.c:27-37 | the first line of a block always fits its buffer, so a block is never empty |
| WriteImage.FitDecodes | libdraw/writeimage.c:86-178 | a block's code fits the buffer and decodes, with a fresh window, to exactly its lines |
| WriteImage.UnpackCompress | libdraw/writeimage.c:77-179 | the reader gets back the data from any line on, and all its checks pass on the way |
| WriteImage.BlocksFull | libdraw/computil.c:27-37 | every block of an image takes at most 6000 bytes, or twice the bytes of a row if that is more, decodes to its rows, and would go past that with one row more |
| WriteImage.ReadsBack | libdraw/creadimage.c:71-95 | every image with bytes in its rows, and every image without rows, reads back as it was written, by a reader that takes blocks of 6000 bytes, or of two rows if that is more |
| WriteImage.Encoder.Repeat | libdraw/writeimage.c:131-143 | the pending dump and the two bytes of a repeat go out if there is room for both |
| WriteImage.Encoder.Line | libdraw/writeimage.c:87-166 | the line's code is appended exactly when it fits in what is left of the buffer |
| WriteImage.Encoder.Fill | libdraw/writeimage.c:78-174 | a block is as many whole lines as fit, a line that does not fit leaves no trace, and at least one line fits |
| WriteImage.WriteBlocks | libdraw/writeimage.c:77-179 | the loop over blocks writes exactly the specified blocks; it always advances |
| Twiddle.TwiddleTwice | libdraw/computil.c:9-25 | twiddling twice is the identity |
| Twiddle.TwiddleCommutes | libdraw/computil.c:9-25 | decoding the twiddled stream after complemented bytes gives the complement of decoding the stream, or fails with it |
| Twiddle.DecodableFits | libdraw/computil.c:16-24 | every stream that decodes has its dumps inside it, as the loop needs |
| Twiddle.TwiddleCompressed | libdraw/computil.c:9-25 | the loop over the buffer does it in place |
| RWLock.KeepsStep | lib9/lock.c:40-141 | every step of every thread keeps the invariant of the locks, their queues, their owners and the wakeups |
| RWLock.RunsKeep | lib9/lock.c:40-141 | so does every run |
| RWLock.Exclusion | lib9/lock.c:95-141 | for any number of threads and any interleaving, a writer past wlock never coexists with a reader past rlock or canrlock or with another writer |
| RWLock.KLocked | lib9/lock.c:95-141 | where l is free, k is locked exactly when there are readers or a writer owns it; at most one thread waits for k, and it has x |
| RWLock.FirstReaderLocks | lib9/lock.c:99-102 | when readers goes from 0 to 1, canqlock of k finds it free and unlocked and locks it for the readers |
| RWLock.HandOff | lib9/lock.c:76-93 | locks are passed on in order of arrival, and passing one on never unlocks it while somebody waits |
| RWLock.HandOffsServe | lib9/lock.c:76-93 | a step passes a lock on at most once, to who is first in its queue, and leaves it locked for him |
| RWLock.BoundedWaiting | lib9/lock.c:40-93 | over any run and any continuation, a thread at place i of a queue gets the lock by exactly the i-th hand-off after that, and waits one place nearer after each one before |
| RWLock.SomebodyMoves | lib9/lock.c:40-141 | no deadlock and no lost wakeup: as long as a thread is inside a call or holds the lock, some such thread can move |
| RWLock.CanrlockSucceeds | lib9/lock.c:107-118 | in any reachable state, with the spin locks free and x not locked, a thread in canrlock, left alone, ends up reading: counted, k locked, everything else as it was |
| RWLock.CanrlockRefused | lib9/lock.c:62-74 | canrlock is refused exactly where the spin lock of x is held or x is locked |
| RWLock.RlockSucceeds | lib9/lock.c:95-104 | rlock of a lock with x not locked likewise |
| RWLock.RunlockSucceeds | lib9/lock.c:120-127 | runlock leads back out with one reader less; the last one leaves k unlocked when nobody waits |
| RWLock.WlockSucceeds | lib9/lock.c:129-134 | wlock of a lock that nobody has leads to writing, with both locks taken |
| RWLock.WunlockSucceeds | lib9/lock.c:136-141 | wunlock leads back out, with both locks free when nobody waits |
| QLock.QueueLock.Qlock | lib9/lock.c:40-60 | the linked queue in place acts as the transition system's step, its new proc at the tail |
| QLock.QueueLock.Canqlock | lib9/lock.c:62-74 | refused exactly when the spin lock is held or the lock is locked |
| QLock.QueueLock.Qunlock | lib9/lock.c:76-93 | the head of the queue leaves it and gets the lock, which stays locked; unlocked only when nobody waits |
| TypeAlloc.AllocOk | libinterp/comp-amd64.c:2729-2767 | a block handed out is idle, aligned, inside a slab, apart from all others and at least as large as asked |
| TypeAlloc.ReusesFirst | libinterp/comp-amd64.c:2703-2742 | an idle block that will do is used before the slab: of the size rounded up to 16, or above 4096 any as large, the first on its list, which loses just that one |
| TypeAlloc.CutsFromSlab | libinterp/comp-amd64.c:2743-2767 | otherwise the block is cut from the slab while it has room, whatever the system offers; then from a new slab; and it is refused only without one |
| TypeAlloc.TypecomOk | libinterp/comp-amd64.c:2864-2888 | writing the header and the code of a new block keeps all headers, lists and the code of live blocks |
| TypeAlloc.FreeOk | libinterp/comp-amd64.c:2774-2803 | giving a block back puts it in front of the list for the size in its header, and it is no longer live; without a node it is leaked and nothing else changes |
| TypeAlloc.NodesKept | libinterp/comp-amd64.c:2703-2803 | list nodes are never lost, and a new one is made only when there is no spare |
| TypeAlloc.RunOk | libinterp/comp-amd64.c:2703-2888 | every sequence of compilations and frees keeps the allocator's invariant |
| TypeAlloc.LiveBlocks | libinterp/comp-amd64.c:2703-2888 | after any such sequence live blocks are 16-aligned, inside a slab, large enough, disjoint from every other block, and hold their code |
| TypeAlloc.FreeBlocks | libinterp/comp-amd64.c:2703-2803 | after any such sequence a block is live or on the list of its size, once, and never both; its node and its header give its size |
| TypeAlloc.Allocator.TypefreeTake | libinterp/comp-amd64.c:2703-2722 | the exact-size list or the first fit, searched and unlinked, as specified |
| TypeAlloc.Allocator.TypecomAlloc | libinterp/comp-amd64.c:2729-2767 | from a free list, else the slab, else a new slab, as specified |
| TypeAlloc.Allocator.Compile | libinterp/comp-amd64.c:2864-2888 | header and code are written in place into a block of their own |
| TypeAlloc.Allocator.Freetypejit | libinterp/comp-amd64.c:2774-2803 | the block goes to the front of the list of its header's size |
| Fcall.SizeExact | lib9/convS2M.c:47-190 | sizeS2M is exactly the number of bytes on the wire, for all 27 messages |
| Fcall.WireBytes | lib9/convS2M.c:192-385 | every message is size, type byte, tag and its fields, in the order and the widths of section 5 of the manual, low byte first |
| Fcall.LayoutFields | lib9/convM2S.c:68-310 | the decoder's switch reads, for each type, fields of the kinds the encoder wrote |
| Fcall.MakeFields | lib9/convM2S.c:68-310 | and puts them back where they came from |
| Fcall.RoundTrip | lib9/convM2S.c:49-314 | what convS2M writes for a valid message decodes to the same type, tag, size and fields, nil strings as empty ones, whatever follows in the buffer |
| Fcall.DecodesOnlyWire | lib9/convM2S.c:49-314 | nothing else decodes: a buffer the decoder takes starts with the wire form of the message it yields |
| Fcall.StringIsC | lib9/convM2S.c:5-23 | a string free of NULs is what C sees at the pointer the decoder returns |
| Fcall.ConvS2M | lib9/convS2M.c:192-385 | the encoder writes exactly the wire form and returns its size, or 0 exactly when it does not fit or has more than 16 names or qids |
| Fcall.Gstring | lib9/convM2S.c:5-23 | the string is moved down by one byte and terminated; what is before its count and after its end is untouched |
| Fcall.GetVals | lib9/convM2S.c:68-310 | moving strings down in place never disturbs a field already read or not yet read |
| Fcall.ConvM2S | lib9/convM2S.c:49-314 | the in-place decoder returns the size exactly when the bytes decode, and then its pointers show the message's fields in the buffer it leaves |
| Fcall.SendReceive | lib9/convS2M.c:192-385 | the two conversions through one buffer show the receiver what was sent |
| Bio.Biobuf.Bgetc | libbio/bgetc.c:4-41 | the next byte of the file, or end of file exactly at its end; up to four bytes before it can be put back after a refill |
| Bio.Biobuf.Bungetc | libbio/bgetc.c:43-53 | refused when writing; reading, the position in the buffer goes back by one, and if the byte before is still there it is the next one again |
| Bio.Biobuf.Bread | libbio/bread.c:4-47 | as many bytes as asked for or as the file still has, in order, however short the reads |
| Bio.Biobuf.Brdline | libbio/brdline.c:4-87 | the next line up to its first delimiter, or nothing exactly when there is none in a buffer's worth of what the file still has |
| Bio.ReadMix | libbio/brdline.c:4-87 | any mix of Bgetc, Bread and Brdline delivers the file's bytes in order, none lost and none repeated |
| Bio.Biobuf.Bputc | libbio/bputc.c:4-20 | bytes written plus bytes buffered grow by exactly this byte; the buffer is written only when it is full |
| Bio.Biobuf.Bwrite | libbio/bwrite.c:4-42 | bytes written plus bytes buffered grow by exactly these bytes; only full buffers are written, and only for a byte that has no room |
| Bio.Biobuf.Bflush | libbio/bflush.c:4-33 | everything accepted is written, nothing stays buffered, and the offset is the number of bytes written; reading, the position moves to the end of what was buffered |
| Bio.Biobuf.Boffset | libbio/boffset.c:4-25 | reading, the position of the next byte; writing, the number of bytes accepted |
| CleanName.ShowFolds | lib9/cleanname.c:15-50 | a stack written out as a path folds back to the same stack |
| CleanName.CleanTwice | lib9/cleanname.c:15-50 | a clean name is a fixed point |
| CleanName.FoldStack | lib9/cleanname.c:28-39 | folding elements keeps ".." only in front and never at the root |
| CleanName.DotDotUndoes | lib9/cleanname.c:28-32 | for every non-empty name and every real element x, cleaning the name with /x/.. after it gives what cleaning the name gives |
| CleanName.DotDotAtRoot | lib9/cleanname.c:33-34 | a name that cleans to the root still does with /.. after it |
| CleanName.DotDotAlone | lib9/cleanname.c:33-39 | a name that cleans to "." cleans to ".." with /.. after it |
| CleanName.DotDotStays | lib9/cleanname.c:33-39 | one that cleans to a name ending in ".." gets one more |
| CleanName.DotIsNothing | lib9/cleanname.c:24-27 | a slash or /. after a non-empty name makes no difference |
| CleanName.PlainClean | lib9/cleanname.c:40-50 | a name without ".." cleans to its elements other than "" and ".", in order, with one slash between, or to "." if there are none and no root |
| CleanName.Walk | lib9/cleanname.c:22-46 | the loop leaves the fold of the name's elements, and never writes past what it has read |
| CleanName.Cleanname | lib9/cleanname.c:7-51 | the name left in the buffer is the stack machine's result, no longer than the old one unless that was empty |
| Quote.DecEnc | lib9/rune.c:27-116 | a rune's encoding decodes to it, whatever follows |
| Quote.EncBytes | lib9/rune.c:83-116 | the encoding is UTF-8's, the shortest for the rune |
| Quote.DecOnlyEnc | lib9/rune.c:27-66 | nothing decodes to a rune but the rune's own encoding; all else is the error, one byte on |
| Quote.TokQuoted | lib9/tokenize.c:5-41 | a quoted string is exactly one token, the string itself |
| Quote.TokensOfLine | lib9/tokenize.c:43-58 | tokenizing any list of strings, each quoted and joined by spaces, gives the list back |
| Quote.TokensOfWords | lib9/tokenize.c:43-58 | tokenizing words set apart by any spaces, tabs, newlines and returns gives the words |
| Quote.QuotedOnlyWhen | lib9/fmtquote.c:70-93 | a string is printed as it is exactly when it is not empty and has nothing up to a space, no quote and nothing the program adds; otherwise between quotes, with a byte more for each quote in it |
| Quote.QuoteSetup | lib9/fmtquote.c:30-104 | the longest part of the string that fits in the space given, whether it is quoted and how many bytes that takes; all of it, quoted exactly when it must be, if there is room |
| Quote.PrintQuoted | lib9/fmtquote.c:106-178 | the accepted runes between quotes, each quote twice |
| Quote.Quotestrfmt | lib9/fmtquote.c:180-218 | exactly nbytesout bytes are printed, within the space given, and the whole quoted string if there is room |
| Quote.Qtoken | lib9/tokenize.c:5-41 | the token is unquoted in place; writes stay behind reads |
| Quote.Tokenize | lib9/tokenize.c:43-58 | the first tokens of the text, as many as there are slots, each where its argument points and NUL-terminated |
| Quote.PrintLine | lib9/fmtquote.c:180-218 | each string of a list quoted in full, with spaces between |
| Quote.QuoteTokenize | lib9/tokenize.c:43-58 | any list of strings, each quoted, printed into a buffer and tokenized there in place, comes back: each argument points at its string |

## Left out

- Other Dis instructions: they are lists of words and branch sites, laid out and relaxed like the rest, but only the word subset, the word shifts and case have a meaning.
- Operand modes: AFP, AMP, AIMM sources and AIND; an immediate destination is not modelled.
- The reschedule macro's own work: what it does between its call and its return is other code.
- Rv64.DecodeEncode: the encodings no modelled code emits (byte, halfword, division, floating point, andi).
- Program.CompilerCorrect: the VM's register block and the code are separate from the memory Dis pointers reach, as the compiler assumes; IC is counted once per executed branch that does not go forward.
- CaseRun.CaseRuns: the table is in the module's data, in the lower half of the address space; casel, with 16-byte bounds, is left out.
- Mixed.MixedCorrect: shifts that stray and cases over ranges out of order have their own theorems, Shift.ShiftRuns and CaseRun.CaseRuns.
- Macros other than the case macro: raw words, laid out and found where the table says.
- The literal pool, code mapping, cache flushing, the preamble and the type code of the RISC-V compiler.
- Pool.AddressPool.Slot: addresses are slot numbers; the slots' place after the code is in ConAddr.
- Image headers, unloadimage, file descriptors and allocation failures around writeimage.
- WriteImage.WriteBlocks: the bytes beyond the data that the first hash of a block reads near the end are arbitrary.
- Twiddle.TwiddleCompressed: a last dump that runs past the buffer, where the C flips bytes beyond its end, is outside the model.
- RWLock.RunlockSucceeds: with a writer waiting for k the last reader passes k on instead, which is RWLock.HandOff.
- RWLock.WunlockSucceeds: with somebody waiting for x the writer passes x on instead, which is RWLock.HandOff.
- Spinning and back-off in lock(), and the process behind osblock and osready: a thread that is not enabled stays where it is, and a wakeup is remembered.
- Write protection, cache flushing and the type code generators around the code-block allocator.
- TypeAlloc.Allocator.TypefreeTake: the free lists are sequences of nodes; the pointer to a pointer that unlinks one is a slice.
- TypeAlloc.Allocator.Freetypejit: a node is known by its number only, its relinking is a sequence with one more in front.
- Fcall.ConvM2S: the switch over types is a table of fields read by one loop; stat buffers are opaque bytes.
- Message types with no wire form (Terror) are illegal in both directions.
- Bio.Biobuf.Bungetc: where no earlier byte is left in the buffer the C still goes back; only the counter is stated there.
- Bio.ReadMix: no Bungetc in the mix, and a fixed file; read and write errors, Bseek, Brdstr and gbuf are left out.
- Quote.Quotestrfmt: rune output, padding to a width and precision are left out; what the program may add to the special characters is a parameter.
