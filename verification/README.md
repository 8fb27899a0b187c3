# A model of the isiCPU server

isiCPU emulates DCPU-16 computers: processors, memory, disks and peripherals, joined by links that a
client makes and cuts while the machines run. This project models the parts of it in which several
pieces of state have to agree and proves that they do. Times are nanoseconds; words are 16 bits wide
and every wrap-around is written out.

**The processor.** `DcpuSpec` is DCPU-16 version 1.7 as a one-step machine: every operand is a place,
an opcode reads and writes that place, and a step costs a number of cycles. `Dcpu` is the interpreter
of `dcpu.cpp` as it is written: operands are fetched in two phases, a table says how b is fetched,
another which half of a 32-bit union goes where, and b is resolved a second time for the store.
`Dcpu.Dcpu16.StepOnce` proves that the second computes the first, from every state. On top of that
stand the exactness of the arithmetic (`Alu`, `AluLaws`), the operand modes and cycle counts (`Modes`),
what an instruction changes (`Operands`), what conditionals decide (`Conditionals`), calls, hardware and
interrupt control (`Control`), chains of skipped tests (`Skipping`), interrupts over whole runs
(`Interrupts`, `MessageOrder`), the cycle budget and the scheduler (`Pacing`), and arithmetic on numbers
of many words, first as chained operations (`Multiword`) and then as a program in memory run by the
machine (`WordProgram`).

**Disk and floppy drive.** `Disk` keeps one block of a file in memory and writes it back when it seeks
elsewhere and the block differs from its copy. `FloppySpec` is the M35FD drive as a value: commands, a
head that moves and a disk that turns in a timed loop, and a transfer at the end, with the exact time
at which an operation is complete. `Floppy` is the drive object on a cached disk, proved to compute it.
`FloppyRuns` follows any series of commands, waits, memory stores, resets and removals of the disk: it is
a run of an array of 1440 sectors with at most one operation under way, and what is read is what was
written.

**Interface cards.** `Pdi` is the queue of three words whose counts and flags are packed into one word,
`Hic` the 32-port card built of them, and `Link` two cards joined by a link, with the account of every
word sent under every interleaving of commands and timers on both sides. `LinkProgress` shows that the
words get through.

**Links and messages.** `Attach` is the graph of devices. Each link is stored at both ends; attaching
and detaching keep the two in agreement, exactly when they can; `AttachRuns` follows series of both.
`Routing` sends messages along the links and through the backplane of a computer.

**Codecs and queues.** `TextCodec` is base64url without padding (section 5 of RFC 4648) as disk names
use it, `ParamList` the tagged parameter lists of the client protocol, `Framing` its message frames,
and `CommandRing` the ring of commands of a session.

`Words`, `Wrappers` and `Ram` hold the machine words, an option type and the 64k memory.

## Where the code differs from its promises or from what one would expect

Each of these is stated with its exact condition, most also at an input that shows it; the model follows
the code.

- The queue of interrupts is shifted from the top down (`dcpu.cpp:844`), so that the messages left are
  copies of the newest: `Interrupts.QueueOrder`, `MessageOrder.FirstInFirstOut`, `MessageOrder.MessageLost`.
- SBX adds EX unsigned (`dcpu.cpp:805`), so a borrow reaches the next word but no further:
  `Multiword.SubtractionExact`, `Multiword.BorrowLost`.
- The integer word of a DVI with a fraction and operands of different sign is the floor, not the
  truncated quotient: `AluLaws.DviIntegerWord`, `AluLaws.MinusOneByTwo`.
- RFI takes its operand before it pops A and PC, so RFI POP returns to the wrong place:
  `Interrupts.HandlerReturns`, `Interrupts.PopReturns`.
- Undefined basic opcodes take no word for b when executed but do when skipped: `Operands.PcAdvance`,
  `Operands.UndefinedOpcode`.
- Conditional opcodes fetch b as they fetch a, so that 0x18 as b pops: `Operands.TestsPop`,
  `Operands.TestOfPush`.
- IAG and HWN store through the low five bits of a six-bit field, so that a literal operand names a
  register or another place: `Operands.ShortField`, `Operands.LiteralField`.
- A write to a parameter list without data leaves no terminator, though a list is promised to end with
  a zero byte or at the end of the buffer: `ParamList.FlagWritten`, `ParamList.FlagExposes`. An entry
  that does not fit leaves its beginning behind the list: `ParamList.WriteParameter`.
- An entry that ends with the buffer and is shorter than the room given for it is copied whole and
  reported as missing: `ParamList.FetchParameter`, `ParamList.LastEntryShort`.
- An attachment at an UP point that is taken, or of an appended item at an explicit place, leaves a link
  that only one end knows: `Attach.AttachIn`, `AttachRuns.TakenUpwards`, `AttachRuns.NeverTold`.
- A first chunk of fewer than four bytes makes a client judge a frame it has not received:
  `Framing.FrameIsDelivered`, `Framing.ShortChunk`.

## Model

| member | source | states |
|---|---|---|
| Ram.Memory16.Read | memory.cpp:19-21 | a read at any address returns the word at the address modulo 65536 |
| Ram.Memory16.Write | memory.cpp:22-30 | a store changes exactly one word, with address and value cut to 16 bits |
| Alu.TablesAgree | dcpu.cpp:439-452 | the fetch table and the write-back table describe one partition of the 31 opcodes: an opcode has a write-back entry if and only if b is fetched for reading and writing, and entry 3 is exactly the opcodes that keep EX |
| Alu.Compute | dcpu.cpp:658-821 | the 32-bit union, halved as the write-back table says, holds exactly the value and the EX that the opcode's definition on integers gives, for every read-modify-write opcode and all operands |
| Alu.DivideSigned | dcpu.cpp:681-699 | dividing magnitudes unsigned and restoring the sign is the truncated signed quotient, -32768 included |
| AluLaws.AdditionsExact | dcpu.cpp:801-803 | EX:b is the exact sum; the carry of ADD is at most 1 and that of ADX at most 2 |
| AluLaws.SubExact | dcpu.cpp:665-667 | EX:b is b - a modulo 2^32, and EX is 0xffff exactly on borrow |
| AluLaws.SbxExact | dcpu.cpp:804-806 | EX:b is b - a + EX modulo 2^32 with EX taken unsigned |
| AluLaws.ProductsExact | dcpu.cpp:668-673 | EX:b is the unsigned (MUL) or signed (MLI) product modulo 2^32 |
| AluLaws.DivExact | dcpu.cpp:674-680 | b:EX is the unsigned quotient of b * 65536 by a; division by zero gives 0:0 |
| AluLaws.DviExact | dcpu.cpp:681-699 | b:EX is the quotient of b * 65536 by a truncated toward zero, modulo 2^32 |
| AluLaws.DviIntegerWord | dcpu.cpp:681-699 | the integer word alone is the truncated quotient of b by a if and only if the signs agree or nothing remains; otherwise it is the floor |
| AluLaws.MinusOneByTwo | dcpu.cpp:681-699 | -1 divided by 2 has the integer word -1, where truncation gives 0 |
| AluLaws.RemaindersExact | dcpu.cpp:700-713 | MOD and MDI give the remainders that belong to the unsigned and to the truncated quotient, zero for a zero divisor, and keep EX |
| AluLaws.BitsExact | dcpu.cpp:714-723 | bit k of AND, BOR and XOR depends on bit k of the operands alone, and as the names say, for every k; EX is kept |
| AluLaws.ShrExact | dcpu.cpp:724-727 | b:EX is b * 65536 shifted right by a if and only if a is below 32 or the shift by a modulo 32 already leaves nothing |
| AluLaws.AsrExact | dcpu.cpp:728-731 | the same for the arithmetic shift, with the sign kept |
| AluLaws.ShlExact | dcpu.cpp:732-734 | EX:b is b * 2^a modulo 2^32 if and only if a is below 32 or the bits the shift by a modulo 32 leaves behind are clear |
| DcpuSpec.CostBound | dcpu.cpp:423-437 | no step costs less than one cycle or more than six |
| Dcpu.Dcpu16.Deref | dcpu.cpp:332-370 | fetching an a operand gives the value at its place and moves PC and SP as the one-step semantics does; one cycle for an extra word |
| Dcpu.Dcpu16.DerefB | dcpu.cpp:373-411 | fetching b for modification gives the value at the place where the result will go, with SP moved for a push and PC still at the operand word |
| Dcpu.Dcpu16.RerefB | dcpu.cpp:288-328 | the second resolution of b stores at the place PC and SP denote now and consumes the operand word |
| Dcpu.Dcpu16.Reref | dcpu.cpp:245-285 | the one-phase store of b: the place of the low five bits of the field, with a push for mode 0x18 |
| Dcpu.Dcpu16.SkipRef | dcpu.cpp:414-420 | passing over an operand moves PC and the cycle count exactly by its extra words |
| Dcpu.Dcpu16.ReadModifyWrite | dcpu.cpp:643-834 | fetch a, fetch b, compute, resolve b again and write back is b := f(b, a), EX := g(b, a) at one place; the extra word of b is charged twice |
| Dcpu.Dcpu16.WriteBack | dcpu.cpp:822-834 | after a first fetch of b the write-back stores at the place that was read |
| Dcpu.Dcpu16.Test | dcpu.cpp:736-793 | a conditional opcode takes both operands, sets the skip if and only if its condition fails, and costs one cycle more then |
| Dcpu.Dcpu16.WriteOnly | dcpu.cpp:651-653 | SET, STI and STD store a's value at b's place; STI and STD then move I and J |
| Dcpu.Dcpu16.ExecuteBasic | dcpu.cpp:643-834 | every basic opcode with every pair of operand modes has the state and the cost of the one-step semantics |
| Dcpu.Dcpu16.QueryHardware | dcpu.cpp:570-592 | HWQ loads A, B, C, X and Y from the answer, or zeros when there is none, after whatever the device did |
| Dcpu.Dcpu16.InterruptHardware | dcpu.cpp:593-629 | HWI loads all registers from the answer; a positive answer delays the next step and ends this one without a dispatch |
| Dcpu.Dcpu16.InterruptControl | dcpu.cpp:535-565 | INT queues its message if there is a handler and room, IAS 0 empties the queue, IAQ sets or clears the mask |
| Dcpu.Dcpu16.LeaveHandler | dcpu.cpp:552-557 | RFI takes its operand and then A and PC from the stack, and clears the mask |
| Dcpu.Dcpu16.ExecuteSpecial | dcpu.cpp:515-632 | every special opcode, defined or not, has the state and the cost of the one-step semantics |
| Control.Call | dcpu.cpp:521-525 | JSR goes to its operand and leaves the address behind itself and its operand on the stack |
| Control.Return | dcpu.cpp:643-653 | SET PC, POP goes to the address on top of the stack and takes it off |
| Control.CallReturns | dcpu.cpp:521-525 | a subroutine that leaves SP and the top of the stack as on entry and ends in SET PC, POP resumes its caller behind the JSR, with the caller's SP, wherever the stack lies |
| Control.InterruptRegisters | dcpu.cpp:548-565 | IAS sets the handler, and with zero empties the queue; IAQ masks interrupts if and only if its operand is not zero; nothing else changes |
| Control.SoftwareInterrupt | dcpu.cpp:535-544 | INT queues its operand if and only if there is a handler and fewer than 256 messages wait |
| Control.Reports | dcpu.cpp:545-569 | IAG A and HWN A load A with the handler and with the number of devices |
| Control.HardwareAnswers | dcpu.cpp:570-629 | HWQ loads the first five registers from the answer or with zeros and keeps the others; HWI loads all eight |
| Control.HardwareWait | dcpu.cpp:606-620 | after a HWI with a positive answer the next step executes nothing, costs one cycle unless the machine burns, and only then lets an interrupt in |
| Control.OnFire | dcpu.cpp:229-236 | a message to a full queue is dropped and sets the machine on fire; the next step executes nothing and costs three cycles |
| Control.RegisterMessage | dcpu.cpp:224-228 | word i + 1 of a register message goes to register i, for the words there are and the first seven registers, cut to 16 bits |
| Control.ResetState | dcpu.cpp:114-141 | after a reset every register, flag and memory word is zero and nothing waits; the device count is the answer of the bus or what it was |
| Control.SpecialPc | dcpu.cpp:515-632 | a special instruction moves PC as skipping it does if and only if it is defined or its operand has no word |
| Dcpu.Dcpu16.Skip | dcpu.cpp:634-642 | a skipped instruction moves PC over itself and its operand words and costs one cycle and one per operand word |
| Dcpu.Dcpu16.MsgIn | dcpu.cpp:221-242 | a register message loads up to seven registers; an interrupt message is queued, ignored without a handler, and sets the machine on fire when the queue is full |
| Dcpu.Dcpu16.Reset | dcpu.cpp:114-141 | reset clears registers, memory, queue and mode, whatever they were, and takes the device count from the bus if it answers |
| Dcpu.Dcpu16.ShiftQueue | dcpu.cpp:843-846 | the shift leaves one message less, all of them equal to the newest |
| Dcpu.Dcpu16.EnterHandler | dcpu.cpp:837-847 | a dispatch pushes PC and A, passes the oldest message in A, jumps to IA and masks interrupts |
| Dcpu.Dcpu16.StepOnce | dcpu.cpp:488-873 | one turn of the loop is one step of the one-step machine, in state and in cycles, from every state, including burning ones |
| Operands.OperandsMove | dcpu.cpp:332-411 | resolving both operands moves PC by their extra words and SP by the pops and pushes, and nothing else |
| Operands.ModifyFrame | dcpu.cpp:643-834 | a read-modify-write opcode changes the place b was read from (pushes and [next + register] included), EX, PC, SP, and nothing else; when b is EX the opcode's own EX wins |
| Operands.SetFrame | dcpu.cpp:651-653 | SET changes b's place, PC and SP, and nothing else, storing what a was before b was resolved |
| Operands.PcAdvance | dcpu.cpp:633-835 | unless b is PC, executing moves PC as far as skipping does if and only if the opcode is defined or b has no extra word |
| Operands.UndefinedOpcode | dcpu.cpp:795-800 | opcode 0x18 with a literal next word for b takes one word when executed and two when skipped |
| Operands.TestsPop | dcpu.cpp:648-650 | a conditional opcode resolves b as the writing opcodes do if and only if b is not 0x18, and then reads the place they would write |
| Operands.TestOfPush | dcpu.cpp:648-650 | IFE PUSH, A pops and compares the word on top of the stack |
| Operands.ShortField | dcpu.cpp:245-285 | the five bits through which IAG and HWN store denote the place of the whole operand field if and only if it has no sixth bit and is not POP |
| Operands.LiteralField | dcpu.cpp:545-547 | IAG with the literal 0 stores IA in register B and changes nothing else |
| Modes.OwnWord | dcpu.cpp:414-420 | exactly the eleven modes 0x10 to 0x17, 0x1a, 0x1e and 0x1f take a word of their own |
| Modes.RegisterModes | dcpu.cpp:332-370 | register modes name the registers in order, and indirect and indexed modes are the absolute mode at the register and at the word plus the register modulo 65536 |
| Modes.WordModes | dcpu.cpp:365-368 | the absolute mode is the cell its word names, the immediate mode the word, and the short literals are the immediate modes of -1 to 30 |
| Modes.StackModes | dcpu.cpp:359-361 | peeking, popping and picking are absolute modes at SP and above it, and what is pushed as b is popped as a with SP restored |
| Modes.SpecialModes | dcpu.cpp:362-366 | SP, PC and EX are read and written by their modes; a store to a literal only consumes its word |
| Modes.StoreAndStep | dcpu.cpp:813-818 | STI and STD store what SET stores and then move I and J by one, up and down |
| Modes.Numbers | dcpu.cpp:658-821 | the arithmetic opcodes by number |
| Modes.BasicCycles | dcpu.cpp:423-429 | a defined basic opcode costs 1, 2 or 3 cycles by its group, one per operand word, one more for the word of a modified b and one for a failed test |
| Modes.SpecialCycles | dcpu.cpp:431-437 | a defined special opcode costs 1 to 4 cycles by number and one for an operand word |
| Conditionals.Equality | dcpu.cpp:752-765 | IFE and IFN run the next instruction exactly when the operands are equal, and differ |
| Conditionals.UnsignedOrder | dcpu.cpp:766-786 | IFG and IFL run it exactly when b is greater, and less, than a unsigned, which is when a SUB of the operands in the order a, b and b, a borrows |
| Conditionals.SignedOrder | dcpu.cpp:773-793 | IFA and IFU the same signed, which is the unsigned order after adding 0x8000 to both |
| Conditionals.CommonBits | dcpu.cpp:736-751 | IFB runs it exactly when some bit is set in both operands, and IFC when none is |
| Runs.StepsCompose | dcpu.cpp:486-873 | two runs in a row are one run, in state and in cycles |
| Runs.CyclesBound | dcpu.cpp:848-872 | n steps cost at least n and at most 6n cycles |
| Pacing.CpuInfo.SetRate | main.cpp:166-175 | the clock period divides a second and the budget spans at most one quantum, and one more cycle would not fit, when the period fits a quantum; otherwise the budget is one cycle |
| Pacing.CpuInfo.Spend | dcpu.cpp:486-873 | the loop terminates, at the first step boundary past the budget or past the time; it overruns the budget by at most five cycles and advances the clock by exactly the cycles spent times the period |
| Pacing.CpuInfo.Run | dcpu.cpp:474-875 | the same for a whole call: free running with the rate as budget, exactly one step when single stepping, none when halted, with the clock set one period past the call's time |
| Pacing.CpuInfo.RunQuanta | main.cpp:491-521 | a scheduler slice runs one uninterrupted run of the machine and ends caught up with the time or after exactly max(20, 2 * processors) quanta, in which case it has spent at least so many times the budget |
| Skipping.SkipStep | dcpu.cpp:634-642 | a step under skip changes PC and the skip flag only, and never dispatches an interrupt |
| Skipping.SkipChain | dcpu.cpp:634-642 | k chained conditionals and the instruction after them are passed in k + 1 steps, with the exact cycle count, nothing changed but PC, and no interrupt let in |
| Skipping.TestOutcome | dcpu.cpp:736-793 | a conditional changes PC, SP and the skip flag only, and the skip flag tells exactly whether it failed |
| Skipping.FailedTest | dcpu.cpp:736-793 | a failed conditional and its chain of any length together take k + 2 steps, end behind the skipped instruction, and leave everything but PC and the test's own pops alone |
| Interrupts.Play | dcpu.cpp:454-875 | the interpreter object goes through the states of every run of steps, messages, resets and device stores |
| Interrupts.QueueInvariant | dcpu.cpp:229-240 | in every state of every run at most 256 messages wait, and none without a handler |
| Interrupts.EventKeeps | dcpu.cpp:837-847 | entering a handler masks interrupts; under the mask nothing enters and only RFI, IAQ 0 and reset lift it |
| Interrupts.ReleaseBetweenEntries | dcpu.cpp:837-847 | between two entries into a handler, in any run, there is an RFI, an IAQ 0 or a reset |
| Interrupts.EntryStacks | dcpu.cpp:837-842 | on entry A lies on top of the stack and PC under it, wherever SP wraps |
| Interrupts.HandlerReturns | dcpu.cpp:552-557 | a handler that leaves its two stacked words and SP intact and ends in RFI resumes with the interrupted PC, A and SP, if and only if the RFI's operand is not POP |
| Interrupts.PopReturns | dcpu.cpp:552-557 | after RFI POP the interrupted PC is in A and execution goes where the word under the interrupted stack points |
| Interrupts.HandlersChain | dcpu.cpp:837-847 | when more messages wait the next handler starts at once, over the same stacked PC and A |
| Interrupts.QueueOrder | dcpu.cpp:843-846 | the messages behind the one taken stay in order if and only if they all equal the newest; always so for up to two |
| MessageOrder.ExecutedQueue | dcpu.cpp:534-632 | an instruction appends exactly the messages it raises for which there is a handler and room, and only IAS 0 empties the queue |
| MessageOrder.QueueAfter | dcpu.cpp:837-847 | the queue after every event, and what waits when a handler is entered |
| MessageOrder.StepInOrder | dcpu.cpp:843-846 | an event keeps accepted = given to handlers + waiting, in order, if and only if, should it enter a handler, all messages behind the first carry the same word |
| MessageOrder.FirstInFirstOut | dcpu.cpp:837-847 | messages are handled first in, first out at every point of a run if and only if at every entry into a handler in it all messages behind the first carry the same word |
| MessageOrder.TwoStayInOrder | dcpu.cpp:837-847 | messages are handled first in, first out in every run in which no handler is entered with more than two waiting |
| MessageOrder.MessageLost | dcpu.cpp:843-846 | after a reset, an IAS and any three messages, the first is handled and two copies of the third wait: the second is lost |
| Multiword.AdditionExact | dcpu.cpp:801-803 | one ADD and n - 1 ADX add n-word numbers exactly, for every n, and the last EX is the carry, 0 or 1 |
| Multiword.DifferenceIsExact | dcpu.cpp:665-667 | the schoolbook difference is the difference of the values modulo 65536^n |
| Multiword.SubtractionStep | dcpu.cpp:804-806 | a step that had to borrow hands on the wrong EX: 0 in place of 0xffff, or 1 in place of 0 |
| Multiword.SubtractionGoesWrong | dcpu.cpp:804-806 | the first borrow into a word that has a successor spoils that successor |
| Multiword.SubtractionExact | dcpu.cpp:804-806 | one SUB and n - 1 SBX subtract n-word numbers exactly if and only if no borrow goes into a word between the first and the last |
| Multiword.BorrowLost | dcpu.cpp:804-806 | 2^32 - 1 in three words leaves 1 in the top word instead of 0 |
| WordProgram.AbsoluteStep | dcpu.cpp:643-834 | an instruction on two absolute operands takes three words and changes one memory word, EX and PC |
| WordProgram.ProgramRuns | dcpu.cpp:486-873 | n such instructions in memory, run by the machine, compute the chained operation and change nothing else but PC |
| WordProgram.AdditionProgram | dcpu.cpp:801-803 | the ADD/ADX program adds two n-word numbers in memory, also one number to itself, leaves the carry in EX and every other word alone |
| WordProgram.SubtractionProgram | dcpu.cpp:804-806 | the SUB/SBX program subtracts them if and only if no borrow goes into a middle word |
| Disk.SeekKeepsContents | disk.cpp:253-261 | a seek keeps the disk's contents if and only if the disk is writable, or the block unedited, or not left; the copy stays in step with the file |
| Disk.UnloadKeepsContents | disk.cpp:275-281 | after unloading the file holds the contents if and only if the disk is writable or the block unedited |
| Disk.CacheIsTransparent | disk.cpp:247-281 | through every sequence of seeks and edits in place a writable disk is a plain array of blocks, and after unloading the file alone is that array |
| Disk.IsiDisk.constructor | disk.cpp:327-357 | a disk that has just been opened shows the contents of its file, block 0 in memory |
| Disk.IsiDisk.TestDisk | disk.cpp:155-166 | comparing 32 bits at a time finds a difference if and only if some word differs |
| Disk.IsiDisk.ReadFile | disk.cpp:368-387 | both buffers hold the block read |
| Disk.IsiDisk.WriteFile | disk.cpp:389-404 | exactly the file block of the index is replaced, by the block in memory |
| Disk.IsiDisk.SeekBlock | disk.cpp:253-261 | the seek message writes back a dirty block of a writable disk before reading, does nothing for the block at hand, and loses the edits of a protected disk |
| Disk.IsiDisk.Unload | disk.cpp:275-281 | a dirty block of a writable disk is written back, and nothing otherwise |
| FloppySpec.TimeBound | hardware/floppy_m35.cpp:203-214 | the time an operation still needs is at least one sector and at most its tracks plus one revolution |
| FloppySpec.SeekTakesTime | hardware/floppy_m35.cpp:203-207 | crossing a track takes exactly the track time off what is left, with the disk 73 sectors further |
| FloppySpec.RotationTakesTime | hardware/floppy_m35.cpp:208-214 | a sector further takes exactly one sector time off, until the one wanted has gone by |
| FloppySpec.WorkingTurn | hardware/floppy_m35.cpp:195-234 | one turn during an operation completes it if exactly one sector time was left, and otherwise takes the time passed off what is left |
| FloppySpec.WentKeeps | hardware/floppy_m35.cpp:195-251 | running the drive moves the clock past the time given, keeps target and protection, and without an operation keeps memory, disk and error |
| FloppySpec.WentWorking | hardware/floppy_m35.cpp:195-251 | with its disk in place an operation is completed, with one interrupt, if and only if it is due before the time given; otherwise exactly the time passed is taken off |
| FloppySpec.WentWithout | hardware/floppy_m35.cpp:196-202 | without its disk an operation is given up with the eject error and one interrupt |
| Floppy.M35fd.constructor | hardware/floppy_m35.cpp:84-95 | a new drive is idle and consistent |
| Floppy.M35fd.Reset | hardware/floppy_m35.cpp:84-95 | reset drops the operation under way, clears error, interrupt message and target, and puts the head at track 400, sector 0 |
| Floppy.M35fd.StateChange | hardware/floppy_m35.cpp:97-107 | an interrupt goes out if and only if a message is set |
| Floppy.M35fd.StartSeek | hardware/floppy_m35.cpp:144-149 | the disk is sent to the block of the sector and keeps all its sectors |
| Floppy.M35fd.CopyOut | hardware/floppy_m35.cpp:171-175 | the write buffer is the 512 memory words at the address, around the end of memory |
| Floppy.M35fd.Transfer | hardware/floppy_m35.cpp:137-182 | a read or write is refused for the first reason that applies, leaving the operation under way, its target and its data alone, or accepted with the memory words of now |
| Floppy.M35fd.HWI | hardware/floppy_m35.cpp:109-185 | what each command answers, which errors and interrupts it causes, that no command moves head or disk contents, and that none changes an operation under way or the time it needs |
| Floppy.M35fd.Rotate | hardware/floppy_m35.cpp:208-214 | the sector wanted goes by exactly when one sector time was left |
| Floppy.M35fd.Finish | hardware/floppy_m35.cpp:214-233 | the transfer is the completion of the pending operation on the array of sectors, followed by one interrupt |
| Floppy.M35fd.Idle | hardware/floppy_m35.cpp:235-249 | an idle drive notices a disk put in or taken out, once and with one interrupt, and the disk turns by 1535 sectors |
| Floppy.M35fd.Abort | hardware/floppy_m35.cpp:196-202 | without a disk the operation is given up with the eject error and one interrupt, and no time passes |
| Floppy.M35fd.Turn | hardware/floppy_m35.cpp:196-250 | one pass of the loop is one turn of the drive as a value: transfer, seek, rotation, abort or idling |
| Floppy.M35fd.Run | hardware/floppy_m35.cpp:187-253 | the loop terminates, in exactly the state that its turns give; an operation is completed by this call if and only if its exact due time lies before the call's; it is over once |seektrack - track| * 2400000 + 18 * 32573 ns have passed; otherwise exactly the time passed is taken off; with the disk gone it ends with the eject error and one interrupt |
| Floppy.SectorReplaced | hardware/floppy_m35.cpp:226-230 | replacing a quarter of the cached block replaces one sector of the disk |
| FloppyRuns.Feed | hardware/floppy_m35.cpp:109-253 | a command, wait, memory store, reset, removal or return of the disk does to drive, disk and memory exactly what it does to them as a value, and a command is answered accordingly |
| FloppyRuns.FeedAll | hardware/floppy_m35.cpp:109-253 | after any series of them, drive, disk and memory are exactly what the inputs make one after the other of what they were, and so is every answer |
| FloppyRuns.OneEvent | hardware/floppy_m35.cpp:109-253 | to the array of sectors an input is exactly one event: a command starts an operation if and only if nothing refuses it, a wait completes one if and only if it is due, and gives it up if the disk is gone |
| FloppyRuns.ReadIsAccepted | hardware/floppy_m35.cpp:137-154 | with no operation under way and a disk in the drive a read of a sector below 1440 is answered 1 and pending, whether or not the disk is protected |
| FloppyRuns.WriteIsAccepted | hardware/floppy_m35.cpp:157-180 | a write then is answered 1 and pending with the memory words of now if and only if the disk is not protected, and otherwise refused with error 3 |
| FloppyRuns.Refusals | hardware/floppy_m35.cpp:140-142 | an operation under way, no disk and a sector that does not exist refuse with errors 1, 2 and 5, in this order, and leave what is under way alone |
| FloppyRuns.StatusIsTold | hardware/floppy_m35.cpp:120-133 | command 0 answers the status and the last error, and forgets the error |
| FloppyRuns.ModeIsFound | hardware/floppy_m35.cpp:241-246 | a wait finds a disk that was put in: mode 1, or 2 if it is protected |
| FloppyRuns.ReadAndWait | hardware/floppy_m35.cpp:137-233 | read and wait past the due time brings every word of the sector to memory, also from a protected disk, and changes no sector |
| FloppyRuns.InputsAreRun | hardware/floppy_m35.cpp:109-253 | every series of inputs is a run of the array of sectors, with one event for each input |
| FloppyRuns.OperationKept | hardware/floppy_m35.cpp:137-182 | in every run an accepted operation and the sectors stay as they are until it completes or is given up |
| FloppyRuns.WriteCompletes | hardware/floppy_m35.cpp:226-230 | in every run a completed write changes exactly its sector, to the memory words of when it was accepted |
| FloppyRuns.ReadCompletes | hardware/floppy_m35.cpp:219-225 | in every run a completed read changes exactly the 512 memory words at its address modulo 65536, to the sector |
| FloppyRuns.SectorKept | hardware/floppy_m35.cpp:214-233 | a sector changes only by the completion of a write to it |
| FloppyRuns.ReadReturnsLastWrite | hardware/floppy_m35.cpp:109-253 | a read returns the memory words of the last write to its sector completed before |
| FloppyRuns.WrittenThenRead | hardware/floppy_m35.cpp:109-253 | in every series of inputs a completed read brings the memory words of the time when the last completed write to its sector was accepted |
| FloppyRuns.WriteWaitReadWait | hardware/floppy_m35.cpp:109-253 | the commands write, wait, read, wait move the 512 words from one address to another and leave them in the sector, if each wait is past the due time |
| FloppyRuns.OutOfReach | hardware/floppy_m35.cpp:187-202 | a disk that has been taken out is changed by nothing done to the drive |
| FloppyRuns.FeedAndUnload | disk.cpp:275-281 | after any series of inputs and unloading, the file alone holds the sectors that the inputs left |
| Pdi.Packed | hardware/pdi.h:4-12 | two counts and two flags in one word are read back as packed |
| Pdi.FlagFields | hardware/pdi.h:4-12 | setting or clearing either flag disturbs neither the counts nor the other flag |
| Pdi.CountFields | hardware/pdi.h:7-12 | replacing the counts disturbs neither flag nor, for the stored count alone, the ready count |
| Pdi.Port.AddRx | hardware/pdi.cpp:3-14 | a word is appended, or, when three are stored, dropped with the overflow flag set |
| Pdi.Port.AddTx | hardware/pdi.cpp:16-26 | a word is appended or refused, without a trace |
| Pdi.Port.GetWord | hardware/pdi.cpp:28-42 | the oldest word is taken if it is ready, and the others keep their order and readiness |
| Pdi.Port.GetOverflow | hardware/pdi.cpp:44-50 | the overflow flag is reported and cleared |
| Pdi.Port.IsBusy | hardware/pdi.cpp:51-54 | busy means that a stored word is not ready |
| Pdi.Port.HasData | hardware/pdi.cpp:55-58 | data means that a word is ready |
| Pdi.Port.HasFree | hardware/pdi.cpp:59-62 | free means that a word can be added |
| Pdi.Port.Process | hardware/pdi.cpp:63-73 | one more stored word becomes ready, if there is one |
| Pdi.QueueSteps | hardware/pdi.h:6-12 | a queue stores three words and loses a fourth; taking gives up the oldest; a turn makes one more ready |
| Hic.KaiHic.Receive | hardware/kaihic.cpp:122-134 | a ready word of the port is taken, and a loss is reported once, with the first word taken after it |
| Hic.KaiHic.Transmit | hardware/kaihic.cpp:135-150 | a word is accepted for a connected port if the transmitter has room and is not busy with another port; the status says why not |
| Hic.KaiHic.Query | hardware/kaihic.cpp:98-121 | the status bits describe port and transmitter, and the port answered is the lowest with a word to receive |
| Hic.KaiHic.Arrive | hardware/kaihic.cpp:220-225 | an arriving word goes to the receive queue of its port and touches no other |
| Hic.KaiHic.Reset | hardware/kaihic.cpp:69-83 | all queues are empty and all settings clear afterwards; the timer runs on |
| Hic.KaiHic.Run | hardware/kaihic.cpp:175-210 | a tick comes only when due; it sends the oldest stored word to the current port, makes one word ready on every receive port, and raises exactly the interrupts that are due |
| Hic.TransmitAnswers | hardware/kaihic.cpp:135-150 | what each of the five answers to a transmit command means, and that the word is stored exactly with 0 and 1 |
| Hic.ReceiveAnswers | hardware/kaihic.cpp:122-134 | what the three answers to a receive command mean, and that the oldest word is what is taken |
| Hic.StatusFlags | hardware/kaihic.cpp:98-119 | every bit of the status by itself |
| Hic.NoticesOf | hardware/kaihic.cpp:190-208 | the transmit interrupt comes exactly when the last stored word leaves, and the receive interrupt when a word becomes ready on any port |
| Hic.Timer | hardware/kaihic.cpp:179-183 | the timer is set by the first run, fires only past its time, is due 100000 ns later, and sends the oldest word to the current port |
| Link.SendsKept | hardware/kaihic.cpp:135-150 | every word in the transmit queue is bound for the current port: accepted is sent plus queued, in order |
| Link.ReceivesKept | hardware/kaihic.cpp:220-225 | an action of the sender keeps arrivals, taken words, queue and loss flag of the receiver in step |
| Link.TakingKept | hardware/kaihic.cpp:122-134 | so does every action of the receiver |
| Link.RunGood | hardware/kaihic.cpp:175-229 | both directions of a link keep their account under every interleaving |
| Link.WordsAccountedFor | hardware/kaihic.cpp:122-229 | under every interleaving: accepted for the port = arrived + still queued to send; kept of the arrived = taken + still queued to receive; the overflow flag stands exactly while a loss is unreported; in both directions |
| Link.ArrivalsCounted | hardware/pdi.cpp:3-14 | arrivals are the kept words plus the drops at a full queue |
| LinkProgress.PortStep | hardware/kaihic.cpp:198-202 | an action that takes nothing from a port keeps its words, and makes exactly one more ready if it is a due tick and one is not |
| LinkProgress.PortProgress | hardware/kaihic.cpp:198-202 | while nothing is taken from a port, each due tick makes one more of its words ready, until all are |
| LinkProgress.WordsAreGiven | hardware/kaihic.cpp:122-202 | a port that stores more than k words gives up the first k + 1 in order to as many receive commands, once k + 1 due ticks have passed |
| LinkProgress.WordArrives | hardware/kaihic.cpp:122-229 | send, a due tick on each side, and receive: between fresh cards the word sent is the word received |
| LinkProgress.LossIsTold | hardware/kaihic.cpp:127-130 | in every run a receive command that brings a word answers 1 if and only if a word has been lost since the last one that did |
| Link.RunLinked | hardware/kaihic.cpp:90-229 | two card objects joined by a link go through exactly these runs |
| Attach.IsiInfo.GetDevi | object.cpp:526-546 | a point is found if and only if it is an index in use with a device on it; never a negative point |
| Attach.IsiInfo.AppendIndex | object.cpp:500-514 | the new entry is at the old count and no other link changes, also when the table grows |
| Attach.IsiInfo.SetIndex | object.cpp:575-588 | exactly the given point is linked, also when the table grows or a clear gap is left |
| Attach.IsiInfo.ClearEnd | object.cpp:184-193 | exactly the given point is unlinked, and the last entry in use is not empty afterwards |
| Attach.JoinKeepsReciprocity | object.cpp:253-292 | storing a link at both ends keeps all links reciprocal if and only if neither end was linked to a third |
| Attach.CutKeepsReciprocity | object.cpp:172-212 | emptying both ends of a link keeps all links reciprocal |
| Attach.CutUndoesJoin | object.cpp:172-212 | cutting at the end just joined restores the graph |
| Attach.Attach | object.cpp:214-296 | which error, which places and which two entries an attachment gives; an error changes nothing |
| Attach.AttachIn | object.cpp:214-296 | which error there is; on the graph of all devices attaching changes the two ends only, and keeps all links reciprocal if and only if no end belongs to a third device and the item's place is one the other side is told |
| Attach.JoinOutcome | object.cpp:278-281 | with APPEND on the item and an explicit place on the other side the back index stays -1 and the link is never reciprocal |
| Attach.FindLink | object.cpp:172-191 | the other end of a link is found, or the error says why there is none |
| Attach.CutLink | object.cpp:184-211 | both ends of the link disappear and every other link stays |
| Attach.Deattach | object.cpp:172-212 | exactly the link of the point disappears, at both ends, or the graph stays and an error is returned; links stay reciprocal |
| Attach.AttachErrors | object.cpp:214-252 | the errors of attaching by number, in the order in which they are looked for |
| Attach.DeattachErrors | object.cpp:172-182 | the errors of detaching by number |
| Attach.AttachAndDeattach | object.cpp:172-296 | detaching at the place returned by an attachment restores the graph that stood before |
| AttachRuns.ChangeKeepsReciprocity | object.cpp:172-296 | a change that is granted keeps all links reciprocal |
| AttachRuns.JoinTakesEffect | object.cpp:214-296 | two free ends, upwards, next in the table or given up to the next, are linked at exactly those places |
| AttachRuns.JoinRefused | object.cpp:231-252 | an end that is taken, or a device that objects, leaves the graph as it is |
| AttachRuns.CutTakesEffect | object.cpp:172-212 | cutting removes a link at both ends, and nothing where there is none |
| AttachRuns.AskedAndAccepted | object.cpp:214-252 | what isi_attach checks, and what a client has to make sure of, are together a condition on the graph |
| AttachRuns.Perform | object.cpp:172-296 | an attachment or a detachment changes the graph exactly as the client was granted: two free ends at the places asked for are linked, one link is cut, or nothing happens, and all links stay reciprocal |
| AttachRuns.Evolve | object.cpp:172-296 | from nothing attached, every series of attachments and detachments ends in exactly the graph that the changes give one after the other, with all links reciprocal all the time |
| AttachRuns.TakenUpwards | object.cpp:282-284 | attaching a device upwards twice leaves the first bus with a link that the device does not know |
| AttachRuns.NeverTold | object.cpp:274-281 | appending a device at an explicit place of another leaves that one with the back index -1 |
| Routing.MessageDev | object.cpp:154-170 | a message goes to the other end of the link of its point, with the index of that end |
| Routing.Answer | object.cpp:154-170 | sent back on the index it came with, a message arrives at the device and with the index it was sent from |
| Routing.BusMsgIn | dcpuhw.cpp:58-113 | the backplane takes a message from slot 0 as addressed from slot 1 on, any other as addressed to a slot with its first word moved up, and forwards it, refuses it, ignores it, or resets and tells every device below it in slot order |
| Routing.HardwareMessage | dcpuhw.cpp:89-108 | HWI n and HWQ n reach the device in slot n + 1 at the point it is attached by, a query with the identity of the device filled in, or fail |
| Routing.BelowInOrder | dcpuhw.cpp:77-88 | the devices told a reset are those of the slots in use behind the first, each once, in slot order |
| Routing.ResetThenMessage | dcpuhw.cpp:75-108 | the count answered to a reset is the number from which hardware messages are refused, the message below it reaches a device, and every device on the bus is told once and in order |
| Routing.IdentityTold | dcpuhw.cpp:96-106 | HWQ n brings device number, version and maker of the device in slot n + 1, each in its registers, lower half first |
| Routing.OthersIgnored | dcpuhw.cpp:109-112 | messages of other kinds are not passed on |
| Routing.DeviceInterrupt | dcpuhw.cpp:58-113 | the interrupt a device sends up reaches the processor, whose queue grows by it if and only if there is a handler and room, and is otherwise unchanged; the answer is the processor's |
| TextCodec.Alphabet | disk.cpp:39-88 | characters and their values belong together one to one |
| TextCodec.AlphabetInOrder | disk.cpp:39-41 | the characters are A to Z, a to z, 0 to 9, - and _, in this order |
| TextCodec.FirstBitsFirst | disk.cpp:47-53 | a group of bytes becomes characters from the highest bits on |
| TextCodec.Foo | disk.cpp:37-57 | foo is Zm9v |
| TextCodec.DecodeEncode | disk.cpp:37-103 | decoding the ceil(8n / 6) characters of n encoded bytes gives the bytes, for every byte string |
| TextCodec.EncodeDecode | disk.cpp:37-103 | encoding the bytes of a readable text gives the text back if and only if its last character has no bits beyond the last whole byte |
| TextCodec.PaddingIsA | disk.cpp:89-93 | a name has the same groups as the name with any number of A behind it, and behind the name all groups are zero |
| TextCodec.TextEnc | disk.cpp:37-57 | the loop writes the first `limit` characters of the encoding and a terminator, and nothing behind it |
| TextCodec.TextDec | disk.cpp:58-103 | the loop rejects a text if and only if a character within the limit is outside the alphabet, and otherwise writes the decoded bytes of the groups begun and nothing else |
| TextCodec.DecodeShort | disk.cpp:58-103 | into zeroed buffers a name and the same name with any number of A behind it are both rejected or give the same bytes |
| TextCodec.FillGroup | disk.cpp:89-93 | a group the text does not fill counts as filled with zeros |
| ParamList.EntryAt | object.cpp:18-64 | every entry lies in the encoded list at the sum of the lengths before it |
| ParamList.ScanStep | object.cpp:22-60 | one byte of the scan moves from entry to entry without losing its place |
| ParamList.WriteParameter | object.cpp:18-64 | an entry is appended if and only if it fits, every byte before and behind stays, and the buffer holds the longer list; one that does not fit is written as far as the buffer goes, and the old list is intact then if and only if it filled the buffer |
| ParamList.WriteAll | object.cpp:18-64 | entries with data, written one after the other into an empty buffer that has room, make it hold exactly their list |
| ParamList.FlagWritten | object.cpp:33-35 | after an entry without data the list is intact if and only if it ends with the buffer or a zero byte happens to follow |
| ParamList.FlagExposes | object.cpp:33-35 | a flag written into a buffer that is not clear turns what lies behind it into an entry |
| ParamList.FetchParameter | object.cpp:66-109 | the first entry with the tag is copied as far as there is room, and success is reported if and only if it fills the room, is empty, or is followed by another byte |
| ParamList.LastEntryShort | object.cpp:86-108 | one byte at the end of a buffer, fetched into room for two, is copied and reported as missing |
| ParamList.LongerThanRoom | object.cpp:86-95 | an entry longer than the room is copied as far as there is room, with success |
| ParamList.EntriesFetched | object.cpp:66-109 | with distinct tags every entry is fetched whole by its tag and length wherever the list ends, and a tag not written is reported absent |
| ParamList.WriteThenFetch | object.cpp:18-109 | entries with data and different tags written into an empty buffer: each is fetched by its tag with its data |
| ParamList.AppendKeepsEntries | object.cpp:18-64 | appending disturbs no entry that could be fetched |
| CommandRing.Session.GetCmdq | session.cpp:295-310 | the oldest command is handed out and removed on request; without a place for it a removed slot is destroyed |
| CommandRing.Session.AddCmdq | session.cpp:312-322 | a blank command is appended unless one slot less than the ring is full; the slot behind it is blank again |
| CommandRing.RunAll | session.cpp:295-322 | through any operations and wrap-arounds the ring is a queue of its slots less one, in what it holds and in what every operation answers |
| Framing.WordRoundTrip | session.cpp:333-337 | a 32-bit word is read back from its four bytes |
| Framing.HeaderFields | session.cpp:332-333 | length and code are recovered from the header word |
| Framing.Pad | session.cpp:334-336 | zero bytes fill the body up to the next multiple of four, and none when it is one |
| Framing.WriteMsg | session.cpp:329-342 | the bytes sent are header, body cut to its low 13 bits of length, padding and trailer |
| Framing.WireFormat | session.cpp:329-337 | every byte of a frame: length, upper twelve bits of the code, payload, zeros up to a multiple of four, and EA 59 88 FF |
| Framing.JudgedByTrailer | session.cpp:421-430 | a frame is accepted if and only if EA 59 88 FF follows its padded body; code and length are those of its first four bytes |
| Framing.Client.Recv | session.cpp:392-437 | a receive appends the bytes, learns the frame length with the fourth byte, waits for the whole frame and then judges it by its trailer |
| Framing.FrameIsRead | session.cpp:424-431 | the trailer index agrees with the padding for every length, and code, length and payload are those sent |
| Framing.FeedMore | session.cpp:411-437 | one chunk of a frame more: pending before the last byte, the message with it, and ready for the next frame |
| Framing.FrameIsDelivered | session.cpp:392-437 | every frame, cut into any chunks, gives pending answers and then exactly one message with the code and payload sent, if and only if the first chunk has four bytes |
| Framing.ShortChunk | session.cpp:411-427 | the first byte of the empty message alone makes a new client give the session up |
| Framing.ReadyAgain | session.cpp:434-435 | at the end of a frame the receiver is ready for the next |
| Framing.FramesAreDelivered | session.cpp:392-437 | any number of frames, each cut at its own end, are delivered in order, with nothing else among them |
| Framing.RecvAll | session.cpp:392-437 | the client object answers a series of chunks with exactly these outcomes |

## Left out

- Dcpu.Dcpu16.StepOnce: the debugger, breakpoints and RUNFOR are not part of it; what the hardware does during HWQ and HWI is a parameter, any status, registers, stores and interrupts.
- Dcpu.Dcpu16.MsgIn: a message has the words its kind calls for; the C++ reads past a shorter one. One that loads registers cannot reach the last, J.
- Dcpu.Dcpu16.Reset: the branch for a processor without memory, which returns half-way with an error, is left out.
- Alu.Compute: shift counts of 32 and more and signed products or negations that overflow are undefined in C++; counts are taken modulo 32, as x86 does, and results modulo 2^32.
- Ram.Memory16.Write: no code of the repository sets the read-only flag, and the synchronisation flags do not change what is stored; both are left out.
- Pacing.CpuInfo.SetRate: a rate of zero or above 10^9 hertz makes the original divide by zero, at once or when the budget is computed, and is excluded.
- Pacing.CpuInfo.RunQuanta: the statistics and the run of the backplane at the end are left out; times do not wrap at 2^64.
- Disk.IsiDisk.ReadFile: reading and writing a file always succeeds and reads past the end give zeros; disks kept in a database, ISE_DISKWPRST and ISE_DISKRESET are left out.
- Disk.IsiDisk.constructor: finding and opening the file is left out, and the protection of a disk does not change while it is in use.
- Floppy.M35fd.Run: a disk may be taken out and put back at any time, but during an operation not exchanged for another that stands at a different block, nor sent elsewhere by anyone but the drive.
- FloppyRuns.Feed: the inputs are about one disk; a second one is not put into the drive.
- Floppy.M35fd.StateChange: an interrupt is recorded, not delivered; `Routing.DeviceInterrupt` says what delivery does.
- Hic.KaiHic.Run: a word leaves as a result, which `Link` delivers; the command that copies port names to memory and the name setup are left out.
- Attach.IsiInfo.SetIndex: an explicit place beyond the next free one is covered as long as the memory behind the table is clear; the original does not clear memory it reallocates, and what links would appear in a gap is not determined by the program.
- Attach.Attach: a device attached to itself and INSERTSTART (not supported by the original either) are excluded, as are gaps over memory that is not clear; attaching memory is left out; QueryAttach is a parameter, and allocation succeeds.
- Attach.AttachIn: the same exclusions as Attach.Attach.
- Attach.AttachAndDeattach: the same exclusions as Attach.Attach; the cases in which the links do not stay reciprocal are those of AttachRuns.TakenUpwards and AttachRuns.NeverTold.
- AttachRuns.Perform: a client that asks for what Granted rules out is not followed; what happens then is the condition in Attach.AttachIn.
- Attach.Deattach: a device is detached at UP only while attached there; the original dereferences a null pointer otherwise.
- Attach.IsiInfo.GetDevi: the comparison of the index with the unsigned count is taken as it works, so no negative point is found and the branches for UP and APPEND are never reached.
- Routing.MessageDev: messages to sessions are left out.
- Routing.BusMsgIn: which devices are reset and told, in which order, is the outcome; what the reset of a device does is stated for the devices modelled here. A reset and a query have room for their answers, as all callers give them.
- ParamList.WriteParameter: tags and lengths are bytes and the data has at most 255 of them, as the protocol demands; the original cuts larger ones to eight bits.
- CommandRing.Session.GetCmdq: pointers in a command are numbers, and freeing what they point to is setting them to zero.
- Framing.WriteMsg: sending is total and partial sends are left out.
- Framing.Client.Recv: errors of the socket, what the session does with a message, and bytes received beyond a frame, which the original drops with a log entry, are left out.
- Sockets, polling, logging, the console, persistence in a database, the disassembler, class registration and raw object layouts.
- The memory delta encoder of netsync.cpp: its header pointer is never set and its loop never advances.
- Keyboard, speaker, displays, ROM, clock and the other small devices: they would add members but nothing hard.
