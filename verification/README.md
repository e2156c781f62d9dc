# NachOS in Dafny

This project models the core of NachOS 4.0, a teaching kernel that runs on a
simulated machine, and proves what its parts promise.

- **The MIPS processor.** `Words`, `Multiply`, `Memory`, `Isa` and `Mips` define one
  instruction as a function of the machine state; `Instructions` says by equations what
  each of them leaves behind; `Simulator` is the imperative
  simulator, with its register array, memory and TLB loop, proved to compute that
  function. `DelayedLoads` compares it with a processor without delayed loads over
  whole runs. `Unaligned` proves the LWL/LWR/SWL/SWR pairs, `Masks` that the code's
  masks and shifts are the byte moves these are stated with.
- **The file system.** `Bitmaps`, `DiskFormat`, `OpenFiles`, `FileHeaders` and
  `Directories` are the classes of the code, working on the bytes of a disk image.
  `Volumes` says who owns which sector; `FileSystems` proves that formatting, Create,
  Remove and writes keep that true of the bytes on disk.
- **Threads.** `Scheduling` gives the operations on threads and semaphores as
  functions and proves the invariants over all runs; `ReadyOrder` proves from the
  changes of thread status alone who gets the CPU next; `Kernels` carries the
  operations out on the kernel's variables, with the ASSERTs of the code as
  preconditions that are met.
- **Monitors.** `SynchLists` is a step machine, one statement of one thread at a time,
  of a lock, a Mesa condition variable, any clients that use them, and the
  synchronised list. `Signals` follows one Signal, Broadcast or Wait from call to
  return, `ListCalls` the items from the calls of Append.
- **Devices and time.** `Clocks` is the event clock, `DiskTiming` the latency of the
  disk, `Devices` the protocol of lock, request, interrupt and semaphore, `SynchDisks`
  the synchronous disk built on it, `PostOffices` mail over a lossy network.
- **Containers.** `Lists` has the linked lists, `HashTables` the self-expanding hash table.

Registers, memory words and disk words are 32-bit values with explicit wrap-around;
the free map works on bit-vectors. Time is unbounded.

Interrupts, and with them context switches, happen in the code only where interrupts
are enabled again. `Scheduling` has exactly these switch points. The step machines
(`SynchLists`, `Devices`, `PostOffices`) let a switch happen between any two statements,
which covers every schedule of the kernel and more. In them `P` is a step that is
possible only while the value is positive and `V` one that adds one; that this is what
callers see of the queueing semaphore is `Scheduling.NoWakeupIsLost` and the contracts
of `Kernels.Kernel.P` and `V`.

Where code and comments differ the model follows the code: SRL and SRLV shift
arithmetically, since they shift a signed temporary; file names are compared and stored
by their first nine characters; `Allocate` does not check that a size fits the header, so
callers must; writing never extends a file.

## Model

| member | source | states |
|---|---|---|
| Multiply.Mult | NachOS-4.0/code/machine/mipssim.cc:771-828 | hi and lo are the two halves of the exact 64-bit product, signed or unsigned, for all operands |
| Multiply.ShiftAdd | NachOS-4.0/code/machine/mipssim.cc:793-814 | the shift-and-add loop, with the arithmetic shift of `a` and the early exit, computes the unsigned product |
| Multiply.AddDouble | NachOS-4.0/code/machine/mipssim.cc:801-804 | double-word addition with the carry found by an unsigned comparison |
| Multiply.ShiftDouble | NachOS-4.0/code/machine/mipssim.cc:808-812 | the doubling of the double word loses nothing but its top bit |
| Multiply.Negate | NachOS-4.0/code/machine/mipssim.cc:818-824 | complement-and-increment is negation modulo 2^64 |
| Memory.Translate | NachOS-4.0/code/machine/translate.cc:184-251 | a mapped access lies inside main memory (the closing ASSERT), keeps the page offset and changes only use and dirty bits |
| Memory.TranslationByEntry | NachOS-4.0/code/machine/translate.cc:206-249 | the address is 128 times the frame of its page's entry plus the offset: the page table's entry of that number, the first valid one of a TLB; read-only and missing frames fault, and only that entry's use and dirty bits change |
| Memory.NoTranslation | NachOS-4.0/code/machine/translate.cc:194-232 | a misaligned address and one past the page table are address errors, a page without a valid entry is a page fault |
| Memory.SameTranslation | NachOS-4.0/code/machine/translate.cc:184-251 | use and dirty bits never influence a later translation |
| Memory.Deposit | NachOS-4.0/code/machine/translate.cc:148-164 | a store changes exactly the bytes it names |
| Isa.DecodeImmediate | NachOS-4.0/code/machine/mipssim.cc:725-743 | Decode recovers operation, registers and the signed immediate of every immediate instruction with a code of its own |
| Isa.DecodeBranch | NachOS-4.0/code/machine/mipssim.cc:747-763 | and of the conditional branches that share one code, told apart by rt |
| Isa.DecodeRegister | NachOS-4.0/code/machine/mipssim.cc:725-746 | Decode recovers all fields of every register instruction |
| Isa.DecodeJump | NachOS-4.0/code/machine/mipssim.cc:725-743 | Decode recovers the target of J and JAL |
| Isa.DecodeAssembled | NachOS-4.0/code/machine/mipssim.h:117-150 | for every operation, by its code in the architecture: Decode undoes the assembler |
| Isa.PlanReadsOnlyOperands | NachOS-4.0/code/machine/mipssim.cc:154-689 | an instruction depends only on the registers it is said to read |
| Isa.OverflowIsExact | NachOS-4.0/code/machine/mipssim.cc:157-176 | the sign tests trap exactly when the true sum or difference does not fit an int |
| Mips.StepKeepsSound | NachOS-4.0/code/machine/mipssim.cc:120-719 | after every instruction R0 is zero and the machine is well formed |
| Instructions.ExecAdd | NachOS-4.0/code/machine/mipssim.cc:157-183 | ADD and ADDI trap exactly when the signed sum does not fit; a sum that fits is exact, any other one of ADDU and ADDIU wraps; the rest of the machine only lands the pending load and moves on |
| Instructions.ExecSubtract | NachOS-4.0/code/machine/mipssim.cc:532-544 | the same of SUB and SUBU: the result plus rt is rs |
| Instructions.ExecSetLess | NachOS-4.0/code/machine/mipssim.cc:479-509 | 1 exactly when rs is less, as integers or as naturals, else 0 |
| Instructions.ExecShiftLeft | NachOS-4.0/code/machine/mipssim.cc:470-477 | the operand times the power of two is the shifted-out part and the result |
| Instructions.ExecShiftRight | NachOS-4.0/code/machine/mipssim.cc:511-530 | the signed operand is the power of two times the signed result plus the part shifted out, for SRL and SRLV too |
| Instructions.LogicalShift | NachOS-4.0/code/machine/mipssim.cc:520-530 | SRL and SRLV give the unsigned quotient of the architecture if and only if the shift is zero or the sign bit clear |
| Instructions.SrlIsArithmetic | NachOS-4.0/code/machine/mipssim.cc:520-524 | 0x80000000 shifted right by one is 0xc0000000 |
| Instructions.ExecLogic | NachOS-4.0/code/machine/mipssim.cc:185-680 | AND, OR, XOR, NOR and the immediate forms bit by bit, the immediate being 16 bits |
| Instructions.ExecMove | NachOS-4.0/code/machine/mipssim.cc:295-426 | LUI fills the high half and clears the low; MFHI and MFLO copy |
| Instructions.ExecMultiply | NachOS-4.0/code/machine/mipssim.cc:436-444 | hi and lo are the halves of the signed or unsigned product |
| Instructions.ExecDivide | NachOS-4.0/code/machine/mipssim.cc:227-235 | dividend = quotient * divisor + remainder, the remainder smaller than the divisor and with the dividend's sign; zeros for a zero divisor |
| Instructions.ExecDivideUnsigned | NachOS-4.0/code/machine/mipssim.cc:237-249 | the same on naturals |
| Instructions.ExecSetHiLo | NachOS-4.0/code/machine/mipssim.cc:428-434 | MTHI and MTLO set one of the two registers |
| Instructions.ExecBranch | NachOS-4.0/code/machine/mipssim.cc:193-225 | taken exactly when the comparison holds, to nextPc plus the signed immediate in words; linking forms leave the return address, taken or not, and test R31 after that |
| Instructions.ExecJump | NachOS-4.0/code/machine/mipssim.cc:251-261 | J and JAL: the region of the next instruction and the word of the field; JR and JALR: where rs points, after the link is stored |
| Instructions.ExecLoad | NachOS-4.0/code/machine/mipssim.cc:263-310 | completes exactly when the address translates; the little-endian number there, signed or unsigned, is pending for rt |
| Instructions.ExecStore | NachOS-4.0/code/machine/mipssim.cc:458-550 | completes exactly when the address translates for writing; those bytes hold the low bytes of rt, and no other byte changes |
| Instructions.ExecTrap | NachOS-4.0/code/machine/mipssim.cc:670-685 | SYSCALL, reserved and unimplemented operations enter the kernel |
| DelayedLoads.StepAgrees | NachOS-4.0/code/machine/mipssim.cc:120-719 | if the instruction keeps clear of the pending load, the machine with that load applied does what a machine without delayed loads does, traps included |
| DelayedLoads.DelayIsInvisible | NachOS-4.0/code/machine/mipssim.cc:57-72 | the same over whole runs, with interrupts and exception handlers between the instructions |
| DelayedLoads.InterruptsAreUnobservable | NachOS-4.0/code/machine/interrupt.cc:309-311 | where interrupts strike and force the pending load cannot be told from the final state |
| DelayedLoads.TrapChangesNothing | NachOS-4.0/code/machine/machine.cc:100-110 | a faulting instruction changes nothing but the landed load, the bad address and use and dirty bits |
| DelayedLoads.SlotUseIsVisible | NachOS-4.0/code/machine/mipssim.cc:711-718 | each part of the condition on delay slots is needed, for every pending register: reading it as rs or rt sees the old value, setting it is overwritten |
| DelayedLoads.RestartAfterTrap | NachOS-4.0/code/machine/machine.cc:100-110 | after a trap, and whatever the handler made of the translation table, the next step is the one the processor without delayed loads would take from the state before, up to BadVAddr |
| Unaligned.AccessByPage | NachOS-4.0/code/machine/translate.cc:184-251 | with a page table, a word may be read exactly when its page is valid with a frame that exists, and written when it is not read-only besides |
| Unaligned.ExecPartialStore | NachOS-4.0/code/machine/mipssim.cc:552-668 | SWL or SWR completes exactly when the aligned word may be written, and then replaces the bytes on its side of the address |
| Unaligned.ExecPartialLoad | NachOS-4.0/code/machine/mipssim.cc:312-418 | LWL or LWR completes exactly when the aligned word may be read, and then merges the bytes on its side into rt, through the pending-load bypass |
| Unaligned.UnalignedStore | NachOS-4.0/code/machine/mipssim.cc:552-668 | where both words may be written, SWL at a+3 and SWR at a complete and store the little-endian word at a, and no other byte of memory |
| Unaligned.UnalignedStoreNeedsBoth | NachOS-4.0/code/machine/mipssim.cc:552-668 | the pair completes if and only if both words may be written |
| Unaligned.UnalignedLoad | NachOS-4.0/code/machine/mipssim.cc:312-418 | LWL at a+3 and LWR at a read whatever word is there, on read-only pages too, and whatever load was pending before lands |
| Unaligned.UnalignedRoundTrip | NachOS-4.0/code/machine/mipssim.cc:312-418 | on any two writable pages the two stores and the two loads complete and give the word back, at any address |
| Unaligned.PlaceIsTranslation | NachOS-4.0/code/machine/translate.cc:184-251 | the four bytes lie where the byte addresses a..a+3 translate to |
| Simulator.Machine.constructor | NachOS-4.0/code/machine/machine.cc:55-76 | registers and memory start at zero, with no load pending |
| Simulator.Machine.DelayedLoad | NachOS-4.0/code/machine/mipssim.cc:711-718 | the register array after landing a load and recording the next |
| Simulator.Machine.RaiseException | NachOS-4.0/code/machine/machine.cc:100-110 | records the address and lands the pending load before the kernel is entered |
| Simulator.Machine.Lookup | NachOS-4.0/code/machine/translate.cc:209-230 | the TLB loop finds the first valid matching entry; the page table is bounds-checked first |
| Simulator.Machine.Translate | NachOS-4.0/code/machine/translate.cc:184-251 | address translation with the use and dirty bits set in place |
| Simulator.Machine.ReadMem | NachOS-4.0/code/machine/translate.cc:85-120 | a byte, half word or word of memory, or the exception |
| Masks.CharSignUnseen | NachOS-4.0/code/machine/mipssim.cc:263-275 | LB and LBU give the same whether the host's char is signed or not |
| Masks.LoadsMergeBytes | NachOS-4.0/code/machine/mipssim.cc:346-357 | the masks and shifts of LWL and LWR move exactly the bytes that the other results speak of |
| Masks.StoresMergeBytes | NachOS-4.0/code/machine/mipssim.cc:582-595 | so do those of SWL and SWR |
| Simulator.Machine.WriteMem | NachOS-4.0/code/machine/translate.cc:135-167 | memory with that many bytes replaced, or the exception |
| Simulator.Machine.ComputeHiLo | NachOS-4.0/code/machine/mipssim.cc:436-444 | MULT and MULTU leave the halves of the exact product, through the loop of Mult |
| Simulator.Machine.OneInstruction | NachOS-4.0/code/machine/mipssim.cc:120-704 | the registers, memory and tables updated in place match the step function the theorems of `Instructions`, `DelayedLoads` and `Unaligned` are about |
| Bitmaps.WordBits | NachOS-4.0/code/lib/bitmap.cc:56-95 | or-ing and and-ing a shifted one changes exactly one bit of a word |
| Bitmaps.Bitmap.constructor | NachOS-4.0/code/lib/bitmap.cc:21-36 | all bits clear |
| Bitmaps.Bitmap.Mark | NachOS-4.0/code/lib/bitmap.cc:56-62 | sets one bit and no other |
| Bitmaps.Bitmap.Clear | NachOS-4.0/code/lib/bitmap.cc:73-79 | clears one bit and no other |
| Bitmaps.Bitmap.Test | NachOS-4.0/code/lib/bitmap.cc:90-100 | the bit |
| Bitmaps.Bitmap.FindAndSet | NachOS-4.0/code/lib/bitmap.cc:110-120 | the first clear bit is found and set; -1 exactly when there is none |
| Bitmaps.Bitmap.NumClear | NachOS-4.0/code/lib/bitmap.cc:128-139 | the number of clear bits |
| Bitmaps.CountIsCardinality | NachOS-4.0/code/lib/bitmap.cc:128-139 | the count is the size of the set of clear bits |
| DiskFormat.HeaderRoundTrip | NachOS-4.0/code/filesys/filehdr.cc:83-100 | a header survives being written to a sector and read back |
| DiskFormat.BitsRoundTrip | NachOS-4.0/code/filesys/pbitmap.cc:63-79 | the words of the free map survive WriteBack and FetchFrom |
| DiskFormat.EntriesRoundTrip | NachOS-4.0/code/filesys/directory.cc:62-79 | so do the entries of a directory |
| OpenFiles.SynchDisk.ReadSector | NachOS-4.0/code/filesys/synchdisk.cc:57-64 | the sector, as `SynchDisks.DiskIsAnArray` proves of the protocol underneath |
| OpenFiles.SynchDisk.WriteSector | NachOS-4.0/code/filesys/synchdisk.cc:75-82 | that sector is replaced and no other, likewise |
| OpenFiles.OpenFile.ReadAt | NachOS-4.0/code/filesys/openfile.cc:123-150 | reading is reading a range of a flat byte array, clipped at the end of the file |
| OpenFiles.OpenFile.WriteAt | NachOS-4.0/code/filesys/openfile.cc:152-191 | writing replaces exactly the clipped range of that array, for all alignments of first and last sector, and touches no sector of another file |
| OpenFiles.OpenFile.Assemble | NachOS-4.0/code/filesys/openfile.cc:166-183 | the buffer holds the old partial sectors around the new bytes |
| OpenFiles.OpenFile.LoadSectors | NachOS-4.0/code/filesys/openfile.cc:136-144 | the loop gathers the scattered sectors |
| OpenFiles.OpenFile.StoreSectors | NachOS-4.0/code/filesys/openfile.cc:186-188 | the loop scatters the buffer over the file's sectors only |
| OpenFiles.OpenFile.Read | NachOS-4.0/code/filesys/openfile.cc:81-87 | reads at the seek position and advances it by what was read |
| OpenFiles.OpenFile.Write | NachOS-4.0/code/filesys/openfile.cc:89-95 | writes at the seek position and advances it by what was written |
| OpenFiles.ReadBack | NachOS-4.0/code/filesys/openfile.cc:123-191 | what was written is read back |
| OpenFiles.WriteKeepsOthers | NachOS-4.0/code/filesys/openfile.cc:152-191 | a byte outside the clipped range keeps its value |
| OpenFiles.OtherFileKept | NachOS-4.0/code/filesys/openfile.cc:152-191 | a write leaves a file with other sectors untouched |
| FileHeaders.TakeIsFresh | NachOS-4.0/code/filesys/filehdr.cc:51-56 | the sectors taken were free, are distinct, and are all that the map gains |
| FileHeaders.FileHeader.Allocate | NachOS-4.0/code/filesys/filehdr.cc:43-58 | fails, leaving the map alone, exactly when there are too few free sectors; otherwise takes ceil(size/128) of them and no FindAndSet fails |
| FileHeaders.FileHeader.Grab | NachOS-4.0/code/filesys/filehdr.cc:51-56 | the allocation loop |
| FileHeaders.FileHeader.Deallocate | NachOS-4.0/code/filesys/filehdr.cc:67-74 | every sector is marked when its turn comes (the ASSERT), and exactly these are freed |
| FileHeaders.FileHeader.FetchFrom | NachOS-4.0/code/filesys/filehdr.cc:83-87 | the header of that sector |
| FileHeaders.FileHeader.WriteBack | NachOS-4.0/code/filesys/filehdr.cc:96-100 | only that sector changes, and it decodes to this header |
| Directories.SameStringIsSameKey | NachOS-4.0/code/filesys/directory.cc:89-96 | strncmp tells names apart by their first nine characters only |
| Directories.KeyOfStored | NachOS-4.0/code/filesys/directory.cc:134-140 | a name cut by strncpy still matches the name it was cut from |
| Directories.Directory.constructor | NachOS-4.0/code/filesys/directory.cc:37-43 | no entry is in use |
| Directories.Directory.FetchFrom | NachOS-4.0/code/filesys/directory.cc:62-66 | the entries stored in the file |
| Directories.Directory.WriteBack | NachOS-4.0/code/filesys/directory.cc:75-79 | the file holds the encoded entries |
| Directories.Directory.FindIndex | NachOS-4.0/code/filesys/directory.cc:89-96 | the first entry in use with that name, or -1 |
| Directories.Directory.Find | NachOS-4.0/code/filesys/directory.cc:107-115 | its sector, or -1 |
| Directories.Directory.Add | NachOS-4.0/code/filesys/directory.cc:128-142 | fails on a known name or a full table; otherwise fills the first free entry |
| Directories.Directory.Remove | NachOS-4.0/code/filesys/directory.cc:152-161 | fails on an unknown name; otherwise frees that entry only |
| Volumes.CreateKeepsConsistent | NachOS-4.0/code/filesys/filesys.cc:186-226 | after Create every marked sector has exactly one owner, unmarked ones none, and names are distinct |
| Volumes.RemoveKeepsConsistent | NachOS-4.0/code/filesys/filesys.cc:295-325 | the same after Remove |
| Volumes.CreateAddsOneName | NachOS-4.0/code/filesys/filesys.cc:186-226 | the new name leads to a header of the right size, and every other name leads where it did |
| Volumes.RemoveUndoesCreate | NachOS-4.0/code/filesys/filesys.cc:295-325 | Create then Remove restores the free map and the name-to-sector map |
| FileSystems.FetchBitmap | NachOS-4.0/code/filesys/pbitmap.cc:38-66 | the free map stored in its file |
| FileSystems.WriteBackBitmap | NachOS-4.0/code/filesys/pbitmap.cc:75-79 | the file holds the encoded map, and no other sector changes |
| FileSystems.FileSystem.Format | NachOS-4.0/code/filesys/filesys.cc:84-127 | both ASSERTs on Allocate hold, and whatever was on the disk it now holds an empty, consistent file system |
| FileSystems.FileSystem.Mount | NachOS-4.0/code/filesys/filesys.cc:137-142 | opens the two system files by their well-known sectors |
| FileSystems.FileSystem.Create | NachOS-4.0/code/filesys/filesys.cc:186-226 | succeeds exactly when the name is new and there is room; FALSE leaves the disk as it was, TRUE makes exactly that file; the invariant and all files' contents are kept |
| FileSystems.FileSystem.Remove | NachOS-4.0/code/filesys/filesys.cc:295-325 | succeeds exactly when the name exists; FALSE leaves the disk as it was; the invariant and the other files' sectors are kept |
| FileSystems.FileSystem.Open | NachOS-4.0/code/filesys/filesys.cc:238-252 | NULL exactly when there is no such name, otherwise the file's header |
| FileSystems.FileSystem.WriteFile | NachOS-4.0/code/filesys/openfile.cc:152-191 | writing an open file changes that file's bytes only, by the clipped count returned, and neither the volume's structure nor any other file |
| FileSystems.CreateEffect | NachOS-4.0/code/filesys/filesys.cc:213-219 | the three writes of Create, as bytes on disk, amount to the new volume |
| FileSystems.RemoveEffect | NachOS-4.0/code/filesys/filesys.cc:313-320 | the two writes of Remove do |
| FileSystems.FormattedIsConsistent | NachOS-4.0/code/filesys/filesys.cc:84-127 | the sectors of an empty volume are accounted for |
| FileSystems.KeptFileBytes | NachOS-4.0/code/filesys/filesys.cc:186-226 | files whose sectors are kept keep their contents byte for byte |
| FileSystems.Session | NachOS-4.0/code/filesys/filesys.cc:81-325 | the ownership invariant holds on disk after formatting and any sequence of Create, Remove and writes, and none of the ASSERTs on the way fires |
| Devices.AssertionsHold | NachOS-4.0/code/machine/disk.cc:113-163 | ASSERT(!active) holds at every request, the releasing thread holds the lock, and a thread past its wait finds its request completed |
| Devices.StepKeepsInv | NachOS-4.0/code/filesys/synchdisk.cc:57-94 | lock value, holder, semaphore, activity and pending interrupts stay in step |
| SynchDisks.DiskIsAnArray | NachOS-4.0/code/machine/disk.cc:113-151 | in every run of any number of threads a read returns the data of the last write to its sector that the device got before it, or what was there at the start, and so does each sector hold; calls return in request order; at most one interrupt is pending, and only while active; a call returns only after its own interrupt |
| SynchDisks.RequestsAreCalls | NachOS-4.0/code/filesys/synchdisk.cc:57-82 | each request of the device is that of one call, a thread's in its order; each call is served so, unless its thread has not reached the device |
| SynchDisks.ReturnsItsOwn | NachOS-4.0/code/filesys/synchdisk.cc:57-82 | a call that returns carries its own request, completed, with the data of the last write to the sector |
| DiskTiming.Disk.TimeToSeek | NachOS-4.0/code/machine/disk.cc:176-192 | 500 ticks for each track between the two, in either direction, and the time to the next sector boundary |
| DiskTiming.ModuloDiffIsLeast | NachOS-4.0/code/machine/disk.cc:199-206 | the least rotation distance to the sector |
| DiskTiming.NextStartAfter | NachOS-4.0/code/machine/disk.cc:229-250 | seek, alignment and rotation reach the first time the sector starts after the seek |
| DiskTiming.BufferHit | NachOS-4.0/code/machine/disk.cc:236-243 | the track-buffer test says exactly whether the sector has passed entirely since the buffer started to load |
| DiskTiming.Disk.ComputeLatency | NachOS-4.0/code/machine/disk.cc:229-250 | a buffered read takes one sector's time, any other request ends at the earliest time the sector has passed the head after the seek; always positive and bounded |
| DiskTiming.Disk.Request | NachOS-4.0/code/machine/disk.cc:113-151 | bufferInit stays sector-aligned and not after any later request |
| DiskTiming.Disk.CallBack | NachOS-4.0/code/machine/disk.cc:158-163 | the device is idle again |
| Clocks.InsertKeepsOrder | NachOS-4.0/code/machine/interrupt.cc:57-63 | pending events stay ordered by time, first come first served among equals, and none is lost |
| Clocks.DueAfterInsert | NachOS-4.0/code/machine/interrupt.cc:256-266 | an event scheduled ahead of now does not become due, which is why the loop ends |
| Clocks.Interrupt.constructor | NachOS-4.0/code/machine/interrupt.cc:72-79 | no time has passed and nothing is pending |
| Clocks.Interrupt.Schedule | NachOS-4.0/code/machine/interrupt.cc:256-266 | one more event, in its place |
| Clocks.Interrupt.RunHandlers | NachOS-4.0/code/machine/interrupt.cc:313-320 | exactly the due events fire, in order, and the loop terminates although handlers schedule more |
| Clocks.Interrupt.CheckIfDue | NachOS-4.0/code/machine/interrupt.cc:280-322 | after it every pending event is strictly in the future; with advanceClock time moves to the next event, as idle time |
| Clocks.Interrupt.OneTick | NachOS-4.0/code/machine/interrupt.cc:147-176 | time advances by the tick of the mode, which counts as system or as user time, the due events fire, and the thread yields exactly when one of their handlers asked for it |
| Clocks.Interrupt.SetLevel | NachOS-4.0/code/machine/interrupt.cc:123-136 | only enabling interrupts that were off advances time |
| Clocks.Interrupt.Idle | NachOS-4.0/code/machine/interrupt.cc:207-227 | time jumps to the next event; with none the machine halts |
| Clocks.Simulate | NachOS-4.0/code/machine/interrupt.cc:123-322 | in every run ticks add up, handlers run in order of time and of scheduling, never early and less than a system tick late, and every event fires once or is still pending |
| Scheduling.StepIsSafe | NachOS-4.0/code/threads/thread.cc:91-255 | every operation of a thread or interrupt handler keeps placement and semaphore accounting |
| Scheduling.Execute | NachOS-4.0/code/threads/scheduler.cc:56-167 | every machine reachable by any sequence of events satisfies the invariant |
| Scheduling.ThreadHasOnePlace | NachOS-4.0/code/threads/thread.cc:146-255 | each live thread is in exactly one of: just created, running, ready list, one semaphore's queue, finishing |
| Scheduling.AssertionsHold | NachOS-4.0/code/threads/scheduler.cc:103-167 | nobody is put on a list twice, toBeDestroyed is NULL when set, and a thread is deleted once, by another thread |
| Scheduling.NoWakeupIsLost | NachOS-4.0/code/threads/synch.cc:75-117 | value = initial + Vs - Ps, and waiters go with at least as many woken threads as the value, so that a positive value never meets waiters with nobody woken |
| ReadyOrder.ReadyListIsFifo | NachOS-4.0/code/threads/scheduler.cc:56-84 | in every run, by the changes of thread status alone: the threads that got the CPU, then the ready list, are the threads in the order they became ready |
| ReadyOrder.SemaphoreIsFifo | NachOS-4.0/code/threads/synch.cc:75-117 | the threads that Vs of a semaphore made ready, then its queue, are the threads in the order they blocked in its P |
| ReadyOrder.StepMoves | NachOS-4.0/code/threads/thread.cc:91-255 | each operation makes at most one thread ready, running or blocked, and moves the lists accordingly |
| Kernels.Kernel.constructor | NachOS-4.0/code/threads/scheduler.cc:31-36 | the main thread runs, nothing is ready |
| Kernels.Kernel.ReadyToRun | NachOS-4.0/code/threads/scheduler.cc:56-64 | at the end of the ready list, which it was not on |
| Kernels.Kernel.FindNextToRun | NachOS-4.0/code/threads/scheduler.cc:74-84 | the front of the ready list, removed, or NULL |
| Kernels.Kernel.Run | NachOS-4.0/code/threads/scheduler.cc:103-131 | the next thread is current and running, a finishing one is marked for deletion |
| Kernels.Kernel.CheckToBeDestroyed | NachOS-4.0/code/threads/scheduler.cc:160-167 | deletes the marked thread, which is not the current one |
| Kernels.Kernel.Fork | NachOS-4.0/code/threads/thread.cc:91-106 | the new thread is ready, at the end of the list |
| Kernels.Kernel.Yield | NachOS-4.0/code/threads/thread.cc:201-217 | the next ready thread gets the CPU and the caller goes to the end of the list; nothing if nobody is ready |
| Kernels.Kernel.Finish | NachOS-4.0/code/threads/thread.cc:171-181 | the thread is blocked in its last sleep |
| Kernels.Kernel.SleepRound | NachOS-4.0/code/threads/thread.cc:239-255 | the front of the ready list gets the CPU, and a finishing thread is marked; nothing if nobody is ready |
| Kernels.Kernel.P | NachOS-4.0/code/threads/synch.cc:75-93 | takes the value, or joins the end of the queue and sleeps |
| Kernels.Kernel.V | NachOS-4.0/code/threads/synch.cc:102-117 | the first waiter goes to the end of the ready list, and the value goes up by one |
| Kernels.Kernel.Continue | NachOS-4.0/code/threads/scheduler.cc:133-150 | back from SWITCH: the finished thread is deleted, and a thread inside P tests the value again |
| Kernels.RunKernel | NachOS-4.0/code/threads/thread.cc:91-255 | the kernel's variables, over any history, follow the machine of the theorems, with no ASSERT violated |
| SynchLists.StepIsSafe | NachOS-4.0/code/threads/synch.cc:181-297 | every statement of every thread, of the list or of any client that holds the lock, keeps the invariants of lock, condition and list |
| SynchLists.RunIsSafe | NachOS-4.0/code/threads/synchlist.cc:53-81 | so every reachable state is safe, for any number of threads, any clients and any interleaving |
| SynchLists.MutualExclusion | NachOS-4.0/code/threads/synch.cc:181-203 | lock value plus threads between P's decrement and V's increment is one; lockHolder is NULL or names that thread |
| SynchLists.NoSignalIsLost | NachOS-4.0/code/threads/synch.cc:244-297 | for clients that wait, signal and broadcast as they like under the lock: waiters are taken in order of entry, each once and with exactly one V; a thread past its P had it; the semaphore is not deleted while queued or while its signaller is inside V |
| Signals.SignalWakesOne | NachOS-4.0/code/threads/synch.cc:273-283 | in every run a Signal returns after one step of its thread if nobody waits and after three if somebody does, and has then taken off the queue and woken exactly the first waiter |
| Signals.BroadcastWakesAll | NachOS-4.0/code/threads/synch.cc:292-297 | a Broadcast with n waiters returns after 3n+1 steps of its thread, the queue then empty and every waiter that ever entered woken |
| Signals.WaitReturnsWhenWoken | NachOS-4.0/code/threads/synch.cc:244-256 | a client that waits is the next waiter to enter, and is back in its own code, holding the lock, only once that waiter has been woken; its semaphore is deleted then |
| Signals.AppendSignalsOne | NachOS-4.0/code/threads/synchlist.cc:53-60 | Append adds its item alone and wakes exactly the first waiter, if any, before it releases the lock |
| SynchLists.ListIsFifo | NachOS-4.0/code/threads/synchlist.cc:53-81 | removed items followed by the list are the appended items; RemoveFront never finds the list empty after its test and returns what it removed |
| ListCalls.ItemsAreAppended | NachOS-4.0/code/threads/synchlist.cc:53-60 | the items ever appended are those of the calls of Append, one for one; a call's item is among them unless its thread is still bringing it |
| SynchLists.NoWakeupIsLost | NachOS-4.0/code/threads/synchlist.cc:53-81 | while removers, and only they, wait: items number at most the removers signalled and not resumed, but for one that the owner of the lock is about to signal or look at |
| PostOffices.PackRoundTrip | NachOS-4.0/code/network/post.cc:312-318 | headers and data survive being packed into a padded buffer |
| PostOffices.SortingMail | NachOS-4.0/code/network/post.cc:199-215 | the mail the worker decodes is the one that was sent, and its ASSERTs on box and length hold |
| PostOffices.ReceiveKeeps | NachOS-4.0/code/machine/network.cc:60-87 | the packet read in is well formed and for this host (the ASSERT), and the inbox was empty |
| PostOffices.StepKeepsInv | NachOS-4.0/code/network/post.cc:190-343 | every step of senders, wire, worker and readers keeps the invariant |
| PostOffices.InboxIsNeverOverwritten | NachOS-4.0/code/machine/network.cc:60-103 | messageAvailable plus a worker between P and Receive equals inbox full; sendBusy is FALSE at every send |
| PostOffices.MailArrivesInOrder | NachOS-4.0/code/network/post.cc:190-343 | what is taken from a box carries letters sent to that box of this host, with their data byte for byte and the sender's name, in the order the letters were given to the network, under any loss and interleaving |
| PostOffices.MailFromOneSender | NachOS-4.0/code/network/post.cc:299-343 | of one machine's letters to one box, what is taken out carries a subsequence |
| PostOffices.LettersAreSent | NachOS-4.0/code/network/post.cc:299-332 | each letter the network got is that of one call of Send, a thread's in its order; each letter sent to this host gets there, unless its thread is still on the way |
| PostOffices.TakenWasSent | NachOS-4.0/code/network/post.cc:312-318 | each mail taken was sent to this host by a call on the machine it names, with these headers and this data |
| PostOffices.NothingElseIsLost | NachOS-4.0/code/machine/network.cc:60-182 | letters given to the network are in a box, with the worker, in the inbox or on the wire, but for as many as were lost; without losses the mails in boxes carry the first letters one for one |
| Lists.InsertedSorted | NachOS-4.0/code/lib/list.cc:234-260 | sorted insertion keeps the list sorted and puts the item after its equals |
| Lists.List.constructor | NachOS-4.0/code/lib/list.cc:43-47 | an empty list |
| Lists.List.IsInList | NachOS-4.0/code/lib/list.cc:187-197 | membership |
| Lists.List.Append | NachOS-4.0/code/lib/list.cc:75-91 | the items, then the new one |
| Lists.List.Prepend | NachOS-4.0/code/lib/list.cc:98-114 | the new item, then the others |
| Lists.List.RemoveFront | NachOS-4.0/code/lib/list.cc:125-145 | the first item is gone and returned |
| Lists.List.Remove | NachOS-4.0/code/lib/list.cc:151-180 | that item is gone, the others keep their order |
| Lists.List.Insert | NachOS-4.0/code/lib/list.cc:234-260 | the relinked nodes hold the sorted insertion |
| Lists.List.FindPlace | NachOS-4.0/code/lib/list.cc:247-255 | the loop stops at the last element that the item does not precede |
| Lists.List.FindBefore | NachOS-4.0/code/lib/list.cc:164-176 | the loop stops at the item, one behind prev |
| HashTables.HashTable.constructor | NachOS-4.0/code/lib/hash.cc:28-35 | an empty table |
| HashTables.HashTable.Insert | NachOS-4.0/code/lib/hash.cc:109-127 | the map with the new pair; every item in its bucket, at most three items a bucket on average |
| HashTables.HashTable.ReHash | NachOS-4.0/code/lib/hash.cc:135-154 | four times the buckets, the same map |
| HashTables.HashTable.FindInBucket | NachOS-4.0/code/lib/hash.cc:167-182 | the item with that key if it hashes there |
| HashTables.HashTable.Find | NachOS-4.0/code/lib/hash.cc:192-198 | the map's answer |
| HashTables.HashTable.Remove | NachOS-4.0/code/lib/hash.cc:209-223 | the map without the key; the item returned |
| HashTables.HashTable.FindNextFullBucket | NachOS-4.0/code/lib/hash.cc:250-259 | skips only empty buckets |
| HashTables.HashIterator.constructor | NachOS-4.0/code/lib/hash.cc:332-341 | nothing visited yet |
| HashTables.HashIterator.Next | NachOS-4.0/code/lib/hash.cc:348-360 | one more item visited, the one shown |
| HashTables.VisitAll | NachOS-4.0/code/lib/hash.cc:332-360 | an iteration visits each item exactly once |

## Left out

- OpenFiles.OpenFile.ReadAt: asks for a position that is not negative, because the code computes sector numbers from it unchecked; the same holds for WriteAt.
- FileHeaders.FileHeader.Allocate: asks for a size up to 3840 bytes, because the code indexes its 30 direct sectors without a check; Create inherits this.
- FileSystems.FileSystem.Mount: asks that sectors 0 and 1 hold headers of the right sizes, as the code trusts the disk; the creation of stdin and stdout, the table of open files and `Open(name, type)` are not part of this model.
- Simulator.Machine.ReadMem: reads a byte as unsigned, where the host's `char` may be signed; `Masks.CharSignUnseen` proves that no instruction can tell.
- Simulator.Machine.OneInstruction: takes what an arithmetic arm computes from the functions of `Isa`, of which `Instructions` proves the arithmetic, instead of writing it out again; the loops, tables, memory, pending loads and byte merges are those of the code.
- OpenFiles.SynchDisk.ReadSector: is the array of sectors itself, without lock and interrupt, and so is WriteSector; `SynchDisks.DiskIsAnArray` proves that the protocol behaves as this array.
- SynchLists.NoWakeupIsLost: asks that no other client waits on the list's condition, which is private to the list and reached by its own calls alone.
- Padding of structures on disk is written as zeros, and the words of a header past its last sector are whatever the new header object holds; nothing relies on them.
- PostOffices.MailArrivesInOrder: assumes that letters name a box that exists at the receiver, as the code asserts, and a socket that keeps order; mailboxes are queues by the theorems on `SynchLists`.
- SynchLists.ListIsFifo: allows an item to be appended twice, where the list's own ASSERT would stop the program; items are names of pointers.
- Clocks.Interrupt.OneTick: reports that a handler asked for a context switch and leaves the switch itself to `Scheduling`.
- HashTables.HashTable.Insert: buckets are sequences; that linked lists behave as sequences is proved in `Lists`.
- Scheduling.Execute: saving and restoring user registers and address spaces at a switch, stacks and the SWITCH routine are not part of this model; a switch changes the current thread.
- Locks, conditions, the synchronised list, the disk protocol and the post office are modelled on values, because their operations are interrupted half way; update in place is modelled for the scheduler, threads and semaphores in `Kernels`.
- `PersistentBitmap`, a subclass of `Bitmap`, is the two methods FetchBitmap and WriteBackBitmap; `SortedList` is the method `Lists.List.Insert`.
- Instructions.ExecDivide: says nothing of the most negative integer divided by -1, which is undefined on the host and has one fixed result here.
- Instructions.ExecJump: asks of J and JAL for the 26-bit field that Decode gives them.
- LWL, LWR, SWL and SWR are modelled in their SIM_FIX form only.
- Console, timer device, debugger, statistics, system calls, address spaces, program loading and coff2noff are not part of this model: host I/O or file copying.
- The UNIX stub of the file system is left out: it only forwards to the host.
- Crash consistency of the file system is not claimed, as the code disclaims it; overflow of tick counters is not modelled.
- Liveness is claimed only as far as counting steps goes: a Signal or Broadcast returns within so many steps of its thread, and ready threads run in order; that a thread is given those steps is not claimed.
