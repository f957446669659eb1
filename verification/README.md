# ARAnyM chips in Dafny

ARAnyM emulates an Atari Falcon. This project models the parts of it whose meaning can be stated independently of the
code, and proves what that meaning promises:

- the DSP56001: 56-bit accumulators in three limbs (`Accumulator`, `ConditionCodes`, `DataAlu`), repeated DIV
  (`Division`) and NORM (`Normalization`), modulo and bit-reversed addressing (`AddressUnit`, `BitReverse`), DO and REP
  loops (`HardwareLoops`), and the host port between DSP and CPU (`HostPort`);
- the ATA disk and the ATAPI CD-ROM drive (`AtaDisk`, `Atapi`);
- the blitter (`Blitter`), with `Pixels` for words seen as rows of pixels;
- MD5 (`Md5`, `Md5Transform`);
- the screen: dirty tiles and their redrawing (`DirtyRects`), bitplanes to chunky pixels (`Chunky`);
- the keyboard controller's packet queue (`Ikbd`).

`Arith` and `Bytes` hold what the others share. Each chip that the program updates in place is a class whose methods are
proved against functions on values; the theorems about whole runs are lemmas about those functions. Widths and
wrap-around are written out on unbounded integers, except in `Blitter`, `Chunky`, `Pixels` and the MD5 transform, which
use bit-vectors.

`dafny verify dfyconfig.toml` checks everything.

## Where the code does not do what one would expect

For each of these one lemma says exactly when the code is right and another shows an input where it is not.

- A modulo address update compares in signed 16-bit arithmetic, so a buffer that reaches 0x8000 goes wrong
  (`AddressUnit.ModuloExact`, `AddressUnit.ModuloRunExact`; `AddressUnit.HighBufferIsLeft`).
- A jump by whole blocks of a modulo buffer, for which the update has loops, is afterwards corrected by one buffer
  length (`AddressUnit.BlockJumpExact`; `AddressUnit.BlockJumpIsCorrected`).
- A bit-reversed update looks only at the lowest set bit of Nn (`BitReverse.BitReverseExact`;
  `BitReverse.SecondBitIsIgnored`).
- Nested DO loops that end at the same address fall through (`HardwareLoops.LoopEndsExactly`;
  `HardwareLoops.SharedEndFallsThrough`).
- The DSP fetches a word after the flags have moved, so a second word that stands behind it is delivered in its place
  (`HostPort.ReadDeliversWaitingWord`); a host that waits for TXDE instead of TRDY gets there
  (`HostPort.TxdeDeliversExactly`; `HostPort.TxdeHostLosesWord`).
- A mouse packet merged while the Y axis is reversed has its stored delta negated again (`Ikbd.PostedMotion`;
  `Ikbd.ReversedMergeLosesMotion`); a whole motion is lost in part exactly when one of its packets is so merged
  (`Ikbd.Queue.SendMouseMotion`; `Ikbd.LongUpwardsIsSpoiled`).
- A CHS address beyond the end of a track does not step to the next sector (`AtaDisk.ChsStepExact`;
  `AtaDisk.PastTrackStepsBack`).
- A long access to a byte-swapped image delivers the two words of a long in the other order
  (`AtaDisk.LongIsTwoWords`; `AtaDisk.SwappedLong`).
- A READ that starts beyond the end of a disc, or whose end wraps around, is not cut to the disc
  (`Atapi.ClampedExact`; `Atapi.BeyondDiscIsNotCut`).
- The length of a READ is a C int of bytes, so from 2^20 blocks on the host is given something else; and a host that
  asks for bursts of less than two bytes is answered without end (`Atapi.ReadAnswers`, `Atapi.GivenExact`;
  `Atapi.LongAnswerIsCut`).
- Outside Windows the file position of a block is a C int too, so blocks from 2^20 on are found only by reading on, and
  those from 2^21 on are others (`Atapi.FoundExact`, `Atapi.FetchesExact`; `Atapi.FarBlockIsAnother`).
- Long accesses miscount a burst that is no multiple of four bytes (`Atapi.LongReadsExact`; `Atapi.LongsMiscount`).

Remarks on reading the code:

- Where a signed C number overflows (the file position and the next block number of the CD-ROM), which C leaves
  undefined, it is taken to wrap around; a seek to a negative position fails and leaves the file where it was.
- The comment above MD5Final calls the bit count MSB-first; the code stores the low word first, as RFC 1321 asks, and
  the model follows the code.
- The second half of the blitter's test for the last source read compares a negative number with an unsigned mask and
  never holds; the NFSR bit alone decides.
- The size given to computeSum is cut to 32 bits on its way to MD5Update; `Md5.ComputeSum` says so.

## Model

| member | source | states |
|---|---|---|
| `Accumulator.Add56` | src/dsp_cpu.c:3615-3657 | Limb addition is addition modulo 2^56 of the signed values; V and L exactly when the exact sum leaves the signed 56-bit range, C exactly when the unsigned sum carries out. |
| `Accumulator.AddFlags` | src/dsp_cpu.c:3615-3657 | The sign-bit and limb comparisons that make the flags mean overflow and carry of the exact sum. |
| `Accumulator.Sub56` | src/dsp_cpu.c:3659-3700 | The same for subtraction, with C the borrow. |
| `Accumulator.SubFlags` | src/dsp_cpu.c:3659-3700 | The same for the flags of a subtraction. |
| `Accumulator.Asl56` | src/dsp_cpu.c:3568-3590 | Doubling modulo 2^56; V and L exactly when twice the value does not fit, C the old sign. |
| `Accumulator.Asr56` | src/dsp_cpu.c:3592-3613 | Floor of half the signed value; C the bit shifted out. |
| `Accumulator.Mul56` | src/dsp_cpu.c:3702-3764 | From 12-bit partial products, exactly twice the signed 24-bit product, for all operands, -1 times -1 included. |
| `Accumulator.ProductLimbs` | src/dsp_cpu.c:3718-3750 | The four partial products, split at 12 bits, add up to the product, and none overflows its limb. |
| `Accumulator.Rnd56` | src/dsp_cpu.c:3766-3806 | In each scaling mode, round-half-even to a multiple of 2^24, 2^25 or 2^23, modulo 2^56. |
| `Accumulator.RoundHalfEvenUnique` | src/dsp_cpu.c:3766-3806 | The rounding function is the only value that is a nearest multiple, and the even one on a tie. |
| `Accumulator.RoundWrapped` | src/dsp_cpu.c:3766-3806 | Adding half a unit modulo 2^56 and clearing bits is rounding, also when the addition wraps. |
| `Accumulator.KeptIsTruncated` | src/dsp_cpu.c:3772-3805 | The bits cleared in the limbs are the truncation of the signed value, ties to even. |
| `ConditionCodes.ExtensionBitsMean` | src/dsp_cpu.c:1028-1059 | The bits tested for E say that the value leaves the fraction range of the scaling mode. |
| `ConditionCodes.LeadingBitsMean` | src/dsp_cpu.c:1061-1085 | The bits tested for U are the two leading fraction bits of the signed value. |
| `ConditionCodes.SignAndZero` | src/dsp_cpu.c:1087-1108 | The tests for N and Z mean negative and zero. |
| `ConditionCodes.FlagsMean` | src/dsp_cpu.c:1028-1108 | E exactly when the value leaves [-2^47, 2^47), [-2^48, 2^48) scaling down, [-2^46, 2^46) scaling up; then, if not, U exactly when its double stays inside; N and Z; the other bits as they were. |
| `DataAlu.Alu.AccumulatorsAre` | src/dsp_cpu.c:1941-1943 | A is made of A2, A1 and A0, B of B2, B1 and B0. |
| `DataAlu.Alu.CcrUpdate` | src/dsp_cpu.c:1028-1108 | E, U, N and Z describe the accumulator. |
| `DataAlu.Alu.Divisor` | src/dsp_cpu.c:1925-1931 | X0, Y0, X1 or Y1 for the operand codes 0 to 3. |
| `DataAlu.Alu.Div` | src/dsp_cpu.c:1920-1965 | One DIV on the registers is one step of non-restoring division on the signed values; carry, V and L as specified, all other registers unchanged. |
| `Division.DividedStep` | src/dsp_cpu.c:1920-1965 | A step keeps the equation between dividend, divisor, quotient bits and partial remainder. |
| `Division.RepeatedDivDivides` | src/dsp_cpu.c:1920-1965 | For every divisor S of 24 bits and every dividend -m <= D < m, m the magnitude of S: n repeated DIVs, n up to 24, leave floor(2^(n-1) D / m) in the low n bits, 2^(n-1) more for D < 0, and twice the remainder minus m above, with 2^n D = m (2Q + 1) + P, -m <= P < m, and carry set exactly when P is not negative. |
| `DataAlu.Alu.RepeatDiv` | src/dsp_cpu.c:1920-1965 | The same for the registers: DIV as REP repeats it, from a clear carry; other registers unchanged. |
| `DataAlu.Alu.Norm` | src/dsp_cpu.c:2685-2726 | One NORM on the registers is one normalization step on the signed value, the address register and the flags. |
| `Normalization.AgreeingStep` | src/dsp_cpu.c:2685-2726 | With flags in agreement, in each scaling mode but the reserved one, a step doubles, halves or keeps the value, counts it in Rn, keeps the agreement, never sets V. |
| `Normalization.RepeatedNormNormalizes` | src/dsp_cpu.c:2685-2726 | From any nonzero accumulator with flags in agreement: at most 47 exact doublings (48, 46 in the scaling modes) with Rn falling, or at most 8 (7, 9) halvings with Rn rising; E and U clear from exactly then on; V never set, L unchanged. |
| `Normalization.RepeatedNormOfZero` | src/dsp_cpu.c:2685-2726 | A zero accumulator and Rn stay as they are. |
| `Normalization.NormalizesAfterOne` | src/dsp_cpu.c:2685-2726 | From any flags, one NORM makes them agree and the rest of the run normalizes what it has left. |
| `DataAlu.Alu.RepeatNorm` | src/dsp_cpu.c:2685-2726 | The same for the registers: NORM as REP repeats it; other registers unchanged. |
| `DataAlu.Alu.Product` | src/dsp_cpu.c:551-561 | Plus or minus twice the product of the two registers that each of the eight operand codes names. |
| `DataAlu.Alu.Mac` | src/dsp_cpu.c:4325-4405 | MAC and MACR: accumulator plus that product modulo 2^56, for MACR the nearest multiple of 2^24, 2^25 or 2^23 by the scaling mode, of two the even one; V exactly when the exact sum does not fit; other registers unchanged. |
| `DataAlu.Alu.LoadProduct` | src/dsp_cpu.c:4330-4344 | The signed product that the instruction names, negated on demand without wrapping. |
| `AddressUnit.ModuloExact` | src/dsp_cpu.c:1410-1450 | From inside its buffer and with a modifier in [-m, m], the signed-comparison update is the circular step exactly when the modifier is not m and the move stays below 0x8000, or the buffer is 0x8000 long, or the buffer is above 0x8000 and the move goes below it. |
| `AddressUnit.UncorrectedExact` | src/dsp_cpu.c:1429-1449 | For every register and modifier, the update only adds the modifier exactly when that leads into the buffer or the modifier is m. |
| `AddressUnit.BlockJumpExact` | src/dsp_cpu.c:1429-1449 | A jump by a multiple of the block that holds the buffer lands at the same place of another block exactly when the modifier is m. |
| `AddressUnit.BlockJumpIsCorrected` | src/dsp_cpu.c:1429-1449 | A jump by one block that leads next to where it started. |
| `AddressUnit.HighBufferIsLeft` | src/dsp_cpu.c:1410-1450 | A buffer above 0x8000 that an update leaves. |
| `AddressUnit.ModuloRunExact` | src/dsp_cpu.c:1410-1450 | Any sequence of updates with modifiers in [-m, m] is, after every one of them, where the sum of the modifiers takes it modulo m, exactly when every step is right in that sense from where the sum before it leads. |
| `AddressUnit.RightRun` | src/dsp_cpu.c:1410-1450 | Any sequence of right steps stays in the buffer and ends at L + (R0 - L + sum) mod m. |
| `AddressUnit.ModuloRunIsCircular` | src/dsp_cpu.c:1410-1450 | This holds for every sequence with modifiers in [-m, m) in a buffer that ends m below 0x8000. |
| `AddressUnit.Aligned` | src/dsp_cpu.c:1415-1424 | The block size found by the doubling loop is the least power of two that holds the buffer, and the lower bound a multiple of it. |
| `AddressUnit.AddressRegisters.UpdateRnModulo` | src/dsp_cpu.c:1410-1450 | The loops and corrections compute that update, other registers unchanged. |
| `AddressUnit.AddressRegisters.UpdateRnBitReverse` | src/dsp_cpu.c:1369-1408 | The bit-testing loops compute the bit-reversed increment of the field below the lowest set bit of Nn. |
| `AddressUnit.AddressRegisters.UpdateRn` | src/dsp_cpu.c:1347-1367 | Linear, bit-reversed, modulo or no update, by the value of Mn. |
| `BitReverse.RevTwice` | src/dsp_cpu.c:1383-1405 | Reversing k bits twice gives them back. |
| `BitReverse.RevOfPow2` | src/dsp_cpu.c:1383-1405 | A single bit moves to its mirror position. |
| `BitReverse.BitReversedIsReverseCarry` | src/dsp_cpu.c:1369-1408 | With Nn = 2^(k-1) the update is reverse-carry addition of Nn, for every register width. |
| `BitReverse.BitReverseExact` | src/dsp_cpu.c:1369-1408 | For 16 bits it is reverse-carry addition of Nn exactly when Nn is a power of two. |
| `BitReverse.SecondBitIsIgnored` | src/dsp_cpu.c:1369-1408 | An update with Nn = 3 that is not reverse-carry addition. |
| `BitReverse.RunAt` | src/dsp_cpu.c:1369-1408 | After j updates the low field is the reversed sum of its reversed start and j; the bits above stay. |
| `BitReverse.BlockVisitedOnce` | src/dsp_cpu.c:1369-1408 | From a block base, step j is at base + rev(j), and each address of the block is visited at exactly one step. |
| `HardwareLoops.ProgramController.StackPush` | src/dsp_cpu.c:1305-1322 | One entry more on the stack. |
| `HardwareLoops.ProgramController.StackPop` | src/dsp_cpu.c:1324-1341 | The top entry off the stack, or nothing when it is empty. |
| `HardwareLoops.ProgramController.UpdatePc` | src/dsp_cpu.c:694-753 | The REP countdown and the end-of-loop test as a function of the old state. |
| `HardwareLoops.ProgramController.ExecuteDo` | src/dsp_cpu.c:1976-2041 | DO pushes LA, LC, the body address and SR, and sets the loop up with a count read at run time. |
| `HardwareLoops.ProgramController.ExecuteRep` | src/dsp_cpu.c:2759-2813 | REP saves LC and reads the repeat count. |
| `HardwareLoops.ProgramController.Execute` | src/dsp_cpu.c:694-753 | One instruction and its post-processing is one step of the machine. |
| `HardwareLoops.RepeatRuns` | src/dsp_cpu.c:696-722 | REP performs its instruction exactly its count of times, 65536 for 0, and leaves LC as it was. |
| `HardwareLoops.LoopRuns` | src/dsp_cpu.c:729-752 | DO performs its body exactly its count of times, 65536 for 0, and restores LA, LC, LF, status and stack. |
| `HardwareLoops.LoopRunsCount` | src/dsp_cpu.c:1976-2041 | With an operand that reads as n and leaves the machine in some state, DO performs its body n mod 65536 times, 65536 for 0, from that state, and brings the status bits back. |
| `HardwareLoops.RepeatRunsCount` | src/dsp_cpu.c:2759-2813 | The same for REP and its instruction. |
| `HardwareLoops.LoopInLoop` | src/dsp_cpu.c:694-753 | The program DO n, DO m, e, f at its seven addresses: every pass reads m anew, performs e that often, restores the status bits and performs f. |
| `HardwareLoops.LeftAsFound` | src/dsp_cpu.c:738-743 | The two pops at the end of a loop undo the two pushes of DO. |
| `HardwareLoops.StructuredProgramRuns` | src/dsp_cpu.c:694-753 | Any program of nested DO loops with distinct ends, REPs and plain instructions computes what it means, every count read from the machine when its loop is entered, and leaves loop registers and stack as they were. |
| `HardwareLoops.SharedEndFallsThrough` | src/dsp_cpu.c:729-752 | When the body ends with another loop, the outer loop is left on the stack after a single pass. |
| `HardwareLoops.LoopEndsExactly` | src/dsp_cpu.c:729-752 | A loop reaches its end with the stack as it was, its body performed its count of times, exactly when the body does not end with another loop. |
| `HostPort.AccessesKeepTrdy` | src/dsp_core.c:296-404 | Every access of either side keeps TRDY equal to TXDE and not HRDF. |
| `HostPort.ReadDeliversWaitingWord` | src/dsp_core.c:364-373 | A read of HRX delivers the word that was waiting exactly when no second word stood behind it, or the two are equal. |
| `HostPort.ToHostStepKeeps` | src/dsp_core.c:308-404 | Every step of either side keeps: sent = received + words in flight, and a sleeping DSP with HTDE set has its semaphore up. |
| `HostPort.ToHostDelivers` | src/dsp_core.c:308-426 | In every interleaving the host receives a prefix of the words sent, at most two are on the way, and no wake-up is lost. |
| `HostPort.BytesComeHighFirst` | src/dsp_core.c:308-333 | RXH, RXM and RXL hold the top, middle and low byte of the word that the DSP wrote. |
| `HostPort.ToDspStepKeeps` | src/dsp_core.c:335-490 | The same towards the DSP, with HRDF and one word. |
| `HostPort.ToDspDelivers` | src/dsp_core.c:335-490 | In every interleaving with a host that waits for TRDY the DSP receives a prefix of the words sent, at most one is on the way, and no wake-up is lost. |
| `HostPort.WordArrives` | src/dsp_core.c:335-490 | The bytes written to TXH, TXM and TXL are the top, middle and low byte of the word that the DSP reads. |
| `HostPort.TxdeDeliversExactly` | src/dsp_core.c:335-490 | In every interleaving with a host that waits for TXDE the DSP has received a prefix of the words sent, with at most two on the way, exactly when it never read HRX while a second, different word stood behind the first. |
| `HostPort.TxdeHostLosesWord` | src/dsp_core.c:335-373 | With a host that waits for TXDE there is an interleaving in which the DSP receives the second of two words and never the first. |
| `HostPort.Registers.Dsp2Host` | src/dsp_core.c:308-333 | A transfer towards the host happens when both sides are ready, flags and bytes as modelled. |
| `HostPort.Registers.Host2Dsp` | src/dsp_core.c:335-362 | The same towards the DSP. |
| `HostPort.Registers.ReadHost` | src/dsp_core.c:408-426 | A read of a byte register by the host, with the end of a word on the low byte. |
| `HostPort.Registers.WriteHost` | src/dsp_core.c:428-490 | A write of a byte register by the host, with the end of a word on the low byte. |
| `HostPort.Registers.ReadHrx` | src/dsp_cpu.c:1176-1187 | The DSP's read of HRX. |
| `HostPort.Registers.WriteHtx` | src/dsp_cpu.c:1218-1225 | The DSP's write of HTX. |
| `AtaDisk.LbaStep` | src/ata.cpp:2148-2154 | In LBA mode the address registers step to the next sector exactly below the 28-bit limit. |
| `AtaDisk.ChsStep` | src/ata.cpp:2155-2168 | In CHS mode a proper address steps to a proper address, the next sector. |
| `AtaDisk.ChsStepExact` | src/ata.cpp:2155-2168 | Exactly the addresses inside or at the end of a proper track, not at the end of the disk, step to the next sector. |
| `AtaDisk.PastTrackStepsBack` | src/ata.cpp:2155-2168 | An address beyond its track that steps back. |
| `AtaDisk.ValueOfStored` | src/ata.cpp:380-393 | A value written and read with the same width comes back, byte-swapped image or not. |
| `AtaDisk.LongIsTwoWords` | src/ata.cpp:385-393 | A long access is two word accesses exactly when the image is not byte-swapped or the words are equal. |
| `AtaDisk.SwappedLong` | src/ata.cpp:385-393 | A long of a byte-swapped image with its words exchanged. |
| `AtaDisk.ReadSectors` | src/ata.cpp:1588-1638 | A read of n sectors, 256 for a count of 0, that stays on the disk and on sectors the image file answers for delivers exactly their values in order, in 512 n bytes of accesses, DRQ up until the last and down after it, no error, disk unchanged, in both modes and widths. |
| `AtaDisk.LogicalIs` | src/ata.cpp:2116-2143 | The logical sector of a cylinder, head and sector, and of the registers in LBA mode. |
| `AtaDisk.ReadWordBytes` | src/ata.cpp:395-459 | Word i of sector j of a read run is bytes 2 i and 2 i + 1 of that sector, lowest first, or highest first from a swapped image. |
| `AtaDisk.ReadLongBytes` | src/ata.cpp:395-459 | The same for longs, with the first two bytes in the high word, or the low one from a swapped image. |
| `AtaDisk.ReadFails` | src/ata.cpp:1588-1638 | A READ ends with ERR up and DRQ down exactly when it is refused, lies beyond the end or the image file fails; otherwise DRQ is up. |
| `AtaDisk.NextReadFails` | src/ata.cpp:420-459 | The same for every next sector of a run. |
| `AtaDisk.ReadRun` | src/ata.cpp:358-459 | The data port delivers the sectors of a run one after the other. |
| `AtaDisk.DrqHolds` | src/ata.cpp:395-459 | DRQ stays up before every access of a run. |
| `AtaDisk.WriteSectors` | src/ata.cpp:816-911 | A write of n such sectors writes exactly these sectors and no other, and ends without error. |
| `AtaDisk.WriteWordBytes` | src/ata.cpp:816-911 | Word i of sector j of a write run becomes bytes 2 i and 2 i + 1 of that sector, in the same order as for reads. |
| `AtaDisk.WriteFails` | src/ata.cpp:855-900 | A full buffer for a sector beyond the end, or on which the image file fails, leaves the disk alone, ERR up and DRQ down. |
| `AtaDisk.WriteThenRead` | src/ata.cpp:816-911 | Writing a run and reading it with the same width and registers gives the data back. |
| `AtaDisk.Drive.constructor` | src/ata.cpp:176-200 | A drive for a geometry and an image, ready for commands. |
| `AtaDisk.Drive.CalculateLogicalAddress` | src/ata.cpp:2116-2141 | The 32-bit logical sector, and whether it is on the disk. |
| `AtaDisk.Drive.IncrementAddress` | src/ata.cpp:2144-2168 | The address registers and the sector count after a sector. |
| `AtaDisk.Drive.StartRead` | src/ata.cpp:1588-1638 | The command as a function of the old state, with its refusals and failing file accesses. |
| `AtaDisk.Drive.ReadPort` | src/ata.cpp:348-459 | The value and the new state, next sector and abort included. |
| `AtaDisk.Drive.ReadWhileDrq` | src/ata.cpp:348-459 | A host that reads while DRQ is up gets the sectors it asked for, all of them and no more. |
| `AtaDisk.Drive.StartWrite` | src/ata.cpp:1640-1668 | The command as a function of the old state. |
| `AtaDisk.Drive.WritePort` | src/ata.cpp:814-911 | The new state, sector written and abort included. |
| `AtaDisk.Drive.CommandAborted` | src/ata.cpp:2737-2751 | No command, DRQ down, error up, buffer empty. |
| `Atapi.ClampedExact` | src/ata.cpp:1356-1358 | The request is cut to the disc exactly when it starts on it and its end does not wrap to a place on the disc. |
| `Atapi.BeyondDiscIsNotCut` | src/ata.cpp:1356-1388 | A request beyond the disc that becomes 2^32 - 1 blocks, of which 31 are given. |
| `Atapi.BurstSizeIs` | src/ata.cpp:2615-2659 | From any byte count of at least 2 the bursts are even, at least 2, and no longer than asked for. |
| `Atapi.LengthIs` | src/ata.cpp:1382-1383 | The length of n blocks as a C int, and what is left of it in the 16-bit byte count. |
| `Atapi.FoundExact` | src/cdrom.cpp:1312-1361 | The seek finds the right block exactly below 2^20 (2^31 with 64-bit positions), or where it fails and the file is there already. |
| `Atapi.FarBlockIsAnother` | src/cdrom.cpp:1356-1360 | Block 2^21 is read as block 0. |
| `Atapi.FetchesExact` | src/ata.cpp:509-516 | A run of fetches finds n blocks one after the other, and has them in the buffer, exactly when they are in reach of where the file is. |
| `Atapi.ReadKeepsSending` | src/ata.cpp:497-575 | An access keeps the invariant of an answer and delivers the next bytes of the blocks fetched, the first byte lowest. |
| `Atapi.Conservation` | src/ata.cpp:497-575 | In every state of an answer, total minus burst position is the blocks to come plus the rest of the buffer; bursts are even and within the limit; the command ends exactly when everything is delivered. |
| `Atapi.ReadStates` | src/ata.cpp:497-575 | The state that access k of a read of n < 2^20 blocks finds: the counts balance, DRQ up until the end, even bursts within the limit. |
| `Atapi.ReadDelivers` | src/ata.cpp:497-575 | Access k delivers the bytes of fetch p / 2048 at p mod 2048, each byte of a word or long at its place. |
| `Atapi.WordReads` | src/ata.cpp:497-575 | With word accesses the counts are right for every byte count of at least 2. |
| `Atapi.WordCounts` | src/ata.cpp:497-575 | For every number of blocks below 2^32 and every byte count, how many words the host is given before DRQ drops. |
| `Atapi.GivenExact` | src/ata.cpp:2615-2659 | These are the words of n blocks exactly when n is 0, or below 2^20 with a byte count of at least 2. |
| `Atapi.ReadExactly` | src/ata.cpp:1337-1388 | For every READ, the host is served exactly the blocks of the request that are on the disc, if and only if that many words are given and the blocks are in reach. |
| `Atapi.ReadAnswers` | src/ata.cpp:1337-1388 | For a start on the disc and an end below 2^32, the host gets exactly the words of the n = min(length, capacity - lba) blocks and then the end of the command without error, if and only if n is 0, or the byte count is at least 2, n is below 2^20 and the blocks are in reach. |
| `Atapi.LongAnswerIsCut` | src/ata.cpp:1382-1383 | A READ of 2^21 blocks that ends after one word. |
| `Atapi.ReadEndsAtOnce` | src/ata.cpp:1350-1366 | Without a disc a READ ends with an error, for no blocks without one. |
| `Atapi.LongsMiscount` | src/ata.cpp:529-545 | After a burst of 4 k + 2 bytes read by long accesses the count is wrong. |
| `Atapi.LongReadsExact` | src/ata.cpp:529-545 | With long accesses the count is right throughout exactly when the byte count is at least 2, the blocks are fewer than 2^20 and the burst size is a multiple of four. |
| `Atapi.Drive.InitSendCommand` | src/ata.cpp:2614-2659 | The start of an answer as a function of the byte count and the two lengths, of either sign, lazy or not. |
| `Atapi.Drive.StartRead` | src/ata.cpp:1337-1388 | READ with its refusal, its clamping, the empty request and the C ints it starts with. |
| `Atapi.Drive.ReadBlock` | src/cdrom.cpp:1312-1361 | Seek and read, with a seek that fails and the end of the file. |
| `Atapi.Drive.ReadPort` | src/ata.cpp:497-575 | The value and the new state of a data port read. |
| `Blitter.TruthIs` | src/blitter.cpp:239-306 | The bits of the operation number are its results for both bits set, source only, destination only, and neither. |
| `Blitter.LogicPixel` | src/blitter.cpp:239-306 | Each of the sixteen operations is, pixel by pixel, that truth table. |
| `Blitter.BlendPixel` | src/blitter.cpp:138-140 | New pixels where the end mask is one, old ones elsewhere. |
| `Blitter.SkewedPixel` | src/blitter.cpp:273-306 | The operand is the row of source pixels shifted right by the skew, in either direction. |
| `Blitter.DrawnPixel` | src/blitter.cpp:138-140 | Mask, truth table, skewed source and half-tone pattern together. |
| `Blitter.WordsDraw` | src/blitter.cpp:131-160 | The words of a line, their addresses, and the source words in the buffer, extra and missing reads included, when no word is drawn twice or before it is read. |
| `Blitter.BlitDraws` | src/blitter.cpp:129-166 | When no destination word is drawn twice, or before it is read as a source word, every word of every line is drawn from the memory before the blit, and nothing else changes. |
| `Blitter.BlitPixels` | src/blitter.cpp:114-167 | Every destination pixel of a blit, for every skew, mask, half-tone operation, logic operation, FXSR and NFSR. |
| `Blitter.TargetIs` | src/blitter.cpp:129-162 | The address of every word of every line in closed form. |
| `Blitter.OperandIs` | src/blitter.cpp:114-167 | The operand over every word: source words by their addresses in closed form, the skew, the half-tone line, and what FXSR and NFSR add and take away. |
| `Blitter.BlitAllDrawn` | src/blitter.cpp:114-167 | All pixels at once, by these closed forms: the first word of every line under end mask 1, the last of several under end mask 3, those between under end mask 2; everything else unchanged. |
| `Blitter.OnwardsApart` | src/blitter.cpp:129-162 | Regions that do not meet, with positive increments, are apart in the sense that this needs. |
| `Blitter.BlitCopies` | src/blitter.cpp:114-167 | A plain copy brings every word of the source rectangle to its place in the destination rectangle. |
| `Blitter.LinesAddresses` | src/blitter.cpp:161-162 | The 32-bit address registers after n lines in closed form, wrap-around included, whatever was drawn. |
| `Blitter.Offsets` | src/blitter.cpp:119-128 | The half-tone line of every line, up or down modulo 16. |
| `Blitter.ConfigOfConfigured` | src/blitter.cpp:571-582 | Every register content has its configuration. |
| `Blitter.Chip.PutWord` | src/blitter.cpp:138-140 | One destination word read, combined and written. |
| `Blitter.Chip.LastWord` | src/blitter.cpp:150-160 | The last word of a line, with or without a source read. |
| `Blitter.Chip.DrawLine` | src/blitter.cpp:131-160 | The words of a line in order. |
| `Blitter.Chip.Rows` | src/blitter.cpp:116-167 | All lines, 65536 for a count of 0, and a line count of 0 at the end. |
| `Blitter.Chip.DoBlit` | src/blitter.cpp:553-583 | A blit from the addresses last written: refused out of range; otherwise line count 0, address registers in closed form, and exactly the destination pixels drawn. |
| `Md5Transform.AuxiliaryFunctions` | src/md5.cpp:153-158 | The rewritten first and second auxiliary functions are those of RFC 1321. |
| `Md5Transform.HashWords` | src/md5.cpp:170-250 | The 64 steps on four registers are the four rounds of RFC 1321. |
| `Md5Transform.HashOfLetters` | src/md5.cpp:170-250 | The hash of a block of sixteen different words. |
| `Md5.SumOfNothing` | src/md5.cpp:60-147 | The digest of the empty message in appendix A.5 of RFC 1321. |
| `Md5.SumOfAbc` | src/md5.cpp:60-147 | The digest of "abc" there. |
| `Md5.SumOfLetters` | src/md5.cpp:60-147 | The digest of the letters and digits there, which takes two blocks. |
| `Md5.PaddedLength` | src/md5.cpp:123-136 | The padding is the least that leaves room for the length and completes a block. |
| `Md5.Counted` | src/md5.cpp:82-84 | The two-word counter adds modulo 2^64. |
| `Md5.BitLength` | src/md5.cpp:139-141 | The shifted counter words are the length in bits modulo 2^64. |
| `Md5.FoldAppend` | src/md5.cpp:98-105 | Hashing one more block extends the hash of the blocks before. |
| `Md5.Context.Update` | src/md5.cpp:73-109 | Any next chunk keeps the context: whole blocks hashed, the rest buffered, the length counted modulo 2^64. |
| `Md5.Context.Final` | src/md5.cpp:115-147 | The digest is that of the whole message by the one-shot definition; the context is cleared. |
| `Md5.ComputeSum` | src/md5.cpp:252-257 | The digest of the first size mod 2^32 bytes, which is the buffer below that size. |
| `Md5.SumOfChunks` | src/md5.cpp:73-147 | However a message is cut into chunks, the digest is that of the message. |
| `DirtyRects.TouchesMeansPixel` | src/dirty_rects.cpp:75-107 | A rectangle touches a 16 by 16 tile exactly when they share a pixel. |
| `DirtyRects.Area.ResizeDirty` | src/dirty_rects.cpp:43-68 | A new marker array in which everything is dirty. |
| `DirtyRects.Area.SetDirtyRect` | src/dirty_rects.cpp:75-107 | Exactly the tiles touched by the rectangles since the last clear are marked, and the bounds hold their pixels. |
| `DirtyRects.Area.SetDirtyLine` | src/dirty_rects.cpp:109-130 | The same for the box of a line. |
| `DirtyRects.Area.ClearDirtyRects` | src/dirty_rects.cpp:132-142 | No tile is marked and the bounds are empty. |
| `DirtyRects.Area.HasDirtyRect` | src/dirty_rects.cpp:144-148 | True exactly when something has been dirtied. |
| `DirtyRects.Area.RefreshTile` | src/hostscreen.cpp:1047-1078 | One tile extends the open run, or ends it and sends its rectangle. |
| `DirtyRects.Area.RunsDisjoint` | src/hostscreen.cpp:1036-1079 | The rectangles of the runs are disjoint. |
| `DirtyRects.Area.RunsCover` | src/hostscreen.cpp:1036-1079 | They hold exactly the pixels on the screen in tiles that were touched. |
| `DirtyRects.Area.RefreshRows` | src/hostscreen.cpp:1036-1079 | The vector has room, and its rectangles redraw exactly the dirty tiles. |
| `DirtyRects.Area.RefreshScreen` | src/hostscreen.cpp:1015-1089 | Disjoint rectangles for exactly the dirty tiles, or one box that holds every dirtied pixel and whose edges are those of dirtied rectangles, left and top rounded down to 16 pixels; then nothing is dirty. |
| `Chunky.ScrolledPixel` | src/hostscreen.cpp:1158-1167 | A plane word scrolled left shows the pixels of its own and its next word. |
| `Chunky.Transpose` | src/hostscreen.cpp:1192-1279 | The exchange network gives each of sixteen pixels the colour that its bits in eight planes spell. |
| `Chunky.BitplaneToChunky` | src/hostscreen.cpp:1142-1281 | Bit p of the colour of pixel i is pixel i + shift of plane p, and zero in planes beyond the 8, 4, 2 or 1 of the mode, for every depth and scroll. |
| `Ikbd.PostedMotion` | src/ikbd.cpp:336-374 | A posted move adds exactly itself to the total motion, exactly when it is not merged, or the Y axis is not reversed, or the packet has no vertical delta; otherwise twice that delta is missing. |
| `Ikbd.ReversedMergeLosesMotion` | src/ikbd.cpp:336-374 | A merge that breaks this. |
| `Ikbd.Queue.Send` | src/ikbd.cpp:504-549 | A byte is appended; a full ring drops a packet at its front; the status register says a byte waits and requests an interrupt if enabled. |
| `Ikbd.DropsWholePacket` | src/ikbd.cpp:515-544 | What a full ring drops is the whole packet at its head, so that the unread bytes still start with a packet. |
| `Ikbd.Queue.ReadData` | src/ikbd.cpp:108-134 | The oldest unread byte, once each; the status register says exactly whether another waits. |
| `Ikbd.Queue.MergeMousePacket` | src/ikbd.cpp:376-419 | The last packet is taken back exactly when it is a mouse packet, unread, of the same buttons, with small enough sums. |
| `Ikbd.Queue.PostMove` | src/ikbd.cpp:362-370 | One packet sent or merged, its three bytes last in the queue; bytes already read never change. |
| `Ikbd.Queue.SendMouseMotion` | src/ikbd.cpp:336-374 | The packets add exactly the motion to the total, every delta within 63, and nothing read changes; with a reversed axis they do so exactly when none of them is merged into a packet with a vertical delta, which the queue's end before the call decides, and are else exact horizontally and short vertically. |
| `Ikbd.LongUpwardsIsSpoiled` | src/ikbd.cpp:350-374 | With a reversed axis and a byte unread, a motion of more than 63 units upwards and at most 63 to the right always loses vertical motion: its second packet is merged into its first. |
| `Ikbd.HorizontalIsNotSpoiled` | src/ikbd.cpp:350-374 | A motion of any length sideways and one packet vertically loses none unless its first packet is merged. |

## Left out

- SDL windows, surfaces, audio, timers and input events, file formats, and the 68040 and MMU emulation.
- DSP instructions other than DIV, NORM, MAC, MACR, DO, REP and the address updates; interrupts, SSI and disassembly.
- Division.RepeatedDivDivides: dividends not below the divisor and more than 24 steps, for which DIV yields no quotient.
- DataAlu.Alu.RepeatDiv: the same, and a carry that is not cleared before, which DIV shifts into the quotient.
- Normalization.AgreeingStep: zero, for which Normalization.RepeatedNormOfZero holds, and the reserved scaling mode, in which the program leaves E and U alone.
- Normalization.RepeatedNormNormalizes: flags that do not agree, for which Normalization.NormalizesAfterOne holds, and the reserved scaling mode.
- DataAlu.Alu.RepeatNorm: zero, flags that do not agree and the reserved scaling mode.
- AddressUnit.ModuloExact: modifiers longer than the buffer, for which AddressUnit.UncorrectedExact says what happens, and registers outside the buffer, for which a circular step has no meaning.
- AddressUnit.ModuloRunIsCircular: buffers that end less than m below 0x8000; AddressUnit.ModuloRunExact covers them.
- HardwareLoops.ProgramController.StackPush: a push on 14 entries, which the program lets through although its arrays of 15 words, the first unused, end there, and on 15, which stops the DSP thread.
- HardwareLoops.ProgramController.StackPop: the stop of the DSP thread on an empty stack.
- HardwareLoops.ProgramController.ExecuteDo: a stack with fewer than two free entries.
- HardwareLoops.ProgramController.Execute: DO on a stack with fewer than two free entries.
- Explicit writes to SP, SSH and SSL, and loop counts read from the loop and stack registers themselves.
- Host port interrupts, and traffic in both directions at once.
- HostPort.Registers.ReadHost: the control, status and vector registers.
- HostPort.Registers.WriteHost: the control, status and vector registers, and the bootstrap.
- ATA: IDENTIFY, DMA, runs beyond the end of the disk, and accesses of different widths in one run.
- AtaDisk.Drive.CommandAborted: the BSY, DRDY and SEEK COMPLETE bits and the error register.
- ATAPI: commands other than READ, physical CD-ROM drives, and image files that are no multiple of 2048 bytes.
- Atapi.Drive.ReadPort: accesses beyond the end of the buffer.
- Blitter.Chip.DoBlit: odd increments (addresses and increments are counted in words) and bus errors (nothing answers outside the memory).
- The variants of the blitter that the preprocessor leaves out.
- Big-endian hosts in MD5 and in the bitplane conversion.
- The MFP side of the keyboard interrupt, joystick packets and the keyboard controller's command set.
