# DSP3210 tools: a verified model

This project models three programs of the DSP3210 tool set and proves what
they promise, alone and together:

* the **emulator** (`dsp3210emu`): the exact data arithmetic unit (DAU), an
  integer model of a 40-bit two's-complement float, and the step machine with
  delayed branches, hardware do-loops, interrupts with instruction replay,
  error levels, the accumulator and flag latency pipes and the DA store shadow;
* the **disassembler** (`dsp3210dis`): from a word to a statement, its class,
  branch marks and resolved target;
* the **assembler** (`dsp3210asm`): from a statement to a word, and the
  two-pass layout of a source.

Everything is proved for all inputs: every word, every machine state, every
run, every source. Three kinds of file make up the project.

* *Values*: `Words`, `Dau`, `Insn`, `Core`, `Cau`, `DauExec`, `Machine`,
  `Syntax`, `Dis`, `Asm`, `Canonical`, `Passes` define what each program
  computes, branch by branch, as functions; `Listing` is the grammar of the
  statements the disassembler prints.
* *Objects*: `Emulator` and `Assembler` hold the same programs in the form the
  sources have, a class whose methods update fields and arrays with loops. Each
  method's contract equates the new state with the function of the old one.
  `Dau64` holds the DAU in 64-bit integers, no operation of which overflows.
* *Theorems*: the other files. `Registers`, `AluMeaning`, `Branching`,
  `MoveMeaning`, `Stores`, `DauMeaning`, `SpecialMeaning`, `ExceptionFacts`,
  `MachineFacts`, `Layout` and `StatementMeaning` say what single instructions,
  directives and statements do in integers, bits, reals and bytes, without the
  functions of the value files; the remaining ones are about runs and programs.

Instructions are handled as the datatype `Insn.Insn`, the fields of a word;
`Insn.DecodeEncode` shows that no two fields overlap, `Encoding.EncodeDecode`
which bits are read. Statements are token
lists (`Syntax.Toks`); spelling, white space and comments are below that level.

## The main results

1. The normaliser has one answer, the multiplier is exact, the adder's error
   has an explicit bound and so has a whole multiply-accumulate, conversions are
   exact roundings (`DauNormal`, `DauArith`, `DauConvert`, `MacBounds`); nothing
   on the way leaves 64 bits (`Dau64`). Numbers are reals, 1.0 is the number 1,
   modes and limits are literals (`MacBounds.ExactMac`, `DauConvert.AccToIntMeans`),
   and the accumulator and the memory word a DA instruction leaves are named
   (`DauMeaning`, `SpecialMeaning`).
2. On every run from reset every accumulator is in normal form (`RunNormal`);
   the latency pipes are history (`RunPipes`); the four-entry store shadow is
   a history of memory and never evicts (`RunShadow`).
3. An interrupt whose handler tidies up amounts to nothing, whatever requests
   arrive meanwhile (`Interrupts`, on `PcshFree` and `Modes`); do-loops run
   exactly, interrupted or not (`DoLoops`). Only the core `c` of a state is
   compared: of the hidden registers, the prefetch buffer is empty after a replay
   and full after a fetch.
4. Every ALU function leaves the integer or the bits its code stands for, with
   the flags of it (`AluMeaning`); compare-then-branch continues at the target or
   behind the delay slot as the order of the operands has it (`AluFacts`,
   `Branching`); carry-reverse addition walks the FFT order (`AluFacts`); a stored
   value is the one loaded, in either byte order (`Stores`, `MoveMeaning`).
5. What the disassembler prints the assembler reads back, to a canonical word
   that prints the same (`RoundTrip`, `Fixpoint`, `Images`); what the assembler
   accepts decodes cleanly (`AsmSound`) and comes back as written exactly when the
   grammar of listings has it (`ListingFacts`, `ListingDa`, `Toolchain`); the
   canonical word does to every machine state what the original does, with the
   exact exceptions (`CanonMeaning`). An operator written in a source computes what
   it stands for (`StatementMeaning`).
6. Two passes are enough (`Passes`); a label is one address for the assembler,
   the disassembler and the emulator (`Targets`), from the source to the executed
   address (`EndToEnd`).

`Witnesses` holds concrete programs and states: that the premises of 3 can be
met, and the failing inputs of the exceptions below.

## Where the code and its documentation disagree

The model follows the code.

* `dsp3210asm/dsp3210_asm.h:18-20` and `README.md:107` call the assembler's
  output a fixed point of disassembling and re-assembling, and
  `dsp3210asm/README.md:13` says disassembly returns every accepted statement.
  Both fail for `r3 = r0 + r5`, which prints as `r3 = r5`
  (`Fixpoint.OutputNotAlwaysFixed`). `Toolchain.EmittedFixedIff` and
  `Toolchain.TextSurvivesIff` give the exact conditions.
* `toolchain-tests/roundtrip.c:14-21` says a re-assembled word never changes
  meaning or spelling. Spelling changes for format 8a with M = 0 and a base
  register, and only there (`Fixpoint.DisOfCanon`). Meaning changes when that
  register is pcsh (`CanonMeaning.ZeroPcshDiffers`, in every state), when Z names
  Y's pointer while Y moves it (`Witnesses.SharedPointerDiffers`), and in the carry
  of subtractions that come back as additions (`CanonMeaning.SubIsAddNegative`);
  `CanonMeaning.MeaningKeptIff` says exactly when.
* The comment at `dsp3210emu/dsp3210_emu.c:1066-1068` and `dsp3210emu/README.md:138`
  say that no interrupt is taken in the shadow of a delayed branch. The test is
  `npc == pc + 4`, which a branch to the address behind its delay slot passes:
  `Targets.SlotInterruptedIff`, `Witnesses.SlotNotAlwaysProtected`.
* Negation and rounding lose the one result that would need exponent 0, silently
  (`dsp3210emu/dsp3210_dau_exact.inc:221-243`): `DauConvert.AccNegateValueIff`,
  `DauConvert.AccRoundValueIff`.
* `dsp3210emu/README.md:189` gives the operand order of a DA instruction as Y, X, Z;
  `dsp3210emu/dsp3210_dau_exact.inc:804-812` reads X first.
* The comment at `dsp3210asm/dsp3210_asm.c:867` gives the "no write" field as
  1111111; the constant at line 773 is 0000111.

## Model

| member | source | states |
|---|---|---|
| Dau64.NormAt | dsp3210emu/dsp3210_dau_exact.inc:71-78 | from any 64-bit mantissa the two shifting loops terminate without leaving 64 bits and agree with the unbounded normaliser, whose answer is characterised below |
| DauNormal.NormIsNormalShift | dsp3210emu/dsp3210_dau_exact.inc:62-78 | for every nonzero mantissa and every scale the answer lies in the asymmetric normal range and is the input shifted, right shifts truncating |
| DauNormal.NormalShiftUnique | dsp3210emu/dsp3210_dau_exact.inc:62-78 | no input has two different normal shifts |
| DauNormal.NormUniqueAnswer | dsp3210emu/dsp3210_dau_exact.inc:62-78 | any normal shift of the input is the normaliser's answer |
| DauArith.PackUnpack | dsp3210emu/dsp3210_dau_exact.inc:89-109 | packing keeps the exponent and cuts exactly the eight guard bits |
| DauArith.UnpackPack | dsp3210emu/dsp3210_dau_exact.inc:89-109 | every word survives unpack then pack, dirty zeros becoming 0 |
| DauArith.DauMulExact | dsp3210emu/dsp3210_dau_exact.inc:175-183 | the product is the real product of the two words' values, within 2^48 and a bounded exponent |
| DauArith.AlignedSumError | dsp3210emu/dsp3210_dau_exact.inc:194-208 | aligning and adding is within one 46-fraction-bit unit of the larger exponent of the exact sum, never above it for distances up to 62 |
| DauArith.TruncatedNormError | dsp3210emu/dsp3210_dau_exact.inc:209-213 | normalising and truncating to 31 fraction bits loses less than one unit of the result and never gains |
| DauArith.SecondNormIsIdle | dsp3210emu/dsp3210_dau_exact.inc:209-218 | the second normalisation in the adder never changes anything |
| DauArith.DauAddError | dsp3210emu/dsp3210_dau_exact.inc:185-219 | the adder differs from the exact sum by at most one alignment unit plus less than one unit of the result, and is never above it for distances up to 62 |
| DauArith.DauAddRange | dsp3210emu/dsp3210_dau_exact.inc:186-219 | for every adder input and product the aligned sum stays inside 2^49 and the exponents inside 16 bits |
| Dau64.Multiply | dsp3210emu/dsp3210_dau_exact.inc:175-183 | the 25x25 product is formed without overflow |
| Dau64.Add | dsp3210emu/dsp3210_dau_exact.inc:186-219 | shift, align, add, both normalisations and the 16-bit exponent casts, no step leaving its type |
| Dau64.Negate | dsp3210emu/dsp3210_dau_exact.inc:221-230 | negation of a normal accumulator without overflow |
| Dau64.Round | dsp3210emu/dsp3210_dau_exact.inc:232-243 | rounding of a normal accumulator without overflow |
| Dau64.FromInt | dsp3210emu/dsp3210_dau_exact.inc:245-256 | integer to float without overflow |
| Dau64.ToInt | dsp3210emu/dsp3210_dau_exact.inc:258-308 | every shift, mask and increment of float to integer in 64 bits, any mode and width, also for the doubled operand of companding |
| Dau64.ToIeee | dsp3210emu/dsp3210_dau_exact.inc:311-329 | float to IEEE single without overflow |
| Dau64.FromIeee | dsp3210emu/dsp3210_dau_exact.inc:331-351 | IEEE single to float without overflow |
| Dau64.Compand | dsp3210emu/dsp3210_dau_exact.inc:545-560 | the 256-code search loop in 64 bits finds the first code at the least distance |
| Dau64.Sum | dsp3210emu/dsp3210_dau_exact.inc:814-845 | in any state with accumulators in normal form no step of a multiply-accumulate leaves 64 bits |
| Dau64.Special | dsp3210emu/dsp3210_dau_exact.inc:594-772 | in any state with accumulators in normal form no step of a special function leaves 64 bits |
| DauArith.WordFormat | dsp3210emu/dsp3210_dau_exact.inc:80-97 | the real number a 32-bit word stands for, by its sign, fraction and exponent fields |
| DauArith.OneIsOne | dsp3210emu/dsp3210_dau_exact.inc:793-793 | the word 0x80 is the number 1.0 |
| MacBounds.MacErrorBound | dsp3210emu/dsp3210_dau_exact.inc:809-844 | by format and M field, the sum of a multiply-accumulate is within one alignment unit plus one unit of its own of the exact real +-A +- B*X, where A is Y, 0.0, 1.0 or aM and B is aM three instructions old, 0.0, 1.0 or Y; never above it for distances up to 62; in any state with accumulators in normal form |
| MacBounds.MacResultError | dsp3210emu/dsp3210_dau_exact.inc:844-850 | the same bound, against the same real number, for what lands in the accumulator, in range |
| MacBounds.RangeCheckedValue | dsp3210emu/dsp3210_dau_exact.inc:361-384 | in range the value is kept, above it the nearest end with V, below it zero, U clear only at exponent 0 |
| MacBounds.SignFlags | dsp3210emu/dsp3210_dau_exact.inc:361-384 | n and z tell the sign of the number delivered |
| MacBounds.SignHistory | dsp3210emu/dsp3210_dau_exact.inc:361-384 | ctr holds the signs of the last six results, the newest in bit 0 |
| DauMeaning.OperandMeans | dsp3210emu/dsp3210_dau_exact.inc:402-436 | fields 8 to 119 read memory at rP and move rP by a register or the size, the others are accumulators, live for the adder and three instructions old and cut for the multiplier |
| DauMeaning.StoreZStores | dsp3210emu/dsp3210_dau_exact.inc:438-478 | where the address can be stored to, the word is then read at Z's pointer, or at Y's address for p = 15, and no byte elsewhere has changed; no store otherwise |
| DauMeaning.MacDelivers | dsp3210emu/dsp3210_dau_exact.inc:844-856 | once both operands are read, exactly accumulator aN becomes the range-checked sum, and Z gets the packed result, or in a tap the Y operand |
| DauMeaning.SpecialDelivers | dsp3210emu/dsp3210_dau_exact.inc:601-771 | exactly accumulator aN becomes the result, and Z gets the bits in 1, 2 or 4 bytes by function code unless the store is suppressed |
| DauMeaning.FaultsMean | dsp3210emu/dsp3210_dau_exact.inc:803-806 | a faulting operand ends the instruction after what was read before it; reserved functions only read |
| SpecialMeaning.FloatMeans | dsp3210emu/dsp3210_dau_exact.inc:656-684 | float16 and float32 deliver exactly the signed integer in the lane or in memory, with its flags |
| SpecialMeaning.LaneIsMantissa | dsp3210emu/dsp3210_dau_exact.inc:111-122 | the lane is the packed mantissa followed by the guard bits |
| SpecialMeaning.DecodeMeans | dsp3210emu/dsp3210_dau_exact.inc:510-538 | both decoders give twice (-1)^s ((16.5+M) 2^N - 16.5) and its A-law counterpart, over the reals |
| SpecialMeaning.IcMeans | dsp3210emu/dsp3210_dau_exact.inc:618-643 | ic delivers exactly the number the code stands for, unsigned, mu-law or A-law by dauc[2] and dauc[0] |
| SpecialMeaning.NearestIsFirst | dsp3210emu/dsp3210_dau_exact.inc:544-558 | the search finds the first code at the least distance |
| SpecialMeaning.OcMeans | dsp3210emu/dsp3210_dau_exact.inc:644-655 | oc delivers the number rounded and limited to 0..255 for dauc[3], else the first nearest code of the law in dauc[1] |
| SpecialMeaning.IntMeans | dsp3210emu/dsp3210_dau_exact.inc:685-698 | int16 and int32 deliver the number rounded by dauc[5:4] and limited to the range, in Z and in the lane, no flags |
| SpecialMeaning.RoundMeans | dsp3210emu/dsp3210_dau_exact.inc:699-703 | round delivers the nearest 24-bit mantissa while its exponent is in range |
| SpecialMeaning.ConditionalMeans | dsp3210emu/dsp3210_dau_exact.inc:704-721 | ifalt loads on n, ifaeq on z, ifagt on neither, of the live flags; the store of whichever it is is left out for a failed condition with dauc[6], the pointer moving all the same |
| SpecialMeaning.DspMeans | dsp3210emu/dsp3210_dau_exact.inc:728-752 | zeros, subnormals, infinities, NaNs and every normal single, with all four flags |
| SpecialMeaning.SeedMeans | dsp3210emu/dsp3210_dau_exact.inc:753-763 | result and flags of seed, u for an exponent of all ones |
| DauConvert.AccNegateExact | dsp3210emu/dsp3210_dau_exact.inc:221-230 | the negated mantissa and exponent are exact, and the exponent moves by at most one, possibly to 0 |
| DauConvert.AccNegateValueIff | dsp3210emu/dsp3210_dau_exact.inc:221-230 | the value is negated exactly when the operand is not 2^-127, whose negative reads as zero |
| DauConvert.AccRoundNearest | dsp3210emu/dsp3210_dau_exact.inc:232-243 | the mantissa and exponent are those of the nearest 24-bit mantissa, ties upward, with no guard bits, the exponent possibly 0 |
| DauConvert.AccRoundValueIff | dsp3210emu/dsp3210_dau_exact.inc:232-243 | the value is the nearest exactly when the operand is not one that rounds to -2^-127, which reads as zero |
| DauConvert.SilentZeros | dsp3210emu/dsp3210_dau_exact.inc:221-243 | a negation and a rounding of nonzero numbers that read as zero |
| DauConvert.AccFromIntExact | dsp3210emu/dsp3210_dau_exact.inc:245-256 | integer to float is exact and normal |
| DauConvert.AccToIntExact | dsp3210emu/dsp3210_dau_exact.inc:258-308 | for every accumulator, mode and width the result is the clamp of nearest-ties-up, floor or truncation of the exact value |
| DauConvert.AccToIntMeans | dsp3210emu/dsp3210_dau_exact.inc:258-308 | with dauc = 64h + 16m + l the result is the exact value plus 1/2 rounded down for m = 0 and 2, rounded down for m = 1, truncated for m = 3, limited to 0..255, -32768..32767 or -2^31..2^31-1 |
| DauConvert.IntOfFloatOfInt | dsp3210emu/dsp3210_dau_exact.inc:245-308 | int32(float32(v)) is v for every v in every rounding mode |
| DauConvert.IntLaneReadsBack | dsp3210emu/dsp3210_dau_exact.inc:567-592 | the integer lane of a normal-form deposit reads back the deposited integer, 0 under a zero exponent |
| DauConvert.FloatOfIntThroughLane | dsp3210emu/dsp3210_dau_exact.inc:656-698 | float32(int32(x)) through the lane has the clamped rounding of x as its value |
| DauConvert.FloatOfIntMeans | dsp3210emu/dsp3210_dau_exact.inc:656-698 | the same with mode bits and limits as literals |
| DauConvert.AccToIeeeMeans | dsp3210emu/dsp3210_dau_exact.inc:311-329 | every accumulator: zeros of the sign below 2^-126, infinities from 2^128 on, and between them the greatest single not above the magnitude |
| DauConvert.IeeeExponentBrackets | dsp3210emu/dsp3210_dau_exact.inc:311-329 | the IEEE exponent field brackets the magnitude between two powers of two |
| DauConvert.AccFromIeeeExact | dsp3210emu/dsp3210_dau_exact.inc:331-351 | conversion of a normal single is exact in value |
| DauConvert.IeeeDspIeee | dsp3210emu/dsp3210_dau_exact.inc:311-351 | a single with biased exponent 1 to 254 comes back bit for bit, also through memory |
| DauConvert.DspIeeeDsp | dsp3210emu/dsp3210_dau_exact.inc:311-351 | a guard-free accumulator of magnitude in [2^-126, 2^128) survives ieee then dsp |
| DauConvert.SeedInvolution | dsp3210emu/dsp3210_dau_exact.inc:753-762 | seed applied twice is the identity on words |
| DauConvert.SeedBound | dsp3210emu/dsp3210_dau_exact.inc:753-762 | seed keeps the sign and x * seed(x) is within 1/8 + 2^-23 of 1 |
| RunNormal.RangeCheckedNormal | dsp3210emu/dsp3210_dau_exact.inc:355-384 | the range check yields normal form; a result with exponent exactly 0 passes unexamined, U clear |
| RunNormal.RunNormal | dsp3210emu/dsp3210_emu.c:1040-1127 | over any run and any requests, accumulators, both pipe copies and both interrupt copies keep normal form |
| RunNormal.NormalFromReset | dsp3210emu/dsp3210_emu.c:1132-1183 | from reset on they are in normal form whatever is executed |
| RunPipes.PipelineHistory | dsp3210emu/dsp3210_emu.c:401-415 | during a slot the oldest accumulator pipe stage is the file two slots before the previous one ended and the oldest flags one slot older; sleep slots count |
| RunPipes.OperandLatency | dsp3210emu/dsp3210_dau_exact.inc:416-436 | an accumulator operand feeds the adder live and the multiplier as of instruction n-3; conditions test flags as of n-4; ifalt, ifaeq, ifagt test live flags, which ones being SpecialMeaning.ConditionalMeans |
| RunPipes.FactorLatency | dsp3210emu/dsp3210_dau_exact.inc:809-825 | the aM factor of format 1 is the accumulator as of instruction n-3 |
| RunShadow.RunMatches | dsp3210emu/dsp3210_emu.c:327-415 | on every run with the map fixed the live entries are exactly the DA stores of the last slots, their bytes the memory before each, all ages distinct |
| RunShadow.FreeEntryExists | dsp3210emu/dsp3210_emu.c:357-366 | while an instruction executes the first entry chosen is free |
| RunShadow.RunNeverEvicts | dsp3210emu/dsp3210_emu.c:357-366 | the eviction path is never used on any run |
| RunShadow.OverlayIsHistory | dsp3210emu/dsp3210_emu.c:371-393 | the overlay of a byte is memory from just before the oldest DA store over it in the last three slots, else memory now |
| RunShadow.ReadSeesHistory | dsp3210emu/dsp3210_emu.c:271-293 | every data read of a running instruction returns exactly those bytes |
| RunShadow.InstructionReads | dsp3210emu/dsp3210_dau_exact.inc:804-812 | the operand reads of multiply-accumulates and special functions and the loads are such reads, Y's after X's included |
| PcshFree.ExecAlike | dsp3210emu/dsp3210_emu.c:926-1035 | an instruction that does not read pcsh behaves alike from states that differ in pcsh only, and, unless it is a waiti, in the pending requests |
| Modes.ExecKeepsModes | dsp3210emu/dsp3210_emu.c:114-146 | no instruction raises the machine to interrupt level, at interrupt level the error mode stays, the pcw lock keeps matching pcw[13], and only a write to emr withdraws a request |
| Modes.ExecPendingTogether | dsp3210emu/dsp3210_emu.c:592-624 | from states alike the pending requests change alike |
| Modes.LockFromReset | dsp3210emu/dsp3210_emu.c:592-624 | on every run from reset pcw is locked exactly while its bit 13 is set |
| Interrupts.HandlerKeepsContext | dsp3210emu/dsp3210_emu.c:160-220 | no slot at interrupt level disturbs the saved context or the instruction shadow |
| Interrupts.UninterruptedIsStep | dsp3210emu/dsp3210_emu.c:1066-1126 | the slot used as reference below is the machine's own step without the request |
| Interrupts.ReturnReplays | dsp3210emu/dsp3210_emu.c:195-220 | after any handler that returns, whatever it did to registers and memory and whatever was requested, the shadowed instruction runs at the interrupted address with the context saved at entry |
| Interrupts.RunsInPlace | dsp3210emu/dsp3210_emu.c:1066-1112 | with an interrupt taken first or not, the instruction at a boundary runs at pc, with pc, npc, loop hardware and level as the boundary had them |
| Interrupts.InterruptTransparency | dsp3210emu/dsp3210_emu.c:160-220 | entry, any handler that leaves alone what hardware does not restore, ireturn and replay end where one uninterrupted step ends, with the same status; pcsh and the pending requests may differ, and the latter are what the handler left |
| Interrupts.TransparencyUpToPcsh | dsp3210emu/dsp3210_emu.c:160-220 | if the requests are as they were, everything but pcsh is equal |
| Witnesses.TidyHandlerExists | dsp3210emu/dsp3210_emu.c:160-220 | a one-instruction handler at a reset machine meets every premise of transparency |
| DoLoops.NonTransferIsStraight | dsp3210emu/dsp3210_emu.c:926-1035 | an instruction that cannot write pc, the loop hardware or spc and raises no error leaves the flow of control alone |
| DoLoops.LoopStep | dsp3210emu/dsp3210_emu.c:1115-1125 | one body instruction, interrupted or not, moves to the next position, round again or out |
| DoLoops.InterruptedBodyStep | dsp3210emu/dsp3210_emu.c:1066-1126 | entry, any returning handler, ireturn and the replay of a straight instruction make one body step, with no premise on registers, memory, store shadow or requests |
| DoLoops.DoLoopExact | dsp3210emu/dsp3210_emu.c:985-1001 | do, dolock and doblock execute their body exactly the encoded number of times and then fall through, with requests arriving and interrupts taken anywhere and returned from by ireturn |
| Witnesses.InterruptedBodyStepExists | dsp3210emu/dsp3210_emu.c:1066-1126 | a body step during which an interrupt is requested, taken and returned from, with a live store shadow |
| AluFacts.SubFlags | dsp3210emu/dsp3210_emu.c:475-497 | the subtract flags decide signed order, unsigned order and equality, long and short |
| AluFacts.CompareThenBranch | dsp3210emu/dsp3210_emu.c:518-547 | after comparing registers the ten order conditions tell the signed and unsigned orders of the operands, long and short |
| AluFacts.CompareImmediateThenBranch | dsp3210emu/dsp3210_emu.c:797-812 | so they do after comparing with a sign-extended immediate |
| Branching.GotoDecided | dsp3210emu/dsp3210_emu.c:974-984 | a conditional goto loads npc with rB + N if its condition holds and otherwise leaves the core as it is |
| Branching.Goto24Means | dsp3210emu/dsp3210_emu.c:1010-1016 | npc becomes rB + M modulo 2^32 |
| Branching.LoopGotoMeans | dsp3210emu/dsp3210_emu.c:939-948 | the branch is taken exactly if the old counter is not negative, the counter goes down by one either way, nothing else changes |
| Branching.CallMeans | dsp3210emu/dsp3210_emu.c:949-957 | rM gets the address behind the delay slot and npc the target, which wins if rM is pc |
| Branching.CompareTells | dsp3210emu/dsp3210_emu.c:722-725 | a compare changes CAU flags only, and each of the ten order conditions then holds exactly if the order does |
| Branching.CompareThenGoto | dsp3210emu/dsp3210_emu.c:1063-1126 | in the machine, interrupts between the two or not, a compare and, outside a loop's end, a conditional goto continue at the target if the order holds and at the next address otherwise, after the delay slot |
| Branching.CauConditions | dsp3210emu/dsp3210_emu.c:530-546 | which CAU flags the odd conditions test |
| Branching.DauConditions | dsp3210emu/dsp3210_emu.c:547-556 | which DAU flags of four instructions back |
| Branching.PinConditions | dsp3210emu/dsp3210_emu.c:557-568 | which pins |
| Branching.EvenIsOpposite | dsp3210emu/dsp3210_emu.c:530-568 | each even condition is the opposite of the next |
| Branching.StatusBits | dsp3210emu/dsp3210_emu.c:579-582 | which bit of ps is which flag |
| Registers.OpvalReads | dsp3210emu/dsp3210_emu.c:73-84 | by register code: the file, pc two instructions on, pcsh, 1, -1 or 0 |
| Registers.RegwWrites | dsp3210emu/dsp3210_emu.c:86-101 | by register code: exactly that register, npc, pcsh or nothing changes |
| AluMeaning.AluMeans | dsp3210emu/dsp3210_emu.c:684-769 | for each of the 16 function codes, long and short: the result in integers or bit by bit, and all four flags, overflow by the signed range |
| AluMeaning.AluRegMeans | dsp3210emu/dsp3210_emu.c:771-795 | with its condition true the instruction leaves that value of its sources in rD and those flags, sp++ and sp-- stepping by 4; with it false the core is unchanged |
| AluMeaning.AluImmMeans | dsp3210emu/dsp3210_emu.c:797-812 | the same for rD and the sign-extended immediate |
| AluMeaning.Add16Means | dsp3210emu/dsp3210_emu.c:958-965 | the same for the three-operand add |
| AluMeaning.ShiftOrMeans | dsp3210emu/dsp3210_emu.c:1002-1009 | bit by bit, N over the upper half of the register |
| AluMeaning.Set24Means | dsp3210emu/dsp3210_emu.c:1017-1023 | rD becomes M and no flag changes |
| Stores.StoreThenLoad | dsp3210emu/dsp3210_emu.c:295-313 | after a store that succeeds the aligned address holds the bytes of the value, most significant first exactly if pcw[8] is set, a load there gives the value modulo its size, no other byte and nothing else has changed |
| Stores.LoadedDigits | dsp3210emu/dsp3210_emu.c:241-261 | the bytes in memory are the digits of the value loaded, in either order and every size |
| Stores.ChipInBothMaps | dsp3210emu/dsp3210_emu.c:225-238 | the on-chip 64 KB are the same bytes at 0 and at 0x50030000 |
| MoveMeaning.LoadMeans | dsp3210emu/dsp3210_emu.c:885-898 | pointer first, then rH with the datum zero- or sign-extended or in the upper byte by size code, flags of it; a fault changes nothing more |
| MoveMeaning.StoreMeans | dsp3210emu/dsp3210_emu.c:899-905 | the selected bits of rH are stored, then the pointer moves |
| MoveMeaning.IoMemoryMeans | dsp3210emu/dsp3210_emu.c:885-905 | the same between memory and I/O registers |
| MoveMeaning.DirectLoadMeans | dsp3210emu/dsp3210_emu.c:836-848 | 16-bit addresses lie in the on-chip window of the current map |
| MoveMeaning.DirectStoreMeans | dsp3210emu/dsp3210_emu.c:849-852 | and so for stores |
| MoveMeaning.StoredIsRead | dsp3210emu/dsp3210_emu.c:271-313 | a value stored by executing code is what executing code reads back, through an empty store shadow |
| MoveMeaning.IorWriteThenRead | dsp3210emu/dsp3210_emu.c:592-624 | what each I/O register reads after a write, the lock, the withdrawn request, and that the rest stays |
| MoveMeaning.SpcMeans | dsp3210emu/dsp3210_emu.c:863-875 | soft reset, breakpoint and wait by the size of a write to spc |
| ExceptionFacts.ErrorMeans | dsp3210emu/dsp3210_emu.c:111-146 | which exceptions are ignored, which stop the machine, and the whole state after one that is dispatched, bit 13 of pcw included |
| ExceptionFacts.PriorityMeans | dsp3210emu/dsp3210_emu.c:148-158 | the lowest-numbered enabled request, or none |
| ExceptionFacts.EntryMeans | dsp3210emu/dsp3210_emu.c:160-193 | control at the vector, pcsh behind the interrupted instruction, the request gone, loops suspended, registers and memory as they were |
| MachineFacts.AccessErrors | dsp3210emu/dsp3210_emu.c:263-313 | at base and interrupt level an unmasked misalignment raises vector 4, a masked one goes to the aligned address, an unmapped byte raises vector 1 |
| MachineFacts.RangeErrors | dsp3210emu/dsp3210_dau_exact.inc:361-384 | overflow and underflow raise vector 5 after the flags, if unmasked |
| MachineFacts.OtherErrors | dsp3210emu/dsp3210_emu.c:931-934 | an illegal word raises vector 2; a NaN given to dsp raises vector 6 if unmasked |
| MachineFacts.IdleMeans | dsp3210emu/dsp3210_emu.c:1045-1063 | a halted machine keeps its state; in a sleeper only time passes |
| MachineFacts.WakeMeans | dsp3210emu/dsp3210_emu.c:1051-1056 | a sleeper with an enabled request executes its next instruction before the interrupt |
| MachineFacts.RequestMeans | dsp3210emu/dsp3210_emu.c:1185-1189 | vectors 8 to 15 become pending and nothing else changes |
| MachineFacts.PulseMeans | dsp3210emu/dsp3210_emu.c:417-428 | a pin is low for exactly as many slots as its counter says |
| MachineFacts.PrefetchMeans | dsp3210emu/dsp3210_emu.c:1104-1110 | the word behind a fetched instruction is prefetched under the map and memory before its effects |
| MachineFacts.ShadowIsPrefetched | dsp3210emu/dsp3210_emu.c:176-187 | an interrupt after it shadows that word, even if the instruction stored over it |
| MachineFacts.ReturnMeans | dsp3210emu/dsp3210_emu.c:195-220 | what ireturn brings back and at which level, and what it leaves |
| MachineFacts.ResetMeans | dsp3210emu/dsp3210_emu.c:1132-1183 | the registers, flags, levels and masks out of reset |
| AluFacts.Bitrev | dsp3210emu/dsp3210_emu.c:508-515 | the bit loop computes the reversal of the low n bits |
| AluFacts.BitRevInvolution | dsp3210emu/dsp3210_emu.c:508-515 | reversing twice is the identity |
| AluFacts.WalkIsReversal | dsp3210emu/dsp3210_emu.c:703-713 | k carry-reverse additions of 2^(m-1) hold the m-bit reversal of k, and the 2^m-th returns to 0 with the first carry |
| AluFacts.WalkVisitsOnce | dsp3210emu/dsp3210_emu.c:703-713 | every index below 2^m is visited exactly once |
| Insn.DecodeEncode | dsp3210asm/dsp3210_asm.c:704-749 | the fields put into a word are the fields taken out of it, for every format |
| Encoding.EncodeDecode | dsp3210emu/dsp3210_emu.c:913-1035 | the illegal words are those of the seven opcodes, and every other word is the word of the instruction read out of it plus the bits its format does not use |
| DisClean.CleanIsPrintable | dsp3210dis/dsp3210_dis.c:671-823 | a word decodes with status OK and no placeholder exactly when each printed register, size, condition, function and operand has a name |
| RoundTrip.AluRegBack | dsp3210asm/dsp3210_asm.c:1133-1280 | every clean register ALU statement is accepted and yields its canonical form |
| RoundTrip.AluImmBack | dsp3210asm/dsp3210_asm.c:1155-1280 | the same for immediate ALU statements |
| RoundTrip.MoveInsnBack | dsp3210asm/dsp3210_asm.c:1283-1361 | every clean move is accepted and yields itself |
| RoundTrip.MacBack | dsp3210asm/dsp3210_asm.c:852-994 | every clean multiply-accumulate statement, tap and store forms included, is accepted and yields its canonical form |
| RoundTrip.SpecialBack | dsp3210asm/dsp3210_asm.c:876-888 | every clean special function is accepted and yields its canonical form |
| RoundTrip.AsmOfDis | dsp3210asm/dsp3210_asm.c:1366-1490 | the assembler accepts every clean disassembly, at any address and with any labels, and reads the canonical instruction out of it |
| Fixpoint.DisOfCanon | dsp3210dis/dsp3210_dis.c:671-823 | text, class, branch marks and target survive re-assembly exactly when the word is not `rB+0x0` of format 8a |
| Fixpoint.CanonIdempotent | toolchain-tests/roundtrip.c:222-233 | canonicalising twice is canonicalising once, on all clean instructions |
| Fixpoint.FixedPointIff | dsp3210asm/dsp3210_asm.h:14-20 | an instruction re-assembles to itself exactly when it is none of the listed aliases |
| Fixpoint.OutputNotAlwaysFixed | dsp3210asm/dsp3210_asm.h:18-20 | an accepted statement whose word neither prints as written nor re-assembles to itself |
| Images.AssembleDisassemble | toolchain-tests/roundtrip.c:190-207 | assembling a clean word's line gives its canonical word |
| Images.LineSurvives | toolchain-tests/roundtrip.c:204-221 | the line of the canonical word is the line of the word, with the one exception |
| Images.CanonWordIdempotent | toolchain-tests/roundtrip.c:222-233 | canonical words are fixed points |
| Images.ImageRoundTrip | toolchain-tests/roundtrip.c:313-387 | the listing of an image of any length assembles to exactly its canonical words byte for byte, prints the same listing, and is then stable |
| AsmSound.Accepted | dsp3210asm/dsp3210_asm.c:1366-1490 | the word of any accepted statement decodes with status OK and every printed field named, and never uses format 8a where 16 bits do |
| Toolchain.EmittedFixedIff | dsp3210asm/dsp3210_asm.h:18-20 | a word the assembler emitted re-assembles to itself exactly when its encoding is canonical |
| ListingDa.ListedIsPrinted | dsp3210dis/dsp3210_dis.c:671-823 | a grammar decided on the tokens alone is exactly the set of statements the disassembler prints |
| Toolchain.TextSurvivesIff | dsp3210asm/README.md:13-14 | an accepted statement comes back unchanged exactly when that grammar has it |
| CanonMeaning.SubIsAddNegative | dsp3210emu/dsp3210_emu.c:450-497 | subtracting x and adding -x agree in result, n, z and v, with complementary carries |
| CanonMeaning.CanonPreservesMeaning | dsp3210emu/dsp3210_emu.c:926-1035 | from every state the canonical form leaves the same state and status, carry complemented on executed subtract-to-add aliases; shut out are `goto pcsh+0x0` and a store through Y's own moving pointer |
| CanonMeaning.MeaningKeptIff | toolchain-tests/roundtrip.c:14-21 | when the accesses work, meaning is kept exactly if the instruction is not `goto pcsh+0x0` and, where Z names Y's pointer, Y adds 0 to it or the store is suppressed |
| Witnesses.SharedPointerDiffers | dsp3210asm/dsp3210_asm.c:776-794 | `*r1 = a0 = *r1++` and its re-assembly part ways from reset |
| CanonMeaning.StoreThroughYIff | dsp3210asm/dsp3210_asm.c:776-794 | at the store itself: when both stores work, a normal Z on Y's pointer and the store through Y agree exactly if the pointer still holds Y's address |
| CanonMeaning.ZeroPcshDiffers | dsp3210emu/dsp3210_emu.c:967-974 | from every state `goto pcsh+0x0` and its re-assembly lead to different states |
| Toolchain.ReassembledMeaning | toolchain-tests/roundtrip.c:14-21 | the word assembled from a clean word's line executes as the word does, in every state |
| StatementMeaning.OperatorMeans | dsp3210asm/dsp3210_asm.c:1133-1280 | `if (c) rD = (short) rA op rB` is accepted for every named condition, register and binary operator, and executed leaves in rD what the operator says of rA and rB, or nothing changed |
| StatementMeaning.TestMeans | dsp3210asm/dsp3210_asm.c:1133-1280 | so do compare and bit test, with the flags |
| StatementMeaning.MoveStatements | dsp3210asm/dsp3210_asm.c:1283-1361 | which side of an assignment loads and which stores, for pointers, direct addresses and I/O registers |
| StatementMeaning.MacStatement | dsp3210asm/dsp3210_asm.c:869-994 | `aN = [-]Y {+,-} aM * X` puts signs, factors and destination where the emulator takes them from |
| StatementMeaning.LoopStatements | dsp3210asm/dsp3210_asm.c:1395-1423 | `do`, `dolock` and `doblock` put body length and count, a number or a register, where the loop hardware takes them from |
| StatementMeaning.PlainStatements | dsp3210asm/dsp3210_asm.c:1370-1490 | nop, ireturn, waiti, bkpt, sftrst, shift-or and set24 are the instructions of those effects |
| StatementMeaning.FixedWords | dsp3210asm/dsp3210_asm.c:1370-1375 | the instructions of the five fixed statements have the fixed words |
| StatementMeaning.MarksMean | dsp3210dis/dsp3210_dis.c:671-823 | class, branch mark, no-delay-slot mark and illegal status, by instruction |
| StatementMeaning.UnmarkedFallsThrough | dsp3210dis/dsp3210_dis.c:671-823 | executed without error, an instruction without the branch mark that does not name pc, start a loop or write spc falls through |
| Targets.LabelTarget | dsp3210asm/dsp3210_asm.c:625-702 | a goto, conditional goto, call or loop branch to label+k is accepted exactly when the displacement fits, and the disassembler resolves it to that address |
| Targets.BranchReachesTarget | dsp3210dis/dsp3210_dis.c:172-189 | a taken branch loads npc with the disassembler's target and changes nothing else of the flow of control; one not taken is Branching.GotoDecided and Branching.LoopGotoMeans |
| Targets.SlotInterruptedIff | dsp3210emu/dsp3210_emu.c:1063-1074 | an interrupt parts a taken branch from its delay slot exactly when the branch goes to the address behind the slot and a request is enabled at base level outside dolock |
| Witnesses.SlotNotAlwaysProtected | dsp3210emu/dsp3210_emu.c:1063-1074 | a branch that is parted from its delay slot |
| Targets.SlotIsProtected | dsp3210emu/dsp3210_emu.c:1063-1074 | after a branch to anywhere else the next slot is the delay slot, no interrupt between |
| Targets.OneDelaySlot | dsp3210emu/dsp3210_emu.c:1089-1112 | a taken branch executes exactly one more instruction in sequence and then its target, with interrupts taken and returned from at any of the boundaries |
| Targets.BackToBackBranches | dsp3210emu/README.md:55-56 | two branches in a row execute in the order I1, I2, A, B, interrupted or not |
| EndToEnd.LabelReached | dsp3210asm/dsp3210_asm.c:1682-1711 | in a source that assembles, a branch line whose image is in memory, when executed and taken, reaches the second-pass location of the label it names, after one delay slot, as the disassembler shows |
| Passes.LineInStep | dsp3210asm/dsp3210_asm.c:1636-1659 | one line moves both passes to the same location and high-water mark, and its labels and .equ find in the table the value they have in the second pass |
| Passes.LineMoved | dsp3210asm/dsp3210_asm.c:1495-1505 | after each line exactly the bytes from the origin to the high-water mark have been written |
| Passes.TwoPassesAgree | dsp3210asm/dsp3210_asm.c:1682-1711 | for every source that assembles into a buffer ending below 2^32 the passes agree, every label is its second-pass location, and the image is every byte up to the highest location reached |
| Layout.ExpressionSums | dsp3210asm/dsp3210_asm.c:364-400 | a chain of signed numbers and names is their sum, undefined names counting 0 in the first pass only |
| Layout.OrgMeans | dsp3210asm/dsp3210_asm.c:1558-1572 | forward fills zeros, backward moves without a byte, before the origin is refused |
| Layout.SpaceMeans | dsp3210asm/dsp3210_asm.c:1602-1610 | exactly v zero bytes, at most 16 MB |
| Layout.AlignReaches | dsp3210asm/dsp3210_asm.c:1611-1619 | the next multiple of a power of two and no earlier one |
| Assembler.Assembler.constructor | dsp3210asm/dsp3210_asm.c:1666-1680 | a fresh assembler for an origin and an output buffer |
| Assembler.Assembler.PutByte | dsp3210asm/dsp3210_asm.c:1495-1505 | one byte is stored in the second pass, refused outside the buffer, and location and high-water mark advance |
| Assembler.Assembler.Emit32 | dsp3210asm/dsp3210_asm.c:1507-1513 | a word is emitted most significant byte first |
| Assembler.Assembler.Org | dsp3210asm/dsp3210_asm.c:1558-1572 | forward fills with zero bytes, backward moves, before the origin fails |
| Assembler.Assembler.Space | dsp3210asm/dsp3210_asm.c:1602-1610 | exactly the requested number of zero bytes |
| Assembler.Assembler.Align | dsp3210asm/dsp3210_asm.c:1611-1619 | the loop terminates after exactly the gap to the next multiple of a power of two |
| Assembler.Assembler.WordList | dsp3210asm/dsp3210_asm.c:1573-1582 | each expression of the list becomes one word, forward references counting 0 in the first pass |
| Assembler.Assembler.FloatList | dsp3210asm/dsp3210_asm.c:1583-1601 | each literal becomes the converter's word |
| Assembler.Assembler.Define | dsp3210asm/dsp3210_asm.c:325-351 | a symbol is entered once, in the first pass, while there is room |
| Assembler.Assembler.Directive | dsp3210asm/dsp3210_asm.c:1553-1634 | each directive has its effect, an unknown one fails |
| Assembler.Assembler.Labels | dsp3210asm/dsp3210_asm.c:1636-1643 | leading labels are defined at the current location, reserved names refused |
| Assembler.Assembler.ProcessLine | dsp3210asm/dsp3210_asm.c:1636-1659 | a line's whole effect, instructions only counted in the first pass |
| Assembler.Assembler.RunPass | dsp3210asm/dsp3210_asm.c:1692-1708 | a pass is its lines in order, stopping at the first error |
| Assembler.Assembler.Assemble | dsp3210asm/dsp3210_asm.c:1682-1711 | the result of both passes, the returned length, and every byte of the image written in the caller's buffer |
| Emulator.Dsp3210.constructor | dsp3210emu/dsp3210_emu.c:1132-1183 | the reset state over the host's memory |
| Emulator.Dsp3210.RequestInterrupt | dsp3210emu/dsp3210_emu.c:1185-1189 | vectors 8 to 15 become pending, others are ignored |
| Emulator.Dsp3210.Opval | dsp3210emu/dsp3210_emu.c:66-84 | operand value by register code, pc reading two instructions on |
| Emulator.Dsp3210.Regw | dsp3210emu/dsp3210_emu.c:86-101 | register write by code; r0, pseudo and reserved codes discard |
| Emulator.Dsp3210.Abort | dsp3210emu/dsp3210_emu.c:131-145 | loops die, interrupts stay off, pcw unlocks, r20 traces, control goes to the vector |
| Emulator.Dsp3210.TakeError | dsp3210emu/dsp3210_emu.c:114-146 | masked, ignored, double or dispatched, and which of them aborts |
| Emulator.Dsp3210.PendingVector | dsp3210emu/dsp3210_emu.c:148-158 | the loop finds the highest-priority enabled request |
| Emulator.Dsp3210.TakeInterrupt | dsp3210emu/dsp3210_emu.c:160-193 | the context is saved, the instruction shadowed as prefetched, control goes to the vector |
| Emulator.Dsp3210.DoIreturn | dsp3210emu/dsp3210_emu.c:195-220 | the context comes back at interrupt level, replay is pending, fetching resumes at pcsh |
| Emulator.Dsp3210.RawBytes | dsp3210emu/dsp3210_emu.c:241-261 | the byte loop reads the mapped bytes in order or fails at the first unmapped one |
| Emulator.Dsp3210.RawWrite | dsp3210emu/dsp3210_emu.c:241-261 | the byte loop stores in the byte order of Stores.StoreThenLoad and stops at the first unmapped byte, keeping what was stored |
| Emulator.Dsp3210.MemRead | dsp3210emu/dsp3210_emu.c:271-293 | alignment and bus errors, masked misalignment aligned down, overlay on data reads only |
| Emulator.Dsp3210.MemWrite | dsp3210emu/dsp3210_emu.c:295-313 | the same for stores; the bytes left are those of Stores.StoreThenLoad |
| Emulator.Dsp3210.Overlay | dsp3210emu/dsp3210_emu.c:371-393 | the loops over ages, entries and bytes leave the oldest covering entry's byte in each place |
| Emulator.Dsp3210.FreeSlot | dsp3210emu/dsp3210_emu.c:357-361 | the first free entry, or else the one closest to expiry |
| Emulator.Dsp3210.ShadowedWrite | dsp3210emu/dsp3210_emu.c:327-367 | memory changes at once and the overwritten bytes enter the shadow with age 3 |
| Emulator.Dsp3210.LatencyTick | dsp3210emu/dsp3210_emu.c:401-415 | both pipes shift by one and every live entry ages by one or expires |
| Emulator.Dsp3210.PinTick | dsp3210emu/dsp3210_emu.c:417-428 | pins follow the pulse counters, which count down to 0 |
| Emulator.Dsp3210.ExecAluReg | dsp3210emu/dsp3210_emu.c:771-795 | the state after is that of the function AluMeaning.AluRegMeans is about |
| Emulator.Dsp3210.ExecAluImm | dsp3210emu/dsp3210_emu.c:797-812 | the state after is that of the function AluMeaning.AluImmMeans is about |
| Emulator.Dsp3210.IorWrite | dsp3210emu/dsp3210_emu.c:592-624 | the writable parts of each I/O register, the pcw lock, the EXT1 drop |
| Emulator.Dsp3210.ExecMoveDirect | dsp3210emu/dsp3210_emu.c:837-857 | format 7a in either map |
| Emulator.Dsp3210.ExecMoveIor | dsp3210emu/dsp3210_emu.c:859-884 | format 7b with the three spc effects |
| Emulator.Dsp3210.ExecMoveInd | dsp3210emu/dsp3210_emu.c:886-909 | formats 7c and 7d, no post-modification after a fault |
| Emulator.Dsp3210.ExecLoopGoto | dsp3210emu/dsp3210_emu.c:940-949 | the old value is tested, then always decremented |
| Emulator.Dsp3210.ExecDo | dsp3210emu/dsp3210_emu.c:985-1003 | start, end and count of a loop, the reserved combination doing nothing |
| Emulator.Dsp3210.ExecCa | dsp3210emu/dsp3210_emu.c:926-1035 | every control arithmetic instruction, with its status, as the functions of Branching, AluMeaning and MoveMeaning have it |
| Emulator.Dsp3210.ReadOperand | dsp3210emu/dsp3210_dau_exact.inc:416-436 | an X or Y operand with its post-modification, or the fault |
| Emulator.Dsp3210.StoreZ | dsp3210emu/dsp3210_dau_exact.inc:438-478 | own pointer, through Y, or nothing, by the Z field |
| Emulator.Dsp3210.DaFlags | dsp3210emu/dsp3210_dau_exact.inc:355-384 | range check, flags, clip history and the unmaskable part of vector 5 |
| Emulator.Dsp3210.ExecMac | dsp3210emu/dsp3210_dau_exact.inc:777-857 | operands X then Y, sum, flags, accumulator, store or tap, as the function of MacBounds.MacErrorBound and DauMeaning.MacDelivers has it |
| Emulator.Dsp3210.ExecSpecial | dsp3210emu/dsp3210_dau_exact.inc:594-772 | every special function, as the functions of SpecialMeaning and DauMeaning.SpecialDelivers have it |
| Emulator.Dsp3210.Recognise | dsp3210emu/dsp3210_emu.c:1063-1074 | when an interrupt is taken |
| Emulator.Dsp3210.LoopBack | dsp3210emu/dsp3210_emu.c:1115-1125 | the back edge of a do-loop |
| Emulator.Dsp3210.Step | dsp3210emu/dsp3210_emu.c:1040-1127 | one slot of core time takes the whole state and the status where the step function of the run theorems does |

## Left out

- Interrupts.InterruptTransparency: asks for both EXT pulse counters to be 0 at the boundary, because the pins go on counting inside the handler and no interrupt entry stops them.
- Passes.TwoPassesAgree: asks for a buffer that ends below 2^32, because past that the location counter wraps and the two passes keep different high-water marks.
- RunShadow.ReadSeesHistory: is stated with the memory map bit fixed over the run, because an entry records addresses under the map of its own store.
- Targets.OneDelaySlot: an instruction that faults or goes to sleep on the way is outside its premises, and so is a loop branch that counts pc itself.
- EndToEnd.LabelReached: asks that no later line of the source goes back over the branch with `.org`, and for a big-endian map, the byte order of the image.
- CanonMeaning.MeaningKeptIff: a shared pointer is judged when operands can be read and both addresses stored to; where an access faults the two forms may fault alike.
- Dau64.Add: exponents are unbounded between the casts to 16 bits, which are checked; only mantissas are held in 64 bits throughout.
- Emulator.Dsp3210.Step: `last_vector` and `icount`, which nothing reads, are not modelled.
- Emulator.Dsp3210.MemRead: read and write hooks of an embedder are not modelled, only the built-in map; a value is assembled from its bytes after the overlay rather than lane by lane.
- Emulator.Dsp3210.ShadowedWrite: an expired entry keeps stale contents in the program and is simply free here.
- Fields of the emulator class: those that are always written together are one record field, accumulators and pipes are sequences copied whole, and pending requests are a set of vectors 8 to 15.
- Assembler.Assembler.Define: the symbol table is a map rather than an array searched linearly; the limit of 1024 symbols is kept, the limits on name length and on 63 tokens a line are not.
- Assembler.Assembler.FloatList: the conversion of a float literal is host floating point and enters as a parameter.
- Asm.Expr: expressions are unbounded integers; overflow of 64 bits in an expression is not modelled.
- The token cursor: parsers take and return the remaining tokens instead of moving a cursor field.
- Spelling: tokenizer, number formats, comments, string building and error messages; statements are token lists and an error is `None`.
- SpecialMeaning.RoundMeans: gives the number for exponents in range; outside it the range check decides, MacBounds.RangeCheckedValue.
- SpecialMeaning.OcMeans: for a zero operand the accumulator lane, which then reads as zero, is not described.
- StatementMeaning.OperatorMeans: covers the register statements; immediate ones reach their words by RoundTrip.AluImmBack and CanonMeaning.CanonPreservesMeaning, the carry of `rD - n` being that of adding -n.
- The double-precision DAU, the host interface for loading and peeking, EXT pulses requested by the host, and reset straps other than 0.
- ps bits 15 and 14, which read as 0 and are never set.
