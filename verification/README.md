# Verified models of a sensor firmware and its byte-code compiler

This project models five parts of the repository in Dafny and proves what they promise.

1. **The T0 compiler back end and its two machines** (`bearssl-0.5/T0`). Structured source goes through the word
   builder to opcodes, through flow analysis, slot assignment, address relaxation and 7E encoding to bytes, and an
   emitted C loop runs the bytes. Two results cover the whole way: `SourceToBytes`, that the bytes end with a result
   exactly when the structured source does, and `FlowSound` with `AnalyseFlow`, that the analysis is sound and finds
   the least solution. `EffectLeast`, `DataExact` and `ReturnNeeded` say what is found in terms of paths and call chains.
2. **Big integers and RSA** (`crypto/bigint.c`, `rsa.c`, `rsasign.py`). Shift-and-add multiplication, restoring
   division and square-and-multiply, in place on shared temporaries and with aliased arguments; signing in Python and
   checking in C agree.
3. **Streaming hashes, base64 and CRAM-MD5** (`crypto/sha256.c`, `md5.c`, `base64.c`, `smtp/smtp.c`).
4. **The firmware push handler** (`http/url_ota.c`): one global state, any interleaving of clients, flash that may
   fail; and the handler as a whole, upload, hashing and signature check together.
5. **Two wire protocols**: the bit-banged I2C master with its light sensor transactions, and the SMTP client.

Tables and formats are tied to what defines them and not to themselves: the constants of SHA-256 to the roots of the
first primes, those of MD5 to a worked example of its standard, the base64 map to its table, a message to what a server
reads off it.

Code that changes state is modelled by classes and methods on arrays, each tied by its postconditions to a
specification function or to an invariant; the lemmas are about those.

| files | part |
|---|---|
| `sevene`, `stype`, `rotation`, `t0machine`, `t0cpu`, `t0structured`, `t0builder` | encodings, the CPU, structured source and the word builder |
| `t0layout`, `t0gen`, `t0vm`, `t0loop`, `t0cases` | code elements, relaxation, code generation, the emitted loop, and where it parts from the CPU |
| `t0flow`, `t0chains`, `t0exact`, `t0analyse`, `t0whole` | flow analysis, its queue, what its results mean, and the whole compiler |
| `binary`, `bytes`, `modular`, `bigint`, `divwidth`, `bigarith`, `divcase`, `hex`, `rsasign`, `rsa` | big integers and RSA |
| `blockstream`, `sha256`, `sha256origin`, `md5`, `md5example`, `base64`, `cram` | hashes, where their numbers come from, base64, CRAM-MD5 |
| `ota`, `update`, `smtp`, `smtpwire`, `i2c` | the push handler and the wire protocols |

How things are modelled:

- Values on the T0 stacks are 32-bit numbers. A C-coded word is a function on the top of the stack; flow analysis
  relies on it to respect its declared stack effect. A word that a program can reach is known by its index.
- A C or C# failure, whether an exception, a return code or undefined behaviour, is a result of the model
  (`Stuck`, `VFault`, `Overflowed`, `ok == false`, a return code) and never a hidden precondition.
- The 32-bit counters of the hashes wrap explicitly. Big-integer bytes are 8-bit vectors, their bits the bits of a number.
- Clocks, watchdog calls, timers, logging, DNS, TCP and SDK calls are parameters or left out; whether a flash
  operation or a send succeeds is a parameter, so the results hold for every outcome.

What the proofs found, each with a concrete case and the condition under which it happens:

- `AnalyseFlow` refuses some safe words, such as `begin again`: a jump that is met again queues its target again, and
  the queue overflows (`SpinIsSafe`, `SpinRefused`). No word whose control can get into a circle of jumps is ever
  accepted (`AnalyseFlow`, `CircleUnreachable`), and the queue never overflows where the jumps of each word, counted
  with the chains of jumps that they start, are at most as many as its opcodes (`Calm`).
- The announced data stack misses the growth of C-coded words (`NativeGrowthMissed`); it misses no more than the
  growth of one (`FlowSound`).
- In one-byte mode a local count is read back right exactly when it is below 128 (`OneByteLocals`); 128 is read as none
  (`CountMisread`).
- The emitted code does not clear locals, while the CPU does. A one-local word tells them apart exactly when the cell
  on the return stack was not zero (`DirtyCellSeen`, `GetLocalExact`). `kern.t0` documents names after the semicolon as
  not initialized.
- The length field of the hashes is right exactly below 2^29 bytes (`FieldCorrectIff`, `LittleFieldCorrectIff`,
  `FirstWrongField`).
- The answer to a CRAM-MD5 challenge loses its last digit exactly for a user name of 223 bytes (`ServerSees`); the
  stored account holds 63.
- `bigint_div` can report overflow although dividend, divisor and result fit (`PaddedDivisorFails`). `DivFails` is the
  exact condition for all inputs: a dividend stored in 1191 bits, the whole buffer; a divisor stored in 1191 bits and not
  greater than the dividend; or a remainder that is doubled to the end of the buffer between two subtractions, which needs
  a divisor stored in 1189 or 1190 bits with at least two leading zeros. `DivFailsIff` says that the first two are all
  there is for every other divisor.
- The signature check of the push handler writes past its 32 bytes exactly when the decrypted number is 2^256 or more,
  which nothing checks (`Unpack`, `FitsIff`, `UnpackOverflows`).
- The two hash comparisons end at a zero byte (`SameTextIff`, `SameTextBlind`): what an accepted signature opens to is the
  hash itself for every hash without one (`FoundGood`, `Handle`), and need not be for one with one.
- A failed SMTP session can be revived by an answer to an earlier request (`FailureForgotten`); a failure is final
  exactly when no such answer is still to come (`FailureFinalIff`).

## Model

| member | source | states |
|---|---|---|
| `SevenE.EncodeUnsigned` | bearssl-0.5/T0/CodeElement.cs:59-75 | the two loops emit the chunks of the value, most significant first, and report their number |
| `SevenE.EncodeSigned` | bearssl-0.5/T0/CodeElement.cs:77-99 | the same for signed values; the length is the least that keeps the sign bit |
| `SevenE.DecodeUnsigned` | bearssl-0.5/T0/T0Comp.cs:1699-1714 | the emitted loop equals the recursive decoder, from any accumulator, running off the buffer included |
| `SevenE.DecodeSigned` | bearssl-0.5/T0/T0Comp.cs:1716-1737 | the same for signed values, with the sign taken from the first byte |
| `SevenE.UnsignedRoundTrip` | bearssl-0.5/T0/T0Comp.cs:1699-1714 | every uint32, followed by any bytes, decodes to itself and consumes exactly the encoded length |
| `SevenE.SignedRoundTrip` | bearssl-0.5/T0/T0Comp.cs:1716-1737 | every int32, followed by any bytes, decodes to itself and consumes exactly the encoded length |
| `SevenE.Samples` | bearssl-0.5/T0/CodeElement.cs:59-99 | five numbers and their bytes: seven bits in each, most significant first, the upper bit set in all but the last |
| `T0Builder.WordBuilder.constructor` | bearssl-0.5/T0/WordBuilder.cs:55-66 | an empty builder |
| `T0Builder.WordBuilder.CSPush` | bearssl-0.5/T0/WordBuilder.cs:119-128 | pushes on the control-flow stack, which grows by doubling |
| `T0Builder.WordBuilder.CSPop` | bearssl-0.5/T0/WordBuilder.cs:130-133 | pops, and fails exactly on an empty stack |
| `T0Builder.WordBuilder.CSPopOrig` | bearssl-0.5/T0/WordBuilder.cs:157-164 | pops an origin, and fails exactly when the top is not one |
| `T0Builder.WordBuilder.CSPopDest` | bearssl-0.5/T0/WordBuilder.cs:170-177 | pops a destination, and fails exactly when the top is not one |
| `T0Builder.WordBuilder.CSRoll` | bearssl-0.5/T0/WordBuilder.cs:101-107 | moves the element at a depth to the top, in place, and fails exactly when there is none |
| `T0Builder.WordBuilder.CSPick` | bearssl-0.5/T0/WordBuilder.cs:113-117 | copies the element at a depth to the top; a negative depth copies a stale element, as far as the array goes, and fails exactly beyond it |
| `T0Builder.WordBuilder.Add` | bearssl-0.5/T0/WordBuilder.cs:86-96 | appends an opcode and clears `jumpToLast`; the invariant over all uses of the builder is kept |
| `T0Builder.WordBuilder.Literal` | bearssl-0.5/T0/WordBuilder.cs:182-185 | appends a constant |
| `T0Builder.WordBuilder.Name` | bearssl-0.5/T0/WordBuilder.cs:201-222 | a name becomes a local read, a local write or a call |
| `T0Builder.NamesRun` | bearssl-0.5/T0/WordBuilder.cs:201-222 | what such an opcode does on the CPU: the name of a local pushes its cell, `>` and that name stores the top of the stack in it and changes nothing else, and any other name is a call of its word |
| `T0Builder.StoreThenRead` | bearssl-0.5/T0/WordBuilder.cs:201-222 | the two after one another leave the stack as it was, with its top in the cell |
| `T0Builder.WordBuilder.DefLocal` | bearssl-0.5/T0/WordBuilder.cs:272-279 | numbers local names 0, 1, 2 and so on, and fails exactly on a repeated one |
| `T0Builder.WordBuilder.Forward` | bearssl-0.5/T0/WordBuilder.cs:306-332 | adds an unresolved jump and its origin |
| `T0Builder.WordBuilder.Then` | bearssl-0.5/T0/WordBuilder.cs:338-343 | resolves the jump on top of the stack to the current end, and fails exactly when there is none, a stale zero stands for one, or it was resolved before |
| `T0Builder.WordBuilder.Begin` | bearssl-0.5/T0/WordBuilder.cs:349-352 | pushes the current end as a destination |
| `T0Builder.WordBuilder.Backward` | bearssl-0.5/T0/WordBuilder.cs:358-384 | adds a jump back to the destination on top of the stack, and fails exactly when there is none |
| `T0Builder.WordBuilder.Build` | bearssl-0.5/T0/WordBuilder.cs:72-84 | after any use of the builder at all: succeeds exactly when the stack is empty, and then every jump leads to an opcode and control cannot run past the last one |
| `T0Builder.Else` | bearssl-0.5/T0/kern.t0:10 | `ahead 1 cs-roll then` resolves the pending jump to just past a new one, which takes its place |
| `T0Builder.CompileIf` | bearssl-0.5/T0/T0Comp.cs:706-709 | `if`, `ifnot` or `ahead`, a body, `then`: never fails, leaves the compiled form and an unchanged stack |
| `T0Builder.CompileIfElse` | bearssl-0.5/T0/kern.t0:10 | `if`, a body, `else`, a body, `then`: the same |
| `T0Builder.CompileWhile` | bearssl-0.5/T0/kern.t0:11-12 | `begin`, a test, `while`, a body, `repeat`: the same |
| `T0Builder.CompileLoop` | bearssl-0.5/T0/T0Comp.cs:710-725 | `begin`, a body, `until`, `untilnot` or `again`: the same |
| `T0Builder.Compile` | bearssl-0.5/T0/T0Comp.cs:706-737 | any nesting of these through the builder never fails, resolves each of its jumps once and yields the compiled form |
| `T0Builder.BuildWord` | bearssl-0.5/T0/WordBuilder.cs:72-84 | a whole word: built exactly when the local names are distinct, with the expected code |
| `T0Structured.Runs` | bearssl-0.5/T0/OpcodeJump.cs:47-50 | compiled code on the CPU does what the statement means, with at least one step per unit of fuel; `Eval` defines the meaning without any jump |
| `T0Structured.RunsWord` | bearssl-0.5/T0/WordBuilder.cs:77-79 | a built word returns where its body falls through or returns |
| `T0Structured.NeverFalls` | bearssl-0.5/T0/WordBuilder.cs:77-79 | where `Build` leaves out the final `ret`, the body never falls through |
| `T0Structured.ControlFlowPreservesMeaning` | bearssl-0.5/T0/WordBuilder.cs:306-384 | the CPU ends in a final state exactly when the structured program does, for every nesting of control flow, every program of mutually calling words and every start |
| `T0Structured.BuiltOk` | bearssl-0.5/T0/WordBuilder.cs:72-84 | code built from any structured body has every jump target in range and does not fall off the end |
| `T0Cpu.Cpu.Push` | bearssl-0.5/T0/CPU.cs:105-114 | pushes, with the buffer doubled when full |
| `T0Cpu.Cpu.Pop` | bearssl-0.5/T0/CPU.cs:97-100 | pops, and fails exactly on an empty stack |
| `T0Cpu.Cpu.Rot` | bearssl-0.5/T0/CPU.cs:129-135 | moves the element at a depth to the top, in place |
| `T0Cpu.Cpu.NRot` | bearssl-0.5/T0/CPU.cs:141-147 | moves the top down to a depth, in place |
| `Rotation.RollInverse` | bearssl-0.5/T0/CPU.cs:129-147 | the two rotations undo each other, at every depth |
| `T0Cpu.Cpu.Enter` | bearssl-0.5/T0/CPU.cs:65-73 | a new frame with zeroed locals that keeps the return point |
| `T0Cpu.Cpu.Exit` | bearssl-0.5/T0/CPU.cs:78-83 | drops the frame and goes back to its return point |
| `T0Cpu.Cpu.Turn` | bearssl-0.5/T0/CPU.cs:65-163 | one turn of the run loop in place equals one step of the specification machine, every error included |
| `T0Cpu.Cpu.Loop` | bearssl-0.5/T0/CPU.cs:65-163 | so do any number of turns |
| `T0Gen.AssignSlots` | bearssl-0.5/T0/T0Comp.cs:1564-1615 | slots: one per distinct piece of C code from 7 on, then one per interpreted word, in order |
| `T0Gen.WordElems` | bearssl-0.5/T0/WordInterpreted.cs:106-121 | the code elements of a word: the local count, then one per opcode, each jump tied to the element it leads to |
| `T0Gen.BuildElems` | bearssl-0.5/T0/T0Comp.cs:1627-1643 | the elements of all words, with the first element of each remembered |
| `T0Layout.GetLength` | bearssl-0.5/T0/CodeElementJump.cs:52-78 | the length of an element in the current round, one byte for a jump that has no address yet |
| `T0Layout.RoundGrows` | bearssl-0.5/T0/T0Comp.cs:1659-1679 | from one round to the next no length ever decreases |
| `T0Layout.SumLe` | bearssl-0.5/T0/T0Comp.cs:1675-1677 | lengths that did not decrease and have equal totals are equal, so comparing totals is enough |
| `T0Layout.Relax` | bearssl-0.5/T0/T0Comp.cs:1659-1679 | the loop ends; then every address is the sum of the lengths before it and the lengths are a fixed point |
| `T0Layout.EncodeAll` | bearssl-0.5/T0/T0Comp.cs:1787-1794 | the code block holds every element at its address, in exactly its length; it fails exactly when an element cannot be encoded |
| `T0Gen.EntryTable` | bearssl-0.5/T0/T0Comp.cs:1796-1806 | the table of entry addresses |
| `T0Gen.Generate` | bearssl-0.5/T0/T0Comp.cs:1564-1806 | the back end fails only for more than 255 locals in one-byte mode; otherwise, below 64 kB and with readable local counts, the image is a faithful translation |
| `T0Vm.DecodeElem` | bearssl-0.5/T0/T0Comp.cs:1898-1945 | at the address of an element the loop reads that element, and every jump lands on its target |
| `T0Vm.OneByteLocals` | bearssl-0.5/T0/T0Comp.cs:1817 | in one-byte mode the local count is read back right exactly when it is below 128 |
| `T0Cases.OpcodeNumbers` | bearssl-0.5/T0/T0Comp.cs:1911-1945 | the number of each built-in word, and a return word of 16 bits for the address and 16 for the local count |
| `T0Cases.CountMisread` | bearssl-0.5/T0/T0Comp.cs:1817 | a raw count of 128 before a zero byte is read as no locals, in two bytes |
| `T0Vm.StepSim` | bearssl-0.5/T0/T0Comp.cs:1898-1972 | one opcode on the CPU and one turn of the emitted loop: `ip` stays the address of the current element, data stacks, locals and packed return words stay in step |
| `T0Vm.RunSim` | bearssl-0.5/T0/T0Comp.cs:1898-1972 | the same over any number of steps |
| `T0Vm.StartSim` | bearssl-0.5/T0/T0Comp.cs:1824-1831 | entering an entry point starts the two machines in step |
| `T0Vm.ImagePreservesMeaning` | bearssl-0.5/T0/T0Comp.cs:1627-1679 | code generation preserves meaning: from an entry point, byte code and opcodes agree after every number of steps |
| `T0Vm.GetLocalExact` | bearssl-0.5/T0/T0Comp.cs:1924-1926 | a local that was never written is read alike exactly when the cell happens to hold the CPU's zero: the emitted code does not clear locals |
| `T0Cases.DirtyCellSeen` | bearssl-0.5/T0/T0Comp.cs:1813-1821 | a one-local word and its image: the CPU returns zero, the emitted loop returns the cell of the return stack, and they agree exactly when that cell was zero |
| `T0Loop.Context.Enter` | bearssl-0.5/T0/T0Comp.cs:1813-1821 | T0_ENTER in place: the return word is packed above the new locals |
| `T0Loop.Context.Return` | bearssl-0.5/T0/T0Comp.cs:1911-1920 | the `ret` case in place |
| `T0Loop.Context.Builtin` | bearssl-0.5/T0/T0Comp.cs:1921-1945 | the other built-in cases in place |
| `T0Loop.Context.Apply` | bearssl-0.5/T0/T0Comp.cs:1947-1959 | a piece of C code as a transformer of the top of the stack |
| `T0Loop.Context.Turn` | bearssl-0.5/T0/T0Comp.cs:1902-1967 | one turn of the emitted loop, on `dp`, `rp` and `ip`, equals one step of its specification, every fault included |
| `T0Loop.Context.Loop` | bearssl-0.5/T0/T0Comp.cs:1898-1972 | so do any number of turns |
| `T0Analyse.MergeSA` | bearssl-0.5/T0/WordInterpreted.cs:127-140 | sets an unknown depth or insists on the known one, and fails exactly on a clash or an offset outside the code |
| `T0Analyse.Analyser.Account` | bearssl-0.5/T0/WordInterpreted.cs:171-210 | the effect of one opcode, with the callee analysed first |
| `T0Analyse.MergeSuccessors` | bearssl-0.5/T0/WordInterpreted.cs:212-225 | the depth reached is recorded at every successor; it fails only on a clash or a full queue |
| `T0Analyse.Analyser.Explore` | bearssl-0.5/T0/WordInterpreted.cs:170-226 | the loop takes at most 2n rounds and never ends having reached a circle of jumps; its result satisfies the equations of every reached opcode, and lies below every other solution of them |
| `T0Analyse.Analyser.Conclude` | bearssl-0.5/T0/WordInterpreted.cs:228-268 | the computed effect is checked against the declared one or taken as it is: a declared effect passes exactly when it fits what the word does, stated in depths and not by a computation |
| `T0Analyse.ComputedFits` | bearssl-0.5/T0/WordInterpreted.cs:247-263 | the computed effect fits, and a declared one fits exactly when it is a super-effect of that |
| `T0Flow.SubEffectMeans` | bearssl-0.5/T0/SType.cs:105-129 | one effect is a sub-effect of another exactly when every behaviour that fits the one fits the other |
| `T0Analyse.Analyser.AnalyseFlow` | bearssl-0.5/T0/WordInterpreted.cs:142-268 | an accepted word has a certificate and no circle of jumps that is ever reached; conversely a word that any certificate covers (depths that agree along every step, with an effect that fits them) is accepted, with the least depths and sizes, unless a queue overflows, which needs more jumps, counted with the chains that they start, than some word has opcodes |
| `T0Exact.DepthsExact` | bearssl-0.5/T0/WordInterpreted.cs:155-226 | the depth at an offset is known exactly when a path of control leads there, and is the sum of the changes along every such path |
| `T0Exact.EffectMeans` | bearssl-0.5/T0/WordInterpreted.cs:228-263 | the arguments of an accepted word are enough wherever control comes, for what is called there too, and its results are there at every return |
| `T0Exact.EffectLeast` | bearssl-0.5/T0/WordInterpreted.cs:247-265 | the effect found for a word that declares none has the least arguments that are enough, and never exits exactly when control comes to no return |
| `T0Exact.FloorServes` | bearssl-0.5/T0/WordInterpreted.cs:168-210 | arguments that are enough at every reached offset make a certificate of any table of depths that agrees with the code |
| `T0Exact.DataExact` | bearssl-0.5/T0/WordInterpreted.cs:191-207 | the announced data stack is the greatest height at any opcode that control comes to, calls counted with what they announce |
| `T0Exact.ReturnEnough` | bearssl-0.5/T0/WordInterpreted.cs:192-229 | no chain of calls below an accepted word has more frames and locals than the announced return stack |
| `T0Exact.ReturnNeeded` | bearssl-0.5/T0/WordInterpreted.cs:192-229 | and some chain of calls has exactly as many |
| `T0Analyse.DropAccepted` | bearssl-0.5/T0/WordInterpreted.cs:247-263 | `: foo drop ;` is accepted with effect (1, 0), whether that was declared or found |
| `T0Chains.RoomNext` | bearssl-0.5/T0/WordInterpreted.cs:212-225 | one round keeps room in the queue for everything still to come, counting each jump with the chain that it starts |
| `T0Chains.DirectCalm` | bearssl-0.5/T0/WordInterpreted.cs:212-217 | there is room from the start in every program in which no jump leads to a jump |
| `T0Chains.CircleEndless` | bearssl-0.5/T0/WordInterpreted.cs:212-217 | from a circle of jumps, of any length, targets can be followed without end |
| `T0Chains.TrapNext` | bearssl-0.5/T0/WordInterpreted.cs:212-225 | once such a jump was met, one is always in hand or waiting in the queue, so the loop does not end by itself |
| `T0Chains.CircleUnreachable` | bearssl-0.5/T0/WordInterpreted.cs:212-225 | so in an accepted word no path of control leads into a circle of jumps |
| `T0Analyse.SpinIsSafe` | bearssl-0.5/T0/WordInterpreted.cs:212-217 | `begin again` has a certificate |
| `T0Analyse.SpinRefused` | bearssl-0.5/T0/WordInterpreted.cs:212-217 | and yet `AnalyseFlow` refuses it, because a jump met again queues its target again until the queue overflows |
| `T0Flow.StepSound` | bearssl-0.5/T0/WordInterpreted.cs:142-268 | one step from a typed state leads to a typed state, within the announced sizes |
| `T0Flow.FlowSound` | bearssl-0.5/T0/WordInterpreted.cs:142-268 | soundness: an accepted word never underflows, never reads or writes below its arguments, is at each offset at exactly the recorded depth, stays within the announced return stack and, up to the growth of one C-coded word, the announced data stack, and leaves the announced number of results |
| `T0Flow.CallsAcyclic` | bearssl-0.5/T0/WordInterpreted.cs:144-152 | below an accepted word every chain of calls meets a new word at each step |
| `T0Flow.NativeGrowthMissed` | bearssl-0.5/T0/Word.cs:150-162 | a concrete accepted program whose C-coded word keeps its declaration: the announced data stack alone is no bound, because that word's growth counts as zero |
| `T0Flow.NativeLower` | bearssl-0.5/T0/Word.cs:150-162 | the number counted is the lower of zero and the change of depth |
| `T0Whole.Analyse` | bearssl-0.5/T0/T0Comp.cs:1501-1520 | every entry point is accepted within the limits, with exact depths, effects and sizes, or one is refused; entry points with a certificate within the limits are accepted where the jumps of each word with their chains fit its queue |
| `T0Whole.Compile` | bearssl-0.5/T0/T0Comp.cs:1501-1806 | code is generated only for interpreted entry points that were accepted within the limits, and is generated whenever those have a certificate, the jumps of each word with their chains fit its queue and the local counts fit a byte |
| `T0Whole.AcceptedImageRuns` | bearssl-0.5/T0/T0Comp.cs:1501-1520 | an accepted entry point, compiled and given the announced stacks, never faults, agrees with the CPU and leaves what is below its arguments alone |
| `T0Whole.SourceToBytes` | bearssl-0.5/T0/T0Comp.cs:1898-1972 | from source to bytes: the emitted code run by the emitted loop ends with a result exactly when the structured source, evaluated without jumps, does |
| `T0Cases.SevenCompiled` | bearssl-0.5/T0/T0Comp.cs:1501-1806 | `: seven 7 ;` is compiled, and below 64 kB its bytes end with 7 |
| `T0Cases.SevenRuns` | bearssl-0.5/T0/T0Comp.cs:1898-1972 | for `: seven 7 ;` every hypothesis holds, and the bytes end with 7 |
| `Bigints.Bigint.SetBit` | crypto/bigint.c:30-33 | sets a bit below BITS and drops one above |
| `Bigints.Bigint.ClrBit` | crypto/bigint.c:35-38 | clears a bit below BITS |
| `Bigints.Bigint.LeftShift` | crypto/bigint.c:40-65 | doubles the value and grows by one bit, or reports overflow at the end of the buffer |
| `Bigints.Bigint.TwosComp` | crypto/bigint.c:67-85 | 2^BITS minus the value, for every nonzero value |
| `Bigints.Bigint.Normalize` | crypto/bigint.c:87-115 | keeps the value of the stored bits, clears every bit above and drops leading zero bytes |
| `Bigints.Bigint.Zero` | crypto/bigint.c:121-125 | zero, in one bit |
| `Bigints.Bigint.IsZero` | crypto/bigint.c:213-225 | true exactly for the value zero |
| `Bigints.Copy` | crypto/bigint.c:203-211 | copies value and length to another structure, and leaves it clean |
| `Bigints.Cmp` | crypto/bigint.c:227-264 | the order of the values, whatever their stored lengths |
| `Bigints.Add` | crypto/bigint.c:266-326 | the sum, with full aliasing; fails exactly when it needs more than the buffer |
| `BigArith.Arith.Mul` | crypto/bigint.c:328-352 | the product, with full aliasing; succeeds exactly when the second factor has no bits or the lengths add up to at most 1191 |
| `BigArith.Arith.LongDivide` | crypto/bigint.c:390-446 | restoring division by adding the two's complement: exact remainder, quotient modulo 2^(BITS(a)/2+1); 1 exactly when `DivFails` holds |
| `BigArith.Arith.Div` | crypto/bigint.c:354-449 | exact remainder with `r` aliasing `a` allowed, quotient modulo 2^(BITS(a)/2+1); 2 exactly for a zero divisor or `q` equal to `r`; never 3; else 1 exactly when `DivFails` holds |
| `BigArith.DivFailsIff` | crypto/bigint.c:390-446 | for every divisor but one stored in 1189 or 1190 bits with two or more leading zeros: overflow exactly when the dividend is stored in 1191 bits, or the divisor is and is not greater than the dividend |
| `DivWidth.StopsOnlyIf` | crypto/bigint.c:393-403 | the remainder buffer, which grows by a bit for each bit read and is cut to whole bytes after each subtraction, is full before the last bit only where `Overruns` says so |
| `DivWidth.MustStop` | crypto/bigint.c:393-403 | and where `Overruns` says so it is full |
| `DivWidth.OverrunNeeds` | crypto/bigint.c:393-436 | which takes a divisor stored in 1189 or 1190 bits with at least two leading zeros |
| `DivCase.PaddedDivisorFails` | crypto/bigint.c:354-449 | 2^1185+1 stored in 1190 bits, dividing a number of 1188 bits: overflow is reported although everything fits |
| `DivCase.TightDivisorDivides` | crypto/bigint.c:354-449 | the same two numbers with the divisor stored in 1186 bits are divided |
| `BigArith.Arith.Reduce` | crypto/bigint.c:416-436 | one conditional subtraction of the divisor |
| `BigArith.PowerDigit` | crypto/bigint.c:476-495 | squaring and multiplying keeps the power of the exponent bits read so far |
| `BigArith.Arith.ExpMod` | crypto/bigint.c:451-500 | a^b mod c despite every alias, 1 for an exponent without bits, 2 exactly for c zero, and 0 always for a nonzero c of at most 592 bits and an a below 1191 bits |
| `RsaSign.ExpMod` | crypto/rsasign.py:34-48 | the table of squares gives a^b mod c: the same function as the C code's |
| `Hex.HexRoundTrip` | crypto/rsasign.py:75-80 | the hexadecimal text of a number reads back as that number |
| `Hex.HexDigits` | crypto/bigint.c:127-136 | the digits and their values, in both cases |
| `Rsa.FromHex` | crypto/bigint.c:138-182 | parses exactly the hexadecimal texts of at most 297 digits, to their value |
| `Rsa.PubkeyDecrypt` | crypto/rsa.c:4-16 | refuses a cipher longer than the modulus; else the public power; always succeeds for a nonzero modulus of at most 592 bits |
| `Rsa.Unpack` | http/url_ota.c:249-263 | the 32 bytes are the big-endian form of the decrypted number if it is stored in at most 32 bytes, and the loops write past them exactly if it is not |
| `Rsa.FitsIff` | http/url_ota.c:258-263 | for a decrypted number, which is stored without leading zeros, that is exactly when it is below 2^256 |
| `Rsa.UnpackOverflows` | http/url_ota.c:258-263 | 2^256 is written past the end |
| `Rsa.CheckNumber` | http/url_ota.c:258-272 | unpacking and comparing: an overflow exactly from 2^256 on, else the bytes compared are those of the decrypted number |
| `Rsa.SameTextIff` | http/url_ota.c:268-272 | `os_strncmp` sees the bytes up to the first NUL, that one included, and no others |
| `Rsa.SameTextExact` | http/url_ota.c:268-272 | on a hash without a zero byte that is equality, and a first byte that differs is always seen |
| `Rsa.SameTextBlind` | http/url_ota.c:268-272 | two hashes that differ only behind a zero byte are taken for the same |
| `Rsa.Check` | http/url_ota.c:238-273 | for every URL, key and hash, which verdict means what: no signature, a bad text (both exactly), too long a number, an overflow, or a comparison of the hash with what the signature opens to |
| `Rsa.VerdictIs` | http/url_ota.c:238-273 | for a modulus of at most 592 bits there is one verdict for each URL, hash and key |
| `Rsa.FoundGood` | http/url_ota.c:258-272 | a signature found good opens to bytes that agree with the hash up to its first zero byte, and so to the hash itself if it has none |
| `Rsa.SignedPasses` | http/url_ota.c:238-273 | whatever verdict such a check gives, it is that the bytes are the same if the URL carries the signer's signature |
| `Rsa.SignatureOpens` | crypto/rsasign.py:34-48 | the public power undoes the private one on every hash below the modulus (sections 5.2.1 and 5.2.2 of RFC 8017) |
| `Rsa.SignAndCheck` | http/url_ota.c:239-271 | sign, print, parse, decrypt, unpack and compare: the signature is found good and the 32 bytes of the hash come back |
| `Rsa.KeyExample` | crypto/rsapubkey.py:1-20 | keys as assumed exist: modulus 15 and exponents 3 and 3 |
| `Sha256.RrotateRotates` | crypto/sha256.c:104-109 | `rrotate` is a true rotation although its mask keeps one bit too many |
| `Sha256Origin.FirstPrimes` | crypto/sha256.c:7-21 | the table PRIMES holds the first 64 prime numbers, in order |
| `Sha256Origin.RoundConstants` | crypto/sha256.c:7-21 | each of the 64 constants is the first 32 bits of the fraction of the cube root of its prime (section 4.2.2 of FIPS 180-4) |
| `Sha256Origin.InitialHash` | crypto/sha256.c:27-35 | the initial words are those of the square roots of the first eight (section 5.3.3) |
| `Sha256Origin.ChooseBits` | crypto/sha256.c:137 | bit by bit, `ch` takes the second word's bit where the first has a one, else the third's |
| `Sha256Origin.MajorityBits` | crypto/sha256.c:140 | bit by bit, `maj` takes what at least two of three have |
| `Sha256Origin.SigmaBits` | crypto/sha256.c:126-139 | which three bits each of the four sigma functions adds up |
| `Sha256Origin.WordOrder` | crypto/sha256.c:122-124 | words are read and written most significant byte first |
| `Sha256.Schedule` | crypto/sha256.c:122-130 | the schedule of section 6.2.2 of FIPS 180-4 |
| `Sha256.RoundInPlace` | crypto/sha256.c:135-151 | one round in place |
| `Sha256.Consume` | crypto/sha256.c:111-155 | one block of the hash computation |
| `Sha256.Sha256State.Init` | crypto/sha256.c:27-39 | the state of the empty message |
| `Sha256.Sha256State.Proc` | crypto/sha256.c:41-57 | after any calls at all the state is that of the bytes passed so far, however they were cut |
| `Sha256.Sha256State.Done` | crypto/sha256.c:59-102 | the hash of the message padded with its length in bits modulo 2^32, one block or two |
| `BlockStream.FieldCorrectIff` | crypto/sha256.c:82-92 | that length field is the right one exactly for messages below 2^29 bytes |
| `BlockStream.LittleFieldCorrectIff` | crypto/md5.c:86-96 | the same for the field that MD5 writes with its least significant byte first |
| `BlockStream.FirstWrongField` | crypto/sha256.c:82-92 | a message of 2^29 bytes gets a length field of zero |
| `BlockStream.ChopPadded` | crypto/sha256.c:65-80 | the blocks of the padded message are those consumed and then one or two more |
| `Sha256.StreamingIsSHA256` | crypto/sha256.c:59-102 | below 2^29 bytes the result is SHA-256, sections 5.1.1 and 6.2.2 of FIPS 180-4 |
| `Md5.OperationInPlace` | crypto/md5.c:131-151 | one operation of section 3.4 of RFC 1321, in place |
| `Md5.Consume` | crypto/md5.c:116-155 | one block |
| `Md5.Md5State.Init` | crypto/md5.c:34-42 | the state of the empty message |
| `Md5.Md5State.Proc` | crypto/md5.c:44-61 | the state depends on the bytes passed so far alone |
| `Md5.Md5State.Done` | crypto/md5.c:63-106 | the hash of the message padded with its length in bits modulo 2^32 |
| `Md5.StreamingIsMD5` | crypto/md5.c:63-106 | below 2^29 bytes the result is MD5, sections 3.1 to 3.5 of RFC 1321 |
| `Md5Example.HashOfAbc` | crypto/md5.c:7-28 | MD5 of the text abc is that of section A.5 of RFC 1321, worked through all 64 operations with every entry of the tables |
| `Md5.HashInPlace` | crypto/md5.c:108-114 | the hash may overwrite the buffer it was computed from |
| `Base64.Encode` | crypto/base64.c:69-106 | the encoded text and its length, or -1 exactly when the buffer is too small, in which case nothing is written |
| `Base64.Decode` | crypto/base64.c:9-67 | -2 exactly for a bad text, -1 exactly when the buffer is too small, else the decoded bytes |
| `Base64.MapInverse` | crypto/base64.c:108-136 | the two character maps are inverse on the alphabet |
| `Base64.MapIsTable` | crypto/base64.c:108-120 | and they are the table of section 4 of RFC 4648 |
| `Base64.MapInverseBack` | crypto/base64.c:26-30 | the other way round too, and no other character is admitted |
| `Base64.Group4` | crypto/base64.c:34-62 | four characters without padding are the encoding of what they decode to |
| `Base64.Vectors` | crypto/base64.c:69-106 | the groups of three, two and one bytes of section 10 of RFC 4648 |
| `Base64.RoundTrip` | crypto/base64.c:9-136 | decoding inverts encoding on every byte string (section 4 of RFC 4648) |
| `CramMd5.Inner` | smtp/smtp.c:458-471 | the inner digest, put over the text it was computed from |
| `CramMd5.Digest` | smtp/smtp.c:437-478 | HMAC in one reused buffer is the HMAC of section 2 of RFC 2104 |
| `CramMd5.HmacBlocks` | smtp/smtp.c:437-478 | HMAC in the words of section 2 of RFC 2104: the key filled up with zeros, added to the bytes 36 and 5C |
| `CramMd5.HmacLongKey` | smtp/smtp.c:429-433 | a key longer than a block counts as its hash |
| `CramMd5.MakeKey` | smtp/smtp.c:429-433 | the key, padded with zeros or hashed |
| `CramMd5.Respond` | smtp/smtp.c:404-518 | the bytes sent for every challenge, user and password, and exactly when the challenge is refused |
| `CramMd5.LongestChallenge` | smtp/smtp.c:404-427 | a challenge is answered up to 168 characters |
| `CramMd5.LineReads` | smtp/smtp.c:496-503 | the line holds the user, a space and two lower-case digits for each byte of the digest |
| `CramMd5.ServerSees` | smtp/smtp.c:485-518 | they decode to user, a space and the lower-case digest (section 2 of RFC 2195), for every accepted user name except one of 223 bytes, which loses the last digit |
| `Ota.SectorsHarmless` | http/url_ota.c:88-128 | for every flash size and every admitted length, every sector a push can touch, the rounded-up last one included, lies in the inactive partition and is apart from the running image, the boot sector, the three parameter sectors and the last 16 kB |
| `Ota.PartitionMap` | http/url_ota.c:105-128 | each application starts a sector into its half and ends 16 kB before its end; the parameters are the last three sectors of the first half |
| `Ota.HarmlessMeans` | http/url_ota.c:88-128 | what harmless means for every byte of a sector, in addresses |
| `Ota.FlashSizes` | http/url_ota.c:88-103 | the size that each map stands for |
| `Ota.Device.Setup` | http/url_ota.c:83-129 | the checks at the start, and exactly which pushes they admit |
| `Ota.Device.Chunk` | http/url_ota.c:146-184 | one turn of the loop keeps: whole sectors in flash and hashed, the rest in the buffer |
| `Ota.Device.EraseAndWrite` | http/url_ota.c:162-174 | erase and write touch one harmless sector and may fail |
| `Ota.Device.ReadBack` | http/url_ota.c:202-224 | the read-back pass hashes exactly the bytes of the application |
| `Ota.Device.Verify` | http/url_ota.c:192-224 | both hashes are the SHA-256 of the client's own body, and the flash holds it |
| `Ota.Device.Push` | http/url_ota.c:67-232 | one call of the handler up to the check of the signature: it is verified exactly for a push that may go on, without a flash fault and with its body complete, and stays open exactly for one that is not complete |
| `Ota.Device.Deliver` | http/url_ota.c:131-190 | any interleaving of any number of clients keeps this and ends the same, and only harmless sectors are ever touched |
| `Update.Checker.Check` | http/url_ota.c:238-273 | the check on the handler's own state keeps its invariant and says of every URL what the verdict means |
| `Update.Handle` | http/url_ota.c:67-306 | the handler as a whole: closed, judged and accepted exactly when the source does; a complete push without a flash fault that carries the signer's signature of its body is accepted, an incomplete one stays open, and what an accepted signature opens to is the hash of the body unless that holds a zero byte |
| `Update.SignedIsGenuine` | crypto/rsasign.py:34-80 | a URL made from the path and the signer's output carries such a signature |
| `Smtp.Client.Send` | smtp/smtp.c:44-103 | starts a session exactly from the ready state with an account and fields that fit |
| `Smtp.Client.OnResolved` | smtp/smtp.c:105-116 | goes on to connect, or fails |
| `Smtp.Client.OnConnected` | smtp/smtp.c:152-205 | sends ehlo, or fails; data can arrive from the registration of the receive callback on |
| `Smtp.Client.OnArrived` | smtp/smtp.c:257-294 | the new state and buffer for every state, buffer and data, overflow included; the ready state is entered only from the last state on a 221 |
| `Smtp.Client.OnHangup` | smtp/smtp.c:249-255 | nothing changes but that no more data arrives |
| `SmtpWire.InputLimit` | smtp/smtp.c:264-273 | from 2048 characters on the session fails |
| `Smtp.Client.OnGreet` | smtp/smtp.c:313-372 | any number of 220 and 250 lines up to the last one of the reply |
| `Smtp.Client.OnChallenge` | smtp/smtp.c:374-533 | answers a 334 by what CRAM-MD5 makes of its line, the account and the password, and fails exactly for a line that cannot be decoded, an answer too long or a send that fails |
| `Smtp.Client.OnReply` | smtp/smtp.c:535-775 | each further command only after the reply it needs |
| `Smtp.Client.OnClose` | smtp/smtp.c:777-805 | back to the ready state only on a 221 |
| `Smtp.LengthsExact` | smtp/smtp.c:707-716 | the byte counts passed to send are the lengths of the texts, and nothing is cut off |
| `Smtp.ProperCommands` | smtp/smtp.c:313-805 | a log in which each command follows the reply it needs sends exactly the first commands of the script, with the answer to the challenge that the log holds |
| `SmtpWire.PlainCommands` | smtp/smtp.c:194-770 | the four commands without an argument, each a line of its own |
| `SmtpWire.MessageRead` | smtp/smtp.c:690-722 | a server reads off the message the sender, the recipient and the subject under their own names, and then the body |
| `SmtpWire.EnvelopeRead` | smtp/smtp.c:575-665 | and off the envelope first the sender and then the recipient |
| `SmtpWire.ReplyDecides` | smtp/smtp.c:535-805 | after each command exactly the reply code that is due takes the session on, and any other ends it |
| `SmtpWire.ChallengeDecides` | smtp/smtp.c:374-533 | AUTH goes on exactly with a 334 that can be answered |
| `Smtp.Client.KeepsToScript` | smtp/smtp.c:257-294 | at any time the commands sent are a beginning of ehlo, AUTH, response, mail, rcpt, data, message, quit |
| `Smtp.FailureForgotten` | smtp/smtp.c:105-118 | a whole session to the ready state, a second message whose host is being resolved, an overflow on the first connection, and the answer to the name request: the failure is gone |
| `Smtp.FailureFinalIff` | smtp/smtp.c:44-294 | a failed client stays failed through every further sequence of events if and only if no name or connect request is still to be answered |
| `I2c.Master.StartCondition` | i2c/i2c_master.c:144-153 | from an idle bus or between bytes an observer sees exactly one START |
| `I2c.Master.StopCondition` | i2c/i2c_master.c:161-172 | between bytes an observer sees exactly one STOP, and the bus is idle |
| `I2c.Master.SetAck` | i2c/i2c_master.c:180-193 | exactly one bit, of the given level |
| `I2c.Master.GetAck` | i2c/i2c_master.c:201-218 | exactly one released bit, and the level the slave made of it |
| `I2c.Master.ReadByte` | i2c/i2c_master.c:265-297 | eight released bits, and the byte the slave put on the line |
| `I2c.Master.WriteByte` | i2c/i2c_master.c:305-330 | exactly the eight bits of the byte |
| `I2c.BitsRecover` | i2c/i2c_master.c:316-329 | the observer recovers the byte from its bits |
| `Tsl2561.AddressBits` | drivers/tsl2561.c:89-110 | the bits of the two address bytes on the line: 0111001 and the direction |
| `Tsl2561.WriteReg` | drivers/tsl2561.c:155-182 | for every slave: what an observer sees, on every path, and that the bus ends idle |
| `Tsl2561.ReadReg` | drivers/tsl2561.c:85-115 | the same for a byte read, with the value the slave sent |
| `Tsl2561.ReadWord` | drivers/tsl2561.c:117-153 | the same for a word read, low byte first |
| `Tsl2561.JoinValue` | drivers/tsl2561.c:146-151 | the value is 256 times the second byte and the first |
| `Tsl2561.WriteRecovered` | drivers/tsl2561.c:155-182 | from the lines alone an observer recovers address, register and value, up to the first that the slave refuses |
| `Tsl2561.HeaderRecovered` | drivers/tsl2561.c:89-109 | from the start of a read: address for writing, register and address for reading, up to the first that the slave refuses |
| `Tsl2561.ReadRecovered` | drivers/tsl2561.c:85-153 | the same for the whole of both reads, in which the master leaves SDA released in the slots of the data |

## Left out

- Lexing, immediate words other than those for control flow, data blocks and `CodeElementUIntExpr` with the
  `T0_INT5` path: syntax plumbing, and C expressions unknown to the compiler.
- Constants other than 32-bit numbers (strings, execution tokens, pointers) on the compile-time CPU, and the run-time
  words `roll`, `pick` and `execute`: their stack use depends on data.
- The gathering of reachable words in `Generate`: a program here is the set already gathered.
- T0Gen.Generate: the translation is stated for code below 64 kB and for local counts that the decoder can read,
  because return addresses have 16 bits and one-byte mode writes the count raw; both are what the code relies on.
  `Fair` keeps sizes within the int arithmetic of the compiler.
- T0Whole.SourceToBytes: stated for runs that never read a local before writing it; `GetLocalExact` says what happens
  otherwise.
- T0Structured.ControlFlowPreservesMeaning: covers every nesting of the control words of `kern.t0` lines 10 to 12 and
  `T0Comp.cs` lines 706 to 725; unstructured uses of `cs-pick` and `cs-roll` are covered by the builder's invariant only.
- T0Analyse.Analyser.AnalyseFlow: between a word whose chains of jumps fit its queue and one with a circle of jumps,
  whether the queue overflows depends on the order of exploration and is not decided here.
- Rsa.SignAndCheck: the key is one with at most 592 bits stored in whole bytes, and the hash is below the modulus; the
  arithmetic fact that the two exponents undo each other is its hypothesis.
- The sines that the table of MD5 is made of: its entries are tied to the worked example of RFC 1321 instead.
- `bigint_print`, and reading PEM files.
- Update.Handle: URLs have at most 2^15 characters, the range of the 16-bit index of `bigint_fromhex`; the client stores
  256. What is written past the 32 bytes of the third hash is not modelled further than that it happens.
- HTTP header parsing, responses, and the reboot timer.
- Smtp.Client.OnArrived: stale bytes beyond the used part of the input buffer are not modelled, and received lines hold no
  NUL. Dot stuffing, which the code does not do.
- Smtp.Client.OnResolved: the two callbacks come only after their request, and data only over a connection whose receive
  callback was registered; error and sent callbacks change nothing, and a disconnect, by the
  other side or by the kill timer, only stops the data.
- `i2c_master_init`, electrical timing, and a slave that holds the clock or pulls SDA while the master drives it.
- T0Builder.WordBuilder.Literal: constants are 32-bit numbers, as on the compile-time CPU.
- T0Loop.Context.Apply: C code that leaves the loop by `T0_CO` and is resumed later, or that changes the context other
  than the top of the data stack, is not modelled.
- T0Cpu.Cpu: the linked list of frames is a sequence, so sharing of frames is not modelled.
- Lux calculation, parameter storage, WiFi setup, uptime, HTML pages and the BearSSL headers and tools.
