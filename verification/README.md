# A verified model of the CPU and cache emulator

The repository assembles a small program, runs it on an emulated CPU that is split between
a kernel driver and a userspace client, records every memory access in a kernel trace
buffer, and replays that trace on a configurable cache hierarchy. This project models the
four components in Dafny and proves what each promises, and what they promise together.

* **Cache simulator.** `CacheSets` is one access to one level as a function; `CacheSimulator`
  is the code as classes over way arrays with one shared timer, proved to compute it, and
  `CacheHierarchy` is the driver loop over one to three levels. `Belady` proves that
  furthest-next-use replacement is optimal on the first level when no tag occurs in two
  sets, and `BeladyLimits` that this fails exactly for geometries with several sets of
  several ways. `LruStack` proves that timestamps give exact LRU (stack distance) and LRU
  inclusion, and `LruLimits` for exactly how many accesses the 32-bit timer keeps it exact.
  `ColdMisses` bounds misses by distinct lines; conservation is in `CacheHierarchy`, and
  `HandOnLimits` has the exact trace length up to which 32-bit copies of the hit counters
  keep it.
* **Trace collector.** `TraceBuffer` is the chunked linked list with its persistent read
  cursor, refining a queue; `TraceLoader` is the batch reader with its doubling array.
* **CPU.** `Isa` is the instruction set with atomic steps. `Driver` (registers, program
  counter, flags) and `Client` (memory, second phase of loads and stores) implement it in
  split phases; `MachineRuns` has whole runs, the reference string and the branches;
  `Control` the run, pause and step interrupts against one reader. Machine and program as
  written share a few functions (arithmetic, comparison, branch conditions, words in memory,
  device addresses); `IsaMeaning` and `SourceMeaning` state the instruction set and the
  language without them, in numbers, bits and bytes, and prove that the steps of both are the
  only ones that fit.
* **Assembler.** `CString` and `LineText` are the in-place line buffer and what its
  operations mean; `HashChains`, `HashBuckets` and `LabelTable` the uthash macros that the
  label table reaches, over linked entries; `Parser`, `Assembler` and `Image` the parser,
  the two passes and the code image. `Source` and `SourceRuns` give programs as written,
  with symbolic labels and free layout, an interpreter of their own; `RoundTrip` proves
  that parsing inverts printing, and `AsmCorrect` that the assembled image simulates the
  program as written, step by step, on every run. Numbers keep the sign, prefix, leading
  zeros and letter case they are written with. `AsmExample` shows two of the repository's
  own programs, line for line, to be well-formed; `DevicesExample` and `MaximumExample` run
  two of its programs for every memory and input, as written and on the machine, the second
  with any two numbers in the places of its own.
* **Everything together.** `Pipeline` assembles and runs a program, pushes its accesses into
  the trace buffer, loads them from there and simulates the caches on them.
* `Bits`, `Words`, `Uapi` and `Numerals` hold bit operations, little-endian words, the
  shared constants, numbers as written and `strtoull`.

Registers are 64-bit words as integers with explicit wrap-around; the cache timer and the
hit snapshots are 32-bit, counters 64-bit. Input devices, allocation results and the hash
function are parameters, and results hold for all of them. A method that changes state is
specified by a function of the old state; the theorems are about those functions.

Where documentation and code disagree the model follows the code: the repository's own
README promises auxiliary-carry and overflow flags, which `handle_compare` never sets; it
sets CF exactly when SF, from the wrapped signed difference, so branches follow the signed
order only when the difference fits in 64 bits (`Isa.CompareIsSigned`). The "optimal"
policy compares tags without the set index and is not optimal in general
(`BeladyLimits.OptimalGeometries`). A press of the step button can be counted after the
pause it was meant for (`Control.StaleToken`): that every instruction of a pause is paid for
by a press of that pause holds exactly when no token is held at its start and the reader is
not already past the test with none (`Control.PauseBudget`). A level's misses are meant for
the next one; the comparison with a 32-bit copy of the hit counter hands all of them on for
traces of up to 2^32 + 1 entries and no longer ones (`HandOnLimits.HandOnLimit`).

`dafny verify dfyconfig.toml` checks the whole project.

## Model

| member | source | states |
|---|---|---|
| Belady.OwnRunIsLegal | userspace/src/cache_simulator.c:81-129 | under either policy the simulator's own run is one of the legal replacement histories that optimality compares against |
| Belady.FurthestUseIsOptimal | userspace/src/cache_simulator.c:52-79 | on any trace whose tags are not shared between sets, no choice of victims from an empty cache of this geometry misses less often than furthest-next-use |
| Belady.OptimalCounterIsLeast | userspace/src/cache_simulator.c:93-128 | the level's own miss counter under the optimal policy is at most the misses of any rival and at most the counter under LRU |
| BeladyLimits.OptimalGeometries | userspace/src/cache_simulator.c:62-66 | a geometry makes the policy optimal on every trace if and only if it has one set or one way; otherwise the tag-only search is misled by some trace |
| BeladyLimits.MisledSomewhere | userspace/src/cache_simulator.c:64-65 | for every accepted geometry with several sets of several ways, a trace and a rival that misses strictly less often |
| CacheTheorems.OptimalFirstLevel | userspace/src/cache_simulator.c:344-346 | optimality for level one of a whole simulation, whatever the lower levels are |
| LruStack.ExactLru | userspace/src/cache_simulator.c:81-122 | an access hits exactly when its line was accessed before and fewer than `associativity` other tags of its set since, while stamps grow (the two latest accesses may be out of order) |
| LruStack.ReplayAgrees | userspace/src/cache_simulator.c:115-122 | after every log of growing stamps a set holds exactly the tags followed by fewer than `ways` others, and stamp order is recency order |
| LruStack.Inclusion | userspace/src/cache_simulator.c:81-128 | with the same lines and sets, all that the smaller LRU cache holds is in the one with more ways, after any accesses |
| LruStack.MoreWaysMoreHits | userspace/src/cache_simulator.c:96 | hits never drop as ways are added, after every prefix |
| LruLimits.SingleLevel | userspace/src/cache_simulator.c:82 | in a one-level simulation the timer is the number of entries modulo 2^32, and so are the stamps |
| LruLimits.TimerLimit | userspace/src/cache_simulator.c:13 | a one-level LRU cache is exact on all traces of n entries if and only if n is at most 2^32 + 1 or there is one way |
| LruLimits.NotExact | userspace/src/cache_simulator.c:116-122 | the trace that outlives the timer: the line stamped zero is evicted although it is the most recent, and its next access misses where exact LRU hits |
| CacheTheorems.ExactLruAtEveryLevel | userspace/src/cache_simulator.c:81-122 | exact LRU at each of the levels of a simulation with fewer than 2^32 accesses in all |
| CacheTheorems.FirstLevelInclusion | userspace/src/cache_simulator.c:344-346 | inclusion and monotone hits for level one of two simulations that differ in its ways |
| ColdMisses.EveryLineMisses | userspace/src/cache_simulator.c:102-103 | misses are at least the distinct lines touched, under either policy |
| ColdMisses.OnlyColdMisses | userspace/src/cache_simulator.c:104-111 | they are equal when no set sees more tags than it has ways |
| CacheTheorems.FirstLevelColdMisses | userspace/src/cache_simulator.c:103 | both bounds on the level-one miss counter of a whole simulation |
| CacheSets.NeverTwice | userspace/src/cache_simulator.c:94-111 | no line is ever resident twice in a set |
| CacheSets.AccessTags | userspace/src/cache_simulator.c:93-128 | on resident tags an access adds its own and removes one only on a miss in a full set, the victim's |
| CacheSets.IndexTagIdentifyLine | userspace/src/cache_simulator.c:88-89 | two addresses agree on index and tag exactly when they agree on the line number |
| CacheSets.ShiftsComputeIndexAndTag | userspace/src/cache_simulator.c:85-89 | shifts and mask compute the index and tag when line size and sets are powers of two |
| CacheSets.Counters | userspace/src/cache_simulator.c:96-103 | after every prefix of a log the counters are the numbers of hits and of other accesses |
| CacheConfig.FastLog2 | userspace/src/cache_simulator.c:22-26 | the loop computes the exponent of the largest power of two not above its argument |
| CacheConfig.IsPowerOfTwo | userspace/src/cache_simulator.c:28-30 | the bit test holds exactly for the powers of two |
| CacheConfig.AcceptedGeometry | userspace/src/cache_simulator.c:32-43 | for every configuration that passes the checks the number of sets is a power of two and the sets fill the level, so initialisation cannot fail |
| CacheConfig.AcceptedParameters | userspace/src/cache_simulator.c:243-270 | the accepted parameters listed: one to three levels, lines of 16, 32 or 64, one, two, four or eight ways, and powers of two from one set to 2048, 4096 or 8192 as the level's size |
| CacheHierarchy.MissesAreForwarded | userspace/src/cache_simulator.c:344-358 | accounting of one level's run: the entries handed on are the misses, all of them if and only if none comes after 2^32 hits (for which trace lengths that is so, `HandOnLimits.HandOnLimit` says) |
| CacheHierarchy.SimulationIsFaithful | userspace/src/cache_simulator.c:344-358 | each level replays its own log, the first is served the whole trace in order, each other what the one above hands on, and the timer counts |
| CacheHierarchy.ServedAreMisses | userspace/src/cache_simulator.c:345-356 | the same between two levels of a simulation: a lower level's accesses number the misses above it if and only if no miss comes after 2^32 hits |
| CacheHierarchy.Conservation | userspace/src/cache_simulator.c:407 | for any number of levels and at most 2^32 + 1 entries, hits plus misses of a level are the misses of the one above (the trace for the first), and all hits plus RAM visits are the trace |
| HandOnLimits.HandOnLimit | userspace/src/cache_simulator.c:345-356 | with two or more levels, under either policy, every miss is handed on for all traces of n entries if and only if n is at most 2^32 + 1 |
| HandOnLimits.NotConserved | userspace/src/cache_simulator.c:345-356 | the trace that outgrows the copies: one line 2^32 + 1 times, then another, whose miss the comparison overlooks |
| CacheSimulator.Simulator.FindNextUse | userspace/src/cache_simulator.c:60-69 | the inner scan finds the next use of a tag, or SIZE_MAX if there is none |
| CacheSimulator.Simulator.FindOptimalVictim | userspace/src/cache_simulator.c:52-79 | the two loops with their early exit find the first way whose tag is used furthest in the future |
| CacheSimulator.Simulator.FindLruVictim | userspace/src/cache_simulator.c:116-122 | the loop finds the first way with the least stamp |
| CacheSimulator.Simulator.CacheAccess | userspace/src/cache_simulator.c:81-129 | the method changes level and timer as the access function says, and nothing else |
| CacheSimulator.Simulator.Offer | userspace/src/cache_simulator.c:345-357 | the nested tests serve the levels as the simulation function says |
| CacheSimulator.Simulator.RunCacheSim | userspace/src/cache_simulator.c:315-358 | the whole loop leaves every level in the state of the simulation theorems, for any trace (`Pipeline.RunAndSimulate` feeds it from the loader) |
| TraceBuffer.FirstInFirstOut | trace_collector_driver/trace_collector_driver.c:120-163 | over any interleaving of pushes, failing allocations and reads, everything read is a prefix of everything pushed, in order |
| TraceBuffer.FlatAt | trace_collector_driver/trace_collector_driver.c:137-148 | in packed chunks the entry at a chunk and offset is the one at 256 times the chunk plus the offset |
| TraceBuffer.TraceBuffer.Push | trace_collector_driver/trace_collector_driver.c:68-95 | an entry is appended unless a new chunk is needed and cannot be allocated; the cursor stays and the chunk invariants hold |
| TraceBuffer.TraceBuffer.Read | trace_collector_driver/trace_collector_driver.c:130-162 | the next entries in order, as many as asked for and present, also when the cursor had reached the end before later pushes |
| TraceBuffer.TraceBuffer.Free | trace_collector_driver/trace_collector_driver.c:51-65 | unlinking from the front empties the buffer |
| TraceBuffer.TraceBuffer.Play | trace_collector_driver/trace_collector_driver.c:101-163 | the linked structure refines the queue over any sequence of operations |
| TraceLoader.StoreBatch | userspace/src/cache_simulator.c:164-179 | one doubling always makes room for a batch, and it is stored after what was there |
| TraceLoader.LoadTraces | userspace/src/cache_simulator.c:138-198 | all unread entries in order, within the array; if a reallocation fails, what was loaded is a prefix of them |
| Control.TokensConserved | cpu_driver/cpu_emulator_driver.c:104-116 | under every interleaving the step count is never negative, and presses accepted plus the initial count are those consumed plus those left |
| Control.SwitchesFollowed | cpu_driver/cpu_emulator_driver.c:78-102 | under every interleaving the CPU is running if and only if the run switch has ever been on, and paused if and only if the latest pause edge says so |
| Control.PressAccepted | cpu_driver/cpu_emulator_driver.c:104-116 | no press is accepted without a pause before it, a step edge, and a high level once the thread wakes |
| Control.LetThrough | cpu_driver/cpu_emulator_driver.c:682-699 | with the condition of the wait met, the reader's own moves execute one instruction, taking a token exactly if there is one |
| Control.HeldBack | cpu_driver/cpu_emulator_driver.c:682 | with it not met the reader keeps waiting and changes nothing, however many moves it makes |
| Control.GetsThrough | cpu_driver/cpu_emulator_driver.c:682-699 | after every interleaving that leaves the reader waiting, its own moves execute an instruction if and only if the run switch has been on and the pause switch is off or a token is left |
| Control.CallsExecute | cpu_driver/cpu_emulator_driver.c:682-699 | n calls undisturbed execute n instructions if running and not paused, one for each token if paused, none before the run switch; tokens go first |
| Control.StepsThrough | cpu_driver/cpu_emulator_driver.c:104-116 | k presses in a pause let exactly k instructions through beside the tokens there already |
| Control.NothingBeforeRun | cpu_driver/cpu_emulator_driver.c:682 | nothing executes before the run switch is set |
| Control.PausedExecutions | cpu_driver/cpu_emulator_driver.c:682-699 | from a pause edge until release at most one instruction executes without a token, none unless already bound to, and all others are paid by tokens held at the edge or pressed since |
| Control.BudgetReached | cpu_driver/cpu_emulator_driver.c:682-699 | that bound is tight: from every reachable state some interleaving lets all of it through without a press |
| Control.PauseBudget | cpu_driver/cpu_emulator_driver.c:682-699 | for every reachable state: a pause beginning there never lets more than the pressed instructions through if and only if no token is held and the reader is not bound to execute without one; more generally, not more than `spare` others if and only if `spare` is at least the budget |
| Control.StaleToken | cpu_driver/cpu_emulator_driver.c:106-112 | such a leaking pause is reachable from zero tokens with no reader inside: a press counted after its pause lets an instruction through a later one |
| Words.LeValueOfBytes | userspace/src/cpu_emulator_userspace.c:13-28 | little-endian bytes of a value read back as the value |
| Words.StoreThenLoad | userspace/src/cpu_emulator_userspace.c:13-28 | an 8-byte store reads back, and disjoint words are untouched |
| IsaMeaning.AluComputes | cpu_driver/cpu_emulator_driver.c:219-350 | the result of ADD and SUB is the sum or difference up to one turn around 2^64, that of AND and OR is right at each of 64 bits, and no other word is |
| IsaMeaning.InvertedBits | cpu_driver/cpu_emulator_driver.c:351-368 | NOT turns every bit around, and only its result does |
| IsaMeaning.AddAndSubtract | cpu_driver/cpu_emulator_driver.c:219-284 | without a carry ADD is addition, adding nothing changes nothing, and SUB and ADD undo each other for all words |
| IsaMeaning.CompareFinds | cpu_driver/cpu_emulator_driver.c:151-183 | CMP finds the signed order, turned around exactly when the difference does not fit |
| IsaMeaning.StepIsMeant | cpu_driver/cpu_emulator_driver.c:213-582 | an outcome of an operation is the machine's step if and only if it has the registers, bytes, flags, program counter and access stated in numbers; 0xFFF0 bounds memory, JMP always jumps |
| IsaMeaning.DecodedAsEncoded | cpu_uapi.h:6-40 | an instruction decodes to an operation if and only if its fields are the numbers of that operation's encoding |
| Isa.CompareIsSigned | cpu_driver/cpu_emulator_driver.c:174-183 | a comparison finds the signed order if and only if the difference fits in 64 signed bits; equality is always found |
| Isa.OrderFixedByCompare | cpu_driver/cpu_emulator_driver.c:151-173 | only CMP changes what branches see |
| Isa.AccessInBounds | cpu_driver/cpu_emulator_driver.c:429-438 | every load and store stays inside memory with all its eight bytes |
| Driver.FlagsFollowResult | cpu_driver/cpu_emulator_driver.c:151-173 | the flags determine exactly one order, and CF always equals SF |
| Driver.FlagBits | cpu_driver/cpu_emulator_driver.c:151-173 | the flag register after a comparison: bit 6 for zero, bits 7 and 0 for negative, all others as they were |
| Driver.CodesInNumbers | cpu_uapi.h:43-48 | the result code of each operation as a number |
| Driver.BranchTests | cpu_driver/cpu_emulator_driver.c:540-572 | the three flag tests are the three orders, so exactly one of JE, JG, JL is taken |
| Driver.Cpu.CompareValues | cpu_driver/cpu_emulator_driver.c:174-183 | after CMP the flags show the order of the wrapped signed difference |
| Driver.Cpu.ExecuteInstruction | cpu_driver/cpu_emulator_driver.c:213-582 | for every encoding: what does not decode is rejected and changes nothing, a memory access that names no register is passed on all the same, and the rest performs the driver's half of its operation |
| Driver.Cpu.Write | cpu_driver/cpu_emulator_driver.c:647-659 | an instruction becomes pending, or a value completes the pending load into its register |
| Driver.Cpu.Read | cpu_driver/cpu_emulator_driver.c:699-720 | executes the pending instruction, also while a load still waits, and reports address and value of the access asked for |
| Client.SplitPhase | userspace/src/cpu_emulator_userspace.c:92-126 | the driver's half followed by the client's half of any operation is one atomic step |
| Client.Client.ReadFromMemory | userspace/src/cpu_emulator_userspace.c:13-20 | the loop of shifts and ors reads the little-endian word |
| Client.Client.WriteToMemory | userspace/src/cpu_emulator_userspace.c:22-28 | the loop writes the word and nothing else |
| Client.Client.Iterate | userspace/src/cpu_emulator_userspace.c:69-135 | one iteration equals one atomic step on registers, program counter, flags, memory and output, and pushes its data access and the next fetch; past the program's last instruction it stops after the driver's half, with nothing pushed |
| MachineRuns.Run | userspace/src/cpu_emulator_userspace.c:68-135 | n iterations of the loop are n atomic steps with their trace, up to a halt, an error, or the exit for too large an instruction index |
| MachineRuns.RunMeant | userspace/src/cpu_emulator_userspace.c:68-135 | every iteration inside the program does what the eleven bytes at its program counter stand for, and records its access and the next fetch |
| MachineRuns.LeavesProgram | userspace/src/cpu_emulator_userspace.c:85-89 | the exit past the program is taken exactly for an index not below the count, once the driver has accepted the instruction; nothing is recorded and memory stays |
| MachineRuns.ReferenceString | userspace/src/cpu_emulator_userspace.c:59-131 | on an error-free run the trace is exactly, in order, one fetch per executed instruction followed by its data access |
| MachineRuns.RecordedTrace | userspace/src/cpu_emulator_userspace.c:59-131 | on every run that stays in its program, also a failing one: each instruction taken up has its place in the trace, a read at its program counter, followed before the next place by exactly its data access with address and type |
| MachineRuns.LatestCompareDecides | cpu_driver/cpu_emulator_driver.c:502-572 | through any number of other instructions branches see the latest comparison |
| MachineRuns.BranchDecided | cpu_driver/cpu_emulator_driver.c:502-572 | at any branch after a comparison exactly one of JE, JG, JL is taken, and it is the one for the signed order of the operands compared last if and only if their difference fits in 64 signed bits |
| MachineRuns.DifferenceWraps | cpu_driver/cpu_emulator_driver.c:174-183 | -2^63 against 1: the smaller operand is found greater |
| MachineRuns.JumpGoes | cpu_driver/cpu_emulator_driver.c:535-572 | a jump of a run: JMP always goes to its target, JE exactly when the order is equal, JG greater, JL less; otherwise the next instruction follows |
| MachineRuns.JumpsBySign | cpu_driver/cpu_emulator_driver.c:502-572 | through any number of other instructions, a conditional jump goes by the signed order of the operands compared last, if their difference fits |
| MachineRuns.TraceInBounds | userspace/src/cpu_emulator_userspace.c:100-131 | every access that a run inside memory records has its eight bytes in memory |
| LineText.SplitThree | userspace/src/assembler.c:94-154 | three fields are found whatever spaces surround them |
| LineText.SplitTwo | userspace/src/assembler.c:130-153 | a lone operand at the line's end is found as the third part |
| LineText.SplitTwoSpaced | userspace/src/assembler.c:121-153 | followed by spaces it is found as the second part |
| LineText.StrippedStaysNonEmpty | userspace/src/assembler.c:19-39 | a line that is not empty is not emptied by stripping its comment |
| CString.CString.Remove | userspace/src/assembler.c:98 | the move shifts the text after a position, and its terminator, by one place |
| CString.CString.DropSpaces | userspace/src/assembler.c:96-99 | the shifting loop terminates and removes exactly the spaces at a position |
| CString.CString.SplitFields | userspace/src/assembler.c:94-154 | the in-place split returns the three parts of the split function and leaves the squeezed text |
| CString.CString.Empty | userspace/src/assembler.c:28-39 | the loop decides emptiness |
| Numerals.ReadsBack | userspace/src/assembler.c:156-169 | every number as written, with any sign, prefix, leading zeros and letter case and a value below 2^64, is read completely, without overflow and as the word it denotes |
| Numerals.DigitsInOrder | userspace/src/assembler.c:318 | the value of each digit up to sixteen, in either letter case |
| Numerals.EveryWordWritten | userspace/src/assembler.c:317-318 | every word can be written in either base |
| HashChains.PushFront | userspace/inc/uthash.h:767-776 | an entry linked in front of a chain makes a well-linked longer chain |
| HashChains.UnlinkChain | userspace/inc/uthash.h:789-802 | unlinking an entry leaves its chain without it, well linked |
| HashChains.UnlinkList | userspace/inc/uthash.h:464-471 | unlinking an entry leaves the insertion-order list without it, well linked |
| HashBuckets.RedistributedPlaced | userspace/inc/uthash.h:850-870 | redistribution keeps every item, once, in the bucket that its hash value and the new size select |
| HashBuckets.BucketIsRemainder | userspace/inc/uthash.h:429-432 | the bucket is the hash value modulo the number of buckets |
| HashBuckets.DoublingSplits | userspace/inc/uthash.h:850-870 | doubling leaves an item in bucket b or moves it to b + n, by the next bit of its hash value |
| HashBuckets.IdealIsCeiling | userspace/inc/uthash.h:846-848 | shift and mask compute items over buckets, rounded up |
| LabelTable.Redistribute | userspace/inc/uthash.h:850-870 | the rehash loops rebuild all chains, count the items beyond the ideal length and set the multipliers |
| LabelTable.LabelTable.ExpandBuckets | userspace/inc/uthash.h:833-883 | buckets double, the ideal length is the ceiling, and expansion is inhibited after two ineffective doublings |
| LabelTable.LabelTable.Find | userspace/inc/uthash.h:745-764 | walking one chain finds the entry of a key exactly when the map has it |
| LabelTable.LabelTable.AddToTable | userspace/inc/uthash.h:337-345 | the entry joins its chain, and the table doubles exactly when the chain reaches its threshold and expansion is allowed |
| LabelTable.LabelTable.Put | userspace/src/assembler.c:41-55 | the map gains or updates one key, cut to what an entry holds; insertion order grows only for a new key |
| LabelTable.LabelTable.Get | userspace/src/assembler.c:57-67 | the last value put for the key, or nothing |
| LabelTable.LabelTable.Delete | userspace/inc/uthash.h:450-477 | one entry leaves list, chain and map, and the last one takes the table with it |
| LabelTable.LabelTable.DeleteAll | userspace/src/assembler.c:521-525 | the final loop visits every entry once, in insertion order, and ends empty |
| Parser.ParseLine | userspace/src/assembler.c:171-372 | the parser with its in-place edits computes the instruction that the fields of the line stand for |
| RoundTrip.FieldsFound | userspace/src/assembler.c:171-182 | the parser finds the fields of any laid-out instruction |
| RoundTrip.ParsePrinted | userspace/src/assembler.c:171-372 | parsing a written instruction gives opcode, mode and meaningful operands, however its numbers are spelled and whatever spaces, comma, comment and line end surround its fields |
| RoundTrip.EncodingDecodes | cpu_driver/cpu_emulator_driver.c:213-582 | the CPU decodes an encoding to the operation that the instruction stands for |
| SourceMeaning.StepGoesOn | cpu_driver/cpu_emulator_driver.c:213-582 | a program can go on from a line in exactly one way, the interpreter's step: what its instruction means is stated by numbers, bits, bytes and device addresses, and jumps by the lines of labels |
| Assembler.CountedIsEmitted | userspace/src/assembler.c:479 | pass one counts exactly the lines that pass two emits |
| Assembler.TwoPassAgreement | userspace/src/assembler.c:417-435 | at every line the line number of pass one is the number of instructions of pass two, modulo 2^64 |
| Assembler.LabelValue | userspace/src/assembler.c:426-431 | a label, as far as the table keeps it, stands for the index of the next instruction after its last definition, or of the final HALT |
| Assembler.DefinedSomewhere | userspace/src/assembler.c:429 | every label in the table has a defining line |
| Assembler.FirstPass | userspace/src/assembler.c:414-435 | the loop fills the label table as pass one says |
| Assembler.SecondPass | userspace/src/assembler.c:444-503 | the loop emits the instructions and texts of pass two, and the doubling arrays always keep a free place |
| Assembler.ParseAssembly | userspace/src/assembler.c:405-528 | both passes and the appended HALT give the assembled program and its texts |
| Image.StoreMachineCode | userspace/src/assembler.c:530-545 | the image is stored in front of untouched memory if it fits with room for one more, and otherwise nothing changes |
| Image.LargestImage | userspace/src/assembler.c:532 | with 64 KiB there is room for exactly the images of at most 5956 instructions |
| Image.FetchImage | userspace/src/cpu_emulator_userspace.c:30-40 | what is fetched at an instruction's place is the instruction |
| Image.StoreBeyondImage | userspace/src/cpu_emulator_userspace.c:22-28 | a store beyond the image leaves it intact |
| AsmCorrect.LabelResolved | userspace/src/assembler.c:426-431 | in a well-formed program each label resolves to the number of instructions before its line |
| AsmCorrect.CompiledAt | userspace/src/assembler.c:469-501 | the CPU decodes at the place of each line's instruction that very instruction |
| AsmCorrect.TextAt | userspace/src/assembler.c:469-497 | the text kept for an instruction is its line without the newline, at the same index |
| AsmCorrect.StepsAgree | userspace/src/cpu_emulator_userspace.c:69-135 | from related states one machine step and one step of the program as written agree on outcome and new state |
| AsmCorrect.RunsAgree | userspace/src/assembler.c:405-545 | after any number of steps, for any input, machine and program agree on status, registers, order, memory and output, with the program counter at the line's place |
| AsmCorrect.LinesMeant | userspace/src/assembler.c:405-545 | in every iteration the machine does what the line that the program has reached means, for every well-formed program and input |
| AsmCorrect.DeviceStores | cpu_driver/cpu_emulator_driver.c:440-481 | on the machine a store to 0xFFFF ends the run, one of 0 or 1 to 0xFFFE sets the output, and any other to a device address fails |
| AsmCorrect.WholeRunBounds | userspace/src/cpu_emulator_userspace.c:85-89 | in every reachable state the program counter is a multiple of 11 inside the image, the image is intact, and all recorded accesses are in memory |
| AsmCorrect.NeverLeaves | userspace/src/cpu_emulator_userspace.c:85-89 | the exit for too large an instruction index is never taken on any run of a well-formed program, and the client never reaches outside memory |
| AsmCorrect.ProgramReferences | userspace/src/cpu_emulator_userspace.c:59-131 | the reference string of every error-free run of a well-formed program |
| AsmCorrect.ProgramTrace | userspace/src/cpu_emulator_userspace.c:59-131 | on every run of a well-formed program, also a failing one, the trace is the reads at the places of the lines taken up, each followed by the access its line is written with |
| AsmExample.InfiniteLoopIsWellFormed | userspace/doc/infinite_loop.txt:1-6 | this file, line for line, is what a well-formed program is written as |
| AsmExample.DevicesIsWellFormed | userspace/doc/test4.txt:1-5 | so is this one, with device addresses in upper case, comments and no final newline |
| DevicesExample.DevicesRun | userspace/doc/test4.txt:1-5 | for every memory and input: the output is lit after two steps, R0 has the input after three, and the last line is accepted exactly if the input was one |
| DevicesExample.DevicesOnMachine | userspace/doc/test4.txt:1-5 | the same of the machine that runs its image, and the addresses it records |
| MaximumExample.FileIsWellFormed | userspace/doc/test1.txt:1-24 | this file, line for line, is what a well-formed program is written as |
| MaximumExample.LeavesMaximum | userspace/doc/test1.txt:1-24 | with any two numbers in its second and third line the program ends within nine steps and leaves their signed maximum in R3 if and only if their difference fits in 64 signed bits |
| MaximumExample.FileOnMachine | userspace/doc/test1.txt:1-24 | on the machine the file's own program ends with 87 in R3 |
| AsmCorrect.AssembleAndRun | userspace/src/main.c:22-34 | assembling, loading and running ends with the status, registers, memory, output and trace of the program as written |
| Pipeline.SimulatedBounds | userspace/src/cache_simulator.c:344-346 | on any trace the first level misses at least once a line, exactly once when its sets suffice, and under furthest-next-use no more than any rival when no tag is shared between sets |
| Pipeline.RunAndSimulate | userspace/src/main.c:22-51 | from source text to cache counters: the status is that of the program as written, the levels are simulated on what went through the trace buffer and the loader, which is the reference string of the lines taken up, and the first level meets its bounds on it |

## Left out

- LabelTable.LabelTable.Put: a key of 64 characters or more whose first 63 are in the table already is excluded; `put` would then add a second entry with the same key, and the table would no longer be a map.
- Assembler.ParseAssembly: such labels and lines that make `parse_line` follow a null pointer are excluded, and input is a sequence of lines as `fgets` returns them, so the splitting of longer lines is not modelled.
- AsmCorrect.RunsAgree: states the result for well-formed programs only; undefined or repeated labels, labels of 64 characters or more, numbers of 2^64 and more or followed by other characters, separators in names, tabs between fields, oversized images and stores into the image are outside.
- LruStack.ExactLru: holds while stamps grow; the exact limit of the timer is stated for one level (`LruLimits.TimerLimit`), for several levels only that fewer than 2^32 accesses in all suffice.
- CacheTheorems.OptimalFirstLevel: nothing is claimed for the second and third level, where the policy looks ahead in the whole trace rather than in the misses above.
- TraceBuffer.TraceBuffer.Push: the kernel list is singly linked here, and a chunk's entries are a sequence field of the chunk.
- Driver.Cpu.Read: a store that names no register is excluded, because the driver then follows a null pointer.
- Driver.Cpu.Write: so is a value for a load that names no register.
- Client.Client.Iterate: assumes for the same reason that memory modes name one of the four registers, and that the next fetch is in memory; both are proved for well-formed programs.
- MachineRuns.Run: assumes the same of every step it takes.
- Pipeline.RunAndSimulate: pushes and allocations succeed and the accesses are pushed when the run is over; failing ones are covered by `TraceBuffer.FirstInFirstOut` and `TraceLoader.LoadTraces`.
- Control: one reader; other openers of the device would share the atomics.
- Wrap-around of uthash's 32-bit counts and bucket numbers, and its out-of-memory paths.
- Floating-point miss rates and all printing; prompts and their retry loop.
- The multi-level `if` of the simulation loop is written as a recursion over a sequence of levels.
- GPIO set-up, LEDs, interrupt registration, delays, character devices, user and kernel copying, module start and exit.
- Failing system calls on the devices, and errors of the input line.
