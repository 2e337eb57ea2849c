# Tomasulo simulator core, modelled in Dafny

This project models the cycle-by-cycle engine of a Tomasulo-algorithm simulator (package
`com.example.tomasulo`). The engine has these parts:

- the reservation stations and their manager;
- the register file with its producer tags;
- the load/store buffer with its address-clash checks;
- the direct-mapped write-back cache and its blocks, in front of a 64 KB byte memory;
- the branch unit and the execution state (clock, instruction pointer, trace, log);
- the text assembler that turns a program into instructions;
- the simulator's `step`: issue, execute, end-of-execution check, write-back on one common
  data bus, and the completion check.

Every Java object becomes an immutable datatype, and every mutating method becomes a function
from the old value to the new one. Reservation stations are identified by their index in the
station list rather than by their name. A Java operation that can throw (a null register name,
a missing operand string, a negative memory index) returns `Result<_, Fault>`, and the fault
says which exception it stands for. The `int` sums whose overflow changes behaviour wrap as in
Java (`JavaInt.Wrap32`, `JavaInt.EffectiveAddress`): effective addresses, both ends of the
cache's hit test, both ends of the buffer's clash test, and branch targets. So do Java's truncating `/` and `%`
(`JavaInt.Quot`, `JavaInt.Rem`) and the saturating `(long)` and `(int)` casts of a double
(`JavaInt.LongOf`, `JavaInt.IntOf`). Memory and cache bytes are `JavaInt.Byte`, the 256 values
of an unsigned byte.

Module layout, one module per source class:

| module | source class |
|---|---|
| `Opcodes` | `InstructionType` |
| `Instructions` | `Instruction` |
| `Text` | the `String`/`Integer` library calls the code relies on |
| `JavaInt` | Java integer arithmetic |
| `ByteCodec` | `doubleToBytes` / `bytesToDouble` |
| `CacheBlocks`, `Caches` | `CacheBlock`, `Cache` |
| `LoadStoreBuffers` | `LoadStoreBuffer` |
| `RegisterFiles` | `RegisterFile` |
| `Stations`, `StationPools` | `ReservationStation`, `ReservationStationManager` |
| `BranchUnits` | `BranchUnit` |
| `ExecutionStates` | `ExecutionState` |
| `SimStates` | the simulator's fields |
| `IssueStage`, `ExecuteStage`, `WriteBackStage`, `Simulator` | the stages of `TomasuloSimulator` |
| `Parser` | `InstructionParser` |
| `ParserExamples` | a worked example for the parser finding below |

## Model

| member | source | states |
|---|---|---|
| JavaInt.Quot | src/main/java/com/example/tomasulo/core/InstructionParser.java:320 | Java's `/` truncates toward zero: the quotient has the sign of the operands' product and is never rounded away from zero |
| JavaInt.Rem | src/main/java/com/example/tomasulo/components/Cache.java:177-185 | Java's `%`: `a == b * (a / b) + r`, `|r| < |b|`, and a non-zero remainder has the sign of the dividend |
| JavaInt.QuotOfNonNegative | src/main/java/com/example/tomasulo/components/Cache.java:177-185 | on non-negative operands Java's truncating `/` and `%` agree with Euclidean division, as the cache index relies on |
| JavaInt.QuotExactByFour | src/main/java/com/example/tomasulo/core/InstructionParser.java:320 | dividing a multiple of four by four loses nothing, so word-aligned branch offsets are exact |
| JavaInt.LongOf | src/main/java/com/example/tomasulo/core/TomasuloSimulator.java:1063-1064 | the `(long)` cast of an integral double: identity in range, saturating at the two bounds |
| JavaInt.IntOf | src/main/java/com/example/tomasulo/core/TomasuloSimulator.java:303 | the `(int)` cast of a register value: identity in range, saturating at the bounds |
| JavaInt.Wrap32 | src/main/java/com/example/tomasulo/core/TomasuloSimulator.java:858-860 | 32-bit `int` addition wraps: the result is the unique 32-bit value congruent to the exact sum |
| JavaInt.EffectiveAddress | src/main/java/com/example/tomasulo/core/TomasuloSimulator.java:303 | base plus offset as an `int` address: always a 32-bit value, and the exact sum when nothing overflows |
| JavaInt.QuotPositive | src/main/java/com/example/tomasulo/components/Cache.java:21 | with a positive block size, the block count is positive exactly when the cache holds at least one block |
| JavaInt.WrapAbove | src/main/java/com/example/tomasulo/components/Cache.java:47 | an `int` sum past `INT_MAX` by less than 2^32 comes back 2^32 lower, into the negatives |
| ByteCodec.Encode | src/main/java/com/example/tomasulo/core/TomasuloSimulator.java:1063-1070 | encoding yields exactly `size` bytes |
| ByteCodec.Decode | src/main/java/com/example/tomasulo/core/TomasuloSimulator.java:1082-1089 | decoding yields a value in `long` range, and zero for a non-positive size |
| ByteCodec.UnsignedOfEncode | src/main/java/com/example/tomasulo/core/TomasuloSimulator.java:1063-1089 | the bytes written are the low `size` bytes of the long value, little-endian |
| ByteCodec.DecodeEncodeLong | src/main/java/com/example/tomasulo/core/TomasuloSimulator.java:1063-1089 | an 8-byte store followed by an 8-byte load gives back the value as a `long` |
| ByteCodec.DecodeEncode | src/main/java/com/example/tomasulo/core/TomasuloSimulator.java:1063-1089 | round trip for any size up to 8 when the value fits in that many unsigned bytes |
| ByteCodec.Pow256IsPow2 | src/main/java/com/example/tomasulo/core/TomasuloSimulator.java:1063-1089 | a byte position's weight 256^n is 2^(8n), the shift the byte codec uses |
| Opcodes.DefaultLatency | src/main/java/com/example/tomasulo/utils/InstructionType.java:5-36 | every opcode's default latency is at least one cycle |
| Opcodes.FindByMnemonic | src/main/java/com/example/tomasulo/core/InstructionParser.java:291-298 | the lookup returns an opcode whose mnemonic equals the word ignoring case, or none exactly when no mnemonic matches |
| Opcodes.OpcodeNamedMnemonic | src/main/java/com/example/tomasulo/utils/InstructionType.java:48-50 | looking up an opcode's own mnemonic finds that opcode |
| Opcodes.MnemonicsDistinct | src/main/java/com/example/tomasulo/utils/InstructionType.java:5-36 | no two opcodes share a mnemonic |
| Opcodes.SameMnemonicIgnoringCase | src/main/java/com/example/tomasulo/utils/InstructionType.java:5-36 | two mnemonics are equal ignoring case exactly when the opcodes are the same |
| Opcodes.FindOwnMnemonic | src/main/java/com/example/tomasulo/core/InstructionParser.java:216-217 | any spelling of a mnemonic in any letter case finds its opcode |
| Opcodes.FindFromIgnoresCase | src/main/java/com/example/tomasulo/core/InstructionParser.java:291-298 | the lookup gives the same answer for two words that upper-case alike |
| Instructions.Fresh | src/main/java/com/example/tomasulo/core/Instruction.java:20-22 | a new instruction carries its opcode and has none of the timing stamps set |
| Instructions.Copy | src/main/java/com/example/tomasulo/core/Instruction.java:129-140 | a copy keeps the instruction's text fields and clears every timing stamp |
| Instructions.CopyIdempotent | src/main/java/com/example/tomasulo/core/Instruction.java:129-140 | copying depends only on the text fields, and copying a copy changes nothing |
| Instructions.ToString | src/main/java/com/example/tomasulo/core/Instruction.java:143-167 | the printed form starts with the mnemonic and a space |
| Text.Trim | src/main/java/com/example/tomasulo/core/InstructionParser.java:122 | `String.trim` leaves neither a leading nor a trailing character at or below U+0020 |
| Text.TrimSlice | src/main/java/com/example/tomasulo/core/InstructionParser.java:122 | the trimmed text is a contiguous slice of the original |
| Text.TrimOfTrimmed | src/main/java/com/example/tomasulo/core/InstructionParser.java:122-125 | trimming is the identity on text that is already trimmed |
| Text.TrimAfterBlank | src/main/java/com/example/tomasulo/core/InstructionParser.java:147 | a blank before trimmed text is removed |
| Text.IndexOf | src/main/java/com/example/tomasulo/core/InstructionParser.java:140 | `indexOf` finds the first occurrence, or none exactly when the character is absent |
| Text.IndexOfAt | src/main/java/com/example/tomasulo/core/InstructionParser.java:140 | a position holding the character with none before it is what `indexOf` returns |
| Text.SplitOn | src/main/java/com/example/tomasulo/core/InstructionParser.java:115 | splitting at newlines gives pieces without newlines that join back to the text |
| Text.SplitWhitespace | src/main/java/com/example/tomasulo/core/InstructionParser.java:211 | `split("\\s+")` on text not starting with a space gives its maximal runs of non-space characters |
| Text.WordsOfWord | src/main/java/com/example/tomasulo/core/InstructionParser.java:211 | a word followed by a space or by nothing is the first piece of the split |
| Text.WordsOfLoneWord | src/main/java/com/example/tomasulo/core/InstructionParser.java:211 | a single word splits into just itself |
| Text.Upper | src/main/java/com/example/tomasulo/core/InstructionParser.java:216 | upper-casing maps each character independently and keeps the length |
| Text.UpperIdempotent | src/main/java/com/example/tomasulo/core/InstructionParser.java:216 | upper-casing twice is upper-casing once |
| Text.RemoveChar | src/main/java/com/example/tomasulo/core/InstructionParser.java:232 | `replace(",", "")` leaves no comma and changes a comma-free string not at all |
| Text.ParseInt | src/main/java/com/example/tomasulo/core/InstructionParser.java:243 | `Integer.parseInt` accepts only an optional sign followed by digits, and only values in `int` range |
| Text.ParseIntOfToString | src/main/java/com/example/tomasulo/core/InstructionParser.java:243 | printing any `int` and parsing it back gives the same value |
| CacheBlocks.New | src/main/java/com/example/tomasulo/components/CacheBlock.java:18-26 | a new block holds `blockSize` bytes |
| CacheBlocks.NewBlockReadsZero | src/main/java/com/example/tomasulo/components/CacheBlock.java:18-26 | a new block reads zero everywhere and is neither valid nor dirty |
| CacheBlocks.SetData | src/main/java/com/example/tomasulo/components/CacheBlock.java:32-42 | setting data copies the given prefix and keeps the remaining bytes |
| CacheBlocks.WriteByte | src/main/java/com/example/tomasulo/components/CacheBlock.java:80-84 | writing a byte changes that offset only, and an out-of-range offset changes nothing |
| CacheBlocks.WriteBytes | src/main/java/com/example/tomasulo/components/CacheBlock.java:93-97 | writing bytes changes only the in-range offsets they cover |
| CacheBlocks.ReadBytes | src/main/java/com/example/tomasulo/components/CacheBlock.java:99-109 | reading returns the bytes from the offset, cut at the block's end |
| CacheBlocks.ReadAfterWrite | src/main/java/com/example/tomasulo/components/CacheBlock.java:93-109 | bytes written inside a block read back unchanged |
| CacheBlocks.Clear | src/main/java/com/example/tomasulo/components/CacheBlock.java:111-117 | a cleared block is a new block of the same size |
| Caches.New | src/main/java/com/example/tomasulo/components/Cache.java:18-34 | a zero block size throws, a negative array length throws, and otherwise the cache has `cacheSize / blockSize` invalid blocks (none when the cache is smaller than a block), zero counters and a 64 KB memory of zeros; it can be indexed exactly when `0 < blockSize <= cacheSize` |
| Caches.Index | src/main/java/com/example/tomasulo/components/Cache.java:177-185 | the block index is always in range, and is the block number modulo the block count for a non-negative address |
| Caches.Fill | src/main/java/com/example/tomasulo/components/Cache.java:55-60 | a refill copies the block's bytes from memory |
| Caches.WriteBackIfDirty | src/main/java/com/example/tomasulo/components/Cache.java:224-238 | only a valid dirty block is written to memory, and then it is clean |
| Caches.Refill | src/main/java/com/example/tomasulo/components/Cache.java:54-66 | a miss replaces exactly one block with a valid, clean copy of memory based at the accessed address itself |
| Caches.Load | src/main/java/com/example/tomasulo/components/Cache.java:36-78 | a load hits exactly when the indexed valid block covers the access with both ends taken as 32-bit sums; a hit returns the block's bytes and changes only the hit count; a miss leaves the block valid, clean, based at the address and holding memory from there, and no other block changes |
| Caches.ProbeStore | src/main/java/com/example/tomasulo/components/Cache.java:84-97 | a probe reports the hit a store would see, by the same wrapped-end test, with the matching latency, and changes nothing |
| Caches.ProbeMatchesAccess | src/main/java/com/example/tomasulo/components/Cache.java:36-138 | a probe agrees with the store that follows it, and with a load of the same size |
| Caches.Allocate | src/main/java/com/example/tomasulo/components/Cache.java:102-129 | a store's block is valid and covers the start of the access, and no other block changes |
| Caches.Store | src/main/java/com/example/tomasulo/components/Cache.java:99-138 | a store reports what the probe reports, writes its bytes into the block and marks it dirty, changes no other block, and changes memory only through a miss's write-back |
| Caches.StoreThenLoad | src/main/java/com/example/tomasulo/components/Cache.java:36-138 | a load right after a store of the same bytes hits and returns them, when the block's end fits in an `int` |
| Caches.BlockEndPastIntMaxNeverHits | src/main/java/com/example/tomasulo/components/Cache.java:47 | a block whose end passes `INT_MAX` is never hit by an access inside the `int` range |
| Caches.AccessEndPastIntMaxHits | src/main/java/com/example/tomasulo/components/Cache.java:47 | an access whose end passes `INT_MAX` hits any valid block at or below it whose end fits |
| Caches.WriteMemory | src/main/java/com/example/tomasulo/components/Cache.java:140-144 | writing memory changes exactly the in-range addresses written |
| Caches.ReadMemory | src/main/java/com/example/tomasulo/components/Cache.java:169-175 | reading memory returns `size` bytes, zero beyond the end |
| Caches.ReadAfterWriteMemory | src/main/java/com/example/tomasulo/components/Cache.java:140-175 | bytes written to memory read back unchanged |
| Caches.InitializeMemory | src/main/java/com/example/tomasulo/components/Cache.java:155-167 | an initial value is encoded and written in range, and ignored out of range |
| Caches.InitializedValueReadsBack | src/main/java/com/example/tomasulo/components/Cache.java:155-175 | an 8-byte initial value decodes back to its `long` value |
| Caches.Reset | src/main/java/com/example/tomasulo/components/Cache.java:240-248 | reset empties every block and the counters but keeps memory |
| Caches.ResetMemory | src/main/java/com/example/tomasulo/components/Cache.java:254-256 | every memory byte reads zero afterwards |
| LoadStoreBuffers.New | src/main/java/com/example/tomasulo/components/LoadStoreBuffer.java:14-17 | a new buffer is empty with the given capacity |
| LoadStoreBuffers.AccessSize | src/main/java/com/example/tomasulo/components/LoadStoreBuffer.java:236-251 | loads and stores access 4 or 8 bytes, and every other opcode 0 |
| LoadStoreBuffers.ReserveEntry | src/main/java/com/example/tomasulo/components/LoadStoreBuffer.java:27-50 | reserving appends one entry for the station, with no valid address yet, and keeps the others |
| LoadStoreBuffers.EntryOf | src/main/java/com/example/tomasulo/components/LoadStoreBuffer.java:112-119 | the lookup finds the first entry of the station, or none exactly when it has none |
| LoadStoreBuffers.UpdateLoadAddress | src/main/java/com/example/tomasulo/components/LoadStoreBuffer.java:52-59 | only the station's entry gains the address and becomes address-valid; no entry means no change |
| LoadStoreBuffers.UpdateStoreAddressAndValue | src/main/java/com/example/tomasulo/components/LoadStoreBuffer.java:61-69 | only the station's entry gains the address and value |
| LoadStoreBuffers.AddLoad | src/main/java/com/example/tomasulo/components/LoadStoreBuffer.java:71-87 | a full buffer refuses the load unchanged; otherwise one entry is appended |
| LoadStoreBuffers.AddStore | src/main/java/com/example/tomasulo/components/LoadStoreBuffer.java:89-106 | a full buffer refuses the store unchanged; otherwise one entry is appended |
| LoadStoreBuffers.RemoveAt | src/main/java/com/example/tomasulo/components/LoadStoreBuffer.java:121-123 | removing an entry keeps the others in order |
| LoadStoreBuffers.OverlapsIsIntersection | src/main/java/com/example/tomasulo/components/LoadStoreBuffer.java:166-176 | the overlap test is exactly "the two byte ranges share a byte" |
| LoadStoreBuffers.HasAddressClashAtIssue | src/main/java/com/example/tomasulo/components/LoadStoreBuffer.java:193-234 | a clash at issue exists exactly when an earlier-issued, incomplete, conflicting entry has no address yet or its range overlaps the access, both range ends taken as 32-bit sums |
| LoadStoreBuffers.HasAddressClash | src/main/java/com/example/tomasulo/components/LoadStoreBuffer.java:133-179 | a clash exists exactly when some other entry that is older, incomplete and conflicting has no address yet or overlaps the access by the wrapped-end test |
| LoadStoreBuffers.NoClashAtIssueMeansSafe | src/main/java/com/example/tomasulo/components/LoadStoreBuffer.java:193-234 | with no clash at issue, no earlier incomplete conflicting entry whose range ends fit in an `int` shares a byte with the access, and every earlier one without an address is a load |
| LoadStoreBuffers.WrappedEndsHideOverlap | src/main/java/com/example/tomasulo/components/LoadStoreBuffer.java:219-229 | a store at 2147483644 of 8 bytes does not block a 4-byte load at 2147483646, although the ranges share bytes |
| LoadStoreBuffers.Tick | src/main/java/com/example/tomasulo/core/TomasuloSimulator.java:127-134 | every entry counts down by one cycle, stopping at zero |
| LoadStoreBuffers.Reset | src/main/java/com/example/tomasulo/components/LoadStoreBuffer.java:253-255 | reset leaves the buffer empty |
| RegisterFiles.TypeOf | src/main/java/com/example/tomasulo/components/RegisterFile.java:39-46 | a name starting with `R` is an integer register, one starting with `F` a floating-point register |
| RegisterFiles.SetValue | src/main/java/com/example/tomasulo/components/RegisterFile.java:58-67 | only the named register changes; `R0` and unknown names are ignored |
| RegisterFiles.SetTag | src/main/java/com/example/tomasulo/components/RegisterFile.java:79-86 | only the named register's tag changes, and unknown names are ignored |
| RegisterFiles.ClearTag | src/main/java/com/example/tomasulo/components/RegisterFile.java:88-90 | the named register's tag is cleared and nothing else changes |
| RegisterFiles.Reset | src/main/java/com/example/tomasulo/components/RegisterFile.java:108-124 | the 64 architectural registers read zero and untagged; other names are kept |
| RegisterFiles.Initial | src/main/java/com/example/tomasulo/components/RegisterFile.java:15-37 | every register starts at zero and untagged |
| RegisterFiles.ArchitecturalNamesTyped | src/main/java/com/example/tomasulo/components/RegisterFile.java:15-37 | `R0`..`R31` are integer registers and `F0`..`F31` floating-point ones |
| RegisterFiles.R0StaysZero | src/main/java/com/example/tomasulo/components/RegisterFile.java:58-67 | no write and no reset can make `R0` non-zero |
| Stations.New | src/main/java/com/example/tomasulo/components/ReservationStation.java:18-23 | a new station is free with 0 cycles remaining, holds no operands, destination or opcode, and keeps its name and category |
| Stations.DecrementCycles | src/main/java/com/example/tomasulo/components/ReservationStation.java:109-113 | the count-down decreases by one while positive and otherwise stays |
| Stations.DecrementTowardsReady | src/main/java/com/example/tomasulo/components/ReservationStation.java:25-27 | a busy station at its last cycle becomes ready exactly when neither operand waits on a producer |
| Stations.Clear | src/main/java/com/example/tomasulo/components/ReservationStation.java:123-134 | clearing gives a new station of the same name and category |
| Stations.ClearedStationIdle | src/main/java/com/example/tomasulo/components/ReservationStation.java:123-134 | a cleared station is free and not ready, and clearing twice is clearing once |
| StationPools.Bank | src/main/java/com/example/tomasulo/components/ReservationStationManager.java:40-62 | a bank has `n` new stations named by prefix and 1-based number |
| StationPools.InitializeStations | src/main/java/com/example/tomasulo/components/ReservationStationManager.java:40-62 | each category gets exactly the requested number of free stations, and no branch stations |
| StationPools.CountBank | src/main/java/com/example/tomasulo/components/ReservationStationManager.java:40-62 | a bank contributes its size to its own category only |
| StationPools.Initial | src/main/java/com/example/tomasulo/components/ReservationStationManager.java:21-38 | the default pool has 11 stations and every opcode's latency is its default |
| StationPools.DefaultLatencyTable | src/main/java/com/example/tomasulo/components/ReservationStationManager.java:64-68 | the latency table has an entry for every mnemonic, equal to its default latency |
| StationPools.SetLatency | src/main/java/com/example/tomasulo/components/ReservationStationManager.java:70-72 | only the opcode with that mnemonic changes latency |
| StationPools.PoolCategory | src/main/java/com/example/tomasulo/components/ReservationStationManager.java:88-104 | no opcode is served by a branch pool |
| StationPools.FindAvailable | src/main/java/com/example/tomasulo/components/ReservationStationManager.java:78-86 | the result is the first free station serving the opcode, or none when all of them are busy |
| StationPools.Forward | src/main/java/com/example/tomasulo/components/ReservationStationManager.java:126-161 | an operand waiting on the producer gets its value, or for the address operand of a memory station the effective address; any other operand is unchanged |
| StationPools.UpdateOperands | src/main/java/com/example/tomasulo/components/ReservationStationManager.java:126-161 | afterwards no station waits on the producer, and waits on other producers are untouched |
| StationPools.Tick | src/main/java/com/example/tomasulo/components/ReservationStationManager.java:163-170 | busy stations count down and free ones are unchanged |
| StationPools.Reset | src/main/java/com/example/tomasulo/components/ReservationStationManager.java:172-176 | every station is cleared and the latencies are kept |
| BranchUnits.Reset | src/main/java/com/example/tomasulo/components/BranchUnit.java:73-79 | a reset unit holds no branch, counts as resolved and not taken, with target -1 and 0 cycles |
| BranchUnits.StartBranch | src/main/java/com/example/tomasulo/components/BranchUnit.java:21-46 | the unit takes the branch for one cycle; it is taken exactly when its condition holds, and the target is the next slot plus the offset when taken |
| BranchUnits.Tick | src/main/java/com/example/tomasulo/components/BranchUnit.java:48-55 | the last cycle resolves the branch, and an idle unit is unchanged |
| BranchUnits.StartThenTickResolves | src/main/java/com/example/tomasulo/components/BranchUnit.java:21-55 | a started branch is resolved after one tick, with the same decision |
| ExecutionStates.Initial | src/main/java/com/example/tomasulo/core/ExecutionState.java:16-24 | the run starts at cycle 0 and pointer 0, with an empty trace and log, not complete |
| ExecutionStates.IncrementCycle | src/main/java/com/example/tomasulo/core/ExecutionState.java:34-36 | only the cycle advances, by one |
| ExecutionStates.IncrementIp | src/main/java/com/example/tomasulo/core/ExecutionState.java:46-48 | only the pointer advances, by one |
| ExecutionStates.AddToTrace | src/main/java/com/example/tomasulo/core/ExecutionState.java:62-64 | the instruction is appended and the earlier trace is kept |
| ExecutionStates.ClearTrace | src/main/java/com/example/tomasulo/core/ExecutionState.java:66-69 | the trace and log are emptied and the counters kept |
| ExecutionStates.AddLogMessage | src/main/java/com/example/tomasulo/core/ExecutionState.java:75-77 | the message is appended and the earlier log is kept |
| ExecutionStates.WriteSlot | src/main/java/com/example/tomasulo/core/TomasuloSimulator.java:225-227 | updating the instruction a station shares with the trace replaces exactly that trace slot |
| SimStates.AccessSizesAgree | src/main/java/com/example/tomasulo/core/TomasuloSimulator.java:1025-1049 | the simulator's load and store sizes agree with the buffer's size for every load and store, and are zero otherwise |
| IssueStage.Candidate | src/main/java/com/example/tomasulo/core/TomasuloSimulator.java:222-227 | the issued copy has the program instruction's text, is stamped with the current cycle, and has no other stamp |
| IssueStage.OperandFrom | src/main/java/com/example/tomasulo/core/TomasuloSimulator.java:258-275 | a tagged register gives its producer, an untagged one its value, and a null name throws |
| IssueStage.AddressFrom | src/main/java/com/example/tomasulo/core/TomasuloSimulator.java:299-310 | a tagged base gives its producer, an untagged one the effective address |
| IssueStage.TagDestination | src/main/java/com/example/tomasulo/core/TomasuloSimulator.java:276-277 | the destination is tagged with the issuing station, and a null name throws |
| IssueStage.Admit | src/main/java/com/example/tomasulo/core/TomasuloSimulator.java:248-256 | only the chosen station changes; the instruction joins the trace and the pointer advances |
| IssueStage.IssueBranch | src/main/java/com/example/tomasulo/core/TomasuloSimulator.java:386-419 | a branch fails exactly when a source register name is missing, stalls while a source is tagged, and otherwise starts the branch unit and stalls issue |
| IssueStage.IssueFloatingPoint | src/main/java/com/example/tomasulo/core/TomasuloSimulator.java:248-280 | issue fails exactly when a source or the destination name is missing; otherwise both operands come from registers and the destination is tagged with the station |
| IssueStage.IssueInteger | src/main/java/com/example/tomasulo/core/TomasuloSimulator.java:281-297 | issue fails exactly when the first source or the destination name is missing; otherwise the first operand comes from a register and the destination is tagged |
| IssueStage.IssueLoad | src/main/java/com/example/tomasulo/core/TomasuloSimulator.java:298-334 | a load with a known address that clashes with an earlier access does not issue; otherwise it is admitted with a buffer entry |
| IssueStage.IssueStore | src/main/java/com/example/tomasulo/core/TomasuloSimulator.java:335-381 | a store with a known address that clashes does not issue; otherwise it is admitted with a buffer entry and tags nothing |
| IssueStage.Issue | src/main/java/com/example/tomasulo/core/TomasuloSimulator.java:216-384 | nothing happens past the program's end or when no station is free; otherwise either nothing changes or one copy joins the trace and the pointer advances |
| ExecuteStage.Start | src/main/java/com/example/tomasulo/core/TomasuloSimulator.java:421-500 | starting stamps the held instruction's start cycle and sets the count-down, changing nothing else |
| ExecuteStage.ExecuteAlu | src/main/java/com/example/tomasulo/core/TomasuloSimulator.java:438-498 | an arithmetic or branch station starts exactly when neither operand waits and it has not started yet |
| ExecuteStage.ExecuteLoad | src/main/java/com/example/tomasulo/core/TomasuloSimulator.java:502-554 | a load waits while its address is unknown and starts at most once; it fails only for a missing buffer entry, a cache without blocks or a negative address, and never touches the groups |
| ExecuteStage.StartLoad | src/main/java/com/example/tomasulo/core/TomasuloSimulator.java:541-553 | the cache is read when the load starts, and the station and its entry count down the cache latency |
| ExecuteStage.ExecuteStore | src/main/java/com/example/tomasulo/core/TomasuloSimulator.java:556-617 | a store starts only once value and address are known and it has not started; it leaves registers, cache and groups alone, and fails only for a missing buffer entry or a cache without blocks |
| ExecuteStage.StartStore | src/main/java/com/example/tomasulo/core/TomasuloSimulator.java:604-616 | the cache is only probed, and the station and its entry count down the same latency |
| ExecuteStage.ExecuteStation | src/main/java/com/example/tomasulo/core/TomasuloSimulator.java:421-500 | a free station is skipped, a busy one changes only itself, a started one is not restarted, and a changed one was allowed to start and is stamped with the current cycle |
| ExecuteStage.Execute | src/main/java/com/example/tomasulo/core/TomasuloSimulator.java:421-500 | the stage leaves registers, the pointer and the branch stall alone |
| ExecuteStage.ExecuteFromStartRule | src/main/java/com/example/tomasulo/core/TomasuloSimulator.java:421-500 | the stage's scan from any station on obeys the start rule at every later station |
| ExecuteStage.ExecuteStartsOnlyWhenAllowed | src/main/java/com/example/tomasulo/core/TomasuloSimulator.java:421-617 | in one execute stage a station changes only by starting, only when its operands allow it, and a started station is never restarted |
| Simulator.MarkEnded | src/main/java/com/example/tomasulo/core/TomasuloSimulator.java:136-214 | ending execution stamps the end cycle, and a load takes the value its buffer entry read |
| Simulator.PerformStore | src/main/java/com/example/tomasulo/core/TomasuloSimulator.java:160-175 | a store writes its encoded value through the cache, and fails exactly when the cache has no blocks or the address is negative |
| Simulator.CheckStation | src/main/java/com/example/tomasulo/core/TomasuloSimulator.java:136-214 | only an executing station whose count-down reached zero is touched, and it can only fail as a store does |
| Simulator.CheckExecutionEnd | src/main/java/com/example/tomasulo/core/TomasuloSimulator.java:136-214 | ending executions leaves the pointer, the buffer and the registers alone |
| Simulator.AllCompletedFrom | src/main/java/com/example/tomasulo/core/TomasuloSimulator.java:1101-1108 | the scan reports whether every remaining trace entry is completed |
| Simulator.AllFreeFrom | src/main/java/com/example/tomasulo/core/TomasuloSimulator.java:1110-1117 | the scan reports whether every remaining station is free |
| Simulator.CheckCompletion | src/main/java/com/example/tomasulo/core/TomasuloSimulator.java:1091-1133 | the completion flag is set exactly when the program has issued, every issued instruction completed, every station is free and the buffer is empty; nothing else changes |
| Simulator.TickAll | src/main/java/com/example/tomasulo/core/TomasuloSimulator.java:116-118 | stations and buffer entries count down together |
| Simulator.IssueUnlessStalled | src/main/java/com/example/tomasulo/core/TomasuloSimulator.java:106-111 | nothing issues while a branch is unresolved, and at most one instruction joins the trace |
| Simulator.Advance | src/main/java/com/example/tomasulo/core/TomasuloSimulator.java:103-121 | the stages of one cycle keep the program and the clock, and add at most one trace entry |
| Simulator.Step | src/main/java/com/example/tomasulo/core/TomasuloSimulator.java:89-125 | a complete run does not move; otherwise the clock advances by one, at most one instruction issues, and the completion flag is exactly the finished condition |
| Simulator.Unstamp | src/main/java/com/example/tomasulo/core/TomasuloSimulator.java:79-86 | reset keeps every program instruction's text and clears its stamps |
| Simulator.Reset | src/main/java/com/example/tomasulo/core/TomasuloSimulator.java:62-87 | reset clears clock, trace, stations, buffer, groups and branch state, keeps memory, and keeps the program unstamped |
| Simulator.LoadInstructions | src/main/java/com/example/tomasulo/core/TomasuloSimulator.java:54-60 | loading replaces the program and resets, leaving the pointer and clock at zero |
| Simulator.New | src/main/java/com/example/tomasulo/core/TomasuloSimulator.java:40-52 | the constructor fails exactly when the cache constructor throws; as written it leaves the per-cycle tracking sets unallocated |
| Simulator.Create | src/main/java/com/example/tomasulo/core/TomasuloSimulator.java:40-52 | the corrected constructor fails exactly when the one as written does, and is otherwise the same machine with the tracking sets allocated, idle and empty |
| Simulator.IdleStepCompletes | src/main/java/com/example/tomasulo/core/TomasuloSimulator.java:89-125 | on an idle machine with the program issued and every issued instruction done, one step completes the run |
| Simulator.StepBeforeLoadFails | src/main/java/com/example/tomasulo/core/TomasuloSimulator.java:40-52 | the first step of any successfully constructed simulator throws |
| Simulator.CreateThenStepCompletes | src/main/java/com/example/tomasulo/core/TomasuloSimulator.java:62-87 | with the sets allocated, the first step of an empty simulator succeeds, completes the run, and moves the clock to 1 |
| Simulator.SmallCacheConstructs | src/main/java/com/example/tomasulo/components/Cache.java:18-34 | a cache smaller than one block still constructs, with no blocks, so only the first cache access fails |
| WriteBackStage.PickRetiree | src/main/java/com/example/tomasulo/core/TomasuloSimulator.java:620-666 | the retiree is the retirable station issued earliest, ties broken by station order; none means no station is retirable |
| WriteBackStage.Simultaneous | src/main/java/com/example/tomasulo/core/TomasuloSimulator.java:632-657 | a ready station is grouped exactly when another ready station ended execution in the same cycle |
| WriteBackStage.MergeGroups | src/main/java/com/example/tomasulo/core/TomasuloSimulator.java:644-657 | each end cycle's group gains the stations that ended then, and no group loses members |
| WriteBackStage.RecordGroups | src/main/java/com/example/tomasulo/core/TomasuloSimulator.java:632-657 | grouping only records simultaneous completions and marks them incomplete |
| WriteBackStage.PerformOperation | src/main/java/com/example/tomasulo/core/TomasuloSimulator.java:1006-1023 | add, subtract and multiply as named; division by zero gives 0, and other division truncates; non-arithmetic opcodes give 0 |
| WriteBackStage.ComputeResult | src/main/java/com/example/tomasulo/core/TomasuloSimulator.java:677-697 | the result by category, and a missing operand throws |
| WriteBackStage.Stamp | src/main/java/com/example/tomasulo/core/TomasuloSimulator.java:733-734 | the instruction is stamped written back and completed, in the station and in its trace slot |
| WriteBackStage.Finish | src/main/java/com/example/tomasulo/core/TomasuloSimulator.java:733-747 | the instruction is stamped written back and the station cleared, changing no other station |
| WriteBackStage.RemoveEntryOf | src/main/java/com/example/tomasulo/core/TomasuloSimulator.java:738-744 | the station's buffer entry, if any, is removed and nothing else changes |
| WriteBackStage.CleanupGroup | src/main/java/com/example/tomasulo/core/TomasuloSimulator.java:968-1004 | a group whose members have all written back leaves the incomplete set and releases its waiting stations; otherwise nothing changes |
| WriteBackStage.Broadcast | src/main/java/com/example/tomasulo/core/TomasuloSimulator.java:699-730 | the destination takes the result (unless it is `R0` or untyped) and loses its tag only if this station owns it; every other register keeps value and tag; stations waiting on the producer get the result, and when the producer belongs to an unfinished group they are recorded as waiting for it |
| WriteBackStage.BroadcastReleasesProducer | src/main/java/com/example/tomasulo/core/TomasuloSimulator.java:699-730 | after the broadcast no register and no station waits on the producer, and reading the destination as an operand gives the result |
| WriteBackStage.RetireWithResult | src/main/java/com/example/tomasulo/core/TomasuloSimulator.java:674-754 | a station with a destination broadcasts its result, is stamped, leaves the buffer and is freed; it throws only for a missing operand |
| WriteBackStage.RetireStore | src/main/java/com/example/tomasulo/core/TomasuloSimulator.java:755-780 | a store is stamped, leaves the buffer and is freed, leaving registers alone |
| WriteBackStage.FindAddress | src/main/java/com/example/tomasulo/core/TomasuloSimulator.java:870-887 | the search finds the first instruction at an address, or none when none is there |
| WriteBackStage.FindInstruction | src/main/java/com/example/tomasulo/core/TomasuloSimulator.java:892-899 | the search finds an instruction with that address and opcode, or none when none exists |
| WriteBackStage.BranchTarget | src/main/java/com/example/tomasulo/core/TomasuloSimulator.java:856-918 | the target is the first instruction at the wrapped target address; with none there, the offset is applied to the branch's first copy in the program, and the result lies in the program |
| WriteBackStage.BranchTargetOnLaidOutProgram | src/main/java/com/example/tomasulo/core/TomasuloSimulator.java:856-918 | on a program laid out at consecutive words, a branch lands on the instruction `imm` slots after the next one |
| WriteBackStage.RetireBranch | src/main/java/com/example/tomasulo/core/TomasuloSimulator.java:781-948 | a branch is stamped and freed and issue resumes, leaving registers alone |
| WriteBackStage.Redirect | src/main/java/com/example/tomasulo/core/TomasuloSimulator.java:839-925 | the pointer moves to the target exactly when the branch is taken on current register values and the target exists |
| WriteBackStage.Retire | src/main/java/com/example/tomasulo/core/TomasuloSimulator.java:666-951 | retiring frees the station, changes no other station, and writes its trace slot |
| WriteBackStage.WriteBack | src/main/java/com/example/tomasulo/core/TomasuloSimulator.java:619-951 | at most one station, the earliest retirable one, retires per cycle; with none, only the groups are recorded |
| Parser.Trims | src/main/java/com/example/tomasulo/core/InstructionParser.java:120-122 | one trimmed line per line |
| Parser.TrimsAt | src/main/java/com/example/tomasulo/core/InstructionParser.java:120-122 | each trimmed line sits where its line did |
| Parser.CleanLinesKept | src/main/java/com/example/tomasulo/core/InstructionParser.java:119-127 | every surviving line is trimmed, non-empty and not a comment |
| Parser.CleanLinesFaithful | src/main/java/com/example/tomasulo/core/InstructionParser.java:119-127 | survivors are trimmed source lines, and every line whose trim is kept survives |
| Parser.CleanIdempotent | src/main/java/com/example/tomasulo/core/InstructionParser.java:119-127 | cleaning cleaned lines changes nothing |
| Parser.SplitLabel | src/main/java/com/example/tomasulo/core/InstructionParser.java:140-147 | a line has a label exactly when it has a colon; the label has no colon, and label and rest are trimmed |
| Parser.SplitLabelOfJoined | src/main/java/com/example/tomasulo/core/InstructionParser.java:140-147 | splitting `label:part` gives back the trimmed label and part |
| Parser.StripComment | src/main/java/com/example/tomasulo/core/InstructionParser.java:201-205 | the result has no `#`; a line without one is unchanged |
| Parser.AddressOperand | src/main/java/com/example/tomasulo/core/InstructionParser.java:282-285 | a match splits the operand into a signed number and an `R`/`F` register in the pattern's shape |
| Parser.AddressOperandMatches | src/main/java/com/example/tomasulo/core/InstructionParser.java:282-285 | every operand of that shape matches, with exactly those groups |
| Parser.ParseAddressInto | src/main/java/com/example/tomasulo/core/InstructionParser.java:280-289 | a matching operand sets only offset and base; a non-matching one changes nothing; an out-of-range number throws |
| Parser.ParseOperands | src/main/java/com/example/tomasulo/core/InstructionParser.java:226-275 | operands are filled by category only when enough words are present, and an unparseable number rejects the line |
| Parser.ParseInstruction | src/main/java/com/example/tomasulo/core/InstructionParser.java:200-278 | a parsed instruction's mnemonic is the first word ignoring case, at the given address, unstamped; an empty line or unknown mnemonic gives nothing |
| Parser.ParseIgnoresAddress | src/main/java/com/example/tomasulo/core/InstructionParser.java:200-278 | whether a line parses does not depend on its address, and the instruction differs only in its address |
| Parser.AnalyzeAgrees | src/main/java/com/example/tomasulo/core/InstructionParser.java:164-187 | parsing a line once and placing it at the running address is what the second pass does |
| Parser.EmittedLayout | src/main/java/com/example/tomasulo/core/InstructionParser.java:163-188 | the second pass places its instructions at consecutive words |
| Parser.EmittedAppend | src/main/java/com/example/tomasulo/core/InstructionParser.java:163-188 | the pass over two runs of lines is the pass over the first followed by the second, resumed at the right address |
| Parser.LabelsInRange | src/main/java/com/example/tomasulo/core/InstructionParser.java:136-158 | every label lies on a word boundary |
| Parser.LabelAddress | src/main/java/com/example/tomasulo/core/InstructionParser.java:136-158 | a label's address counts the instructions parsed before its line |
| Parser.LabelMarksNextInstruction | src/main/java/com/example/tomasulo/core/InstructionParser.java:136-188 | with the corrected first pass, a label marks where its line's instructions begin in the program |
| Parser.ResolveBranch | src/main/java/com/example/tomasulo/core/InstructionParser.java:300-341 | only branches change, and only in their offset: a label gives the word offset, a number itself, anything else 0 |
| Parser.ResolvedBranchReachesLabel | src/main/java/com/example/tomasulo/core/InstructionParser.java:316-321 | a branch resolved against a word-aligned label lands on it |
| Parser.Assemble | src/main/java/com/example/tomasulo/core/InstructionParser.java:135-194 | the assembled program has consecutive addresses, and every branch to a known label lands on it |
| Parser.ParseTextAsWritten | src/main/java/com/example/tomasulo/core/InstructionParser.java:113-198 | the program as written has one instruction per parsed line, at consecutive words, unstamped |
| Parser.ParseText | src/main/java/com/example/tomasulo/core/InstructionParser.java:113-198 | the corrected program has the same layout, and every branch to a known label lands on the labelled instruction |
| ParserExamples.SkewAsWritten | src/main/java/com/example/tomasulo/core/InstructionParser.java:146-150 | on the example, the label lands one word past its instruction and the branch offset is 0 |
| ParserExamples.SkewCorrected | src/main/java/com/example/tomasulo/core/InstructionParser.java:163-188 | on the same text, the corrected label marks the branch itself and the offset is -1 |

## Left out

- The JavaFX user interface (`gui/`, `HelloJavaFX`) is not part of this model.
- `parseFile` reads a file; only `parseText`, which it shares its logic with, is modelled.
- The parser's `originalLines` list and `getLabelMap` getter, and every snapshot and getter, are observers with no behaviour of their own.
- Console output (`System.out`) and the text of log messages are left out. The log is modelled only as a sequence that messages are appended to.
- Register and operand values are doubles in the source. They are modelled as unbounded integers, which is what every integer program the simulator runs produces. Floating-point rounding, NaN and infinities are not modelled.
- WriteBackStage.PerformOperation: division is modelled as truncating integer division, not IEEE division, because values are integers here.
- Text.ParseInt: accepts the ASCII digits `0`-`9` only. Java's `Integer.parseInt` also accepts every other Unicode decimal digit, which an assembly program does not use.
- ExecuteStage.ExecuteLoad: faults on every negative address. For an address at or below -2147418112, Java's refill length `Math.min(blockSize, memory.length - address)` overflows to a negative number; Java then copies nothing and carries on with a block based at that address. That range is not modelled.
- Simulator.PerformStore: faults on every negative address, including the range at or below -2147418112 where Java's write-allocate refill overflows and carries on, as for ExecuteLoad.
- Caches.StoreThenLoad: holds only when `address + blockSize` fits in an `int`. Past that, the block's end wraps negative and the load misses (Caches.BlockEndPastIntMaxNeverHits).
- Text.UpperChar: upper-cases ASCII letters only, not full Unicode `toUpperCase`; mnemonics are ASCII.
- Parser addresses and the simulator's cycle counter are unbounded integers. Overflowing them would take about 2^31 lines or cycles.
- Where Java mutates an object and then throws (a null register name in the middle of issue, a null operand string at write-back), the model returns a `Fault` and drops the half-updated state. The exception ends the GUI's run either way.
- `isDependencyInIncompleteGroup` has no caller, and `incompleteGroupMembersWrittenBackThisCycle` is written but never read. Neither is modelled.
- The station's string form (`toString`) is used only for display.
- Instructions.ToString: only states that the text starts with the mnemonic, not the full operand layout.
- Caches.ComputeTag: the tag is stored in a block but never compared by any lookup (hits test the base address), so it has no contract.
- ExecuteStage.Execute: states what the stage leaves alone, not the full per-station effect; that effect is stated by ExecuteStation, ExecuteAlu, ExecuteLoad and ExecuteStore.
- Simulator.CheckExecutionEnd: states what the stage leaves alone; the per-station effect is stated by CheckStation, MarkEnded and PerformStore.
- Simulator.Advance: states the frame and trace bounds of one cycle, not each stage's effect, which the stage members state.
- Text.SplitOn: keeps trailing empty pieces, which Java's `split` drops; the cleaning pass drops empty lines, so the cleaned program is the same either way.
- The tracking maps are keyed by station index rather than station name, because station names are unique within a pool.

## Findings

| source | as written | input that shows it | evidently intended | confidence | as-written member | corrected member |
|---|---|---|---|---|---|---|
| src/main/java/com/example/tomasulo/core/TomasuloSimulator.java:40-52 | the constructor never allocates the per-cycle tracking sets, which are created only by `reset`, so `step` dereferences null until `loadInstructions` or `reset` runs | `new TomasuloSimulator(1024, 8)` followed by `step()` | the constructor allocates the sets as `reset` does, so a fresh simulator can step | not executed | Simulator.StepBeforeLoadFails | Simulator.CreateThenStepCompletes |
| src/main/java/com/example/tomasulo/core/InstructionParser.java:146-150 | the label pass advances the address for any non-empty text after a label, but the instruction pass advances only for text that parses, so every later label is one word too far | the text `X: #` then `L: BEQ R1, R2, L`: `L` is placed at 4, the branch is at 0, and its offset becomes 0 instead of -1 | the label pass advances exactly when the instruction pass emits an instruction | not executed | ParserExamples.SkewAsWritten | ParserExamples.SkewCorrected |
