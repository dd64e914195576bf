# Verified model of the 947 client tooling

The tools of this repository patch a running client, rewrite its command line, and analyse its
logs and binaries. This project models the parts whose correctness is not obvious and proves
what they are for. `dafny verify dfyconfig.toml` checks all of it.

**The patch engine** (`tools/launch_runescape_wrapper_rewrite.py`). The launcher overwrites code
in the client with jumps to small x86-64 stubs that it assembles itself: it appends instruction
bytes, leaves six-byte placeholders for conditional jumps, and fills them in once their targets
are known. The model has two layers.

- *Bytes.* `Machine` is the instruction subset the stubs and the displaced code use, with 64-bit
  registers, the zero and carry flags, and byte-addressed memory in which an unmapped access
  faults. `Decoder` reads its encodings, following the Intel 64 and IA-32 Architectures Software
  Developer's Manual, volume 2, sections 2.1 and 2.2.1 (instruction format and REX prefixes) and
  volume 1, sections 3.4.1.1 (a 32-bit result clears the upper half) and 3.3.7.1 (canonical
  addresses). `InstructionEncoding` encodes, and decoding undoes encoding for every instruction.
  `Programs` lays out listings with labels; a machine that fetches and decodes bytes refines a
  machine that runs the listing. `StubBuilders` are the fourteen builders as the launcher writes
  them, each proved to emit its listing from `Stubs`, assembled.
- *Meaning.* `Guards`, `PointerGuard`, `CompareGuard`, `MirrorGuard`, `OtherGuards` and
  `ForcedGuards` say what each stub does in every state, compared with the instructions it
  displaces, which `GuardedSites` proves to be the bytes the patch table expects. `Installation`
  and `PatchedImage` carry this over to the bytes in process memory after the passes have run
  (`PatchTables`, `GuardTable`, `PatchPasses`, `PatchProcess`, `LiteralReplacement`).
  `OneMemory`, `InstalledGuards` and `PatchedGuards` do so with code and data in one memory,
  which a stub that writes over itself needs. `PatchedPairs` and `PatchedSites` state the outcome
  of the three passes in the launcher's own terms: image base, offsets, the bytes found, and where
  the machine then goes.

The jump to a stub and every jump out of one go through RAX, so a stub starts with its own
address in RAX and ends with the exit's; stubs that test something lose the flags. "Replaces the
block" below therefore means: faults when the block does, and otherwise leaves for the resume
address with that address in RAX and with all memory and every other register as the block leaves
them.

Four stubs do something else than the comments beside them intend; the model follows the code.
Two use RAX as an input, which at an installed site is the trampoline's own address. The
archive-state guard 590ec9 looks up the slot of that address: it gives the intended result
exactly when the address and the archive index agree modulo 2^59. The publication guard 5927f2
writes a healthy table over its own first eight bytes and leaves for the skip target all the
same; the next visit to the site executes the table's address. It publishes where it should
exactly when the owner's slot is the trampoline itself. The forced comparison 590ccb loses the
inline value it is meant to keep: the exit overwrites EAX, which an unpatched comparison at
0x590CF1 reads next. The empty-compare guard 590de8 compares with zero where the displaced code
compares with RSI; for every RSI it is stated exactly when stub and block do the same, at either
way out.

**The command line** (same file). `CommandLine` is the quote-toggling splitter, the printer and
the pair rewriter. The printer escapes a quote as `\"`, which the splitter does not understand,
so exactly the quote-free arguments survive a round trip.

**The JSON printer** (`tools/GhidraCrashSiteBundle947.java`). `JsonPrinter` proves it against a
parser for RFC 8259 (sections 3 to 7).

**Logs, caches and scans.** `ArtifactCache` is the fingerprint cache that the analysis tools
share, `FieldScan` the exhaustive search for references to a structure offset, `Sessions` and
`Attempts` the splitting and pairing of log sessions, and `Registrar` the recovery of a packet
registrar from a call dump.

What the code cannot know by itself is a parameter of the model: the addresses at which the
system allocates memory, the image base, the clock, the hash and canonical text of the cache
(assumed free of collisions), the tools' builds, the listing of the capture logs, the
disassembler, what counts as whitespace, as a digit and as the name of an executable on a command
line, what the log patterns find in a line, and the value of a hexadecimal text.

## Model

| member | source | states |
|---|---|---|
| JumpEncoders.RelativeJumpRoundTrip | tools/launch_runescape_wrapper_rewrite.py:2006-2012 | Encoding succeeds exactly on signed 32-bit displacements; the bytes have the patch's length and decode to a jump from source to target, whatever follows |
| JumpEncoders.ConditionalJumpRoundTrip | tools/launch_runescape_wrapper_rewrite.py:2028-2034 | The same for `Jcc rel32`: encode then decode is the identity exactly on the signed 32-bit range |
| JumpEncoders.AbsoluteJumpRoundTrip | tools/launch_runescape_wrapper_rewrite.py:2015-2021 | Fails exactly on an address outside 64 bits or a patch under 12 bytes; otherwise decodes to `mov rax, target` followed by `jmp rax` |
| InstructionEncoding.EncodeDecodes | tools/launch_runescape_wrapper_rewrite.py:2037-2528 | Every encodable instruction of the subset, in either encoding form, decodes to itself with its exact length, whatever bytes follow |
| Programs.AssembledCodeDecodes | tools/launch_runescape_wrapper_rewrite.py:2037-2528 | Disassembling assembled code at any item finds that item; a branch's decoded displacement leads to the start of its label's item |
| Programs.Refinement | tools/launch_runescape_wrapper_rewrite.py:2037-2528 | For every program, address, state and number of steps: if the item machine leaves, the machine that fetches and decodes the assembled bytes reaches the same address with the same registers, flags and data, its code untouched |
| OneMemory.Exactly | tools/launch_runescape_wrapper_rewrite.py:2037-2528 | Code and data in one memory: item run and byte run coincide, wherever they end, faults included, as long as each item still has its bytes when control gets to it |
| OneMemory.ReadOnlyStaysIntact | tools/launch_runescape_wrapper_rewrite.py:2037-2528 | A program that writes no memory always does |
| OneMemory.FaultRefinement | tools/launch_runescape_wrapper_rewrite.py:2037-2528 | With code and data apart: an item run that faults at an access away from the code faults on the byte machine |
| StubDrafts.BranchEncoding | tools/launch_runescape_wrapper_rewrite.py:2081-2089 | The displacement computed from absolute addresses does not depend on where the trampoline is, and always fits |
| StubDrafts.FillIn | tools/launch_runescape_wrapper_rewrite.py:2080-2084 | Overwriting a placeholder by slice assignment patches exactly that branch and nothing else of the buffer |
| StubDrafts.Finished | tools/launch_runescape_wrapper_rewrite.py:2080-2090 | Once every branch has been filled in no placeholder is left: the buffer is the assembled listing |
| StubBuilders.Build59002d | tools/launch_runescape_wrapper_rewrite.py:2037-2058 | The guard listing, assembled, for every trampoline address, with its slices at 3 and 12; also for other displaced bytes: when it fails, and its length |
| StubBuilders.Build590c58 | tools/launch_runescape_wrapper_rewrite.py:2061-2090 | Fails exactly when an exit address does not fit in 64 bits; otherwise the bytes are the listing `Stub590c58`, assembled, for every trampoline address, within the 256-byte allocation |
| StubBuilders.Build58fa83 | tools/launch_runescape_wrapper_rewrite.py:2093-2114 | Fails exactly when an exit address does not fit in 64 bits; otherwise the bytes are the listing `Stub58fa83`, assembled, for every trampoline address, within the 256-byte allocation |
| StubBuilders.Build59c1ea | tools/launch_runescape_wrapper_rewrite.py:2117-2122 | Fails exactly when an exit address does not fit in 64 bits; otherwise the bytes are the listing `Stub59c1ea`, assembled, for every trampoline address, within the 256-byte allocation |
| StubBuilders.Build59c2a0 | tools/launch_runescape_wrapper_rewrite.py:2125-2176 | Fails exactly when an exit address does not fit in 64 bits; otherwise the bytes are the listing `Stub59c2a0`, assembled, for every trampoline address, within the 256-byte allocation |
| StubBuilders.Build590c72 | tools/launch_runescape_wrapper_rewrite.py:2179-2184 | Fails exactly when an exit address does not fit in 64 bits; otherwise the bytes are the listing `Stub590c72`, assembled, for every trampoline address, within the 256-byte allocation |
| StubBuilders.Build5927f2 | tools/launch_runescape_wrapper_rewrite.py:2187-2233 | Fails exactly when an exit address does not fit in 64 bits; otherwise the bytes are the listing `Stub5927f2`, assembled, for every trampoline address, within the 256-byte allocation |
| StubBuilders.Build590ccb | tools/launch_runescape_wrapper_rewrite.py:2236-2258 | Fails exactly when an exit address does not fit in 64 bits; otherwise the bytes are the listing `Stub590ccb`, assembled, for every trampoline address, within the 256-byte allocation |
| StubBuilders.Build590cf1 | tools/launch_runescape_wrapper_rewrite.py:2261-2265 | Fails exactly when an exit address does not fit in 64 bits; otherwise the bytes are the listing `Stub590cf1`, assembled, for every trampoline address, within the 256-byte allocation |
| StubBuilders.Build590de8 | tools/launch_runescape_wrapper_rewrite.py:2268-2354 | Fails exactly when an exit address does not fit in 64 bits; otherwise the bytes are the listing `Stub590de8`, assembled, for every trampoline address, within the 256-byte allocation |
| StubBuilders.Build590ec9 | tools/launch_runescape_wrapper_rewrite.py:2357-2396 | Fails exactly when an exit address does not fit in 64 bits; otherwise the bytes are the listing `Stub590ec9`, assembled, for every trampoline address, within the 256-byte allocation |
| StubBuilders.Build2ab698 | tools/launch_runescape_wrapper_rewrite.py:2399-2424 | Fails exactly when an exit address does not fit in 64 bits; otherwise the bytes are the listing `Stub2ab698`, assembled, for every trampoline address, within the 256-byte allocation |
| StubBuilders.Build3699b2 | tools/launch_runescape_wrapper_rewrite.py:2427-2500 | Fails exactly when an exit address does not fit in 64 bits; otherwise the bytes are the listing `Stub3699b2`, assembled, for every trampoline address, within the 256-byte allocation |
| StubBuilders.Build5902d5 | tools/launch_runescape_wrapper_rewrite.py:2503-2528 | Fails exactly when an exit address does not fit in 64 bits; otherwise the bytes are the listing `Stub5902d5`, assembled, for every trampoline address, within the 256-byte allocation, with its slices at 4, 21 and 35 |
| GuardedSites.Expected59002d | tools/launch_runescape_wrapper_rewrite.py:220 | The bytes the site must hold are the displaced instructions, assembled |
| GuardedSites.Expected5902d5 | tools/launch_runescape_wrapper_rewrite.py:230 | The bytes the site must hold are the displaced instructions, assembled |
| GuardedSites.Expected590c58 | tools/launch_runescape_wrapper_rewrite.py:239 | The bytes the site must hold are the displaced instructions, assembled |
| GuardedSites.Expected58fa83 | tools/launch_runescape_wrapper_rewrite.py:248 | The bytes the site must hold are the displaced instructions, assembled |
| GuardedSites.Expected59c2a0 | tools/launch_runescape_wrapper_rewrite.py:265 | The bytes the site must hold are the displaced instructions, assembled |
| GuardedSites.Expected590de8 | tools/launch_runescape_wrapper_rewrite.py:313 | The bytes the site must hold are the displaced instructions, assembled |
| GuardedSites.Expected590ec9 | tools/launch_runescape_wrapper_rewrite.py:323 | The bytes the site must hold are the displaced instructions, assembled |
| GuardedSites.Expected2ab698 | tools/launch_runescape_wrapper_rewrite.py:333 | The bytes the site must hold are the displaced instructions, assembled |
| GuardedSites.Expected3699b2 | tools/launch_runescape_wrapper_rewrite.py:342 | The bytes the site must hold are the displaced instructions, assembled |
| GuardTable.LookupGuard | tools/launch_runescape_wrapper_rewrite.py:2541 | A pair of offsets finds the one table entry with that source and target, or there is none |
| GuardTable.ResumesBehindBlock | tools/launch_runescape_wrapper_rewrite.py:214-345 | Every stub that resumes does so right behind the bytes its site loses |
| GuardTable.SitesApart | tools/launch_runescape_wrapper_rewrite.py:214-345 | Every guarded site has room for the twelve-byte jump and no two overlap |
| GuardTable.BuildStub | tools/launch_runescape_wrapper_rewrite.py:2554-2634 | Dispatch on the builder: whichever is named, the result is its listing, assembled, within the allocation; when it fails |
| GuardTable.EveryStubExit | tools/launch_runescape_wrapper_rewrite.py:2015-2021 | For all fourteen stubs, every state and number of steps: wherever a stub leaves, RAX holds the address it left for, and that is the target or the resume address it was built with |
| Agreement.BlockAgrees | tools/launch_runescape_wrapper_rewrite.py:2045-2052 | Instructions that read neither RAX nor a flag, copied anywhere and run from states differing only there, fault together or end in states differing only there |
| Guards.Guard59002d | tools/launch_runescape_wrapper_rewrite.py:2037-2058 | Null or sentinel RBX leaves for the skip target with nothing changed but RAX and flags; any other runs the displaced block, faults with it, and resumes in its final state |
| Guards.Guard2ab698 | tools/launch_runescape_wrapper_rewrite.py:2399-2424 | A null pointer at [rdx+8] leaves for the skip target with only RSI changed; otherwise the stub replaces the displaced block |
| Guards.Guard590c58 | tools/launch_runescape_wrapper_rewrite.py:2061-2090 | No table or an index past its length leaves with both sentinels set, and with a table exactly when the block's own jump would be taken; otherwise the stub replaces the block |
| Guards.Guard58fa83 | tools/launch_runescape_wrapper_rewrite.py:2093-2114 | No table skips the loop with nothing changed; otherwise the stub replaces the block |
| PointerGuard.ShiftsDetectCanonical | tools/launch_runescape_wrapper_rewrite.py:2442-2447 | Shifting left and arithmetically right by 16 gives x back if and only if x < 2^47 or x >= 2^64 - 2^47 |
| PointerGuard.Guard3699b2 | tools/launch_runescape_wrapper_rewrite.py:2427-2500 | The resume exit is reached exactly when the base pointer and the metadata pointer are both at least 0x10000 and canonical; what is stored when the stub refuses, and every point where stub and block fault |
| CompareGuard.Guard590de8 | tools/launch_runescape_wrapper_rewrite.py:2268-2354 | With the record and path-base fields disjoint: exactly when the stub resumes, skips or faults, and exactly when the three promotion writes happen, whichever exit follows |
| CompareGuard.PromotionKeepsVectors | tools/launch_runescape_wrapper_rewrite.py:2295-2307 | The promotion writes leave the two vector checks' outcome unchanged, so a promoted record may still be skipped |
| CompareGuard.Block590de8 | tools/launch_runescape_wrapper_rewrite.py:312-316 | What the displaced block does in every state: its fault, its way through and its failure branch |
| CompareGuard.FollowsExactly590de8 | tools/launch_runescape_wrapper_rewrite.py:303-316 | In every state with disjoint fields, and whatever RSI holds: stub and block fault, resume or take the failure branch together, in the same state, if and only if no live record's vector equals RSI and an empty record is not promoted and is skipped or resumed as RSI is zero or not |
| CompareGuard.SameWay590de8 | tools/launch_runescape_wrapper_rewrite.py:303-316 | The same for the exits the table gives the stub: both leave for one address, or both fault |
| PatchedGuards.TableExits590de8 | tools/launch_runescape_wrapper_rewrite.py:312-316 | Those exits are the block's own two ways out |
| CompareGuard.ReplacesExactly590de8 | tools/launch_runescape_wrapper_rewrite.py:303-316 | When the stub goes on behind the block with it: always, except on an unfilled record whose vector equals RSI, or whose vector is zero unless the stub goes on without promoting it |
| CompareGuard.Preserves590de8 | tools/launch_runescape_wrapper_rewrite.py:303-316 | The case of RSI zero: a record that is not empty is replaced; an empty one the block fails, and the stub with it exactly when it skips it unpromoted |
| CompareGuard.Diverges590de8 | tools/launch_runescape_wrapper_rewrite.py:2280-2282 | One of the differing families spelled out: an unfilled record whose vector equals a non-zero RSI fails in the block and resumes in the stub |
| MirrorGuard.Copying | tools/launch_runescape_wrapper_rewrite.py:2141-2148 | The loop terminates: for any count up to 64, six instructions a round move that many bytes in order |
| MirrorGuard.MirrorsThenCompares | tools/launch_runescape_wrapper_rewrite.py:2125-2176 | With EDX zero and room, whatever R8 holds: the stub terminates, every register but RAX restored and memory as `Mirrored` says; it resumes if and only if the byte then at [r8+rcx+1] is the first source byte, fails on another, and faults if that address is unmapped |
| MirrorGuard.FirstIteration | tools/launch_runescape_wrapper_rewrite.py:2125-2176 | With r8+rcx=rbx as well it always resumes |
| MirrorGuard.MirroredByte | tools/launch_runescape_wrapper_rewrite.py:2138-2148 | Byte i of the 64 at [rbx+1] is byte i of the source at [rcx] |
| MirrorGuard.MirroredFrame | tools/launch_runescape_wrapper_rewrite.py:2125-2176 | Every byte outside the copied buffer and the three stack slots is as it was |
| MirrorGuard.LaterIterations | tools/launch_runescape_wrapper_rewrite.py:2125-2176 | With EDX not zero nothing is copied: the stub faults, resumes or fails exactly as the displaced compare does |
| OtherGuards.Guard590ec9 | tools/launch_runescape_wrapper_rewrite.py:2357-2396 | The stub reads the slot of the value RAX holds when it starts, and when it faults, yields zero or yields the state byte |
| OtherGuards.Block590ec9 | tools/launch_runescape_wrapper_rewrite.py:322-326 | The displaced block reads the slot of the index the site has in RAX |
| OtherGuards.Intended590ec9 | tools/launch_runescape_wrapper_rewrite.py:317-326 | Run from the site's own state the stub would be the intended guard |
| InstalledGuards.InstalledSlot | tools/launch_runescape_wrapper_rewrite.py:2357-2396 | Over bytes, in one memory, in every state: the installed stub yields the state of the slot at the trampoline's address, or the machine faults, exactly when that lookup does |
| InstalledGuards.SlotKeptExactly | tools/launch_runescape_wrapper_rewrite.py:2363-2364 | Whatever the rest of the state, the installed stub yields what it is meant to yield for index i if and only if 32 * trampoline and 32 * i agree modulo 2^64 |
| PatchedGuards.PatchedSlot | tools/launch_runescape_wrapper_rewrite.py:2531-2682 | The same after any pass that matched the guard, on the memory the pass left |
| PatchedGuards.InstalledSlotFaults | tools/launch_runescape_wrapper_rewrite.py:2363-2364 | A concrete client: before the pass the machine at the site finds archive 0 in state 7 and goes on; after it, in the same registers, it faults |
| OtherGuards.Guard5927f2 | tools/launch_runescape_wrapper_rewrite.py:2187-2233 | On any memory, the stub's own code included: exactly when a table is published, refused or the stub faults; the store goes to the address RAX holds when the stub starts |
| InstalledGuards.Expected5927f2 | tools/launch_runescape_wrapper_rewrite.py:282 | The bytes the site must hold are the displaced instructions, assembled |
| InstalledGuards.Block5927f2 | tools/launch_runescape_wrapper_rewrite.py:274-285 | The displaced code stores the table in the slot RAX points to, and goes on or skips by what was there |
| InstalledGuards.InstalledPublication | tools/launch_runescape_wrapper_rewrite.py:2187-2233 | Over bytes, in one memory, in every state: an unhealthy table is refused, a healthy one is written over the stub's own first eight bytes and the machine still reaches the skip target, anything else faults |
| InstalledGuards.StubOverwritten | tools/launch_runescape_wrapper_rewrite.py:2187-2233 | After that store those bytes are the table's address, and the stub is in memory if and only if they were that address before |
| InstalledGuards.PublicationMissesSlot | tools/launch_runescape_wrapper_rewrite.py:2187-2233 | All of it together for a slot apart from those bytes: exit, memory, the slot's old value, the overwritten stub |
| InstalledGuards.SlotHoldsTable | tools/launch_runescape_wrapper_rewrite.py:2187-2233 | Afterwards the slot holds the table if and only if it is the trampoline's address or held the table before |
| InstalledGuards.SlotReceivesExactly | tools/launch_runescape_wrapper_rewrite.py:2187-2233 | The installed stub publishes in the owner's slot, in every state, if and only if the slot is the trampoline's address |
| PatchedGuards.PatchedPublication | tools/launch_runescape_wrapper_rewrite.py:2531-2682 | The same run after any pass that matched the guard, on the memory the pass left |
| OtherGuards.Guard5902d5 | tools/launch_runescape_wrapper_rewrite.py:2503-2528 | Outside state 1 the stub replaces the block; in state 1 the block takes its fast path, the stub exactly when a buffer field is set, with R9 overwritten |
| OtherGuards.FollowsExactly5902d5 | tools/launch_runescape_wrapper_rewrite.py:227-233 | Stub and block take the same of the two ways in the same state if and only if, in state 1, a buffer field is set and R9 already holds the flag byte |
| PatchedGuards.TableExits5902d5 | tools/launch_runescape_wrapper_rewrite.py:229-233 | The two ways are the exits the table gives the stub |
| OtherGuards.Guard590ccb | tools/launch_runescape_wrapper_rewrite.py:2236-2258 | DL chooses the exit as in the displaced code; of the values loaded only the copy in ECX survives the exit |
| ForcedGuards.Expected59c1ea | tools/launch_runescape_wrapper_rewrite.py:257 | The bytes the site must hold are the displaced instructions, assembled |
| ForcedGuards.Expected590ccb | tools/launch_runescape_wrapper_rewrite.py:292 | The displaced first comparison, assembled, and a short jump are the bytes the site must hold |
| ForcedGuards.Expected590cf1 | tools/launch_runescape_wrapper_rewrite.py:300 | The displaced second comparison, assembled, and the clearing of XMM0 are the bytes the site must hold |
| ForcedGuards.Guard59c1ea | tools/launch_runescape_wrapper_rewrite.py:2117-2122 | The length 65 is written to R14 and its stack slot whatever was there; the stub faults exactly when the slot is unmapped |
| ForcedGuards.Block59c1ea | tools/launch_runescape_wrapper_rewrite.py:251-260 | Where the displaced gate goes in every state, which it leaves as it was |
| ForcedGuards.OpenGate59c1ea | tools/launch_runescape_wrapper_rewrite.py:251-260 | The stub goes where the displaced gate goes if and only if the record has length 65 and the slot is mapped; then they differ in that slot only |
| ForcedGuards.NullLoad590c72 | tools/launch_runescape_wrapper_rewrite.py:273 | The first displaced instruction decodes to a load from address zero, which faults unless that is mapped |
| ForcedGuards.Block590c72 | tools/launch_runescape_wrapper_rewrite.py:268-276 | The whole displaced block over bytes, in every state: it needs the null page and the pointer in RSI, and leaves RSI in RCX |
| ForcedGuards.Guard590c72 | tools/launch_runescape_wrapper_rewrite.py:2179-2184 | Both sentinels are set and the stub resumes; it never faults, and changes nothing else but RAX |
| ForcedGuards.Guard590cf1 | tools/launch_runescape_wrapper_rewrite.py:2261-2265 | From every state the success target, every register but RAX, the flags and memory as they were: the value moved to EAX is lost in the exit |
| ForcedGuards.Equal590cf1 | tools/launch_runescape_wrapper_rewrite.py:297-303 | Where the displaced second comparison goes; the stub goes the same way, in the same registers and memory, if and only if it is equal |
| ForcedGuards.Equal590ccb | tools/launch_runescape_wrapper_rewrite.py:286-295 | Where the displaced first comparison goes; the stub goes along, ECX and RAX aside, if and only if it is equal |
| ForcedGuards.InlineValueLost | tools/launch_runescape_wrapper_rewrite.py:286-303 | With only the first comparison patched, the second compares R9 with the low half of its own address instead of the inline value |
| Installation.SiteReachesTrampoline | tools/launch_runescape_wrapper_rewrite.py:2635-2637 | Running the patched site's bytes brings control to the trampoline with its address in RAX and nothing else changed |
| Installation.InstalledRun | tools/launch_runescape_wrapper_rewrite.py:2635-2637 | End to end over bytes: from the patched site the machine reaches wherever the stub's items leave for, with the same registers and data |
| Installation.InstalledLeaves | tools/launch_runescape_wrapper_rewrite.py:2635-2637 | … with the exit address in RAX, and the same outcome whatever RAX held at the site |
| Installation.InstalledReplaces | tools/launch_runescape_wrapper_rewrite.py:2635-2637 | A guard that replaces its block does so in place: the machine arrives behind the block in the block's final state |
| Installation.InstalledFaults | tools/launch_runescape_wrapper_rewrite.py:2635-2637 | A stub that faults away from the code makes the machine fault, run into the patched site |
| PatchTables.KnownBlock | tools/launch_runescape_wrapper_rewrite.py:347-390 | Every bypassed block has room for a five-byte jump and does not itself start with one |
| PatchTables.InlinePatchesChangeBytes | tools/launch_runescape_wrapper_rewrite.py:104-213 | No inline patch changes a length, and none writes the bytes it looks for |
| PatchProcess.Process.ReadMemory | tools/launch_runescape_wrapper_rewrite.py:1637-1643 | The bytes at the address, or an error when any of them is unmapped |
| PatchProcess.Process.WriteMemory | tools/launch_runescape_wrapper_rewrite.py:1676-1701 | Memory with exactly those bytes replaced, or an error and unchanged memory |
| PatchProcess.Process.Allocate | tools/launch_runescape_wrapper_rewrite.py:1704-1714 | Fresh zeroed pages at the system's answer, or an error and unchanged memory |
| PatchProcess.PatchNullReads | tools/launch_runescape_wrapper_rewrite.py:1926-1955 | Does to memory, and reports, what the pass over its requests says, errors included; `PatchedSites` states what that comes to |
| PatchProcess.PatchInlineOffsets | tools/launch_runescape_wrapper_rewrite.py:1958-2003 | The same, with unknown offsets reported and left alone |
| PatchProcess.BypassBlock | tools/launch_runescape_wrapper_rewrite.py:2657-2665 | One block overwritten with a relative jump when it matches |
| PatchProcess.InstallGuard | tools/launch_runescape_wrapper_rewrite.py:2542-2637 | One guard: allocate, build, write the stub, write the jump; what is left behind when a step fails |
| PatchProcess.PatchJumpBypasses | tools/launch_runescape_wrapper_rewrite.py:2531-2682 | The pass over pairs of offsets, guards first, does to memory and reports what the pass over its requests says; what these come to in image base and pairs is stated in `PatchedPairs` |
| PatchPasses.PassImage | tools/launch_runescape_wrapper_rewrite.py:2531-2682 | A pass over disjoint applicable sites completes, its reports align one to one with the requests and describe the original memory, and its memory is the image of the requests as a set |
| PatchPasses.ChangesOnlyMatchedSites | tools/launch_runescape_wrapper_rewrite.py:2660-2665 | A mapped byte that a pass changes lies in a site that held the expected bytes |
| PatchPasses.OrderIndependent | tools/launch_runescape_wrapper_rewrite.py:2539-2682 | Any two orders of the same disjoint requests leave the same memory |
| PatchPasses.SecondPass | tools/launch_runescape_wrapper_rewrite.py:2547-2552 | After a pass no site matches: a second pass succeeds, changes nothing and reports no match |
| PatchPasses.StopsAt | tools/launch_runescape_wrapper_rewrite.py:2539-2682 | A pass that fails has done what the requests before the failing one do, and what that one left; its error is that one's |
| PatchPasses.FailureHarmless | tools/launch_runescape_wrapper_rewrite.py:2547-2637 | A request that fails has changed no mapped byte, and nothing is new but pages allocated for it |
| PatchedImage.NullReadsPatchedOnce | tools/launch_runescape_wrapper_rewrite.py:1926-1955 | The null-read pass run twice |
| PatchedImage.InlinePatchedOnce | tools/launch_runescape_wrapper_rewrite.py:1958-2003 | The inline pass run twice |
| PatchedImage.JumpsPatchedOnce | tools/launch_runescape_wrapper_rewrite.py:2531-2682 | The jump-bypass pass run twice, guards included: no jump written equals the bytes it replaces |
| PatchedImage.GuardInstalls | tools/launch_runescape_wrapper_rewrite.py:2635-2637 | What a matched guard writes is its assembled stub and, at the site, the jump to it |
| PatchedImage.PatchedSiteRuns | tools/launch_runescape_wrapper_rewrite.py:2531-2682 | After any completed pass that matched a guard, with the data apart from what the guard wrote: the machine run into the site on that very memory arrives wherever the stub's items leave for, whatever RAX held |
| PatchedGuards.PatchedRunsInPlace | tools/launch_runescape_wrapper_rewrite.py:2531-2682 | Without that separation, faults included: the machine goes where the items go as long as no item is overwritten before it is reached |
| PatchedImage.PatchedMasterTable | tools/launch_runescape_wrapper_rewrite.py:2061-2090 | Spelled out for the master-table guard, from pass to exit |
| PatchedImage.OverlapDependsOnOrder | tools/launch_runescape_wrapper_rewrite.py:145-152 | The inline patch at 0x590CF4 inside the guard site at 0x590CF1: in every memory where both match the order decides, so disjointness cannot be dropped |
| PatchedImage.ReportTells | tools/launch_runescape_wrapper_rewrite.py:2638-2677 | Each report of a pass tells whether its site held what was expected, the bytes found there and the bytes there now, and for a guard the stub, which is at the allocated address |
| PatchedPairs.PairRuns | tools/launch_runescape_wrapper_rewrite.py:2541-2560 | For every entry of the table: after a pass whose pair i is that entry and found its block at image base plus source, the machine run into that address arrives wherever the stub that skips to image base plus target and resumes right behind the block leaves for; whatever RAX held |
| PatchedPairs.Pair59002d | tools/launch_runescape_wrapper_rewrite.py:219-223 | In those terms: a null or sentinel entry arrives at image base plus the pair's target with nothing changed, any other right behind the block in the block's final state |
| PatchedPairs.Pair590c58 | tools/launch_runescape_wrapper_rewrite.py:238-242 | The same: no master table or an index past it arrives at the target with both sentinels set, else right behind the block in its final state |
| PatchedPairs.Pair58fa83 | tools/launch_runescape_wrapper_rewrite.py:247-251 | The same: no master table arrives at the target with nothing changed |
| PatchedPairs.Pair2ab698 | tools/launch_runescape_wrapper_rewrite.py:332-336 | The same: no manager arrives at the target with RSI zero |
| PatchedPairs.Pair3699b2 | tools/launch_runescape_wrapper_rewrite.py:341-345 | The same: an implausible base or metadata pointer arrives at the target with the metadata word zeroed, two plausible ones right behind the block in its final state |
| PatchedPairs.Pair590de8 | tools/launch_runescape_wrapper_rewrite.py:312-316 | The same: resumption right behind the block and skip to the target, under the guard's conditions, promoted or not |
| PatchedPairs.PairKeepsWay590de8 | tools/launch_runescape_wrapper_rewrite.py:312-316 | Where these keep the block's way, the machine takes the block's own way out, in the block's state |
| PatchedPairs.Pair5902d5 | tools/launch_runescape_wrapper_rewrite.py:229-233 | The same: outside state 1 the block runs; in state 1 populated buffers arrive at the target and empty ones behind the block |
| PatchedPairs.Pair59c2a0 | tools/launch_runescape_wrapper_rewrite.py:264-268 | The same: on the first iteration the machine goes on behind the block, the source mirrored |
| PatchedPairs.PairLater59c2a0 | tools/launch_runescape_wrapper_rewrite.py:264-268 | The same: later the machine goes where the displaced compare goes, in its state |
| PatchedPairs.Pair59c1ea | tools/launch_runescape_wrapper_rewrite.py:256-260 | The same: the target, with a length of 65 in register and slot |
| PatchedPairs.Pair590c72 | tools/launch_runescape_wrapper_rewrite.py:272-276 | The same: right behind the block with both sentinels set; the pair's target is not used |
| PatchedPairs.Pair590ccb | tools/launch_runescape_wrapper_rewrite.py:291-295 | The same: DL alone chooses between the address behind the block and the target |
| PatchedPairs.Pair590cf1 | tools/launch_runescape_wrapper_rewrite.py:299-303 | The same: the target in every state |
| PatchedPairs.Pair590ec9 | tools/launch_runescape_wrapper_rewrite.py:322-326 | The archive-state guard, on the whole of memory: it resumes right behind the block with the state of the slot of the allocated address, or faults |
| PatchedPairs.Pair5927f2 | tools/launch_runescape_wrapper_rewrite.py:281-285 | The publication guard, likewise: it leaves for the pair's target, having written at most the table over the stub's first eight bytes, or faults |
| PatchedPairs.UnlistedApplies | tools/launch_runescape_wrapper_rewrite.py:2657-2665 | A pair outside the table can be carried out if and only if its site is readable and, where the block is there, the displacement is a signed 32-bit number |
| PatchedPairs.PairJumps | tools/launch_runescape_wrapper_rewrite.py:2657-2665 | For a matched pair outside the table: the bytes left at image base plus source decode to a jump to image base plus target, padded with nops, and the machine run into them in any state gets there in that state |
| PatchedPairs.PairReported | tools/launch_runescape_wrapper_rewrite.py:2638-2677 | What is reported of every pair, in or out of the table, in the pair and the memory before and after |
| PatchedSites.NullReadApplies | tools/launch_runescape_wrapper_rewrite.py:1937-1942 | A null read can be patched if and only if its eight bytes are readable |
| PatchedSites.NullReadReplaced | tools/launch_runescape_wrapper_rewrite.py:1931-1932 | The replacement bytes are `xor r8d, r8d` and five nops, assembled |
| PatchedSites.NullReadCleared | tools/launch_runescape_wrapper_rewrite.py:1926-1955 | After the pass the machine run into a matched site, image base plus offset, goes on behind it with R8 zero, whatever is mapped at address zero |
| PatchedSites.NullReadReported | tools/launch_runescape_wrapper_rewrite.py:1943-1953 | What the null-read pass reports of every offset |
| PatchedSites.InlineReplaced | tools/launch_runescape_wrapper_rewrite.py:1958-2003 | After the pass image base plus a known offset holds the replacement if it held the expected bytes |
| PatchedSites.InlineMeans | tools/launch_runescape_wrapper_rewrite.py:104-213 | Which instruction each known inline patch expects and which one, with how many nops, takes its place: both byte strings are these, encoded; no other offset is known |
| PatchedSites.InlineReported | tools/launch_runescape_wrapper_rewrite.py:1967-2001 | What the inline pass reports of every offset, known or not |
| ByteSearch.Find | tools/launch_runescape_wrapper_rewrite.py:1818 | The first occurrence at or after the cursor, or that there is none |
| LiteralReplacement.ReplaceLiteral | tools/launch_runescape_wrapper_rewrite.py:1803-1841 | Unequal lengths are refused; otherwise the scan terminates, the image is replaced leftmost-first, every reported occurrence matched, and no byte outside the image changes |
| LiteralReplacement.EmptyNeverEnds | tools/launch_runescape_wrapper_rewrite.py:1816-1834 | The search stays where it is exactly for an empty literal, which is why two empty literals are excluded |
| LiteralReplacement.PositionsOccur | tools/launch_runescape_wrapper_rewrite.py:1816-1834 | The replaced positions hold the literal, in order and without overlap |
| LiteralReplacement.PositionsComplete | tools/launch_runescape_wrapper_rewrite.py:1816-1834 | Every other occurrence starts inside a replaced one |
| LiteralReplacement.ReplacedByte | tools/launch_runescape_wrapper_rewrite.py:1816-1834 | Every byte of the result comes from the replacement inside a replaced position and from the image elsewhere |
| CommandLine.Tokenize | tools/launch_runescape_wrapper_rewrite.py:1490-1516 | The quote-toggling loop computes `Tokens`, whose properties are below |
| CommandLine.TokensSplit | tools/launch_runescape_wrapper_rewrite.py:1503-1510 | A blank outside quotes separates: the tokens are those before it and those behind it |
| CommandLine.OneToken | tools/launch_runescape_wrapper_rewrite.py:1490-1516 | A text without a blank outside quotes is one token, the text without its quotes; the empty line has none |
| CommandLine.TokensQuoteFree | tools/launch_runescape_wrapper_rewrite.py:1499-1502 | No token of any command line contains a quote |
| CommandLine.FormattedExactly | tools/launch_runescape_wrapper_rewrite.py:1519-1529 | An argument is printed as itself, in quotes if it is empty or has whitespace, and with a backslash more for every quote in it |
| CommandLine.RoundTripExactly | tools/launch_runescape_wrapper_rewrite.py:1490-1533 | Printing and splitting gives a list of arguments back if and only if none of them contains a quote; empty arguments and whitespace included |
| CommandLine.QuoteBecomesBackslash | tools/launch_runescape_wrapper_rewrite.py:1518-1529 | What any argument with quotes is read back as: one token with a backslash for every quote, if and only if none of its whitespace ends up outside quotes |
| CommandLine.RebuildingKeepsTokens | tools/launch_runescape_wrapper_rewrite.py:1490-1533 | Every command line is read back from its own rebuilt form |
| CommandLine.RewriteParams | tools/launch_runescape_wrapper_rewrite.py:1536-1551 | The result is the executable's name, if the first argument is one, and then the rest rewritten two arguments at a time from its first position until a key is not a number; exactly the real changes are recorded, in order |
| CommandLine.RewritesPairwise | tools/launch_runescape_wrapper_rewrite.py:1539-1550 | The in-place rewriting by position, which the other statements use, is that pairwise rewriting, and so are the changes |
| CommandLine.ChangesAreDifferences | tools/launch_runescape_wrapper_rewrite.py:1545-1549 | A change is recorded exactly for each position that differs, with its key, old and new value |
| CommandLine.RewritingIsIdempotent | tools/launch_runescape_wrapper_rewrite.py:1536-1551 | Rewriting rewritten arguments changes and records nothing, whatever the map |
| CommandLine.RewriteText | tools/launch_runescape_wrapper_rewrite.py:1554-1557 | Split, rewrite in pairs, rebuild |
| CommandLine.RewrittenTextReadsBack | tools/launch_runescape_wrapper_rewrite.py:1554-1557 | The rewritten text reads back as the rewritten arguments exactly when these are quote-free, which quote-free map values guarantee |
| CommandLine.RewritingTextIsIdempotent | tools/launch_runescape_wrapper_rewrite.py:1554-1557 | Rewriting a rewritten command line records no change if and only if no replacement used brings in a quote, and then yields the same text; quote-free map values guarantee it |
| JsonPrinter.Quote | tools/GhidraCrashSiteBundle947.java:22-64 | The escaping loop prints `QuotedTo` |
| JsonPrinter.ToJson | tools/GhidraCrashSiteBundle947.java:66-107 | The recursive printer with its `first` flag prints `Printed` |
| JsonPrinter.PlainTextPrints | tools/GhidraCrashSiteBundle947.java:27-63 | Text without quotes, backslashes and control characters is printed as it is, in quotes |
| JsonPrinter.EscapesShort | tools/GhidraCrashSiteBundle947.java:27-63 | Quotes, backslashes and five control characters are escaped in two units, the other control characters in six, in lower case |
| JsonPrinter.PrintedParts | tools/GhidraCrashSiteBundle947.java:79-104 | A list or object is the texts of its parts joined by commas, in brackets, and nothing else |
| JsonPrinter.StringRoundTrip | tools/GhidraCrashSiteBundle947.java:27-63 | A printed string, followed by anything, is read back by the string grammar |
| JsonPrinter.ValueRoundTrip | tools/GhidraCrashSiteBundle947.java:66-107 | For every value and following text that does not continue a printed number: parsing consumes exactly what was printed and returns the value |
| JsonPrinter.RoundTripExactly | tools/GhidraCrashSiteBundle947.java:66-107 | … and the proviso is exact |
| JsonPrinter.PrintedIsInjective | tools/GhidraCrashSiteBundle947.java:66-107 | Different values have different texts |
| ArtifactCache.NormalizeIdempotent | tools/protocol_automation_common.py:217-227 | Normalising twice is normalising once |
| ArtifactCache.NormalizeStable | tools/protocol_automation_common.py:217-227 | No volatile key survives at any depth, and a document is unchanged exactly when it had none |
| ArtifactCache.NormalizeKeeps | tools/protocol_automation_common.py:217-227 | Nothing else goes: a path through the document leads somewhere afterwards if and only if it did before and passes no volatile key, and to the same text, to a list as long, or to a mapping |
| ArtifactCache.FingerprintDetermines | tools/protocol_automation_common.py:321-329 | Equal fingerprints of one tool mean equal covered files and equal extra inputs as text |
| ArtifactCache.FingerprintNamesTool | tools/protocol_automation_common.py:321-329 | Runs of differently named tools never have the same fingerprint |
| ArtifactCache.Workspace.RecordCacheEntry | tools/protocol_automation_common.py:341-345 | The manifest gains exactly that entry |
| ArtifactCache.ManifestRoundTrip | tools/protocol_automation_common.py:341-345 | What is written to the manifest file is read back by the next run |
| ArtifactCache.Workspace.Run | tools/run_946_loopback_doctor.py:607-623 | With the manifest in its file between runs: afterwards both outputs exist; a forced run or one without either output builds; a hit returns the stored artifact and changes nothing; a miss returns the built artifact, leaves a JSON file that loads to it and its rendered report, touches no other file, and records the entry |
| ArtifactCache.RepeatedRunHits | tools/run_946_loopback_doctor.py:607-623 | A run repeated on inputs that the first one left as they were is a hit and hands out the first one's artifact |
| ArtifactCache.HitAgrees | tools/protocol_automation_common.py:332-338 | A hit returns what a fresh build would, up to volatile keys, when the build is covered by its fingerprint |
| ArtifactCache.CacheIsTransparent | tools/run_946_loopback_doctor.py:607-623 | Over any sequence of runs of any covered tools with distinct keys, files written and deleted in between, no run hands out a stale artifact |
| ArtifactCache.TransparentExactly | tools/run_946_loopback_doctor.py:607-623 | For a tool that does not read its own outputs: no history hands out a stale artifact if and only if the build is covered by the fingerprint |
| ArtifactCache.LoopbackCoversArguments | tools/run_946_loopback_doctor.py:595-597 | The loopback doctor's extra inputs determine both its arguments |
| ArtifactCache.LoopbackCovered | tools/run_946_loopback_doctor.py:582-598 | The loopback build, which reads all capture logs in their order, is covered on disks with at most 256 logs whose order follows their names |
| ArtifactCache.EditsShowExactly | tools/run_946_loopback_doctor.py:594 | Every edit of a capture log changes the fingerprint if and only if there are at most 256 logs |
| ArtifactCache.OldestUnseen | tools/run_946_loopback_doctor.py:594 | With more than 256 logs the oldest is not covered: whatever is written to it, coverage and fingerprint stay |
| ArtifactCache.OldLogsGoStale | tools/run_946_loopback_doctor.py:165-179 | So a loopback build that depends on such a log hands out stale artifacts |
| ArtifactCache.OrderUnseen | tools/run_946_loopback_doctor.py:584-594 | The order in which the logs were written, which the build follows, is not fingerprinted |
| ArtifactCache.PostSceneTransparentExactly | tools/run_946_post_scene_opcode_doctor.py:538-556 | A tool that fingerprints no argument never hands out a stale artifact if and only if its arguments do not matter to its build |
| ArtifactCache.UncoveredArgumentsGoStale | tools/run_946_post_scene_opcode_doctor.py:538-556 | Where they do: from every state, one run and then a second that returns the first one's artifact |
| FieldScan.Candidates | tools/find_947_field_refs.py:171-193 | The eligible decoding preferred by size and then by earlier start, or none when none is eligible |
| FieldScan.ScanSection | tools/find_947_field_refs.py:166-195 | Every occurrence of the bytes in a section, overlapping ones included, has its decoding recorded |
| FieldScan.ScanFieldRefs | tools/find_947_field_refs.py:154-224 | Succeeds exactly on offsets from 0 to 2^32 - 1. Reported are only decodings that some place whose four bytes are the offset settles on, at strictly increasing addresses, and with disjoint sections one for every such place that has any |
| FieldScan.ReportedCarries | tools/find_947_field_refs.py:181-188 | Every reported instruction is at its own address, carries the offset as an operand and covers four bytes that are the offset, at most ten bytes on; no other such decoding is longer, or as long and earlier |
| FieldScan.OccurrenceCovered | tools/find_947_field_refs.py:172-193 | Whatever decoding covers four bytes that are the offset and carries it, a reported instruction does too and is no worse |
| Sessions.OpcodeCounts | tools/protocol_946_debug_common.py:133-141 | The counting loop computes `Tally` |
| Sessions.TallyCounts | tools/protocol_946_debug_common.py:133-150 | The counters of opcodes, stages and markers have a key for exactly what occurs, with its number of occurrences |
| Sessions.StagesAreCounted | tools/protocol_946_debug_common.py:190-193 | The stage sequence holds each counted stage exactly once |
| Sessions.StagesGrow | tools/protocol_946_debug_common.py:190-193 | Reading a log further only adds stages at its end: they are in the order of first occurrence |
| Sessions.StagesInOrder | tools/protocol_946_debug_common.py:190-193 | Each stage of the sequence is that of a `world-stage` event, and the stages before it are those of the events before it |
| Sessions.SplitSessions | tools/protocol_946_debug_common.py:211-226 | The splitting loop builds one session per group of `Groups`, in order |
| Sessions.GroupsPartition | tools/protocol_946_debug_common.py:211-226 | Concatenating the sessions' events gives the log back |
| Sessions.GroupsWellSplit | tools/protocol_946_debug_common.py:211-226 | No session has an appearance stage event after its first event, and each but the first starts with one |
| Sessions.GroupsUnique | tools/protocol_946_debug_common.py:211-226 | That partition is the only one with these properties |
| Sessions.SessionCountsAddUp | tools/protocol_946_debug_common.py:187-208 | The sessions' client, server, stage and marker counts sum to those of the whole log |
| Sessions.SessionReports | tools/protocol_946_debug_common.py:194-208 | A session's lines and timestamps are those of its first and last event, its name the first one given, its count and events those of its group |
| Sessions.SessionTallies | tools/protocol_946_debug_common.py:133-208 | Its four counters count exactly the received and sent raw packets by opcode, the stage events by stage and the other world events by kind |
| DecimalText.ParseShown | tools/protocol_946_debug_common.py:251-252 | Reading the decimal text of an integer gives it back |
| DecimalText.ShownText | tools/protocol_946_debug_common.py:251-252 | The text is a minus sign for a negative number and digits without leading zeros |
| Sessions.WindowRoundTrip | tools/protocol_946_debug_common.py:244-254 | A window's text is accepted exactly when 0 < start <= end, and then gives its bounds back |
| Sessions.NoColon | tools/protocol_946_debug_common.py:244-250 | A window without a colon is an error |
| Sessions.WindowFindsSession | tools/protocol_946_debug_common.py:257-263 | With increasing line numbers, looking up a session's own window returns exactly that session |
| Sessions.LatestIsLast | tools/protocol_946_debug_common.py:233-241 | Without a window the last session is returned, and the fallback is never taken |
| Sessions.LatestExtracted | tools/protocol_946_debug_common.py:233-263 | Without a window, or with an empty one, what is extracted is the session of the events from the last appearance stage on, or of the whole log if there is none |
| Attempts.ParseServerAttempts | tools/run_946_loopback_doctor.py:182-225 | The log machine with its open attempt computes `AttemptsOf` |
| Attempts.OneAttemptPerLogin | tools/run_946_loopback_doctor.py:193-206 | Exactly one attempt per login line, in order, with its player |
| Attempts.CompletedReports | tools/run_946_loopback_doctor.py:207-224 | An attempt is closed exactly when the lines before the next login contain a close, with that line's stage and text; each of its three flags is set exactly when a line up to there says so |
| Attempts.NearestSession | tools/run_946_loopback_doctor.py:265-292 | The scan returns `Nearest` and adds exactly it to the caller's used indexes |
| Attempts.NearestIsNearest | tools/run_946_loopback_doctor.py:275-292 | It is the nearest unused eligible session within the limit, the earliest on ties; none exactly when none is eligible |
| Attempts.AttemptNeeds | tools/run_946_loopback_doctor.py:295-320 | The needs are noted in order and the closing removal of repetitions removes nothing |
| Attempts.OutcomeFitsNeeds | tools/run_946_loopback_doctor.py:295-340 | Outcome and needs agree: deliveries ask for no archive or capture, table reads are exactly what asks for the first archive, and a close at the interfaces is a loopback exactly when nothing was delivered |
| Attempts.BuildAttempts | tools/run_946_loopback_doctor.py:343-386 | One attempt per world session: its number, the two sessions chosen for it, the server attempt aligned from the end, each of the six outcomes and each of the five needs, with its label or stage, if and only if its condition holds of the paired content session, the server attempt and the world session |
| Attempts.ChoiceIsNearestUnused | tools/run_946_loopback_doctor.py:355-370 | Each choice is the nearest eligible session that no earlier world session was given |
| Attempts.PairedSessions | tools/run_946_loopback_doctor.py:355-370 | Spelled out: the nearest content session within 30 seconds, and the nearest game session with at least 500 bytes sent within 8, that was not yet chosen; none only when none is left |
| Attempts.ChoicesAreDistinct | tools/run_946_loopback_doctor.py:352-370 | No proxy session is paired to two world sessions, and every pair is within its time limit |
| Attempts.KindsDoNotMix | tools/run_946_loopback_doctor.py:359-367 | No proxy session is used both as a content and as a login session |
| Attempts.ServersAlignFromTail | tools/run_946_loopback_doctor.py:349-373 | Server attempts align from the tail |
| Registrar.SynthesizeCandidate | tools/run_946_extraction.py:220-279 | The collecting loop, the run and the stride check compute `Synthesized` |
| Registrar.CandidateIsProgression | tools/run_946_extraction.py:254-267 | Sample i is the last call of opcode i with a known size, with its packet, size and call site, and lies at packet[0] + i * stride; the run of opcodes cannot be extended; all calls are counted |
| Registrar.ReturnedExactly | tools/run_946_extraction.py:249-267 | A candidate is returned if and only if no calls disagree, opcode 0 is known, and the run is evenly spaced |
| Registrar.OrderDoesNotMatter | tools/run_946_extraction.py:230-279 | The result, call sites aside, is the same for every permutation of the lines |

## Left out

- Win32 and ctypes calls, reading the process environment block, protection flags and page rounding: memory is a map from mapped addresses to bytes, whatever is mapped can be written, and an allocation is a fresh block of 256 zero bytes.
- Concurrent execution of the client while it is patched; the passes and the machine take turns.
- The flags other than zero and carry, instruction prefixes and forms that neither the stubs nor the modelled displaced blocks use, and alignment and privilege faults.
- Vector registers: the one instruction of a displaced block that clears XMM0 is decoded and changes nothing else.
- CompareGuard.Guard590de8: the record and path-base fields are assumed not to overlap, because otherwise the second promotion write may change what the later checks read.
- MirrorGuard.MirrorsThenCompares: the buffers and stack slots are assumed mapped and not to overlap, as in the client's own frame.
- PatchPasses.FailureHarmless: that a stub fits its pages is assumed of the request; `GuardTable.BuildStub` proves it of every stub it builds.
- LiteralReplacement.ReplaceLiteral: two empty literals on a readable image are excluded, because the source's search would find them at the same place for ever; hex previews of the occurrences are not reported.
- PatchProcess.PatchJumpBypasses: the report of a site keeps its bytes and whether it matched, not the hexadecimal renderings of addresses and bytes.
- Filtering of disabled offsets and the parsing of offsets from text.
- JsonPrinter.ToJson: numbers are integers; floating-point values and objects printed through `String.valueOf` are not modelled, and a map is its list of entries with string keys.
- JsonPrinter.ValueRoundTrip: the parser rejects fractions and exponents, which are not integers.
- ArtifactCache.Workspace.Run: a manifest file that is not JSON, which makes the source fail, and the printed status.
- ArtifactCache.PostSceneTransparentExactly: which of its capture and decompilation logs the post-scene doctor lists is a parameter; the theorem is about the arguments.
- InstalledGuards.SlotReceivesExactly: a slot that partly overlaps stub or site is left out of the equivalence; nothing of the client lies in freshly allocated pages.
- Sessions.SplitSessions: the session's duration, which is the rounded difference of its two timestamps.
- DecimalText.ParseInt: digits and blanks outside ASCII.
- Attempts.BuildAttempts: sessions are referred to by index instead of being summarised field by field, and needs and outcomes are constructors instead of texts.
- FieldScan.ScanFieldRefs: the rendered context, raw windows and section names of a match.
- Registrar.SynthesizeCandidate: register names, the entry point and the function name derived from it.
- RSA key search, redirects, Frida scripts, Markdown rendering, argument parsing, screenshots, heuristic scoring and verdict texts.
