# netdump, modelled and verified

netdump captures packets through a memory-mapped ring and keeps those that pass a filter such as
`tcp and not (src net 10.0.0.0/8 or portrange 8000-8080)`. This project models its core in Dafny and proves what that core
is for:

- **One verified compiler.** `Compiler.Compile` follows `compile` and its emitters on a mutable `Assembler`: labels,
  pending jumps, back-patching into 8-bit offsets. Emitters that repeat each other share helper methods; what is emitted,
  and in which order labels are allocated and placed, is the original's. `Layout.CodeAt` is the reference: code with absolute
  targets and no labels. `Vm.Exec` follows the virtual machine's loop over `pc`, A, X and sixteen memory cells, with
  numeric opcodes and bit masks. `Semantics.Matches` says what a filter means on header fields. The chain
  *methods = layout = meaning* holds for every filter that can be assembled, every packet and every machine state.
- **Two meanings.** `Semantics.Matches` is the exact meaning of the code, `Intent.Means` the intended one. They are
  proved to agree except on an exactly stated set of packets (undirected port ranges, IPv6 networks with host bits set).
- **Exactly when assembling succeeds**, as a recursive function of the filter, which rewritings leave the bytecode
  unchanged, and that patching in any order gives the same program.
- **Exactly when filtering in the kernel and in user space is interchangeable**: from packets of 78 bytes on.
- **The capture ring** as a protocol of two parties, refining a FIFO queue over every interleaving.
- **The expression grammar** as a parsing expression grammar over tokens, proved sound, complete and unambiguous, with the
  round trip through a printer that is proved to write the fewest parentheses, and every spelling of a predicate.
- **Ties to literal values.** What code, machine and meaning share is pinned once more without it: filters on the bytes of a
  packet, opcodes and protocol numbers as numbers, arithmetic bit by bit, packets copied out of ring memory byte by byte,
  ring sizes and dates in closed form.
- **Smaller arithmetic:** netmasks, ring geometry, calendar dates.

| File | Contents |
|---|---|
| `Common.dfy`, `Bits.dfy` | shared definitions; bounded integers, bitwise operations, masks |
| `Bpf.dfy`, `Vm.dfy` | instructions and builders; decoding, small steps, the machine's loop |
| `Wire.dfy` | filters on the bytes of a packet, with literal numbers |
| `FilterAst.dfy`, `Semantics.dfy`, `Intent.dfy` | filters; their exact and their intended meaning |
| `Layout.dfy`, `Assembler.dfy`, `Compiler.dfy` | code without labels; the label assembler; the emitters |
| `Simulation.dfy`, `Addresses.dfy`, `Correctness.dfy` | code placed anywhere in a program decides what it is meant to |
| `JumpRange.dfy`, `Targets.dfy`, `Canonical.dfy` | jump range; jump targets; equal programs |
| `Headers.dfy`, `Strict.dfy` | the 78 header bytes; a machine that gives up on loads outside the packet |
| `Ring.dfy`, `KernelMemory.dfy`, `Capture.dfy` | ring protocol; what the kernel can write; the socket class |
| `Geometry.dfy` | sizes of the ring |
| `Grammar.dfy`, `Parser.dfy`, `NetMask.dfy` | grammar rules; parse trees to filters; networks and masks |
| `Keywords.dfy`, `Minimal.dfy` | every spelling of a predicate; the fewest parentheses |
| `Pipeline.dfy`, `Calendar.dfy` | expression and capture file to kept packets; dates |

## Conventions

Widths are written out: `u8` to `u128` are bounded mathematical integers, and each wrap-around or truncation is a `%`.
Bitwise operations are recursive functions on numbers. A panic of the program is an error value (`Err`, `Panic`).
`Draft` is the assembler's ghost history: what was emitted, and the position every label was allocated for; `Extends` says
what was appended to it. `Encodable` says that every jump of a layout fits into eight bits, which is when it assembles.
`Decides` and `Reaches` say that control leaves a block at one of the two given positions, and at none of its own.

## Model

| member | source | states |
|---|---|---|
| Vm.BuildersDecode | crates/netdump-filter/src/types.rs:75-117 | Every builder, with any operand and any patched offsets, decodes under the machine's bit masks as the one operation it is named for. |
| Bpf.BuildersAreLiteral | crates/netdump-filter/src/types.rs:18-117 | The builders' opcodes and the two return values as numbers. |
| Vm.LoadOpcodes | crates/netdump-cbpf/src/vm.rs:20-63 | Every load and store decodes from its numeric opcode. |
| Vm.AluOpcodes | crates/netdump-cbpf/src/vm.rs:64-90 | Every arithmetic operation decodes from its numeric opcode. |
| Vm.ControlOpcodes | crates/netdump-cbpf/src/vm.rs:91-125 | Every jump, return and register transfer decodes from its numeric opcode. |
| Vm.ArithModular | crates/netdump-cbpf/src/vm.rs:64-90 | Sums, differences, negation and products are right modulo 2^32; quotient and remainder make up the dividend; dividing by zero has no result. |
| Vm.ArithBitwise | crates/netdump-cbpf/src/vm.rs:76-86 | Each of the 32 bits of `and`, `or`, `xor` and the shifts, of whose amount only the lowest five bits count. |
| Bits.BitExactly | crates/netdump-cbpf/src/vm.rs:76-86 | A bit is the binary digit of the number at that place. |
| Vm.StepAdvances | crates/netdump-cbpf/src/vm.rs:16-18 | No step of any instruction, malformed or not, moves `pc` back or leaves it in place. |
| Vm.Trace | crates/netdump-cbpf/src/vm.rs:16-129 | The positions visited by any program are strictly increasing and inside the program, so there are at most as many as instructions. |
| Vm.ExecLoad | crates/netdump-cbpf/src/vm.rs:22-48 | The load branches do what the decoded operation does, including zero for loads not wholly inside the packet. |
| Vm.ExecLoadX | crates/netdump-cbpf/src/vm.rs:49-57 | The same for loads of X, including four times the low four bits of a byte. |
| Vm.ExecAlu | crates/netdump-cbpf/src/vm.rs:64-90 | The same for arithmetic: wrapping, faults on division by zero and on unknown operations. |
| Vm.ExecJump | crates/netdump-cbpf/src/vm.rs:91-111 | The same for jumps, relative to the next instruction. |
| Vm.ExecOne | crates/netdump-cbpf/src/vm.rs:17-126 | One iteration refines one pure small step: registers, memory, end and verdict. |
| Vm.Exec | crates/netdump-cbpf/src/vm.rs:10-129 | For arbitrary programs the loop ends with the verdict of the small-step run; the positions it visits are those of the trace, in order, and no more than there are instructions. |
| Simulation.RunToSplit | crates/netdump-cbpf/src/vm.rs:16-129 | Running to the end of a block is running to any point inside it and then on, the basis for composing blocks. |
| Simulation.FieldIsSim | crates/netdump-filter/src/compiler.rs:71-74 | A load and an equality jump, placed anywhere, decide whether the field equals the constant. |
| Simulation.FieldsInSim | crates/netdump-filter/src/compiler.rs:317-373 | The directed and undirected comparison of two fields decides source, destination or either. |
| Simulation.FieldBetweenSim | crates/netdump-filter/src/compiler.rs:388-417 | Two jumps decide whether a field lies between both bounds, inclusive. |
| Simulation.RangesInSim | crates/netdump-filter/src/compiler.rs:376-461 | The range comparison decides the selected field, and undirected gives up on a source below the range without looking at the destination. |
| Simulation.FamilySplitSim | crates/netdump-filter/src/compiler.rs:213-239 | The dispatch on the ethertype continues in the IPv4 part, in the IPv6 part or at reject. |
| Simulation.TcpOrUdpSim | crates/netdump-filter/src/compiler.rs:277-294 | Falls through for TCP and UDP and rejects every other protocol. |
| Simulation.WordsAtSim | crates/netdump-filter/src/compiler.rs:194-211 | The chain of word tests decides whether all words are equal, for any number of words. |
| Simulation.MaskedWordsAtSim | crates/netdump-filter/src/compiler.rs:571-590 | The same with a mask in front of every comparison. |
| Simulation.MacAtSim | crates/netdump-filter/src/compiler.rs:463-494 | A 32-bit and a 16-bit test decide equality of all six octets. |
| Wire.ReadsAreFields | crates/netdump-cbpf/src/vm.rs:132-153 | Loads are the big-endian numbers in the packet, and zero unless it holds all their bytes. |
| Wire.AddressOnBytes | crates/netdump-filter/src/compiler.rs:194-211 | The 128-bit address is the number in sixteen bytes; a word that is not there counts as zero. |
| Wire.MacOnBytes | crates/netdump-filter/src/compiler.rs:463-494 | The two tests for a MAC address compare its six octets with six bytes in order; on shorter packets the missing part must be zeros. |
| Wire.EtherHostOnBytes | crates/netdump-filter/src/compiler.rs:463-494 | `ether host` compares bytes 6 to 11 for the source, 0 to 5 for the destination. |
| Wire.ProtocolsOnBytes | crates/netdump-filter/src/compiler.rs:59-118 | Each protocol by its literal ethertype and protocol number, on packets of any length. |
| Wire.Ipv4OnBytes | crates/netdump-filter/src/compiler.rs:133-166 | IPv4 hosts and networks by the bytes they compare, on packets of any length. |
| Wire.Ipv6OnBytes | crates/netdump-filter/src/compiler.rs:168-192 | The same for IPv6. |
| Wire.PortsOnBytes | crates/netdump-filter/src/compiler.rs:213-239 | Which packets have ports and at which bytes, with the header length taken from byte 14. |
| Wire.PortFiltersOnBytes | crates/netdump-filter/src/compiler.rs:241-275 | Ports and port ranges by these bytes, for each direction. |
| Wire.LengthsOnBytes | crates/netdump-filter/src/compiler.rs:592-603 | The six comparisons of the packet length modulo 2^32. |
| Wire.IpProgram | crates/netdump-filter/src/compiler.rs:15-28 | The program of `ip`, number by number. |
| Addresses.WordsJoin | crates/netdump-filter/src/compiler.rs:605-613 | The four words cut from the octets of an IPv6 address are its big-endian base 2^32 digits. |
| Addresses.AndJoin | crates/netdump-filter/src/compiler.rs:571-590 | Masking four words one by one is masking the 128-bit number they make up. |
| Correctness.WordsAreAddress | crates/netdump-filter/src/compiler.rs:194-211 | Four equal words mean that the 128-bit address in the packet is the given one. |
| Correctness.MaskedWordsAreAddress | crates/netdump-filter/src/compiler.rs:571-590 | Four masked comparisons mean that the masked 128-bit address equals the unmasked given one. |
| Correctness.HeaderLengthStep | crates/netdump-filter/src/compiler.rs:228-238 | The indexed load sets X to four times the IHL field, whatever its value. |
| Correctness.ProtoSim | crates/netdump-filter/src/compiler.rs:59-118 | Protocol code decides the protocol, over both IP versions where it must. |
| Correctness.HostSim | crates/netdump-filter/src/compiler.rs:120-192 | Host code decides equality of the selected 32-bit or 128-bit address. |
| Correctness.OverPortsSim | crates/netdump-filter/src/compiler.rs:213-239 | Ports of both IP versions: given correct comparisons at their own entry states, the whole dispatch decides "has ports and the comparison holds". |
| Correctness.PortSim | crates/netdump-filter/src/compiler.rs:213-239 | Port code decides the port selected by the direction, on the indexed and the fixed path. |
| Correctness.PortRangeSim | crates/netdump-filter/src/compiler.rs:241-275 | The same for ranges, with the undirected form as the code has it. |
| Correctness.EtherHostSim | crates/netdump-filter/src/compiler.rs:463-494 | MAC address code decides the selected address. |
| Correctness.NetSim | crates/netdump-filter/src/compiler.rs:496-590 | Network code decides the masked comparison, with the address masked for IPv4 and as given for IPv6. |
| Correctness.LenSim | crates/netdump-filter/src/compiler.rs:592-603 | Length code decides all six comparisons with the packet length truncated to 32 bits. |
| Correctness.LeafSim | crates/netdump-filter/src/compiler.rs:30-57 | Every predicate's code reaches accept if it matches and reject otherwise, from any state. |
| Correctness.FilterSim | crates/netdump-filter/src/compiler.rs:30-57 | The code of any filter, placed anywhere in any program and entered with any registers and memory, reaches exactly accept when the filter matches and reject otherwise, and never the code behind it. |
| Correctness.ProgramCorrect | crates/netdump-filter/src/compiler.rs:15-28 | A compiled program ends at one of its two return instructions, the first exactly on the packets that match; it never gets stuck and never runs off its end. |
| Assembler.PatchesExact | crates/netdump-filter/src/assembler.rs:42-53 | A patch is pending for each offset of each conditional jump, and for nothing else. |
| Assembler.PatchesUnique | crates/netdump-filter/src/assembler.rs:63-80 | No offset is patched twice. |
| Assembler.PatchAllApplies | crates/netdump-filter/src/assembler.rs:63-80 | Patching that succeeds carries out every patch, undoes none and changes nothing else, for any patches that do not contradict each other. |
| Assembler.PatchAllExact | crates/netdump-filter/src/assembler.rs:63-80 | Patching in the order of emission fails with the first error, or fills in both offsets of every jump. |
| Assembler.SameProgramInAnyOrder | crates/netdump-filter/src/assembler.rs:63-80 | Patches that do not contradict each other give the same program in any order, however often each occurs. |
| Assembler.OrderIrrelevant | crates/netdump-filter/src/assembler.rs:63-80 | Patching in any order of the pending patches fails exactly when patching in their own order fails, and otherwise gives the same, completely patched program. |
| Assembler.PatchErrorsAgree | crates/netdump-filter/src/assembler.rs:63-80 | Patching labelled code fails with exactly the error, and at exactly the jump, of encoding its layout. |
| Assembler.ResolvedIsAssembled | crates/netdump-filter/src/assembler.rs:63-80 | Resolving gives the encoded layout instruction for instruction, or its first error; label numbers do not show. |
| Assembler.ExtendsOverLabel | crates/netdump-filter/src/compiler.rs:32-43 | Allocating a middle label, emitting one part, placing the label and emitting the other appends both parts with every label allocated in between placed. |
| Assembler.Assembler.NewLabel | crates/netdump-filter/src/assembler.rs:23-27 | The label returned was never allocated, planned or placed before. |
| Assembler.Assembler.Emit | crates/netdump-filter/src/assembler.rs:35-39 | Appends one instruction, returns its index and keeps the assembler on plan. |
| Assembler.Assembler.EmitJump | crates/netdump-filter/src/assembler.rs:42-53 | Appends the instruction and both its patches, in that order, and keeps the assembler on plan. |
| Assembler.Assembler.PlaceLabel | crates/netdump-filter/src/assembler.rs:56-58 | Binds the label; on plan as long as it is placed where it was allocated for. |
| Assembler.Assembler.Resolve | crates/netdump-filter/src/assembler.rs:63-80 | The loop carries out the pending patches in order: it reports the first that cannot be applied, or returns every instruction with both offsets patched. |
| Compiler.ContinueIf | crates/netdump-filter/src/compiler.rs:388-391 | A jump over a fresh label placed right behind it falls through if the test holds. |
| Compiler.SplitFamilies | crates/netdump-filter/src/compiler.rs:213-275 | Emits exactly the ethertype dispatch, whose IPv4 label stays open for the caller. |
| Compiler.RequirePortedTransport | crates/netdump-filter/src/compiler.rs:277-315 | Emits exactly the TCP-or-UDP guard. |
| Compiler.CheckFields | crates/netdump-filter/src/compiler.rs:317-373 | Emits exactly the comparison of one or two fields. |
| Compiler.ComparePortRange | crates/netdump-filter/src/compiler.rs:376-461 | Emits exactly the range comparison, with its two labels placed right behind their jumps. |
| Compiler.CompileTransportProto | crates/netdump-filter/src/compiler.rs:76-100 | Emits exactly the reference layout for TCP or UDP over both IP versions. |
| Compiler.CompileProto | crates/netdump-filter/src/compiler.rs:59-69 | Emits exactly the reference layout of every protocol. |
| Compiler.CheckIpv6AddrAt | crates/netdump-filter/src/compiler.rs:194-211 | The loop over the words emits exactly the chain of word tests, with a fresh label between any two. |
| Compiler.CompileHost | crates/netdump-filter/src/compiler.rs:120-192 | Emits exactly the reference layout of hosts. |
| Compiler.CheckTransportAndComparePorts | crates/netdump-filter/src/compiler.rs:277-294 | Emits exactly the guard and the comparison of the ports over IPv6. |
| Compiler.ComparePortsOverIpv4 | crates/netdump-filter/src/compiler.rs:228-238 | Emits exactly the guard, the load of the header length and the indexed comparison over IPv4. |
| Compiler.CompilePort | crates/netdump-filter/src/compiler.rs:213-239 | Emits exactly the reference layout of ports, with the IPv4 part behind the IPv6 part. |
| Compiler.CheckTransportAndComparePortRange | crates/netdump-filter/src/compiler.rs:297-315 | Emits exactly the guard and the comparison of the range of ports over IPv6. |
| Compiler.CompilePortRange | crates/netdump-filter/src/compiler.rs:241-275 | The same for port ranges. |
| Compiler.CompileEtherHost | crates/netdump-filter/src/compiler.rs:463-494 | Emits exactly the reference layout of MAC addresses. |
| Compiler.CompileIpv4Net | crates/netdump-filter/src/compiler.rs:509-541 | Emits exactly the reference layout of IPv4 networks, masking the address beforehand. |
| Compiler.CheckIpv6NetAt | crates/netdump-filter/src/compiler.rs:571-590 | The loop over the words emits exactly the chain of masked word tests. |
| Compiler.CompileNet | crates/netdump-filter/src/compiler.rs:496-507 | Emits exactly the reference layout of networks. |
| Compiler.CompileLen | crates/netdump-filter/src/compiler.rs:592-603 | Emits exactly the reference layout of length tests, three of them with exits exchanged. |
| Compiler.CompileNode | crates/netdump-filter/src/compiler.rs:30-57 | For any labels passed down, appends exactly the filter's layout between the positions these labels stand for, and places every label it allocates. |
| Compiler.Emitted | crates/netdump-filter/src/compiler.rs:15-27 | Before resolving, every allocated label is placed, none twice, each where it was allocated for. |
| Compiler.Compile | crates/netdump-filter/src/compiler.rs:15-28 | Back-patching refines direct layout: the result is the assembled reference program, or its error. |
| JumpRange.FilterWithin | crates/netdump-filter/src/compiler.rs:30-57 | All jumps of a filter's code are forward, and the maximum-skip function is exactly the longest of them, for exits at any distance. |
| JumpRange.AssemblesExactly | crates/netdump-filter/src/assembler.rs:63-80 | Assembling succeeds if and only if the maximum skip is at most 255; otherwise the error is an offset between 256 and the maximum skip, never a missing label or a backward jump. |
| JumpRange.MaxSkipBound | crates/netdump-filter/src/assembler.rs:69-72 | The maximum skip is bounded by the code size and the distance of the exits. |
| JumpRange.SizeBound | crates/netdump-filter/src/compiler.rs:30-57 | Every predicate takes between 2 and 26 instructions, and operators take none. |
| JumpRange.SmallFiltersAssemble | crates/netdump-filter/src/assembler.rs:69-72 | Up to 256 instructions of predicate code, or up to nine predicates of any kind, always assemble. |
| JumpRange.NetConjunctionLimit | crates/netdump-filter/src/compiler.rs:543-590 | A conjunction of undirected IPv6 networks assembles if and only if it has at most nine; from ten on it fails with offset 26k - 1, which is 259 for ten. |
| Targets.FilterInside | crates/netdump-filter/src/compiler.rs:30-57 | If the code of a filter and its exits lie below some position, so do both targets of each of its jumps. |
| Targets.JumpsLandInside | crates/netdump-filter/src/compiler.rs:15-28 | Every jump of a program, taken by a run or not, has both targets inside the program. |
| Targets.AssembledJumpsLandInside | crates/netdump-cbpf/src/vm.rs:91-111 | The same of the assembled program as the machine decodes it: no unconditional jump, and both relative offsets of every conditional one lead to an instruction. |
| Canonical.DoubleNegation | crates/netdump-filter/src/compiler.rs:44-46 | Double negation leaves the code identical at every place and for every exits. |
| Canonical.DeMorganAnd | crates/netdump-filter/src/compiler.rs:32-46 | So does pushing a negation into a conjunction. |
| Canonical.DeMorganOr | crates/netdump-filter/src/compiler.rs:32-46 | So does pushing a negation into a disjunction. |
| Canonical.AndReassociates | crates/netdump-filter/src/compiler.rs:32-37 | So does re-associating conjunctions. |
| Canonical.OrReassociates | crates/netdump-filter/src/compiler.rs:38-43 | So does re-associating disjunctions. |
| Canonical.SameCodeInContext | crates/netdump-filter/src/compiler.rs:30-57 | Parts with identical code are interchangeable inside any larger filter. |
| Canonical.EveryLawIsAStep | crates/netdump-filter/src/compiler.rs:32-46 | Each of the five laws, in any context and in both directions, is a step of the rewriting below. |
| Canonical.StepSameProgram | crates/netdump-filter/src/compiler.rs:15-46 | One rewriting anywhere inside a filter, in either direction, leaves the program identical. |
| Canonical.RewritingKeepsProgram | crates/netdump-filter/src/compiler.rs:15-46 | Any chain of rewritings leaves the program identical, and the outcome of assembling it. |
| Headers.FilterHeader | crates/netdump-filter/src/compiler.rs:30-57 | All code of a filter loads from the first 78 bytes only, by absolute offset or behind an IPv4 header length, and its length only in length tests. |
| Headers.HasLenExactly | crates/netdump-filter/src/compiler.rs:592-603 | The exception of length tests concerns exactly the filters with a length predicate in them. |
| Headers.InRangeExactly | crates/netdump-cbpf/src/vm.rs:132-153 | A load is out of range exactly if its last byte is not in the packet. |
| Headers.HeadersDecide | crates/netdump-filter/src/compiler.rs:228-238 | Without a length test, packets of at least 78 bytes that share their first 78 bytes get the same verdict. |
| Headers.LastHeaderByteMatters | crates/netdump-filter/src/compiler.rs:236-238 | 78 cannot be lowered: byte 77 alone can decide. |
| Strict.StrictExactly | crates/netdump-cbpf/src/vm.rs:27-43 | For arbitrary programs, the machine that gives up on out-of-range loads ends like this one if and only if every load executed is in range, and accepts if and only if this one accepts and every load executed is in range. |
| Strict.StrictAndLenientAgree | crates/netdump-cli/src/main.rs:323-324 | On packets of at least 78 bytes both machines run every compiled program to the same exit. |
| Strict.StrictProgramExactly | crates/netdump-cli/src/main.rs:323-324 | The strict machine accepts exactly the packets that match and on which every load executed is in range. |
| Strict.StrictBoundIsTight | crates/netdump-cbpf/src/vm.rs:132-153 | For every length below 78 bytes, `not dst port 1` and a packet of this length get different verdicts. |
| Strict.InterchangeableExactly | crates/netdump-cli/src/main.rs:323-324 | The machines give the same verdict for all filters and all packets of n bytes if and only if n is at least 78. |
| NetMask.PrefixMask | crates/netdump-filter/src/lib.rs:469-483 | For a prefix of at least one bit, shifting all ones gives that many ones above zeros. |
| NetMask.EmptyPrefixMask | crates/netdump-filter/src/lib.rs:472-477 | For an empty prefix a build with overflow checks panics and one without yields the mask of a single host. |
| NetMask.OnesExactly | crates/netdump-filter/src/lib.rs:469-483 | As numbers the masks are 2^32 - 2^(32 - p) and 2^128 - 2^(128 - p). |
| NetMask.PrefixNet | crates/netdump-filter/src/lib.rs:447-483 | Written prefixes: which are errors and which, and the mask of every other. |
| NetMask.DefaultNets | crates/netdump-filter/src/lib.rs:406-423 | Networks written without a mask have the literal mask of their class, in IPv6 that of one host. |
| NetMask.NetOverflows | crates/netdump-filter/src/lib.rs:385-483 | The shift overflows exactly for a written prefix of no bits in a build with overflow checks; no default and no explicit mask does. |
| NetMask.PrefixExactly | crates/netdump-filter/src/lib.rs:469-483 | The mask compares exactly the first p bits of all addresses if and only if p is at least one, in both builds. |
| NetMask.AndIdempotent | crates/netdump-filter/src/compiler.rs:571-590 | Masking twice is masking once, so a masked address can only equal one without host bits. |
| Bits.HighMask | crates/netdump-filter/src/lib.rs:469-483 | Masking with ones above q zeros clears exactly the last q bits. |
| Bits.AndIsBitwise | crates/netdump-cbpf/src/vm.rs:77 | The recursive conjunction is the bitwise one at every bit. |
| Intent.Ipv6NetExactly | crates/netdump-filter/src/compiler.rs:571-590 | An IPv6 network test holds if and only if the address has no host bits and the packet belongs to the network; with host bits it rejects every packet. |
| Intent.Ipv4PrefixMatch | crates/netdump-filter/src/compiler.rs:509-541 | For every prefix of at least one bit the IPv4 test is the prefix test on the selected address, host bits or not. |
| Intent.Ipv6PrefixMatch | crates/netdump-filter/src/compiler.rs:543-590 | For every prefix of at least one bit the IPv6 test is the 128-bit prefix test together with the absence of host bits. |
| Intent.LeafExactly | crates/netdump-filter/src/compiler.rs:376-417 | A predicate means what it is meant to exactly off the stated packets (undirected range: source below it and destination inside; IPv6 network: host bits and membership), and never accepts more. |
| Intent.AlwaysExactly | crates/netdump-filter/src/compiler.rs:376-417 | A predicate means on all packets what it is meant to if and only if its own text says so: an undirected range starts at 0 or is empty, an IPv6 network has no host bits. |
| Intent.Ipv6NetDeparts | crates/netdump-filter/src/compiler.rs:581-583 | `net ::1 mask ::` should match every IPv6 packet and matches none; a packet of 54 bytes is given. |
| Intent.MeaningKept | crates/netdump-filter/src/compiler.rs:30-57 | A filter none of whose predicates deviates on a packet means what it is meant to there. |
| Intent.MeaningExactly | crates/netdump-filter/src/compiler.rs:30-57 | For whole filters the two meanings agree on a packet if and only if no deviation shows through the operators, which says exactly when deviations are hidden or cancel. |
| Intent.NothingExtra | crates/netdump-filter/src/compiler.rs:376-461 | A filter without `not` never accepts a packet it is not meant to. |
| Intent.NegationGainsPackets | crates/netdump-filter/src/compiler.rs:390 | With `not` it can: the packet given, from port 80 to port 1500, passes `not portrange 1000-2000`. |
| Ring.PacketAtExactly | crates/netdump-afpacket/src/lib.rs:263-283 | The packet of a frame has exactly the bytes from `tp_mac` on, `tp_snaplen` of them, with the header's seconds, its nanoseconds in microseconds, and both lengths those of the bytes. |
| Ring.OwnershipBit | crates/netdump-afpacket/src/lib.rs:307-319 | The lowest bit of the status word decides, whatever the others are. |
| KernelMemory.KernelCanAct | crates/netdump-afpacket/src/lib.rs:259-320 | The environment is not empty: any packets that fit can be taken in, written to memory and handed over. |
| Ring.FillStep | crates/netdump-afpacket/src/lib.rs:259-300 | The kernel writing into the open block keeps the invariant and appends one packet to the queue. |
| Ring.RetireStep | crates/netdump-afpacket/src/lib.rs:302-316 | Handing a block over, empty or not, keeps the invariant and the queue. |
| Ring.CursorIsHead | crates/netdump-afpacket/src/lib.rs:261-280 | The frame under the cursor lies in a user-owned block, is whole, and is the head of the queue. |
| Ring.DeliverStep | crates/netdump-afpacket/src/lib.rs:261-283 | Delivering reads a user-owned block only and dequeues exactly one packet. |
| Ring.ReleaseStep | crates/netdump-afpacket/src/lib.rs:286-293 | A block is given back, by setting its status to zero and changing nothing else, only after its last packet was delivered, and the queue does not change. |
| Ring.AcquireStep | crates/netdump-afpacket/src/lib.rs:296-305 | Taking up a retired block keeps the invariant and the queue. |
| Ring.StepRefinesQueue | crates/netdump-afpacket/src/lib.rs:259-320 | Every step of either party is a step of a FIFO queue: enqueue one produced, dequeue one delivered, or nothing. |
| Ring.ExactlyOnceInOrder | crates/netdump-afpacket/src/lib.rs:259-320 | At every moment of every interleaving, what was delivered followed by what is still in the ring is what was produced, in order, each packet once. |
| Capture.AfPacketSocket.constructor | crates/netdump-afpacket/src/lib.rs:240-252 | A new socket starts in an initial state of the protocol. |
| Capture.AfPacketSocket.DeliverFrame | crates/netdump-afpacket/src/lib.rs:261-283 | The packet returned holds the bytes and the time of the frame under the cursor, in a user-owned block, and is the one appended to the deliveries. |
| Capture.AfPacketSocket.ReleaseBlock | crates/netdump-afpacket/src/lib.rs:286-293 | Writing the status back and advancing the block is the protocol's release step. |
| Capture.AfPacketSocket.WaitForBlock | crates/netdump-afpacket/src/lib.rs:307-320 | Returns with a user-owned block, with the failure of a poll, or still waiting when the turns given are used up; delivers nothing, and does not poll if a block is already there. |
| Capture.AfPacketSocket.TakeBlock | crates/netdump-afpacket/src/lib.rs:296-304 | Waiting and setting the cursor are steps of the protocol, with the kernel acting in between; a block with packets is never passed over. |
| Capture.AfPacketSocket.NextPacket | crates/netdump-afpacket/src/lib.rs:259-305 | One call, with the kernel acting during polls and between any two accesses to the ring, is a run of the protocol that delivers exactly the packet it returns, whose bytes are those of a frame in the user-owned block; a failed poll delivers and loses nothing; a packet waiting in a retired block is returned without polling. |
| Capture.NothingHeld | crates/netdump-afpacket/src/lib.rs:307-320 | While the consumer waits, no block with packets is being kept back. |
| Geometry.PowersOfTwo | crates/netdump-afpacket/src/lib.rs:602 | The recursive test holds exactly for the powers of two. |
| Geometry.NextPowerOfTwoLeast | crates/netdump-afpacket/src/lib.rs:188-192 | Rounding up gives the least power of two that is not below the number. |
| Geometry.FrameExactly | crates/netdump-afpacket/src/lib.rs:188-192 | The frame size is the least power of two that is at least the packet length plus 256 and at least the size asked for, 2048 if none is. |
| Geometry.BlockExactly | crates/netdump-afpacket/src/lib.rs:193 | The block size is the least number of whole pages that is as large as asked for and holds a frame. |
| Geometry.CountsExactly | crates/netdump-afpacket/src/lib.rs:194-205 | The ring is all blocks, the number of frames is how many fit into it, and the request holds these values modulo 2^32. |
| Geometry.AlignToLeast | crates/netdump-afpacket/src/lib.rs:601-604 | For alignments that are powers of two the mask expression is the least multiple not below the value. |
| Geometry.BlocksHoldFrames | crates/netdump-afpacket/src/lib.rs:186-205 | Blocks consist of whole pages and hold at least one frame with room for a whole packet. |
| Geometry.FrameCount | crates/netdump-afpacket/src/lib.rs:195-202 | The requested number of frames is that of whole frames in all blocks if and only if the rests of the blocks add up to less than a frame. |
| Geometry.FramesFillBlocks | crates/netdump-afpacket/src/lib.rs:186-205 | Frames divide the block if and only if the block size asked for is less than a page short of a multiple of the frame size. |
| Geometry.FramesCanMissBlocks | crates/netdump-afpacket/src/lib.rs:187-202 | They need not: blocks of 1028 KiB with frames of 128 KiB leave a page over, and 514 frames are requested where 512 fit. |
| Geometry.UsualFramesFillBlocks | crates/netdump-afpacket/src/lib.rs:186-205 | They do, and no frame is miscounted, if a frame fits into a page, no block larger than a frame was asked for, or the block asked for consists of frames. |
| Geometry.SmallRingRequest | crates/netdump-afpacket/src/lib.rs:198-205 | A ring below 4 GiB is requested with the sizes computed: no truncation to 32 bits takes place. |
| Grammar.KindSound | crates/netdump-filter/src/filter.pest:9-19 | What a predicate rule consumes is exactly what its tree stands for. |
| Grammar.NotSound | crates/netdump-filter/src/filter.pest:6 | `not` takes exactly one primary. |
| Grammar.AndRestSound | crates/netdump-filter/src/filter.pest:5 | A conjunction consumes operands with or without an operator, and no operator without an operand. |
| Grammar.OrSound | crates/netdump-filter/src/filter.pest:4 | A disjunction consumes exactly what its well-shaped tree stands for. |
| Grammar.KindComplete | crates/netdump-filter/src/filter.pest:9-19 | The ordered choices match each predicate as itself; none hides another. |
| Grammar.AndComplete | crates/netdump-filter/src/filter.pest:5 | The tokens of a well-shaped conjunction are matched as it, in front of anything that cannot continue it. |
| Grammar.OrComplete | crates/netdump-filter/src/filter.pest:4 | The same for disjunctions. |
| Grammar.ParserExact | crates/netdump-filter/src/filter.pest:1-19 | A token sequence is matched as a tree if and only if the tree is well shaped and stands for it: sound, complete and unambiguous. |
| Parser.BuildAnd | crates/netdump-filter/src/lib.rs:172-191 | The loop over the pairs, with its optional operators and its errors, is the left fold. |
| Parser.BuildOr | crates/netdump-filter/src/lib.rs:149-170 | The same for disjunctions. |
| Parser.ParseExpression | crates/netdump-filter/src/lib.rs:127-147 | Matching and building in sequence, with a syntax error where nothing matches. |
| Parser.OrFails | crates/netdump-filter/src/lib.rs:149-340 | An expression is invalid if and only if one of its predicates is, and then with the error of the first in reading order, whatever operators and parentheses stand between them. |
| Parser.OverflowExactly | crates/netdump-filter/src/lib.rs:469-483 | Parsing panics if and only if overflow checks are on and a network with an empty prefix has only valid predicates in front of it. |
| Parser.EmptyPrefixDeparts | crates/netdump-filter/src/lib.rs:472 | `net 0.0.0.0/0` panics with overflow checks and means the single host 0.0.0.0 without them. |
| Keywords.GreaterAndLess | crates/netdump-filter/src/lib.rs:285-305 | `greater n` and `less n` match exactly the packets longer and shorter than n, and numbers of more than 32 bits are errors. |
| Keywords.Lengths | crates/netdump-filter/src/lib.rs:306-316 | `len` with any comparison. |
| Keywords.Protocols | crates/netdump-filter/src/lib.rs:242 | A protocol, with or without a direction in front, which means nothing. |
| Keywords.EtherHosts | crates/netdump-filter/src/lib.rs:317-334 | `ether` with or without `host`; its own direction counts, one in front of it does not. |
| Keywords.Hosts | crates/netdump-filter/src/lib.rs:243-250 | `host` with its direction. |
| Keywords.Ports | crates/netdump-filter/src/lib.rs:251-261 | `port` with its direction; numbers from 2^16 on are errors. |
| Keywords.PortRanges | crates/netdump-filter/src/lib.rs:262-280 | `portrange`: too large and reversed bounds are errors, in this order. |
| Keywords.ClassfulNets | crates/netdump-filter/src/lib.rs:385-423 | `net` without a mask, from the tokens to the literal mask. |
| Keywords.PrefixNets | crates/netdump-filter/src/lib.rs:447-483 | `net` with a prefix, from the tokens to the mask or the error. |
| Keywords.MaskedNets | crates/netdump-filter/src/lib.rs:431-446 | `net` with a mask: taken as written, and an error if the versions differ. |
| Minimal.FewestParentheses | crates/netdump-filter/src/filter.pest:4-7 | No way of writing a filter takes fewer parentheses than its printing. |
| Minimal.OperatorsOfStyle | crates/netdump-filter/src/filter.pest:5 | The printer writes the operators of exactly the conjunctions that the style asks for. |
| Parser.RoundTrip | crates/netdump-filter/src/lib.rs:127-340 | Every well-formed filter comes back from its printing with parentheses only where needed, whichever conjunctions are written with `and`. |
| Parser.OrGood | crates/netdump-filter/src/lib.rs:274-278 | Only well-formed filters are ever parsed: no port range is reversed. |
| Parser.Reprint | crates/netdump-filter/src/lib.rs:127-340 | Printing whatever was parsed, in any style, and parsing it again changes nothing. |
| Parser.JuxtapositionIsAnd | crates/netdump-filter/src/lib.rs:172-191 | Dropping every `and` of a conjunction leaves its filter, or its error, unchanged. |
| Pipeline.CompiledDecides | crates/netdump-cli/src/main.rs:246-248 | Running an assembled filter on a packet decides whether the filter matches it. |
| Pipeline.ReadCapture | crates/netdump-cli/src/main.rs:190-268 | Parsing, compiling and running over a capture file keeps exactly the first `count` packets that match, in order; it stops on a parse error, and with a panic if and only if an empty prefix overflows the shift or the maximum skip of the parsed filter exceeds 255. |
| Pipeline.FirstOfSelects | crates/netdump-cli/src/main.rs:222-252 | What is kept are matching packets at increasing places, at most `count`, and a matching packet is left out only behind all of them when `count` is reached. |
| Pipeline.PrintedFilterDecides | crates/netdump-cli/src/main.rs:190-248 | A filter that is printed, parsed, compiled and run decides what it means. |
| Calendar.MonthsClosedForm | crates/netdump-cli/src/main.rs:798-802 | The table of months is (367m - 362)/12 corrected for February, and each month has its length. |
| Calendar.DatesClosedForm | crates/netdump-cli/src/main.rs:787-816 | Valid dates and their day numbers without tables and loops. |
| Calendar.EpochDaysToDate | crates/netdump-cli/src/main.rs:787-812 | Both loops end, from the epoch on with a valid Gregorian date whose closed-form day number is the argument; before it with the wrapped day of January 1970. |
| Calendar.YearStep | crates/netdump-cli/src/main.rs:814-816 | The closed form `y/4 - y/100 + y/400` counts exactly the years for which the leap test holds. |
| Calendar.DayNumberMonotone | crates/netdump-cli/src/main.rs:787-812 | Dates are ordered as their day numbers, so the conversion is one-to-one and strictly monotone. |
| Calendar.RoundTrip | crates/netdump-cli/src/main.rs:787-812 | Every valid date from 1970 on comes back from its day number. |

## Where the code departs from what a reader expects

The model follows the code in each case.

- Every undirected predicate accepts either side, except the undirected port range: it rejects a source port below the
  range without looking at the destination (crates/netdump-filter/src/compiler.rs:390; `Intent.AlwaysExactly`,
  `Intent.NegationGainsPackets`).
- IPv6 networks with host bits set match nothing, while IPv4 networks ignore host bits
  (crates/netdump-filter/src/compiler.rs:581-583, crates/netdump-filter/src/compiler.rs:517; `Intent.Ipv6NetDeparts`).
- A prefix of no bits shifts by the full width: `net 0.0.0.0/0` panics in a build with overflow checks and means the single
  host 0.0.0.0 in one without (crates/netdump-filter/src/lib.rs:472, crates/netdump-filter/src/lib.rs:477;
  `Parser.EmptyPrefixDeparts`).
- `greater` and `less` are strict (crates/netdump-filter/src/lib.rs:296, crates/netdump-filter/src/lib.rs:304).
- Filtering in the kernel and in user space is treated as interchangeable (crates/netdump-cli/src/main.rs:323-324). Given a
  kernel that rejects on out-of-range loads, it is so exactly from packets of 78 bytes on (`Strict.InterchangeableExactly`).
- The comment in crates/netdump-afpacket/src/lib.rs:187 says that frames must divide the block. The code does not see to
  it; `Geometry.FramesFillBlocks` says when they do, `Geometry.FramesCanMissBlocks` gives sizes for which they do not.

## Left out

- Machine words of the host: `usize` is an unbounded number, as on a 64-bit machine whose additions do not wrap. `Geometry.InWords` states the bound for the ring; `pc` and load offsets cannot reach it.
- Characters: matching of keywords, numbers, addresses and MAC addresses by characters, white space, case folding and word boundaries. Tokens are separated by white space, and IPv4 and IPv6 addresses are valid.
- Length shortcuts: `greater` and `less` are recognised by a following space, so that with a tab behind them the original reports an error; the model has no characters and so not this case.
- Duplicated emitters: the absolute and indexed forms of the port comparisons (crates/netdump-filter/src/compiler.rs:317-461) are one method each that takes the load instructions as arguments; other sequences that the emitters repeat, such as a load and a test, a jump over a fresh label, or the guard for TCP and UDP, are shared helpers.
- Reads of ring memory are of a consistent block; word tearing and memory ordering of the volatile accesses are not modelled. The kernel is an environment that fills and retires blocks in ring order.
- Capture.AfPacketSocket.WaitForBlock: waiting for ever is a finite list of turns, with `Waiting` when it is used up, because methods here end.
- Capture.AfPacketSocket.NextPacket: likewise, and what the kernel does between the consumer's steps is a finite list.
- Offsets of frames are assumed not to wrap in 32 bits inside one block; the chain of frames of a retired block says so.
- Sockets, `mmap`, `ioctl`, interface lists, statistics and the attachment of filters are foreign calls.
- Decoding packets for display in `netdump-core` relies on a crate whose code is not part of this model.
- Command line, capture file format and its read errors, dumps, names and timestamps are input, output and display; the live capture loop with its direction filter is not modelled either.
- Equivalence with libpcap, which differs for fragments and for `greater` and `less`.
- Machine instructions that the compiler never emits are executed and decoded but have no properties of their own.
