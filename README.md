# A verified model of the synacor-challenge VM, debugger and analyzer

This project models, in Dafny, the core of timkurvers/synacor-challenge: a
virtual machine for the Synacor Challenge architecture, a remote debugger that
speaks the GDB remote serial protocol, a disassembler, and the analyzer that
reads the game's item and location tables out of a program image.

- **Instruction set** (`operation.dfy`, `bits.dfy`): the 22 operation
  definitions (`halt` to `noop`), the `Operation` wrapper that fills in missing
  operands and exec, the lookup by opcode, and the bit operations the `and`,
  `or` and `not` instructions use.
- **Machine semantics** (`semantics.dfy`): a `Machine` value (eight registers,
  memory words, stack, input and output buffers, address, halted flag) and one
  function per step of the fetch-decode-execute loop. Operand resolution
  follows the VM's `resolve`: literals, the register range 32768..32775, and
  invalid words. Lemmas state what each instruction does.
- **The VM** (`vm.dfy`): the `VM` class with its fields, loading a byte
  image as little-endian words, `read`, `resolve`, `prompt`, `end` and the run
  loop. Every method is proved against the functions of the semantics module.
- **Formatting** (`hex.dfy`, `utils.dfy`): hexadecimal and decimal rendering,
  padding, upper-casing, and `hexoffset`, together with their inverses.
- **GDB protocol** (`gdb_utils.dfy`, `gdb_client.dfy`, `gdb_server.dfy`,
  `packet_match.dfy`, `packets.dfy`):
  - the escaping and checksums of the protocol;
  - the client's framing and acknowledgments;
  - how the server splits, validates and dispatches packets;
  - the anchored patterns of every handler, tried in source order;
  - the reply each handler sends.
- **Debugger** (`debugger.dfy`): breakpoints, interrupts, the signal window
  that defers a step, loading with its process map.
- **Disassembler** (`disassembler.dfy`):
  - how each operand kind is rendered;
  - the line for each instruction;
  - the whole listing, whose instruction starts chain through memory.
- **Analyzer** (`reader.dfy`, `exits.dfy`, `tables.dfy`, `items.dfy`,
  `locations.dfy`): the byte reader and its length-prefixed strings, and the
  exit, item and location tables. Also covered: a location's group, whether it
  is the start location, and a vault's label.

Integers are unbounded. Where the source relies on the width of a type this is
written out: the Uint16Array memory truncates, and arithmetic is modulo 32768.
A JavaScript operation that would throw becomes an `Option` or a fault outcome.
A value that would be `NaN` or `undefined` becomes the same: reading past
memory, an invalid operand, a missing program.

## Model

| member | source | states |
|---|---|---|
| Operations.Operation.Size | src/VM/operations/Operation.mjs:11-13 | an operation is at least its opcode word long |
| Operations.MakeOperation | src/VM/operations/Operation.mjs:4-9 | opcode and name are copied; a definition without operands gets the empty list and size 1, otherwise size 1 + the operand count; a definition without exec gets the no-op |
| Operations.Table | src/VM/operations/index.mjs:10-258 | the table holds one operation per definition, built by the constructor, in source order |
| Operations.Find | src/VM/index.mjs:86 | a search by opcode finds an operation of the table with that opcode, or reports that no entry has it |
| Operations.Lookup | src/VM/index.mjs:86-90 | an operation exists exactly for opcodes 0 to 21, and it carries the opcode asked for |
| Operations.LookupTable | src/VM/index.mjs:86 | looking up by position agrees with searching the table by opcode |
| Operations.TableArity | src/VM/operations/index.mjs:10-258 | every operation has as many operands as its effect reads, its size is one more, and only `noop` (21) has no exec |
| Operations.DefinitionArity | src/VM/operations/Operation.mjs:4-13 | a well-formed definition yields an operation whose operand count matches its effect |
| Operations.DefinitionsWellFormed | src/VM/operations/index.mjs:10-258 | every definition is well formed and sits at the position of its opcode |
| Operations.RegisterMask | src/VM/operations/Operand.mjs:4-10 | the `REGISTER` bit test that `resolve` does holds for register operands and for no other kind |
| Bits.And | src/VM/operations/index.mjs:150-157 | bitwise and is at most either operand |
| Bits.Or | src/VM/operations/index.mjs:161-168 | bitwise or is at least either operand and at most their sum |
| Bits.LowNot | src/VM/operations/index.mjs:172-179 | the masked complement stays below 2^width |
| Bits.OrBound | src/VM/operations/index.mjs:161-168 | or of two 15-bit values is a 15-bit value, so `or` needs no modulo |
| Bits.LowNotIsComplement | src/VM/operations/index.mjs:172-179 | `~b & mask` equals mask minus the low bits of b |
| Bits.LowNotInvolutive | src/VM/operations/index.mjs:172-179 | complementing twice gives back a value of the width |
| Semantics.WriteRegister | src/VM/operations/index.mjs:26-28 | a register index below 8 replaces that register and nothing else; a larger index is a fault that changes nothing |
| Semantics.Execute | src/VM/operations/index.mjs:10-258 | every exec keeps the machine well formed and its memory size, never clears the halted flag, and a failing exec leaves the machine unchanged |
| Semantics.Control | src/VM/operations/index.mjs:10-258 | as the source is written (`halt` :10-18, the jumps :78-113, `call` and `ret` :202-227, `noop` :253-258): these leave registers, memory, input and output alone, and `call` pushes the exec-time address plus two |
| Semantics.Transfer | src/VM/operations/index.mjs:181-251 | `push`, `pop`, `rmem`, `wmem`, `out` and `in` keep the address and the halted flag, and a failure changes nothing |
| Semantics.Complement | src/VM/operations/index.mjs:170-179 | `not` gives 32767 minus b modulo 32768 |
| Semantics.ComplementIsBitwise | src/VM/operations/index.mjs:177 | that value is the 15-bit bitwise complement |
| Semantics.RawAt | src/VM/index.mjs:60-64 | the word at an index inside memory, and nothing past the end |
| Semantics.Resolve | src/VM/index.mjs:66-78 | a register operand is read modulo 32768; a literal stands for itself; 32768 to 32775 name registers 0 to 7; anything larger, or a read past the end, does not resolve |
| Semantics.ResolveAll | src/VM/index.mjs:92 | operand i is resolved from the word at start + i |
| Semantics.RunCycle | src/VM/index.mjs:83-94 | one pass of the loop keeps the machine well formed; an unknown opcode only moves past the opcode word |
| Semantics.Decode | src/VM/index.mjs:85-92 | decoding moves the address past the whole instruction and is ready exactly when every operand resolves |
| Semantics.Perform | src/VM/index.mjs:92-93 | a known opcode always executes and keeps the machine well formed |
| Semantics.Complete | src/VM/index.mjs:93 | the result of exec; an outcome other than success leaves the decoded machine |
| Semantics.CycleDecodes | src/VM/index.mjs:85-93 | a pass on a known opcode is the decode-and-exec of its operation |
| Semantics.DecodeReady | src/VM/index.mjs:92 | resolved operands are passed to exec as the values they resolved to |
| Semantics.DecodeWidth | src/VM/index.mjs:92 | an operand that does not resolve still leaves the address past all operands |
| Semantics.RunFrom | src/VM/index.mjs:80-95 | the run stops at the end of memory with the address past it, or halted, or on a wait, fault or unknown opcode; a halted machine does not move |
| Semantics.RunFromContinues | src/VM/index.mjs:83-94 | a pass that succeeds is followed by the run of the next machine |
| Semantics.RunFromUnknown | src/VM/index.mjs:87-90 | an unknown opcode ends the run |
| Semantics.RunFromWaits | src/VM/operations/index.mjs:244-251 | `in` with no buffered input ends the run waiting for input |
| Semantics.RunFromFaults | src/VM/index.mjs:92-93 | a fault ends the run with that fault |
| Semantics.RegisterOpsWriteOnlyTarget | src/VM/operations/index.mjs:20-201 | `set`, the comparisons, the arithmetic (`mod` with a non-zero divisor), the bit operations and `rmem` inside memory change only the register they name |
| Semantics.ArithmeticIsModular | src/VM/operations/index.mjs:115-135 | `add` and `mult` store the result modulo 32768 |
| Semantics.ComparisonsAreBoolean | src/VM/operations/index.mjs:56-76 | `eq` and `gt` store 1 exactly when the comparison holds, else 0 |
| Semantics.NotIsComplement | src/VM/operations/index.mjs:170-179 | `not` of a literal is 32767 minus it, and `not` twice gives it back |
| Semantics.ModRemainder | src/VM/operations/index.mjs:137-146 | `mod` stores the remainder, below the divisor; a zero divisor is a fault that changes nothing |
| Semantics.PopEmptyFails | src/VM/operations/index.mjs:42-54 | `pop` on an empty stack is a fault that changes nothing |
| Semantics.PushThenPop | src/VM/operations/index.mjs:31-54 | `push v` then `pop r` leaves the stack as before with v in register r |
| Semantics.ConditionalJumps | src/VM/operations/index.mjs:89-113 | `jt` jumps exactly when its condition is non-zero and `jf` exactly when it is zero, changing nothing else |
| Semantics.CallThenRet | src/VM/operations/index.mjs:202-227 | as written: `call` jumps and pushes the exec-time address plus two, and the next `ret` returns there with the stack as before |
| Semantics.CallPushesPastNextInstruction | src/VM/operations/index.mjs:202-213 | as written: a completed `call` cycle pushes the call's start plus four, two words past the next instruction, and `ret` goes there |
| Semantics.CallAsWritten | src/VM/operations/index.mjs:209-210 | the source's `call`: jumps and pushes the exec-time address plus two |
| Semantics.CallAsWrittenSkipsTwoWords | src/VM/operations/index.mjs:209 | as written: `call 6` at address 0 with `ret` at 6 runs `ret` and resumes at 4, not at 2 |
| Semantics.CallIntendedReturnsAfterCall | src/VM/operations/index.mjs:202-213 | corrected: a `call` that pushes the decoded address makes the next `ret` resume at the instruction after the call, start plus two |
| Semantics.RetEmptyHalts | src/VM/operations/index.mjs:215-227 | `ret` on an empty stack halts and changes nothing else |
| Semantics.WriteThenRead | src/VM/operations/index.mjs:181-201 | `wmem` changes only the word written, stored as the typed array truncates it, and `rmem` reads it back |
| Semantics.NoExecChangesNothing | src/VM/operations/index.mjs:253-258 | an operation without exec (`noop`) changes nothing |
| VirtualMachine.WordSplits | src/VM/index.mjs:42 | a little-endian word splits back into its low and high byte |
| VirtualMachine.Image | src/VM/index.mjs:37-44 | memory has half as many words as the image has bytes, word i made of bytes 2i and 2i+1 |
| VirtualMachine.WordBytes | src/VM/index.mjs:37-44 | laying words back out gives two bytes per word |
| VirtualMachine.ImageRoundTrip | src/VM/index.mjs:37-44 | an image of even length is exactly the bytes of the memory it loads |
| VirtualMachine.ReadWords | src/VM/index.mjs:39-43 | the loading loop fills a fresh array with the image's words |
| VirtualMachine.VM.constructor | src/VM/index.mjs:18-27 | no program, empty memory, address 0, eight zero registers, empty stack and input |
| VirtualMachine.VM.End | src/VM/index.mjs:33-35 | the address moves to the end of memory, so the loop is at its end, and nothing else changes |
| VirtualMachine.VM.Load | src/VM/index.mjs:37-44 | memory becomes the image of the data; the load completes exactly when the data has even length; registers, stack and address are kept |
| VirtualMachine.VM.Prompt | src/VM/index.mjs:46-51 | buffered input gives its first code and drops it; with none buffered the call waits |
| VirtualMachine.VM.Read | src/VM/index.mjs:60-64 | the word at the address, which moves on by one |
| VirtualMachine.VM.ResolveOperand | src/VM/index.mjs:66-78 | the operand as `Resolve` gives it, the address one further |
| VirtualMachine.VM.ResolveOperands | src/VM/index.mjs:92 | all operands in order, the address past them |
| VirtualMachine.VM.Exec | src/VM/index.mjs:93 | the new state and outcome are those of `Execute` |
| VirtualMachine.VM.Compute | src/VM/operations/index.mjs:20-179 | the register operations update the state as `Execute` does |
| VirtualMachine.VM.Control | src/VM/operations/index.mjs:10-258 | as the source is written (`halt` :10-18, the jumps :78-113, `call` and `ret` :202-227, `noop` :253-258): the state is updated as `Control` says |
| VirtualMachine.VM.Transfer | src/VM/operations/index.mjs:181-251 | the transfer operations update the state as `Transfer` does |
| VirtualMachine.VM.StackTransfer | src/VM/operations/index.mjs:31-54 | `push` and `pop` as `Transfer` gives them |
| VirtualMachine.VM.MemoryTransfer | src/VM/operations/index.mjs:181-201 | `rmem` and `wmem` as `Transfer` gives them |
| VirtualMachine.VM.BufferTransfer | src/VM/operations/index.mjs:229-251 | `out` and `in` as `Transfer` gives them |
| VirtualMachine.VM.WriteReg | src/VM/operations/index.mjs:26-28 | the register write as `WriteRegister` gives it, nothing else changed |
| VirtualMachine.VM.Step | src/VM/index.mjs:83-94 | one pass of the loop takes the state to that of `RunCycle` |
| VirtualMachine.VM.Perform | src/VM/index.mjs:92-93 | decode and exec as `Perform` gives them |
| VirtualMachine.VM.DecodeOperands | src/VM/index.mjs:92 | the resolved operands, or none when one does not resolve, as `Decode` gives them |
| VirtualMachine.VM.Run | src/VM/index.mjs:80-95 | `run(program)` loads the program and ends in the state and stop that `RunFrom` gives for the loaded machine |
| VirtualMachine.VM.Resume | src/VM/index.mjs:82-94 | the loop from the current state ends as `RunFrom` says |
| Utils.HexOffset | src/utils.mjs:15-18 | "0x" followed by the byte offset, padded to twice the byte width |
| Utils.HexOffsetValue | src/utils.mjs:15-18 | the digits are upper-case hexadecimal and read back as twice the word address |
| Utils.HexOffsetDefaultWidth | src/utils.mjs:15 | by default there are at least four digits |
| Utils.HexOffsetOfZero | src/utils.mjs:15-18 | address 0 renders as "0x0000" |
| HexFormat.ToHex | src/utils.mjs:17 | `toString(16)` gives lower-case digits, one digit exactly below 16 |
| HexFormat.ParseToHex | src/utils.mjs:17 | those digits read back as the number |
| HexFormat.Decimal | src/Disassembler/index.mjs:38 | a number renders as decimal digits |
| HexFormat.ParseToDecimal | src/Disassembler/index.mjs:38 | decimal digits read back as the number |
| HexFormat.UpperCase | src/utils.mjs:17 | `toUpperCase` keeps the length |
| HexFormat.UpperCaseAt | src/utils.mjs:17 | `toUpperCase` changes each character on its own |
| HexFormat.ParseUpperCase | src/utils.mjs:17 | upper-casing hexadecimal digits keeps their value |
| HexFormat.PadStart | src/utils.mjs:17 | `padStart` gives the longer of the width and the string |
| HexFormat.PadStartShape | src/utils.mjs:17 | the padded string ends with the original, preceded by the fill |
| HexFormat.PadHex | src/utils.mjs:17 | padding digits with zeros keeps their value |
| HexFormat.Fixed | src/Debugger/gdb/GDBServer.mjs:18 | fixed-width lower-case hexadecimal |
| HexFormat.Hex8 | src/Debugger/gdb/GDBServer.mjs:18 | two lower-case digits |
| HexFormat.Hex16 | src/Debugger/gdb/packets.mjs:56 | four lower-case digits |
| HexFormat.Hex32 | src/Debugger/index.mjs:69 | eight lower-case digits |
| HexFormat.ParseFixed | src/Debugger/gdb/GDBServer.mjs:18 | fixed-width digits read back as the value modulo 16^width |
| HexFormat.FixedInjective | src/Debugger/gdb/GDBServer.mjs:18 | different values in range give different digits |
| GdbUtils.Flip | src/Debugger/gdb/utils.mjs:14 | xor with 0x20 keeps a character ASCII |
| GdbUtils.FlipInvolutive | src/Debugger/gdb/utils.mjs:14 | flipping twice gives the character back |
| GdbUtils.EscapeChar | src/Debugger/gdb/utils.mjs:11-18 | `#`, `$`, `}` and `*` become `}` and the flipped character; all else is kept |
| GdbUtils.Encode | src/Debugger/gdb/utils.mjs:8-20 | the escaped text is one character longer per special character |
| GdbUtils.Unescape | src/Debugger/gdb/utils.mjs:8-20 | the reading side of the escape, never longer than its input |
| GdbUtils.EncodeHasNoFrameChars | src/Debugger/gdb/utils.mjs:8-20 | escaped text holds no `#`, `$` or `*` |
| GdbUtils.UnescapeEncode | src/Debugger/gdb/utils.mjs:8-20 | unescaping escaped text gives it back |
| GdbUtils.CodeUnits | src/Debugger/gdb/utils.mjs:23 | `charCodeAt` gives the code of a BMP character |
| GdbUtils.CodeSum | src/Debugger/gdb/utils.mjs:23 | the sum of nothing is 0 |
| GdbUtils.Hash | src/Debugger/gdb/utils.mjs:22-25 | the checksum is two lower-case hexadecimal digits |
| GdbUtils.HashValue | src/Debugger/gdb/utils.mjs:22-25 | the checksum reads back as the sum of the codes modulo 256 |
| GdbUtils.HashOfOk | src/Debugger/gdb/GDBClient.mjs:18-21 | the checksum of "OK" is "9a" |
| GdbUtils.HashOfEmpty | src/Debugger/gdb/utils.mjs:22-25 | the checksum of the empty payload is "00" |
| GdbUtils.ValidateMeansChecksum | src/Debugger/gdb/utils.mjs:26 | a checksum is valid exactly when it is two lower-case digits whose value is the code sum modulo 256 |
| GdbUtils.UpperCaseChecksumRefused | src/Debugger/gdb/utils.mjs:26 | the comparison is by string, so "9A" is refused for "OK" |
| GdbClient.Frame | src/Debugger/gdb/GDBClient.mjs:23-28 | a packet is `$`, the payload, `#` and its checksum |
| GdbClient.FrameOfOk | src/Debugger/gdb/GDBClient.mjs:18-21 | the reply "OK" is sent as "$OK#9a" |
| GdbClient.FrameOfNothing | src/Debugger/gdb/GDBClient.mjs:23-28 | the empty reply is sent as "$#00" |
| GdbClient.Client.constructor | src/Debugger/gdb/GDBClient.mjs:4-10 | a client starts with acknowledgments on and nothing sent |
| GdbClient.Client.Send | src/Debugger/gdb/GDBClient.mjs:30-37 | the packet is written, the acknowledgment mode kept |
| GdbClient.Client.Ack | src/Debugger/gdb/GDBClient.mjs:12-16 | `+` is written only while acknowledgments are on |
| GdbClient.Client.Reply | src/Debugger/gdb/GDBClient.mjs:23-28 | the framed payload is written |
| GdbClient.Client.Ok | src/Debugger/gdb/GDBClient.mjs:18-21 | "$OK#9a" is written |
| GdbServer.Split | src/Debugger/gdb/GDBServer.mjs:39 | splitting on `$` and `#` gives at least one part |
| GdbServer.SplitWhole | src/Debugger/gdb/GDBServer.mjs:39 | text without separators is one part |
| GdbServer.SplitAt | src/Debugger/gdb/GDBServer.mjs:39 | a separator ends a part |
| GdbServer.SplitPacket | src/Debugger/gdb/GDBServer.mjs:39 | "$data#checksum" splits into "", the data and the checksum |
| GdbServer.SplitFrame | src/Debugger/gdb/GDBServer.mjs:39 | a framed packet splits into "", its payload and its checksum |
| GdbServer.Payload | src/Debugger/gdb/GDBServer.mjs:39-47 | a payload is accepted only when non-empty and its checksum is valid |
| GdbServer.PayloadOfFrame | src/Debugger/gdb/GDBServer.mjs:39-47 | a framed non-empty payload is accepted as itself |
| GdbServer.PayloadOfEncoded | src/Debugger/gdb/GDBServer.mjs:39-47 | so is any escaped non-empty text |
| GdbServer.WrongChecksumDropped | src/Debugger/gdb/GDBServer.mjs:44-47 | a packet with the wrong checksum is dropped |
| GdbServer.Dispatch | src/Debugger/gdb/GDBServer.mjs:51-59 | the loop over the handlers takes the first one whose pattern matches |
| GdbServer.Server.constructor | src/Debugger/gdb/GDBServer.mjs:13-15 | a server over the debugger with no clients |
| GdbServer.Server.Connect | src/Debugger/gdb/GDBServer.mjs:25-27 | a fresh client with acknowledgments on joins the clients |
| GdbServer.Server.Disconnect | src/Debugger/gdb/GDBServer.mjs:66-69 | the client leaves the clients |
| GdbServer.Server.Broadcast | src/Debugger/gdb/GDBServer.mjs:83-87 | every client gets the framed message |
| GdbServer.Server.OnBreak | src/Debugger/gdb/GDBServer.mjs:17-19 | on a break every client gets "T05" |
| GdbServer.Server.OnHalt | src/Debugger/gdb/GDBServer.mjs:21-23 | on a halt every client gets "X0f" |
| GdbServer.QueriesKeepDebugger | src/Debugger/gdb/packets.mjs:26-229 | a request that only replies leaves the debugger as it was; `QStartNoAckMode` turns acknowledgments off and changes nothing else |
| GdbServer.ControlKeepsSettings | src/Debugger/gdb/packets.mjs:17-368 | the requests that change the debugger keep acknowledgments, the program and the signal window, and only `k` and the steps change memory |
| GdbServer.ControlOutcomes | src/Debugger/gdb/packets.mjs:17-368 | those requests send at most one packet, and fault exactly when `k` finds no program, then sending and changing nothing |
| GdbServer.ReadOutcomes | src/Debugger/gdb/packets.mjs:26-353 | a request answered from the state sends at most one packet; only the `vFile` reads of host files are not modelled, and a fault happens exactly for a thread-1 exec-file read without a program, sending and changing nothing |
| GdbServer.ConstantEffect | src/Debugger/gdb/packets.mjs:138-176 | a request with a fixed reply sends it and changes nothing |
| GdbServer.BreakpointToggles | src/Debugger/gdb/packets.mjs:356-368 | `Z` adds and `z` removes the breakpoint, both answer OK, and repeating the request changes nothing more |
| GdbServer.StepEffectRuns | src/Debugger/gdb/packets.mjs:249-257 | `s` runs one pass of the VM loop and changes nothing else; no trap reply is sent exactly when the new address is a breakpoint |
| GdbServer.Server.Process | src/Debugger/gdb/GDBServer.mjs:54-56 | the matched request's handler changes the debugger and the client's settings to `Effect`'s next session and sends exactly `Effect`'s replies |
| GdbServer.Server.ProcessControl | src/Debugger/gdb/GDBServer.mjs:54-56 | the requests that change the debugger do what `ControlEffect` says |
| GdbServer.Server.ProcessKill | src/Debugger/gdb/packets.mjs:74-79 | `k` reloads memory from the program and rewrites the process map, sending nothing; with no program it faults and changes nothing |
| GdbServer.Server.ProcessStep | src/Debugger/gdb/packets.mjs:249-275 | `s` and `vCont` do what `ControlEffect` says |
| GdbServer.Server.ProcessSingleStep | src/Debugger/gdb/packets.mjs:249-257 | `s` takes the VM one pass on and sends "T05" unless the new address is a breakpoint |
| GdbServer.Server.ProcessContinueWith | src/Debugger/gdb/packets.mjs:260-275 | `vCont;c` requests a run and `vCont;s` steps while not running; otherwise the empty reply and no change |
| GdbServer.Server.ProcessFlags | src/Debugger/gdb/GDBServer.mjs:54-56 | the interrupt clears running and answers "T05", `c` requests a run, `Z` and `z` toggle the breakpoint and answer OK |
| GdbServer.Server.ProcessQuery | src/Debugger/gdb/GDBServer.mjs:54-56 | fixed replies first, then the replies computed from the state, as `QueryEffect` says |
| GdbServer.Server.ProcessRead | src/Debugger/gdb/GDBServer.mjs:54-56 | the replies computed from the state, as `ReadEffect` says; the `vFile` reads are not modelled |
| GdbServer.Server.ProcessState | src/Debugger/gdb/packets.mjs:26-126 | `?`, `g`, `m` and `p` send their reply and change nothing |
| GdbServer.Server.ProcessStatus | src/Debugger/gdb/packets.mjs:26-36 | `?` sends the status reply for the halted flag and whether the address is a breakpoint |
| GdbServer.Server.ProcessRegisters | src/Debugger/gdb/packets.mjs:47-62 | `g` sends the ten register slots of the VM's state |
| GdbServer.Server.ProcessMemory | src/Debugger/gdb/packets.mjs:82-100 | `m` sends the memory reply when there is one, and nothing otherwise |
| GdbServer.Server.ProcessRegister | src/Debugger/gdb/packets.mjs:103-126 | `p` sends the one slot asked for |
| GdbServer.Server.ProcessTransfer | src/Debugger/gdb/packets.mjs:188-229 | the two `qXfer` reads do what `ReadEffect` says |
| GdbServer.Server.ProcessExecFile | src/Debugger/gdb/packets.mjs:188-206 | as written: "E00" for another thread, a fault without a program, else the reply made of the source's slice of the path |
| GdbServer.Server.ProcessFeatures | src/Debugger/gdb/packets.mjs:209-229 | as written: the reply made of the source's slice of the stripped description |
| GdbServer.Server.Receive | src/Debugger/gdb/GDBServer.mjs:29-60 | an interrupt byte is acknowledged and then handled as `Effect` says for the interrupt; a packet without a valid payload changes and sends nothing; an accepted one is acknowledged first, then its first matching request is handled as `Effect` says, and a packet no handler matches gets only the acknowledgment |
| GdbServer.Server.AckAndInterrupt | src/Debugger/gdb/GDBServer.mjs:30-34 | the acknowledgment if acknowledgments are on, then the interrupt's effect and "T05" |
| GdbServer.Server.AckAndProcess | src/Debugger/gdb/GDBServer.mjs:49-59 | the acknowledgment if acknowledgments are on, then the matched request's `Effect` |
| PacketMatch.HexRun | src/Debugger/gdb/packets.mjs:83 | `[a-f\d]+` takes the longest run of hexadecimal digits |
| PacketMatch.DigitRun | src/Debugger/gdb/packets.mjs:279 | `\d+` takes the longest run of decimal digits |
| PacketMatch.HexAt | src/Debugger/gdb/packets.mjs:104 | a hexadecimal field is non-empty and inside the packet |
| PacketMatch.LazyAnnex | src/Debugger/gdb/packets.mjs:189 | the lazy annex `(.*?)` stays on one line and is at least as long as asked |
| PacketMatch.XferRead | src/Debugger/gdb/packets.mjs:189-210 | an annex, offset and length after the prefix; the features annex is non-empty |
| PacketMatch.FirstMatchIsFirst | src/Debugger/gdb/GDBServer.mjs:51-59 | the request taken is that of a matching handler with no matching handler before it, and none is taken exactly when no handler matches |
| PacketMatch.MatchLead | src/Debugger/gdb/packets.mjs:17-353 | every pattern is anchored, so a match starts with one of its handler's lead characters |
| PacketMatch.FirstMatchSkip | src/Debugger/gdb/GDBServer.mjs:51-59 | handlers that do not match can be skipped |
| PacketMatch.FirstMatchAt | src/Debugger/gdb/GDBServer.mjs:51-59 | the first matching handler decides |
| PacketMatch.LazyAnnexSkip | src/Debugger/gdb/packets.mjs:189 | the lazy annex grows past every character that cannot end it |
| PacketMatch.ContinueQueryIsOtherV | src/Debugger/gdb/packets.mjs:260-353 | "vCont?" falls through to the catch-all `v` handler and gets the empty reply |
| PacketMatch.LowerZRemoves | src/Debugger/gdb/packets.mjs:356-368 | "z0,4,1" removes the breakpoint at 4 |
| PacketMatch.TracepointStatus | src/Debugger/gdb/packets.mjs:180-185 | "qTStatus" is a tracepoint query |
| PacketMatch.UpperMReads | src/Debugger/gdb/packets.mjs:82-83 | the `i` flag makes "M0,1:ff" a memory read |
| PacketMatch.ContinueIsExact | src/Debugger/gdb/packets.mjs:241-242 | "cafe" matches no handler, as `c` must be the whole packet |
| PacketMatch.FeaturesRequest | src/Debugger/gdb/packets.mjs:209-210 | "qXfer:features:read:target.xml:0,ffb" reads the features from 0 with length 0xffb |
| Packets.TrapStop | src/Debugger/gdb/packets.mjs:17-23 | the trap stop reply is "T05" |
| Packets.ExitStop | src/Debugger/gdb/GDBServer.mjs:21-23 | the halt reply is "X0f" |
| Packets.ThreadStop | src/Debugger/gdb/packets.mjs:26-36 | the stop reply names thread 01 |
| Packets.StatusReply | src/Debugger/gdb/packets.mjs:26-36 | `?` answers "W0f" when halted, else the thread stop reply, with "swbreak:;" when on a breakpoint |
| Packets.WordHex | src/Debugger/gdb/packets.mjs:54-59 | a register renders as four lower-case digits |
| Packets.WordHexIsLowByteFirst | src/Debugger/gdb/packets.mjs:54-59 | in little-endian order: the low byte first |
| Packets.Hexes | src/Debugger/gdb/packets.mjs:47-62 | four digits per value |
| Packets.HexesAt | src/Debugger/gdb/packets.mjs:47-62 | value i is at digits 4i to 4i+4 |
| Packets.RegisterSlots | src/Debugger/gdb/packets.mjs:50-53 | the eight registers, then the program counter as a byte offset and a stack pointer of four times the memory length |
| Packets.RegistersReplyLayout | src/Debugger/gdb/packets.mjs:47-62 | the `g` reply is 40 digits, slot i at digits 4i to 4i+4 |
| Packets.RegisterReplyMatchesAll | src/Debugger/gdb/packets.mjs:103-126 | `p n` answers slot n of the `g` reply, and "E2" past the ten slots |
| Packets.MemoryReply | src/Debugger/gdb/packets.mjs:82-100 | an offset past memory answers nothing; an even offset or an empty range answers |
| Packets.HexesAreBytes | src/Debugger/gdb/packets.mjs:88-97 | word digits are the digits of the word's bytes |
| Packets.MemoryReplyIsBytes | src/Debugger/gdb/packets.mjs:82-100 | the `m` reply is the hexadecimal bytes from the offset to the end of the range, clipped to memory and rounded up to whole words |
| Packets.MemoryReplyIsImage | src/Debugger/gdb/packets.mjs:82-100 | for a loaded program those bytes are the program's own bytes |
| Packets.Toggle | src/Debugger/gdb/packets.mjs:356-368 | `Z` adds and `z` removes the address, and no other breakpoint changes |
| Packets.ToggleIdempotent | src/Debugger/gdb/packets.mjs:356-368 | repeating the request changes nothing more |
| Packets.JsSlice | src/Debugger/gdb/packets.mjs:196 | `slice(start, end)` takes the characters from start up to end, clipped to the string |
| Packets.Window | src/Debugger/gdb/packets.mjs:188-206 | the window of at most `length` characters from the offset that the protocol asks for |
| Packets.TransferComplete | src/Debugger/gdb/packets.mjs:188-206 | reading window after window from an offset yields the whole rest of the string |
| Packets.TrimStart | src/Debugger/gdb/packets.mjs:195 | leading white space is skipped before `parseInt` |
| Packets.AnnexSignedThread | src/Debugger/gdb/packets.mjs:195 | " +01" names thread 1 |
| Packets.AnnexTrailingText | src/Debugger/gdb/packets.mjs:195 | "1x2" names thread 1, as `parseInt` stops at the first non-digit |
| Packets.AnnexNegative | src/Debugger/gdb/packets.mjs:195 | "-1" is not thread 1 |
| Packets.AnnexNotNumber | src/Debugger/gdb/packets.mjs:195 | "x1" is not a number |
| Packets.TrimStartSkipsSpace | src/Debugger/gdb/packets.mjs:195 | `parseInt` reads past any leading white space, whatever follows |
| Packets.AnnexLeadingSpace | src/Debugger/gdb/packets.mjs:195 | white space before a non-empty annex does not change whether it names thread 1; an annex of white space alone names no thread, unlike the empty one |
| Packets.DigitRunOver | src/Debugger/gdb/packets.mjs:195 | the digits `parseInt` reads from a run of digits followed by a non-digit are exactly that run |
| Packets.AnnexDigitsThenText | src/Debugger/gdb/packets.mjs:195 | any run of digits worth 1, with anything but a digit after it, names thread 1 |
| Packets.Strip | src/Debugger/gdb/packets.mjs:218 | the stripped description holds no line break |
| Packets.StripKeepsClean | src/Debugger/gdb/packets.mjs:218 | a description without line breaks and double spaces is kept |
| Packets.ExecFileReply | src/Debugger/gdb/packets.mjs:188-206 | corrected: the exec-file reply, with the window the request asks for |
| Packets.ExecFileReplyCarriesWindow | src/Debugger/gdb/packets.mjs:188-206 | corrected: for thread 1 the reply is `l` and the escaped window of the path; any other annex gets "E00" |
| Packets.ExecFileReplyAsWritten | src/Debugger/gdb/packets.mjs:195-204 | as written: the reply is never empty |
| Packets.ExecFileAsWrittenCarriesSlice | src/Debugger/gdb/packets.mjs:195-204 | as written: for thread 1 the reply is `l` and escaped text that unescapes to the path from the offset up to index `length`, empty when the offset is not below that end; any other annex gets "E00" |
| Packets.ExecFileAsWrittenFromStart | src/Debugger/gdb/packets.mjs:196 | from offset 0 the source's slice is the window, so its reply is the corrected one |
| Packets.ExecFileAsWrittenDropsTail | src/Debugger/gdb/packets.mjs:196 | as written, offset 1 and length 2 of "abc" give "lb" where the window is "bc" |
| Packets.FeaturesReply | src/Debugger/gdb/packets.mjs:209-229 | corrected: the features reply, with the window the request asks for |
| Packets.FeaturesReplyCarriesWindow | src/Debugger/gdb/packets.mjs:209-229 | corrected: for target.xml the reply is `m` and the escaped window while the offset is inside the description, else "l" |
| Packets.FeaturesReplyAsWritten | src/Debugger/gdb/packets.mjs:216-227 | as written: the reply is never empty |
| Packets.FeaturesAsWrittenCarriesSlice | src/Debugger/gdb/packets.mjs:216-227 | as written: for target.xml the reply is `m` and escaped text that unescapes to the stripped description from the offset up to index `length` when that is non-empty, else "l"; any other annex gets "E00" |
| Packets.FeaturesAsWrittenFromStart | src/Debugger/gdb/packets.mjs:219 | from offset 0 the source's slice is the window, so its reply is the corrected one |
| Packets.FeaturesAsWrittenTruncates | src/Debugger/gdb/packets.mjs:219 | as written, offset 2 and length 2 of "abc" give "l" where the window is "c" |
| Packets.ConstantReplies | src/Debugger/gdb/packets.mjs:147-168 | `qC` answers "QC01", `qfThreadInfo` "m01", and `vFile:setfs` "F0" for pid 0 and nothing else |
| Packets.InterruptProcess | src/Debugger/gdb/packets.mjs:17-23 | the debugger stops running and the client gets "T05" |
| Packets.StatusProcess | src/Debugger/gdb/packets.mjs:26-36 | the client gets the status reply for the debugger's state |
| Packets.ReadRegistersProcess | src/Debugger/gdb/packets.mjs:47-62 | the client gets the ten register slots |
| Packets.ReadRegisterProcess | src/Debugger/gdb/packets.mjs:103-126 | the client gets the one register asked for, or "E2" |
| Packets.ReadMemoryProcess | src/Debugger/gdb/packets.mjs:82-100 | the client gets the memory reply when there is one |
| Packets.BreakpointProcess | src/Debugger/gdb/packets.mjs:356-368 | the breakpoints are toggled and the client gets "OK" |
| Packets.StartNoAckModeProcess | src/Debugger/gdb/packets.mjs:129-135 | the client gets "OK", then acknowledgments stop |
| Packets.KillProcess | src/Debugger/gdb/packets.mjs:74-79 | the debugger reloads its program; with no program the request faults and nothing changes |
| Packets.ExecFileReadProcess | src/Debugger/gdb/packets.mjs:188-206 | as written: the client gets the reply made of `slice(offset, length)` of the path; for thread 1 without a program the request faults |
| Packets.FeaturesReadProcess | src/Debugger/gdb/packets.mjs:209-229 | as written: the client gets the reply made of `slice(offset, length)` of the stripped description |
| Packets.ContinueProcess | src/Debugger/gdb/packets.mjs:241-246 | the debugger is asked to run |
| Packets.SingleStepProcess | src/Debugger/gdb/packets.mjs:249-257 | the debugger steps once, and the client gets "T05" unless the step ends on a breakpoint |
| Packets.ContinueWithProcess | src/Debugger/gdb/packets.mjs:260-275 | `vCont;c` runs and `vCont;s` steps while not running; otherwise the client gets the empty reply |
| Packets.ConstantProcess | src/Debugger/gdb/packets.mjs:138-176 | the client gets the handler's fixed reply |
| Debugging.Procmap | src/Debugger/index.mjs:69-70 | the process map line: start address, end, permissions and the program path |
| Debugging.ProcmapEnd | src/Debugger/index.mjs:69 | its end reads back as the program's byte length, as 32 bits |
| Debugging.SignalWindowSpacing | src/Debugger/index.mjs:76-87 | after a deferred step, the next is deferred only once the window has passed again |
| Debugging.Debugger.constructor | src/Debugger/index.mjs:14-37 | a fresh VM with no breakpoints, not running, the signal window starting now |
| Debugging.Debugger.Interrupt | src/Debugger/index.mjs:45-61 | the debugger stops running and nothing else changes |
| Debugging.Debugger.PreStep | src/Debugger/index.mjs:25-30 | on a breakpoint the debugger interrupts and reports the break |
| Debugging.Debugger.Next | src/Debugger/index.mjs:76-87 | the step is deferred exactly when the signal window has passed, which restarts the window |
| Debugging.Debugger.Load | src/Debugger/index.mjs:63-74 | the VM's memory becomes the image and the process map is written for a complete load |
| Debugging.Debugger.Reload | src/Debugger/gdb/packets.mjs:77 | `dbg.load(dbg.program)`: faults exactly when no program is set |
| Debugging.Debugger.Step | src/Debugger/gdb/packets.mjs:252 | one pass of the VM loop, or nothing at the end of memory or once halted |
| Debugging.Debugger.Run | src/Debugger/gdb/packets.mjs:244 | a run request is recorded |
| Disassembly.Render | src/Disassembler/index.mjs:13-39 | an operand always renders as some text |
| Disassembly.RenderRegisterTarget | src/Disassembler/index.mjs:20-29 | a register operand renders as `R` and the word modulo 32768 |
| Disassembly.RenderDynamicRegister | src/Disassembler/index.mjs:16-29 | a dynamic operand above 32767 renders as its register, inside `address(...)` or `char(...)` for those kinds |
| Disassembly.RenderLiteral | src/Disassembler/index.mjs:32-38 | a literal renders as a number, an address offset or a character by its kind |
| Disassembly.RenderLiteralReadsBack | src/Disassembler/index.mjs:32-38 | a number reads back as itself and an address as its byte offset |
| Disassembly.RenderNamesVmRegister | src/Disassembler/index.mjs:16-29 | the register named is the one the VM would read, and a word past 32775 names one the VM cannot resolve |
| Disassembly.RenderPastEnd | src/Disassembler/index.mjs:14-38 | a word past the end renders as "RNaN", "0x0NAN", NUL or "undefined" by kind |
| Disassembly.SpacedStartsWithHead | src/Disassembler/index.mjs:55-59 | a line begins with its head |
| Disassembly.LineLabel | src/Disassembler/index.mjs:55-59 | every line begins with the address offset and a space |
| Disassembly.WidthOf | src/Disassembler/index.mjs:48-54 | an instruction is at least one word wide |
| Disassembly.SpanMatchesTable | src/Disassembler/index.mjs:48-54 | the width table agrees with the operation table |
| Disassembly.WidthOfOpcode | src/Disassembler/index.mjs:48-54 | an unknown opcode is one word wide and a known one 1 + its arity |
| Disassembly.ListingStep | src/Disassembler/index.mjs:44-60 | the listing is this instruction's line followed by the listing after it |
| Disassembly.Starts | src/Disassembler/index.mjs:44-60 | instruction starts lie inside memory |
| Disassembly.ListingAtStarts | src/Disassembler/index.mjs:44-60 | line i of the listing is the line of the i-th instruction start |
| Disassembly.StartsChain | src/Disassembler/index.mjs:44-60 | the starts begin at the address, each follows the previous one by its width, and the last reaches the end |
| Disassembly.StartsCover | src/Disassembler/index.mjs:44-60 | every word of memory lies inside exactly the span of some listed instruction |
| Disassembly.Disassembler.constructor | src/VM/index.mjs:18-27 | a disassembler over a fresh VM with no lines |
| Disassembly.Disassembler.Resolve | src/Disassembler/index.mjs:13-39 | the operand at the address as `Render` gives it, the address one further |
| Disassembly.Disassembler.RenderOperands | src/Disassembler/index.mjs:54-59 | the operands in order after the head, the address past them |
| Disassembly.Disassembler.DisassembleOne | src/Disassembler/index.mjs:45-59 | one instruction: the address moves on and the lines grow by its part of the listing |
| Disassembly.Disassembler.Log | src/Disassembler/index.mjs:48-59 | one line is logged and the address moves past the instruction |
| Disassembly.Disassembler.Dump | src/Disassembler/index.mjs:41-61 | `dump(program)` loads the image and logs its whole listing |
| Disassembly.Disassembler.DumpMemory | src/Disassembler/index.mjs:44-60 | the loop ends at the end of memory having logged the listing from the address |
| Reading.WordAt | src/Analyzer/Reader.mjs:13-15 | a word can be read exactly when both its bytes are inside the buffer |
| Reading.WordAtImage | src/Analyzer/Reader.mjs:13-15 | at an even offset the reader sees the VM's memory word |
| Reading.WordsAt | src/Analyzer/Reader.mjs:22-28 | a string read of `count` words has that many |
| Reading.WordsAtEach | src/Analyzer/Reader.mjs:22-28 | the read succeeds exactly when every word is there, and code i is the word at offset + 2i |
| Reading.WordsAtBounds | src/Analyzer/Reader.mjs:22-28 | it succeeds exactly when the count is 0 or the last word is inside the buffer |
| Reading.WordsAtSplit | src/Analyzer/Reader.mjs:22-28 | reading m + n words is reading m and then n more |
| Reading.PStringAt | src/Analyzer/Reader.mjs:17-20 | a length-prefixed string is as long as its length word |
| Reading.PString | src/Analyzer/Reader.mjs:17-20 | the layout of a length-prefixed string: two bytes per word, plus the length |
| Reading.PStringRoundTrip | src/Analyzer/Reader.mjs:17-20 | a string laid out anywhere in a buffer reads back as itself |
| Reading.Reader.constructor | src/Analyzer/Reader.mjs:2-5 | a reader at position 0 over the buffer |
| Reading.Reader.Read | src/Analyzer/Reader.mjs:7-11 | the word at the position, which moves on by two bytes |
| Reading.Reader.ReadStringNAt | src/Analyzer/Reader.mjs:22-28 | the loop builds the string `WordsAt` describes |
| Reading.Reader.ReadPStringAt | src/Analyzer/Reader.mjs:17-20 | the length-prefixed string at the offset |
| Exits.Labels | src/Analyzer/entities/Exit.mjs:17-21 | the labels are read exactly when each pointer's string is, label i behind pointer i |
| Exits.Joined | src/Analyzer/entities/Exit.mjs:17-30 | one exit per label |
| Exits.ParsedExits | src/Analyzer/entities/Exit.mjs:12-33 | as many exits as the count word, ids 0, 1, ... in order, label i behind pointer i, and target i twice target word i |
| Exits.ParseSucceeds | src/Analyzer/entities/Exit.mjs:12-33 | the parse succeeds exactly when every read does and both tables have the same length |
| Exits.CountMismatch | src/Analyzer/entities/Exit.mjs:24-25 | target and label counts that differ fail the assertion |
| Exits.ParseExits | src/Analyzer/entities/Exit.mjs:12-33 | the reader loops produce the exits `Parse` describes |
| Exits.AttachTargets | src/Analyzer/entities/Exit.mjs:23-30 | the length check and the targets loop |
| Exits.ReadLabels | src/Analyzer/entities/Exit.mjs:19-21 | the labels loop, the position past the pointers |
| Exits.ReadTargets | src/Analyzer/entities/Exit.mjs:28-30 | the targets loop |
| Tables.CountClosed | src/Analyzer/entities/Item.mjs:20 | the loop visits (to - from) / size + 1 records when from <= to, and none otherwise |
| Tables.AtWithin | src/Analyzer/entities/Location.mjs:60 | every visited record starts at or before the end offset |
| Tables.RecordsEach | src/Analyzer/entities/Item.mjs:16-32 | a table is read exactly when every visited record is, record i being the one at from + size*i |
| Items.ParsedItems | src/Analyzer/entities/Item.mjs:16-32 | one item per visited record, in order, item i read at from + 8i and carrying that offset as id |
| Items.ParseSucceeds | src/Analyzer/entities/Item.mjs:16-32 | the parse succeeds exactly when every visited record can be read |
| Items.ItemIdsStep | src/Analyzer/entities/Item.mjs:20-30 | consecutive items lie one record apart |
| Items.ParseItems | src/Analyzer/entities/Item.mjs:16-32 | the loop gives exactly the items `Parse` describes |
| Items.ReadItem | src/Analyzer/entities/Item.mjs:21-29 | one item record, the position past it |
| Locations.NextQuote | src/Analyzer/entities/Location.mjs:46 | the first quote at or after a position |
| Locations.QuotedShape | src/Analyzer/entities/Location.mjs:46 | every match of the quote pattern is a quote, a non-empty quote-free text and a quote |
| Locations.QuotedSkipsPlain | src/Analyzer/entities/Location.mjs:46 | text without quotes adds no match |
| Locations.QuotedSegment | src/Analyzer/entities/Location.mjs:46 | a quoted text is one match, and matching goes on after it |
| Locations.QuotedFirst | src/Analyzer/entities/Location.mjs:46 | the first quoted text after plain text is the first match |
| Locations.QuotedNone | src/Analyzer/entities/Location.mjs:46 | text without quotes has no match |
| Locations.LabelIsName | src/Analyzer/entities/Location.mjs:44-54 | a location that is not a vault, or whose description quotes nothing, is labelled by its name |
| Locations.LabelOneSegment | src/Analyzer/entities/Location.mjs:44-54 | a vault with one quoted text is labelled by its name and that text |
| Locations.LabelTwoSegments | src/Analyzer/entities/Location.mjs:44-54 | a vault with two quoted texts gets the last one, then the one before it as a requirement |
| Locations.LabelExtendsName | src/Analyzer/entities/Location.mjs:44-54 | every label begins with the name |
| Locations.GroupRange | src/Analyzer/entities/Location.mjs:15-38 | the group is one of -1, 1, 2, 3, 5, 6, 7; it is -1 exactly past 0x14CE, and 3 exactly for the two ranges that share it |
| Locations.ParsedLocations | src/Analyzer/entities/Location.mjs:56-72 | one location per visited record, in order, location i read at from + 10i and carrying that offset as id |
| Locations.ParseSucceeds | src/Analyzer/entities/Location.mjs:56-72 | the parse succeeds exactly when every visited record can be read |
| Locations.LocationExits | src/Analyzer/entities/Location.mjs:64 | a location's exits are those of the two tables its record points at |
| Locations.ParsedGroups | src/Analyzer/entities/Location.mjs:15-38 | no location of a table ending by 0x14CE is outside every group |
| Locations.StartComesFirst | src/Analyzer/entities/Location.mjs:40-42 | in a table read from the start location, that location comes first and is in group 5, and no other is the start |
| Locations.ParseLocations | src/Analyzer/entities/Location.mjs:56-72 | the loop gives exactly the locations `Parse` describes |
| Locations.ReadLocation | src/Analyzer/entities/Location.mjs:61-69 | one location record, the position past it |

## Left out

- Sockets, the network server's `listen`, and the error handlers on sockets and the server: the model receives packets as strings and records what each client is sent as a sequence.
- Standard input and output:
  - `write` is not modelled;
  - `out` appends to an output buffer instead;
  - `prompt`'s wait for stdin is reduced to reporting that no input is buffered.
  Colours, logging and `console` output are dropped, because they show values and do not change them.
- The asynchronous side is not modelled: `await`, `setImmediate`, promise cancellation on interrupt, and the debug-command loop `evalPending` in `interrupt`.
  - `Debugging.Debugger.Next` reports whether the step is deferred rather than scheduling it.
  - The current time is taken as a parameter, `now`, instead of being read from the clock.
- The event emitter is represented by explicit calls. `OnBreak`, `OnHalt` and `PreStep` stand for the `break`, `halt` and `pre-step` handlers.
- `hex8`, `hex16`, `hex`, `sum` and the operations lookup table come from files that are not part of this model. They are assumed to behave as follows:
  - `hex8`, `hex16` and `hex(…, { bitSize: 32 })` render the low 8, 16 and 32 bits as 2, 4 and 8 zero-padded lower-case hexadecimal digits;
  - `sum` adds numbers;
  - the lookup maps each opcode to the operation with that opcode.
- The operand flags are assumed too. Operand kinds are modelled as `Value`, `Address`, `Char` and `Register`, and the flags given to each kind are an assumption based on the constants of src/VM/operations/Operand.mjs.
- Not part of this model: the Debugger's `step`, `run` and `halted`, plus `stdin` and `evalPending`.
  - `Debugging.Debugger.Step` is one pass of the VM loop.
  - `Debugging.Debugger.Run` only records that a run was requested, so the run loop with breakpoint checks is not modelled.
- `vFile:open`, `vFile:pread` and `vFile:close` are dispatched, but their handling reads the file system, so processing them is reported as not modelled.
- The `m` reply at an odd byte offset is not modelled. The source indexes memory at a fractional position, which yields `undefined`.
- A register write with an index of 8 or more: JavaScript would grow the register array; the model reports a fault.
- An `rmem` read past memory: JavaScript would store `undefined`; the model reports a fault.
- A `wmem` write past memory is dropped, as the typed array drops it.
- `Semantics.RunFrom`, `VirtualMachine.VM.Run` and `VirtualMachine.VM.Resume` carry a fuel bound on the number of loop passes, so a program that never stops is modelled only up to that bound.
- Resume: the loop is followed for at most `fuel` passes; what it does after those is not stated.
- `Debugging.Debugger.Load` and `VirtualMachine.VM.Load` replace memory only and keep registers, stack and address. An image of odd length fills all its whole words and then stops, where the source's `readUInt16LE` throws.
- The `Disassembler` holds its VM instead of extending it. Both share one `VM`'s fields.
- The `dump` loop logs each line into a sequence of strings. The colours are dropped.
- `Exit` objects are values: the model builds each exit once its label and target are read, rather than filling in fields of objects made earlier.
- After a read past the buffer throws, the reader's position is not modelled.
- Strings of the GDB layer are modelled as sequences of characters. `encode` escapes the UTF-8 bytes of its input, and this agrees with escaping characters because every escaped byte is ASCII.
- Strings read by the analyzer are sequences of UTF-16 code units.
- The analyzer's entry point is not part of this model: src/Analyzer/index.mjs and its Graphviz output.
- The debugger's `dbg.program` is never assigned by any file of this model, so it stays `None`. `k` and the exec-file read therefore fault as the source's `TypeError` would. The reply functions take the path as a parameter so that they can be stated for any program.
- `Program.fqpath`: src/Program.mjs defines no such field, so the source writes "undefined" at the end of the process-map line, and the exec-file read of a loaded program would throw on `undefined.slice`. The model gives every program a path and uses it in both places.

## Findings

| source | as written | input that shows it | evidently intended | confidence | as-written member | corrected member |
|---|---|---|---|---|---|---|
| src/Debugger/gdb/packets.mjs:196 | `fqpath.slice(offset, length)` passes the length as the end index | annex "", offset 1, length 2, path "abc": reply "lb" | the window of `length` characters from `offset`: "lbc" | not executed; high, the protocol defines the pair as offset and length | Packets.ExecFileAsWrittenDropsTail | Packets.ExecFileReplyCarriesWindow |
| src/Debugger/gdb/packets.mjs:219 | `stripped.slice(offset, length)` passes the length as the end index | annex "target.xml", offset 2, length 2, description "abc": reply "l" | "mc", the last character, and no end marker until the offset passes the end | not executed; high, the protocol defines the pair as offset and length | Packets.FeaturesAsWrittenTruncates | Packets.FeaturesReplyCarriesWindow |
| src/VM/operations/index.mjs:209 | `call` pushes `vm.address + 2`, but the address already points past the call when exec runs | `call` at address 0 followed by `ret`: execution resumes at 4 | resume at 2, the instruction after the call, as the source's own comment says | not executed; medium, the intent is stated in the comment above the operation | Semantics.CallAsWrittenSkipsTwoWords | Semantics.CallIntendedReturnsAfterCall |
