/** What one instruction does to the machine (the `exec` functions of
    src/VM/operations/index.mjs) and one pass of the VM's fetch-decode-execute
    loop (src/VM/index.mjs), as functions on a snapshot of the machine. */
module Semantics {

  import opened Wrappers
  import opened Constants
  import opened Operations
  import Bits

  /** The VM's state: registers (a JavaScript array), the stack, the Uint16Array
      memory, the address, the halted flag of `vm.halt()`, the buffered input codes
      and the codes written by `out`. */
  datatype Machine = Machine(
    registers: seq<nat>,
    stack: seq<nat>,
    memory: seq<U16>,
    address: nat,
    halted: bool,
    input: seq<nat>,
    output: seq<nat>)
  {
    ghost predicate Valid() {
      |registers| == RegisterCount
    }
  }

  /** Why an instruction could not complete: a thrown error, or a value the source
      turns into `NaN` or `undefined` and the model refuses to propagate. */
  datatype Fault =
    | EmptyStack
    | DivisionByZero
    | InvalidOperand
    | RegisterOutOfRange(index: nat)
    | MemoryOutOfRange(address: nat)

  datatype Outcome = Done | AwaitInput | Failed(fault: Fault)

  datatype Transition = Transition(next: Machine, outcome: Outcome)

  /** `vm.registers[a] = v` for one of the eight registers. */
  function WriteRegister(m: Machine, a: nat, v: nat): (t: Transition)
    requires m.Valid()
    ensures t.next.Valid()
    ensures a < RegisterCount ==> t == Transition(m.(registers := m.registers[a := v]), Done)
    ensures a >= RegisterCount ==> t == Transition(m, Failed(RegisterOutOfRange(a)))
  {
    if a < RegisterCount then Transition(m.(registers := m.registers[a := v]), Done)
    else Transition(m, Failed(RegisterOutOfRange(a)))
  }

  /** The value a `Uint16Array` stores when assigned `v`. */
  function U16Of(v: nat): U16 {
    v % 0x1_0000
  }

  /** The operations that store a value computed from their arguments in a register. */
  predicate IsCompute(e: Effect) {
    e.Set? || e.Eq? || e.Gt? || e.Add? || e.Mult? || e.Mod? || e.BitAnd? || e.BitOr? || e.BitNot?
  }

  /** The operations that only move the address or halt. */
  predicate IsControl(e: Effect) {
    e.Halt? || e.Jmp? || e.Jt? || e.Jf? || e.Call? || e.Ret? || e.Nothing?
  }

  /** The `exec` of an operation applied to its resolved arguments, with the address
      already past the instruction (what `run` leaves it at before `exec`). Only the
      named part of the machine changes, nothing changes on a fault, and a halted
      machine stays halted. */
  function Execute(e: Effect, args: seq<nat>, m: Machine): (t: Transition)
    requires m.Valid() && |args| >= Arity(e)
    ensures t.next.Valid()
    ensures |t.next.memory| == |m.memory|
    ensures m.halted ==> t.next.halted
    ensures t.outcome != Done ==> t.next == m
  {
    if IsCompute(e) then
      if e == Mod && args[2] == 0 then Transition(m, Failed(DivisionByZero))
      else WriteRegister(m, args[0], Computed(e, args))
    else if IsControl(e) then Transition(Control(e, args, m), Done)
    else Transfer(e, args, m)
  }

  /** The value `set`, `eq`, `gt`, `add`, `mult`, `mod`, `and`, `or` and `not` store:
      sums and products modulo 32768, booleans as 1 and 0. */
  function Computed(e: Effect, args: seq<nat>): nat
    requires IsCompute(e) && |args| >= Arity(e)
    requires e == Mod ==> args[2] != 0
  {
    match e
    case Set => args[1]
    case Eq => if args[1] == args[2] then 1 else 0
    case Gt => if args[1] > args[2] then 1 else 0
    case Add => (args[1] + args[2]) % LiteralModulo
    case Mult => (args[1] * args[2]) % LiteralModulo
    case Mod => args[1] % args[2]
    case BitAnd => Bits.And(args[1], args[2])
    case BitOr => Bits.Or(args[1], args[2])
    case BitNot => Complement(args[1])
  }

  /** `halt`, the jumps, `call`, `ret` and `noop`; `call` is the source's (see
      `CallAsWritten`), and `ret` on an empty stack halts. */
  function Control(e: Effect, args: seq<nat>, m: Machine): (next: Machine)
    requires IsControl(e) && |args| >= Arity(e)
    ensures next.registers == m.registers && next.memory == m.memory
    ensures next.input == m.input && next.output == m.output
    ensures m.halted ==> next.halted
  {
    match e
    case Halt => m.(halted := true)
    case Jmp => m.(address := args[0])
    case Jt => if args[0] != 0 then m.(address := args[1]) else m
    case Jf => if args[0] == 0 then m.(address := args[1]) else m
    case Call => CallAsWritten(args[0], m)
    case Ret =>
      if |m.stack| == 0 then m.(halted := true)
      else m.(address := m.stack[|m.stack| - 1], stack := m.stack[..|m.stack| - 1])
    case Nothing => m
  }

  /** `push`, `pop`, `rmem`, `wmem`, `out` and `in`. */
  function Transfer(e: Effect, args: seq<nat>, m: Machine): (t: Transition)
    requires m.Valid() && !IsCompute(e) && !IsControl(e) && |args| >= Arity(e)
    ensures t.next.Valid() && |t.next.memory| == |m.memory|
    ensures t.next.halted == m.halted && t.next.address == m.address
    ensures t.outcome != Done ==> t.next == m
  {
    match e
    case Push => Transition(m.(stack := m.stack + [args[0]]), Done)
    case Pop =>
      if |m.stack| == 0 then Transition(m, Failed(EmptyStack))
      else
        var w := WriteRegister(m, args[0], m.stack[|m.stack| - 1]);
        if w.outcome == Done then Transition(w.next.(stack := m.stack[..|m.stack| - 1]), Done) else w
    case Rmem =>
      if args[1] < |m.memory| then WriteRegister(m, args[0], m.memory[args[1]])
      else Transition(m, Failed(MemoryOutOfRange(args[1])))
    case Wmem =>
      // a typed array ignores a store past its end
      if args[0] < |m.memory| then Transition(m.(memory := m.memory[args[0] := U16Of(args[1])]), Done)
      else Transition(m, Done)
    case Out => Transition(m.(output := m.output + [args[0]]), Done)
    case In =>
      if |m.input| == 0 then Transition(m, AwaitInput)
      else
        var w := WriteRegister(m, args[0], m.input[0]);
        if w.outcome == Done then Transition(w.next.(input := m.input[1..]), Done) else w
  }

  /** `~b & 0x7FFF`: JavaScript's `~` is the two's-complement -b - 1 on the 32-bit
      integer, and the mask keeps its low 15 bits, which the 32-bit wrap never touches. */
  function Complement(b: nat): (r: nat)
    ensures r == LiteralMax - b % LiteralModulo
  {
    (-(b as int) - 1) % LiteralModulo
  }

  /** The arithmetic form agrees with the bit-by-bit complement of the low 15 bits. */
  lemma ComplementIsBitwise(b: nat)
    ensures Complement(b) == Bits.LowNot(b, 15)
  {
    Bits.Pow2Fifteen();
    Bits.LowNotIsComplement(b, 15);
  }

  /** The raw word `read()` returns: `undefined` past the end of memory. */
  function RawAt(memory: seq<U16>, i: nat): (r: Option<U16>)
    ensures r.Some? <==> i < |memory|
    ensures r.Some? ==> r.value == memory[i]
  {
    if i < |memory| then Some(memory[i]) else None
  }

  /** `resolve(operand)` applied to the raw word it reads: `None` where the source
      computes `NaN`. */
  function Resolve(kind: OperandKind, raw: Option<U16>, registers: seq<nat>): (r: Option<nat>)
    requires |registers| == RegisterCount
    ensures raw.None? ==> r.None?
    ensures raw.Some? && kind == Register ==> r == Some(raw.value % LiteralModulo)
    ensures raw.Some? && kind != Register && raw.value <= LiteralMax ==> r == Some(raw.value)
    ensures raw.Some? && kind != Register && RegisterMin <= raw.value <= RegisterMax ==>
              r == Some(registers[raw.value - RegisterMin])
    ensures raw.Some? && kind != Register && raw.value > RegisterMax ==> r.None?
  {
    match raw
    case None => None
    case Some(value) =>
      if Flags(kind) & RegisterFlags != 0 then Some(value % LiteralModulo)
      else if value <= LiteralMax then Some(value)
      else if value <= RegisterMax then Some(registers[value % LiteralModulo])
      else None
  }

  /** `operation.operands.map(this.resolve)`: every operand word is read in turn,
      from position `start` on. */
  function ResolveAll(kinds: seq<OperandKind>, memory: seq<U16>, start: nat, registers: seq<nat>): (r: seq<Option<nat>>)
    requires |registers| == RegisterCount
    ensures |r| == |kinds|
    ensures forall i :: 0 <= i < |kinds| ==> r[i] == Resolve(kinds[i], RawAt(memory, start + i), registers)
  {
    if kinds == [] then []
    else [Resolve(kinds[0], RawAt(memory, start), registers)] + ResolveAll(kinds[1..], memory, start + 1, registers)
  }

  predicate AllResolved(vs: seq<Option<nat>>) {
    forall i :: 0 <= i < |vs| ==> vs[i].Some?
  }

  function Values(vs: seq<Option<nat>>): (r: seq<nat>)
    requires AllResolved(vs)
    ensures |r| == |vs| && forall i :: 0 <= i < |vs| ==> r[i] == vs[i].value
  {
    if vs == [] then [] else [vs[0].value] + Values(vs[1..])
  }

  /** How one pass of the loop ends. */
  datatype Cycle = Executed(outcome: Outcome) | UnknownOpcode(opcode: U16)

  datatype CycleResult = CycleResult(next: Machine, cycle: Cycle)

  /** One pass of the `run` loop at an address inside memory: read the opcode, stop on
      an unknown one after consuming only that word, otherwise resolve every operand
      and execute. */
  function RunCycle(m: Machine): (r: CycleResult)
    requires m.Valid() && m.address < |m.memory|
    ensures r.next.Valid() && |r.next.memory| == |m.memory|
    ensures r.cycle.UnknownOpcode? ==> r.next == m.(address := m.address + 1)
  {
    var opcode := m.memory[m.address];
    match Lookup(opcode)
    case None => CycleResult(m.(address := m.address + 1), UnknownOpcode(opcode))
    case Some(op) => Perform(op, m)
  }

  /** What decoding leaves for `exec`: the machine with the address past the
      instruction, and the resolved arguments unless one of them did not resolve. */
  datatype Decoded =
    | Invalid(decoded: Machine)
    | Ready(exec: Effect, args: seq<nat>, decoded: Machine)

  /** Resolve the operands of `op` from the words after the opcode and step past them.
      An operand that does not resolve is the source's `NaN`. */
  function Decode(op: Operation, m: Machine): (d: Decoded)
    requires m.Valid()
    ensures d.decoded == m.(address := m.address + op.Size())
    ensures d.Ready? ==> d.exec == op.exec && |d.args| == |op.operands| >= Arity(op.exec)
    ensures d.Ready? <==> AllResolved(ResolveAll(op.operands, m.memory, m.address + 1, m.registers))
                          && |op.operands| >= Arity(op.exec)
  {
    var args := ResolveAll(op.operands, m.memory, m.address + 1, m.registers);
    var decoded := m.(address := m.address + op.Size());
    // no operation of the table has fewer operands than its exec reads
    if !AllResolved(args) || |args| < Arity(op.exec) then Invalid(decoded)
    else Ready(op.exec, Values(args), decoded)
  }

  /** The rest of a pass once the opcode names `op`: decode, then run its `exec`. */
  function Perform(op: Operation, m: Machine): (r: CycleResult)
    requires m.Valid()
    ensures r.next.Valid() && |r.next.memory| == |m.memory|
    ensures r.cycle.Executed?
  {
    match Decode(op, m)
    case Invalid(decoded) => CycleResult(decoded, Executed(Failed(InvalidOperand)))
    case Ready(e, args, decoded) => Complete(e, args, decoded)
  }

  /** The pass's result once `exec` has run on the decoded machine. */
  function Complete(e: Effect, args: seq<nat>, decoded: Machine): (r: CycleResult)
    requires decoded.Valid() && |args| >= Arity(e)
    ensures r.next.Valid() && |r.next.memory| == |decoded.memory|
    ensures r.cycle.Executed? && r.cycle.outcome != Done ==> r.next == decoded
  {
    var t := Execute(e, args, decoded);
    CycleResult(t.next, Executed(t.outcome))
  }

  /** A pass on a known opcode is `Perform` of its operation. */
  lemma CycleDecodes(m: Machine, op: Operation)
    requires m.Valid() && m.address < |m.memory|
    requires Lookup(m.memory[m.address]) == Some(op)
    ensures RunCycle(m) == Perform(op, m)
  {
  }

  /** Resolved operands are decoded to the values they hold. */
  lemma DecodeReady(op: Operation, m: Machine)
    requires m.Valid()
    requires AllResolved(ResolveAll(op.operands, m.memory, m.address + 1, m.registers))
    requires |op.operands| >= Arity(op.exec)
    ensures var values := ResolveAll(op.operands, m.memory, m.address + 1, m.registers);
            Decode(op, m) == Ready(op.exec, Values(values), m.(address := m.address + op.Size()))
  {
  }

  /** The address after decoding: opcode and operands, before `exec` runs. */
  lemma DecodeWidth(m: Machine)
    requires m.Valid() && m.address < |m.memory|
    requires Lookup(m.memory[m.address]).Some?
    ensures var op := Lookup(m.memory[m.address]).value;
            RunCycle(m).cycle == Executed(Failed(InvalidOperand)) ==>
              RunCycle(m).next.address == m.address + 1 + |op.operands|
  {
  }

  /** Why the `run` loop stopped. The loop only runs for a bounded number of passes
      here (`fuel`), since a program need not terminate. */
  datatype Stop =
    | EndOfMemory
    | HaltedStop
    | Unknown(opcode: U16)
    | Faulted(fault: Fault)
    | WaitingForInput
    | OutOfFuel

  datatype RunResult = RunResult(last: Machine, stop: Stop)

  /** The `run` loop from machine `m`: stop at the end of memory, once halted, on an
      unknown opcode, a fault or an empty input buffer, or when the fuel is spent. */
  function RunFrom(m: Machine, fuel: nat): (r: RunResult)
    requires m.Valid()
    ensures r.last.Valid() && |r.last.memory| == |m.memory|
    ensures r.stop == EndOfMemory ==> r.last.address >= |r.last.memory|
    ensures r.stop == HaltedStop ==> r.last.halted
    ensures m.halted && m.address < |m.memory| ==> r == RunResult(m, HaltedStop)
    decreases fuel
  {
    if m.address >= |m.memory| then RunResult(m, EndOfMemory)
    else if m.halted then RunResult(m, HaltedStop)
    else if fuel == 0 then RunResult(m, OutOfFuel)
    else
      var c := RunCycle(m);
      match c.cycle
      case UnknownOpcode(op) => RunResult(c.next, Unknown(op))
      case Executed(Done) => RunFrom(c.next, fuel - 1)
      case Executed(AwaitInput) => RunResult(c.next, WaitingForInput)
      case Executed(Failed(f)) => RunResult(c.next, Faulted(f))
  }

  /** The loop goes on after a pass that ends normally, with one pass less. */
  lemma RunFromContinues(m: Machine, fuel: nat, next: Machine)
    requires m.Valid() && m.address < |m.memory| && !m.halted && fuel > 0
    requires RunCycle(m) == CycleResult(next, Executed(Done))
    ensures RunFrom(m, fuel) == RunFrom(next, fuel - 1)
  {
  }

  /** The loop stops at an unknown opcode, past its word. */
  lemma RunFromUnknown(m: Machine, fuel: nat, next: Machine)
    requires m.Valid() && m.address < |m.memory| && !m.halted && fuel > 0
    requires RunCycle(m).next == next && RunCycle(m).cycle.UnknownOpcode?
    ensures RunFrom(m, fuel) == RunResult(next, Unknown(RunCycle(m).cycle.opcode))
  {
  }

  /** The loop stops when `in` finds no buffered input. */
  lemma RunFromWaits(m: Machine, fuel: nat, next: Machine)
    requires m.Valid() && m.address < |m.memory| && !m.halted && fuel > 0
    requires RunCycle(m) == CycleResult(next, Executed(AwaitInput))
    ensures RunFrom(m, fuel) == RunResult(next, WaitingForInput)
  {
  }

  /** The loop stops on a fault. */
  lemma RunFromFaults(m: Machine, fuel: nat, next: Machine)
    requires m.Valid() && m.address < |m.memory| && !m.halted && fuel > 0
    requires RunCycle(m).next == next && RunCycle(m).cycle.Executed? && RunCycle(m).cycle.outcome.Failed?
    ensures RunFrom(m, fuel) == RunResult(next, Faulted(RunCycle(m).cycle.outcome.fault))
  {
  }

  // ---- Properties of the individual instructions ----

  /** `set`, the arithmetic operations, the comparisons, the bitwise operations and
      `rmem` write exactly one register and leave everything else as it was (`mod`
      when its divisor is not zero, `rmem` when its address is inside memory). */
  lemma RegisterOpsWriteOnlyTarget(e: Effect, args: seq<nat>, m: Machine)
    requires m.Valid() && |args| >= Arity(e)
    requires e in {Set, Eq, Gt, Add, Mult, Mod, BitAnd, BitOr, BitNot, Rmem}
    requires args[0] < RegisterCount
    requires e == Mod ==> args[2] != 0
    requires e == Rmem ==> args[1] < |m.memory|
    ensures var t := Execute(e, args, m);
            t.outcome == Done &&
            |t.next.registers| == RegisterCount &&
            t.next == m.(registers := m.registers[args[0] := t.next.registers[args[0]]])
  {
  }

  /** `add` and `mult` store the sum and the product modulo 32768, always a literal. */
  lemma ArithmeticIsModular(a: nat, b: nat, c: nat, m: Machine)
    requires m.Valid() && a < RegisterCount
    ensures Execute(Add, [a, b, c], m).next.registers[a] == (b + c) % 32768 <= LiteralMax
    ensures Execute(Mult, [a, b, c], m).next.registers[a] == (b * c) % 32768 <= LiteralMax
  {
  }

  /** `eq` and `gt` store 1 exactly when the comparison holds and 0 otherwise. */
  lemma ComparisonsAreBoolean(a: nat, b: nat, c: nat, m: Machine)
    requires m.Valid() && a < RegisterCount
    ensures Execute(Eq, [a, b, c], m).next.registers[a] == if b == c then 1 else 0
    ensures Execute(Gt, [a, b, c], m).next.registers[a] == if b > c then 1 else 0
  {
  }

  /** `not` of a literal is its 15-bit complement 32767 - b, and undoes itself. */
  lemma NotIsComplement(a: nat, b: nat, m: Machine)
    requires m.Valid() && a < RegisterCount && b <= LiteralMax
    ensures Execute(BitNot, [a, b], m).next.registers[a] == LiteralMax - b
    ensures var once := Execute(BitNot, [a, b], m).next;
            Execute(BitNot, [a, once.registers[a]], once).next.registers[a] == b
  {
  }

  /** `mod` by a positive divisor stores a remainder below it; by zero it fails and
      changes nothing. */
  lemma ModRemainder(a: nat, b: nat, c: nat, m: Machine)
    requires m.Valid() && a < RegisterCount
    ensures c > 0 ==> Execute(Mod, [a, b, c], m).outcome == Done
    ensures c > 0 ==> Execute(Mod, [a, b, c], m).next.registers[a] == b % c < c
    ensures c == 0 ==> Execute(Mod, [a, b, c], m) == Transition(m, Failed(DivisionByZero))
  {
  }

  /** `pop` on an empty stack fails and changes nothing. */
  lemma PopEmptyFails(a: nat, m: Machine)
    requires m.Valid() && m.stack == []
    ensures Execute(Pop, [a], m) == Transition(m, Failed(EmptyStack))
  {
  }

  /** `push v` then `pop r` leaves v in r and the stack as it was. */
  lemma PushThenPop(v: nat, r: nat, m: Machine)
    requires m.Valid() && r < RegisterCount
    ensures var pushed := Execute(Push, [v], m).next;
            var popped := Execute(Pop, [r], pushed);
            popped.outcome == Done &&
            popped.next == m.(registers := m.registers[r := v])
  {
    var pushed := Execute(Push, [v], m).next;
    assert pushed.stack[..|pushed.stack| - 1] == m.stack;
  }

  /** `jt` jumps exactly when its condition is non-zero, `jf` exactly when it is zero;
      otherwise the address is untouched. */
  lemma ConditionalJumps(a: nat, b: nat, m: Machine)
    requires m.Valid()
    ensures Execute(Jt, [a, b], m).next.address == if a != 0 then b else m.address
    ensures Execute(Jf, [a, b], m).next.address == if a == 0 then b else m.address
    ensures Execute(Jt, [a, b], m).next.(address := m.address) == m
    ensures Execute(Jf, [a, b], m).next.(address := m.address) == m
  {
  }

  /** `call a` pushes the exec-time address plus two and jumps to a; the next
      `ret` comes back to exactly that address with the stack as before. */
  lemma CallThenRet(a: nat, m: Machine)
    requires m.Valid()
    ensures var called := Execute(Call, [a], m).next;
            called.address == a && called.stack == m.stack + [m.address + 2] &&
            Execute(Ret, [], called) == Transition(m.(address := m.address + 2), Done)
  {
    var called := Execute(Call, [a], m).next;
    assert called.stack[..|called.stack| - 1] == m.stack;
  }

  /** `call` as the source writes it: it pushes `vm.address + 2`, but by the time
      the operation runs the address already points past the call. */
  function CallAsWritten(target: nat, m: Machine): (next: Machine)
    ensures next.address == target && |next.stack| == |m.stack| + 1
    ensures next.stack[..|m.stack|] == m.stack && next.stack[|m.stack|] == m.address + 2
  {
    m.(stack := m.stack + [m.address + 2], address := target)
  }

  /** A `call` cycle that completes pushes the address two words past the
      instruction after the call, and the matching `ret` resumes there. */
  lemma CallPushesPastNextInstruction(m: Machine)
    requires m.Valid() && m.address < |m.memory| && m.memory[m.address] == 17
    requires RunCycle(m).cycle == Executed(Done)
    ensures RunCycle(m).next.stack == m.stack + [m.address + 4]
    ensures Execute(Ret, [], RunCycle(m).next).next.address == m.address + 4
  {
    var op := Operation(17, "call", [Address], Call);
    assert Lookup(17) == Some(op);
    CycleDecodes(m, op);
    var decoded := Decode(op, m).decoded;
    assert decoded.address == m.address + 2;
    CallThenRet(RunCycle(m).next.address, decoded);
  }

  /** A concrete run: `call 6` at address 0, then `ret` at 6, resumes at 4 and
      not at 2, where the instruction after the call starts. */
  lemma CallAsWrittenSkipsTwoWords(m: Machine)
    requires m.Valid() && m.address == 0 && |m.memory| >= 7
    requires m.memory[0] == 17 && m.memory[1] == 6 && m.memory[6] == 18 && !m.halted
    ensures RunCycle(m).cycle == Executed(Done) && RunCycle(m).next.address == 6
    ensures RunCycle(RunCycle(m).next).next.address == 4
  {
    var call := Operation(17, "call", [Address], Call);
    assert Lookup(17) == Some(call);
    CycleDecodes(m, call);
    var called := RunCycle(m).next;
    var ret := Operation(18, "ret", [], Ret);
    assert Lookup(18) == Some(ret);
    CycleDecodes(called, ret);
  }

  /** `call` as its doc comment describes it: it pushes the address of the next
      instruction, which is where the address points once the operand is read. */
  function CallIntended(target: nat, m: Machine): Machine
  {
    m.(stack := m.stack + [m.address], address := target)
  }

  /** With the intended `call`, the matching `ret` resumes at the instruction right
      after the call (two words on, the call and its operand) with the stack as
      before. */
  lemma CallIntendedReturnsAfterCall(a: nat, m: Machine)
    requires m.Valid()
    ensures var decoded := Decode(Operation(17, "call", [Address], Call), m).decoded;
            decoded.address == m.address + 2 &&
            Execute(Ret, [], CallIntended(a, decoded)) == Transition(decoded, Done)
  {
    var decoded := Decode(Operation(17, "call", [Address], Call), m).decoded;
    var called := CallIntended(a, decoded);
    assert called.stack[..|called.stack| - 1] == decoded.stack;
  }

  /** `ret` on an empty stack halts and leaves the stack and address alone. */
  lemma RetEmptyHalts(m: Machine)
    requires m.Valid() && m.stack == []
    ensures Execute(Ret, [], m) == Transition(m.(halted := true), Done)
  {
  }

  /** `wmem a, v` changes only memory[a]; a following `rmem r, a` reads v back (as the
      typed array stores it). */
  lemma WriteThenRead(a: nat, v: nat, r: nat, m: Machine)
    requires m.Valid() && r < RegisterCount && a < |m.memory|
    ensures var written := Execute(Wmem, [a, v], m).next;
            written == m.(memory := m.memory[a := U16Of(v)]) &&
            Execute(Rmem, [r, a], written).next.registers[r] == U16Of(v)
    ensures v <= 0xFFFF ==> U16Of(v) == v
  {
  }

  /** An operation without an `exec` changes nothing: `noop` relies on this. */
  lemma NoExecChangesNothing(args: seq<nat>, m: Machine)
    requires m.Valid()
    ensures Execute(Nothing, args, m) == Transition(m, Done)
    ensures Lookup(21).Some? && Lookup(21).value.exec == Nothing
  {
    DefinitionsWellFormed(21);
  }
}
