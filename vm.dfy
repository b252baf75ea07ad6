/** The VM of src/VM/index.mjs as a class whose fields its methods update, each
    method tied to the functions of module Semantics. */
module VirtualMachine {

  import opened Wrappers
  import opened Constants
  import opened Operations
  import opened Semantics

  /** What a program loader supplies: the image bytes and the resolved path. */
  datatype Program = Program(data: seq<Byte>, fqpath: string)

  /** The little-endian word of a low and a high byte. */
  function Word(low: Byte, high: Byte): U16
  {
    low as int + 256 * high as int
  }

  /** The low and the high byte come back out of their word. */
  lemma WordSplits(low: Byte, high: Byte)
    ensures Word(low, high) % 256 == low && Word(low, high) / 256 == high
  {
  }

  /** The memory `load` builds: word i is `data.readUInt16LE(2 * i)`. */
  function Image(data: seq<Byte>): (memory: seq<U16>)
    ensures |memory| == |data| / 2
    ensures forall i :: 0 <= i < |memory| ==> memory[i] == Word(data[2 * i], data[2 * i + 1])
  {
    seq(|data| / 2, i requires 0 <= i < |data| / 2 => Word(data[2 * i], data[2 * i + 1]))
  }

  /** The bytes of words in little-endian order: the inverse of `Image`. */
  function WordBytes(memory: seq<U16>): (bytes: seq<Byte>)
    ensures |bytes| == 2 * |memory|
  {
    if memory == [] then [] else WordBytes(memory[..|memory| - 1]) + [memory[|memory| - 1] % 256, memory[|memory| - 1] / 256]
  }

  /** Splitting the loaded words back into bytes gives the image back. */
  lemma {:induction false} ImageRoundTrip(data: seq<Byte>)
    requires |data| % 2 == 0
    ensures WordBytes(Image(data)) == data
  {
    if data != [] {
      var n := |data|;
      var front := data[..n - 2];
      assert Image(data)[..|Image(data)| - 1] == Image(front);
      ImageRoundTrip(front);
      assert data == front + [data[n - 2], data[n - 1]];
    }
  }

  /** Byte `k` of the little-endian rendering of some words. */
  lemma {:induction false} WordBytesAt(memory: seq<U16>, k: nat)
    requires k < 2 * |memory|
    ensures WordBytes(memory)[k] == if k % 2 == 0 then memory[k / 2] % 256 else memory[k / 2] / 256
  {
    var n := |memory|;
    if k < 2 * (n - 1) {
      WordBytesAt(memory[..n - 1], k);
    }
  }

  /** The word-by-word fill loop of `load`. */
  method ReadWords(data: seq<Byte>) returns (words: array<U16>)
    ensures fresh(words) && words[..] == Image(data)
  {
    var size := |data| / AddressSize;
    words := new U16[size];
    for i := 0 to size
      invariant words[..i] == Image(data)[..i]
    {
      words[i] := Word(data[i * AddressSize], data[i * AddressSize + 1]);
      assert words[..i + 1] == words[..i] + [words[i]];
    }
    assert words[..] == words[..size];
  }

  class VM {
    var program: Option<Program>
    var memory: array<U16>
    var address: nat
    var registers: seq<nat>
    var stack: seq<nat>
    var input: seq<nat>
    var output: seq<nat>
    var halted: bool

    ghost predicate Valid()
      reads this
    {
      |registers| == RegisterCount
    }

    /** The snapshot the functions of module Semantics work on. */
    ghost function State(): (m: Machine)
      reads this, memory
      ensures Valid() ==> m.Valid()
    {
      Machine(registers, stack, memory[..], address, halted, input, output)
    }

    /** A new VM: eight zero registers, an empty stack and input, address 0, no program.
        The source starts with no memory at all; here it is empty until `Load`. */
    constructor ()
      ensures Valid() && fresh(memory)
      ensures program == None && memory.Length == 0 && address == 0
      ensures registers == [0, 0, 0, 0, 0, 0, 0, 0]
      ensures stack == [] && input == [] && output == [] && !halted
    {
      program := None;
      memory := new U16[0];
      address := 0;
      registers := [0, 0, 0, 0, 0, 0, 0, 0];
      stack := [];
      input := [];
      output := [];
      halted := false;
    }

    /** `eof`: the address is at or past the end of memory. */
    predicate Eof()
      reads this, memory
    {
      address >= memory.Length
    }

    /** `end()`: move the address to the end of memory. */
    method End()
      modifies this
      ensures Eof() && address == memory.Length
      ensures memory == old(memory) && registers == old(registers) && stack == old(stack)
      ensures input == old(input) && output == old(output) && halted == old(halted) && program == old(program)
    {
      address := memory.Length;
    }

    /** `load(program)`: a fresh memory of |data| / 2 words decoded little-endian.
        Nothing else is reset. An odd-length image makes the source's last
        `readUInt16LE` throw after the memory is filled; `ok` is false then. */
    method Load(data: seq<Byte>) returns (ok: bool)
      requires Valid()
      modifies this
      ensures Valid() && fresh(memory)
      ensures memory[..] == Image(data)
      ensures ok <==> |data| % 2 == 0
      ensures address == old(address) && registers == old(registers) && stack == old(stack)
      ensures input == old(input) && output == old(output) && halted == old(halted) && program == old(program)
    {
      memory := ReadWords(data);
      ok := |data| % AddressSize == 0;
    }

    /** `prompt()` with buffered input: the oldest code, removed from the buffer.
        With an empty buffer the source waits on standard input; here `None`. */
    method Prompt() returns (code: Option<nat>)
      modifies this
      ensures old(input) != [] ==> code == Some(old(input)[0]) && input == old(input)[1..]
      ensures old(input) == [] ==> code == None && input == []
      ensures memory == old(memory) && address == old(address) && registers == old(registers)
      ensures stack == old(stack) && output == old(output) && halted == old(halted) && program == old(program)
    {
      if |input| > 0 {
        code := Some(input[0]);
        input := input[1..];
      } else {
        code := None;
      }
    }

    /** `read()`: the word at the address (undefined past the end), then one word on. */
    method Read() returns (value: Option<U16>)
      modifies this
      ensures value == RawAt(memory[..], old(address))
      ensures address == old(address) + 1
      ensures memory == old(memory) && registers == old(registers) && stack == old(stack)
      ensures input == old(input) && output == old(output) && halted == old(halted) && program == old(program)
    {
      value := if address < memory.Length then Some(memory[address]) else None;
      address := address + 1;
    }

    /** `resolve(operand)`: reads one word and resolves it for the operand kind. */
    method ResolveOperand(kind: OperandKind) returns (r: Option<nat>)
      requires Valid()
      modifies this
      ensures Valid()
      ensures r == Resolve(kind, RawAt(memory[..], old(address)), registers)
      ensures address == old(address) + 1
      ensures memory == old(memory) && registers == old(registers) && stack == old(stack)
      ensures input == old(input) && output == old(output) && halted == old(halted) && program == old(program)
    {
      var raw := Read();
      match raw
      case None => r := None;
      case Some(value) =>
        if Flags(kind) & RegisterFlags != 0 {
          r := Some(value % LiteralModulo);
        } else if value <= LiteralMax {
          r := Some(value);
        } else if value <= RegisterMax {
          r := Some(registers[value % LiteralModulo]);
        } else {
          r := None;
        }
    }

    /** `operation.operands.map(this.resolve)`. */
    method ResolveOperands(kinds: seq<OperandKind>) returns (values: seq<Option<nat>>)
      requires Valid()
      modifies this
      ensures Valid()
      ensures values == ResolveAll(kinds, memory[..], old(address), registers)
      ensures address == old(address) + |kinds|
      ensures memory == old(memory) && registers == old(registers) && stack == old(stack)
      ensures input == old(input) && output == old(output) && halted == old(halted) && program == old(program)
    {
      values := [];
      var i := 0;
      while i < |kinds|
        invariant 0 <= i <= |kinds| && Valid()
        invariant address == old(address) + i
        invariant |values| == i
        invariant forall j :: 0 <= j < i ==> values[j] == Resolve(kinds[j], RawAt(memory[..], old(address) + j), registers)
        invariant memory == old(memory) && registers == old(registers) && stack == old(stack)
        invariant input == old(input) && output == old(output) && halted == old(halted) && program == old(program)
      {
        var v := ResolveOperand(kinds[i]);
        values := values + [v];
        i := i + 1;
      }
    }

    /** The `exec` of an operation, in place. */
    method Exec(e: Effect, args: seq<nat>) returns (outcome: Outcome)
      requires Valid() && |args| >= Arity(e)
      modifies this, memory
      ensures Valid() && memory == old(memory) && program == old(program)
      ensures State() == Execute(e, args, old(State())).next
      ensures outcome == Execute(e, args, old(State())).outcome
    {
      if IsCompute(e) {
        outcome := Compute(e, args);
      } else if IsControl(e) {
        Control(e, args);
        outcome := Done;
      } else {
        outcome := Transfer(e, args);
      }
    }

    /** The operations that store a value computed from their arguments in a register. */
    method Compute(e: Effect, args: seq<nat>) returns (outcome: Outcome)
      requires Valid() && |args| >= Arity(e)
      requires IsCompute(e)
      modifies this
      ensures Valid() && memory == old(memory) && program == old(program)
      ensures State() == Execute(e, args, old(State())).next
      ensures outcome == Execute(e, args, old(State())).outcome
    {
      if e == Mod && args[2] == 0 {
        return Failed(DivisionByZero);
      }
      outcome := WriteReg(args[0], Computed(e, args));
    }

    /** The operations that move the address or halt. */
    method Control(e: Effect, args: seq<nat>)
      requires Valid() && |args| >= Arity(e)
      requires IsControl(e)
      modifies this
      ensures Valid() && memory == old(memory) && program == old(program)
      ensures State() == Semantics.Control(e, args, old(State()))
    {
      match e
      case Halt => halted := true;
      case Jmp => address := args[0];
      case Jt => if args[0] != 0 { address := args[1]; }
      case Jf => if args[0] == 0 { address := args[1]; }
      case Call =>
        stack := stack + [address + 2];
        address := args[0];
      case Ret =>
        if |stack| == 0 {
          halted := true;
        } else {
          address := stack[|stack| - 1];
          stack := stack[..|stack| - 1];
        }
      case Nothing =>
    }

    /** The operations that move values between registers and the stack, memory or
        the input and output buffers. */
    method Transfer(e: Effect, args: seq<nat>) returns (outcome: Outcome)
      requires Valid() && |args| >= Arity(e)
      requires !IsCompute(e) && !IsControl(e)
      modifies this, memory
      ensures Valid() && memory == old(memory) && program == old(program)
      ensures State() == Semantics.Transfer(e, args, old(State())).next
      ensures outcome == Semantics.Transfer(e, args, old(State())).outcome
    {
      if e == Push || e == Pop {
        outcome := StackTransfer(e, args);
      } else if e == Rmem || e == Wmem {
        outcome := MemoryTransfer(e, args);
      } else {
        outcome := BufferTransfer(e, args);
      }
    }

    /** `push` and `pop`. */
    method StackTransfer(e: Effect, args: seq<nat>) returns (outcome: Outcome)
      requires Valid() && |args| >= Arity(e) && (e == Push || e == Pop)
      modifies this
      ensures Valid() && memory == old(memory) && program == old(program)
      ensures State() == Semantics.Transfer(e, args, old(State())).next
      ensures outcome == Semantics.Transfer(e, args, old(State())).outcome
    {
      outcome := Done;
      if e == Push {
        stack := stack + [args[0]];
      } else if |stack| == 0 {
        outcome := Failed(EmptyStack);
      } else {
        var top := stack[|stack| - 1];
        outcome := WriteReg(args[0], top);
        if outcome == Done {
          stack := stack[..|stack| - 1];
        }
      }
    }

    /** `rmem` and `wmem`. */
    method MemoryTransfer(e: Effect, args: seq<nat>) returns (outcome: Outcome)
      requires Valid() && |args| >= Arity(e) && (e == Rmem || e == Wmem)
      modifies this, memory
      ensures Valid() && memory == old(memory) && program == old(program)
      ensures State() == Semantics.Transfer(e, args, old(State())).next
      ensures outcome == Semantics.Transfer(e, args, old(State())).outcome
    {
      outcome := Done;
      if e == Rmem {
        if args[1] < memory.Length {
          outcome := WriteReg(args[0], memory[args[1]]);
        } else {
          outcome := Failed(MemoryOutOfRange(args[1]));
        }
      } else if args[0] < memory.Length {
        memory[args[0]] := U16Of(args[1]);
      }
    }

    /** `out` and `in`. */
    method BufferTransfer(e: Effect, args: seq<nat>) returns (outcome: Outcome)
      requires Valid() && |args| >= Arity(e) && (e == Out || e == In)
      modifies this
      ensures Valid() && memory == old(memory) && program == old(program)
      ensures State() == Semantics.Transfer(e, args, old(State())).next
      ensures outcome == Semantics.Transfer(e, args, old(State())).outcome
    {
      outcome := Done;
      if e == Out {
        output := output + [args[0]];
      } else if |input| == 0 {
        outcome := AwaitInput;
      } else {
        outcome := WriteReg(args[0], input[0]);
        if outcome == Done {
          input := input[1..];
        }
      }
    }

    /** `vm.registers[a] = v`, refused for an index that is not a register. */
    method WriteReg(a: nat, v: nat) returns (outcome: Outcome)
      requires Valid()
      modifies this
      ensures Valid()
      ensures var w := WriteRegister(old(State()), a, v);
              registers == w.next.registers && outcome == w.outcome
      ensures memory == old(memory) && address == old(address) && stack == old(stack)
      ensures input == old(input) && output == old(output) && halted == old(halted) && program == old(program)
    {
      if a < RegisterCount {
        registers := registers[a := v];
        outcome := Done;
      } else {
        outcome := Failed(RegisterOutOfRange(a));
      }
    }

    /** One pass of the `run` loop body at an address inside memory. */
    method Step() returns (cycle: Cycle)
      requires Valid() && !Eof()
      modifies this, memory
      ensures Valid() && memory == old(memory) && program == old(program)
      ensures State() == RunCycle(old(State())).next
      ensures cycle == RunCycle(old(State())).cycle
    {
      ghost var m := State();
      var raw := Read();
      var opcode := raw.value;
      var operation := Lookup(opcode);
      if operation.None? {
        assert State() == m.(address := m.address + 1);
        return UnknownOpcode(opcode);
      }
      var op := operation.value;
      CycleDecodes(m, op);
      cycle := Perform(op, m);
    }

    /** The rest of a pass once the opcode word is read: decode the operands, then
        run the operation's `exec` if they all resolve. */
    method Perform(op: Operation, ghost m: Machine) returns (cycle: Cycle)
      requires Valid() && m.Valid() && State() == m.(address := m.address + 1)
      modifies this, memory
      ensures Valid() && memory == old(memory) && program == old(program)
      ensures State() == Semantics.Perform(op, m).next
      ensures cycle == Semantics.Perform(op, m).cycle
    {
      var args := DecodeOperands(op, m);
      if args.None? {
        cycle := Executed(Failed(InvalidOperand));
      } else {
        var outcome := Exec(op.exec, args.value);
        cycle := Executed(outcome);
      }
    }

    /** `operation.operands.map(this.resolve)`, leaving the address past the operands:
        the argument values, or `None` when one of them did not resolve. */
    method DecodeOperands(op: Operation, ghost m: Machine) returns (args: Option<seq<nat>>)
      requires Valid() && m.Valid() && State() == m.(address := m.address + 1)
      modifies this
      ensures Valid() && memory == old(memory) && program == old(program)
      ensures Decode(op, m) == if args.None? then Invalid(State()) else Ready(op.exec, args.value, State())
    {
      var values := ResolveOperands(op.operands);
      assert values == ResolveAll(op.operands, m.memory, m.address + 1, m.registers);
      if !AllResolved(values) || |values| < Arity(op.exec) {
        args := None;
      } else {
        DecodeReady(op, m);
        args := Some(Values(values));
      }
    }

    /** `run(program)`: load the image, then execute instructions until the end of
        memory, a halt, an unknown opcode, a fault, an empty input buffer, or `fuel`
        passes. */
    method Run(p: Program, fuel: nat) returns (ok: bool, stop: Stop)
      requires Valid()
      modifies this
      ensures Valid() && fresh(memory) && program == old(program)
      ensures ok <==> |p.data| % 2 == 0
      ensures ok ==> var loaded := old(State()).(memory := Image(p.data));
                     RunFrom(loaded, fuel) == RunResult(State(), stop)
    {
      ok := Load(p.data);
      if !ok {
        return false, EndOfMemory;
      }
      stop := Resume(fuel);
    }

    /** The loop of `run` on the loaded memory, for at most `fuel` passes. */
    method Resume(fuel: nat) returns (stop: Stop)
      requires Valid()
      modifies this, memory
      ensures Valid() && memory == old(memory) && program == old(program)
      ensures RunFrom(old(State()), fuel) == RunResult(State(), stop)
    {
      ghost var start := State();
      var left := fuel;
      while left > 0 && !Eof() && !halted
        invariant Valid() && memory == old(memory) && program == old(program)
        invariant RunFrom(start, fuel) == RunFrom(State(), left)
      {
        ghost var before := State();
        var cycle := Step();
        if cycle.UnknownOpcode? {
          RunFromUnknown(before, left, State());
          return Unknown(cycle.opcode);
        } else if cycle.outcome.AwaitInput? {
          RunFromWaits(before, left, State());
          return WaitingForInput;
        } else if cycle.outcome.Failed? {
          RunFromFaults(before, left, State());
          return Faulted(cycle.outcome.fault);
        }
        RunFromContinues(before, left, State());
        left := left - 1;
      }
      stop := if Eof() then EndOfMemory else if halted then HaltedStop else OutOfFuel;
    }
  }
}
