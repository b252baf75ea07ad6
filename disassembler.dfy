/** The disassembler of src/Disassembler/index.mjs: a VM that, instead of executing,
    reads every instruction of a program and logs one line for it. Colours are
    left out (each colour function is taken as the identity). */
module Disassembly {

  import opened Wrappers
  import opened Constants
  import opened HexFormat
  import opened Utils
  import opened Operations
  import opened Semantics
  import opened VirtualMachine

  /** The flags `resolve` tests: a DYNAMIC operand whose raw word is above the
      literal range is treated as a register. */
  function Classify(kind: OperandKind, raw: Option<U16>): bv8 {
    var flags := Flags(kind);
    if flags & Dynamic != 0 && raw.Some? && raw.value > LiteralMax then flags | TypeRegister else flags
  }

  /** `R${value % LITERAL_MODULO}`, "RNaN" for `undefined`. */
  function RegisterName(raw: Option<U16>): string {
    "R" + match raw case None => "NaN" case Some(v) => Decimal(v % LiteralModulo)
  }

  /** The text `resolve` returns for an operand of `kind` whose word is `raw`.
      `raw` is `None` past the end of memory, where the source reads `undefined`:
      a register is then "RNaN", an address `hexoffset(undefined)` = "0x0NAN", a
      character `String.fromCharCode(undefined)` = "\0" and a number "undefined". */
  function Render(kind: OperandKind, raw: Option<U16>): (text: string)
    ensures |text| >= 1
  {
    var flags := Classify(kind, raw);
    if flags & TypeRegister != 0 then
      var register := RegisterName(raw);
      if flags & TypeAddress != 0 then "address(" + register + ")"
      else if flags & TypeChar != 0 then "char(" + register + ")"
      else register
    else if flags & TypeAddress != 0 then
      match raw case None => "0x0NAN" case Some(v) => HexOffset(v)
    else if flags & TypeChar != 0 then
      [match raw case None => 0 as char case Some(v) => v as char]
    else
      match raw case None => "undefined" case Some(v) => Decimal(v)
  }

  /** How a register name is shown for an operand of each kind. */
  function Wrapped(kind: OperandKind, register: string): string {
    match kind
    case Address => "address(" + register + ")"
    case Char => "char(" + register + ")"
    case _ => register
  }

  /** A register target always names register raw mod 32768. */
  lemma RenderRegisterTarget(v: U16)
    ensures Render(Register, Some(v)) == "R" + Decimal(v % LiteralModulo)
  {
  }

  /** A value-class operand above the literal range names register raw - 32768,
      wrapped as `address(..)` or `char(..)` by its kind. */
  lemma RenderDynamicRegister(kind: OperandKind, v: U16)
    requires kind != Register && v > LiteralMax
    ensures Render(kind, Some(v)) == Wrapped(kind, "R" + Decimal(v - RegisterMin))
  {
    var n := v - RegisterMin;
    assert v % LiteralModulo == n;
    DynamicFlags(kind, v);
    assert RegisterName(Some(v)) == "R" + Decimal(n);
  }

  /** The flags `resolve` ends up with for a value-class word above the literal
      range: the register bit, and the type bit of the kind. */
  lemma DynamicFlags(kind: OperandKind, v: U16)
    requires kind != Register && v > LiteralMax
    ensures Classify(kind, Some(v)) & TypeRegister != 0
    ensures Classify(kind, Some(v)) & TypeAddress != 0 <==> kind == Address
    ensures Classify(kind, Some(v)) & TypeChar != 0 <==> kind == Char
  {
    match kind
    case Value =>
    case Address =>
    case Char =>
  }

  /** A value-class operand within the literal range is shown as the number, the
      address label or the character it stands for. */
  lemma RenderLiteral(kind: OperandKind, v: U16)
    requires kind != Register && v <= LiteralMax
    ensures kind == Value ==> Render(kind, Some(v)) == Decimal(v)
    ensures kind == Address ==> Render(kind, Some(v)) == HexOffset(v)
    ensures kind == Char ==> Render(kind, Some(v)) == [v as char]
  {
  }

  /** A literal number is shown in decimal and reads back as itself; a literal
      address is shown as the label of its byte offset. */
  lemma RenderLiteralReadsBack(v: U16)
    requires v <= LiteralMax
    ensures ParseDecimal(Render(Value, Some(v))) == v
    ensures var s := Render(Address, Some(v)); s[..2] == "0x" && AllHex(s[2..]) && ParseHex(s[2..]) == 2 * v
  {
    ParseToDecimal(v);
    HexOffsetValue(v, 2);
  }

  /** Where the VM reads a register for an operand, the listing names that same
      register; above the register range the VM fails while the listing still
      names R(raw mod 32768). */
  lemma RenderNamesVmRegister(kind: OperandKind, v: U16, registers: seq<nat>)
    requires kind != Register && RegisterMin <= v && |registers| == RegisterCount
    ensures var n := v - RegisterMin;
            Render(kind, Some(v)) == Wrapped(kind, "R" + Decimal(n)) &&
            (v <= RegisterMax ==> n < RegisterCount && Resolve(kind, Some(v), registers) == Some(registers[n])) &&
            (v > RegisterMax ==> Resolve(kind, Some(v), registers).None?)
  {
    RenderDynamicRegister(kind, v);
  }

  /** Reading past the end of memory. */
  lemma RenderPastEnd(kind: OperandKind)
    ensures kind == Register ==> Render(kind, None) == "RNaN"
    ensures kind == Address ==> Render(kind, None) == "0x0NAN"
    ensures kind == Char ==> Render(kind, None) == [0 as char]
    ensures kind == Value ==> Render(kind, None) == "undefined"
  {
  }

  /** The operand texts of an instruction whose operands start at `start`. */
  function RenderAll(kinds: seq<OperandKind>, memory: seq<U16>, start: nat): seq<string> {
    seq(|kinds|, i requires 0 <= i < |kinds| => Render(kinds[i], RawAt(memory, start + i)))
  }

  /** `console.log(head, ...parts)`: the arguments joined by single spaces. */
  function Spaced(head: string, parts: seq<string>): string {
    if parts == [] then head else Spaced(head, parts[..|parts| - 1]) + " " + parts[|parts| - 1]
  }

  lemma {:induction false} SpacedStartsWithHead(head: string, parts: seq<string>)
    ensures |Spaced(head, parts)| >= |head| && Spaced(head, parts)[..|head|] == head
  {
    if parts != [] {
      SpacedStartsWithHead(head, parts[..|parts| - 1]);
    }
  }

  /** The line `dump` logs for the instruction at `address`: its label and the
      opcode for an unknown opcode, else its label, the name right-aligned in six
      columns and the operand texts. */
  function Line(memory: seq<U16>, address: nat): string
    requires address < |memory|
  {
    LineOf(memory, address, Lookup(memory[address]))
  }

  function LineOf(memory: seq<U16>, address: nat, operation: Option<Operation>): string
    requires address < |memory|
  {
    match operation
    case None => HexOffset(address) + " " + Decimal(memory[address])
    case Some(op) => Spaced(HexOffset(address) + " " + PadStart(op.name, 6, ' '), RenderAll(op.operands, memory, address + 1))
  }

  /** Every line starts with the lead of its address and a space. */
  lemma {:induction false} LineLabel(memory: seq<U16>, address: nat)
    requires address < |memory|
    ensures var lead := HexOffset(address) + " ";
            (|Line(memory, address)| >= |lead| && Line(memory, address)[..|lead|] == lead)
  {
    var lead := HexOffset(address) + " ";
    match Lookup(memory[address])
    case None =>
      assert Line(memory, address) == lead + Decimal(memory[address]);
    case Some(op) =>
      var head := lead + PadStart(op.name, 6, ' ');
      SpacedStartsWithHead(head, RenderAll(op.operands, memory, address + 1));
      assert head[..|lead|] == lead;
  }

  /** How many words `dump` consumes for an instruction with this opcode: one for
      an opcode outside the table, otherwise the opcode word and one word per
      operand. The table's sizes written out per opcode (see `SpanMatchesTable`). */
  function Span(opcode: nat): nat
  {
    if opcode >= 22 || opcode == 0 || opcode == 18 || opcode == 21 then 1
    else if opcode == 2 || opcode == 3 || opcode == 6 || opcode == 17 || opcode == 19 || opcode == 20 then 2
    else if opcode == 1 || opcode == 7 || opcode == 8 || opcode == 14 || opcode == 15 || opcode == 16 then 3
    else 4
  }

  /** The size of an operation as `dump` moves past it. */
  function WidthOf(operation: Option<Operation>): (n: nat)
    ensures n >= 1
  {
    match operation
    case None => 1
    case Some(op) => op.Size()
  }

  lemma SpanMatchesTable(opcode: nat)
    ensures Span(opcode) == WidthOf(Lookup(opcode))
  {
    if opcode < 22 {
      TableArity(opcode);
    }
  }

  /** How many words `dump` consumes for the instruction at `address`. */
  function Width(memory: seq<U16>, address: nat): nat
    requires address < |memory|
  {
    Span(memory[address])
  }

  /** An unknown opcode takes one word; a known one takes the opcode word and one
      word per operand its `exec` reads. */
  lemma WidthOfOpcode(memory: seq<U16>, address: nat)
    requires address < |memory|
    ensures Width(memory, address) == WidthOf(Lookup(memory[address]))
    ensures memory[address] >= 22 ==> Width(memory, address) == 1
    ensures memory[address] < 22 ==> Width(memory, address) == 1 + Arity(Lookup(memory[address]).value.exec)
  {
    SpanMatchesTable(memory[address]);
    if memory[address] < 22 {
      TableArity(memory[address]);
    }
  }

  /** `render` applied to each instruction start from `address` to the end. */
  function Trace(render: nat -> string, memory: seq<U16>, address: nat): seq<string>
    decreases |memory| - address
  {
    if address >= |memory| then [] else [render(address)] + Trace(render, memory, address + Width(memory, address))
  }

  /** The line of each address of `memory`. */
  function LineAt(memory: seq<U16>): nat -> string
  {
    (a: nat) => if a < |memory| then Line(memory, a) else ""
  }

  /** All lines `dump` logs when it starts at `address`. */
  function Listing(memory: seq<U16>, address: nat): seq<string>
  {
    Trace(LineAt(memory), memory, address)
  }

  lemma {:induction false} TraceStep(render: nat -> string, memory: seq<U16>, address: nat, before: seq<string>, after: seq<string>)
    requires address < |memory|
    requires after == before + [render(address)]
    ensures after + Trace(render, memory, address + Width(memory, address)) == before + Trace(render, memory, address)
  {
    var rest := Trace(render, memory, address + Width(memory, address));
    assert Trace(render, memory, address) == [render(address)] + rest;
    assert (before + [render(address)]) + rest == before + ([render(address)] + rest);
  }

  /** The first line of a listing is the line at its address. */
  lemma ListingStep(memory: seq<U16>, address: nat)
    requires address < |memory|
    ensures Listing(memory, address) == [Line(memory, address)] + Listing(memory, address + Width(memory, address))
  {
    assert LineAt(memory)(address) == Line(memory, address);
  }

  /** One iteration's worth of the listing: having logged the line of the
      instruction at `address` and moved past it, the rest of the listing is
      what remains to be logged. */
  lemma Advance(memory: seq<U16>, address: nat, before: seq<string>, after: seq<string>, next: nat)
    requires address < |memory|
    requires after == before + [LineOf(memory, address, Lookup(memory[address]))]
    requires next == address + WidthOf(Lookup(memory[address]))
    ensures after + Listing(memory, next) == before + Listing(memory, address)
  {
    SpanMatchesTable(memory[address]);
    assert LineAt(memory)(address) == LineOf(memory, address, Lookup(memory[address]));
    TraceStep(LineAt(memory), memory, address, before, after);
  }

  /** The addresses of the instructions `dump` visits when it starts at `address`. */
  function Starts(memory: seq<U16>, address: nat): (s: seq<nat>)
    ensures forall i :: 0 <= i < |s| ==> address <= s[i] < |memory|
    decreases |memory| - address
  {
    if address >= |memory| then [] else [address] + Starts(memory, address + Width(memory, address))
  }

  /** Entry i of a trace, and so line i of the listing, belongs to the i-th
      instruction start. */
  lemma {:induction false} TraceAtStarts(render: nat -> string, memory: seq<U16>, address: nat)
    ensures |Trace(render, memory, address)| == |Starts(memory, address)|
    ensures forall i :: 0 <= i < |Starts(memory, address)| ==>
              Trace(render, memory, address)[i] == render(Starts(memory, address)[i])
    decreases |memory| - address
  {
    if address < |memory| {
      TraceAtStarts(render, memory, address + Width(memory, address));
    }
  }

  lemma ListingAtStarts(memory: seq<U16>, address: nat)
    ensures |Listing(memory, address)| == |Starts(memory, address)|
    ensures forall i :: 0 <= i < |Starts(memory, address)| ==>
              Starts(memory, address)[i] < |memory| && Listing(memory, address)[i] == Line(memory, Starts(memory, address)[i])
  {
    TraceAtStarts(LineAt(memory), memory, address);
  }

  /** The instructions follow one another without gaps or overlap: the first is at
      `address`, each next one right after the words of the previous one, and the
      last one reaches the end of memory. */
  lemma {:induction false} StartsChain(memory: seq<U16>, address: nat)
    ensures var s := Starts(memory, address);
            (address < |memory| <==> |s| > 0) &&
            (|s| > 0 ==> s[0] == address && s[|s| - 1] + Width(memory, s[|s| - 1]) >= |memory|) &&
            (forall i :: 0 <= i < |s| - 1 ==> s[i + 1] == s[i] + Width(memory, s[i]))
    decreases |memory| - address
  {
    if address < |memory| {
      var next := address + Width(memory, address);
      StartsChain(memory, next);
      var s := Starts(memory, address);
      var t := Starts(memory, next);
      assert s == [address] + t;
      if |t| > 0 {
        assert s[1] == t[0] == next;
      }
      forall i | 0 <= i < |s| - 1
        ensures s[i + 1] == s[i] + Width(memory, s[i])
      {
        if i > 0 {
          assert s[i] == t[i - 1] && s[i + 1] == t[i];
        }
      }
    }
  }

  /** Every word from `address` to the end belongs to one visited instruction. */
  lemma {:induction false} StartsCover(memory: seq<U16>, address: nat, a: nat)
    requires address <= a < |memory|
    ensures exists i :: 0 <= i < |Starts(memory, address)| &&
              Starts(memory, address)[i] <= a < Starts(memory, address)[i] + Width(memory, Starts(memory, address)[i])
    decreases |memory| - address
  {
    var s := Starts(memory, address);
    var next := address + Width(memory, address);
    var t := Starts(memory, next);
    assert s == [address] + t;
    if a < next {
      assert s[0] <= a < s[0] + Width(memory, s[0]);
    } else {
      StartsCover(memory, next, a);
      var j :| 0 <= j < |t| && t[j] <= a < t[j] + Width(memory, t[j]);
      assert s[j + 1] == t[j];
      assert s[j + 1] <= a < s[j + 1] + Width(memory, s[j + 1]);
    }
  }

  /** The disassembler: a VM whose memory it walks, and the lines it has logged. */
  class Disassembler {
    const vm: VM
    var lines: seq<string>

    ghost predicate Valid()
      reads this, vm
    {
      vm.Valid()
    }

    constructor ()
      ensures Valid() && fresh(vm) && lines == []
      ensures vm.memory.Length == 0 && vm.address == 0
    {
      vm := new VM();
      lines := [];
    }

    /** `resolve(operand)`: reads one word and renders it for the operand kind. */
    method Resolve(kind: OperandKind) returns (text: string)
      requires Valid()
      modifies vm
      ensures Valid()
      ensures text == Render(kind, RawAt(vm.memory[..], old(vm.address)))
      ensures vm.address == old(vm.address) + 1
      ensures vm.memory == old(vm.memory) && vm.registers == old(vm.registers) && vm.stack == old(vm.stack)
      ensures vm.input == old(vm.input) && vm.output == old(vm.output) && vm.halted == old(vm.halted)
      ensures vm.program == old(vm.program)
    {
      var value := vm.Read();
      var flags := Flags(kind);
      if flags & Dynamic != 0 && value.Some? && value.value > LiteralMax {
        flags := flags | TypeRegister;
      }
      if flags & TypeRegister != 0 {
        var register := RegisterName(value);
        if flags & TypeAddress != 0 {
          text := "address(" + register + ")";
        } else if flags & TypeChar != 0 {
          text := "char(" + register + ")";
        } else {
          text := register;
        }
      } else if flags & TypeAddress != 0 {
        text := match value case None => "0x0NAN" case Some(v) => HexOffset(v);
      } else if flags & TypeChar != 0 {
        text := [match value case None => 0 as char case Some(v) => v as char];
      } else {
        text := match value case None => "undefined" case Some(v) => Decimal(v);
      }
    }

    /** `operation.operands.map(this.resolve)`, extended onto the line `head`. */
    method RenderOperands(head: string, kinds: seq<OperandKind>) returns (line: string)
      requires Valid()
      modifies vm
      ensures Valid()
      ensures line == Spaced(head, RenderAll(kinds, vm.memory[..], old(vm.address)))
      ensures vm.address == old(vm.address) + |kinds|
      ensures vm.memory == old(vm.memory) && vm.registers == old(vm.registers) && vm.stack == old(vm.stack)
      ensures vm.input == old(vm.input) && vm.output == old(vm.output) && vm.halted == old(vm.halted)
      ensures vm.program == old(vm.program)
    {
      ghost var all := RenderAll(kinds, vm.memory[..], vm.address);
      line := head;
      var i := 0;
      while i < |kinds|
        invariant 0 <= i <= |kinds| && Valid()
        invariant vm.address == old(vm.address) + i
        invariant line == Spaced(head, all[..i])
        invariant vm.memory == old(vm.memory) && vm.registers == old(vm.registers) && vm.stack == old(vm.stack)
        invariant vm.input == old(vm.input) && vm.output == old(vm.output) && vm.halted == old(vm.halted)
        invariant vm.program == old(vm.program)
      {
        var text := Resolve(kinds[i]);
        assert all[..i + 1][..i] == all[..i];
        line := line + " " + text;
        i := i + 1;
      }
      assert all[..|kinds|] == all;
    }

    /** One iteration of the `dump` loop: logs the line of the instruction at the
        address and moves past its words. */
    method DisassembleOne()
      requires Valid() && !vm.Eof()
      modifies this, vm
      ensures Valid()
      ensures vm.memory == old(vm.memory) && vm.registers == old(vm.registers) && vm.stack == old(vm.stack)
      ensures vm.memory[..] == old(vm.memory[..]) && vm.address > old(vm.address)
      ensures lines + Listing(vm.memory[..], vm.address) == old(lines) + Listing(vm.memory[..], old(vm.address))
      ensures vm.input == old(vm.input) && vm.output == old(vm.output) && vm.halted == old(vm.halted)
      ensures vm.program == old(vm.program)
    {
      ghost var memory := vm.memory[..];
      ghost var before := lines;
      var address := vm.address;
      var opcode := vm.Read();
      var operation := Lookup(opcode.value);
      assert operation == Lookup(memory[address]);
      Log(address, opcode.value, operation);
      assert vm.memory[..] == memory;
      Advance(memory, address, before, lines, vm.address);
    }

    /** The rest of a `dump` iteration once the opcode at `address` has been read
        and looked up. */
    method Log(address: nat, opcode: U16, operation: Option<Operation>)
      requires Valid() && address < vm.memory.Length && vm.memory[address] == opcode && vm.address == address + 1
      modifies this, vm
      ensures Valid()
      ensures vm.memory == old(vm.memory) && vm.registers == old(vm.registers) && vm.stack == old(vm.stack)
      ensures lines == old(lines) + [LineOf(vm.memory[..], address, operation)]
      ensures vm.address == address + WidthOf(operation)
      ensures vm.input == old(vm.input) && vm.output == old(vm.output) && vm.halted == old(vm.halted)
      ensures vm.program == old(vm.program)
    {
      if operation.None? {
        lines := lines + [HexOffset(address) + " " + Decimal(opcode)];
      } else {
        var op := operation.value;
        var head := HexOffset(address) + " " + PadStart(op.name, 6, ' ');
        ghost var memory := vm.memory[..];
        var line := RenderOperands(head, op.operands);
        assert line == Spaced(head, RenderAll(op.operands, memory, address + 1));
        lines := lines + [line];
      }
    }

    /** `dump(program)`: loads the image, then logs one line per instruction from
        the current address until the end of memory. An odd-length image makes the
        load throw, and nothing is logged. */
    method Dump(data: seq<Byte>) returns (ok: bool)
      requires Valid()
      modifies this, vm
      ensures Valid() && vm.memory[..] == Image(data)
      ensures ok <==> |data| % 2 == 0
      ensures ok ==> lines == old(lines) + Listing(Image(data), old(vm.address)) && vm.Eof()
      ensures !ok ==> lines == old(lines) && vm.address == old(vm.address)
      ensures vm.registers == old(vm.registers) && vm.stack == old(vm.stack)
      ensures vm.input == old(vm.input) && vm.output == old(vm.output) && vm.halted == old(vm.halted)
      ensures vm.program == old(vm.program)
    {
      ok := vm.Load(data);
      if ok {
        DumpMemory();
      }
    }

    /** The `while (!this.eof)` loop of `dump`: the lines of the instructions from
        the address to the end of memory. */
    method DumpMemory()
      requires Valid()
      modifies this, vm
      ensures Valid() && vm.Eof()
      ensures vm.memory == old(vm.memory) && vm.memory[..] == old(vm.memory[..])
      ensures lines == old(lines) + Listing(vm.memory[..], old(vm.address))
      ensures vm.registers == old(vm.registers) && vm.stack == old(vm.stack)
      ensures vm.input == old(vm.input) && vm.output == old(vm.output) && vm.halted == old(vm.halted)
      ensures vm.program == old(vm.program)
    {
      ghost var memory := vm.memory[..];
      ghost var total := lines + Listing(memory, vm.address);
      while !vm.Eof()
        invariant Valid() && vm.memory == old(vm.memory) && vm.memory[..] == memory
        invariant lines + Listing(memory, vm.address) == total
        invariant vm.registers == old(vm.registers) && vm.stack == old(vm.stack)
        invariant vm.input == old(vm.input) && vm.output == old(vm.output) && vm.halted == old(vm.halted)
        invariant vm.program == old(vm.program)
        decreases vm.memory.Length - vm.address
      {
        DisassembleOne();
      }
      assert Listing(memory, vm.address) == [];
      assert lines + [] == lines;
    }
  }
}
