/** The instruction set: the `Operation` record (src/VM/operations/Operation.mjs),
    the 22 definitions of src/VM/operations/index.mjs, and the opcode lookup the VM
    and the disassembler use. */
module Operations {

  import opened Wrappers
  import opened Constants

  /** The operand kinds of src/constants.mjs. */
  datatype OperandKind = Value | Address | Char | Register

  /** Which `exec` an operation carries: one per definition, and `Nothing` for the
      default no-op of an omitted `exec`. */
  datatype Effect =
    | Halt | Set | Push | Pop | Eq | Gt | Jmp | Jt | Jf | Add | Mult | Mod
    | BitAnd | BitOr | BitNot | Rmem | Wmem | Call | Ret | Out | In
    | Nothing

  /** What a definition passed to `new Operation(...)` holds; omitted fields are `None`. */
  datatype Definition = Definition(opcode: nat, name: string, operands: Option<seq<OperandKind>>, exec: Option<Effect>)

  datatype Operation = Operation(opcode: nat, name: string, operands: seq<OperandKind>, exec: Effect)
  {
    /** The width of the instruction in words. */
    function Size(): (n: nat)
      ensures n >= 1
    {
      1 + |operands|
    }
  }

  /** The `Operation` constructor: copies the opcode and the name, and defaults an
      omitted operand list to none and an omitted `exec` to the no-op. */
  function MakeOperation(d: Definition): (op: Operation)
    ensures op.opcode == d.opcode && op.name == d.name
    ensures op.Size() == 1 + (if d.operands.Some? then |d.operands.value| else 0)
    ensures d.operands.None? ==> op.Size() == 1
    ensures d.operands.Some? ==> op.operands == d.operands.value
    ensures op.exec == (if d.exec.Some? then d.exec.value else Nothing)
  {
    Operation(d.opcode, d.name,
              if d.operands.Some? then d.operands.value else [],
              if d.exec.Some? then d.exec.value else Nothing)
  }

  const Definitions: seq<Definition> := [
    Definition(0, "halt", None, Some(Halt)),
    Definition(1, "set", Some([Register, Value]), Some(Set)),
    Definition(2, "push", Some([Value]), Some(Push)),
    Definition(3, "pop", Some([Register]), Some(Pop)),
    Definition(4, "eq", Some([Register, Value, Value]), Some(Eq)),
    Definition(5, "gt", Some([Register, Value, Value]), Some(Gt)),
    Definition(6, "jmp", Some([Address]), Some(Jmp)),
    Definition(7, "jt", Some([Value, Address]), Some(Jt)),
    Definition(8, "jf", Some([Value, Address]), Some(Jf)),
    Definition(9, "add", Some([Register, Value, Value]), Some(Add)),
    Definition(10, "mult", Some([Register, Value, Value]), Some(Mult)),
    Definition(11, "mod", Some([Register, Value, Value]), Some(Mod)),
    Definition(12, "and", Some([Register, Value, Value]), Some(BitAnd)),
    Definition(13, "or", Some([Register, Value, Value]), Some(BitOr)),
    Definition(14, "not", Some([Register, Value]), Some(BitNot)),
    Definition(15, "rmem", Some([Register, Address]), Some(Rmem)),
    Definition(16, "wmem", Some([Address, Value]), Some(Wmem)),
    Definition(17, "call", Some([Address]), Some(Call)),
    Definition(18, "ret", None, Some(Ret)),
    Definition(19, "out", Some([Char]), Some(Out)),
    Definition(20, "in", Some([Register]), Some(In)),
    Definition(21, "noop", None, None)
  ]

  /** The number of arguments an `exec` reads. */
  function Arity(e: Effect): nat {
    match e
    case Halt | Ret | Nothing => 0
    case Push | Pop | Jmp | Call | Out | In => 1
    case Set | Jt | Jf | BitNot | Rmem | Wmem => 2
    case Eq | Gt | Add | Mult | Mod | BitAnd | BitOr => 3
  }

  /** The operations, in opcode order. */
  function Table(): (t: seq<Operation>)
    ensures |t| == |Definitions|
    ensures forall i :: 0 <= i < |t| ==> t[i] == MakeOperation(Definitions[i])
  {
    seq(|Definitions|, i requires 0 <= i < |Definitions| => MakeOperation(Definitions[i]))
  }

  /** The Operand flags the lookup gives each operand kind (the lookup module is not
      part of this model): value-class kinds are DYNAMIC, a register target is REGISTER. */
  function Flags(k: OperandKind): bv8 {
    match k
    case Value => Dynamic | TypeNumber
    case Address => Dynamic | TypeAddress
    case Char => Dynamic | TypeChar
    case Register => RegisterFlags
  }

  function Find(ops: seq<Operation>, opcode: nat): (r: Option<Operation>)
    ensures r.Some? ==> r.value in ops && r.value.opcode == opcode
    ensures r.None? ==> forall i :: 0 <= i < |ops| ==> ops[i].opcode != opcode
  {
    if ops == [] then None
    else if ops[0].opcode == opcode then Some(ops[0])
    else Find(ops[1..], opcode)
  }

  /** `operations.get(opcode)`: the operation with that opcode, if any. The
      definitions are listed in opcode order, so the opcode is the position. */
  function Lookup(opcode: nat): (r: Option<Operation>)
    ensures r.Some? <==> opcode < 22
    ensures r.Some? ==> r.value.opcode == opcode
  {
    if opcode < |Definitions| then
      DefinitionsWellFormed(opcode);
      Some(MakeOperation(Definitions[opcode]))
    else None
  }

  /** The lookup by position agrees with a search of the table by opcode. */
  lemma LookupTable(opcode: nat)
    ensures Lookup(opcode) == Find(Table(), opcode)
  {
    var t := Table();
    forall i | 0 <= i < |t|
      ensures t[i].opcode == i
    {
      DefinitionsWellFormed(i);
    }
    FindPosition(t, opcode);
  }

  lemma {:induction false} FindPosition(ops: seq<Operation>, opcode: nat)
    requires forall i :: 0 <= i < |ops| ==> ops[i].opcode == i
    ensures opcode < |ops| ==> Find(ops, opcode) == Some(ops[opcode])
    ensures opcode >= |ops| ==> Find(ops, opcode) == None
  {
    if ops != [] && opcode != 0 {
      var rest := ops[1..];
      FindShifted(rest, opcode, 1);
    }
  }

  lemma {:induction false} FindShifted(ops: seq<Operation>, opcode: nat, base: nat)
    requires forall i :: 0 <= i < |ops| ==> ops[i].opcode == base + i
    requires opcode >= base
    ensures opcode - base < |ops| ==> Find(ops, opcode) == Some(ops[opcode - base])
    ensures opcode - base >= |ops| ==> Find(ops, opcode) == None
  {
    if ops != [] && opcode != base {
      FindShifted(ops[1..], opcode, base + 1);
    }
  }

  /** Every defined operation is given as many operands as its `exec` reads, so its
      width is 1 + that count; `noop` carries the default no-op. */
  lemma TableArity(opcode: nat)
    requires opcode < 22
    ensures Lookup(opcode).Some?
    ensures |Lookup(opcode).value.operands| == Arity(Lookup(opcode).value.exec)
    ensures Lookup(opcode).value.Size() == 1 + Arity(Lookup(opcode).value.exec)
    ensures opcode == 21 <==> Lookup(opcode).value.exec == Nothing
  {
    DefinitionsWellFormed(opcode);
    DefinitionArity(Definitions[opcode]);
  }

  /** A definition lists as many operands as its `exec` reads, and only the one
      without an `exec` is the no-op. */
  predicate WellFormed(d: Definition) {
    (if d.operands.Some? then |d.operands.value| else 0) == Arity(if d.exec.Some? then d.exec.value else Nothing)
    && (d.exec.None? <==> d.opcode == 21) && d.exec != Some(Nothing)
  }

  lemma DefinitionArity(d: Definition)
    requires WellFormed(d)
    ensures var op := MakeOperation(d);
            |op.operands| == Arity(op.exec) && (op.exec == Nothing <==> d.opcode == 21)
  {
  }

  /** Each of the 22 definitions is well formed, checked one position at a time. */
  lemma DefinitionsWellFormed(i: nat)
    requires i < |Definitions|
    ensures WellFormed(Definitions[i]) && Definitions[i].opcode == i
  {
    if i <= 5 { DefinitionsWellFormedA(i); }
    else if i <= 10 { DefinitionsWellFormedB(i); }
    else if i <= 15 { DefinitionsWellFormedC(i); }
    else { DefinitionsWellFormedD(i); }
  }

  lemma DefinitionsWellFormedA(i: nat)
    requires 0 <= i <= 5
    ensures WellFormed(Definitions[i]) && Definitions[i].opcode == i
  {
    var d := Definitions;
    if i == 0 { assert WellFormed(d[0]) && d[0].opcode == 0; }
    else if i == 1 { assert WellFormed(d[1]) && d[1].opcode == 1; }
    else if i == 2 { assert WellFormed(d[2]) && d[2].opcode == 2; }
    else if i == 3 { assert WellFormed(d[3]) && d[3].opcode == 3; }
    else if i == 4 { assert WellFormed(d[4]) && d[4].opcode == 4; }
    else { assert WellFormed(d[5]) && d[5].opcode == 5; }
  }

  lemma DefinitionsWellFormedB(i: nat)
    requires 6 <= i <= 10
    ensures WellFormed(Definitions[i]) && Definitions[i].opcode == i
  {
    var d := Definitions;
    if i == 6 { assert WellFormed(d[6]) && d[6].opcode == 6; }
    else if i == 7 { assert WellFormed(d[7]) && d[7].opcode == 7; }
    else if i == 8 { assert WellFormed(d[8]) && d[8].opcode == 8; }
    else if i == 9 { assert WellFormed(d[9]) && d[9].opcode == 9; }
    else { assert WellFormed(d[10]) && d[10].opcode == 10; }
  }

  lemma DefinitionsWellFormedC(i: nat)
    requires 11 <= i <= 15
    ensures WellFormed(Definitions[i]) && Definitions[i].opcode == i
  {
    var d := Definitions;
    if i == 11 { assert WellFormed(d[11]) && d[11].opcode == 11; }
    else if i == 12 { assert WellFormed(d[12]) && d[12].opcode == 12; }
    else if i == 13 { assert WellFormed(d[13]) && d[13].opcode == 13; }
    else if i == 14 { assert WellFormed(d[14]) && d[14].opcode == 14; }
    else { assert WellFormed(d[15]) && d[15].opcode == 15; }
  }

  lemma DefinitionsWellFormedD(i: nat)
    requires 16 <= i <= 21
    ensures WellFormed(Definitions[i]) && Definitions[i].opcode == i
  {
    var d := Definitions;
    if i == 16 { assert WellFormed(d[16]) && d[16].opcode == 16; }
    else if i == 17 { assert WellFormed(d[17]) && d[17].opcode == 17; }
    else if i == 18 { assert WellFormed(d[18]) && d[18].opcode == 18; }
    else if i == 19 { assert WellFormed(d[19]) && d[19].opcode == 19; }
    else if i == 20 { assert WellFormed(d[20]) && d[20].opcode == 20; }
    else { assert WellFormed(d[21]) && d[21].opcode == 21; }
  }

  /** Only the REGISTER flags survive the VM's mask `operand & Operand.REGISTER`. */
  lemma RegisterMask(k: OperandKind)
    ensures Flags(k) & RegisterFlags != 0 <==> k == Register
  {
  }
}
