/** src/Debugger/index.mjs: the debugger is a VM with a breakpoint set, a running
    flag, the signal window and the process-map line. The source extends the VM
    class; here the debugger holds its VM. The event emitter, `step` and `run` are
    not part of the source shown: `Step` is taken to be one pass of the VM loop,
    and `Run` only records that a run was asked for. */
module Debugging {

  import opened Wrappers
  import opened Constants
  import opened HexFormat
  import opened Semantics
  import opened VirtualMachine

  /** `signalWindow`: milliseconds between two chances to process signals. */
  const SignalWindow: int := 1000

  /** The process-map line `load` writes for a program. */
  function Procmap(p: Program): (line: string)
    ensures |line| == 40 + |p.fqpath|
    ensures line[..9] == "00000000-" && line[17..40] == " rwxp 00000000 00:00 0 " && line[40..] == p.fqpath
  {
    "00000000-" + Hex32(|p.data|) + " rwxp 00000000 00:00 0 " + p.fqpath
  }

  /** The map ends at the image length: eight lower-case digits of its low 32 bits. */
  lemma ProcmapEnd(p: Program)
    ensures IsLowerHex(Procmap(p)[9..17]) && AllHex(Procmap(p)[9..17])
    ensures ParseHex(Procmap(p)[9..17]) == |p.data| % 0x1_0000_0000
  {
    var end := Hex32(|p.data|);
    assert Procmap(p)[9..17] == end;
    ParseFixed(|p.data|, 8);
    assert Pow16(8) == 0x1_0000_0000;
  }

  /** Whether `next` defers the step to process signals first. */
  predicate SignalDue(last: int, now: int) {
    now - last > SignalWindow
  }

  /** Two deferrals are more than a window apart: once `next` defers at `now` it
      steps directly until the window has passed again. */
  lemma SignalWindowSpacing(last: int, now: int, later: int)
    requires SignalDue(last, now) && now <= later <= now + SignalWindow
    ensures !SignalDue(now, later)
  {
  }

  class Debugger {
    const vm: VM
    /** Byte offsets (address times two) to stop at. */
    var breakpoints: set<nat>
    var running: bool
    var lastSignalWindow: int
    /** The process-map line last written, if any. */
    var procmap: Option<string>
    /** How many times `run` was asked for. */
    var runRequests: nat

    ghost predicate Valid()
      reads this, vm
    {
      vm.Valid()
    }

    /** A fresh VM, no breakpoints, not running, the window opened at `now`. */
    constructor (now: int)
      ensures Valid() && fresh(vm) && fresh(vm.memory)
      ensures vm.program == None && vm.memory.Length == 0 && vm.address == 0 && !vm.halted
      ensures breakpoints == {} && !running && lastSignalWindow == now
      ensures procmap == None && runRequests == 0
    {
      vm := new VM();
      breakpoints := {};
      running := false;
      lastSignalWindow := now;
      procmap := None;
      runRequests := 0;
    }

    /** `break`: the current byte offset is a breakpoint. */
    predicate Break()
      reads this, vm
    {
      vm.address * AddressSize in breakpoints
    }

    /** `interrupt()`: stop running. */
    method Interrupt()
      modifies this
      ensures !running
      ensures breakpoints == old(breakpoints) && lastSignalWindow == old(lastSignalWindow)
      ensures procmap == old(procmap) && runRequests == old(runRequests)
    {
      running := false;
    }

    /** The pre-step hook: on a breakpoint it interrupts and emits `break`
        (`broke`); otherwise it does nothing. */
    method PreStep() returns (broke: bool)
      modifies this
      ensures broke == old(Break())
      ensures running == (old(running) && !broke)
      ensures breakpoints == old(breakpoints) && lastSignalWindow == old(lastSignalWindow)
      ensures procmap == old(procmap) && runRequests == old(runRequests)
    {
      broke := Break();
      if broke {
        Interrupt();
      }
    }

    /** `next()` at time `now`: `deferred` when the step is put behind pending
        signals, which opens a new window. */
    method Next(now: int) returns (deferred: bool)
      modifies this
      ensures deferred == SignalDue(old(lastSignalWindow), now)
      ensures lastSignalWindow == if deferred then now else old(lastSignalWindow)
      ensures breakpoints == old(breakpoints) && running == old(running)
      ensures procmap == old(procmap) && runRequests == old(runRequests)
    {
      deferred := now - lastSignalWindow > SignalWindow;
      if deferred {
        lastSignalWindow := now;
      }
    }

    /** `load(program)`: the VM's load, then the process-map line. When the VM's
        load throws (an odd-length image) no line is written. */
    method Load(p: Program) returns (ok: bool)
      requires Valid()
      modifies this, vm
      ensures Valid() && fresh(vm.memory) && vm.memory[..] == Image(p.data)
      ensures ok <==> |p.data| % 2 == 0
      ensures procmap == if ok then Some(Procmap(p)) else old(procmap)
      ensures vm.address == old(vm.address) && vm.registers == old(vm.registers) && vm.stack == old(vm.stack)
      ensures vm.input == old(vm.input) && vm.output == old(vm.output) && vm.halted == old(vm.halted)
      ensures vm.program == old(vm.program)
      ensures breakpoints == old(breakpoints) && running == old(running)
      ensures lastSignalWindow == old(lastSignalWindow) && runRequests == old(runRequests)
    {
      ok := vm.Load(p.data);
      if ok {
        procmap := Some(Procmap(p));
      }
    }

    /** `load(this.program)`, as the `k` packet does: with no program loaded the
        source throws reading its data (`faulted`). */
    method Reload() returns (faulted: bool)
      requires Valid()
      modifies this, vm
      ensures Valid() && faulted == old(vm.program).None?
      ensures faulted ==> vm.memory == old(vm.memory) && procmap == old(procmap)
      ensures !faulted ==> fresh(vm.memory) && vm.memory[..] == Image(old(vm.program).value.data)
      ensures vm.address == old(vm.address) && vm.registers == old(vm.registers) && vm.stack == old(vm.stack)
      ensures !faulted ==> procmap == if |old(vm.program).value.data| % 2 == 0 then Some(Procmap(old(vm.program).value)) else old(procmap)
      ensures vm.halted == old(vm.halted) && vm.program == old(vm.program)
      ensures vm.input == old(vm.input) && vm.output == old(vm.output)
      ensures breakpoints == old(breakpoints) && running == old(running) && runRequests == old(runRequests)
      ensures lastSignalWindow == old(lastSignalWindow)
    {
      faulted := vm.program.None?;
      if !faulted {
        var _ := Load(vm.program.value);
      }
    }

    /** One pass of the VM loop, when the loop would make one. */
    method Step() returns (cycle: Option<Cycle>)
      requires Valid()
      modifies vm, vm.memory
      ensures Valid() && vm.memory == old(vm.memory) && vm.program == old(vm.program)
      ensures var m := old(vm.State());
              if m.address < |m.memory| && !m.halted
              then cycle == Some(RunCycle(m).cycle) && vm.State() == RunCycle(m).next
              else cycle == None && vm.State() == m
    {
      if vm.Eof() || vm.halted {
        return None;
      }
      var c := vm.Step();
      cycle := Some(c);
    }

    /** `run()`: asked for once more. */
    method Run()
      modifies this
      ensures runRequests == old(runRequests) + 1
      ensures breakpoints == old(breakpoints) && running == old(running)
      ensures lastSignalWindow == old(lastSignalWindow) && procmap == old(procmap)
    {
      runRequests := runRequests + 1;
    }
  }
}
