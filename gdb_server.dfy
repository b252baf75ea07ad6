/** src/Debugger/gdb/GDBServer.mjs: the server keeps its connected clients, frames
    and checks each packet a client sends, acknowledges it, hands the payload to the
    first packet handler whose pattern matches, and sends debugger events to every
    client. Sockets are the clients' `sent` sequences; the server socket, logging
    and error events are not part of this model. */
module GdbServer {

  import opened Wrappers
  import opened HexFormat
  import opened GdbUtils
  import opened GdbClient
  import opened Debugging
  import opened PacketMatch
  import opened Packets
  import opened Constants
  import Semantics
  import VirtualMachine

  predicate IsSeparator(c: char) {
    c == '$' || c == '#'
  }

  /** `packet.split(/\$|#/)`: the pieces between separators, in order, empty ones
      included. */
  function Split(s: string): (parts: seq<string>)
    ensures |parts| >= 1
  {
    if s == [] then [""]
    else
      var rest := Split(s[1..]);
      if IsSeparator(s[0]) then [""] + rest else [[s[0]] + rest[0]] + rest[1..]
  }

  /** Text with no separator is one piece. */
  lemma {:induction false} SplitWhole(s: string)
    requires forall i :: 0 <= i < |s| ==> !IsSeparator(s[i])
    ensures Split(s) == [s]
  {
    if s != [] {
      SplitWhole(s[1..]);
      assert [s[0]] + s[1..] == s;
    }
  }

  /** A separator ends the first piece. */
  lemma {:induction false} SplitAt(s: string, c: char, t: string)
    requires forall i :: 0 <= i < |s| ==> !IsSeparator(s[i])
    requires IsSeparator(c)
    ensures Split(s + [c] + t) == [s] + Split(t)
  {
    if s == [] {
      assert [c] + t == s + [c] + t;
      assert (s + [c] + t)[1..] == t;
    } else {
      SplitAt(s[1..], c, t);
      assert (s + [c] + t)[1..] == s[1..] + [c] + t;
      assert [s[0]] + s[1..] == s;
    }
  }

  /** The payload the server acts on: the piece after the first separator, when it
      is non-empty and the piece after it is its checksum. */
  function Payload(packet: string): (r: Option<string>)
    ensures r.Some? ==> r.value != "" && |Split(packet)| >= 3 && r.value == Split(packet)[1] &&
                        Validate(r.value, Split(packet)[2])
  {
    var parts := Split(packet);
    if |parts| < 2 || parts[1] == "" then None
    else if |parts| < 3 || !Validate(parts[1], parts[2]) then None
    else Some(parts[1])
  }

  /** A packet "$data#checksum" with no separator inside either part splits into
      nothing, the data and the checksum. */
  lemma SplitPacket(data: string, checksum: string)
    requires forall i :: 0 <= i < |data| ==> !IsSeparator(data[i])
    requires forall i :: 0 <= i < |checksum| ==> !IsSeparator(checksum[i])
    ensures Split("$" + data + "#" + checksum) == ["", data, checksum]
  {
    var t := data + ['#'] + checksum;
    SplitWhole(checksum);
    SplitAt(data, '#', checksum);
    SplitAt([], '$', t);
    assert [] + ['$'] + t == "$" + data + "#" + checksum;
  }

  /** A framed reply splits into nothing, the payload and its checksum. */
  lemma SplitFrame(data: string)
    requires forall i :: 0 <= i < |data| ==> !IsSeparator(data[i])
    ensures Split(Frame(data)) == ["", data, Hash(data)]
  {
    var h := Hash(data);
    forall i | 0 <= i < |h|
      ensures !IsSeparator(h[i])
    {
      assert IsHexDigit(h[i]);
    }
    SplitPacket(data, h);
  }

  /** What the server accepts is what a client frames: a non-empty payload with no
      separator in it comes out of its frame unchanged. */
  lemma PayloadOfFrame(data: string)
    requires data != [] && forall i :: 0 <= i < |data| ==> !IsSeparator(data[i])
    ensures Payload(Frame(data)) == Some(data)
  {
    SplitFrame(data);
  }

  /** In particular every encoded non-empty text survives framing and checking. */
  lemma PayloadOfEncoded(text: string)
    requires text != []
    ensures Payload(Frame(Encode(text))) == Some(Encode(text))
  {
    EncodeHasNoFrameChars(text);
    PayloadOfFrame(Encode(text));
  }

  /** A packet whose checksum is off by anything is dropped. */
  lemma WrongChecksumDropped(data: string, checksum: string)
    requires forall i :: 0 <= i < |data| ==> !IsSeparator(data[i])
    requires forall i :: 0 <= i < |checksum| ==> !IsSeparator(checksum[i])
    requires checksum != Hash(data)
    ensures Payload("$" + data + "#" + checksum) == None
  {
    SplitPacket(data, checksum);
  }

  /** The for-of loop over the handlers: the first whose pattern matches. */
  method Dispatch(handlers: seq<Handler>, data: string) returns (req: Option<Request>)
    ensures req == FirstMatch(handlers, data)
  {
    var i := 0;
    while i < |handlers|
      invariant i <= |handlers| && FirstMatch(handlers, data) == FirstMatch(handlers[i..], data)
    {
      var m := Match(handlers[i], data);
      if m.Some? {
        return m;
      }
      assert handlers[i..][1..] == handlers[i + 1..];
      i := i + 1;
    }
    return None;
  }

  /** How the server took a packet. */
  datatype Receipt =
      /** It began with 0x03: acknowledged and handled as an interrupt. */
    | Interrupted
      /** No payload, or a checksum mismatch: nothing is sent. */
    | Ignored
      /** Acknowledged and dispatched to the request matched, if any. */
    | Accepted(data: string, request: Option<Request>)

  function Classify(packet: string): Receipt {
    if "\U{3}" <= packet then Interrupted
    else match Payload(packet)
      case None => Ignored
      case Some(data) => Accepted(data, FirstMatch(Order, data))
  }

  /** The requests whose handlers change the debugger. */
  predicate IsControl(req: Request) {
    req.Interrupt? || req.Kill? || req.Continue? || req.SingleStep? || req.ContinueWith? || req.Breakpoint?
  }

  /** What the handlers read and change: the VM's machine and program, the
      debugger's breakpoints, running flag, run requests, process-map line and
      signal window, and the client's acknowledgement setting. */
  datatype Session = Session(
    machine: Semantics.Machine, program: Option<VirtualMachine.Program>, breakpoints: set<nat>,
    running: bool, runRequests: nat, procmap: Option<string>, lastSignalWindow: int, useAcks: bool)

  /** What one handler does: the session after it, the strings it sends and how
      it ends. */
  datatype Handling = Handling(next: Session, replies: seq<string>, outcome: Outcome)

  /** `dbg.break` on a session. */
  predicate AtBreakpoint(s: Session) {
    s.machine.address * AddressSize in s.breakpoints
  }

  /** `\x03`: stop running and report the trap. */
  function InterruptEffect(s: Session): Handling {
    Handling(s.(running := false), [Frame(TrapStop())], Handled)
  }

  /** `k`: the program's image replaces memory and the process-map line is
      rewritten when the load completes; with no program the handler throws. */
  function KillEffect(s: Session): Handling {
    match s.program
    case None => Handling(s, [], Faulted)
    case Some(p) =>
      var procmap := if |p.data| % 2 == 0 then Some(Procmap(p)) else s.procmap;
      Handling(s.(machine := s.machine.(memory := VirtualMachine.Image(p.data)), procmap := procmap), [], Handled)
  }

  /** `c` and `vCont;c`: one more run request, no reply. */
  function RunEffect(s: Session): Handling {
    Handling(s.(runRequests := s.runRequests + 1), [], Handled)
  }

  /** The step of `s` and `vCont;s`: one pass of the VM loop when the loop would
      make one, then the trap reply unless the new address is a breakpoint. */
  function StepEffect(s: Session): Handling
    requires s.machine.Valid()
  {
    var m := s.machine;
    var after := s.(machine := if m.address < |m.memory| && !m.halted then Semantics.RunCycle(m).next else m);
    Handling(after, if AtBreakpoint(after) then [] else [Frame(TrapStop())], Handled)
  }

  /** `vCont;<action>`: continue or step while stopped, otherwise the empty reply. */
  function ContinueWithEffect(s: Session, action: char): Handling
    requires s.machine.Valid()
  {
    if action == 'c' && !s.running then RunEffect(s)
    else if action == 's' && !s.running then StepEffect(s)
    else Handling(s, [Frame("")], Handled)
  }

  /** `Z` and `z`: the breakpoint set or cleared, then OK. */
  function ToggleEffect(s: Session, insert: bool, addr: nat): Handling {
    Handling(s.(breakpoints := Toggle(s.breakpoints, insert, addr)), ["$OK#9a"], Handled)
  }

  /** The handlers that change the debugger. */
  function ControlEffect(req: Request, s: Session): Handling
    requires IsControl(req) && s.machine.Valid()
  {
    match req
    case Interrupt => InterruptEffect(s)
    case Kill => KillEffect(s)
    case Continue => RunEffect(s)
    case SingleStep => StepEffect(s)
    case ContinueWith(action) => ContinueWithEffect(s, action)
    case Breakpoint(insert, addr) => ToggleEffect(s, insert, addr)
  }

  /** `?`: the stop reason. */
  function StatusEffect(s: Session): Handling {
    Handling(s, [Frame(StatusReply(s.machine.halted, AtBreakpoint(s)))], Handled)
  }

  /** `g`: all register slots. */
  function RegistersEffect(s: Session): Handling {
    var m := s.machine;
    Handling(s, [Frame(Hexes(RegisterSlots(m.registers, m.address, |m.memory|)))], Handled)
  }

  /** `m`: the memory reply, when there is one. */
  function MemoryEffect(s: Session, offset: nat, length: nat): Handling {
    var sent := match MemoryReply(s.machine.memory, offset, length) case None => [] case Some(r) => [Frame(r)];
    Handling(s, sent, Handled)
  }

  /** `p`: one register slot. */
  function RegisterEffect(s: Session, regnum: nat): Handling {
    var m := s.machine;
    Handling(s, [Frame(RegisterReply(regnum, m.registers, m.address, |m.memory|))], Handled)
  }

  /** `QStartNoAckMode`: OK, then no more acknowledgements. */
  function NoAckEffect(s: Session): Handling {
    Handling(s.(useAcks := false), ["$OK#9a"], Handled)
  }

  /** `qXfer:exec-file:read`: the source's slice of the program path; the
      handler throws reading the path of a missing program. */
  function ExecFileEffect(s: Session, annex: string, offset: nat, length: nat): Handling {
    if !AnnexIsThread(annex) then Handling(s, [Frame("E00")], Handled)
    else if s.program.None? then Handling(s, [], Faulted)
    else Handling(s, [Frame(ExecFileReplyAsWritten(annex, offset, length, s.program.value.fqpath))], Handled)
  }

  /** `qXfer:features:read`: the source's slice of the stripped description. */
  function FeaturesEffect(s: Session, annex: string, offset: nat, length: nat, xml: string): Handling {
    Handling(s, [Frame(FeaturesReplyAsWritten(annex, offset, length, xml))], Handled)
  }

  /** The handlers that compute a reply from the request and the debugger's
      state; `target.xml` has the text `xml`. */
  function ReadEffect(req: Request, s: Session, xml: string): Handling
    requires !IsControl(req) && ConstantReply(req).None?
  {
    match req
    case Status => StatusEffect(s)
    case ReadRegisters => RegistersEffect(s)
    case ReadMemory(offset, length) => MemoryEffect(s, offset, length)
    case ReadRegister(regnum) => RegisterEffect(s, regnum)
    case StartNoAckMode => NoAckEffect(s)
    case ExecFileRead(annex, offset, length) => ExecFileEffect(s, annex, offset, length)
    case FeaturesRead(annex, offset, length) => FeaturesEffect(s, annex, offset, length, xml)
    case _ => Handling(s, [], NotModelled)
  }

  /** The handlers that only reply. */
  function QueryEffect(req: Request, s: Session, xml: string): Handling
    requires !IsControl(req)
  {
    if ConstantReply(req).Some? then Handling(s, [Frame(ConstantReply(req).value)], Handled)
    else ReadEffect(req, s, xml)
  }

  /** The matched request's handler. */
  function Effect(req: Request, s: Session, xml: string): Handling
    requires s.machine.Valid()
  {
    if IsControl(req) then ControlEffect(req, s) else QueryEffect(req, s, xml)
  }

  /** A request that only replies leaves the debugger as it was; `QStartNoAckMode`
      turns acknowledgements off and nothing else. */
  lemma QueriesKeepDebugger(req: Request, s: Session, xml: string)
    requires !IsControl(req) && s.machine.Valid()
    ensures Effect(req, s, xml).next == if req.StartNoAckMode? then s.(useAcks := false) else s
  {
  }

  /** The debugger's requests never touch acknowledgements or the program, and
      only `k` and a step change memory. */
  lemma ControlKeepsSettings(req: Request, s: Session)
    requires IsControl(req) && s.machine.Valid()
    ensures var next := Effect(req, s, "").next;
            next.useAcks == s.useAcks && next.program == s.program &&
            next.lastSignalWindow == s.lastSignalWindow &&
            (next.machine.memory != s.machine.memory ==> req.Kill? || req.SingleStep? || req.ContinueWith?)
  {
  }

  /** A request that changes the debugger is answered by at most one packet; it
      faults exactly when `k` finds no program, and then sends and changes
      nothing. */
  lemma ControlOutcomes(req: Request, s: Session)
    requires IsControl(req) && s.machine.Valid()
    ensures var h := ControlEffect(req, s);
            |h.replies| <= 1 && h.outcome != NotModelled &&
            (h.outcome == Faulted <==> s.program.None? && req.Kill?) &&
            (h.outcome == Faulted ==> h.next == s && h.replies == [])
  {
  }

  /** A request answered from the debugger's state gets at most one packet; only
      the `vFile` handlers on the host's files are not modelled, and a fault, which
      happens exactly when a thread-1 exec-file read finds no program, sends and
      changes nothing. */
  lemma ReadOutcomes(req: Request, s: Session, xml: string)
    requires !IsControl(req) && ConstantReply(req).None? && s.machine.Valid()
    ensures var h := ReadEffect(req, s, xml);
            |h.replies| <= 1 &&
            (h.outcome == NotModelled <==> req.FileClose? || req.FileOpen? || req.FileRead?) &&
            (h.outcome == Faulted <==> s.program.None? && req.ExecFileRead? && AnnexIsThread(req.annex)) &&
            (h.outcome != Handled ==> h.next == s && h.replies == [])
  {
  }

  /** A request with a constant reply sends it and changes nothing. */
  lemma ConstantEffect(req: Request, s: Session, xml: string)
    requires ConstantReply(req).Some? && s.machine.Valid()
    ensures Effect(req, s, xml) == Handling(s, [Frame(ConstantReply(req).value)], Handled)
  {
    assert !IsControl(req);
    assert QueryEffect(req, s, xml) == Handling(s, [Frame(ConstantReply(req).value)], Handled);
  }

  /** `Z` adds its breakpoint and `z` removes it, both answer OK, and sending the
      same request again changes nothing more. */
  lemma BreakpointToggles(insert: bool, addr: nat, s: Session, xml: string)
    requires s.machine.Valid()
    ensures var h := Effect(Breakpoint(insert, addr), s, xml);
            (addr in h.next.breakpoints <==> insert) && h.replies == [Frame("OK")] &&
            Effect(Breakpoint(insert, addr), h.next, xml).next == h.next
  {
    FrameOfOk();
  }

  /** A step that the loop can make runs one pass; at a breakpoint no trap reply
      is sent, since the `break` event reports it. */
  lemma StepEffectRuns(s: Session, xml: string)
    requires s.machine.Valid() && s.machine.address < |s.machine.memory| && !s.machine.halted
    ensures var h := Effect(SingleStep, s, xml);
            h.next.machine == Semantics.RunCycle(s.machine).next &&
            h.next.(machine := s.machine) == s &&
            (h.replies == [] <==> Semantics.RunCycle(s.machine).next.address * AddressSize in s.breakpoints)
  {
    assert Effect(SingleStep, s, xml) == StepEffect(s);
  }

  /** What `ack()` sends. */
  function AckSent(useAcks: bool): seq<string> {
    if useAcks then ["+"] else []
  }

  class Server {
    const dbg: Debugger
    var clients: set<Client>
    /** The text of target.xml, which the features handler reads from disk. */
    const targetXml: string

    /** A server for `dbg`, with no client yet. */
    constructor (dbg: Debugger, targetXml: string)
      ensures this.dbg == dbg && this.targetXml == targetXml && clients == {}
    {
      this.dbg := dbg;
      this.targetXml := targetXml;
      clients := {};
    }

    /** A socket connects: its client joins the set. */
    method Connect() returns (client: Client)
      modifies this
      ensures fresh(client) && client.useAcks && client.sent == []
      ensures clients == old(clients) + {client}
    {
      client := new Client();
      clients := clients + {client};
    }

    /** The socket's `end`: the client leaves the set. */
    method Disconnect(client: Client)
      modifies this
      ensures clients == old(clients) - {client}
    {
      clients := clients - {client};
    }

    /** `reply(msg)`: the framed message to every connected client. */
    method Broadcast(msg: string)
      modifies clients
      ensures forall c :: c in clients ==> c.sent == old(c.sent) + [Frame(msg)] && c.useAcks == old(c.useAcks)
    {
      var pending := clients;
      while pending != {}
        invariant pending <= clients
        invariant forall c :: c in clients && c !in pending ==>
                    c.sent == old(c.sent) + [Frame(msg)] && c.useAcks == old(c.useAcks)
        invariant forall c :: c in pending ==> c.sent == old(c.sent) && c.useAcks == old(c.useAcks)
        decreases |pending|
      {
        var c :| c in pending;
        c.Reply(msg);
        pending := pending - {c};
      }
    }

    /** The debugger's `break` event: every client hears the trap. */
    method OnBreak()
      modifies clients
      ensures forall c :: c in clients ==> c.sent == old(c.sent) + [Frame("T05")] && c.useAcks == old(c.useAcks)
    {
      Broadcast(TrapStop());
    }

    /** The `halt` event: every client hears that the program terminated. */
    method OnHalt()
      modifies clients
      ensures forall c :: c in clients ==> c.sent == old(c.sent) + [Frame("X0f")] && c.useAcks == old(c.useAcks)
    {
      Broadcast(ExitStop());
    }

    /** The server's view of `client` and the debugger. */
    ghost function SessionOf(client: Client): Session
      reads client, dbg, dbg.vm, dbg.vm.memory
    {
      Session(dbg.vm.State(), dbg.vm.program, dbg.breakpoints, dbg.running, dbg.runRequests,
              dbg.procmap, dbg.lastSignalWindow, client.useAcks)
    }

    /** The handler of a matched request: it does what `Effect` says. */
    method Process(client: Client, req: Request) returns (outcome: Outcome)
      requires dbg.Valid()
      modifies client, dbg, dbg.vm, dbg.vm.memory
      ensures dbg.Valid()
      ensures var h := Effect(req, old(SessionOf(client)), targetXml);
              SessionOf(client) == h.next && client.sent == old(client.sent) + h.replies && outcome == h.outcome
    {
      if IsControl(req) {
        outcome := ProcessControl(client, req);
      } else {
        outcome := ProcessQuery(client, req);
      }
    }

    /** The handlers that change the debugger: interrupt, kill, continue, step and
        breakpoints. */
    method ProcessControl(client: Client, req: Request) returns (outcome: Outcome)
      requires dbg.Valid() && IsControl(req)
      modifies client, dbg, dbg.vm, dbg.vm.memory
      ensures dbg.Valid()
      ensures var h := ControlEffect(req, old(SessionOf(client)));
              SessionOf(client) == h.next && client.sent == old(client.sent) + h.replies && outcome == h.outcome
    {
      if req.Kill? {
        outcome := ProcessKill(client);
      } else if req.SingleStep? || req.ContinueWith? {
        outcome := ProcessStep(client, req);
      } else {
        outcome := ProcessFlags(client, req);
      }
    }

    /** `k`. */
    method ProcessKill(client: Client) returns (outcome: Outcome)
      requires dbg.Valid()
      modifies dbg, dbg.vm
      ensures dbg.Valid()
      ensures var h := KillEffect(old(SessionOf(client)));
              SessionOf(client) == h.next && client.sent == old(client.sent) + h.replies && outcome == h.outcome
    {
      var faulted := KillProcess(dbg);
      outcome := if faulted then Faulted else Handled;
    }

    /** `s` and `vCont`. */
    method ProcessStep(client: Client, req: Request) returns (outcome: Outcome)
      requires dbg.Valid() && (req.SingleStep? || req.ContinueWith?)
      modifies client, dbg, dbg.vm, dbg.vm.memory
      ensures dbg.Valid()
      ensures var h := ControlEffect(req, old(SessionOf(client)));
              SessionOf(client) == h.next && client.sent == old(client.sent) + h.replies && outcome == h.outcome
    {
      outcome := Handled;
      if req.SingleStep? {
        ProcessSingleStep(client);
      } else {
        ProcessContinueWith(client, req.action);
      }
    }

    /** `s`. */
    method ProcessSingleStep(client: Client)
      requires dbg.Valid()
      modifies client, dbg.vm, dbg.vm.memory
      ensures dbg.Valid()
      ensures var h := StepEffect(old(SessionOf(client)));
              SessionOf(client) == h.next && client.sent == old(client.sent) + h.replies
    {
      var _ := SingleStepProcess(client, dbg);
    }

    /** `vCont;<action>`. */
    method ProcessContinueWith(client: Client, action: char)
      requires dbg.Valid()
      modifies client, dbg, dbg.vm, dbg.vm.memory
      ensures dbg.Valid()
      ensures var h := ContinueWithEffect(old(SessionOf(client)), action);
              SessionOf(client) == h.next && client.sent == old(client.sent) + h.replies
    {
      ghost var s := SessionOf(client);
      var _ := ContinueWithProcess(client, dbg, action);
      if action == 'c' && !s.running {
        assert SessionOf(client) == s.(runRequests := s.runRequests + 1);
      } else if action == 's' && !s.running {
        assert ContinueWithEffect(s, action) == StepEffect(s);
      } else {
        assert SessionOf(client) == s;
      }
    }

    /** `\x03`, `c`, `Z` and `z`: the debugger's flags and breakpoints. */
    method ProcessFlags(client: Client, req: Request) returns (outcome: Outcome)
      requires dbg.Valid() && (req.Interrupt? || req.Continue? || req.Breakpoint?)
      modifies client, dbg
      ensures dbg.Valid()
      ensures var h := ControlEffect(req, old(SessionOf(client)));
              SessionOf(client) == h.next && client.sent == old(client.sent) + h.replies && outcome == h.outcome
    {
      ghost var s := SessionOf(client);
      outcome := Handled;
      match req {
        case Interrupt =>
          InterruptProcess(client, dbg);
          assert SessionOf(client) == s.(running := false);
        case Continue =>
          ContinueProcess(dbg);
          assert SessionOf(client) == s.(runRequests := s.runRequests + 1);
        case Breakpoint(insert, addr) =>
          BreakpointProcess(client, dbg, insert, addr);
          assert SessionOf(client) == s.(breakpoints := Toggle(s.breakpoints, insert, addr));
      }
    }

    /** The handlers that only read the debugger and reply. */
    method ProcessQuery(client: Client, req: Request) returns (outcome: Outcome)
      requires dbg.Valid() && !IsControl(req)
      modifies client
      ensures var h := QueryEffect(req, old(SessionOf(client)), targetXml);
              SessionOf(client) == h.next && client.sent == old(client.sent) + h.replies && outcome == h.outcome
    {
      if ConstantReply(req).Some? {
        ConstantProcess(client, req);
        outcome := Handled;
      } else {
        outcome := ProcessRead(client, req);
      }
    }

    /** The replies computed from the debugger's state or the request's fields. */
    method ProcessRead(client: Client, req: Request) returns (outcome: Outcome)
      requires dbg.Valid() && !IsControl(req) && ConstantReply(req).None?
      modifies client
      ensures var h := ReadEffect(req, old(SessionOf(client)), targetXml);
              SessionOf(client) == h.next && client.sent == old(client.sent) + h.replies && outcome == h.outcome
    {
      if req.Status? || req.ReadRegisters? || req.ReadMemory? || req.ReadRegister? {
        ProcessState(client, req);
        outcome := Handled;
      } else if req.ExecFileRead? || req.FeaturesRead? {
        outcome := ProcessTransfer(client, req);
      } else if req.StartNoAckMode? {
        StartNoAckModeProcess(client);
        outcome := Handled;
      } else {
        outcome := NotModelled;
      }
    }

    /** `?`, `g`, `m` and `p`: replies made from the VM's state. */
    method ProcessState(client: Client, req: Request)
      requires dbg.Valid() && (req.Status? || req.ReadRegisters? || req.ReadMemory? || req.ReadRegister?)
      modifies client
      ensures var h := ReadEffect(req, old(SessionOf(client)), targetXml);
              SessionOf(client) == h.next && client.sent == old(client.sent) + h.replies && h.outcome == Handled
    {
      ghost var s := SessionOf(client);
      if req.Status? {
        assert ReadEffect(req, s, targetXml) == StatusEffect(s);
        ProcessStatus(client);
      } else if req.ReadRegisters? {
        assert ReadEffect(req, s, targetXml) == RegistersEffect(s);
        ProcessRegisters(client);
      } else if req.ReadMemory? {
        assert ReadEffect(req, s, targetXml) == MemoryEffect(s, req.offset, req.length);
        ProcessMemory(client, req.offset, req.length);
      } else {
        assert ReadEffect(req, s, targetXml) == RegisterEffect(s, req.regnum);
        ProcessRegister(client, req.regnum);
      }
    }

    /** `?`. */
    method ProcessStatus(client: Client)
      requires dbg.Valid()
      modifies client
      ensures var h := StatusEffect(old(SessionOf(client)));
              SessionOf(client) == h.next && client.sent == old(client.sent) + h.replies
    {
      ghost var s := SessionOf(client);
      StatusProcess(client, dbg);
      assert SessionOf(client) == s;
    }

    /** `g`. */
    method ProcessRegisters(client: Client)
      requires dbg.Valid()
      modifies client
      ensures var h := RegistersEffect(old(SessionOf(client)));
              SessionOf(client) == h.next && client.sent == old(client.sent) + h.replies
    {
      ReadRegistersProcess(client, dbg);
    }

    /** `m`. */
    method ProcessMemory(client: Client, offset: nat, length: nat)
      requires dbg.Valid()
      modifies client
      ensures var h := MemoryEffect(old(SessionOf(client)), offset, length);
              SessionOf(client) == h.next && client.sent == old(client.sent) + h.replies
    {
      var _ := ReadMemoryProcess(client, dbg, offset, length);
    }

    /** `p`. */
    method ProcessRegister(client: Client, regnum: nat)
      requires dbg.Valid()
      modifies client
      ensures var h := RegisterEffect(old(SessionOf(client)), regnum);
              SessionOf(client) == h.next && client.sent == old(client.sent) + h.replies
    {
      ReadRegisterProcess(client, dbg, regnum);
    }

    /** The two `qXfer` reads. */
    method ProcessTransfer(client: Client, req: Request) returns (outcome: Outcome)
      requires dbg.Valid() && (req.ExecFileRead? || req.FeaturesRead?)
      modifies client
      ensures var h := ReadEffect(req, old(SessionOf(client)), targetXml);
              SessionOf(client) == h.next && client.sent == old(client.sent) + h.replies && outcome == h.outcome
    {
      ghost var s := SessionOf(client);
      if req.ExecFileRead? {
        assert ReadEffect(req, s, targetXml) == ExecFileEffect(s, req.annex, req.offset, req.length);
        outcome := ProcessExecFile(client, req.annex, req.offset, req.length);
      } else {
        assert ReadEffect(req, s, targetXml) == FeaturesEffect(s, req.annex, req.offset, req.length, targetXml);
        ProcessFeatures(client, req.annex, req.offset, req.length);
        outcome := Handled;
      }
    }

    /** `qXfer:exec-file:read`. */
    method ProcessExecFile(client: Client, annex: string, offset: nat, length: nat) returns (outcome: Outcome)
      requires dbg.Valid()
      modifies client
      ensures var h := ExecFileEffect(old(SessionOf(client)), annex, offset, length);
              SessionOf(client) == h.next && client.sent == old(client.sent) + h.replies && outcome == h.outcome
    {
      var faulted := ExecFileReadProcess(client, dbg, annex, offset, length);
      outcome := if faulted then Faulted else Handled;
    }

    /** `qXfer:features:read`. */
    method ProcessFeatures(client: Client, annex: string, offset: nat, length: nat)
      requires dbg.Valid()
      modifies client
      ensures var h := FeaturesEffect(old(SessionOf(client)), annex, offset, length, targetXml);
              SessionOf(client) == h.next && client.sent == old(client.sent) + h.replies
    {
      FeaturesReadProcess(client, annex, offset, length, targetXml);
    }

    /** The socket's `data` event for one packet: an interrupt byte is acked and
        handled at once; a packet that frames a payload with its checksum is acked
        and its first matching request handled as `Effect` says; anything else is
        dropped. */
    method Receive(client: Client, packet: string) returns (receipt: Receipt, outcome: Outcome)
      requires dbg.Valid()
      modifies client, dbg, dbg.vm, dbg.vm.memory
      ensures dbg.Valid() && receipt == Classify(packet)
      ensures receipt.Interrupted? ==>
                var h := Effect(Interrupt, old(SessionOf(client)), targetXml);
                SessionOf(client) == h.next && outcome == Handled &&
                client.sent == old(client.sent) + AckSent(old(client.useAcks)) + h.replies
      ensures receipt.Ignored? ==>
                SessionOf(client) == old(SessionOf(client)) && client.sent == old(client.sent) && outcome == Handled
      ensures receipt.Accepted? && receipt.request == None ==>
                SessionOf(client) == old(SessionOf(client)) && outcome == Handled &&
                client.sent == old(client.sent) + AckSent(old(client.useAcks))
      ensures receipt.Accepted? && receipt.request.Some? ==>
                var h := Effect(receipt.request.value, old(SessionOf(client)), targetXml);
                SessionOf(client) == h.next && outcome == h.outcome &&
                client.sent == old(client.sent) + AckSent(old(client.useAcks)) + h.replies
    {
      if "\U{3}" <= packet {
        AckAndInterrupt(client);
        return Interrupted, Handled;
      }
      var payload := Payload(packet);
      if payload.None? {
        return Ignored, Handled;
      }
      var req := Dispatch(Order, payload.value);
      receipt := Accepted(payload.value, req);
      outcome := AckAndProcess(client, req);
    }

    /** The interrupt byte: `ack()`, then the interrupt handler. */
    method AckAndInterrupt(client: Client)
      requires dbg.Valid()
      modifies client, dbg
      ensures dbg.Valid()
      ensures var h := InterruptEffect(old(SessionOf(client)));
              SessionOf(client) == h.next && client.sent == old(client.sent) + AckSent(old(client.useAcks)) + h.replies
    {
      ghost var before := SessionOf(client);
      client.Ack();
      assert SessionOf(client) == before;
      InterruptProcess(client, dbg);
      assert SessionOf(client) == before.(running := false);
    }

    /** A well-framed packet: `ack()`, then the matched request's handler. */
    method AckAndProcess(client: Client, req: Option<Request>) returns (outcome: Outcome)
      requires dbg.Valid()
      modifies client, dbg, dbg.vm, dbg.vm.memory
      ensures dbg.Valid()
      ensures req.None? ==>
                SessionOf(client) == old(SessionOf(client)) && outcome == Handled &&
                client.sent == old(client.sent) + AckSent(old(client.useAcks))
      ensures req.Some? ==>
                var h := Effect(req.value, old(SessionOf(client)), targetXml);
                SessionOf(client) == h.next && outcome == h.outcome &&
                client.sent == old(client.sent) + AckSent(old(client.useAcks)) + h.replies
    {
      ghost var before := SessionOf(client);
      client.Ack();
      assert SessionOf(client) == before;
      outcome := Handled;
      if req.Some? {
        outcome := Process(client, req.value);
      }
    }
  }
}
