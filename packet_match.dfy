/** The `match` patterns of src/Debugger/gdb/packets.mjs, the request each one
    captures, and the order in which src/Debugger/gdb/GDBServer.mjs tries them.

    The patterns are ECMAScript regular expressions anchored with `^`. Under the
    flag `i` an ASCII letter matches either case, and no other character matches
    an ASCII letter (section 22.2.2.7.3 of ECMA-262, Canonicalize). `.` matches
    any character but a line terminator. `parseInt` of a run of hexadecimal digits
    is exact here; the source's floating point loses precision past 2^53. */
module PacketMatch {

  import opened Wrappers
  import opened HexFormat

  /** A received command with what its pattern captured. */
  datatype Request =
    | Detach
    | SetThread
    | StartNoAckMode
    | ThreadAlive
    | Breakpoint(insert: bool, addr: nat)
    | Continue
    | ReadRegisters
    | Interrupt
    | Kill
    | ReadMemory(offset: nat, length: nat)
    | ReadRegister(regnum: nat)
    | Attached
    | CurrentThread
    | Supported
    | Tracepoints
    | ExecFileRead(annex: string, offset: nat, length: nat)
    | FeaturesRead(annex: string, offset: nat, length: nat)
    | FirstThreadInfo
    | NextThreadInfo
    | SingleStep
    | Status
    | ContinueWith(action: char)
    | FileClose
    | FileOpen
    | FileRead
    | SetFs(pid: nat)
    | OtherV

  /** The exports of packets.mjs, by name. */
  datatype Handler =
    | D | H | QStartNoAckMode | T | Z | C | G | InterruptH | K | M | P
    | QAttached | QC | QSupported | QT | QXferExecFileRead | QXferFeaturesRead
    | QfThreadInfo | QsThreadInfo | S | StatusH | VCont | VFileClose | VFileOpen
    | VFileRead | VFileSetfs | VZZZ

  /** `Object.values(packets)`: a module namespace lists its exports sorted by
      code unit (section 10.4.6 of ECMA-262), which puts the catch-all `vZZZ` last. */
  const Order: seq<Handler> :=
    [D, H, QStartNoAckMode, T, Z, C, G, InterruptH, K, M, P,
     QAttached, QC, QSupported, QT, QXferExecFileRead, QXferFeaturesRead,
     QfThreadInfo, QsThreadInfo, S, StatusH, VCont, VFileClose, VFileOpen,
     VFileRead, VFileSetfs, VZZZ]

  predicate IsLineTerminator(c: char) {
    c == '\n' || c == '\r' || c == '\U{2028}' || c == '\U{2029}'
  }

  /** The case folding of flag `i`, which only relates ASCII letters. */
  function FoldCase(c: char): char {
    if 'A' <= c <= 'Z' then (c as int + 32) as char else c
  }

  /** `s` starts with `lit` up to the case of ASCII letters. */
  predicate StartsWithFolded(s: string, lit: string) {
    |lit| <= |s| && forall k :: 0 <= k < |lit| ==> FoldCase(s[k]) == FoldCase(lit[k])
  }

  /** The length of the longest run of `[a-f\d]` (flag `i`) starting at `i`. */
  function HexRun(s: string, i: nat): (n: nat)
    requires i <= |s|
    ensures i + n <= |s| && AllHex(s[i..i + n])
    ensures i + n < |s| ==> !IsHexDigit(s[i + n])
    decreases |s| - i
  {
    if i == |s| || !IsHexDigit(s[i]) then 0
    else
      var n := 1 + HexRun(s, i + 1);
      assert s[i..i + n] == [s[i]] + s[i + 1..i + n];
      n
  }

  /** The length of the longest run of decimal digits starting at `i`. */
  function DigitRun(s: string, i: nat): (n: nat)
    requires i <= |s|
    ensures i + n <= |s| && AllDecimal(s[i..i + n])
    ensures i + n < |s| ==> !IsDecimalDigit(s[i + n])
    decreases |s| - i
  {
    if i == |s| || !IsDecimalDigit(s[i]) then 0
    else
      var n := 1 + DigitRun(s, i + 1);
      assert s[i..i + n] == [s[i]] + s[i + 1..i + n];
      n
  }

  /** A maximal digit run is the only one the rest of a pattern can follow when that
      rest starts with a character that is not a digit, and the only one a greedy
      run at the end of a pattern takes: a run of `[a-f\d]+` at `i`, with its value
      and the position after it. */
  function HexAt(s: string, i: nat): (r: Option<(nat, nat)>)
    requires i <= |s|
    ensures r.Some? ==> i < r.value.1 <= |s|
  {
    var n := HexRun(s, i);
    if n == 0 then None else Some((ParseHex(s[i..i + n]), i + n))
  }

  /** `([a-f\d]+),([a-f\d]+)` at `i`: both values. */
  function HexPairAt(s: string, i: nat): (r: Option<(nat, nat)>)
    requires i <= |s|
  {
    match HexAt(s, i)
    case None => None
    case Some((first, j)) =>
      if j < |s| && s[j] == ',' then
        match HexAt(s, j + 1)
        case None => None
        case Some((second, _)) => Some((first, second))
      else None
  }

  /** `(.*?):([a-f\d]+),([a-f\d]+)` at `p` (`(.+?)` starts at `k` = 1): the lazy
      annex grows one character at a time, never over a line terminator, and the
      first length at which the rest matches wins. `k` is the annex length tried. */
  function LazyAnnex(s: string, p: nat, k: nat): (r: Option<(string, nat, nat)>)
    requires p + k <= |s|
    requires forall j :: p <= j < p + k ==> !IsLineTerminator(s[j])
    ensures r.Some? ==> k <= |r.value.0|
    ensures r.Some? ==> forall j :: 0 <= j < |r.value.0| ==> !IsLineTerminator(r.value.0[j])
    decreases |s| - p - k
  {
    if p + k == |s| then None
    else if s[p + k] == ':' && HexPairAt(s, p + k + 1).Some? then
      var (offset, length) := HexPairAt(s, p + k + 1).value;
      Some((s[p..p + k], offset, length))
    else if IsLineTerminator(s[p + k]) then None
    else LazyAnnex(s, p, k + 1)
  }

  /** `^qXfer:<object>:read:(.*?):([a-f\d]+),([a-f\d]+)` with flag `i`, or with
      `(.+?)` when `least` is 1. */
  function XferRead(data: string, prefix: string, least: nat): (r: Option<(string, nat, nat)>)
    requires least <= 1
    ensures r.Some? ==> least <= |r.value.0|
  {
    if !StartsWithFolded(data, prefix) || |prefix| + least > |data| then None
    else if least == 1 && IsLineTerminator(data[|prefix|]) then None
    else LazyAnnex(data, |prefix|, least)
  }

  /** `^(Z)(\d),([a-f\d]+),([a-f\d]+)` with flag `i`: insert for 'Z', remove for
      'z', and the address (the kind digit and the length are not used). */
  function MatchBreakpoint(data: string): Option<Request> {
    if |data| >= 3 && FoldCase(data[0]) == 'z' && IsDecimalDigit(data[1]) && data[2] == ',' then
      match HexPairAt(data, 3)
      case None => None
      case Some((addr, _)) => Some(Breakpoint(data[0] == 'Z', addr))
    else None
  }

  /** `^m([a-f\d]+),([a-f\d]+)` with flag `i`. */
  function MatchMemory(data: string): Option<Request> {
    if |data| >= 1 && FoldCase(data[0]) == 'm' then
      match HexPairAt(data, 1)
      case None => None
      case Some((offset, length)) => Some(ReadMemory(offset, length))
    else None
  }

  /** `^p([a-f\d]+)` with flag `i`. */
  function MatchRegister(data: string): Option<Request> {
    if |data| >= 1 && FoldCase(data[0]) == 'p' then
      match HexAt(data, 1)
      case None => None
      case Some((regnum, _)) => Some(ReadRegister(regnum))
    else None
  }

  /** `^vFile:setfs:(\d+)`. */
  function MatchSetFs(data: string): Option<Request> {
    var n := if "vFile:setfs:" <= data then DigitRun(data, 12) else 0;
    if n == 0 then None else Some(SetFs(ParseDecimal(data[12..12 + n])))
  }

  /** `^vFile:<op>:` followed by `count` comma-separated runs of `[a-f\d]+`, flag `i`. */
  function MatchHexFields(data: string, prefix: string, count: nat): bool {
    StartsWithFolded(data, prefix) &&
    (if count == 1 then HexAt(data, |prefix|).Some? else HexTriple(data, |prefix|))
  }

  function HexTriple(s: string, i: nat): bool
    requires i <= |s|
  {
    match HexAt(s, i)
    case None => false
    case Some((_, j)) => j < |s| && s[j] == ',' && HexPairAt(s, j + 1).Some?
  }

  function MatchWhen(b: bool, r: Request): Option<Request> {
    if b then Some(r) else None
  }

  /** `^vCont;(.)`: the action character. */
  function MatchContinue(data: string): Option<Request> {
    if "vCont;" <= data && |data| > 6 && !IsLineTerminator(data[6]) then Some(ContinueWith(data[6])) else None
  }

  /** What the pattern of handler `h` captures from a payload, if it matches. */
  function Match(h: Handler, data: string): Option<Request> {
    match h
    case D => MatchWhen("D" <= data, Detach)
    case H => MatchWhen("H" <= data, SetThread)
    case QStartNoAckMode => MatchWhen("QStartNoAckMode" <= data, StartNoAckMode)
    case T => MatchWhen("T" <= data, ThreadAlive)
    case Z => MatchBreakpoint(data)
    case C => MatchWhen(data == "c", Continue)
    case G => MatchWhen("g" <= data, ReadRegisters)
    case InterruptH => MatchWhen("\U{3}" <= data, Interrupt)
    case K => MatchWhen("k" <= data, Kill)
    case M => MatchMemory(data)
    case P => MatchRegister(data)
    case QAttached => MatchWhen("qAttached" <= data, Attached)
    case QC => MatchWhen("qC" <= data, CurrentThread)
    case QSupported => MatchWhen("qSupported" <= data, Supported)
    case QT => MatchWhen("qT" <= data, Tracepoints)
    case QXferExecFileRead =>
      (match XferRead(data, "qXfer:exec-file:read:", 0)
       case None => None
       case Some((annex, offset, length)) => Some(ExecFileRead(annex, offset, length)))
    case QXferFeaturesRead =>
      (match XferRead(data, "qXfer:features:read:", 1)
       case None => None
       case Some((annex, offset, length)) => Some(FeaturesRead(annex, offset, length)))
    case QfThreadInfo => MatchWhen("qfThreadInfo" <= data, FirstThreadInfo)
    case QsThreadInfo => MatchWhen("qsThreadInfo" <= data, NextThreadInfo)
    case S => MatchWhen(data == "s", SingleStep)
    case StatusH => MatchWhen("?" <= data, Status)
    case VCont => MatchContinue(data)
    case VFileClose => MatchWhen(MatchHexFields(data, "vFile:close:", 1), FileClose)
    case VFileOpen => MatchWhen(MatchHexFields(data, "vFile:open:", 3), FileOpen)
    case VFileRead => MatchWhen(MatchHexFields(data, "vFile:pread:", 3), FileRead)
    case VFileSetfs => MatchSetFs(data)
    case VZZZ => MatchWhen("v" <= data, OtherV)
  }

  /** The server's loop: the request of the first handler, in order, whose
      pattern matches. */
  function FirstMatch(hs: seq<Handler>, data: string): Option<Request> {
    if hs == [] then None
    else if Match(hs[0], data).Some? then Match(hs[0], data)
    else FirstMatch(hs[1..], data)
  }

  /** The first match is the request of some handler whose pattern matches, with
      no earlier handler matching; there is none exactly when no pattern matches. */
  lemma {:induction false} FirstMatchIsFirst(hs: seq<Handler>, data: string)
    ensures FirstMatch(hs, data).Some? ==>
              exists i :: 0 <= i < |hs| && Match(hs[i], data) == FirstMatch(hs, data) &&
                          forall j :: 0 <= j < i ==> Match(hs[j], data).None?
    ensures FirstMatch(hs, data).None? <==> forall i :: 0 <= i < |hs| ==> Match(hs[i], data).None?
  {
    if hs != [] {
      FirstMatchIsFirst(hs[1..], data);
      if Match(hs[0], data).None? && FirstMatch(hs, data).Some? {
        var i :| 0 <= i < |hs| - 1 && Match(hs[1..][i], data) == FirstMatch(hs[1..], data) &&
                 forall j :: 0 <= j < i ==> Match(hs[1..][j], data).None?;
        assert Match(hs[i + 1], data) == FirstMatch(hs, data);
        assert forall j :: 0 <= j < i + 1 ==> Match(hs[j], data).None? by {
          forall j | 0 <= j < i + 1
            ensures Match(hs[j], data).None?
          {
            if j > 0 {
              assert hs[j] == hs[1..][j - 1];
            }
          }
        }
      }
      if forall i :: 0 <= i < |hs| - 1 ==> Match(hs[1..][i], data).None? {
        forall i | 1 <= i < |hs|
          ensures Match(hs[i], data).None?
        {
          assert hs[i] == hs[1..][i - 1];
        }
      }
    }
  }

  /** The characters a payload matched by `h` can start with. */
  function Lead(h: Handler): set<char> {
    match h
    case D => {'D'}
    case H => {'H'}
    case QStartNoAckMode => {'Q'}
    case T => {'T'}
    case Z => {'Z', 'z'}
    case C => {'c'}
    case G => {'g'}
    case InterruptH => {'\U{3}'}
    case K => {'k'}
    case M => {'M', 'm'}
    case P => {'P', 'p'}
    case QXferExecFileRead => {'Q', 'q'}
    case QXferFeaturesRead => {'Q', 'q'}
    case S => {'s'}
    case StatusH => {'?'}
    case VFileClose => {'V', 'v'}
    case VFileOpen => {'V', 'v'}
    case VFileRead => {'V', 'v'}
    case _ => if h.VCont? || h.VFileSetfs? || h.VZZZ? then {'v'} else {'q'}
  }

  lemma FoldedLead(data: string, lit: string)
    requires |lit| > 0 && StartsWithFolded(data, lit)
    ensures FoldCase(data[0]) == FoldCase(lit[0])
  {
  }

  /** Every pattern needs at least one character, and its first one from `Lead`. */
  lemma MatchLead(h: Handler, data: string)
    ensures Match(h, data).Some? ==> |data| > 0 && data[0] in Lead(h)
  {
    if h.QXferExecFileRead? || h.QXferFeaturesRead? || h.VFileClose? || h.VFileOpen? || h.VFileRead? {
      FoldedPrefixLead(h, data);
    } else if h.Z? || h.M? || h.P? || h.VCont? || h.VFileSetfs? {
      CapturingLead(h, data);
    } else {
      PrefixLead(h, data);
    }
  }

  lemma FoldedPrefixLead(h: Handler, data: string)
    requires h.QXferExecFileRead? || h.QXferFeaturesRead? || h.VFileClose? || h.VFileOpen? || h.VFileRead?
    ensures Match(h, data).Some? ==> |data| > 0 && data[0] in Lead(h)
  {
    match h
    case QXferExecFileRead => XferLead(data, "qXfer:exec-file:read:", 0);
    case QXferFeaturesRead => XferLead(data, "qXfer:features:read:", 1);
    case VFileClose => FileLead(data, "vFile:close:", 1);
    case VFileOpen => FileLead(data, "vFile:open:", 3);
    case VFileRead => FileLead(data, "vFile:pread:", 3);
  }

  lemma XferLead(data: string, prefix: string, least: nat)
    requires least <= 1 && |prefix| > 0
    ensures XferRead(data, prefix, least).Some? ==> |data| > 0 && FoldCase(data[0]) == FoldCase(prefix[0])
  {
  }

  lemma FileLead(data: string, prefix: string, count: nat)
    requires |prefix| > 0
    ensures MatchHexFields(data, prefix, count) ==> |data| > 0 && FoldCase(data[0]) == FoldCase(prefix[0])
  {
  }

  lemma CapturingLead(h: Handler, data: string)
    requires h.Z? || h.M? || h.P? || h.VCont? || h.VFileSetfs?
    ensures Match(h, data).Some? ==> |data| > 0 && data[0] in Lead(h)
  {
  }

  lemma PrefixLead(h: Handler, data: string)
    requires !(h.Z? || h.M? || h.P? || h.VCont? || h.VFileSetfs?)
    requires !(h.QXferExecFileRead? || h.QXferFeaturesRead? || h.VFileClose? || h.VFileOpen? || h.VFileRead?)
    ensures Match(h, data).Some? ==> |data| > 0 && data[0] in Lead(h)
  {
  }

  /** Handlers that do not match can be skipped. */
  lemma {:induction false} FirstMatchSkip(hs: seq<Handler>, k: nat, data: string)
    requires k <= |hs| && forall j :: 0 <= j < k ==> Match(hs[j], data).None?
    ensures FirstMatch(hs, data) == FirstMatch(hs[k..], data)
  {
    if k > 0 {
      assert hs[1..][k - 1..] == hs[k..];
      assert forall j :: 0 <= j < k - 1 ==> hs[1..][j] == hs[j + 1];
      FirstMatchSkip(hs[1..], k - 1, data);
    }
  }

  /** The handler at `i` is selected when it matches and none before it does. */
  lemma FirstMatchAt(hs: seq<Handler>, i: nat, data: string)
    requires i < |hs| && Match(hs[i], data).Some?
    requires forall j :: 0 <= j < i ==> Match(hs[j], data).None?
    ensures FirstMatch(hs, data) == Match(hs[i], data)
  {
    FirstMatchSkip(hs, i, data);
  }

  /** The first `k` handlers of `Order` do not match a payload whose first
      character none of them accepts. */
  lemma LeadNone(k: nat, data: string)
    requires k <= |Order| && |data| > 0
    requires forall j :: 0 <= j < k ==> data[0] !in Lead(Order[j])
    ensures forall j :: 0 <= j < k ==> Match(Order[j], data).None?
  {
    forall j | 0 <= j < k
      ensures Match(Order[j], data).None?
    {
      MatchLead(Order[j], data);
    }
  }

  /** `LazyAnnex` moves past annex characters that are neither ':' nor line terminators. */
  lemma {:induction false} LazyAnnexSkip(s: string, p: nat, k: nat, k': nat)
    requires p + k <= p + k' < |s|
    requires forall j :: p <= j < p + k' ==> !IsLineTerminator(s[j])
    requires forall j :: p + k <= j < p + k' ==> s[j] != ':'
    ensures LazyAnnex(s, p, k) == LazyAnnex(s, p, k')
    decreases k' - k
  {
    if k < k' {
      LazyAnnexSkip(s, p, k + 1, k');
    }
  }

  /** A `vCont` that is not `vCont;<action>` falls through to the catch-all. */
  lemma ContinueQueryIsOtherV(d: string)
    requires d == "vCont?"
    ensures FirstMatch(Order, d) == Some(OtherV)
  {
    LeadNone(21, d);
    ContinueQueryTail(d);
    FirstMatchAt(Order, 26, d);
  }

  lemma ContinueQueryTail(d: string)
    requires d == "vCont?"
    ensures Match(VCont, d) == None && Match(VFileClose, d) == None && Match(VFileOpen, d) == None
    ensures Match(VFileRead, d) == None && Match(VFileSetfs, d) == None && Match(VZZZ, d) == Some(OtherV)
  {
    ContinueQueryNotFile(d);
    assert d[5] == '?';
  }

  lemma ContinueQueryNotFile(d: string)
    requires d == "vCont?"
    ensures !StartsWithFolded(d, "vFile:close:") && !StartsWithFolded(d, "vFile:open:")
    ensures !StartsWithFolded(d, "vFile:pread:") && !("vFile:setfs:" <= d)
  {
    assert d[1] == 'C';
  }

  /** A lower-case `z` removes: the pattern's letter is case-insensitive. */
  lemma LowerZRemoves(d: string)
    requires d == "z0,4,1"
    ensures FirstMatch(Order, d) == Some(Breakpoint(false, 4))
  {
    LowerZMatch(d);
    LeadNone(4, d);
    FirstMatchAt(Order, 4, d);
  }

  lemma LowerZMatch(d: string)
    requires d == "z0,4,1"
    ensures Match(Z, d) == Some(Breakpoint(false, 4))
  {
    assert HexRun(d, 4) == 0 && HexRun(d, 3) == 1 && HexRun(d, 6) == 0 && HexRun(d, 5) == 1;
    assert d[3..4] == "4";
    assert ParseHex("4") == 4;
  }

  /** Any payload starting `qT` is the tracepoint query. */
  lemma TracepointStatus(d: string)
    requires d == "qTStatus"
    ensures FirstMatch(Order, d) == Some(Tracepoints)
  {
    LeadNone(11, d);
    TracepointMatches(d);
    FirstMatchAt(Order, 14, d);
  }

  lemma TracepointMatches(d: string)
    requires d == "qTStatus"
    ensures Match(QAttached, d) == None && Match(QC, d) == None && Match(QSupported, d) == None
    ensures Match(QT, d) == Some(Tracepoints)
  {
    assert d[1] == 'T';
  }

  /** The memory-write packet `M` is read as a memory read, its values ignored. */
  lemma UpperMReads(d: string)
    requires d == "M0,1:ff"
    ensures FirstMatch(Order, d) == Some(ReadMemory(0, 1))
  {
    UpperMMatch(d);
    LeadNone(9, d);
    FirstMatchAt(Order, 9, d);
  }

  lemma UpperMMatch(d: string)
    requires d == "M0,1:ff"
    ensures Match(M, d) == Some(ReadMemory(0, 1))
  {
    assert HexRun(d, 2) == 0 && HexRun(d, 1) == 1 && HexRun(d, 4) == 0 && HexRun(d, 3) == 1;
    assert d[1..2] == "0" && d[3..4] == "1";
    assert ParseHex("0") == 0 && ParseHex("1") == 1;
  }

  /** `c` must be the whole payload; nothing else matches "cafe". */
  lemma ContinueIsExact(d: string)
    requires d == "cafe"
    ensures FirstMatch(Order, d) == None
  {
    assert Match(C, d) == None;
    forall i | 0 <= i < |Order|
      ensures Match(Order[i], d).None?
    {
      MatchLead(Order[i], d);
    }
    FirstMatchIsFirst(Order, d);
  }

  /** The target description request GDB sends first. */
  lemma FeaturesRequest(d: string)
    requires d == "qXfer:features:read:target.xml:0,ffb"
    ensures FirstMatch(Order, d) == Some(FeaturesRead("target.xml", 0, 0xffb))
  {
    LeadNone(11, d);
    FeaturesNotQuery(d);
    FeaturesNotExecFile(d);
    FeaturesMatch(d);
    FirstMatchAt(Order, 16, d);
  }

  lemma FeaturesNotQuery(d: string)
    requires d == "qXfer:features:read:target.xml:0,ffb"
    ensures Match(QAttached, d) == None && Match(QC, d) == None && Match(QSupported, d) == None
    ensures Match(QT, d) == None
  {
    assert d[1] == 'X';
  }

  lemma FeaturesNotExecFile(d: string)
    requires d == "qXfer:features:read:target.xml:0,ffb"
    ensures Match(QXferExecFileRead, d) == None
  {
    assert d[6] == 'f' && FoldCase(d[6]) != FoldCase("qXfer:exec-file:read:"[6]);
  }

  lemma FeaturesMatch(d: string)
    requires d == "qXfer:features:read:target.xml:0,ffb"
    ensures Match(QXferFeaturesRead, d) == Some(FeaturesRead("target.xml", 0, 0xffb))
  {
    assert StartsWithFolded(d, "qXfer:features:read:");
    FeaturesAnnex(d);
  }

  lemma FeaturesAnnex(d: string)
    requires d == "qXfer:features:read:target.xml:0,ffb"
    ensures LazyAnnex(d, 20, 1) == Some(("target.xml", 0, 0xffb))
  {
    FeaturesAnnexChars(d);
    LazyAnnexSkip(d, 20, 1, 10);
    FeaturesRange(d);
    FeaturesAnnexText(d);
  }

  lemma FeaturesAnnexChars(d: string)
    requires d == "qXfer:features:read:target.xml:0,ffb"
    ensures forall j :: 20 <= j < 30 ==> !IsLineTerminator(d[j]) && d[j] != ':'
  {
  }

  lemma FeaturesAnnexText(d: string)
    requires d == "qXfer:features:read:target.xml:0,ffb"
    ensures d[20..30] == "target.xml" && d[30] == ':'
  {
  }

  lemma FeaturesRange(d: string)
    requires d == "qXfer:features:read:target.xml:0,ffb"
    ensures HexPairAt(d, 31) == Some((0, 0xffb))
  {
    assert HexRun(d, 32) == 0 && HexRun(d, 31) == 1;
    assert HexRun(d, 36) == 0 && HexRun(d, 35) == 1 && HexRun(d, 34) == 2 && HexRun(d, 33) == 3;
    assert d[31..32] == "0" && d[33..36] == "ffb";
    assert ParseHex("0") == 0;
    assert ParseHex("ffb") == 0xffb by {
      assert "ffb"[..2] == "ff" && "ff"[..1] == "f" && "f"[..0] == "";
    }
  }
}
