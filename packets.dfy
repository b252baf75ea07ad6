/** The `process` half of each handler in src/Debugger/gdb/packets.mjs: the reply
    a request produces and the debugger state it reads or changes. Replies are
    stated as functions of the state; the handler methods send them. */
module Packets {

  import opened Wrappers
  import opened Constants
  import opened HexFormat
  import opened GdbUtils
  import opened GdbClient
  import opened VirtualMachine
  import opened Debugging
  import opened PacketMatch
  import opened Semantics
  import Arithmetic

  /** "T" and the trap signal: the stop reply. */
  function TrapStop(): (r: string)
    ensures r == "T05"
  {
    Hex8Digits(SignalTrap);
    "T" + Hex8(SignalTrap)
  }

  /** "X" and the terminate signal: the reply when the program halts. */
  function ExitStop(): (r: string)
    ensures r == "X0f"
  {
    Hex8Digits(SignalTerm);
    "X" + Hex8(SignalTerm)
  }

  /** A stop by the trap signal in thread 1. */
  function ThreadStop(): (r: string)
    ensures r == "T05;thread:01;"
  {
    Hex8Digits(SignalTrap);
    Hex8Digits(ThreadId);
    "T" + Hex8(SignalTrap) + ";thread:" + Hex8(ThreadId) + ";"
  }

  /** The reply to `?`: exited with the terminate signal, or stopped by a trap in
      thread 1, saying so when the stop is at a breakpoint. */
  function StatusReply(halted: bool, onBreak: bool): (r: string)
    ensures halted ==> r == "W0f"
    ensures !halted ==> r == "T05;thread:01;" + (if onBreak then "swbreak:;" else "")
  {
    Hex8Digits(SignalTerm);
    if halted then "W" + Hex8(SignalTerm)
    else ThreadStop() + (if onBreak then "swbreak:;" else "")
  }

  /** One 16-bit value as the handlers send it: `hex16` with its two bytes swapped. */
  function WordHex(v: nat): (r: string)
    ensures |r| == 4 && IsLowerHex(r)
  {
    var h := Hex16(v);
    h[2..4] + h[0..2]
  }

  /** The low byte comes first, then the high byte, each as two digits. */
  lemma WordHexIsLowByteFirst(v: nat)
    ensures WordHex(v) == Hex8(v % 256) + Hex8(v / 256 % 256)
  {
    var w := v / 256;
    Arithmetic.DivModSplit(v, 16, 16);
    Arithmetic.DivModUnique(v % 256, 16, v / 16 % 16, v % 16);
    Arithmetic.DivModSplit(w, 16, 16);
    Arithmetic.DivModUnique(w % 256, 16, w / 16 % 16, w % 16);
    Arithmetic.DivModSplit(v, 256, 16);
    Hex8Digits(v % 256);
    Hex8Digits(w % 256);
    assert Fixed(v, 4) == Fixed(v / 16, 3) + [LowerDigit(v % 16)];
    assert Fixed(v / 16, 3) == Fixed(w, 2) + [LowerDigit(v / 16 % 16)];
    assert Fixed(w, 2) == Fixed(w / 16, 1) + [LowerDigit(w % 16)];
    assert Fixed(w / 16, 1) == [LowerDigit(w / 16 % 16)];
  }

  /** Values one after the other, each low byte first. */
  function Hexes(values: seq<nat>): (r: string)
    ensures |r| == 4 * |values|
  {
    if values == [] then "" else Hexes(values[..|values| - 1]) + WordHex(values[|values| - 1])
  }

  /** One more value of a run renders after the others. */
  lemma HexesExtend(values: seq<nat>, a: nat, b: nat)
    requires a <= b < |values|
    ensures Hexes(values[a..b + 1]) == Hexes(values[a..b]) + WordHex(values[b])
  {
    assert values[a..b + 1][..b - a] == values[a..b];
  }

  /** Value `i` sits at characters 4i to 4i+4. */
  lemma {:induction false} HexesAt(values: seq<nat>, i: nat)
    requires i < |values|
    ensures Hexes(values)[4 * i..4 * i + 4] == WordHex(values[i])
  {
    var n := |values|;
    var init := values[..n - 1];
    assert Hexes(values) == Hexes(init) + WordHex(values[n - 1]);
    if i < n - 1 {
      HexesAt(init, i);
    }
  }

  /** The values `g` sends: R0 to R7, then the instruction pointer as a byte offset,
      then the stack pointer stand-in, four bytes per word of memory. */
  function RegisterSlots(registers: seq<nat>, address: nat, memoryLength: nat): (slots: seq<nat>)
    ensures |slots| == |registers| + 2
    ensures slots[..|registers|] == registers
    ensures slots[|registers|] == address * 2 && slots[|registers| + 1] == memoryLength * 4
  {
    registers + [address * AddressSize, memoryLength * AddressSize * 2]
  }

  /** With eight registers the `g` reply is 40 characters: ten slots, slot `i` at
      characters 4i to 4i+4. */
  lemma RegistersReplyLayout(registers: seq<nat>, address: nat, memoryLength: nat, i: nat)
    requires |registers| == RegisterCount && i < 10
    ensures |Hexes(RegisterSlots(registers, address, memoryLength))| == 40
    ensures Hexes(RegisterSlots(registers, address, memoryLength))[4 * i..4 * i + 4] ==
            WordHex(RegisterSlots(registers, address, memoryLength)[i])
  {
    HexesAt(RegisterSlots(registers, address, memoryLength), i);
  }

  /** What `p` reads for a register number: a register while `regnum in registers`,
      then the instruction and stack pointers, otherwise nothing. */
  function RegisterValue(regnum: nat, registers: seq<nat>, address: nat, memoryLength: nat): (v: Option<nat>)
  {
    if regnum < |registers| then Some(registers[regnum])
    else if regnum == RegisterIp then Some(address * AddressSize)
    else if regnum == RegisterSp then Some(memoryLength * AddressSize * 2)
    else None
  }

  /** The reply to `p`: the value low byte first, or "E2" (ENOENT). */
  function RegisterReply(regnum: nat, registers: seq<nat>, address: nat, memoryLength: nat): string {
    match RegisterValue(regnum, registers, address, memoryLength)
    case None => "E" + Decimal(Enoent)
    case Some(v) => WordHex(v)
  }

  /** `p` agrees with slot `regnum` of `g` for the ten slots and answers "E2"
      for every other number. */
  lemma RegisterReplyMatchesAll(regnum: nat, registers: seq<nat>, address: nat, memoryLength: nat)
    requires |registers| == RegisterCount
    ensures regnum < 10 ==> RegisterReply(regnum, registers, address, memoryLength) ==
                            Hexes(RegisterSlots(registers, address, memoryLength))[4 * regnum..4 * regnum + 4]
    ensures regnum >= 10 ==> RegisterReply(regnum, registers, address, memoryLength) == "E2"
  {
    if regnum < 10 {
      RegistersReplyLayout(registers, address, memoryLength, regnum);
    }
  }

  function Min(a: nat, b: nat): nat {
    if a < b then a else b
  }

  /** The exclusive end `m` reads to: the request's end, capped at the memory's bytes. */
  function MemoryEnd(memoryLength: nat, offset: nat, length: nat): nat {
    Min(offset + length, memoryLength * AddressSize)
  }

  /** The words `m` reaches: up to and including the one holding the last byte. */
  function WordsEnd(memoryLength: nat, offset: nat, length: nat): nat {
    (MemoryEnd(memoryLength, offset, length) + 1) / 2
  }

  /** The reply to `m`: one word, low byte first, for each byte offset offset,
      offset+2, ... below the end. An odd offset inside memory reads a word at a
      fractional index, whose rendering is not modelled (`None`). */
  function MemoryReply(memory: seq<U16>, offset: nat, length: nat): (r: Option<string>)
    ensures offset >= 2 * |memory| ==> r == Some("")
    ensures r.Some? <==> offset >= MemoryEnd(|memory|, offset, length) || offset % 2 == 0
  {
    if offset >= MemoryEnd(|memory|, offset, length) then Some("")
    else if offset % 2 == 1 then None
    else Some(Hexes(memory[offset / 2..WordsEnd(|memory|, offset, length)]))
  }

  /** Each byte as two lower-case digits. */
  function ByteHexes(bytes: seq<Byte>): (r: string)
    ensures |r| == 2 * |bytes|
  {
    if bytes == [] then "" else ByteHexes(bytes[..|bytes| - 1]) + Hex8(bytes[|bytes| - 1])
  }

  /** A 16-bit word's two bytes: the high byte needs no reduction. */
  lemma WordHexOfWord(v: U16)
    ensures WordHex(v) == Hex8(v % 256) + Hex8(v / 256)
  {
    var hi := v / 256;
    assert hi < 256;
    assert hi % 256 == hi;
    WordHexIsLowByteFirst(v);
  }

  /** Two more bytes render as their two digits each. */
  lemma ByteHexesAppend(front: seq<Byte>, lo: Byte, hi: Byte)
    ensures ByteHexes(front + [lo, hi]) == ByteHexes(front) + Hex8(lo) + Hex8(hi)
  {
    var bytes := front + [lo, hi];
    assert bytes[..|bytes| - 1] == front + [lo];
    assert (front + [lo])[..|front|] == front;
  }

  /** Words rendered low byte first are their little-endian bytes rendered in order. */
  lemma {:induction false} HexesAreBytes(words: seq<U16>)
    ensures Hexes(words) == ByteHexes(WordBytes(words))
  {
    if words != [] {
      var n := |words|;
      var init, last := words[..n - 1], words[n - 1];
      var front := WordBytes(init);
      var lo, hi := last % 256, last / 256;
      assert WordBytes(words) == front + [lo, hi];
      assert Hexes(words) == Hexes(init) + WordHex(last);
      HexesAreBytes(init);
      WordHexOfWord(last);
      ByteHexesAppend(front, lo, hi);
    }
  }

  /** Splitting words splits their bytes at twice the place. */
  lemma {:induction false} WordBytesConcat(x: seq<U16>, y: seq<U16>)
    ensures WordBytes(x + y) == WordBytes(x) + WordBytes(y)
  {
    if y != [] {
      var n := |y|;
      var init, last := y[..n - 1], y[n - 1];
      WordBytesConcat(x, init);
      assert (x + y)[..|x + y| - 1] == x + init;
    } else {
      assert x + y == x;
    }
  }

  /** The bytes of a run of words are the matching run of all the bytes. */
  lemma {:induction false} WordBytesSlice(memory: seq<U16>, a: nat, b: nat)
    requires a <= b <= |memory|
    ensures WordBytes(memory[a..b]) == WordBytes(memory)[2 * a..2 * b]
    decreases b
  {
    if a < b {
      WordBytesSlice(memory, a, b - 1);
      var part := memory[a..b];
      assert part[..|part| - 1] == memory[a..b - 1];
      var all := WordBytes(memory);
      WordBytesAt(memory, 2 * b - 2);
      WordBytesAt(memory, 2 * b - 1);
      assert all[2 * a..2 * b] == all[2 * a..2 * b - 2] + [all[2 * b - 2], all[2 * b - 1]];
    }
  }

  /** A run of words renders as the matching run of bytes. */
  lemma HexesSlice(memory: seq<U16>, bytes: seq<Byte>, a: nat, b: nat)
    requires bytes == WordBytes(memory) && a <= b <= |memory|
    ensures Hexes(memory[a..b]) == ByteHexes(bytes[2 * a..2 * b])
  {
    HexesAreBytes(memory[a..b]);
    WordBytesSlice(memory, a, b);
  }

  lemma EvenHalf(offset: nat)
    requires offset % 2 == 0
    ensures 2 * (offset / 2) == offset
  {
  }

  /** From an even offset below the end, an `m` reply is the memory's little-endian
      bytes from that offset, two digits each, to the end of the last word reached. */
  lemma MemoryReplyIsBytes(memory: seq<U16>, bytes: seq<Byte>, offset: nat, length: nat)
    requires bytes == WordBytes(memory)
    requires offset % 2 == 0 && offset < MemoryEnd(|memory|, offset, length)
    ensures offset / 2 < WordsEnd(|memory|, offset, length) <= |memory|
    ensures MemoryReply(memory, offset, length) ==
            Some(ByteHexes(bytes[offset..2 * WordsEnd(|memory|, offset, length)]))
  {
    HexesSlice(memory, bytes, offset / 2, WordsEnd(|memory|, offset, length));
    EvenHalf(offset);
  }

  /** For a loaded image, those bytes are the image's own bytes. */
  lemma MemoryReplyIsImage(data: seq<Byte>, offset: nat, length: nat)
    requires |data| % 2 == 0 && offset % 2 == 0
    requires offset < MemoryEnd(|data| / 2, offset, length)
    ensures MemoryReply(Image(data), offset, length) ==
            Some(ByteHexes(data[offset..2 * WordsEnd(|data| / 2, offset, length)]))
  {
    ImageRoundTrip(data);
    MemoryReplyIsBytes(Image(data), data, offset, length);
  }

  /** The breakpoint set after `Z` (insert) or `z` (remove). */
  function Toggle(breakpoints: set<nat>, insert: bool, addr: nat): (r: set<nat>)
    ensures addr in r <==> insert
    ensures forall a :: a != addr ==> (a in r <==> a in breakpoints)
  {
    if insert then breakpoints + {addr} else breakpoints - {addr}
  }

  /** Setting or clearing the same breakpoint twice is the same as once. */
  lemma ToggleIdempotent(breakpoints: set<nat>, insert: bool, addr: nat)
    ensures Toggle(Toggle(breakpoints, insert, addr), insert, addr) == Toggle(breakpoints, insert, addr)
  {
  }

  /** `s.slice(start, end)` for non-negative bounds: both clamped to the length,
      empty unless start is below end. */
  function JsSlice(s: string, start: nat, end: nat): (r: string)
    ensures start < |s| && start < end ==> r == s[start..Min(end, |s|)]
    ensures start >= |s| || start >= end ==> r == ""
  {
    var from, to := Min(start, |s|), Min(end, |s|);
    if from < to then s[from..to] else ""
  }

  /** The `offset,length` window of a transfer (the GDB manual, "qXfer:object:read"):
      `length` characters from `offset`, fewer at the end. */
  function Window(s: string, offset: nat, length: nat): (r: string)
    ensures |r| == if offset < |s| then Min(length, |s| - offset) else 0
    ensures offset < |s| ==> r == s[offset..offset + |r|]
  {
    JsSlice(s, offset, offset + length)
  }

  /** Reading windows of `length` from `offset` onwards, as a client does until the
      reply is empty. */
  function Transfer(s: string, offset: nat, length: nat): string
    requires length > 0
    decreases |s| - offset
  {
    if offset >= |s| then "" else Window(s, offset, length) + Transfer(s, offset + length, length)
  }

  /** Successive windows reassemble everything from the first offset on. */
  lemma {:induction false} TransferComplete(s: string, offset: nat, length: nat)
    requires length > 0
    ensures Transfer(s, offset, length) == if offset < |s| then s[offset..] else ""
    decreases |s| - offset
  {
    if offset < |s| {
      TransferComplete(s, offset + length, length);
      var w := Window(s, offset, length);
      assert Transfer(s, offset, length) == w + Transfer(s, offset + length, length);
      if offset + length < |s| {
        assert w == s[offset..offset + length];
        assert s[offset..] == w + s[offset + length..];
      } else {
        assert w == s[offset..];
      }
    }
  }

  /** JavaScript's StrWhiteSpaceChar: white space and line terminators. */
  predicate IsJsSpace(c: char) {
    c == '\t' || c == '\n' || c == '\U{B}' || c == '\U{C}' || c == '\r' || c == ' ' ||
    c == '\U{A0}' || c == '\U{1680}' || ('\U{2000}' <= c <= '\U{200A}') || c == '\U{2028}' ||
    c == '\U{2029}' || c == '\U{202F}' || c == '\U{205F}' || c == '\U{3000}' || c == '\U{FEFF}'
  }

  function TrimStart(s: string): (r: string)
    ensures |r| <= |s| && (r != [] ==> !IsJsSpace(r[0]))
  {
    if s != [] && IsJsSpace(s[0]) then TrimStart(s[1..]) else s
  }

  /** `parseInt(s, 10)`: leading space and one sign are skipped, then the longest run
      of decimal digits is read; `None` (NaN) when there is no digit. */
  function ParseInt(s: string): Option<int> {
    var t := TrimStart(s);
    var signed := t != [] && (t[0] == '-' || t[0] == '+');
    var body := if signed then t[1..] else t;
    var n := DigitRun(body, 0);
    if n == 0 then None
    else
      var v := ParseDecimal(body[..n]);
      Some(if signed && t[0] == '-' then -(v as int) else v as int)
  }

  /** The exec-file annex names thread 1 when it is empty (`!annex`) or
      `parseInt(annex, 10)` is 1. */
  predicate AnnexIsThread(annex: string) {
    annex == "" || ParseInt(annex) == Some(ThreadId as int)
  }

  /** Leading white space is read past, whatever follows it. */
  lemma {:induction false} TrimStartSkipsSpace(ws: string, a: string)
    requires forall i :: 0 <= i < |ws| ==> IsJsSpace(ws[i])
    ensures TrimStart(ws + a) == TrimStart(a)
  {
    if ws != [] {
      assert (ws + a)[0] == ws[0] && (ws + a)[1..] == ws[1..] + a;
      TrimStartSkipsSpace(ws[1..], a);
    } else {
      assert ws + a == a;
    }
  }

  /** White space before a non-empty annex does not change the thread it names,
      while an annex of white space alone, unlike the empty one, names none. */
  lemma AnnexLeadingSpace(ws: string, a: string)
    requires forall i :: 0 <= i < |ws| ==> IsJsSpace(ws[i])
    ensures a != "" ==> (AnnexIsThread(ws + a) <==> AnnexIsThread(a))
    ensures a == "" && ws != "" ==> !AnnexIsThread(ws + a)
  {
    TrimStartSkipsSpace(ws, a);
    TrimStartSkipsSpace(ws, "");
    assert ws + "" == ws;
  }

  /** Past the digits `d`, the run of digits in `d + t` ends where `t` starts
      with something else. */
  lemma {:induction false} DigitRunOver(d: string, t: string, i: nat)
    requires i <= |d| && AllDecimal(d) && (t == [] || !IsDecimalDigit(t[0]))
    ensures DigitRun(d + t, i) == |d| - i
    decreases |d| - i
  {
    if i < |d| {
      DigitRunOver(d, t, i + 1);
    } else if t != [] {
      assert (d + t)[i] == t[0];
    }
  }

  /** Any run of digits worth 1 (so "1", "01", "001" ...) followed by anything that
      is not a digit names thread 1. */
  lemma AnnexDigitsThenText(d: string, t: string)
    requires |d| > 0 && AllDecimal(d) && ParseDecimal(d) == 1
    requires t == [] || !IsDecimalDigit(t[0])
    ensures AnnexIsThread(d + t)
  {
    var a := d + t;
    assert a[0] == d[0];
    assert TrimStart(a) == a;
    DigitRunOver(d, t, 0);
    assert a[..|d|] == d;
  }

  /** A sign and leading zeros are read past: " +01" names thread 1. */
  lemma AnnexSignedThread(a: string)
    requires a == " +01"
    ensures AnnexIsThread(a)
  {
    var t := a[1..];
    assert TrimStart(t) == t;
    assert TrimStart(a) == t;
    var body := t[1..];
    assert |body| == 2 && body[0] == '0' && body[1] == '1';
    assert DigitRun(body, 2) == 0;
    assert DigitRun(body, 1) == 1;
    assert DigitRun(body, 0) == 2;
    assert body[..2] == body;
    assert body[..1] == [body[0]];
    assert ParseDecimal(body[..1][..0]) == 0;
    assert ParseDecimal(body[..1]) == 0;
    assert ParseDecimal(body) == 1;
  }

  /** Reading stops at the first non-digit: "1x2" names thread 1. */
  lemma AnnexTrailingText(a: string)
    requires a == "1x2"
    ensures AnnexIsThread(a)
  {
    assert TrimStart(a) == a;
    assert DigitRun(a, 0) == 1 by {
      assert DigitRun(a, 1) == 0;
    }
    assert ParseDecimal(a[..1]) == 1 by {
      assert a[..1] == "1" && "1"[..0] == "";
    }
  }

  /** The negative of the thread number is another number: "-1" does not name it. */
  lemma AnnexNegative(a: string)
    requires a == "-1"
    ensures !AnnexIsThread(a)
  {
    assert TrimStart(a) == a;
    var body := a[1..];
    assert body == "1";
    assert DigitRun(body, 0) == 1 by {
      assert DigitRun(body, 1) == 0;
    }
  }

  /** Text before the digits is not a number at all: "x1" does not name thread 1. */
  lemma AnnexNotNumber(a: string)
    requires a == "x1"
    ensures !AnnexIsThread(a)
  {
    assert TrimStart(a) == a;
    assert DigitRun(a, 0) == 0;
  }

  /** `xml.replace(/\n| {2}/g, '')`: from left to right, every line feed and every
      pair of spaces is dropped. */
  function Strip(xml: string): (r: string)
    ensures |r| <= |xml|
    ensures forall i :: 0 <= i < |r| ==> r[i] != '\n'
  {
    if xml == [] then []
    else if xml[0] == '\n' then Strip(xml[1..])
    else if |xml| >= 2 && xml[0] == ' ' && xml[1] == ' ' then Strip(xml[2..])
    else [xml[0]] + Strip(xml[1..])
  }

  /** Text with no line feed and no two adjacent spaces is left as it is. */
  lemma {:induction false} StripKeepsClean(xml: string)
    requires forall i :: 0 <= i < |xml| ==> xml[i] != '\n'
    requires forall i :: 0 <= i < |xml| - 1 ==> !(xml[i] == ' ' && xml[i + 1] == ' ')
    ensures Strip(xml) == xml
  {
    if xml != [] {
      StripKeepsClean(xml[1..]);
      assert xml == [xml[0]] + xml[1..];
    }
  }

  /** The "target.xml" annex is the only feature document. */
  predicate IsTargetXml(annex: string) {
    annex == "target.xml"
  }

  /** The exec-file reply as written: `path.slice(offset, length)`, the second number
      taken as an end. */
  function ExecFileReplyAsWritten(annex: string, offset: nat, length: nat, path: string): (r: string)
    ensures |r| >= 1
  {
    if AnnexIsThread(annex) then
      var slice := JsSlice(path, offset, length);
      if |slice| > 0 then "l" + Encode(slice) else "l"
    else "E00"
  }

  /** The exec-file reply with the protocol's window: 'l' (the last part) and the
      escaped window of the path for thread 1, "E00" for any other annex. */
  function ExecFileReply(annex: string, offset: nat, length: nat, path: string): (r: string)
    ensures |r| >= 1
  {
    if AnnexIsThread(annex) then
      var slice := Window(path, offset, length);
      if |slice| > 0 then "l" + Encode(slice) else "l"
    else "E00"
  }

  /** A thread-1 reply is 'l' and the window, which unescapes back out of it. */
  lemma ExecFileReplyCarriesWindow(annex: string, offset: nat, length: nat, path: string)
    ensures AnnexIsThread(annex) ==> (ExecFileReply(annex, offset, length, path)[0] == 'l' &&
              Unescape(ExecFileReply(annex, offset, length, path)[1..]) == Window(path, offset, length))
    ensures !AnnexIsThread(annex) ==> ExecFileReply(annex, offset, length, path) == "E00"
  {
    UnescapeEncode(Window(path, offset, length));
  }

  /** A thread-1 reply is 'l' and the characters of the path from `offset` up to
      position `length` (none once the offset reaches either), which unescape back
      out of it; any other annex gets "E00". */
  lemma ExecFileAsWrittenCarriesSlice(annex: string, offset: nat, length: nat, path: string)
    ensures var r := ExecFileReplyAsWritten(annex, offset, length, path);
            AnnexIsThread(annex) ==>
              r[0] == 'l' &&
              Unescape(r[1..]) == if offset < Min(length, |path|) then path[offset..Min(length, |path|)] else ""
    ensures !AnnexIsThread(annex) ==> ExecFileReplyAsWritten(annex, offset, length, path) == "E00"
  {
    UnescapeEncode(JsSlice(path, offset, length));
  }

  /** A first request, from offset 0, gets the same reply either way: the length
      and the end coincide there. */
  lemma ExecFileAsWrittenFromStart(annex: string, length: nat, path: string)
    ensures ExecFileReplyAsWritten(annex, 0, length, path) == ExecFileReply(annex, 0, length, path)
  {
    assert JsSlice(path, 0, length) == Window(path, 0, length);
  }

  /** As written, a second window that starts beyond the first request's length is
      empty: "abc" read in parts of two gives "lb" and not "lbc" from offset 1. */
  lemma ExecFileAsWrittenDropsTail()
    ensures ExecFileReplyAsWritten("", 1, 2, "abc") == "lb"
    ensures ExecFileReply("", 1, 2, "abc") == "lbc"
  {
    assert JsSlice("abc", 1, 2) == "b";
    assert Window("abc", 1, 2) == "bc";
    assert Encode("b") == "b" by {
      assert "b"[1..] == "";
    }
    assert Encode("bc") == "bc" by {
      assert "bc"[1..] == "c" && "c"[1..] == "";
    }
  }

  /** The features reply as written: `stripped.slice(offset, length)`. */
  function FeaturesReplyAsWritten(annex: string, offset: nat, length: nat, xml: string): (r: string)
    ensures |r| >= 1
  {
    if IsTargetXml(annex) then
      var slice := JsSlice(Strip(xml), offset, length);
      if |slice| > 0 then "m" + Encode(slice) else "l"
    else "E00"
  }

  /** The features reply with the protocol's window: 'm' (more follows) and the
      escaped window of the stripped document while it is non-empty, 'l' after the
      end, "E00" for any other annex. */
  function FeaturesReply(annex: string, offset: nat, length: nat, xml: string): (r: string)
    ensures |r| >= 1
  {
    if IsTargetXml(annex) then
      var slice := Window(Strip(xml), offset, length);
      if |slice| > 0 then "m" + Encode(slice) else "l"
    else "E00"
  }

  /** Each 'm' reply unescapes to the window at its offset and 'l' comes exactly at
      the end, so a client reading windows until 'l' receives, by `TransferComplete`,
      the whole stripped document. */
  lemma FeaturesReplyCarriesWindow(offset: nat, length: nat, xml: string)
    requires length > 0
    ensures var r := FeaturesReply("target.xml", offset, length, xml);
            if offset < |Strip(xml)|
            then r[0] == 'm' && Unescape(r[1..]) == Window(Strip(xml), offset, length)
            else r == "l"
  {
    UnescapeEncode(Window(Strip(xml), offset, length));
  }

  /** As written, target.xml gets 'm' and the stripped document from `offset` up to
      position `length` while that is non-empty, and 'l' once the offset reaches
      the length or the end; any other annex gets "E00". */
  lemma FeaturesAsWrittenCarriesSlice(annex: string, offset: nat, length: nat, xml: string)
    ensures var doc := Strip(xml);
            var r := FeaturesReplyAsWritten(annex, offset, length, xml);
            IsTargetXml(annex) ==>
              if offset < Min(length, |doc|)
              then r[0] == 'm' && Unescape(r[1..]) == doc[offset..Min(length, |doc|)]
              else r == "l"
    ensures !IsTargetXml(annex) ==> FeaturesReplyAsWritten(annex, offset, length, xml) == "E00"
  {
    UnescapeEncode(JsSlice(Strip(xml), offset, length));
  }

  /** A first request, from offset 0, gets the same reply either way. */
  lemma FeaturesAsWrittenFromStart(annex: string, length: nat, xml: string)
    ensures FeaturesReplyAsWritten(annex, 0, length, xml) == FeaturesReply(annex, 0, length, xml)
  {
    assert JsSlice(Strip(xml), 0, length) == Window(Strip(xml), 0, length);
  }

  /** As written, the second request of a document longer than the requested length
      already gets 'l': "abc" read in parts of two ends after "ab". */
  lemma FeaturesAsWrittenTruncates()
    ensures FeaturesReplyAsWritten("target.xml", 0, 2, "abc") == "mab"
    ensures FeaturesReplyAsWritten("target.xml", 2, 2, "abc") == "l"
    ensures FeaturesReply("target.xml", 2, 2, "abc") == "mc"
  {
    assert Strip("abc") == "abc" by {
      StripKeepsClean("abc");
    }
    assert JsSlice("abc", 0, 2) == "ab";
    assert Window("abc", 2, 2) == "c";
    assert Encode("ab") == "ab" by {
      assert "ab"[1..] == "b" && "b"[1..] == "";
    }
    assert Encode("c") == "c" by {
      assert "c"[1..] == "";
    }
  }

  /** The reply to `vFile:setfs:<pid>`: only the debugger's own file system. */
  function SetFsReply(pid: nat): string {
    if pid == 0 then "F0" else ""
  }

  /** The replies that depend on nothing but the request. */
  function ConstantReply(req: Request): Option<string> {
    match req
    case Detach => Some("OK")
    case SetThread => Some("OK")
    case ThreadAlive => Some("OK")
    case Attached => Some("1")
    case CurrentThread => Some("QC" + Hex8(ThreadId))
    case Supported => Some("qXfer:features:read+;qXfer:exec-file:read+;vCont+;swbreak+")
    case FirstThreadInfo => Some("m" + Hex8(ThreadId))
    case NextThreadInfo => Some("l")
    case Tracepoints => Some("")
    case OtherV => Some("")
    case SetFs(pid) => Some(SetFsReply(pid))
    case _ => None
  }

  /** The thread queries name thread 01; `vFile:setfs` accepts only pid 0. */
  lemma ConstantReplies(pid: nat)
    ensures ConstantReply(CurrentThread) == Some("QC01") && ConstantReply(FirstThreadInfo) == Some("m01")
    ensures ConstantReply(SetFs(pid)) == Some(if pid == 0 then "F0" else "")
  {
    Hex8Digits(ThreadId);
    var t := Hex8(ThreadId);
    assert t == [LowerDigit(0), LowerDigit(1)] == "01";
    assert "QC" + t == "QC01" && "m" + t == "m01";
  }

  /** How a handler ended. */
  datatype Outcome =
    | Handled
      /** The source throws: `dbg.program` is never set, so reading it fails. */
    | Faulted
      /** A `vFile` handler that works on the host's files. */
    | NotModelled

  /** `\x03`: stop running and report the trap. */
  method InterruptProcess(client: Client, dbg: Debugger)
    modifies client, dbg
    ensures !dbg.running && client.sent == old(client.sent) + [Frame("T05")]
    ensures client.useAcks == old(client.useAcks)
    ensures dbg.breakpoints == old(dbg.breakpoints) && dbg.lastSignalWindow == old(dbg.lastSignalWindow)
    ensures dbg.procmap == old(dbg.procmap) && dbg.runRequests == old(dbg.runRequests)
  {
    dbg.Interrupt();
    client.Reply(TrapStop());
  }

  /** `?`: exited, or stopped by a trap and whether at a breakpoint. */
  method StatusProcess(client: Client, dbg: Debugger)
    modifies client
    ensures client.sent == old(client.sent) + [Frame(StatusReply(dbg.vm.halted, dbg.Break()))]
    ensures client.useAcks == old(client.useAcks)
  {
    client.Reply(StatusReply(dbg.vm.halted, dbg.Break()));
  }

  /** `g`: every register slot, each low byte first. */
  method ReadRegistersProcess(client: Client, dbg: Debugger)
    modifies client
    ensures client.sent == old(client.sent) +
              [Frame(Hexes(RegisterSlots(dbg.vm.registers, dbg.vm.address, dbg.vm.memory.Length)))]
    ensures client.useAcks == old(client.useAcks)
  {
    var values := dbg.vm.registers + [dbg.vm.address * AddressSize, dbg.vm.memory.Length * AddressSize * 2];
    var result := "";
    for i := 0 to |values|
      invariant result == Hexes(values[..i])
    {
      var hex := Hex16(values[i]);
      result := result + hex[2..4] + hex[0..2];
      assert values[..i + 1][..i] == values[..i];
    }
    assert values[..|values|] == values;
    client.Reply(result);
  }

  /** `p`: one register, or "E2" past the ten slots. */
  method ReadRegisterProcess(client: Client, dbg: Debugger, regnum: nat)
    modifies client
    ensures client.sent == old(client.sent) +
              [Frame(RegisterReply(regnum, dbg.vm.registers, dbg.vm.address, dbg.vm.memory.Length))]
    ensures client.useAcks == old(client.useAcks)
  {
    var value: nat;
    if regnum < |dbg.vm.registers| {
      value := dbg.vm.registers[regnum];
    } else if regnum == RegisterIp {
      value := dbg.vm.address * AddressSize;
    } else if regnum == RegisterSp {
      value := dbg.vm.memory.Length * AddressSize * 2;
    } else {
      client.Reply("E" + Decimal(Enoent));
      return;
    }
    var hex := Hex16(value);
    client.Reply(hex[2..4] + hex[0..2]);
  }

  /** `m`: the words from `offset` to the end, each low byte first; `rendered` is
      false for an odd offset inside memory, where nothing is sent. */
  method ReadMemoryProcess(client: Client, dbg: Debugger, offset: nat, length: nat) returns (rendered: bool)
    modifies client
    ensures var r := MemoryReply(dbg.vm.memory[..], offset, length);
            rendered == r.Some? && client.sent == old(client.sent) + (if rendered then [Frame(r.value)] else [])
    ensures client.useAcks == old(client.useAcks)
  {
    var memory := dbg.vm.memory;
    var contents := memory[..];
    var end := Min(offset + length, memory.Length * AddressSize);
    if offset >= end {
      client.Reply("");
      return true;
    }
    if offset % 2 == 1 {
      return false;
    }
    var result := "";
    var i := offset;
    while i < end
      invariant offset <= i <= end + 1 && i % 2 == 0
      invariant result == Hexes(contents[offset / 2..i / 2])
      invariant client.sent == old(client.sent) && client.useAcks == old(client.useAcks)
      decreases end - i
    {
      var hex := Hex16(memory[i / AddressSize]);
      assert hex[2..4] + hex[0..2] == WordHex(contents[i / 2]);
      HexesExtend(contents, offset / 2, i / 2);
      result := result + hex[2..4] + hex[0..2];
      i := i + AddressSize;
    }
    assert i / 2 == WordsEnd(|contents|, offset, length);
    client.Reply(result);
    return true;
  }

  /** `Z`/`z`: set or clear a breakpoint, then "OK". */
  method BreakpointProcess(client: Client, dbg: Debugger, insert: bool, addr: nat)
    modifies client, dbg
    ensures dbg.breakpoints == Toggle(old(dbg.breakpoints), insert, addr)
    ensures client.sent == old(client.sent) + ["$OK#9a"] && client.useAcks == old(client.useAcks)
    ensures dbg.running == old(dbg.running) && dbg.lastSignalWindow == old(dbg.lastSignalWindow)
    ensures dbg.procmap == old(dbg.procmap) && dbg.runRequests == old(dbg.runRequests)
  {
    if insert {
      dbg.breakpoints := dbg.breakpoints + {addr};
    } else {
      dbg.breakpoints := dbg.breakpoints - {addr};
    }
    client.Ok();
  }

  /** `QStartNoAckMode`: acknowledgements off; the "OK" itself is the last reply
      sent under the old setting. */
  method StartNoAckModeProcess(client: Client)
    modifies client
    ensures !client.useAcks && client.sent == old(client.sent) + ["$OK#9a"]
  {
    client.useAcks := false;
    client.Ok();
  }

  /** `k`: reload the program; `faulted` when there is none. */
  method KillProcess(dbg: Debugger) returns (faulted: bool)
    requires dbg.Valid()
    modifies dbg, dbg.vm
    ensures dbg.Valid() && faulted == old(dbg.vm.program).None?
    ensures faulted ==> dbg.vm.memory == old(dbg.vm.memory) && dbg.procmap == old(dbg.procmap)
    ensures !faulted ==> fresh(dbg.vm.memory) && dbg.vm.memory[..] == Image(old(dbg.vm.program).value.data)
    ensures !faulted ==>
              var p := old(dbg.vm.program).value;
              dbg.procmap == if |p.data| % 2 == 0 then Some(Procmap(p)) else old(dbg.procmap)
    ensures dbg.vm.State() == old(dbg.vm.State()).(memory := dbg.vm.memory[..]) && dbg.vm.program == old(dbg.vm.program)
    ensures dbg.breakpoints == old(dbg.breakpoints) && dbg.running == old(dbg.running)
    ensures dbg.runRequests == old(dbg.runRequests) && dbg.lastSignalWindow == old(dbg.lastSignalWindow)
  {
    faulted := dbg.Reload();
  }

  /** `qXfer:exec-file:read`: the program path's slice for thread 1; with no program
      loaded the source fails reading its path (`faulted`, nothing sent). */
  method ExecFileReadProcess(client: Client, dbg: Debugger, annex: string, offset: nat, length: nat)
    returns (faulted: bool)
    modifies client
    ensures faulted <==> AnnexIsThread(annex) && dbg.vm.program.None?
    ensures client.useAcks == old(client.useAcks)
    ensures faulted ==> client.sent == old(client.sent)
    ensures !faulted && AnnexIsThread(annex) ==>
              client.sent == old(client.sent) + [Frame(ExecFileReplyAsWritten(annex, offset, length, dbg.vm.program.value.fqpath))]
    ensures !AnnexIsThread(annex) ==> client.sent == old(client.sent) + [Frame("E00")]
  {
    if !AnnexIsThread(annex) {
      client.Reply("E00");
      return false;
    }
    if dbg.vm.program.None? {
      return true;
    }
    client.Reply(ExecFileReplyAsWritten(annex, offset, length, dbg.vm.program.value.fqpath));
    return false;
  }

  /** `qXfer:features:read`: the stripped target description's slice. The file's
      text is a parameter. */
  method FeaturesReadProcess(client: Client, annex: string, offset: nat, length: nat, xml: string)
    modifies client
    ensures client.sent == old(client.sent) + [Frame(FeaturesReplyAsWritten(annex, offset, length, xml))]
    ensures client.useAcks == old(client.useAcks)
  {
    client.Reply(FeaturesReplyAsWritten(annex, offset, length, xml));
  }

  /** `c`: ask the debugger to run. */
  method ContinueProcess(dbg: Debugger)
    modifies dbg
    ensures dbg.runRequests == old(dbg.runRequests) + 1
    ensures dbg.breakpoints == old(dbg.breakpoints) && dbg.running == old(dbg.running)
    ensures dbg.lastSignalWindow == old(dbg.lastSignalWindow) && dbg.procmap == old(dbg.procmap)
  {
    dbg.Run();
  }

  /** `s`: one step, then the trap reply unless the new address is a breakpoint
      (whose stop is reported by the `break` event instead). */
  method SingleStepProcess(client: Client, dbg: Debugger) returns (cycle: Option<Cycle>)
    requires dbg.Valid()
    modifies client, dbg.vm, dbg.vm.memory
    ensures dbg.Valid() && dbg.vm.memory == old(dbg.vm.memory)
    ensures var m := old(dbg.vm.State());
            if m.address < |m.memory| && !m.halted
            then cycle == Some(RunCycle(m).cycle) && dbg.vm.State() == RunCycle(m).next
            else cycle == None && dbg.vm.State() == m
    ensures client.sent == old(client.sent) + (if dbg.Break() then [] else [Frame("T05")])
    ensures client.useAcks == old(client.useAcks) && dbg.vm.program == old(dbg.vm.program)
  {
    cycle := dbg.Step();
    if !dbg.Break() {
      client.Reply(TrapStop());
    }
  }

  /** `vCont;<action>`: continue or step while stopped; anything else, including
      either while running, gets the empty reply. */
  method ContinueWithProcess(client: Client, dbg: Debugger, action: char) returns (cycle: Option<Cycle>)
    requires dbg.Valid()
    modifies client, dbg, dbg.vm, dbg.vm.memory
    ensures dbg.Valid() && dbg.vm.memory == old(dbg.vm.memory) && dbg.running == old(dbg.running)
    ensures dbg.breakpoints == old(dbg.breakpoints) && client.useAcks == old(client.useAcks)
    ensures dbg.vm.program == old(dbg.vm.program) && dbg.procmap == old(dbg.procmap)
    ensures dbg.lastSignalWindow == old(dbg.lastSignalWindow)
    ensures action == 'c' && !dbg.running ==>
              dbg.runRequests == old(dbg.runRequests) + 1 && client.sent == old(client.sent) && cycle == None &&
              dbg.vm.State() == old(dbg.vm.State())
    ensures action == 's' && !dbg.running ==>
              dbg.runRequests == old(dbg.runRequests) &&
              client.sent == old(client.sent) + (if dbg.Break() then [] else [Frame("T05")]) &&
              var m := old(dbg.vm.State());
              if m.address < |m.memory| && !m.halted
              then cycle == Some(RunCycle(m).cycle) && dbg.vm.State() == RunCycle(m).next
              else cycle == None && dbg.vm.State() == m
    ensures (action != 'c' && action != 's') || dbg.running ==>
              dbg.runRequests == old(dbg.runRequests) && client.sent == old(client.sent) + [Frame("")] &&
              cycle == None && dbg.vm.State() == old(dbg.vm.State())
  {
    cycle := None;
    if action == 'c' && !dbg.running {
      dbg.Run();
    } else if action == 's' && !dbg.running {
      cycle := SingleStepProcess(client, dbg);
    } else {
      client.Reply("");
    }
  }

  /** Replies that depend on nothing but the request. */
  method ConstantProcess(client: Client, req: Request)
    requires ConstantReply(req).Some?
    modifies client
    ensures client.sent == old(client.sent) + [Frame(ConstantReply(req).value)]
    ensures client.useAcks == old(client.useAcks)
  {
    client.Reply(ConstantReply(req).value);
  }
}
