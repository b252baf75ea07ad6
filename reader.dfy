/** The reader of src/Analyzer/Reader.mjs: little-endian words, word strings and
    length-prefixed strings read out of a program image by byte offset. A read
    past the end of the buffer makes `readUInt16LE` throw; here it gives `None`. */
module Reading {

  import opened Wrappers
  import opened Constants
  import opened VirtualMachine

  /** A string built by `String.fromCharCode`: its UTF-16 code units. */
  type Text = seq<U16>

  /** `buffer.readUInt16LE(offset)`. */
  function WordAt(data: seq<Byte>, offset: nat): (w: Option<U16>)
    ensures w.Some? <==> offset + 2 <= |data|
  {
    if offset + 2 <= |data| then Some(Word(data[offset], data[offset + 1])) else None
  }

  /** At an even offset the reader sees the same word as the VM's memory. */
  lemma WordAtImage(data: seq<Byte>, offset: nat)
    requires offset % 2 == 0
    ensures WordAt(data, offset).Some? <==> offset / 2 < |Image(data)|
    ensures WordAt(data, offset).Some? ==> WordAt(data, offset).value == Image(data)[offset / 2]
  {
  }

  /** `count` words read one after another from `offset` on; the first word
      missing fails the lot. */
  function WordsAt(data: seq<Byte>, count: nat, offset: nat): (r: Option<Text>)
    ensures r.Some? ==> |r.value| == count
  {
    if count == 0 then Some([])
    else
      match WordAt(data, offset)
      case None => None
      case Some(w) =>
        match WordsAt(data, count - 1, offset + 2)
        case None => None
        case Some(rest) => Some([w] + rest)
  }

  /** Word `i` of a table of words starting at `offset`. */
  function WordOf(data: seq<Byte>, offset: nat, i: nat): Option<U16>
  {
    WordAt(data, offset + 2 * i)
  }

  /** The words are all there exactly when each one is, and word i of the result
      is the one at `offset + 2i`. */
  lemma {:induction false} WordsAtEach(data: seq<Byte>, count: nat, offset: nat)
    ensures WordsAt(data, count, offset).Some? <==> forall i :: 0 <= i < count ==> WordOf(data, offset, i).Some?
    ensures WordsAt(data, count, offset).Some? ==>
              |WordsAt(data, count, offset).value| == count &&
              forall i :: 0 <= i < count ==> WordOf(data, offset, i) == Some(WordsAt(data, count, offset).value[i])
  {
    if count > 0 {
      var next := offset + 2;
      WordsAtEach(data, count - 1, next);
      assert WordOf(data, offset, 0) == WordAt(data, offset);
      forall i | 0 < i < count
        ensures WordOf(data, offset, i) == WordOf(data, next, i - 1)
      {
        assert next + 2 * (i - 1) == offset + 2 * i;
      }
      if WordsAt(data, count, offset).Some? {
        var all := WordsAt(data, count, offset).value;
        var rest := WordsAt(data, count - 1, next).value;
        assert all == [all[0]] + rest;
        forall i | 0 < i < count
          ensures WordOf(data, offset, i) == Some(all[i])
        {
          assert all[i] == rest[i - 1];
        }
      } else if WordAt(data, offset).Some? {
        var i :| 0 <= i < count - 1 && WordOf(data, next, i).None?;
        assert WordOf(data, offset, i + 1).None?;
      }
    }
  }

  /** The bound in closed form: reading nothing never fails, and otherwise the
      last word must lie inside the buffer. */
  lemma WordsAtBounds(data: seq<Byte>, count: nat, offset: nat)
    ensures WordsAt(data, count, offset).Some? <==> count == 0 || offset + 2 * count <= |data|
  {
    WordsAtEach(data, count, offset);
    if count > 0 && offset + 2 * count > |data| {
      assert WordOf(data, offset, count - 1).None?;
    }
  }

  /** Reading `m + n` words is reading `m` and then `n` more. */
  lemma WordsAtSplit(data: seq<Byte>, m: nat, n: nat, offset: nat)
    requires WordsAt(data, m + n, offset).Some?
    ensures WordsAt(data, m, offset).Some? && WordsAt(data, n, offset + 2 * m).Some?
    ensures WordsAt(data, m + n, offset).value == WordsAt(data, m, offset).value + WordsAt(data, n, offset + 2 * m).value
  {
    var back := offset + 2 * m;
    WordsAtEach(data, m + n, offset);
    WordsAtEach(data, m, offset);
    WordsAtEach(data, n, back);
    forall i | 0 <= i < n
      ensures WordOf(data, back, i) == WordOf(data, offset, m + i)
    {
      assert back + 2 * i == offset + 2 * (m + i);
    }
    var all := WordsAt(data, m + n, offset).value;
    var front := WordsAt(data, m, offset).value;
    var rest := WordsAt(data, n, back).value;
    assert all == front + rest by {
      forall i | 0 <= i < m + n
        ensures all[i] == (front + rest)[i]
      {
        if i >= m {
          assert WordOf(data, back, i - m) == WordOf(data, offset, i);
        }
      }
    }
  }

  /** `readPStringAt(offset)`: a length word, then that many words. */
  function PStringAt(data: seq<Byte>, offset: nat): (r: Option<Text>)
    ensures r.Some? ==> WordAt(data, offset).Some? && |r.value| == WordAt(data, offset).value
  {
    match WordAt(data, offset)
    case None => None
    case Some(length) => WordsAt(data, length, offset + 2)
  }

  /** `readPStringAt(read() * 2)` with the pointer word at `offset`: the string
      that pointer points at, as a word address. */
  function PStringBehind(data: seq<Byte>, offset: nat): Option<Text>
  {
    match WordAt(data, offset)
    case None => None
    case Some(pointer) => PStringAt(data, pointer as nat * 2)
  }

  /** How a length-prefixed string is laid out in an image. */
  function PString(text: Text): (bytes: seq<Byte>)
    requires |text| < 0x1_0000
    ensures |bytes| == 2 * |text| + 2
  {
    WordBytes([|text|] + text)
  }

  lemma WordOfBytes(w: U16)
    ensures Word(w % 256, w / 256) == w
  {
  }

  /** A string laid out anywhere in an image reads back as itself. */
  lemma PStringRoundTrip(before: seq<Byte>, text: Text, after: seq<Byte>)
    requires |text| < 0x1_0000
    ensures PStringAt(before + PString(text) + after, |before|) == Some(text)
  {
    var words := [|text|] + text;
    var bytes := PString(text);
    var data := before + bytes + after;
    var o := |before|;
    assert forall k :: 0 <= k < |bytes| ==> data[o + k] == bytes[k];
    WordBytesAt(words, 0);
    WordBytesAt(words, 1);
    WordOfBytes(|text|);
    assert WordAt(data, o) == Some(|text|);
    forall i | 0 <= i < |text|
      ensures WordOf(data, o + 2, i) == Some(text[i])
    {
      WordBytesAt(words, 2 * i + 2);
      WordBytesAt(words, 2 * i + 3);
      assert (2 * i + 2) / 2 == i + 1 && (2 * i + 3) / 2 == i + 1;
      assert data[o + 2 + 2 * i] == bytes[2 * i + 2] && data[o + 2 + 2 * i + 1] == bytes[2 * i + 3];
      WordOfBytes(text[i]);
    }
    WordsAtEach(data, |text|, o + 2);
    var read := WordsAt(data, |text|, o + 2).value;
    assert read == text;
  }

  /** A reader over `buffer` with a byte position. */
  class Reader {
    const buffer: seq<Byte>
    var pos: nat

    constructor (buffer: seq<Byte>)
      ensures this.buffer == buffer && pos == 0
    {
      this.buffer := buffer;
      pos := 0;
    }

    /** `read()`: the word at the position, which moves on by one word. */
    method Read() returns (w: Option<U16>)
      modifies this
      ensures w == WordAt(buffer, old(pos)) && pos == old(pos) + 2
    {
      var at := pos;
      pos := pos + 2;
      w := WordAt(buffer, at);
    }

    /** `readStringNAt(length, offset)`: the words of the string, read in order
        until one is missing. */
    method ReadStringNAt(length: nat, offset: nat) returns (s: Option<Text>)
      ensures s == WordsAt(buffer, length, offset)
    {
      WordsAtEach(buffer, length, offset);
      var codes: Text := [];
      var i := 0;
      while i < length
        invariant 0 <= i <= length
        invariant |codes| == i && forall j :: 0 <= j < i ==> WordOf(buffer, offset, j) == Some(codes[j])
      {
        var code := WordAt(buffer, offset + i * 2);
        if code.None? {
          assert WordOf(buffer, offset, i).None?;
          return None;
        }
        codes := codes + [code.value];
        i := i + 1;
      }
      assert WordsAt(buffer, length, offset).value == codes;
      s := Some(codes);
    }

    /** `readPStringAt(offset)`. */
    method ReadPStringAt(offset: nat) returns (s: Option<Text>)
      ensures s == PStringAt(buffer, offset)
    {
      var length := WordAt(buffer, offset);
      if length.None? {
        return None;
      }
      s := ReadStringNAt(length.value, offset + 2);
    }
  }
}
