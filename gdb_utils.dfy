/** src/Debugger/gdb/utils.mjs: the binary escaping of the GDB Remote Serial
    Protocol (the GDB manual, appendix E "Remote Serial Protocol", section E.1
    "Overview"), the modulo-256 packet checksum and its check.

    Payloads are strings of characters. `encode` works on the UTF-8 bytes of its
    input, but the four special bytes are ASCII and every byte of a multi-byte
    UTF-8 sequence is at least 0x80, so escaping bytes and escaping characters give
    the same text. `hash` sums UTF-16 code units (`charCodeAt`), so a character
    outside the Basic Multilingual Plane counts as its two surrogates. */
module GdbUtils {

  import opened HexFormat
  import Arithmetic

  /** The bytes `encode` escapes: '#', '$', '}' and '*'. */
  predicate IsSpecial(c: char) {
    c == '#' || c == '$' || c == '}' || c == '*'
  }

  /** `c ^ 0x20` on an ASCII character (bit 5 toggled); other characters are left alone. */
  function Flip(c: char): (r: char)
    ensures c as int < 128 ==> r as int < 128
  {
    if c as int >= 128 then c
    else if (c as int / 32) % 2 == 1 then (c as int - 32) as char
    else (c as int + 32) as char
  }

  /** Toggling the bit twice restores the character. */
  lemma FlipInvolutive(c: char)
    requires c as int < 128
    ensures Flip(Flip(c)) == c
  {
  }

  /** The escaped form of one character. */
  function EscapeChar(c: char): (r: string)
    ensures IsSpecial(c) ==> r == ['}', Flip(c)]
    ensures !IsSpecial(c) ==> r == [c]
  {
    if IsSpecial(c) then ['}', Flip(c)] else [c]
  }

  /** `encode(data)`: each special character becomes '}' followed by the character
      xor 0x20; every other character is copied, in order. */
  function Encode(s: string): (r: string)
    ensures |r| == |s| + CountSpecial(s)
  {
    if s == [] then [] else EscapeChar(s[0]) + Encode(s[1..])
  }

  /** How many special characters `s` holds. */
  function CountSpecial(s: string): (n: nat)
    ensures n <= |s|
  {
    if s == [] then 0 else (if IsSpecial(s[0]) then 1 else 0) + CountSpecial(s[1..])
  }

  /** The receiving side's rule: drop each '}' and xor the character after it with 0x20. */
  function Unescape(s: string): (r: string)
    ensures |r| <= |s|
  {
    if s == [] then []
    else if s[0] == '}' && |s| >= 2 then [Flip(s[1])] + Unescape(s[2..])
    else [s[0]] + Unescape(s[1..])
  }

  /** The escaped forms 0x03, 0x04, 0x5D and 0x0A are never special themselves, so an
      encoded payload holds no bare '#', '$' or '*', and each '}' in it begins an
      escape. */
  lemma {:induction false} EncodeHasNoFrameChars(s: string)
    ensures forall i :: 0 <= i < |Encode(s)| ==> Encode(s)[i] != '#' && Encode(s)[i] != '$' && Encode(s)[i] != '*'
  {
    if s != [] {
      EncodeHasNoFrameChars(s[1..]);
      var head, tail := EscapeChar(s[0]), Encode(s[1..]);
      assert Encode(s) == head + tail;
      forall i | 0 <= i < |head + tail|
        ensures (head + tail)[i] != '#' && (head + tail)[i] != '$' && (head + tail)[i] != '*'
      {
        if i >= |head| {
          assert (head + tail)[i] == tail[i - |head|];
        }
      }
    }
  }

  /** Unescaping an encoded payload gives the payload back. */
  lemma {:induction false} UnescapeEncode(s: string)
    ensures Unescape(Encode(s)) == s
  {
    if s != [] {
      UnescapeEncode(s[1..]);
      var c, tail := s[0], Encode(s[1..]);
      if IsSpecial(c) {
        FlipInvolutive(c);
        var e := ['}', Flip(c)] + tail;
        assert Encode(s) == e;
        assert e[2..] == tail;
      } else {
        var e := [c] + tail;
        assert Encode(s) == e;
        assert e[1..] == tail;
        if c == '}' {
          assert false;
        }
      }
    }
  }

  /** The value `charCodeAt` sums for one character: one code unit, or the two
      surrogates of a character beyond U+FFFF. */
  function CodeUnits(c: char): (n: nat)
    ensures c as int < 0x1_0000 ==> n == c as int
  {
    if c as int < 0x1_0000 then c as int
    else
      var v := c as int - 0x1_0000;
      (0xD800 + v / 0x400) + (0xDC00 + v % 0x400)
  }

  /** `sum(data.split('').map((c) => c.charCodeAt(0)))`. */
  function CodeSum(s: string): (n: nat)
    ensures s == [] ==> n == 0
  {
    if s == [] then 0 else CodeSum(s[..|s| - 1]) + CodeUnits(s[|s| - 1])
  }

  /** `hash(data)`: two lower-case hexadecimal digits of the code sum modulo 256. */
  function Hash(data: string): (h: string)
    ensures |h| == 2 && IsLowerHex(h) && AllHex(h)
  {
    Hex8(CodeSum(data) % 256)
  }

  /** A byte's two digits: the high nibble, then the low one. */
  lemma Hex8Digits(v: nat)
    requires v < 256
    ensures Hex8(v) == [LowerDigit(v / 16), LowerDigit(v % 16)]
  {
    assert Fixed(v / 16, 1) == Fixed(v / 16 / 16, 0) + [LowerDigit(v / 16 % 16)];
  }

  /** The checksum reads back as the code sum modulo 256. */
  lemma HashValue(data: string)
    ensures ParseHex(Hash(data)) == CodeSum(data) % 256
  {
    var v := CodeSum(data) % 256;
    ByteDigits(v);
    assert Hash(data) == Hex8(v);
  }

  lemma ByteDigits(v: nat)
    requires v < 256
    ensures ParseHex(Hex8(v)) == v
  {
    var p := Pow16(2);
    assert p == 256 by {
      assert Pow16(1) == 16;
    }
    ParseFixed(v, 2);
    Arithmetic.DivModUnique(v, p, 0, v);
  }

  lemma HashOfOk()
    ensures Hash("OK") == "9a"
  {
    CodeSumOfOk();
    Hex8Digits(154);
  }

  lemma CodeSumOfOk()
    ensures CodeSum("OK") == 154
  {
    assert "OK"[..1] == "O";
    assert "O"[..0] == "";
  }

  lemma HashOfEmpty()
    ensures Hash("") == "00"
  {
    Hex8Digits(0);
  }

  /** `validate(data, checksum)`: the checksum is exactly `hash(data)`. */
  predicate Validate(data: string, checksum: string) {
    Hash(data) == checksum
  }

  /** The comparison is case-sensitive: an accepted checksum is two lower-case
      digits, and the checksum names the code sum modulo 256. */
  lemma ValidateMeansChecksum(data: string, checksum: string)
    ensures Validate(data, checksum) <==>
              |checksum| == 2 && IsLowerHex(checksum) && AllHex(checksum) && ParseHex(checksum) == CodeSum(data) % 256
  {
    HashValue(data);
    if |checksum| == 2 && IsLowerHex(checksum) && AllHex(checksum) && ParseHex(checksum) == CodeSum(data) % 256 {
      LowerHexIsFixed(checksum);
    }
  }

  /** Two lower-case digits are the fixed rendering of their own value. */
  lemma LowerHexIsFixed(s: string)
    requires |s| == 2 && IsLowerHex(s) && AllHex(s)
    ensures s == Fixed(ParseHex(s), 2)
  {
    var hi, lo := DigitValue(s[0]), DigitValue(s[1]);
    var first := s[..1];
    assert first[..0] == [] && first[0] == s[0];
    assert ParseHex(first) == hi;
    var v := ParseHex(s);
    assert v == 16 * hi + lo;
    Arithmetic.DivModUnique(v, 16, hi, lo);
    Hex8Digits(v);
    LowerDigitOf(s[0]);
    LowerDigitOf(s[1]);
  }

  lemma LowerDigitOf(c: char)
    requires '0' <= c <= '9' || 'a' <= c <= 'f'
    ensures IsHexDigit(c) && LowerDigit(DigitValue(c)) == c
  {
  }

  /** An upper-case checksum is refused even when its value is right. */
  lemma UpperCaseChecksumRefused()
    ensures !Validate("OK", "9A")
  {
    HashOfOk();
  }
}
