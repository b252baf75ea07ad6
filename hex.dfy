/** Digit rendering and parsing. The helpers `hex8`, `hex16` and `hex` with
    `bitSize: 32`, imported by the debugger from src/utils.mjs, are not part of
    the source shown; they are taken to render the low 8, 16 or 32 bits of a
    number as exactly 2, 4 or 8 lower-case hexadecimal digits, zero padded. */
module HexFormat {

  import Arithmetic

  function Pow16(n: nat): (r: nat)
    ensures r >= 1
  {
    if n == 0 then 1 else 16 * Pow16(n - 1)
  }

  predicate IsDecimalDigit(c: char) {
    '0' <= c <= '9'
  }

  /** The digits of `[a-f\d]` under the regular-expression flag `i`. */
  predicate IsHexDigit(c: char) {
    '0' <= c <= '9' || 'a' <= c <= 'f' || 'A' <= c <= 'F'
  }

  predicate IsLowerHex(s: string) {
    forall i :: 0 <= i < |s| ==> '0' <= s[i] <= '9' || 'a' <= s[i] <= 'f'
  }

  predicate IsUpperHex(s: string) {
    forall i :: 0 <= i < |s| ==> '0' <= s[i] <= '9' || 'A' <= s[i] <= 'F'
  }

  predicate AllHex(s: string) {
    forall i :: 0 <= i < |s| ==> IsHexDigit(s[i])
  }

  predicate AllDecimal(s: string) {
    forall i :: 0 <= i < |s| ==> IsDecimalDigit(s[i])
  }

  function DigitValue(c: char): (d: nat)
    requires IsHexDigit(c)
    ensures d < 16
    ensures IsDecimalDigit(c) ==> d < 10
  {
    if '0' <= c <= '9' then c as int - '0' as int
    else if 'a' <= c <= 'f' then c as int - 'a' as int + 10
    else c as int - 'A' as int + 10
  }

  function LowerDigit(d: nat): (c: char)
    requires d < 16
    ensures '0' <= c <= '9' || 'a' <= c <= 'f'
    ensures IsHexDigit(c) && DigitValue(c) == d
  {
    "0123456789abcdef"[d]
  }

  function DecimalDigit(d: nat): (c: char)
    requires d < 10
    ensures IsDecimalDigit(c) && DigitValue(c) == d
  {
    "0123456789"[d]
  }

  /** `String.prototype.toUpperCase` restricted to what it does to hexadecimal digits. */
  function UpperCase(s: string): (u: string)
    ensures |u| == |s|
  {
    if s == [] then [] else UpperCase(s[..|s| - 1]) + [Upper(s[|s| - 1])]
  }

  function Upper(c: char): char {
    if 'a' <= c <= 'z' then (c as int - 32) as char else c
  }

  /** Upper-casing works character by character. */
  lemma {:induction false} UpperCaseAt(s: string)
    ensures forall i :: 0 <= i < |s| ==> UpperCase(s)[i] == Upper(s[i])
  {
    if s != [] {
      UpperCaseAt(s[..|s| - 1]);
    }
  }

  /** The value of a run of hexadecimal digits, as `parseInt(s, 16)`. */
  function ParseHex(s: string): nat
    requires AllHex(s)
  {
    if s == [] then 0 else 16 * ParseHex(s[..|s| - 1]) + DigitValue(s[|s| - 1])
  }

  /** The value of a run of decimal digits, as `parseInt(s, 10)`. */
  function ParseDecimal(s: string): nat
    requires AllDecimal(s)
  {
    if s == [] then 0 else 10 * ParseDecimal(s[..|s| - 1]) + DigitValue(s[|s| - 1])
  }

  /** `n.toString(16)`: the shortest lower-case hexadecimal rendering of `n`. */
  function ToHex(n: nat): (s: string)
    ensures |s| >= 1 && IsLowerHex(s) && AllHex(s)
    ensures n < 16 <==> |s| == 1
  {
    if n < 16 then [LowerDigit(n)] else ToHex(n / 16) + [LowerDigit(n % 16)]
  }

  /** `String(n)`: the shortest decimal rendering of `n`. */
  function Decimal(n: nat): (s: string)
    ensures |s| >= 1 && AllDecimal(s)
  {
    if n < 10 then [DecimalDigit(n)] else Decimal(n / 10) + [DecimalDigit(n % 10)]
  }

  /** Exactly `width` lower-case digits of `v` modulo 16^width, most significant first. */
  function Fixed(v: nat, width: nat): (s: string)
    ensures |s| == width && IsLowerHex(s) && AllHex(s)
  {
    if width == 0 then [] else Fixed(v / 16, width - 1) + [LowerDigit(v % 16)]
  }

  /** hex8: two digits for the low byte. */
  function Hex8(v: nat): (s: string)
    ensures |s| == 2 && IsLowerHex(s)
  {
    Fixed(v, 2)
  }

  /** hex16: four digits for the low 16 bits. */
  function Hex16(v: nat): (s: string)
    ensures |s| == 4 && IsLowerHex(s)
  {
    Fixed(v, 4)
  }

  /** hex(v, { bitSize: 32 }): eight digits for the low 32 bits. */
  function Hex32(v: nat): (s: string)
    ensures |s| == 8 && IsLowerHex(s)
  {
    Fixed(v, 8)
  }

  /** `s.padStart(width, c)` for a one-character filler. */
  function PadStart(s: string, width: nat, c: char): (r: string)
    ensures |r| == if |s| < width then width else |s|
  {
    if |s| < width then seq(width - |s|, _ => c) + s else s
  }

  lemma {:induction false} ParseHexAppend(s: string, t: string)
    requires AllHex(s) && AllHex(t)
    ensures AllHex(s + t)
    ensures ParseHex(s + t) == ParseHex(s) * Pow16(|t|) + ParseHex(t)
  {
    AllHexAppend(s, t);
    if t == [] {
      assert s + t == s;
    } else {
      var t', c := t[..|t| - 1], t[|t| - 1];
      var st := s + t;
      assert st[..|st| - 1] == s + t' && st[|st| - 1] == c;
      AllHexAppend(s, t');
      ParseHexAppend(s, t');
      var a, p, b, d := ParseHex(s), Pow16(|t'|), ParseHex(t'), DigitValue(c);
      assert ParseHex(st) == 16 * ParseHex(s + t') + d;
      assert ParseHex(t) == 16 * b + d;
      assert Pow16(|t|) == 16 * p;
      ShiftDigit(a, p, b, d);
    }
  }

  lemma AllHexAppend(s: string, t: string)
    requires AllHex(s) && AllHex(t)
    ensures AllHex(s + t)
  {
    var st := s + t;
    forall i | 0 <= i < |st| ensures IsHexDigit(st[i]) {
      if i < |s| { assert st[i] == s[i]; } else { assert st[i] == t[i - |s|]; }
    }
  }

  lemma ShiftDigit(a: int, p: int, b: int, d: int)
    ensures 16 * (a * p + b) + d == a * (16 * p) + (16 * b + d)
  {
    assert 16 * (a * p) == a * (16 * p);
  }

  /** Reading back `width` fixed digits of `v` gives `v` modulo 16^width. */
  lemma {:induction false} ParseFixed(v: nat, width: nat)
    ensures ParseHex(Fixed(v, width)) == v % Pow16(width)
  {
    if width > 0 {
      var s := Fixed(v, width);
      var init := Fixed(v / 16, width - 1);
      var p := Pow16(width - 1);
      assert s[..|s| - 1] == init;
      ParseFixed(v / 16, width - 1);
      assert ParseHex(s) == 16 * (v / 16 % p) + v % 16;
      Arithmetic.DivModSplit(v, 16, p);
    }
  }

  /** Reading back the shortest rendering of `n` gives `n`. */
  lemma {:induction false} ParseToHex(n: nat)
    ensures ParseHex(ToHex(n)) == n
  {
    if n >= 16 {
      var s := ToHex(n);
      assert s[..|s| - 1] == ToHex(n / 16);
      ParseToHex(n / 16);
    }
  }

  /** Reading back the shortest decimal rendering of `n` gives `n`. */
  lemma {:induction false} ParseToDecimal(n: nat)
    ensures ParseDecimal(Decimal(n)) == n
  {
    if n >= 10 {
      var s := Decimal(n);
      assert s[..|s| - 1] == Decimal(n / 10);
      ParseToDecimal(n / 10);
    }
  }

  /** Upper-casing hexadecimal digits does not change their value. */
  lemma {:induction false} ParseUpperCase(s: string)
    requires AllHex(s)
    ensures IsLowerHex(s) ==> IsUpperHex(UpperCase(s))
    ensures AllHex(UpperCase(s)) && ParseHex(UpperCase(s)) == ParseHex(s)
  {
    UpperCaseDigits(s);
    if s != [] {
      var u := UpperCase(s);
      var init := s[..|s| - 1];
      assert u[..|u| - 1] == UpperCase(init);
      ParseUpperCase(init);
      assert DigitValue(u[|u| - 1]) == DigitValue(s[|s| - 1]);
    }
  }

  /** Upper-casing maps hexadecimal digits to hexadecimal digits. */
  lemma UpperCaseDigits(s: string)
    requires AllHex(s)
    ensures IsLowerHex(s) ==> IsUpperHex(UpperCase(s))
    ensures AllHex(UpperCase(s))
  {
    var u := UpperCase(s);
    UpperCaseAt(s);
    forall i | 0 <= i < |u| ensures IsHexDigit(u[i]) && (IsLowerHex(s) ==> '0' <= u[i] <= '9' || 'A' <= u[i] <= 'F') {
      assert IsHexDigit(s[i]);
    }
  }

  /** Leading zeros do not change the value of a hexadecimal run. */
  lemma {:induction false} ParseLeadingZeros(k: nat, s: string)
    requires AllHex(s)
    ensures AllHex(seq(k, _ => '0') + s)
    ensures ParseHex(seq(k, _ => '0') + s) == ParseHex(s)
  {
    var z: string := seq(k, _ => '0');
    ParseHexAppend(z, s);
    ParseZeros(k);
  }

  lemma {:induction false} ParseZeros(k: nat)
    ensures AllHex(seq(k, _ => '0')) && ParseHex(seq(k, _ => '0')) == 0
  {
    if k > 0 {
      var z: string := seq(k, _ => '0');
      assert z[..k - 1] == seq(k - 1, _ => '0');
      ParseZeros(k - 1);
    }
  }

  /** The padded string ends with the original and is filled with `c` before it. */
  lemma PadStartShape(s: string, width: nat, c: char)
    ensures var r := PadStart(s, width, c);
            r[|r| - |s|..] == s && forall i :: 0 <= i < |r| - |s| ==> r[i] == c
  {
  }

  /** Padding a run of upper-case digits with '0' keeps it an upper-case run of the same value. */
  lemma PadHex(digits: string, width: nat)
    requires AllHex(digits) && IsUpperHex(digits)
    ensures AllHex(PadStart(digits, width, '0')) && IsUpperHex(PadStart(digits, width, '0'))
    ensures ParseHex(PadStart(digits, width, '0')) == ParseHex(digits)
  {
    var padded := PadStart(digits, width, '0');
    assert padded == seq(|padded| - |digits|, _ => '0') + digits;
    ParseLeadingZeros(|padded| - |digits|, digits);
  }

  /** Distinct values below 16^width have distinct fixed renderings. */
  lemma FixedInjective(a: nat, b: nat, width: nat)
    requires a < Pow16(width) && b < Pow16(width) && Fixed(a, width) == Fixed(b, width)
    ensures a == b
  {
    ParseFixed(a, width);
    ParseFixed(b, width);
  }
}
