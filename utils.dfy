/** src/utils.mjs: `hexoffset`, the address label of the disassembler and the VM. */
module Utils {

  import opened Constants
  import opened HexFormat

  /** `hexoffset(address, maxBytes = 2)`: "0x" and the byte offset of a word address
      in upper-case hexadecimal, left padded with '0' to at least `2 * maxBytes`
      digits and never cut short. */
  function HexOffset(address: nat, maxBytes: nat := 2): (s: string)
    ensures |s| >= 2 && s[..2] == "0x"
    ensures var w := |ToHex(address * AddressSize)|; |s| == 2 + if w < 2 * maxBytes then 2 * maxBytes else w
  {
    var padded := PadStart(UpperCase(ToHex(address * AddressSize)), maxBytes * 2, '0');
    assert ("0x" + padded)[..2] == "0x";
    "0x" + padded
  }

  /** The digits after "0x" are upper-case hexadecimal and read back as the byte offset. */
  lemma HexOffsetValue(address: nat, maxBytes: nat)
    ensures var s := HexOffset(address, maxBytes);
            IsUpperHex(s[2..]) && AllHex(s[2..]) && ParseHex(s[2..]) == address * AddressSize
  {
    var hex := ToHex(address * AddressSize);
    ParseToHex(address * AddressSize);
    ParseUpperCase(hex);
    PadHex(UpperCase(hex), maxBytes * 2);
    var padded := PadStart(UpperCase(hex), maxBytes * 2, '0');
    assert HexOffset(address, maxBytes)[2..] == padded;
  }

  /** The default width gives at least four digits. */
  lemma HexOffsetDefaultWidth(address: nat)
    ensures |HexOffset(address)| >= 6
  {
  }

  lemma HexOffsetOfZero()
    ensures HexOffset(0) == "0x0000"
  {
  }
}
