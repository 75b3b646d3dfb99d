/** The `Opcode` value of chip8_core.py: a 16-bit instruction word with its
    operand fields decoded by masks and shifts, and its four-digit upper-case
    hexadecimal spelling, through which the interpreter indexes single digits
    (`opcode[0]`, `opcode[3]`) and the low byte (`opcode[2:]`). */
module Decoder {
  import opened Bits

  datatype Option<T> = None | Some(value: T)

  /** The upper-case hexadecimal digit for d. */
  function HexChar(d: nat): (c: char)
    requires d < 16
    ensures ('0' <= c <= '9') || ('A' <= c <= 'F')
  {
    if d < 10 then (('0' as int) + d) as char else (('A' as int) + d - 10) as char
  }

  /** The value of one hexadecimal digit of either case; None for any other
      character. */
  function HexDigitValue(c: char): (r: Option<nat>)
    ensures r.Some? ==> r.value < 16
    ensures r.Some? <==> ('0' <= c <= '9') || ('A' <= c <= 'F') || ('a' <= c <= 'f')
  {
    if '0' <= c <= '9' then Some(c as int - '0' as int)
    else if 'A' <= c <= 'F' then Some(c as int - 'A' as int + 10)
    else if 'a' <= c <= 'f' then Some(c as int - 'a' as int + 10)
    else None
  }

  /** A digit and its character are inverse. */
  lemma HexDigitRoundTrip(d: nat)
    requires d < 16
    ensures HexDigitValue(HexChar(d)) == Some(d)
  {
  }

  /** `int(s, base=16)` for a string of hexadecimal digits: None (a
      ValueError) for the empty string or a character that is not a digit. */
  function ParseHex(s: string): (r: Option<nat>)
    ensures r.Some? <==> |s| > 0 && forall i :: 0 <= i < |s| ==> HexDigitValue(s[i]).Some?
  {
    if |s| == 0 then None
    else
      var last := HexDigitValue(s[|s| - 1]);
      if last.None? then None
      else if |s| == 1 then last
      else
        match ParseHex(s[..|s| - 1])
        case None => None
        case Some(high) => Some(16 * high + last.value)
  }

  /** Appending a digit to a hexadecimal numeral multiplies by 16 and adds
      the digit. */
  lemma ParseHexAppend(s: string, d: nat)
    requires d < 16
    ensures ParseHex(s) == None ==> ParseHex(s + [HexChar(d)]) == (if s == [] then Some(d) else None)
    ensures ParseHex(s).Some? ==> ParseHex(s + [HexChar(d)]) == Some(16 * ParseHex(s).value + d)
  {
    var t := s + [HexChar(d)];
    assert t[..|t| - 1] == s;
    HexDigitRoundTrip(d);
  }

  /** The hexadecimal digit at position k (counting from the least significant
      nibble, k = 0..3) of a 16-bit word. */
  function Nibble(v: Word, k: nat): (r: nat)
    requires k < 4
    ensures r < 16
  {
    if k == 0 then v % 0x10
    else if k == 1 then (v / 0x10) % 0x10
    else if k == 2 then (v / 0x100) % 0x10
    else v / 0x1000
  }

  /** A word is rebuilt from its four nibbles. */
  lemma NibblesCompose(v: Word)
    ensures v == ((Nibble(v, 3) * 16 + Nibble(v, 2)) * 16 + Nibble(v, 1)) * 16 + Nibble(v, 0)
  {
    var n3, n2, n1, n0 := v / 0x1000, (v / 0x100) % 0x10, (v / 0x10) % 0x10, v % 0x10;
    assert v / 0x100 == n3 * 16 + n2;
    assert v / 0x10 == (v / 0x100) * 16 + n1;
    assert v == (v / 0x10) * 16 + n0;
  }

  /** The low byte of a word is its two low nibbles. */
  lemma LowByteNibbles(v: Word)
    ensures v % 0x100 == Nibble(v, 1) * 16 + Nibble(v, 0)
  {
    var q := v / 0x100;
    assert v == q * 0x100 + v % 0x100;
    assert v / 0x10 == q * 0x10 + (v % 0x100) / 0x10;
  }

  datatype Opcode = Opcode(value: Word)
  {
    /** The second nibble, a register number. */
    function X(): (r: nat)
      ensures r < 16
    {
      (value / 0x100) % 0x10
    }

    /** The third nibble, a register number. */
    function Y(): (r: nat)
      ensures r < 16
    {
      (value / 0x10) % 0x10
    }

    /** The low byte. */
    function NN(): Byte
    {
      value % 0x100
    }

    /** The low twelve bits, an address. */
    function NNN(): (r: nat)
      ensures r < 0x1000
    {
      value % 0x1000
    }

    /** The fields are the masks and shifts the source computes them with:
        `(value & 0x0F00) >> 8`, `(value & 0x00F0) >> 4`, `value & 0x00FF`
        and `value & 0x0FFF`. */
    lemma MaskedFields()
      ensures X() == ShiftRight(BitAnd(value, 0x0F00), 8)
      ensures Y() == ShiftRight(BitAnd(value, 0x00F0), 4)
      ensures NN() == BitAnd(value, 0x00FF)
      ensures NNN() == BitAnd(value, 0x0FFF)
    {
      NibbleAt(value);
      MaskByte(value);
      MaskAddress(value);
    }

    /** `format(value, '04X')`: four upper-case hexadecimal digits that
        parse back to the value. */
    function Hex(): (r: string)
      ensures |r| == 4 && ParseHex(r) == Some(value)
      ensures forall i :: 0 <= i < 4 ==> r[i] == HexChar(Nibble(value, 3 - i))
    {
      var n3, n2, n1, n0 := Nibble(value, 3), Nibble(value, 2), Nibble(value, 1), Nibble(value, 0);
      ParseHexAppend([], n3);
      ParseHexAppend([HexChar(n3)], n2);
      ParseHexAppend([HexChar(n3), HexChar(n2)], n1);
      ParseHexAppend([HexChar(n3), HexChar(n2), HexChar(n1)], n0);
      NibblesCompose(value);
      var r := [HexChar(n3), HexChar(n2), HexChar(n1), HexChar(n0)];
      assert [] + [HexChar(n3)] == [HexChar(n3)];
      assert [HexChar(n3)] + [HexChar(n2)] == r[..2];
      assert r[..2] + [HexChar(n1)] == r[..3];
      assert r[..3] + [HexChar(n0)] == r;
      r
    }

    /** `opcode[i]` for an integer index: the hexadecimal digit at that
        position of `Hex()`, with negative positions counted from the end;
        None (an IndexError) outside -4..3. */
    function Item(i: int): (r: Option<nat>)
      ensures r.Some? <==> -4 <= i < 4
      ensures -4 <= i < 4 ==> r == Some(Nibble(value, 3 - (i % 4)))
    {
      if -4 <= i < 4 then
        var j := if i < 0 then i + 4 else i;
        HexDigitRoundTrip(Nibble(value, 3 - j));
        HexDigitValue(Hex()[j])
      else None
    }

    /** `opcode[start:]`: the value of the hexadecimal digits from position
        start on (a negative start counts from the end and is clamped at the
        front); None (a ValueError) when no digit is left. */
    function Suffix(start: int): (r: Option<nat>)
      ensures r.Some? <==> start < 4
    {
      var j := if start < -4 then 0 else if start < 0 then start + 4 else start;
      if j >= 4 then None
      else
        var s := Hex()[j..];
        assert forall i :: 0 <= i < |s| ==> s[i] == HexChar(Nibble(value, 3 - (j + i)));
        ParseHex(s)
    }

    /** Item 0 is the top nibble and item 3 the low nibble; Item 1 and 2
        coincide with X and Y. */
    lemma ItemFields()
      ensures Item(0) == Some(value / 0x1000) && Item(3) == Some(value % 0x10)
      ensures Item(1) == Some(X()) && Item(2) == Some(Y())
    {
    }

    /** `opcode[2:]` is the low byte NN. */
    lemma SuffixIsLowByte()
      ensures Suffix(2) == Some(NN())
    {
      var n1, n0 := Nibble(value, 1), Nibble(value, 0);
      assert Hex()[2..] == [HexChar(n1)] + [HexChar(n0)];
      assert Suffix(2) == ParseHex(Hex()[2..]);
      ParseHexAppend([], n1);
      ParseHexAppend([HexChar(n1)], n0);
      assert [] + [HexChar(n1)] == [HexChar(n1)];
      LowByteNibbles(value);
    }

    /** The fields overlap as the instruction formats say: NNN is X followed
        by NN, and the word is its top nibble followed by NNN. */
    lemma FieldsCompose()
      ensures NNN() == X() * 0x100 + NN()
      ensures value == (value / 0x1000) * 0x1000 + NNN()
    {
      assert value % 0x1000 == ((value / 0x100) % 0x10) * 0x100 + value % 0x100;
    }
  }
}
