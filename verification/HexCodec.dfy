/** Two upper-case hexadecimal characters per byte: the reference encoder and decoder, and the
    two loops of the ASCII layer that convert inside one buffer. */
module HexCodec {
  import opened Bytes

  /** The table '0'..'9', 'A'..'F'. */
  function HexDigit(n: int): byte
    requires 0 <= n < 16
  {
    if n < 10 then 0x30 + n else 0x41 + (n - 10)
  }

  /** The characters of a text. */
  function Text(s: string): (cs: seq<byte>)
    requires forall i :: 0 <= i < |s| ==> s[i] < 128 as char
    ensures |cs| == |s|
  {
    seq(|s|, i requires 0 <= i < |s| => s[i] as int)
  }

  /** The sixteen digits, and no other character is one. */
  lemma Alphabet(c: byte)
    ensures forall n :: 0 <= n < 16 ==> HexDigit(n) == Text("0123456789ABCDEF")[n]
    ensures IsHex(c) <==> c in Text("0123456789ABCDEF")
  {
    var t := Text("0123456789ABCDEF");
    if IsHex(c) {
      assert t[HexValue(c)] == c;
    }
  }

  predicate IsHex(c: byte) {
    0x30 <= c <= 0x39 || 0x41 <= c <= 0x46
  }

  function HexValue(c: byte): (n: int)
    requires IsHex(c)
    ensures 0 <= n < 16 && HexDigit(n) == c
  {
    if c <= 0x39 then c - 0x30 else c - 0x41 + 10
  }

  /** The character at position `i` of the encoding of `bs`. */
  function HexChar(bs: seq<byte>, i: nat): byte
    requires i < 2 * |bs|
  {
    if i % 2 == 0 then HexDigit(bs[i / 2] / 16) else HexDigit(bs[i / 2] % 16)
  }

  /** Reference encoder. */
  function Hex(bs: seq<byte>): (cs: seq<byte>)
    ensures |cs| == 2 * |bs|
  {
    seq(2 * |bs|, i requires 0 <= i < 2 * |bs| => HexChar(bs, i))
  }

  predicate AllHex(cs: seq<byte>) {
    forall i :: 0 <= i < |cs| ==> IsHex(cs[i])
  }

  /** The byte spelled by the pair of characters number `i`; 0 stands for no byte. */
  function PairAt(cs: seq<byte>, i: nat): byte
    requires 2 * i + 1 < |cs|
  {
    if IsHex(cs[2 * i]) && IsHex(cs[2 * i + 1]) then HexValue(cs[2 * i]) * 16 + HexValue(cs[2 * i + 1]) else 0
  }

  /** Reference decoder: defined on an even number of hexadecimal characters only. */
  function Unhex(cs: seq<byte>): Option<seq<byte>> {
    if |cs| % 2 == 0 && AllHex(cs) then
      Some(seq(|cs| / 2, i requires 0 <= i < |cs| / 2 => PairAt(cs, i)))
    else
      None
  }

  lemma HexPair(bs: seq<byte>, i: nat)
    requires i < |bs|
    ensures Hex(bs)[2 * i] == HexDigit(bs[i] / 16)
    ensures Hex(bs)[2 * i + 1] == HexDigit(bs[i] % 16)
  {
    assert (2 * i) / 2 == i && (2 * i) % 2 == 0 && (2 * i + 1) / 2 == i && (2 * i + 1) % 2 == 1;
  }

  /** Every encoding consists of hexadecimal characters. */
  lemma HexIsHex(bs: seq<byte>)
    ensures AllHex(Hex(bs))
  {
  }

  /** Decoding inverts encoding ... */
  lemma UnhexHex(bs: seq<byte>)
    ensures Unhex(Hex(bs)) == Some(bs)
  {
    HexIsHex(bs);
    var ds := Unhex(Hex(bs)).value;
    forall i | 0 <= i < |bs|
      ensures ds[i] == bs[i]
    {
      HexPair(bs, i);
    }
    assert ds == bs;
  }

  lemma DigitsOfByte(hi: byte, lo: byte)
    requires IsHex(hi) && IsHex(lo)
    ensures var b := HexValue(hi) * 16 + HexValue(lo);
            b < 0x100 && HexDigit(b / 16) == hi && HexDigit(b % 16) == lo
  {
    var h, l := HexValue(hi), HexValue(lo);
    assert (h * 16 + l) / 16 == h && (h * 16 + l) % 16 == l;
  }

  lemma HexUnhexPair(cs: seq<byte>, j: nat)
    requires Unhex(cs).Some? && j < |Unhex(cs).value|
    ensures 2 * j + 1 < |cs| && Hex(Unhex(cs).value)[2 * j] == cs[2 * j]
            && Hex(Unhex(cs).value)[2 * j + 1] == cs[2 * j + 1]
  {
    hide Hex, HexDigit, IsHex, HexValue;
    DigitsOfByte(cs[2 * j], cs[2 * j + 1]);
    HexPair(Unhex(cs).value, j);
  }

  /** ... and encoding inverts decoding: there is one spelling for each block of bytes. */
  lemma HexUnhex(cs: seq<byte>)
    requires Unhex(cs).Some?
    ensures Hex(Unhex(cs).value) == cs
  {
    hide Hex, PairAt, IsHex;
    var bs := Unhex(cs).value;
    forall i | 0 <= i < |cs|
      ensures Hex(bs)[i] == cs[i]
    {
      var j := i / 2;
      assert i == 2 * j || i == 2 * j + 1;
      HexUnhexPair(cs, j);
    }
    assert Hex(bs) == cs;
  }

  /** Compacts the characters buf[1..] into bytes at buf[0..], reading pairs that start before `len`;
      the last pair may reach buf[len]. A character that is not hexadecimal makes the result -1. */
  method Ascii2Bin(buf: array<byte>, len: nat) returns (ret: int)
    requires len < buf.Length
    modifies buf
    ensures ret == match Unhex(old(buf[1..2 * (len / 2) + 1])) case None => -1 case Some(bs) => |bs|
    ensures ret != -1 ==> old(Unhex(buf[1..2 * (len / 2) + 1])) == Some(buf[..ret])
    ensures forall j :: len / 2 <= j < buf.Length ==> buf[j] == old(buf[j])
  {
    hide HexDigit;
    ret := 0;
    var loopi, dest := 1, 0;
    ghost var cs := buf[1..2 * (len / 2) + 1];
    while loopi < len && ret != -1
      invariant loopi == 2 * dest + 1 && 0 <= dest <= len / 2
      invariant ret == -1 || ret == dest
      invariant ret == -1 ==> exists j :: 0 <= j < |cs| && !IsHex(cs[j])
      invariant ret != -1 ==> AllHex(cs[..2 * dest])
      invariant ret != -1 ==> forall j :: 0 <= j < dest ==> buf[j] == PairAt(cs, j)
      invariant forall j :: dest <= j < buf.Length ==> buf[j] == old(buf[j])
      decreases len + 1 - loopi
    {
      assert cs[2 * dest] == buf[loopi] && cs[2 * dest + 1] == buf[loopi + 1];
      var aux: byte := 0;
      if IsHex(buf[loopi]) {
        aux := HexValue(buf[loopi]) * 16;
      } else {
        ret := -2;
      }
      if IsHex(buf[loopi + 1]) {
        aux := aux + HexValue(buf[loopi + 1]);
      } else {
        ret := -2;
      }
      buf[dest] := aux;
      dest := dest + 1;
      ret := ret + 1;
      loopi := loopi + 2;
    }
    if ret != -1 {
      assert cs[..2 * dest] == cs;
      assert buf[..ret] == Unhex(cs).value;
    }
  }

  /** Expands the bytes buf[0..size] into characters at buf[1..], last byte first. */
  method Bin2Ascii(buf: array<byte>, size: nat)
    requires 2 * size < buf.Length
    modifies buf
    ensures buf[1..2 * size + 1] == Hex(old(buf[..size]))
    ensures forall j :: j == 0 || 2 * size < j < buf.Length ==> buf[j] == old(buf[j])
  {
    hide Hex, HexChar, HexDigit;
    ghost var bs := buf[..size];
    var loopi := size;
    while loopi > 0
      invariant 0 <= loopi <= size
      invariant forall j :: 2 * loopi < j <= 2 * size ==> buf[j] == Hex(bs)[j - 1]
      invariant forall j :: 0 <= j <= 2 * loopi || 2 * size < j < buf.Length ==> buf[j] == old(buf[j])
    {
      var upper, lower := buf[loopi - 1] / 16, buf[loopi - 1] % 16;
      HexPair(bs, loopi - 1);
      buf[2 * loopi - 1] := HexDigit(upper);
      buf[2 * loopi] := HexDigit(lower);
      loopi := loopi - 1;
    }
    assert buf[1..2 * size + 1] == Hex(bs);
  }
}
