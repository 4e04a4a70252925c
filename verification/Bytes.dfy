/** Machine integers of the firmware, written out as ranges of `int`. */
module Bytes {

  /** uint8_t */
  type byte = b: int | 0 <= b < 0x100

  /** uint16_t */
  type word = w: int | 0 <= w < 0x1_0000

  /** int16_t */
  type short = s: int | -0x8000 <= s < 0x8000

  datatype Option<+T> = None | Some(value: T)

  /** Truncation on assignment to a uint8_t. */
  function ToUint8(n: int): byte {
    n % 0x100
  }

  /** Truncation on assignment to a uint16_t. */
  function ToUint16(n: int): word {
    n % 0x1_0000
  }

  /** Conversion to int8_t: the low eight bits read as two's complement. */
  function ToInt8(n: int): int {
    var low := n % 0x100;
    if low < 0x80 then low else low - 0x100
  }

  /** Conversion of a uint16_t to int16_t. */
  function ToInt16(w: word): short {
    if w < 0x8000 then w else w - 0x1_0000
  }

  /** Big-endian read of two bytes. */
  function ReadInt(hi: byte, lo: byte): word {
    hi * 0x100 + lo
  }

  /** The two bytes of a big-endian write. */
  function WriteInt(num: int): (bs: seq<byte>)
    ensures |bs| == 2
  {
    [ToUint16(num) / 0x100, ToUint16(num) % 0x100]
  }

  /** `dst` with its first `|src|` cells replaced by `src`, cut to the length of `dst`. */
  function Overlay(dst: seq<byte>, src: seq<byte>): seq<byte> {
    if |src| <= |dst| then src + dst[|src|..] else src[..|dst|]
  }

  /** Big-endian words of a block of bytes. */
  function Words(bs: seq<byte>): seq<word> {
    seq(|bs| / 2, i requires 0 <= i < |bs| / 2 => ReadInt(bs[2 * i], bs[2 * i + 1]))
  }

  /** Big-endian bytes of a block of 16-bit values, signed or not. */
  function Unwords(ws: seq<int>): (bs: seq<byte>)
    ensures |bs| == 2 * |ws|
  {
    seq(2 * |ws|, i requires 0 <= i < 2 * |ws| => WriteInt(ws[i / 2])[i % 2])
  }

  /** Reading back what was written loses nothing: a 16-bit value survives the
      trip through two big-endian bytes. */
  lemma ReadWriteInt(num: int)
    ensures ReadInt(WriteInt(num)[0], WriteInt(num)[1]) == ToUint16(num)
  {
  }

  /** A block of 16-bit values survives the trip through the wire format. */
  lemma WordsOfUnwords(ws: seq<int>)
    ensures |Words(Unwords(ws))| == |ws|
    ensures forall i :: 0 <= i < |ws| ==> Words(Unwords(ws))[i] == ToUint16(ws[i])
  {
    var bs := Unwords(ws);
    forall i | 0 <= i < |ws|
      ensures Words(bs)[i] == ToUint16(ws[i])
    {
      UnwordsAt(ws, i);
      ReadWriteInt(ws[i]);
    }
  }

  lemma UnwordsAt(ws: seq<int>, i: nat)
    requires i < |ws|
    ensures Unwords(ws)[2 * i] == WriteInt(ws[i])[0] && Unwords(ws)[2 * i + 1] == WriteInt(ws[i])[1]
  {
    assert (2 * i) / 2 == i && (2 * i) % 2 == 0 && (2 * i + 1) / 2 == i && (2 * i + 1) % 2 == 1;
  }

  lemma UnwordsAppend(ws: seq<int>, w: int)
    ensures Unwords(ws + [w]) == Unwords(ws) + WriteInt(w)
  {
    var bs := Unwords(ws) + WriteInt(w);
    forall i | 0 <= i < |bs|
      ensures Unwords(ws + [w])[i] == bs[i]
    {
      if i >= 2 * |ws| {
        assert i / 2 == |ws| && i % 2 == i - 2 * |ws|;
      } else {
        assert (ws + [w])[i / 2] == ws[i / 2];
      }
    }
  }

  /** Two's complement: the signed value of a word is the one that truncates to it. */
  lemma SignedOfWord(w: word)
    ensures ToUint16(ToInt16(w)) == w && (ToInt16(w) - w) % 0x1_0000 == 0
  {
  }

  /** A word is the truncation of exactly the values that differ from it by a multiple of 2^16. */
  lemma Truncates(num: int, w: word)
    ensures ToUint16(num) == w <==> (num - w) % 0x1_0000 == 0
  {
    var q, r, p := num / 0x1_0000, num % 0x1_0000, (num - w) / 0x1_0000;
    assert num == 0x1_0000 * q + r;
    if (num - w) % 0x1_0000 == 0 {
      assert num - w == 0x1_0000 * p;
      assert r - w == 0x1_0000 * (p - q);
    }
  }

  lemma HighAndLow(w: word, hi: byte, lo: byte)
    ensures w == 256 * hi + lo <==> w / 0x100 == hi && w % 0x100 == lo
  {
  }

  /** The bytes of a value are its high byte and then its low byte, modulo 2^16. */
  lemma BigEndian(num: int, hi: byte, lo: byte)
    ensures WriteInt(num) == [hi, lo] <==> (num - (256 * hi + lo)) % 0x1_0000 == 0
  {
    hide ToUint16;
    Truncates(num, 256 * (hi as int) + lo);
    HighAndLow(ToUint16(num), hi, lo);
  }

  /** Storing two cells behind an overlay extends it. */
  lemma OverlayExtend(dst: seq<byte>, src: seq<byte>, hi: byte, lo: byte)
    requires |src| + 2 <= |dst|
    ensures |Overlay(dst, src)| == |dst|
    ensures Overlay(dst, src)[|src| := hi][|src| + 1 := lo] == Overlay(dst, src + [hi, lo])
  {
  }

  /** Bytes read as words and written back are the same bytes. */
  lemma UnwordsOfWords(bs: seq<byte>)
    requires |bs| % 2 == 0
    ensures Unwords(Words(bs)) == bs
  {
    var ws := Words(bs);
    forall i | 0 <= i < |bs|
      ensures Unwords(ws)[i] == bs[i]
    {
      var j := i / 2;
      assert i == 2 * j || i == 2 * j + 1;
      UnwordsAt(ws, j);
      WriteReadInt(bs[2 * j], bs[2 * j + 1]);
    }
  }

  lemma WriteReadInt(hi: byte, lo: byte)
    ensures WriteInt(ReadInt(hi, lo)) == [hi, lo]
  {
  }
}
