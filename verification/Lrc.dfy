/** The longitudinal redundancy check of MODBUS ASCII
    (MODBUS over Serial Line V1.02, sections 2.5.2.2 and 6.2.1). */
module Lrc {
  import opened Bytes

  /** Sum of all bytes, unbounded. */
  function Sum(bs: seq<byte>): nat {
    if bs == [] then 0 else Sum(bs[..|bs| - 1]) + bs[|bs| - 1]
  }

  /** The check byte: two's complement of the sum. */
  function CheckByte(bs: seq<byte>): byte {
    (0 - Sum(bs)) % 0x100
  }

  /** A block whose last byte is a correct check byte for what precedes it. */
  predicate Checks(bs: seq<byte>) {
    |bs| > 0 && bs[|bs| - 1] == CheckByte(bs[..|bs| - 1])
  }

  method CalcLRC(buf: array<byte>, len: nat) returns (lrc: byte)
    requires len <= buf.Length
    ensures lrc == CheckByte(buf[..len])
  {
    lrc := 0;
    for loopi := 0 to len
      invariant lrc == Sum(buf[..loopi]) % 0x100
    {
      assert buf[..loopi + 1][..loopi] == buf[..loopi];
      AddModulo(Sum(buf[..loopi]), buf[loopi]);
      lrc := ToUint8(lrc + buf[loopi]);
    }
    NegateModulo(Sum(buf[..len]));
    lrc := ToUint8(0 - lrc);
  }

  method CheckLRC(buf: array<byte>, len: nat) returns (ok: bool)
    requires 0 < len <= buf.Length
    ensures ok == Checks(buf[..len])
  {
    var lrc := CalcLRC(buf, len - 1);
    assert buf[..len][..len - 1] == buf[..len - 1];
    ok := buf[len - 1] == lrc;
  }

  lemma QuotientUnique(x: int, q: int, r: int)
    requires x == 0x100 * q + r && 0 <= r < 0x100
    ensures x % 0x100 == r
  {
  }

  lemma AddModulo(s: int, b: byte)
    ensures (s % 0x100 + b) % 0x100 == (s + b) % 0x100
  {
    var q, r := s / 0x100, s % 0x100;
    if r + b < 0x100 {
      QuotientUnique(s + b, q, r + b);
    } else {
      QuotientUnique(s + b, q + 1, r + b - 0x100);
    }
  }

  lemma NegateModulo(s: int)
    ensures (0 - s % 0x100) % 0x100 == (0 - s) % 0x100
  {
    var q, r := s / 0x100, s % 0x100;
    if r == 0 {
      QuotientUnique(0 - s, -q, 0);
    } else {
      QuotientUnique(0 - s, -q - 1, 0x100 - r);
    }
  }

  lemma NegationModulo(s: int, c: byte)
    ensures c == (0 - s) % 0x100 <==> (s + c) % 0x100 == 0
  {
    var q, r := s / 0x100, s % 0x100;
    var n, carry := if r == 0 then 0 else 0x100 - r, if r == 0 then 0 else 1;
    QuotientUnique(0 - s, 0 - q - carry, n);
    if r + c < 0x100 {
      QuotientUnique(s + c, q, r + c);
    } else {
      QuotientUnique(s + c, q + 1, r + c - 0x100);
    }
  }

  /** A block checks exactly when all its bytes, check byte included, sum to 0 mod 256. */
  lemma ChecksIffSumZero(bs: seq<byte>)
    requires bs != []
    ensures Checks(bs) <==> Sum(bs) % 0x100 == 0
  {
    NegationModulo(Sum(bs[..|bs| - 1]), bs[|bs| - 1]);
  }

  /** The appended check byte always verifies. */
  lemma AppendedLrcChecks(bs: seq<byte>)
    ensures Checks(bs + [CheckByte(bs)])
  {
    assert (bs + [CheckByte(bs)])[..|bs|] == bs;
  }

  /** The sum is the one of the bytes: nothing, one byte, and the parts of a block. */
  lemma {:induction false} SumOfParts(a: seq<byte>, b: seq<byte>)
    ensures Sum([]) == 0 && (|a| == 1 ==> Sum(a) == a[0])
    ensures Sum(a + b) == Sum(a) + Sum(b)
  {
    if |a| == 1 {
      assert a[..0] == [];
    }
    if b == [] {
      assert a + b == a;
    } else {
      var n := |b| - 1;
      assert (a + b)[..|a| + n] == a + b[..n];
      SumOfParts(a, b[..n]);
    }
  }

  lemma {:induction false} SumUpdate(bs: seq<byte>, k: nat, b: byte)
    requires k < |bs|
    ensures Sum(bs[k := b]) == Sum(bs) - bs[k] + b
  {
    var n := |bs| - 1;
    if k == n {
      assert bs[k := b][..n] == bs[..n];
    } else {
      assert bs[k := b][..n] == bs[..n][k := b];
      SumUpdate(bs[..n], k, b);
    }
  }

  /** Every change of exactly one byte of a block that checks is detected,
      at any position, the check byte included. */
  lemma OneByteChangeDetected(bs: seq<byte>, k: nat, b: byte)
    requires k < |bs| && Checks(bs) && b != bs[k]
    ensures !Checks(bs[k := b])
  {
    ChecksIffSumZero(bs);
    ChecksIffSumZero(bs[k := b]);
    SumUpdate(bs, k, b);
    assert Sum(bs[k := b]) - Sum(bs) == b - bs[k];
  }
}
