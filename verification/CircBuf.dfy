/** The circular buffer: index arithmetic by masks on wrapping unsigned words, copies in two
    segments, and the bounded queue it implements. */
module CircBuf {
  import opened Bytes
  import opened Mask

  // The macros. `size` is the number of cells minus one.

  function Space(head: nat, tail: nat, size: nat): nat {
    And(Sub(Sub(head, tail), 1), size)
  }

  function RawSpace(head: nat, tail: nat, size: nat): nat {
    if tail >= head then Sub(size, tail) + (if head > 0 then 1 else 0) else Sub(Sub(head, tail), 1)
  }

  function Count(head: nat, tail: nat, size: nat): nat {
    And(Sub(tail, head), size)
  }

  function RawCount(head: nat, tail: nat, size: nat): nat {
    if head <= tail then Sub(tail, head) else Sub(size + 1, head)
  }

  /** Advance of an index by `nbytes`. */
  function Advance(index: nat, nbytes: nat, size: nat): nat {
    And((index + nbytes) % WORD, size)
  }

  predicate Empty(head: nat, tail: nat) {
    tail == head
  }

  predicate Full(head: nat, tail: nat, size: nat) {
    And((tail + 1) % WORD, size) == head
  }

  /** A size the initialisation accepts, and indices inside the buffer. */
  predicate Indices(head: nat, tail: nat, size: nat) {
    7 <= size && size + 1 < WORD && IsPowerOfTwo(size + 1) && head <= size && tail <= size
  }

  // What the macros compute.

  lemma SmallModulo(x: int, n: nat)
    requires n > 0
    ensures 0 <= x < n ==> x % n == x
    ensures 0 - n <= x < 0 ==> x % n == x + n
    ensures n <= x < 2 * n ==> x % n == x - n
  {
    if 0 <= x < n {
      ModuloUnique(x, n, 0, x);
    } else if 0 - n <= x < 0 {
      ModuloUnique(x, n, -1, x + n);
    } else if n <= x < 2 * n {
      ModuloUnique(x, n, 1, x - n);
    }
  }

  lemma SubChain(a: int, b: int)
    ensures Sub(Sub(a, b), 1) == (a - b - 1) % WORD
  {
    var q := (a - b) / WORD;
    var x := a - b - 1;
    ModuloOfSum(a - b, -1, WORD);
  }

  lemma ModuloOfSum(x: int, y: int, n: nat)
    requires n > 0
    ensures (x % n + y) % n == (x + y) % n
  {
    var z := x % n + y;
    ModuloUnique(x + y, n, x / n + z / n, z % n);
  }

  /** Distance from `head` to `tail` around the ring. */
  function Distance(head: nat, tail: nat, size: nat): nat
    requires head <= size && tail <= size
  {
    if tail >= head then tail - head else tail + size + 1 - head
  }

  lemma CountMeasures(head: nat, tail: nat, size: nat)
    requires Indices(head, tail, size)
    ensures Count(head, tail, size) == Distance(head, tail, size)
  {
    MaskIsModulo(tail - head, size);
    SmallModulo(tail - head, size + 1);
  }

  lemma SpaceMeasures(head: nat, tail: nat, size: nat)
    requires Indices(head, tail, size)
    ensures Space(head, tail, size) == size - Distance(head, tail, size)
  {
    SubChain(head, tail);
    MaskIsModulo(head - tail - 1, size);
    SmallModulo(head - tail - 1, size + 1);
  }

  lemma RawMeasures(head: nat, tail: nat, size: nat)
    requires Indices(head, tail, size)
    ensures RawSpace(head, tail, size) ==
            if head > tail then head - tail - 1 else if head > 0 then size + 1 - tail else size - tail
    ensures RawCount(head, tail, size) == if head <= tail then tail - head else size + 1 - head
  {
    SubChain(head, tail);
    SmallModulo(head - tail - 1, WORD);
    SmallModulo(size - tail, WORD);
    SmallModulo(tail - head, WORD);
    SmallModulo(size + 1 - head, WORD);
  }

  lemma FullMeasures(head: nat, tail: nat, size: nat)
    requires Indices(head, tail, size)
    ensures Full(head, tail, size) <==> Distance(head, tail, size) == size
  {
    MaskIsModulo(tail + 1, size);
    SmallModulo(tail + 1, size + 1);
  }

  function Min(a: nat, b: nat): nat {
    if a <= b then a else b
  }

  /** MAIN: on every pair of indices inside the buffer the macros are the distances around the ring:
      space and count share the cells but one, the raw amounts are the parts of them before the end
      of the storage, and the empty and full tests agree with them. */
  lemma MacrosMeasureTheRing(head: nat, tail: nat, size: nat)
    requires Indices(head, tail, size)
    ensures Count(head, tail, size) == Distance(head, tail, size)
    ensures Space(head, tail, size) + Count(head, tail, size) == size
    ensures RawSpace(head, tail, size) == Min(Space(head, tail, size), size + 1 - tail)
    ensures RawCount(head, tail, size) == Min(Count(head, tail, size), size + 1 - head)
    ensures Empty(head, tail) <==> Count(head, tail, size) == 0
    ensures Full(head, tail, size) <==> Space(head, tail, size) == 0
  {
    hide Count, Space, RawSpace, RawCount, Full;
    CountMeasures(head, tail, size);
    SpaceMeasures(head, tail, size);
    RawMeasures(head, tail, size);
    FullMeasures(head, tail, size);
  }

  lemma AdvanceWraps(index: nat, nbytes: nat, size: nat)
    requires Indices(index, index, size) && nbytes <= size
    ensures Advance(index, nbytes, size) == (index + nbytes) % (size + 1)
    ensures Advance(index, nbytes, size) ==
            if index + nbytes <= size then index + nbytes else index + nbytes - (size + 1)
  {
    MaskIsModulo(index + nbytes, size);
    SmallModulo(index + nbytes, size + 1);
  }

  // The queue held in the ring.

  /** Cell number `i` counted from `index` on around a ring of `n` cells. */
  function Cell(index: nat, i: nat, n: nat): (c: nat)
    requires index < n && i < n
    ensures c < n
  {
    if index + i < n then index + i else index + i - n
  }

  function Queue(ring: seq<byte>, head: nat, count: nat): (q: seq<byte>)
    requires head < |ring| && count <= |ring|
    ensures |q| == count
  {
    seq(count, i requires 0 <= i < count => ring[Cell(head, i, |ring|)])
  }

  /** `ring'` is `ring` with `data` in consecutive cells from `at` on. */
  ghost predicate Stored(ring: seq<byte>, ring': seq<byte>, at: nat, data: seq<byte>)
    requires at < |ring| && |data| < |ring|
  {
    && |ring'| == |ring|
    && (forall i :: 0 <= i < |data| ==> ring'[Cell(at, i, |ring|)] == data[i])
    && (forall c {:trigger ring'[c]} :: 0 <= c < |ring| && !InBlock(c, at, |data|, |ring|) ==> ring'[c] == ring[c])
  }

  predicate InBlock(c: nat, at: nat, len: nat, n: nat)
    requires at < n && c < n && len < n
  {
    (if c >= at then c - at else c - at + n) < len
  }

  /** Storing a block in the cells behind the queue appends it, whatever the segments it was
      stored in. */
  lemma StoreAppends(ring: seq<byte>, ring': seq<byte>, head: nat, count: nat, data: seq<byte>)
    requires head < |ring| && count + |data| < |ring|
    requires Stored(ring, ring', Cell(head, count, |ring|), data)
    ensures |ring'| == |ring|
    ensures Queue(ring', head, count + |data|) == Queue(ring, head, count) + data
  {
    var n := |ring|;
    forall i | 0 <= i < count + |data|
      ensures Queue(ring', head, count + |data|)[i] == (Queue(ring, head, count) + data)[i]
    {
      if i >= count {
        assert Cell(Cell(head, count, n), i - count, n) == Cell(head, i, n);
      } else {
        assert !InBlock(Cell(head, i, n), Cell(head, count, n), |data|, n);
      }
    }
  }

  /** Moving the head drops the front of the queue. */
  lemma AdvanceDrops(ring: seq<byte>, head: nat, count: nat, k: nat)
    requires head < |ring| && k <= count < |ring|
    ensures Queue(ring, Cell(head, k, |ring|), count - k) == Queue(ring, head, count)[k..]
  {
    var n := |ring|;
    forall i | 0 <= i < count - k
      ensures Cell(Cell(head, k, n), i, n) == Cell(head, k + i, n)
    {
    }
  }

  /** Effect of storing `data` at the write position, in one segment or two, and advancing the tail. */
  lemma WriteEffect(ring: seq<byte>, ring': seq<byte>, head: nat, tail: nat, size: nat, data: seq<byte>, raw: nat)
    requires Indices(head, tail, size) && |ring| == size + 1
    requires |data| <= Space(head, tail, size)
             && (raw == RawSpace(head, tail, size) || raw == |data| <= RawSpace(head, tail, size))
    requires ring' == if raw >= |data| then ring[..tail] + data + ring[Min(tail + |data|, |ring|)..]
                      else data[raw..] + ring[Min(|data| - raw, tail)..tail] + data[..raw]
    ensures |ring'| == |ring| && Indices(head, Advance(tail, |data|, size), size)
    ensures Count(head, tail, size) + |data| == Count(head, Advance(tail, |data|, size), size) <= size
    ensures Queue(ring', head, Count(head, tail, size) + |data|) == Queue(ring, head, Count(head, tail, size)) + data
  {
    hide Count, Space, RawSpace, RawCount, Full, Advance, Queue;
    MacrosMeasureTheRing(head, tail, size);
    AdvanceWraps(tail, |data|, size);
    MacrosMeasureTheRing(head, Advance(tail, |data|, size), size);
    hide Stored;
    TwoSegments(ring, ring', tail, data, raw);
    assert Cell(head, Distance(head, tail, size), |ring|) == tail;
    StoreAppends(ring, ring', head, Count(head, tail, size), data);
  }

  /** Effect of copying `k` bytes from the read position, in one segment or two, and advancing the head. */
  lemma ReadEffect(ring: seq<byte>, head: nat, tail: nat, size: nat, k: nat, raw: nat)
    requires Indices(head, tail, size) && |ring| == size + 1
    requires k <= Count(head, tail, size)
             && (raw == RawCount(head, tail, size) || raw == k <= RawCount(head, tail, size))
    ensures Count(head, tail, size) <= size && Indices(Advance(head, k, size), tail, size)
    ensures Count(Advance(head, k, size), tail, size) == Count(head, tail, size) - k
    ensures Queue(ring, Advance(head, k, size), Count(head, tail, size) - k) ==
            Queue(ring, head, Count(head, tail, size))[k..]
    ensures if raw >= k then head + k <= |ring| else k - raw <= |ring| && raw == |ring| - head
    ensures Queue(ring, head, Count(head, tail, size))[..k] ==
            if raw >= k then ring[head..head + k] else ring[head..] + ring[..k - raw]
  {
    hide Count, Space, RawSpace, RawCount, Full, Advance, Queue;
    MacrosMeasureTheRing(head, tail, size);
    AdvanceWraps(head, k, size);
    MacrosMeasureTheRing(Advance(head, k, size), tail, size);
    TwoSegmentsOut(ring, head, Count(head, tail, size), k, raw);
    AdvanceDrops(ring, head, Count(head, tail, size), k);
  }

  class CircBufType {
    var head: nat
    var tail: nat
    var size: nat
    var buf: array?<byte>

    ghost predicate Valid()
      reads this
    {
      Indices(head, tail, size) && buf != null && buf.Length == size + 1
    }

    ghost function Contents(): (q: seq<byte>)
      requires Valid()
      reads this, buf
    {
      MacrosMeasureTheRing(head, tail, size);
      Queue(buf[..], head, Count(head, tail, size))
    }

    /** The structure before its initialisation. */
    constructor ()
      ensures buf == null
    {
      head, tail, size, buf := 0, 0, 0, null;
    }

    /** Accepts exactly buffers of a power of two of at least eight cells; refuses without a trace. */
    method Init(store: array?<byte>, nbytes: nat) returns (ret: int)
      requires nbytes < WORD && (store != null ==> store.Length == nbytes)
      modifies this
      ensures ret == 1 <==> store != null && nbytes >= 8 && exists k: nat :: nbytes == Pow2(k)
      ensures ret == 1 ==> Valid() && buf == store && size + 1 == nbytes && Contents() == []
      ensures ret != 1 ==> ret == -1 && unchanged(this)
    {
      ret := -1;
      IsPowerOfTwoIff(nbytes);
      if nbytes > 7 && IsPowerOfTwo(nbytes) && store != null {
        size := nbytes - 1;
        head := 0;
        tail := 0;
        buf := store;
        ret := 1;
        MacrosMeasureTheRing(head, tail, size);
      }
    }

    /** memcpy into the ring. */
    method CopyIn(at: nat, data: seq<byte>)
      requires buf != null && at + |data| <= buf.Length
      modifies buf
      ensures buf[..] == old(buf[..at]) + data + old(buf[at + |data|..])
    {
      for i := 0 to |data|
        invariant forall j :: 0 <= j < buf.Length ==>
                    buf[j] == if at <= j < at + i then data[j - at] else old(buf[j])
      {
        buf[at + i] := data[i];
      }
    }

    /** memcpy out of the ring. */
    method CopyOut(at: nat, dst: array<byte>, off: nat, n: nat)
      requires buf != null && dst != buf && at + n <= buf.Length && off + n <= dst.Length
      modifies dst
      ensures buf[..] == old(buf[..])
      ensures dst[..] == old(dst[..])[..off] + buf[..][at..at + n] + old(dst[..])[off + n..]
    {
      for i := 0 to n
        invariant forall j :: 0 <= j < dst.Length ==>
                    dst[j] == if off <= j < off + i then buf[at + j - off] else old(dst[j])
      {
        dst[off + i] := buf[at + i];
      }
    }

    /** Appends all of `data` or nothing. */
    method Put(data: seq<byte>) returns (ret: nat)
      requires Valid()
      modifies this`tail, buf
      ensures Valid()
      ensures ret == if |old(Contents())| + |data| <= size then |data| else 0
      ensures Contents() == if ret == |data| then old(Contents()) + data else old(Contents())
    {
      hide Count, Space, RawSpace, RawCount, Full, Advance, Queue;
      ret := 0;
      var h := head;
      MacrosMeasureTheRing(head, tail, size);
      if Space(h, tail, size) >= |data| {
        ghost var ring := buf[..];
        var rawSpace := RawSpace(h, tail, size);
        if rawSpace >= |data| {
          CopyIn(tail, data);
        } else {
          CopyIn(tail, data[..rawSpace]);
          ghost var ring1 := buf[..];
          CopyIn(0, data[rawSpace..]);
          SecondSegment(ring, ring1, buf[..], tail, data, rawSpace);
        }
        WriteEffect(ring, buf[..], head, tail, size, data, rawSpace);
        tail := Advance(tail, |data|, size);
        ret := |data|;
      }
    }

    /** Moves the longest available front part of at most `nbytes` bytes to `data`. */
    method Get(data: array<byte>, nbytes: nat) returns (ret: nat)
      requires Valid() && data != buf
      requires nbytes <= data.Length || |Contents()| <= data.Length
      modifies this`head, data
      ensures Valid()
      ensures ret == if nbytes <= |old(Contents())| then nbytes else |old(Contents())|
      ensures Contents() == old(Contents())[ret..]
      ensures data[..] == Overlay(old(data[..]), old(Contents())[..ret])
    {
      hide Count, Space, RawSpace, RawCount, Full, Advance, Queue, Overlay;
      ret := nbytes;
      var t := tail;
      MacrosMeasureTheRing(head, tail, size);
      if ret > Count(head, t, size) {
        ret := Count(head, t, size);
      }
      if ret > 0 {
        CopyFront(data, ret);
        ReadEffect(buf[..], head, tail, size, ret, RawCount(head, t, size));
        head := Advance(head, ret, size);
      } else {
        OverlayNothing(data[..]);
      }
    }

    /** `m` bytes from `at` on, then `n` bytes from the start of the ring. */
    method CopyOutTwice(at: nat, dst: array<byte>, m: nat, n: nat)
      requires buf != null && dst != buf && at + m <= buf.Length && n <= buf.Length && m + n <= dst.Length
      modifies dst
      ensures buf[..] == old(buf[..])
      ensures dst[..] == Overlay(old(dst[..]), buf[..][at..at + m] + buf[..][0..0 + n])
    {
      hide Overlay;
      ghost var ring, before := buf[..], dst[..];
      CopyOut(at, dst, 0, m);
      ghost var after := dst[..];
      CopyOut(0, dst, m, n);
      SecondCopy(before, after, dst[..], ring[at..at + m], ring[0..0 + n], m, n);
    }

    /** The front of the queue, in one segment or two. */
    lemma FrontSegments(n: nat)
      requires Valid() && n <= |Contents()|
      ensures var ring, raw := buf[..], RawCount(head, tail, size);
              if n <= raw then head + n <= |ring| && Contents()[..n] == ring[head..head + n]
              else head + raw <= |ring| && n - raw <= |ring|
                   && Contents()[..n] == ring[head..head + raw] + ring[0..0 + (n - raw)]
    {
      hide Count, Space, RawSpace, RawCount, Full, Advance, Queue;
      ReadEffect(buf[..], head, tail, size, n, RawCount(head, tail, size));
    }

    /** Copies the front of the queue, in one segment or two. */
    method CopyFront(data: array<byte>, n: nat)
      requires Valid() && data != buf && n <= |Contents()| && n <= data.Length
      modifies data
      ensures data[..] == Overlay(old(data[..]), Contents()[..n])
    {
      hide RawCount, Contents, Overlay, Indices;
      var rawCount := RawCount(head, tail, size);
      FrontSegments(n);
      ghost var ring, before := buf[..], data[..];
      if n <= rawCount {
        CopyOut(head, data, 0, n);
        FirstCopy(before, data[..], ring[head..head + n], n);
      } else {
        CopyOutTwice(head, data, rawCount, n - rawCount);
      }
    }

    /** The writer's own way: bytes stored at the write position by the caller, then published. */
    method UpdateTail(nbytes: nat, ghost ring: seq<byte>, ghost data: seq<byte>)
      requires Valid() && nbytes == |data| <= RawSpace(head, tail, size) && |ring| == size + 1
      requires tail + |data| <= size + 1 && buf[..] == ring[..tail] + data + ring[tail + |data|..]
      modifies this`tail
      ensures Valid()
      ensures nbytes <= size - Count(head, old(tail), size)
      ensures Contents() == Queue(ring, head, Count(head, old(tail), size)) + data
    {
      MacrosMeasureTheRing(head, tail, size);
      WriteEffect(ring, buf[..], head, tail, size, data, nbytes);
      tail := Advance(tail, nbytes, size);
    }

    /** The reader's own way: bytes at the read position used by the caller, then released. */
    method UpdateHead(nbytes: nat)
      requires Valid() && nbytes <= RawCount(head, tail, size)
      modifies this`head
      ensures Valid()
      ensures nbytes <= |old(Contents())| && old(head) + nbytes <= size + 1
      ensures old(buf[head..head + nbytes]) + Contents() == old(Contents())
    {
      hide Count, Space, RawSpace, RawCount, Full, Advance, Queue;
      MacrosMeasureTheRing(head, tail, size);
      ReadEffect(buf[..], head, tail, size, nbytes, nbytes);
      head := Advance(head, nbytes, size);
    }

    method Clean()
      requires Valid()
      modifies this`head, this`tail
      ensures Valid() && Contents() == []
    {
      head := 0;
      tail := 0;
      MacrosMeasureTheRing(head, tail, size);
    }
  }

  /** A block stored in one segment, or in two around the end of the ring, lies in consecutive cells. */
  lemma TwoSegments(ring: seq<byte>, ring': seq<byte>, tail: nat, data: seq<byte>, raw: nat)
    requires tail < |ring| && |data| < |ring|
    requires raw < |data| ==> raw == |ring| - tail
    requires raw >= |data| ==> tail + |data| <= |ring|
    requires ring' == if raw >= |data| then ring[..tail] + data + ring[tail + |data|..]
                      else data[raw..] + ring[|data| - raw..tail] + data[..raw]
    ensures Stored(ring, ring', tail, data)
  {
  }

  /** The second copy of a block that wraps. */
  lemma SecondSegment(ring: seq<byte>, ring1: seq<byte>, ring2: seq<byte>, tail: nat, data: seq<byte>, raw: nat)
    requires raw < |data| && tail + raw == |ring| && |data| - raw <= tail
    requires ring1 == ring[..tail] + data[..raw] + ring[tail + raw..]
    requires ring2 == ring1[..0] + data[raw..] + ring1[|data| - raw..]
    ensures ring2 == data[raw..] + ring[|data| - raw..tail] + data[..raw]
  {
  }

  lemma OverlayNothing(dst: seq<byte>)
    ensures Overlay(dst, []) == dst
  {
  }

  lemma FirstCopy(before: seq<byte>, after: seq<byte>, a: seq<byte>, m: nat)
    requires |a| == m <= |before| && after == before[..0] + a + before[0 + m..]
    ensures after == Overlay(before, a)
  {
  }

  lemma SecondCopy(before: seq<byte>, after1: seq<byte>, after2: seq<byte>, a: seq<byte>, b: seq<byte>, m: nat, n: nat)
    requires |a| == m && |b| == n && m + n <= |before|
    requires after1 == before[..0] + a + before[0 + m..]
    requires after2 == after1[..m] + b + after1[m + n..]
    ensures after2 == Overlay(before, a + b)
  {
  }

  lemma TwoSegmentsOut(ring: seq<byte>, head: nat, count: nat, k: nat, raw: nat)
    requires head < |ring| && k <= count < |ring|
    requires raw < k ==> raw == |ring| - head
    requires raw >= k ==> head + k <= |ring|
    ensures Queue(ring, head, count)[..k] == if raw >= k then ring[head..head + k] else ring[head..] + ring[..k - raw]
  {
  }
}
