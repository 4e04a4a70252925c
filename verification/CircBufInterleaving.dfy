/** One caller of Put and one caller of Get on the same circular buffer, interleaved step by step:
    each reads the other's index once, copies its bytes one at a time in any order, and publishes its
    own index at the end. Memory is sequentially consistent. */
module CircBufInterleaving {
  import opened Bytes
  import opened CircBuf

  /** Progress of the writer: its block, the raw space computed from its snapshot of the head, and
      the positions of the block still to be stored. */
  datatype Writer = WriterIdle | Storing(data: seq<byte>, rawSpace: nat, left: set<nat>)

  /** Progress of the reader: the destination, the raw count computed from its snapshot of the tail,
      and the positions still to be loaded. */
  datatype Reader = ReaderIdle | Loading(got: seq<byte>, rawCount: nat, left: set<nat>)

  /** Shared memory, both callers, and the history of published blocks. */
  datatype State = State(
    ring: seq<byte>, size: nat, head: nat, tail: nat,
    writer: Writer, reader: Reader,
    accepted: seq<byte>, delivered: seq<byte>)

  datatype Action =
    | BeginPut(data: seq<byte>)
    | Store(i: nat)
    | PublishTail
    | BeginGet(nbytes: nat)
    | Load(i: nat)
    | PublishHead

  /** Address of position `i` of a copy of `n` bytes that starts at `index` and wraps after `raw`. */
  function Address(index: nat, i: nat, n: nat, raw: nat): nat {
    if n <= raw || i < raw then index + i else i - raw
  }

  function Positions(n: nat): (ps: set<nat>)
    ensures forall i: int :: i in ps <==> 0 <= i < n
  {
    if n == 0 then {} else Positions(n - 1) + {n - 1}
  }

  predicate Shape(s: State) {
    && Indices(s.head, s.tail, s.size) && |s.ring| == s.size + 1
    && (s.writer.Storing? ==> forall i :: i in s.writer.left ==>
          i < |s.writer.data| && Address(s.tail, i, |s.writer.data|, s.writer.rawSpace) <= s.size)
    && (s.reader.Loading? ==> forall i :: i in s.reader.left ==>
          i < |s.reader.got| && Address(s.head, i, |s.reader.got|, s.reader.rawCount) <= s.size)
  }

  predicate Enabled(s: State, a: Action) {
    match a
    case BeginPut(_) => s.writer.WriterIdle?
    case Store(i) => s.writer.Storing? && i in s.writer.left
    case PublishTail => s.writer.Storing? && s.writer.left == {}
    case BeginGet(_) => s.reader.ReaderIdle?
    case Load(i) => s.reader.Loading? && i in s.reader.left
    case PublishHead => s.reader.Loading? && s.reader.left == {}
  }

  function Next(s: State, a: Action): State
    requires Shape(s) && Enabled(s, a)
  {
    match a
    case BeginPut(data) =>
      if Space(s.head, s.tail, s.size) >= |data| then
        s.(writer := Storing(data, RawSpace(s.head, s.tail, s.size), Positions(|data|)))
      else s
    case Store(i) =>
      var w := s.writer;
      s.(ring := s.ring[Address(s.tail, i, |w.data|, w.rawSpace) := w.data[i]],
         writer := w.(left := w.left - {i}))
    case PublishTail =>
      s.(tail := Advance(s.tail, |s.writer.data|, s.size),
         accepted := s.accepted + s.writer.data,
         writer := WriterIdle)
    case BeginGet(nbytes) =>
      var n := Min(nbytes, Count(s.head, s.tail, s.size));
      if n > 0 then
        s.(reader := Loading(seq(n, i => 0), RawCount(s.head, s.tail, s.size), Positions(n)))
      else s
    case Load(i) =>
      var r := s.reader;
      s.(reader := r.(got := r.got[i := s.ring[Address(s.head, i, |r.got|, r.rawCount)]], left := r.left - {i}))
    case PublishHead =>
      s.(head := Advance(s.head, |s.reader.got|, s.size),
         delivered := s.delivered + s.reader.got,
         reader := ReaderIdle)
  }

  /** The bytes between the indices. */
  function Resident(s: State): seq<byte>
    requires Shape(s)
  {
    CountMeasures(s.head, s.tail, s.size);
    Queue(s.ring, s.head, Count(s.head, s.tail, s.size))
  }

  /** Where a copy of `n` bytes that wraps after `raw` goes: the first segment ends with the storage. */
  predicate Segments(index: nat, n: nat, raw: nat, size: nat) {
    if n <= raw then index + n <= size + 1 else raw + index == size + 1
  }

  /** The invariant of every interleaving. */
  ghost predicate Inv(s: State) {
    && Indices(s.head, s.tail, s.size) && |s.ring| == s.size + 1
    && s.accepted == s.delivered + Queue(s.ring, s.head, Distance(s.head, s.tail, s.size))
    && WriterInv(s) && ReaderInv(s)
  }

  ghost predicate WriterInv(s: State)
    requires Indices(s.head, s.tail, s.size) && |s.ring| == s.size + 1
  {
    s.writer.Storing? ==>
      var w := s.writer;
      && Distance(s.head, s.tail, s.size) + |w.data| <= s.size
      && Segments(s.tail, |w.data|, w.rawSpace, s.size)
      && (forall i :: i in w.left ==> i < |w.data|)
      && (forall i :: 0 <= i < |w.data| && i !in w.left ==> s.ring[Cell(s.tail, i, s.size + 1)] == w.data[i])
  }

  ghost predicate ReaderInv(s: State)
    requires Indices(s.head, s.tail, s.size) && |s.ring| == s.size + 1
  {
    s.reader.Loading? ==>
      var r := s.reader;
      && |r.got| <= Distance(s.head, s.tail, s.size)
      && Segments(s.head, |r.got|, r.rawCount, s.size)
      && (forall i :: i in r.left ==> i < |r.got|)
      && (forall i :: 0 <= i < |r.got| && i !in r.left ==> s.ring[Cell(s.head, i, s.size + 1)] == r.got[i])
  }

  lemma InvShape(s: State)
    requires Inv(s)
    ensures Shape(s)
  {
  }

  lemma AddressIsCell(index: nat, i: nat, n: nat, raw: nat, size: nat)
    requires index <= size && i < n <= size && Segments(index, n, raw, size)
    ensures Address(index, i, n, raw) == Cell(index, i, size + 1)
  {
  }

  /** The cells the writer may store into lie outside the resident bytes. */
  lemma StoreMissesResident(head: nat, tail: nat, size: nat, i: nat, j: nat)
    requires head <= size && tail <= size && Distance(head, tail, size) + i < size + 1 && i <= size
    requires j < Distance(head, tail, size)
    ensures Cell(tail, i, size + 1) != Cell(head, j, size + 1)
  {
  }

  lemma StepBeginPut(s: State, data: seq<byte>)
    requires Inv(s) && Shape(s) && Enabled(s, BeginPut(data))
    ensures Inv(Next(s, BeginPut(data)))
  {
    MacrosMeasureTheRing(s.head, s.tail, s.size);
  }

  lemma StepBeginGet(s: State, nbytes: nat)
    requires Inv(s) && Shape(s) && Enabled(s, BeginGet(nbytes))
    ensures Inv(Next(s, BeginGet(nbytes)))
  {
    MacrosMeasureTheRing(s.head, s.tail, s.size);
  }

  lemma StepStore(s: State, i: nat)
    requires Inv(s) && Shape(s) && Enabled(s, Store(i))
    ensures Inv(Next(s, Store(i)))
  {
    var s', w, n, count := Next(s, Store(i)), s.writer, s.size + 1, Distance(s.head, s.tail, s.size);
    AddressIsCell(s.tail, i, |w.data|, w.rawSpace, s.size);
    forall j | 0 <= j < count
      ensures s'.ring[Cell(s.head, j, n)] == s.ring[Cell(s.head, j, n)]
    {
      StoreMissesResident(s.head, s.tail, s.size, i, j);
    }
    assert Queue(s'.ring, s.head, count) == Queue(s.ring, s.head, count);
  }

  lemma StepLoad(s: State, i: nat)
    requires Inv(s) && Shape(s) && Enabled(s, Load(i))
    ensures Inv(Next(s, Load(i)))
  {
    AddressIsCell(s.head, i, |s.reader.got|, s.reader.rawCount, s.size);
  }

  lemma StepPublishTail(s: State)
    requires Inv(s) && Shape(s) && Enabled(s, PublishTail)
    ensures Inv(Next(s, PublishTail))
  {
    hide Segments, Queue;
    var data, count := s.writer.data, Distance(s.head, s.tail, s.size);
    AdvanceWraps(s.tail, |data|, s.size);
    var tail' := Advance(s.tail, |data|, s.size);
    assert Distance(s.head, tail', s.size) == count + |data|;
    AppendedQueue(s.ring, s.head, s.tail, s.size, data);
  }

  lemma AppendedQueue(ring: seq<byte>, head: nat, tail: nat, size: nat, data: seq<byte>)
    requires head <= size && tail <= size && |ring| == size + 1
    requires Distance(head, tail, size) + |data| <= size
    requires forall i :: 0 <= i < |data| ==> ring[Cell(tail, i, size + 1)] == data[i]
    ensures Queue(ring, head, Distance(head, tail, size) + |data|) == Queue(ring, head, Distance(head, tail, size))
            + data
  {
    var count := Distance(head, tail, size);
    forall i {:trigger Cell(head, i, size + 1)} | count <= i < count + |data|
      ensures Cell(head, i, size + 1) == Cell(tail, i - count, size + 1)
    {
    }
  }

  lemma StepPublishHead(s: State)
    requires Inv(s) && Shape(s) && Enabled(s, PublishHead)
    ensures Inv(Next(s, PublishHead))
  {
    DroppedQueue(s.ring, s.head, s.tail, s.size, s.reader.got);
    AdvanceWraps(s.head, |s.reader.got|, s.size);
    MovedHeadKeepsWriter(s);
  }

  lemma MovedHeadKeepsWriter(s: State)
    requires Inv(s) && Shape(s) && Enabled(s, PublishHead)
    ensures var s' := Next(s, PublishHead); Indices(s'.head, s'.tail, s'.size) && WriterInv(s')
  {
    AdvanceWraps(s.head, |s.reader.got|, s.size);
  }

  lemma DroppedQueue(ring: seq<byte>, head: nat, tail: nat, size: nat, got: seq<byte>)
    requires Indices(head, tail, size) && |ring| == size + 1
    requires |got| <= Distance(head, tail, size)
    requires forall i :: 0 <= i < |got| ==> ring[Cell(head, i, size + 1)] == got[i]
    ensures var head' := Advance(head, |got|, size);
            && head' <= size && Distance(head', tail, size) == Distance(head, tail, size) - |got|
            && Queue(ring, head, Distance(head, tail, size)) == got + Queue(ring, head', Distance(head', tail, size))
  {
    var count := Distance(head, tail, size);
    AdvanceWraps(head, |got|, size);
    AdvanceDrops(ring, head, count, |got|);
    assert Queue(ring, head, count)[..|got|] == got;
  }

  lemma StepKeepsInv(s: State, a: Action)
    requires Inv(s) && Shape(s) && Enabled(s, a)
    ensures Inv(Next(s, a))
  {
    match a
    case BeginPut(data) => StepBeginPut(s, data);
    case Store(i) => StepStore(s, i);
    case PublishTail => StepPublishTail(s);
    case BeginGet(nbytes) => StepBeginGet(s, nbytes);
    case Load(i) => StepLoad(s, i);
    case PublishHead => StepPublishHead(s);
  }

  /** `s` can be reached from an initialised buffer by the steps `actions`. */
  ghost predicate Reaches(actions: seq<Action>, s: State)
    decreases |actions|
  {
    if actions == [] then
      && Indices(0, 0, s.size) && |s.ring| == s.size + 1 && s.head == s.tail == 0
      && s.writer.WriterIdle? && s.reader.ReaderIdle? && s.accepted == s.delivered == []
    else
      exists p: State :: Reaches(actions[..|actions| - 1], p) && Shape(p) &&
        Enabled(p, actions[|actions| - 1]) && s == Next(p, actions[|actions| - 1])
  }

  lemma {:induction false} ReachableInv(actions: seq<Action>, s: State)
    requires Reaches(actions, s)
    ensures Inv(s)
    decreases |actions|
  {
    if actions != [] {
      var last := actions[|actions| - 1];
      var p: State :| Reaches(actions[..|actions| - 1], p) && Shape(p) && Enabled(p, last) && s == Next(p, last);
      ReachableInv(actions[..|actions| - 1], p);
      StepKeepsInv(p, last);
    }
  }

  /** MAIN: in every interleaving the bytes delivered followed by the bytes resident are the bytes
      accepted: none lost, duplicated, invented or reordered, however stale the snapshots. */
  lemma EveryInterleavingConserves(actions: seq<Action>, s: State)
    requires Reaches(actions, s)
    ensures Shape(s) && s.delivered + Resident(s) == s.accepted && |Resident(s)| <= s.size
  {
    ReachableInv(actions, s);
    InvShape(s);
    CountMeasures(s.head, s.tail, s.size);
  }

  /** MAIN: in every interleaving the cells the writer still has to store into are none of the cells
      the reader copies, so no copy races with the other side. */
  lemma EveryInterleavingIsRaceFree(actions: seq<Action>, s: State, i: nat, j: nat)
    requires Reaches(actions, s)
    requires s.writer.Storing? && s.reader.Loading? && i in s.writer.left && j < |s.reader.got|
    ensures Address(s.tail, i, |s.writer.data|, s.writer.rawSpace) !=
            Address(s.head, j, |s.reader.got|, s.reader.rawCount)
  {
    ReachableInv(actions, s);
    AddressIsCell(s.tail, i, |s.writer.data|, s.writer.rawSpace, s.size);
    AddressIsCell(s.head, j, |s.reader.got|, s.reader.rawCount, s.size);
    StoreMissesResident(s.head, s.tail, s.size, i, j);
  }

  /** MAIN: every step of every interleaving is a step of a queue of capacity `size`: publishing
      appends the whole block or drops the delivered front, refusals and amounts are decided by the
      length of the queue at the snapshot, and every other step leaves the queue alone. */
  lemma EveryStepIsAQueueStep(actions: seq<Action>, s: State, a: Action)
    requires Reaches(actions, s) && Shape(s) && Enabled(s, a)
    ensures Shape(Next(s, a))
    ensures var q, s', q' := Resident(s), Next(s, a), Resident(Next(s, a));
            match a
            case PublishTail => q' == q + s.writer.data && |q'| <= s.size
            case PublishHead => q == s.reader.got + q' && s'.delivered == s.delivered + s.reader.got
            case BeginPut(data) => q' == q && (s'.writer.Storing? <==> |q| + |data| <= s.size)
            case BeginGet(n) => q' == q && (s'.reader.Loading? <==> n > 0 && q != [])
              && (s'.reader.Loading? ==> |s'.reader.got| == Min(n, |q|))
            case _ => q' == q
  {
    hide Reaches, Queue, Space, Count, RawSpace, RawCount, Full;
    ReachableInv(actions, s);
    StepKeepsInv(s, a);
    InvShape(Next(s, a));
    MacrosMeasureTheRing(s.head, s.tail, s.size);
    MacrosMeasureTheRing(Next(s, a).head, Next(s, a).tail, s.size);
    QueueStepFromHistory(s.accepted, s.delivered, Resident(s), Next(s, a).accepted, Next(s, a).delivered,
        Resident(Next(s, a)));
  }

  /** Conservation before and after a step fixes what the step did to the queue. */
  lemma QueueStepFromHistory(acc: seq<byte>, del: seq<byte>, q: seq<byte>, acc': seq<byte>, del': seq<byte>,
      q': seq<byte>)
    requires acc == del + q && acc' == del' + q'
    ensures acc' == acc && del' == del ==> q' == q
    ensures acc <= acc' && del' == del ==> q' == q + acc'[|acc|..]
    ensures acc' == acc && del <= del' ==> q == del'[|del|..] + q'
  {
    assert q == acc[|del|..] && q' == acc'[|del'|..];
  }
}
