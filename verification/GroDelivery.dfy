/** When the receive loop hands out what arrived. The loop reads the payload of
    the message it is at from the slot its output cursor points to, and the split
    writes into slots that still hold later messages; so the answer depends on
    how the messages' lengths and segment sizes line up with the cursor. */
module GroDelivery {
  import opened Common
  import opened SockAddr
  import opened Batch
  import opened Gro
  import opened LinuxRecv

  datatype Datagram = Datagram(data: seq<Byte>, source: SocketAddr)

  /** The first `n` slots as a caller of the batch sees them. */
  function View(slots: seq<RecvSlot>, n: nat, bufSize: nat): (r: seq<Datagram>)
    requires SlotsOk(slots, bufSize) && n <= |slots|
    ensures |r| == n
  {
    seq(n, k requires 0 <= k < n => Datagram(slots[k].Data(), slots[k].addr))
  }

  function Tagged(pieces: seq<seq<Byte>>, source: SocketAddr): (r: seq<Datagram>)
    ensures |r| == |pieces|
  {
    seq(|pieces|, k requires 0 <= k < |pieces| => Datagram(pieces[k], source))
  }

  /** The datagrams one message stands for. */
  function Deliver(m: Message): (r: seq<Datagram>)
    ensures |r| == Yield(m)
  {
    if SegSize(m.control) == 0 then
      [Datagram(m.payload, m.source)]
    else
      SplitCount(m.payload, SegSize(m.control));
      Tagged(Split(m.payload, SegSize(m.control)), m.source)
  }

  /** The datagrams of the first `n` messages. */
  function Deliveries(ms: seq<Message>, n: nat): (r: seq<Datagram>)
    requires n <= |ms|
    ensures |r| == Wanted(ms, n)
  {
    if n == 0 then [] else Deliveries(ms, n - 1) + Deliver(ms[n - 1])
  }

  /** The promise: every message's datagrams, in order, cut at the capacity. */
  ghost predicate Delivered(slots: seq<RecvSlot>, ms: seq<Message>, bufSize: nat)
    requires SlotsOk(slots, bufSize) && |ms| <= |slots| && Fits(ms, bufSize)
  {
    var r := Process(Filled(slots, ms, bufSize), ms, |ms|, bufSize);
    r.Running? && View(r.slots, r.out, bufSize) == Take(Deliveries(ms, |ms|), |slots|)
  }

  // ------------------------------------------------------------------
  //  The exact condition
  // ------------------------------------------------------------------

  /** Message `i` can be handed out: there is a slot for it, its slot is the one the
      kernel wrote (or there is nothing to read), and its length survives the cast to u16. */
  predicate WellPlaced(ms: seq<Message>, i: nat, cap: nat)
    requires i < |ms|
  {
    && Wanted(ms, i) < cap
    && (Wanted(ms, i) == i || ms[i].payload == [])
    && (SegSize(ms[i].control) > 0 || |ms[i].payload| < 0x1_0000)
  }

  predicate Placed(ms: seq<Message>, cap: nat) {
    forall i | 0 <= i < |ms| :: WellPlaced(ms, i, cap)
  }

  /** Same lengths, peers and control data; the payload bytes are free. */
  predicate SameShape(a: seq<Message>, b: seq<Message>) {
    |a| == |b| && forall i | 0 <= i < |a| ::
      |a[i].payload| == |b[i].payload| && a[i].source == b[i].source && a[i].control == b[i].control
  }

  /** Headers alone decide: a batch of headers delivers every possible content
      exactly when it is placed. */
  lemma {:induction false} PlacementIsExact(slots: seq<RecvSlot>, ms: seq<Message>, bufSize: nat)
    requires SlotsOk(slots, bufSize) && |ms| <= |slots| && Fits(ms, bufSize)
    ensures Placed(ms, |slots|) <==>
            forall other :: SameShape(ms, other) ==> Fits(other, bufSize) && Delivered(slots, other, bufSize)
  {
    if Placed(ms, |slots|) {
      forall other | SameShape(ms, other)
        ensures Fits(other, bufSize) && Delivered(slots, other, bufSize)
      {
        ShapeDecidesPlacement(ms, other, |slots|);
        PlacedIsDelivered(slots, other, bufSize);
      }
    } else {
      var other := UnplacedFails(slots, ms, bufSize);
    }
  }

  lemma {:induction false} ShapeDecidesPlacement(a: seq<Message>, b: seq<Message>, cap: nat)
    requires SameShape(a, b)
    ensures forall i | 0 <= i < |a| :: WellPlaced(a, i, cap) == WellPlaced(b, i, cap)
  {
    forall i | 0 <= i < |a| ensures WellPlaced(a, i, cap) == WellPlaced(b, i, cap) {
      ShapeDecidesWanted(a, b, i);
    }
  }

  lemma {:induction false} ShapeDecidesWanted(a: seq<Message>, b: seq<Message>, n: nat)
    requires SameShape(a, b) && n <= |a|
    ensures Wanted(a, n) == Wanted(b, n)
  {
    if n > 0 {
      ShapeDecidesWanted(a, b, n - 1);
    }
  }

  // ----- sufficiency -----

  lemma {:induction false} PlacedIsDelivered(slots: seq<RecvSlot>, ms: seq<Message>, bufSize: nat)
    requires SlotsOk(slots, bufSize) && |ms| <= |slots| && Fits(ms, bufSize)
    requires Placed(ms, |slots|)
    ensures Delivered(slots, ms, bufSize)
  {
    var filled := Filled(slots, ms, bufSize);
    assert forall k | 0 <= k < |ms| :: Starts(filled[k], ms[k]);
    PlacedDelivers(filled, ms, |ms|, bufSize, |slots|);
  }

  /** The message lies at the start of the slot's buffer. */
  predicate Starts(slot: RecvSlot, m: Message) {
    |m.payload| <= |slot.buf| && slot.buf[..|m.payload|] == m.payload
  }

  /** The kernel has filled the slots with well-placed messages. */
  ghost predicate Ready(filled: seq<RecvSlot>, ms: seq<Message>, bufSize: nat, cap: nat) {
    && SlotsOk(filled, bufSize) && Fits(ms, bufSize) && |ms| <= |filled| == cap
    && (forall k | 0 <= k < |ms| :: Starts(filled[k], ms[k]))
    && Placed(ms, cap)
  }

  /** After `n` messages the slots show their datagrams. */
  ghost predicate Shown(filled: seq<RecvSlot>, ms: seq<Message>, n: nat, bufSize: nat, cap: nat)
    requires SlotsOk(filled, bufSize) && Fits(ms, bufSize) && |filled| == cap && n <= |ms|
  {
    var r := Process(filled, ms, n, bufSize);
    r.Running? && View(r.slots, r.out, bufSize) == Take(Deliveries(ms, n), cap)
  }

  lemma {:induction false} PlacedDelivers(filled: seq<RecvSlot>, ms: seq<Message>, n: nat, bufSize: nat, cap: nat)
    requires Ready(filled, ms, bufSize, cap) && n <= |ms|
    ensures Shown(filled, ms, n, bufSize, cap)
  {
    if n == 0 {
      NothingShown(filled, ms, bufSize, cap);
    } else {
      PlacedDelivers(filled, ms, n - 1, bufSize, cap);
      IterationShows(filled, ms, n, bufSize, cap);
    }
  }

  lemma {:induction false} NothingShown(filled: seq<RecvSlot>, ms: seq<Message>, bufSize: nat, cap: nat)
    requires SlotsOk(filled, bufSize) && Fits(ms, bufSize) && |filled| == cap
    ensures Shown(filled, ms, 0, bufSize, cap)
  {
  }

  lemma {:induction false} IterationShows(filled: seq<RecvSlot>, ms: seq<Message>, n: nat, bufSize: nat, cap: nat)
    requires Ready(filled, ms, bufSize, cap) && 0 < n <= |ms| && Shown(filled, ms, n - 1, bufSize, cap)
    ensures Shown(filled, ms, n, bufSize, cap)
  {
    var before, after := Process(filled, ms, n - 1, bufSize), Process(filled, ms, n, bufSize);
    IterationDelivers(filled, ms, n, bufSize, cap, before, after, Deliveries(ms, n - 1));
  }

  lemma {:induction false} TakeOfConcat<T>(a: seq<T>, b: seq<T>, n: nat)
    requires |a| <= n
    ensures Take(a + b, n) == Take(a, n) + Take(b, n - |a|)
  {
  }

  lemma {:induction false} IterationDelivers(filled: seq<RecvSlot>, ms: seq<Message>, n: nat, bufSize: nat, cap: nat,
                                             before: Progress, after: Progress, front: seq<Datagram>)
    requires Ready(filled, ms, bufSize, cap) && 0 < n <= |ms|
    requires before == Process(filled, ms, n - 1, bufSize) && after == Process(filled, ms, n, bufSize)
    requires before.Running? && View(before.slots, before.out, bufSize) == Take(front, cap)
    requires |front| == Wanted(ms, n - 1)
    ensures after.Running? && View(after.slots, after.out, bufSize) == Take(front + Deliver(ms[n - 1]), cap)
  {
    MessageIsIntact(filled, ms, n - 1, bufSize, cap, before, after);
    StepDelivers(before.slots, before.out, ms[n - 1], bufSize, cap, after);
    TakeOfConcat(front, Deliver(ms[n - 1]), cap);
  }

  lemma {:induction false} MessageIsIntact(filled: seq<RecvSlot>, ms: seq<Message>, i: nat, bufSize: nat, cap: nat,
                                           before: Progress, after: Progress)
    requires Ready(filled, ms, bufSize, cap) && i < |ms|
    requires before == Process(filled, ms, i, bufSize) && after == Process(filled, ms, i + 1, bufSize)
    requires before.Running?
    ensures before.out == Wanted(ms, i) < cap && after == Step(before.slots, before.out, ms[i], bufSize)
    ensures before.slots[before.out].buf[..|ms[i].payload|] == ms[i].payload
    ensures SegSize(ms[i].control) > 0 || |ms[i].payload| < 0x1_0000
  {
    assert WellPlaced(ms, i, cap) && Starts(filled[i], ms[i]);
    IterationIsStep(filled, ms, i, bufSize, before);
  }

  /** A message whose bytes lie in the cursor's slot adds its datagrams to the view. */
  lemma {:induction false} StepDelivers(slots: seq<RecvSlot>, out: nat, m: Message, bufSize: nat, cap: nat,
                                        next: Progress)
    requires SlotsOk(slots, bufSize) && |m.payload| <= bufSize && out < |slots| == cap
    requires slots[out].buf[..|m.payload|] == m.payload
    requires SegSize(m.control) > 0 || |m.payload| < 0x1_0000
    requires next == Step(slots, out, m, bufSize)
    ensures View(next.slots, next.out, bufSize) == View(slots, out, bufSize) + Take(Deliver(m), cap - out)
  {
    if SegSize(m.control) > 0 {
      SplitStepDelivers(slots, out, m, bufSize, cap, next);
    } else {
      SingleStepDelivers(slots, out, m, bufSize, next);
    }
    ViewGrows(slots, out, next.slots, next.out, Deliver(m), bufSize, cap);
  }

  /** Slots before the cursor stay, and those it passes show these datagrams. */
  lemma {:induction false} ViewGrows(slots: seq<RecvSlot>, out: nat, after: seq<RecvSlot>, cursor: nat,
                                     ds: seq<Datagram>, bufSize: nat, cap: nat)
    requires SlotsOk(slots, bufSize) && SlotsOk(after, bufSize) && out <= cap == |slots| == |after|
    requires Take(after, out) == Take(slots, out) && cursor == out + Min(|ds|, cap - out)
    requires forall k | out <= k < cursor :: Datagram(after[k].Data(), after[k].addr) == ds[k - out]
    ensures View(after, cursor, bufSize) == View(slots, out, bufSize) + Take(ds, cap - out)
  {
    forall k | 0 <= k < out ensures after[k] == slots[k] {
      assert after[k] == Take(after, out)[k] == Take(slots, out)[k];
    }
  }

  lemma {:induction false} SingleStepDelivers(slots: seq<RecvSlot>, out: nat, m: Message, bufSize: nat, next: Progress)
    requires SlotsOk(slots, bufSize) && |m.payload| <= bufSize && out < |slots|
    requires slots[out].buf[..|m.payload|] == m.payload
    requires SegSize(m.control) == 0 && |m.payload| < 0x1_0000 && next == Step(slots, out, m, bufSize)
    ensures next.out == out + 1 && Datagram(next.slots[out].Data(), next.slots[out].addr) == Deliver(m)[0]
  {
  }

  lemma {:induction false} SplitStepDelivers(slots: seq<RecvSlot>, out: nat, m: Message, bufSize: nat, cap: nat,
                                             next: Progress)
    requires SlotsOk(slots, bufSize) && |m.payload| <= bufSize && out < |slots| == cap
    requires slots[out].buf[..|m.payload|] == m.payload
    requires SegSize(m.control) > 0 && next == Step(slots, out, m, bufSize)
    ensures forall k | out <= k < next.out ::
              k - out < Yield(m) && Datagram(next.slots[k].Data(), next.slots[k].addr) == Deliver(m)[k - out]
  {
    var arrived := Arrived(slots, out, m);
    forall k | out <= k < next.out
      ensures k - out < Yield(m) && Datagram(next.slots[k].Data(), next.slots[k].addr) == Deliver(m)[k - out]
    {
      SegmentShows(arrived, out, m, bufSize, Segments(arrived, out, m, bufSize), k - out);
    }
  }

  lemma {:induction false} SegmentShows(slots: seq<RecvSlot>, out: nat, m: Message, bufSize: nat,
                                        segs: seq<seq<Byte>>, k: nat)
    requires SlotsOk(slots, bufSize) && |m.payload| <= bufSize && out < |slots| && SegSize(m.control) > 0
    requires slots[out].buf[..|m.payload|] == m.payload && slots[out].addr == m.source
    requires segs == Segments(slots, out, m, bufSize) && k < |segs|
    ensures k < Yield(m)
    ensures var slot := Scattered(slots, out, segs, m.source)[out + k];
            slot.recvLen <= |slot.buf| && Datagram(slot.Data(), slot.addr) == Deliver(m)[k]
  {
    FirstPiece(m.payload, SegSize(m.control));
    assert segs[0] == m.payload[..|segs[0]|] == slots[out].buf[..|segs[0]|];
    ScatteredSlot(slots, out, segs, m.source, k);
  }

  lemma {:induction false} ScatteredSlot(slots: seq<RecvSlot>, first: nat, segs: seq<seq<Byte>>, source: SocketAddr,
                                         k: nat)
    requires first + |segs| <= |slots| && k < |segs|
    requires forall k | 0 <= k < |segs| :: |segs[k]| <= |slots[first + k].buf| && |segs[k]| < 0x1_0000
    requires slots[first].addr == source && slots[first].buf[..|segs[0]|] == segs[0]
    ensures var slot := Scattered(slots, first, segs, source)[first + k];
            slot.recvLen <= |slot.buf| && slot.Data() == segs[k] && slot.addr == source
  {
  }

  lemma {:induction false} FirstPiece(data: seq<Byte>, size: nat)
    requires size > 0
    ensures data != [] ==> |Split(data, size)| > 0 && Split(data, size)[0] == Take(data, size)
    ensures data == [] ==> Split(data, size) == []
  {
  }

  // ----- necessity -----

  /** Contents that tell message `j` apart: all its bytes are `mark`, all others zero. */
  function Probe(ms: seq<Message>, j: nat, mark: Byte): (r: seq<Message>)
    ensures SameShape(ms, r)
  {
    seq(|ms|, i requires 0 <= i < |ms| =>
      ms[i].(payload := seq(|ms[i].payload|, _ => if i == j then mark else 0)))
  }

  /** A mark that the slot the message is read from does not begin with. */
  lemma {:induction false} UnlikeStale(slots: seq<RecvSlot>, ms: seq<Message>, j: nat, o: nat, bufSize: nat)
      returns (mark: Byte)
    requires SlotsOk(slots, bufSize) && |ms| <= |slots| && Fits(ms, bufSize)
    ensures Fits(Probe(ms, j, mark), bufSize)
    ensures o < |slots| && o != j && bufSize > 0 ==> Filled(slots, Probe(ms, j, mark), bufSize)[o].buf[0] != mark
  {
    var stale := if o < |slots| && bufSize > 0 then slots[o].buf[0] else 0;
    mark := if stale == 1 then 2 else 1;
  }

  /** Whatever is not placed, some contents of these lengths are reported wrongly. */
  lemma {:induction false} UnplacedFails(slots: seq<RecvSlot>, ms: seq<Message>, bufSize: nat)
      returns (other: seq<Message>)
    requires SlotsOk(slots, bufSize) && |ms| <= |slots| && Fits(ms, bufSize)
    requires !Placed(ms, |slots|)
    ensures SameShape(ms, other) && Fits(other, bufSize) && !Delivered(slots, other, bufSize)
  {
    var j :| 0 <= j < |ms| && !WellPlaced(ms, j, |slots|);
    var mark := UnlikeStale(slots, ms, j, Wanted(ms, j), bufSize);
    other := Probe(ms, j, mark);
    ShapeDecidesPlacement(ms, other, |slots|);
    ShapeDecidesWanted(ms, other, j);
    MarkedMessageFails(Filled(slots, other, bufSize), other, j, mark, bufSize, |slots|);
  }

  lemma {:induction false} MarkedMessageFails(filled: seq<RecvSlot>, ms: seq<Message>, j: nat, mark: Byte,
                                              bufSize: nat, cap: nat)
    requires SlotsOk(filled, bufSize) && Fits(ms, bufSize) && j < |ms| && |filled| == cap
    requires !WellPlaced(ms, j, cap)
    requires forall k | 0 <= k < |ms[j].payload| :: ms[j].payload[k] == mark
    requires Wanted(ms, j) < cap && Wanted(ms, j) != j && bufSize > 0 ==> filled[Wanted(ms, j)].buf[0] != mark
    ensures var r := Process(filled, ms, |ms|, bufSize);
            r.Running? ==> View(r.slots, r.out, bufSize) != Take(Deliveries(ms, |ms|), cap)
  {
    var r := Process(filled, ms, |ms|, bufSize);
    if r.Running? {
      var before, after := Process(filled, ms, j, bufSize), Process(filled, ms, j + 1, bufSize);
      WantedGrows(ms, j, |ms| - 1);
      SlotsAreFinal(filled, ms, j, |ms|, bufSize, before, r);
      SlotsAreFinal(filled, ms, j + 1, |ms|, bufSize, after, r);
      IterationFails(filled, ms, j, mark, bufSize, before, after);
      WrongSlotShows(ms, j, bufSize, cap, after, r);
    }
  }

  lemma {:induction false} WrongSlotShows(ms: seq<Message>, j: nat, bufSize: nat, cap: nat, after: Progress,
                                          r: Progress)
    requires j < |ms| && Yield(ms[j]) > 0 && Keeps(after, r) && |r.slots| == cap && Wanted(ms, j) < after.out
    requires SlotsOk(after.slots, bufSize) && SlotsOk(r.slots, bufSize)
    requires after.slots[Wanted(ms, j)].Data() != Deliver(ms[j])[0].data
    ensures View(r.slots, r.out, bufSize) != Take(Deliveries(ms, |ms|), cap)
  {
    var o := Wanted(ms, j);
    DeliveriesAt(ms, j, |ms|);
    assert r.slots[o] == Take(r.slots, after.out)[o] == Take(after.slots, after.out)[o];
    assert View(r.slots, r.out, bufSize)[o].data != Deliveries(ms, |ms|)[o].data;
  }

  lemma {:induction false} DeliveriesAt(ms: seq<Message>, j: nat, n: nat)
    requires j < n <= |ms| && Yield(ms[j]) > 0
    ensures Wanted(ms, j) < Wanted(ms, n) && Deliveries(ms, n)[Wanted(ms, j)] == Deliver(ms[j])[0]
    decreases n
  {
    if j < n - 1 {
      DeliveriesAt(ms, j, n - 1);
    }
  }

  /** A misplaced message puts into its first slot something it did not carry. */
  lemma {:induction false} IterationFails(filled: seq<RecvSlot>, ms: seq<Message>, j: nat, mark: Byte, bufSize: nat,
                                          before: Progress, after: Progress)
    requires SlotsOk(filled, bufSize) && Fits(ms, bufSize) && j < |ms|
    requires before == Process(filled, ms, j, bufSize) && after == Process(filled, ms, j + 1, bufSize)
    requires before.Running? && Wanted(ms, j) < |filled| && !WellPlaced(ms, j, |filled|)
    requires forall k | 0 <= k < |ms[j].payload| :: ms[j].payload[k] == mark
    requires Wanted(ms, j) != j && bufSize > 0 ==> filled[Wanted(ms, j)].buf[0] != mark
    ensures after.Running? && Yield(ms[j]) > 0 && after.out > before.out == Wanted(ms, j)
    ensures after.slots[before.out].Data() != Deliver(ms[j])[0].data
  {
    IterationIsStep(filled, ms, j, bufSize, before);
    StepFails(before.slots, before.out, ms[j], mark, bufSize, after);
  }

  lemma {:induction false} StepFails(slots: seq<RecvSlot>, out: nat, m: Message, mark: Byte, bufSize: nat,
                                     next: Progress)
    requires SlotsOk(slots, bufSize) && |m.payload| <= bufSize && out < |slots|
    requires forall k | 0 <= k < |m.payload| :: m.payload[k] == mark
    requires if SegSize(m.control) == 0 && |m.payload| >= 0x1_0000 then true
             else m.payload != [] && slots[out].buf[0] != mark
    requires next == Step(slots, out, m, bufSize)
    ensures Yield(m) > 0 && next.out > out && next.slots[out].Data() != Deliver(m)[0].data
  {
    if SegSize(m.control) > 0 {
      var arrived := Arrived(slots, out, m);
      var segs := Segments(arrived, out, m, bufSize);
      assert arrived[out].buf == slots[out].buf;
      assert segs[0][0] == slots[out].buf[0] != mark;
    }
  }

  // ----- a batch that goes wrong -----

  function BlankSlots(n: nat): seq<RecvSlot> {
    seq(n, _ => RecvSlot([0, 0], UNSPECIFIED, 0, None, None))
  }

  /** Two datagrams coalesced into one message, followed by an ordinary message. */
  const COALESCED_FIRST := [Message([1, 2], UNSPECIFIED, [UdpGro(1)]), Message([9], UNSPECIFIED, [])]

  /** With a slot to spare, the split overwrites the second message's payload and
      slot 2 is reported with a byte nobody sent; without one, indexing panics. */
  lemma {:induction false} EarlierSplitOverwritesLaterMessage()
    ensures var r := Process(Filled(BlankSlots(3), COALESCED_FIRST, 2), COALESCED_FIRST, 2, 2);
            r.Running? && r.out == 3 && r.slots[1].Data() == [2] && r.slots[2].Data() == [0]
    ensures Process(Filled(BlankSlots(2), COALESCED_FIRST, 2), COALESCED_FIRST, 2, 2).Panicked?
  {
    var ms, filled := COALESCED_FIRST, Filled(BlankSlots(3), COALESCED_FIRST, 2);
    assert Wanted(ms, 1) == 2;
    var a, b := Process(filled, ms, 1, 2), Process(filled, ms, 2, 2);
    SplitsOnce(filled, a);
    IterationIsStep(filled, ms, 1, 2, a);
    assert b.slots[1] == Take(b.slots, 2)[1] == Take(a.slots, 2)[1];
  }

  lemma {:induction false} SplitsOnce(filled: seq<RecvSlot>, a: Progress)
    requires filled == Filled(BlankSlots(3), COALESCED_FIRST, 2) && a == Process(filled, COALESCED_FIRST, 1, 2)
    ensures a.Running? && a.out == 2 && a.slots[1].Data() == [2]
  {
    var m := COALESCED_FIRST[0];
    assert SegSize(m.control) == 1;
    var data: seq<Byte> := [1, 2];
    assert data[..1] == [1] && data[1..] == [2];
    assert Split(data, 1) == [[1], [2]];
    assert Arrived(filled, 0, m)[0].buf[..2] == data;
    assert Segments(Arrived(filled, 0, m), 0, m, 2) == [[1], [2]];
    IterationIsStep(filled, COALESCED_FIRST, 0, 2, Running(filled, 0));
  }
}
