/** Peer, timestamp and destination address: what fans out to the segments of a
    message, and what a slot keeps from an earlier receive. Alignment matters to
    the payload only. */
module GroMetadata {
  import opened Common
  import opened SockAddr
  import opened Batch
  import opened LinuxRecv
  import opened GroDelivery

  // ------------------------------------------------------------------
  //  Alignment
  // ------------------------------------------------------------------

  /** Every message but the last yields exactly one slot. */
  predicate Aligned(ms: seq<Message>) {
    forall i | 0 <= i < |ms| - 1 :: Yield(ms[i]) == 1
  }

  /** No length is changed by the cast to u16. */
  predicate Short(ms: seq<Message>) {
    forall i | 0 <= i < |ms| :: SegSize(ms[i].control) > 0 || |ms[i].payload| < 0x1_0000
  }

  lemma {:induction false} WantedWhileAligned(ms: seq<Message>, n: nat)
    requires n <= |ms| && forall k | 0 <= k < n :: Yield(ms[k]) == 1
    ensures Wanted(ms, n) == n
  {
    if n > 0 {
      WantedWhileAligned(ms, n - 1);
    }
  }

  lemma {:induction false} AlignedIsPlaced(ms: seq<Message>, cap: nat)
    requires |ms| <= cap && Aligned(ms) && Short(ms)
    ensures Placed(ms, cap)
  {
    forall i | 0 <= i < |ms| ensures WellPlaced(ms, i, cap) {
      WantedWhileAligned(ms, i);
    }
  }

  /** Alignment is needed wherever it could matter: if every message before `i` takes
      one slot, message `i` takes none or several, and the next one is not empty,
      then the batch is not placed. */
  lemma {:induction false} MisalignedIsNotPlaced(ms: seq<Message>, i: nat, cap: nat)
    requires i + 1 < |ms| && forall k | 0 <= k < i :: Yield(ms[k]) == 1
    requires Yield(ms[i]) != 1 && ms[i + 1].payload != []
    ensures !Placed(ms, cap)
  {
    WantedWhileAligned(ms, i);
    assert !WellPlaced(ms, i + 1, cap);
  }

  // ------------------------------------------------------------------
  //  Fan-out
  // ------------------------------------------------------------------

  /** Control data left in the slot where message `i` begins by the messages just
      before it that took no slot. */
  function Carried(ms: seq<Message>, i: nat): seq<Control>
    requires i <= |ms|
  {
    if i == 0 || Yield(ms[i - 1]) > 0 then [] else Carried(ms, i - 1) + ms[i - 1].control
  }

  /** The slot's timestamp and destination are those of `first` overridden by `control`. */
  predicate Overridden(slot: RecvSlot, control: seq<Control>, first: RecvSlot) {
    slot.timestamp == Stamp(control, first.timestamp) && slot.dstAddr == Dest(control, first.dstAddr)
  }

  lemma {:induction false} OverridesConcat(a: seq<Control>, b: seq<Control>, ts: Option<Timestamp>,
                                           dst: Option<SocketAddr>)
    ensures Stamp(a + b, ts) == Stamp(b, Stamp(a, ts)) && Dest(a + b, dst) == Dest(b, Dest(a, dst))
    decreases |b|
  {
    if b == [] {
      assert a + b == a;
    } else {
      OverridesConcat(a, b[..|b| - 1], ts, dst);
      assert (a + b)[..|a + b| - 1] == a + b[..|b| - 1];
    }
  }

  lemma {:induction false} StepMetadata(slots: seq<RecvSlot>, out: nat, m: Message, bufSize: nat, next: Progress)
    requires SlotsOk(slots, bufSize) && |m.payload| <= bufSize && out < |slots| && next == Step(slots, out, m, bufSize)
    ensures forall k | out <= k < Max(next.out, out + 1) ::
              next.slots[k].addr == m.source && Overridden(next.slots[k], m.control, slots[out])
    ensures forall k | Max(next.out, out + 1) <= k < |slots| :: Overridden(next.slots[k], [], slots[k])
  {
  }

  /** One iteration: the segments take the first slot's metadata overridden, the rest is left. */
  predicate Stamped(m: Message, cap: nat, before: Progress, after: Progress) {
    && before.Running? && after.Running? && before.out < cap == |before.slots| == |after.slots|
    && after.out == before.out + Min(Yield(m), cap - before.out)
    && (forall k | before.out <= k < Max(after.out, before.out + 1) ::
          after.slots[k].addr == m.source && Overridden(after.slots[k], m.control, before.slots[before.out]))
    && (forall k | Max(after.out, before.out + 1) <= k < cap :: Overridden(after.slots[k], [], before.slots[k]))
  }

  lemma {:induction false} IterationStamps(filled: seq<RecvSlot>, ms: seq<Message>, i: nat, bufSize: nat, cap: nat,
                                           before: Progress, after: Progress)
    requires SlotsOk(filled, bufSize) && Fits(ms, bufSize) && i < |ms| && |filled| == cap
    requires before == Process(filled, ms, i, bufSize) && after == Process(filled, ms, i + 1, bufSize)
    requires before.Running? && after.Running?
    ensures Stamped(ms[i], cap, before, after)
  {
    IterationIsStep(filled, ms, i, bufSize, before);
    StepMetadata(before.slots, before.out, ms[i], bufSize, after);
  }

  /** What the slots from the cursor on hold: those past it what they did at first. */
  predicate Ahead(filled: seq<RecvSlot>, carried: seq<Control>, r: Progress) {
    && r.Running? && |r.slots| == |filled|
    && (r.out < |filled| ==> Overridden(r.slots[r.out], carried, filled[r.out]))
    && forall k | r.out < k < |filled| :: Overridden(r.slots[k], [], filled[k])
  }

  lemma {:induction false} StaysAhead(filled: seq<RecvSlot>, carried: seq<Control>, m: Message, before: Progress,
                                      after: Progress)
    requires Ahead(filled, carried, before) && Stamped(m, |filled|, before, after)
    ensures Ahead(filled, if Yield(m) > 0 then [] else carried + m.control, after)
  {
    OverridesConcat(carried, m.control, filled[before.out].timestamp, filled[before.out].dstAddr);
  }

  lemma {:induction false} NotYetReached(filled: seq<RecvSlot>, ms: seq<Message>, n: nat, bufSize: nat, r: Progress)
    requires SlotsOk(filled, bufSize) && Fits(ms, bufSize) && n <= |ms|
    requires r == Process(filled, ms, n, bufSize) && r.Running?
    ensures Ahead(filled, Carried(ms, n), r)
  {
    if n > 0 {
      var before := Process(filled, ms, n - 1, bufSize);
      NotYetReached(filled, ms, n - 1, bufSize, before);
      IterationStamps(filled, ms, n - 1, bufSize, |filled|, before, r);
      StaysAhead(filled, Carried(ms, n - 1), ms[n - 1], before, r);
    }
  }

  /** Slot `k` is one of those message `i` was reported in. */
  predicate IsSegment(ms: seq<Message>, i: nat, cap: nat, k: int)
    requires i < |ms|
  {
    Cursor(ms, i, cap) <= k < Cursor(ms, i + 1, cap)
  }

  /** Every reported slot is a segment of one message, and of no other. */
  lemma {:induction false} SegmentsPartitionReport(ms: seq<Message>, n: nat, cap: nat, k: nat) returns (i: nat)
    requires n <= |ms| && k < Cursor(ms, n, cap)
    ensures i < n && IsSegment(ms, i, cap, k)
    ensures forall j | 0 <= j < n && IsSegment(ms, j, cap, k) :: j == i
  {
    if k < Cursor(ms, n - 1, cap) {
      i := SegmentsPartitionReport(ms, n - 1, cap, k);
    } else {
      i := n - 1;
      forall j | 0 <= j < n && IsSegment(ms, j, cap, k) ensures j == i {
        WantedGrows(ms, j + 1, n);
        if j < i {
          WantedGrows(ms, j + 1, i);
        }
      }
    }
  }

  /** All segments of a message carry the same peer, timestamp and destination: the
      message's own peer, and what the first of their slots held before the receive,
      overridden by the control data of the empty messages just before and of the
      message itself. This holds of every receive that does not panic. */
  lemma {:induction false} SegmentsShareMetadata(slots: seq<RecvSlot>, ms: seq<Message>, i: nat, bufSize: nat)
    requires SlotsOk(slots, bufSize) && |ms| <= |slots| && Fits(ms, bufSize) && i < |ms|
    ensures var r, cap := Process(Filled(slots, ms, bufSize), ms, |ms|, bufSize), |slots|;
            r.Running? ==> forall k | IsSegment(ms, i, cap, k) ::
              && r.slots[k].addr == ms[i].source
              && Overridden(r.slots[k], Carried(ms, i) + ms[i].control, slots[Cursor(ms, i, cap)])
  {
    var filled, cap := Filled(slots, ms, bufSize), |slots|;
    var r := Process(filled, ms, |ms|, bufSize);
    if r.Running? {
      var before, after := Process(filled, ms, i, bufSize), Process(filled, ms, i + 1, bufSize);
      SlotsAreFinal(filled, ms, i + 1, |ms|, bufSize, after, r);
      SlotsAreFinal(filled, ms, i, |ms|, bufSize, before, r);
      IterationStamps(filled, ms, i, bufSize, cap, before, after);
      NotYetReached(filled, ms, i, bufSize, before);
      OverridesConcat(Carried(ms, i), ms[i].control, slots[before.out].timestamp, slots[before.out].dstAddr);
      forall k | IsSegment(ms, i, cap, k) ensures r.slots[k] == after.slots[k] {
        assert r.slots[k] == Take(r.slots, after.out)[k] == Take(after.slots, after.out)[k];
      }
    }
  }

  // ------------------------------------------------------------------
  //  Staleness
  // ------------------------------------------------------------------

  /** Every reported slot has its message's own timestamp and destination, or none. */
  ghost predicate ReportsOwn(slots: seq<RecvSlot>, ms: seq<Message>) {
    forall i, k | 0 <= i < |ms| && IsSegment(ms, i, |slots|, k) :: OwnMetadata(slots[k], ms[i].control)
  }

  predicate OwnMetadata(slot: RecvSlot, control: seq<Control>) {
    slot.timestamp == Stamp(control, None) && slot.dstAddr == Dest(control, None)
  }

  /** Nothing foreign shows through message `i`: where it carries no timestamp, neither
      its first slot nor an empty message just before it has left one; and likewise
      for the destination. */
  predicate Fresh(ms: seq<Message>, i: nat, first: RecvSlot)
    requires i < |ms|
  {
    && (Stamp(ms[i].control, None).Some? || Stamp(Carried(ms, i), first.timestamp).None?)
    && (Dest(ms[i].control, None).Some? || Dest(Carried(ms, i), first.dstAddr).None?)
  }

  predicate AllFresh(ms: seq<Message>, slots: seq<RecvSlot>) {
    forall i | 0 <= i < |ms| && Cursor(ms, i, |slots|) < Cursor(ms, i + 1, |slots|) ::
      Fresh(ms, i, slots[Cursor(ms, i, |slots|)])
  }

  lemma {:induction false} StaleShowsThrough(control: seq<Control>, ts: Option<Timestamp>, dst: Option<SocketAddr>)
    ensures Stamp(control, ts) == if Stamp(control, None).Some? then Stamp(control, None) else ts
    ensures Dest(control, dst) == if Dest(control, None).Some? then Dest(control, None) else dst
  {
    if control != [] {
      StaleShowsThrough(control[..|control| - 1], ts, dst);
    }
  }

  lemma {:induction false} OwnIffFresh(ms: seq<Message>, i: nat, first: RecvSlot, slot: RecvSlot)
    requires i < |ms| && Overridden(slot, Carried(ms, i) + ms[i].control, first)
    ensures OwnMetadata(slot, ms[i].control) <==> Fresh(ms, i, first)
  {
    var ts, dst := Stamp(Carried(ms, i), first.timestamp), Dest(Carried(ms, i), first.dstAddr);
    OverridesConcat(Carried(ms, i), ms[i].control, first.timestamp, first.dstAddr);
    StaleShowsThrough(ms[i].control, ts, dst);
  }

  /** A receive reports exactly the metadata its messages carried if and only if
      nothing foreign shows through any of them. */
  lemma {:induction false} MetadataIsOwnIffFresh(slots: seq<RecvSlot>, ms: seq<Message>, bufSize: nat)
    requires SlotsOk(slots, bufSize) && |ms| <= |slots| && Fits(ms, bufSize)
    ensures var r := Process(Filled(slots, ms, bufSize), ms, |ms|, bufSize);
            r.Running? ==> (ReportsOwn(r.slots, ms) <==> AllFresh(ms, slots))
  {
    var r, cap := Process(Filled(slots, ms, bufSize), ms, |ms|, bufSize), |slots|;
    if r.Running? {
      forall i, k | 0 <= i < |ms| && IsSegment(ms, i, cap, k)
        ensures OwnMetadata(r.slots[k], ms[i].control) <==> Fresh(ms, i, slots[Cursor(ms, i, cap)])
      {
        SegmentsShareMetadata(slots, ms, i, bufSize);
        OwnIffFresh(ms, i, slots[Cursor(ms, i, cap)], r.slots[k]);
      }
      assert forall i | 0 <= i < |ms| && Cursor(ms, i, cap) < Cursor(ms, i + 1, cap) ::
          IsSegment(ms, i, cap, Cursor(ms, i, cap));
    }
  }

  /** No message but the last is left without a slot. */
  predicate NoneEmpty(ms: seq<Message>) {
    forall i | 0 <= i < |ms| - 1 :: Yield(ms[i]) > 0
  }

  /** After `Clear`, if only the last message may be empty, a slot reports a timestamp or
      destination exactly when its message carried one, however messages are split. */
  lemma {:induction false} ClearedBatchReportsOwn(slots: seq<RecvSlot>, ms: seq<Message>, bufSize: nat)
    requires SlotsOk(slots, bufSize) && |ms| <= |slots| && Fits(ms, bufSize) && NoneEmpty(ms)
    ensures SlotsOk(Cleared(slots), bufSize)
    ensures var r := Process(Filled(Cleared(slots), ms, bufSize), ms, |ms|, bufSize);
            r.Running? ==> ReportsOwn(r.slots, ms)
  {
    MetadataIsOwnIffFresh(Cleared(slots), ms, bufSize);
  }

  /** An aligned receive into a cleared batch reports the datagrams and their own metadata. */
  lemma {:induction false} AlignedClearedReceiveIsExact(slots: seq<RecvSlot>, ms: seq<Message>, bufSize: nat)
    requires SlotsOk(slots, bufSize) && |ms| <= |slots| && Fits(ms, bufSize) && Aligned(ms) && Short(ms)
    ensures SlotsOk(Cleared(slots), bufSize) && Delivered(Cleared(slots), ms, bufSize)
    ensures ReportsOwn(Process(Filled(Cleared(slots), ms, bufSize), ms, |ms|, bufSize).slots, ms)
  {
    AlignedIsPlaced(ms, |slots|);
    PlacedIsDelivered(Cleared(slots), ms, bufSize);
    ClearedBatchReportsOwn(slots, ms, bufSize);
  }

  /** An empty message with a timestamp, followed by an ordinary one without. */
  function EmptyFirst(ts: Timestamp): seq<Message> {
    [Message([], UNSPECIFIED, [UdpGro(1), TimestampNs(ts)]), Message([9], UNSPECIFIED, [])]
  }

  /** Clearing first is not always enough: the ordinary message gets the other's timestamp. */
  lemma {:induction false} EmptyMessageLendsTimestamp(ts: Timestamp)
    ensures Stamp(EmptyFirst(ts)[1].control, None) == None
    ensures var r := Process(Filled(BlankSlots(2), EmptyFirst(ts), 2), EmptyFirst(ts), 2, 2);
            r.Running? && r.out == 1 && r.slots[0].timestamp == Some(ts)
  {
    var ms := EmptyFirst(ts);
    assert ms[0].control[..1] == [UdpGro(1)] && SegSize([UdpGro(1)]) == 1;
    assert Yield(ms[0]) == 0 && Yield(ms[1]) == 1;
    assert Wanted(ms, 1) == 0 && Wanted(ms, 2) == Wanted(ms, 1) + Yield(ms[1]);
    assert IsSegment(ms, 1, 2, 0);
    assert Carried(ms, 1) + ms[1].control == ms[0].control;
    SegmentsShareMetadata(BlankSlots(2), ms, 1, 2);
  }
}
