/** The Linux receive path from end to end: datagrams as they were sent against the slots
    as they are reported, with nothing in between named. */
module Reception {
  import opened Common
  import opened SockAddr
  import opened Batch
  import opened Gro
  import opened LinuxRecv
  import opened GroDelivery
  import Recv = RecvBackends

  /** A message that carries no segment size and whose length fits the length field. */
  predicate Ordinary(m: Message) {
    NoneOf(m.control, IsSize) && |m.payload| < 0x1_0000
  }

  predicate AllOrdinary(ms: seq<Message>) {
    forall i | 0 <= i < |ms| :: Ordinary(ms[i])
  }

  /** Slot `slot` reports this datagram. */
  predicate Reports(slot: RecvSlot, data: seq<Byte>, source: SocketAddr) {
    slot.recvLen <= |slot.buf| && slot.Data() == data && slot.addr == source
  }

  lemma {:induction false} OrdinaryYieldsOne(m: Message)
    requires Ordinary(m)
    ensures SegSize(m.control) == 0 && Yield(m) == 1 && Deliver(m) == [Datagram(m.payload, m.source)]
  {
    LastSizeWins(m.control, 0);
  }

  lemma {:induction false} OrdinaryDeliveries(ms: seq<Message>, n: nat)
    requires n <= |ms| && forall i | 0 <= i < n :: Ordinary(ms[i])
    ensures Wanted(ms, n) == n
    ensures forall k | 0 <= k < n :: Deliveries(ms, n)[k] == Datagram(ms[k].payload, ms[k].source)
  {
    if n > 0 {
      OrdinaryDeliveries(ms, n - 1);
      OrdinaryYieldsOne(ms[n - 1]);
    }
  }

  /** Where the datagrams of all messages have been delivered, each slot reports its own. */
  lemma {:induction false} DeliveredSlot(slots: seq<RecvSlot>, ms: seq<Message>, bufSize: nat, k: nat)
    requires SlotsOk(slots, bufSize) && |ms| <= |slots| && Fits(ms, bufSize) && Delivered(slots, ms, bufSize)
    requires k < Cursor(ms, |ms|, |slots|)
    ensures var r, d := Process(Filled(slots, ms, bufSize), ms, |ms|, bufSize), Deliveries(ms, |ms|)[k];
            Reports(r.slots[k], d.data, d.source)
  {
    var r := Process(Filled(slots, ms, bufSize), ms, |ms|, bufSize);
    assert View(r.slots, r.out, bufSize)[k] == Take(Deliveries(ms, |ms|), |slots|)[k];
  }

  /** Ordinary messages are reported one per slot, as they were sent. */
  lemma {:induction false} OrdinaryAreReported(slots: seq<RecvSlot>, ms: seq<Message>, bufSize: nat)
    requires SlotsOk(slots, bufSize) && |ms| <= |slots| && Fits(ms, bufSize) && AllOrdinary(ms)
    ensures var r := Process(Filled(slots, ms, bufSize), ms, |ms|, bufSize);
      && r.Running? && r.out == |ms|
      && forall k | 0 <= k < |ms| :: Reports(r.slots[k], ms[k].payload, ms[k].source)
  {
    forall i | 0 <= i < |ms| ensures WellPlaced(ms, i, |slots|) {
      OrdinaryDeliveries(ms, i);
      OrdinaryYieldsOne(ms[i]);
    }
    PlacedIsDelivered(slots, ms, bufSize);
    OrdinaryDeliveries(ms, |ms|);
    forall k | 0 <= k < |ms|
      ensures Reports(Process(Filled(slots, ms, bufSize), ms, |ms|, bufSize).slots[k], ms[k].payload, ms[k].source)
    {
      DeliveredSlot(slots, ms, bufSize, k);
    }
  }

  /** Datagrams `ds` that the system coalesced at the size its last UDP_GRO message gives. */
  predicate Coalesced(m: Message, ds: seq<seq<Byte>>, i: nat) {
    && LastOf(m.control, i, IsSize) && m.control[i].size > 0
    && Coalescible(ds, m.control[i].size) && m.payload == Concat(ds)
  }

  lemma {:induction false} CoalescedDelivers(m: Message, ds: seq<seq<Byte>>, i: nat)
    requires Coalesced(m, ds, i)
    ensures SegSize(m.control) > 0 && Yield(m) == |ds| && Deliver(m) == Tagged(ds, m.source)
  {
    LastSizeWins(m.control, i);
    SplitOfConcat(ds, SegSize(m.control));
    SplitCount(m.payload, SegSize(m.control));
  }

  lemma {:induction false} CoalescedDeliveries(ms: seq<Message>, m: Message, ds: seq<seq<Byte>>, i: nat)
    requires AllOrdinary(ms) && Coalesced(m, ds, i)
    ensures Wanted(ms + [m], |ms|) == |ms| && Wanted(ms + [m], |ms| + 1) == |ms| + |ds|
    ensures forall k | 0 <= k < |ms| + |ds| :: Deliveries(ms + [m], |ms| + 1)[k]
              == if k < |ms| then Datagram(ms[k].payload, ms[k].source) else Datagram(ds[k - |ms|], m.source)
  {
    CoalescedDelivers(m, ds, i);
    OrdinaryDeliveries(ms + [m], |ms|);
    assert Deliveries(ms + [m], |ms| + 1) == Deliveries(ms + [m], |ms|) + Tagged(ds, m.source);
  }

  /** Ordinary messages followed by a coalesced one: the slots report the ordinary ones and
      then the datagrams that were coalesced, each with its peer, as far as there are slots. */
  lemma {:induction false} CoalescedAreReported(slots: seq<RecvSlot>, ms: seq<Message>, m: Message, ds: seq<seq<Byte>>,
                                                i: nat, bufSize: nat)
    requires SlotsOk(slots, bufSize) && |ms| < |slots| && Fits(ms + [m], bufSize)
    requires AllOrdinary(ms) && Coalesced(m, ds, i)
    ensures var r := Process(Filled(slots, ms + [m], bufSize), ms + [m], |ms| + 1, bufSize);
      && r.Running? && r.out == Min(|ms| + |ds|, |slots|)
      && (forall k | 0 <= k < |ms| :: Reports(r.slots[k], ms[k].payload, ms[k].source))
      && (forall k | |ms| <= k < r.out :: Reports(r.slots[k], ds[k - |ms|], m.source))
  {
    var all := ms + [m];
    CoalescedDelivers(m, ds, i);
    CoalescedDeliveries(ms, m, ds, i);
    CoalescedArePlaced(ms, m, |slots|);
    PlacedIsDelivered(slots, all, bufSize);
    var r := Process(Filled(slots, all, bufSize), all, |all|, bufSize);
    forall k | 0 <= k < r.out
      ensures if k < |ms| then Reports(r.slots[k], ms[k].payload, ms[k].source)
              else Reports(r.slots[k], ds[k - |ms|], m.source)
    {
      DeliveredSlot(slots, all, bufSize, k);
    }
  }

  lemma {:induction false} CoalescedArePlaced(ms: seq<Message>, m: Message, cap: nat)
    requires |ms| < cap && AllOrdinary(ms) && SegSize(m.control) > 0
    ensures Placed(ms + [m], cap)
  {
    var all := ms + [m];
    forall j | 0 <= j < |all| ensures WellPlaced(all, j, cap) {
      OrdinaryDeliveries(all, j);
      if j < |ms| {
        OrdinaryYieldsOne(all[j]);
      }
    }
  }

  /** ... and the caller is told their number. */
  lemma {:induction false} CoalescedAreCounted(os: Recv.Script, settled: nat, ms: seq<Message>, m: Message,
                                               ds: seq<seq<Byte>>, i: nat, capacity: nat)
    requires |ms| < capacity && AllOrdinary(ms) && Coalesced(m, ds, i) && os(settled) == Recv.Bulk(ms + [m])
    ensures Recv.AnswerOf(OnLinux, os, settled, capacity) == Recv.Returned(Ok(Min(|ms| + |ds|, capacity)))
  {
    CoalescedDeliveries(ms, m, ds, i);
  }
}
