/** What `try_recv_batch` does with the messages `recvmmsg` left in the batch:
    the message loop, the control-message scan and the in-place GRO split of
    src/platform/linux.rs. */
module LinuxRecv {
  import opened Common
  import opened SockAddr
  import opened Batch
  import opened Gro

  /** Control messages the scan recognises; a later one overrides an earlier one. */
  datatype Control =
    | UdpGro(size: U16)
    | TimestampNs(ts: Timestamp)
    | Ip4PktInfo(ip4: Octets4)
    | Ip6PktInfo(ip6: Octets16)
    | Unrelated

  /** One kernel message: the bytes it wrote, the decoded peer, the control data. */
  datatype Message = Message(payload: seq<Byte>, source: SocketAddr, control: seq<Control>)

  function SegSize(control: seq<Control>): U16 {
    if control == [] then 0
    else match control[|control| - 1]
      case UdpGro(size) => size
      case _ => SegSize(control[..|control| - 1])
  }

  /** The timestamp a slot ends up with, given the one it held before. */
  function Stamp(control: seq<Control>, stale: Option<Timestamp>): Option<Timestamp> {
    if control == [] then stale
    else match control[|control| - 1]
      case TimestampNs(ts) => Some(ts)
      case _ => Stamp(control[..|control| - 1], stale)
  }

  /** The local destination address a slot ends up with. */
  function Dest(control: seq<Control>, stale: Option<SocketAddr>): Option<SocketAddr> {
    if control == [] then stale
    else match control[|control| - 1]
      case Ip4PktInfo(ip) => Some(V4(ip, 0))
      case Ip6PktInfo(ip) => Some(V6(ip, 0, 0, 0))
      case _ => Dest(control[..|control| - 1], stale)
  }

  // ----- which control message the scan goes by -----

  predicate IsSize(c: Control) {
    c.UdpGro?
  }

  predicate IsStamp(c: Control) {
    c.TimestampNs?
  }

  predicate IsPktInfo(c: Control) {
    c.Ip4PktInfo? || c.Ip6PktInfo?
  }

  /** Element `i` is the last of those that `kind` picks. */
  predicate LastOf(control: seq<Control>, i: nat, kind: Control -> bool) {
    i < |control| && kind(control[i]) && forall j | i < j < |control| :: !kind(control[j])
  }

  predicate NoneOf(control: seq<Control>, kind: Control -> bool) {
    forall j | 0 <= j < |control| :: !kind(control[j])
  }

  /** The last UDP_GRO value is the segment size; without one there is no segmentation. */
  lemma {:induction false} LastSizeWins(control: seq<Control>, i: nat)
    ensures LastOf(control, i, IsSize) ==> SegSize(control) == control[i].size
    ensures NoneOf(control, IsSize) ==> SegSize(control) == 0
  {
    if control != [] {
      LastSizeWins(control[..|control| - 1], i);
    }
  }

  /** The last SCM_TIMESTAMPNS value is the timestamp; without one the slot keeps its own. */
  lemma {:induction false} LastStampWins(control: seq<Control>, i: nat, stale: Option<Timestamp>)
    ensures LastOf(control, i, IsStamp) ==> Stamp(control, stale) == Some(control[i].ts)
    ensures NoneOf(control, IsStamp) ==> Stamp(control, stale) == stale
  {
    if control != [] {
      LastStampWins(control[..|control| - 1], i, stale);
    }
  }

  /** The last packet-info address, of either family, with port, flow and scope 0, is the
      destination; without one the slot keeps its own. */
  lemma {:induction false} LastDestWins(control: seq<Control>, i: nat, stale: Option<SocketAddr>)
    ensures LastOf(control, i, IsPktInfo) ==>
              Dest(control, stale) == Some(if control[i].Ip4PktInfo? then V4(control[i].ip4, 0)
                                           else V6(control[i].ip6, 0, 0, 0))
    ensures NoneOf(control, IsPktInfo) ==> Dest(control, stale) == stale
  {
    if control != [] {
      LastDestWins(control[..|control| - 1], i, stale);
    }
  }

  predicate Fits(ms: seq<Message>, bufSize: nat) {
    forall i | 0 <= i < |ms| :: |ms[i].payload| <= bufSize
  }

  // ------------------------------------------------------------------
  //  The loop as a function of the slots
  // ------------------------------------------------------------------

  /** The kernel writes message i at the start of slot i's buffer. */
  function Filled(slots: seq<RecvSlot>, ms: seq<Message>, bufSize: nat): (r: seq<RecvSlot>)
    requires SlotsOk(slots, bufSize) && |ms| <= |slots| && Fits(ms, bufSize)
    ensures SlotsOk(r, bufSize) && |r| == |slots|
  {
    seq(|slots|, i requires 0 <= i < |slots| =>
      if i < |ms| then slots[i].(buf := Overwrite(slots[i].buf, ms[i].payload)) else slots[i])
  }

  /** Slot `out` after the length, address and control fields have been stored. */
  function Arrived(slots: seq<RecvSlot>, out: nat, m: Message): seq<RecvSlot>
    requires out < |slots|
  {
    slots[out := slots[out].(recvLen := AsU16(|m.payload|),
                             addr := m.source,
                             timestamp := Stamp(m.control, slots[out].timestamp),
                             dstAddr := Dest(m.control, slots[out].dstAddr))]
  }

  /** Segments laid out from slot `first` on. The first keeps its place in the
      coalesced buffer; the others are copied and take the first one's metadata. */
  function Scattered(slots: seq<RecvSlot>, first: nat, segs: seq<seq<Byte>>, source: SocketAddr): (r: seq<RecvSlot>)
    requires first + |segs| <= |slots|
    requires forall k | 0 <= k < |segs| :: |segs[k]| <= |slots[first + k].buf|
    ensures |r| == |slots|
  {
    seq(|slots|, k requires 0 <= k < |slots| =>
      if k == first && |segs| > 0 then
        slots[k].(recvLen := AsU16(|segs[0]|))
      else if first < k < first + |segs| then
        RecvSlot(Overwrite(slots[k].buf, segs[k - first]), source, AsU16(|segs[k - first]|),
                 slots[first].timestamp, slots[first].dstAddr)
      else
        slots[k])
  }

  /** Indexing slot `out` beyond the vector panics; nothing else can. */
  datatype Progress = Panicked | Running(slots: seq<RecvSlot>, out: nat)

  function Segments(slots: seq<RecvSlot>, out: nat, m: Message, bufSize: nat): (segs: seq<seq<Byte>>)
    requires SlotsOk(slots, bufSize) && |m.payload| <= bufSize && out < |slots|
    requires SegSize(m.control) > 0
    ensures |segs| == Min(PieceCount(|m.payload|, SegSize(m.control)), |slots| - out)
    ensures forall k | 0 <= k < |segs| :: 0 < |segs[k]| <= Min(bufSize, SegSize(m.control))
  {
    var coalesced := slots[out].buf[..|m.payload|];
    PiecesAreShort(coalesced, SegSize(m.control));
    SplitCount(coalesced, SegSize(m.control));
    Take(Split(coalesced, SegSize(m.control)), |slots| - out)
  }

  /** One iteration of the message loop with output cursor `out`. */
  function Step(slots: seq<RecvSlot>, out: nat, m: Message, bufSize: nat): (r: Progress)
    requires SlotsOk(slots, bufSize) && |m.payload| <= bufSize
    ensures r.Panicked? <==> out >= |slots|
    ensures r.Running? ==>
      && SlotsOk(r.slots, bufSize)
      && |r.slots| == |slots|
      && r.out == out + Min(Yield(m), |slots| - out)
      && Take(r.slots, out) == Take(slots, out)
      && forall k | r.out <= k < |slots| :: r.slots[k].buf == slots[k].buf
  {
    if out >= |slots| then
      Panicked
    else
      var arrived := Arrived(slots, out, m);
      if SegSize(m.control) == 0 then
        Running(arrived, out + 1)
      else
        var segs := Segments(arrived, out, m, bufSize);
        ScatteredKeeps(arrived, out, segs, m.source, bufSize);
        Running(Scattered(arrived, out, segs, m.source), out + |segs|)
  }

  lemma {:induction false} ScatteredKeeps(slots: seq<RecvSlot>, first: nat, segs: seq<seq<Byte>>, source: SocketAddr,
                                          bufSize: nat)
    requires SlotsOk(slots, bufSize) && first + |segs| <= |slots|
    requires forall k | 0 <= k < |segs| :: |segs[k]| <= bufSize
    ensures var r := Scattered(slots, first, segs, source);
      && SlotsOk(r, bufSize) && Take(r, first) == Take(slots, first)
      && forall k | first + |segs| <= k < |slots| :: r[k] == slots[k]
  {
  }

  /** Slots a message asks for; a matter of its length and segment size alone. */
  function Yield(m: Message): nat {
    if SegSize(m.control) == 0 then 1 else PieceCount(|m.payload|, SegSize(m.control))
  }

  /** Slots the first `n` messages ask for. */
  function Wanted(ms: seq<Message>, n: nat): nat
    requires n <= |ms|
  {
    if n == 0 then 0 else Wanted(ms, n - 1) + Yield(ms[n - 1])
  }

  /** Where the output cursor stands after `n` messages, if the loop gets that far. */
  function Cursor(ms: seq<Message>, n: nat, cap: nat): nat
    requires n <= |ms|
  {
    Min(Wanted(ms, n), cap)
  }

  /** The first `n` messages all find a slot; headers and capacity decide. */
  predicate Roomy(ms: seq<Message>, n: nat, cap: nat)
    requires n <= |ms|
  {
    n == 0 || Wanted(ms, n - 1) < cap
  }

  /** What is known of the loop after `n` messages without looking into it: headers decide
      whether it panics and where the cursor is; buffers keep their size, no length
      reaches past one, and the slots from the cursor on keep their bytes. */
  predicate Reached(slots: seq<RecvSlot>, ms: seq<Message>, n: nat, bufSize: nat, r: Progress)
    requires n <= |ms|
  {
    && (r.Running? <==> Roomy(ms, n, |slots|))
    && (r.Running? ==>
      && SlotsOk(r.slots, bufSize) && |r.slots| == |slots|
      && r.out == Cursor(ms, n, |slots|)
      && forall k | r.out <= k < |slots| :: r.slots[k].buf == slots[k].buf)
  }

  /** The message loop after its first `n` messages. */
  function Process(slots: seq<RecvSlot>, ms: seq<Message>, n: nat, bufSize: nat): (r: Progress)
    requires SlotsOk(slots, bufSize) && Fits(ms, bufSize) && n <= |ms|
    ensures Reached(slots, ms, n, bufSize, r)
    decreases n, 2
  {
    if n == 0 then Running(slots, 0) else Iterate(slots, ms, n, bufSize)
  }

  /** Its n-th iteration; after a panic there is none. */
  function Iterate(slots: seq<RecvSlot>, ms: seq<Message>, n: nat, bufSize: nat): (r: Progress)
    requires SlotsOk(slots, bufSize) && Fits(ms, bufSize) && 0 < n <= |ms|
    ensures Reached(slots, ms, n, bufSize, r)
    decreases n, 1
  {
    if Process(slots, ms, n - 1, bufSize).Panicked? then Panicked else Advance(slots, ms, n, bufSize)
  }

  function Advance(slots: seq<RecvSlot>, ms: seq<Message>, n: nat, bufSize: nat): (r: Progress)
    requires SlotsOk(slots, bufSize) && Fits(ms, bufSize) && 0 < n <= |ms|
    requires Process(slots, ms, n - 1, bufSize).Running?
    ensures Reached(slots, ms, n, bufSize, r)
    decreases n, 0
  {
    var before := Process(slots, ms, n - 1, bufSize);
    Step(before.slots, before.out, ms[n - 1], bufSize)
  }

  lemma {:induction false} IterationIsStep(slots: seq<RecvSlot>, ms: seq<Message>, n: nat, bufSize: nat,
                                           now: Progress)
    requires SlotsOk(slots, bufSize) && Fits(ms, bufSize) && n < |ms|
    requires now == Process(slots, ms, n, bufSize) && now.Running?
    ensures Process(slots, ms, n + 1, bufSize) == Step(now.slots, now.out, ms[n], bufSize)
  {
    assert Process(slots, ms, n + 1, bufSize) == Advance(slots, ms, n + 1, bufSize);
  }

  /** Slots before the cursor of `early` are the same in `late`. */
  predicate Keeps(early: Progress, late: Progress) {
    && early.Running? && late.Running? && early.out <= late.out <= |late.slots| == |early.slots|
    && Take(late.slots, early.out) == Take(early.slots, early.out)
  }

  lemma {:induction false} IterationKeeps(slots: seq<RecvSlot>, ms: seq<Message>, n: nat, bufSize: nat,
                                          early: Progress, late: Progress)
    requires SlotsOk(slots, bufSize) && Fits(ms, bufSize) && n < |ms|
    requires early == Process(slots, ms, n, bufSize) && late == Process(slots, ms, n + 1, bufSize) && late.Running?
    ensures Keeps(early, late)
  {
    IterationIsStep(slots, ms, n, bufSize, early);
  }

  lemma {:induction false} KeepsOn(a: Progress, b: Progress, c: Progress)
    requires Keeps(a, b) && Keeps(b, c)
    ensures Keeps(a, c)
  {
    assert c.slots[..a.out] == c.slots[..b.out][..a.out];
    assert b.slots[..a.out] == b.slots[..b.out][..a.out];
  }

  /** A slot the cursor has passed is never touched again. */
  lemma {:induction false} SlotsAreFinal(slots: seq<RecvSlot>, ms: seq<Message>, n: nat, m: nat, bufSize: nat,
                                         early: Progress, late: Progress)
    requires SlotsOk(slots, bufSize) && Fits(ms, bufSize) && n <= m <= |ms|
    requires early == Process(slots, ms, n, bufSize) && late == Process(slots, ms, m, bufSize) && late.Running?
    ensures Keeps(early, late)
    decreases m
  {
    if n < m {
      var mid := Process(slots, ms, m - 1, bufSize);
      IterationKeeps(slots, ms, m - 1, bufSize, mid, late);
      SlotsAreFinal(slots, ms, n, m - 1, bufSize, early, mid);
      KeepsOn(early, mid, late);
    }
  }

  lemma {:induction false} WantedGrows(ms: seq<Message>, n: nat, m: nat)
    requires n <= m <= |ms|
    ensures Wanted(ms, n) <= Wanted(ms, m)
    decreases m
  {
    if n < m {
      WantedGrows(ms, n, m - 1);
    }
  }

  // ------------------------------------------------------------------
  //  The loop as written
  // ------------------------------------------------------------------

  /** The control-message scan: stores metadata in slot `out`, returns the segment size. */
  method ScanControl(batch: RecvBatchRaw, out: nat, control: seq<Control>) returns (segSize: U16)
    requires batch.Valid() && out < |batch.slots|
    modifies batch`slots
    ensures batch.Valid()
    ensures segSize == SegSize(control)
    ensures batch.slots == old(batch.slots)[out := old(batch.slots)[out].(
                              timestamp := Stamp(control, old(batch.slots)[out].timestamp),
                              dstAddr := Dest(control, old(batch.slots)[out].dstAddr))]
  {
    ghost var before := batch.slots[out];
    segSize := 0;
    for j := 0 to |control|
      invariant batch.Valid() && |batch.slots| == |old(batch.slots)|
      invariant segSize == SegSize(control[..j])
      invariant batch.slots == old(batch.slots)[out := before.(timestamp := Stamp(control[..j], before.timestamp),
                                                              dstAddr := Dest(control[..j], before.dstAddr))]
    {
      match control[j] {
        case UdpGro(size) => segSize := size;
        case TimestampNs(ts) => batch.SetTimestamp(out, Some(ts));
        case Ip4PktInfo(ip) => batch.SetDstAddr(out, Some(V4(ip, 0)));
        case Ip6PktInfo(ip) => batch.SetDstAddr(out, Some(V6(ip, 0, 0, 0)));
        case Unrelated =>
      }
      assert control[..j + 1][..j] == control[..j];
    }
    assert control[..|control|] == control;
  }

  /** After `count` pieces the data from `offset` on is left to cut. */
  ghost predicate CutUpTo(data: seq<Byte>, offset: nat, size: nat, pieces: seq<seq<Byte>>, count: nat)
    requires size > 0
  {
    offset <= |data| && count <= |pieces| && pieces[count..] == Split(data[offset..], size)
  }

  /** The inner loop: cuts the coalesced bytes of slot `first` into the slots from it on. */
  method SplitInto(batch: RecvBatchRaw, first: nat, total: nat, segSize: U16, source: SocketAddr)
      returns (count: nat)
    requires batch.Valid() && first < |batch.slots| && total <= batch.bufSize && segSize > 0
    modifies batch`slots
    ensures batch.Valid() && |batch.slots| == |old(batch.slots)|
    ensures var pieces := Split(old(batch.slots)[first].buf[..total], segSize);
      && count == Min(|pieces|, |batch.slots| - first)
      && (forall k | 0 <= k < count :: |pieces[k]| <= batch.bufSize)
      && batch.slots == Scattered(old(batch.slots), first, pieces[..count], source)
  {
    var coalesced := batch.slots[first].buf[..total];
    ghost var before, pieces := batch.slots, CutPieces(coalesced, segSize);
    count := 0;
    var offset := 0;
    while offset < total
      invariant CutUpTo(coalesced, offset, segSize, pieces, count) && first + count <= |before|
      invariant batch.Valid() && |batch.slots| == |before|
      invariant batch.slots == Scattered(before, first, pieces[..count], source)
    {
      var segEnd := Min(offset + segSize, total);
      NextPiece(coalesced, offset, segSize, pieces, count);
      if count > 0 && first + count >= batch.Capacity() {
        break;
      }
      PlaceSegment(batch, first, count, coalesced[offset..segEnd], source, before, pieces);
      count := count + 1;
      offset := segEnd;
    }
    if offset == total {
      NothingLeft(coalesced, segSize, pieces, count);
    }
  }

  /** The pieces, none longer than the data. */
  ghost function CutPieces(data: seq<Byte>, size: nat): (pieces: seq<seq<Byte>>)
    requires size > 0
    ensures pieces == Split(data, size) && CutUpTo(data, 0, size, pieces, 0)
    ensures forall k | 0 <= k < |pieces| :: |pieces[k]| <= |data|
  {
    PiecesAreShort(data, size);
    assert data[0..] == data;
    Split(data, size)
  }

  lemma {:induction false} NothingLeft(data: seq<Byte>, size: nat, pieces: seq<seq<Byte>>, count: nat)
    requires size > 0 && CutUpTo(data, |data|, size, pieces, count)
    ensures count == |pieces|
  {
  }

  /** The first segment only gets its length; every later one is copied to its slot. */
  method PlaceSegment(batch: RecvBatchRaw, first: nat, count: nat, segment: seq<Byte>, source: SocketAddr,
                      ghost before: seq<RecvSlot>, ghost pieces: seq<seq<Byte>>)
    requires batch.Valid() && SlotsOk(before, batch.bufSize) && first + count < |batch.slots| == |before|
    requires count < |pieces| && pieces[count] == segment
    requires forall k | 0 <= k <= count :: |pieces[k]| <= batch.bufSize
    requires batch.slots == Scattered(before, first, pieces[..count], source)
    modifies batch`slots
    ensures batch.Valid() && batch.slots == Scattered(before, first, pieces[..count + 1], source)
  {
    ScatteredExtends(before, first, pieces, count, source);
    if count == 0 {
      batch.SetRecvLen(first, |segment|);
    } else {
      CopySegment(batch, first, first + count, segment, source);
    }
  }

  /** One later segment: its bytes, the message's peer and the first slot's metadata. */
  method CopySegment(batch: RecvBatchRaw, first: nat, next: nat, segment: seq<Byte>, source: SocketAddr)
    requires batch.Valid() && first < next < |batch.slots| && |segment| <= batch.bufSize
    modifies batch`slots
    ensures batch.Valid()
    ensures batch.slots == old(batch.slots)[next :=
              RecvSlot(Overwrite(old(batch.slots)[next].buf, segment), source, AsU16(|segment|),
                       old(batch.slots)[first].timestamp, old(batch.slots)[first].dstAddr)]
  {
    batch.WriteBuffer(next, segment);
    batch.SetRecvLen(next, |segment|);
    batch.SetAddr(next, source);
    batch.SetTimestamp(next, batch.slots[first].timestamp);
    batch.SetDstAddr(next, batch.slots[first].dstAddr);
  }

  lemma {:induction false} ScatteredExtends(slots: seq<RecvSlot>, first: nat, pieces: seq<seq<Byte>>, count: nat,
                                            source: SocketAddr)
    requires count < |pieces| && first + count < |slots|
    requires forall k | 0 <= k <= count :: |pieces[k]| <= |slots[first + k].buf|
    ensures var before := Scattered(slots, first, pieces[..count], source);
            Scattered(slots, first, pieces[..count + 1], source)
            == before[first + count :=
                 if count == 0 then before[first].(recvLen := AsU16(|pieces[0]|))
                 else RecvSlot(Overwrite(before[first + count].buf, pieces[count]), source, AsU16(|pieces[count]|),
                               before[first].timestamp, before[first].dstAddr)]
  {
  }

  lemma {:induction false} NextPiece(data: seq<Byte>, offset: nat, size: nat, pieces: seq<seq<Byte>>, count: nat)
    requires size > 0 && offset < |data| && CutUpTo(data, offset, size, pieces, count)
    ensures var end := Min(offset + size, |data|);
      && count < |pieces|
      && pieces[count] == data[offset..end]
      && CutUpTo(data, end, size, pieces, count + 1)
  {
    var rest, end := data[offset..], Min(offset + size, |data|);
    assert pieces[count..][0] == pieces[count];
    assert pieces[count + 1..] == pieces[count..][1..];
    if |rest| > size {
      assert rest[..size] == data[offset..end] && rest[size..] == data[end..];
      assert ([rest[..size]] + Split(rest[size..], size))[1..] == Split(rest[size..], size);
    } else {
      assert rest == data[offset..end] && data[end..] == [];
    }
  }

  /** The length, address and control fields of a message are stored in slot `out`. */
  method Arrive(batch: RecvBatchRaw, out: nat, m: Message) returns (segSize: U16)
    requires batch.Valid() && out < |batch.slots| && |m.payload| <= batch.bufSize
    modifies batch`slots
    ensures batch.Valid() && segSize == SegSize(m.control)
    ensures batch.slots == Arrived(old(batch.slots), out, m)
  {
    batch.SetRecvLen(out, |m.payload|);
    batch.SetAddr(out, m.source);
    segSize := ScanControl(batch, out, m.control);
  }

  /** One iteration of the message loop. */
  method ReceiveMessage(batch: RecvBatchRaw, out: nat, m: Message) returns (count: nat)
    requires batch.Valid() && out < |batch.slots| && |m.payload| <= batch.bufSize
    modifies batch`slots
    ensures batch.Valid()
    ensures Step(old(batch.slots), out, m, batch.bufSize) == Running(batch.slots, out + count)
  {
    var segSize := Arrive(batch, out, m);
    if segSize > 0 {
      count := SplitMessage(batch, out, m, old(batch.slots));
    } else {
      PlainStepIs(old(batch.slots), out, m, batch.bufSize);
      count := 1;
    }
  }

  /** ... for a coalesced message ... */
  method SplitMessage(batch: RecvBatchRaw, out: nat, m: Message, ghost before: seq<RecvSlot>) returns (count: nat)
    requires batch.Valid() && SlotsOk(before, batch.bufSize) && out < |before| && |m.payload| <= batch.bufSize
    requires SegSize(m.control) > 0 && batch.slots == Arrived(before, out, m)
    modifies batch`slots
    ensures batch.Valid() && Step(before, out, m, batch.bufSize) == Running(batch.slots, out + count)
  {
    ghost var arrived := batch.slots;
    count := SplitInto(batch, out, |m.payload|, SegSize(m.control), m.source);
    SplitStepIs(before, arrived, out, m, batch.bufSize, batch.slots, count);
  }

  /** ... and for any other. */
  lemma {:induction false} PlainStepIs(slots: seq<RecvSlot>, out: nat, m: Message, bufSize: nat)
    requires SlotsOk(slots, bufSize) && |m.payload| <= bufSize && out < |slots| && SegSize(m.control) == 0
    ensures Step(slots, out, m, bufSize) == Running(Arrived(slots, out, m), out + 1)
  {
  }

  lemma {:induction false} SplitStepIs(slots: seq<RecvSlot>, arrived: seq<RecvSlot>, out: nat, m: Message, bufSize: nat,
                                       after: seq<RecvSlot>, count: nat)
    requires SlotsOk(slots, bufSize) && |m.payload| <= bufSize && out < |slots| && SegSize(m.control) > 0
    requires arrived == Arrived(slots, out, m)
    requires var pieces := Split(arrived[out].buf[..|m.payload|], SegSize(m.control));
      && count == Min(|pieces|, |slots| - out)
      && (forall k | 0 <= k < count :: |pieces[k]| <= bufSize)
      && after == Scattered(arrived, out, pieces[..count], m.source)
    ensures Step(slots, out, m, bufSize) == Running(after, out + count)
  {
    var pieces := Split(arrived[out].buf[..|m.payload|], SegSize(m.control));
    SplitCount(arrived[out].buf[..|m.payload|], SegSize(m.control));
    assert Segments(arrived, out, m, bufSize) == pieces[..count];
  }

  /** ... which takes the loop from `i` messages to the next. */
  method NextMessage(batch: RecvBatchRaw, ms: seq<Message>, i: nat, out: nat, ghost filled: seq<RecvSlot>)
      returns (count: nat)
    requires batch.Valid() && i < |ms| && out < |batch.slots|
    requires SlotsOk(filled, batch.bufSize) && Fits(ms, batch.bufSize)
    requires Process(filled, ms, i, batch.bufSize) == Running(batch.slots, out)
    modifies batch`slots
    ensures batch.Valid() && Process(filled, ms, i + 1, batch.bufSize) == Running(batch.slots, out + count)
  {
    IterationIsStep(filled, ms, i, batch.bufSize, Running(batch.slots, out));
    count := ReceiveMessage(batch, out, ms[i]);
  }

  /** The message loop over what the kernel left in the batch. */
  method ProcessMessages(batch: RecvBatchRaw, ms: seq<Message>) returns (panicked: bool, received: nat)
    requires batch.Valid() && |ms| <= |batch.slots| && Fits(ms, batch.bufSize)
    modifies batch
    ensures batch.Valid() && |batch.slots| == |old(batch.slots)|
    ensures var r := Process(old(batch.slots), ms, |ms|, batch.bufSize);
      && panicked == r.Panicked?
      && (!panicked ==> batch.slots == r.slots && received == r.out == batch.len)
  {
    var out: nat := 0;
    ghost var filled := batch.slots;
    for i := 0 to |ms|
      invariant batch.Valid() && |batch.slots| == |filled|
      invariant Process(filled, ms, i, batch.bufSize) == Running(batch.slots, out)
    {
      if out >= batch.Capacity() {
        WantedGrows(ms, i, |ms| - 1);
        return true, 0;
      }
      var count := NextMessage(batch, ms, i, out, filled);
      out := out + count;
    }
    batch.SetLen(out);
    return false, out;
  }
}
