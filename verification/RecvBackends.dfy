/** The receive paths of all platforms against a script of operating-system answers. */
module RecvBackends {
  import opened Common
  import opened Batch
  import opened LinuxRecv
  import opened GroDelivery

  /** A bulk call answers with several messages, `recvfrom` with one, either may refuse. */
  datatype Call = Bulk(ms: seq<Message>) | One(m: Message) | Refused(error: IoError)

  type Script = nat -> Call

  /** The buffer sizes bound what the kernel writes, the capacity how many slots it fills. */
  predicate CallFits(call: Call, capacity: nat, bufSize: nat) {
    match call
    case Bulk(ms) => |ms| <= capacity && Fits(ms, bufSize)
    case One(m) => |m.payload| <= bufSize
    case Refused(_) => true
  }

  /** What the caller is told: a result, or nothing because the thread panicked. */
  datatype Answer = Returned(result: IoResult) | Panic

  // ------------------------------------------------------------------
  //  One datagram per slot: the loops, and recvmsg_x
  // ------------------------------------------------------------------

  /** A slot after one datagram; timestamp and destination stay as they were. */
  function Landed(slot: RecvSlot, m: Message): (r: RecvSlot)
    requires |m.payload| <= |slot.buf|
    ensures |m.payload| < 0x1_0000 ==> r.recvLen <= |r.buf| && r.Data() == m.payload
    ensures r.addr == m.source && r.timestamp == slot.timestamp && r.dstAddr == slot.dstAddr
  {
    slot.(buf := Overwrite(slot.buf, m.payload), recvLen := AsU16(|m.payload|), addr := m.source)
  }

  predicate LandedInOrder(before: seq<RecvSlot>, after: seq<RecvSlot>, ms: seq<Message>) {
    && |ms| <= |before| == |after|
    && (forall i | 0 <= i < |ms| :: |ms[i].payload| <= |before[i].buf| && after[i] == Landed(before[i], ms[i]))
    && (forall i | |ms| <= i < |before| :: after[i] == before[i])
  }

  /** Messages taken as they are, without segmentation. */
  function Plain(ms: seq<Message>): (r: seq<Datagram>)
    ensures |r| == |ms|
  {
    seq(|ms|, i requires 0 <= i < |ms| => Datagram(ms[i].payload, ms[i].source))
  }

  predicate LengthsFitU16(ms: seq<Message>) {
    forall i | 0 <= i < |ms| :: |ms[i].payload| < 0x1_0000
  }

  /** The caller sees these messages in the first slots. */
  predicate Seen(slots: seq<RecvSlot>, ms: seq<Message>, bufSize: nat)
    requires SlotsOk(slots, bufSize) && |ms| <= |slots|
  {
    LengthsFitU16(ms) ==> View(slots, |ms|, bufSize) == Plain(ms)
  }

  /** Where messages have landed one per slot, the caller sees them in order. */
  lemma {:induction false} LandedAreSeen(before: seq<RecvSlot>, after: seq<RecvSlot>, ms: seq<Message>, bufSize: nat)
    requires SlotsOk(after, bufSize) && LandedInOrder(before, after, ms)
    ensures Seen(after, ms, bufSize)
  {
    if LengthsFitU16(ms) {
      forall i | 0 <= i < |ms| ensures View(after, |ms|, bufSize)[i] == Plain(ms)[i] {
        assert after[i] == Landed(before[i], ms[i]);
      }
    }
  }

  /** The datagrams that up to `n` single calls deliver before one is refused. */
  function Arrivals(os: Script, pos: nat, n: nat): (ms: seq<Message>)
    ensures |ms| <= n
    ensures |ms| < n ==> !os(pos + |ms|).One?
    ensures forall j | 0 <= j < |ms| :: os(pos + j) == One(ms[j])
  {
    if n == 0 then []
    else
      var front := Arrivals(os, pos, n - 1);
      if |front| == n - 1 && os(pos + (n - 1)).One? then front + [os(pos + (n - 1)).m] else front
  }

  /** Those are the only messages with these properties. */
  lemma {:induction false} ArrivalsAre(os: Script, pos: nat, n: nat, ms: seq<Message>)
    requires |ms| <= n && (|ms| < n ==> !os(pos + |ms|).One?)
    requires forall j | 0 <= j < |ms| :: os(pos + j) == One(ms[j])
    ensures Arrivals(os, pos, n) == ms
    decreases n
  {
    if 0 < n == |ms| {
      ArrivalsAre(os, pos, n - 1, ms[..n - 1]);
      assert os(pos + (n - 1)) == One(ms[n - 1]);
    } else if n > 0 {
      ArrivalsAre(os, pos, n - 1, ms);
    }
  }

  function LoopAnswer(os: Script, pos: nat, n: nat): IoResult {
    var k := |Arrivals(os, pos, n)|;
    if k < n && os(pos + k).Refused? && os(pos + k).error != WouldBlock then Err(os(pos + k).error) else Ok(k)
  }

  /** What single calls owe the loop. */
  ghost predicate SinglesContract(os: Script, pos: nat, capacity: nat, bufSize: nat) {
    forall k | pos <= k :: CallFits(os(k), capacity, bufSize) && !os(k).Bulk?
  }

  /** `recvfrom` has written the next slot's buffer; the loop stores the rest. */
  method Land(batch: RecvBatchRaw, m: Message, ghost before: seq<RecvSlot>, ghost ms: seq<Message>, i: nat)
    requires batch.Valid() && i == |ms| < |batch.slots| && |m.payload| <= batch.bufSize
    requires LandedInOrder(before, batch.slots, ms)
    modifies batch
    ensures batch.Valid() && batch.len == i + 1
    ensures batch.slots == old(batch.slots)[i := Landed(old(batch.slots)[i], m)]
    ensures LandedInOrder(before, batch.slots, ms + [m])
  {
    batch.WriteBuffer(i, m.payload);
    batch.SetRecvLen(i, |m.payload|);
    batch.SetAddr(i, m.source);
    batch.SetLen(i + 1);
  }

  /** The `recvfrom` loop of `fallback.rs`, `fallback_recv`, `macos.rs` and
      `windows.rs`. An immediate would-block leaves the old length in place. */
  method RecvLoop(batch: RecvBatchRaw, os: Script, pos: nat) returns (r: IoResult)
    requires batch.Valid() && SinglesContract(os, pos, |batch.slots|, batch.bufSize)
    modifies batch
    ensures batch.Valid()
    ensures r == LoopAnswer(os, pos, |old(batch.slots)|)
    ensures var ms := Arrivals(os, pos, |old(batch.slots)|);
      && LandedInOrder(old(batch.slots), batch.slots, ms) && Seen(batch.slots, ms, batch.bufSize)
      && batch.len == if ms == [] then old(batch.len) else |ms|
  {
    ghost var before, ms := batch.slots, Arrivals(os, pos, |batch.slots|);
    r := LandAll(batch, os, pos, ms);
    LandedAreSeen(before, batch.slots, ms, batch.bufSize);
  }

  /** The loop itself. */
  method LandAll(batch: RecvBatchRaw, os: Script, pos: nat, ghost all: seq<Message>) returns (r: IoResult)
    requires batch.Valid() && SinglesContract(os, pos, |batch.slots|, batch.bufSize)
    requires all == Arrivals(os, pos, |batch.slots|)
    modifies batch
    ensures batch.Valid() && LandedInOrder(old(batch.slots), batch.slots, all)
    ensures r == LoopAnswer(os, pos, |old(batch.slots)|)
    ensures batch.len == if all == [] then old(batch.len) else |all|
  {
    var received := 0;
    ghost var before, cap := batch.slots, |batch.slots|;
    ghost var ms: seq<Message> := [];
    for i := 0 to |batch.slots|
      invariant batch.Valid() && |batch.slots| == cap && received == i == |ms|
      invariant forall j | 0 <= j < i :: os(pos + j) == One(ms[j])
      invariant LandedInOrder(before, batch.slots, ms)
      invariant batch.len == if i == 0 then old(batch.len) else i
    {
      if os(pos + i).Refused? {
        ArrivalsAre(os, pos, cap, ms);
        if os(pos + i).error == WouldBlock {
          return Ok(received);
        }
        return Err(os(pos + i).error);
      }
      Land(batch, os(pos + i).m, before, ms, i);
      received := received + 1;
      ms := ms + [os(pos + i).m];
    }
    ArrivalsAre(os, pos, cap, ms);
    r := Ok(received);
  }

  /** `macos.rs` after a successful `recvmsg_x`. */
  method RecvMsgX(batch: RecvBatchRaw, ms: seq<Message>) returns (n: nat)
    requires batch.Valid() && |ms| <= |batch.slots| && Fits(ms, batch.bufSize)
    modifies batch
    ensures batch.Valid() && LandedInOrder(old(batch.slots), batch.slots, ms) && Seen(batch.slots, ms, batch.bufSize)
    ensures n == batch.len == |ms|
  {
    ghost var before := batch.slots;
    batch.slots := Filled(batch.slots, ms, batch.bufSize);
    ghost var filled := batch.slots;
    for i := 0 to |ms|
      invariant batch.Valid() && |batch.slots| == |before|
      invariant forall k | 0 <= k < i :: batch.slots[k] == Landed(before[k], ms[k])
      invariant forall k | i <= k < |before| :: batch.slots[k] == filled[k]
    {
      batch.SetRecvLen(i, |ms[i].payload|);
      batch.SetAddr(i, ms[i].source);
    }
    LandedAreSeen(before, batch.slots, ms, batch.bufSize);
    batch.SetLen(|ms|);
    n := |ms|;
  }

  // ------------------------------------------------------------------
  //  Bulk calls, retried while interrupted
  // ------------------------------------------------------------------

  /** The bulk call goes through (or is refused for good) at position `settled`; if
      the system does not have it, single calls follow. */
  predicate BulkContract(os: Script, settled: nat, capacity: nat, bufSize: nat) {
    && (forall j | 0 <= j < settled :: os(j) == Refused(Interrupted))
    && os(settled) != Refused(Interrupted) && !os(settled).One?
    && CallFits(os(settled), capacity, bufSize)
  }

  method RetryEintr(os: Script, ghost settled: nat) returns (pos: nat)
    requires forall j | 0 <= j < settled :: os(j) == Refused(Interrupted)
    requires os(settled) != Refused(Interrupted)
    ensures pos == settled
  {
    pos := 0;
    while os(pos) == Refused(Interrupted)
      invariant pos <= settled
      decreases settled - pos
    {
      pos := pos + 1;
    }
  }

  /** `linux.rs`: `recvmmsg` and the message loop, or the `recvfrom` loop without it. */
  method LinuxTryRecv(batch: RecvBatchRaw, os: Script, ghost settled: nat) returns (a: Answer)
    requires batch.Valid()
    requires |batch.slots| > 0 ==> BulkContract(os, settled, |batch.slots|, batch.bufSize)
    requires |batch.slots| > 0 && os(settled) == Refused(NoSys) ==>
               SinglesContract(os, settled + 1, |batch.slots|, batch.bufSize)
    modifies batch
    ensures batch.Valid() && |batch.slots| == |old(batch.slots)|
    ensures a == AnswerOf(OnLinux, os, settled, |batch.slots|)
    ensures a.Returned? ==>
      && Left(OnLinux, os, settled, old(batch.slots), batch.slots, batch.bufSize)
      && batch.len == LenAfter(OnLinux, os, settled, |batch.slots|, old(batch.len))
  {
    if batch.Capacity() == 0 {
      return Returned(Ok(0));
    }
    var pos := RetryEintr(os, settled);
    if os(pos).Refused? {
      if os(pos).error == NoSys {
        var r := RecvLoop(batch, os, pos + 1);
        return Returned(r);
      }
      return Returned(Err(os(pos).error));
    }
    var ms := os(pos).ms;
    batch.slots := Filled(batch.slots, ms, batch.bufSize);
    var panicked, n := ProcessMessages(batch, ms);
    return if panicked then Panic else Returned(Ok(n));
  }

  /** `macos.rs`: `recvmsg_x` where the system has it, the loop otherwise. */
  method MacTryRecv(batch: RecvBatchRaw, hasRecvmsgX: bool, os: Script, ghost settled: nat) returns (r: IoResult)
    requires batch.Valid()
    requires |batch.slots| > 0 && hasRecvmsgX ==> BulkContract(os, settled, |batch.slots|, batch.bufSize)
    requires !hasRecvmsgX ==> SinglesContract(os, 0, |batch.slots|, batch.bufSize)
    modifies batch
    ensures batch.Valid() && |batch.slots| == |old(batch.slots)|
    ensures Returned(r) == AnswerOf(OnMac(hasRecvmsgX), os, settled, |batch.slots|)
    ensures Left(OnMac(hasRecvmsgX), os, settled, old(batch.slots), batch.slots, batch.bufSize)
    ensures batch.len == LenAfter(OnMac(hasRecvmsgX), os, settled, |batch.slots|, old(batch.len))
  {
    if batch.Capacity() == 0 {
      return Ok(0);
    }
    if !hasRecvmsgX {
      r := RecvLoop(batch, os, 0);
      return;
    }
    var pos := RetryEintr(os, settled);
    if os(pos).Refused? {
      return Err(os(pos).error);
    }
    var n := RecvMsgX(batch, os(pos).ms);
    return Ok(n);
  }

  // ------------------------------------------------------------------
  //  One attempt on any platform
  // ------------------------------------------------------------------

  /** The attempt is made datagram by datagram. */
  predicate Loops(p: Platform, os: Script, settled: nat) {
    match p
    case OnLinux => os(settled) == Refused(NoSys)
    case OnMac(hasBulk) => !hasBulk
    case OnWindows => true
    case Elsewhere => true
  }

  /** The script position of the loop's first call. */
  function LoopStart(p: Platform, settled: nat): nat {
    if p.OnLinux? then settled + 1 else 0
  }

  /** What the system owes one attempt. */
  ghost predicate Contract(p: Platform, os: Script, settled: nat, capacity: nat, bufSize: nat) {
    var bulk := p.OnLinux? || (p.OnMac? && p.hasBulk);
    && (bulk && capacity > 0 ==> BulkContract(os, settled, capacity, bufSize))
    && (Loops(p, os, settled) && (bulk ==> capacity > 0) ==>
          SinglesContract(os, LoopStart(p, settled), capacity, bufSize))
  }

  /** What the caller is told: a matter of the script and the capacity. The batch's
      earlier contents play no part. */
  function AnswerOf(p: Platform, os: Script, settled: nat, capacity: nat): Answer {
    if capacity == 0 then Returned(Ok(0))
    else if Loops(p, os, settled) then Returned(LoopAnswer(os, LoopStart(p, settled), capacity))
    else match os(settled)
      case Refused(error) => Returned(Err(error))
      case One(_) => Returned(Ok(0))
      case Bulk(ms) =>
        if !p.OnLinux? then Returned(Ok(|ms|))
        else if Roomy(ms, |ms|, capacity) then Returned(Ok(Cursor(ms, |ms|, capacity)))
        else Panic
  }

  /** What an attempt that returns leaves in the slots, whatever it returns. */
  ghost predicate Left(p: Platform, os: Script, settled: nat, before: seq<RecvSlot>, after: seq<RecvSlot>, bufSize: nat)
    requires SlotsOk(before, bufSize) && Contract(p, os, settled, |before|, bufSize)
  {
    if before == [] then
      after == before
    else if Loops(p, os, settled) then
      LandedInOrder(before, after, Arrivals(os, LoopStart(p, settled), |before|))
    else match os(settled)
      case Refused(_) => after == before
      case Bulk(ms) =>
        if p.OnLinux? then
          Process(Filled(before, ms, bufSize), ms, |ms|, bufSize) == Running(after, Cursor(ms, |ms|, |before|))
        else
          LandedInOrder(before, after, ms)
  }

  /** The batch's length after an attempt that returns. */
  function LenAfter(p: Platform, os: Script, settled: nat, capacity: nat, len: nat): nat {
    if capacity == 0 then len
    else if Loops(p, os, settled) then
      var n := |Arrivals(os, LoopStart(p, settled), capacity)|;
      if n == 0 then len else n
    else if os(settled).Bulk? then
      if p.OnLinux? then Cursor(os(settled).ms, |os(settled).ms|, capacity) else |os(settled).ms|
    else len
  }

  /** `len()` is documented as the number of packets received in the last operation. After a
      success it is, unless a loop met a would-block at once, or there are no slots, and an
      older length was left in place. */
  lemma {:induction false} LenIsCountIff(p: Platform, os: Script, settled: nat, capacity: nat, bufSize: nat, len: nat)
    requires Contract(p, os, settled, capacity, bufSize)
    ensures var answer := AnswerOf(p, os, settled, capacity);
            answer.Returned? && answer.result.Ok? ==>
              (LenAfter(p, os, settled, capacity, len) == answer.result.count <==>
               answer.result.count > 0 || len == 0 || (capacity > 0 && !Loops(p, os, settled)))
  {
  }

  // ------------------------------------------------------------------
  //  The platforms, one by one
  // ------------------------------------------------------------------

  /** The system makes single calls: always on Windows and other systems, on macOS without
      `recvmsg_x`, on Linux once `recvmmsg` turns out to be missing. */
  predicate SingleCalls(p: Platform, os: Script, settled: nat) {
    p.OnWindows? || p.Elsewhere? || p == OnMac(false) || (p.OnLinux? && os(settled) == Refused(NoSys))
  }

  /** `k` calls in a row deliver a datagram each. */
  predicate AllOnes(os: Script, pos: nat, k: nat) {
    forall j | pos <= j < pos + k :: os(j).One?
  }

  /** The first call that delivers nothing is number `k`, and is refused with `e`. */
  predicate FirstRefusal(os: Script, pos: nat, n: nat, k: nat, e: IoError) {
    k < n && AllOnes(os, pos, k) && os(pos + k) == Refused(e)
  }

  ghost predicate SomeFirstRefusal(os: Script, pos: nat, n: nat, e: IoError) {
    exists k :: FirstRefusal(os, pos, n, k, e)
  }

  lemma {:induction false} ArrivalsCount(os: Script, pos: nat, n: nat, k: nat)
    ensures |Arrivals(os, pos, n)| == k <==> k <= n && AllOnes(os, pos, k) && (k < n ==> !os(pos + k).One?)
  {
    var ms := Arrivals(os, pos, n);
    forall j | pos <= j < pos + |ms| ensures os(j).One? {
      assert os(pos + (j - pos)) == One(ms[j - pos]);
    }
    if k <= n && AllOnes(os, pos, k) && (k < n ==> !os(pos + k).One?) {
      ArrivalsAre(os, pos, n, seq(k, j requires 0 <= j < k => assert os(pos + j).One?; os(pos + j).m));
    }
  }

  lemma {:induction false} LoopErrorIs(os: Script, pos: nat, n: nat, e: IoError)
    ensures LoopAnswer(os, pos, n) == Err(e) <==> e != WouldBlock && SomeFirstRefusal(os, pos, n, e)
  {
    var k := |Arrivals(os, pos, n)|;
    ArrivalsCount(os, pos, n, k);
    if LoopAnswer(os, pos, n) == Err(e) {
      assert FirstRefusal(os, pos, n, k, e);
    }
    forall j | FirstRefusal(os, pos, n, j, e) ensures j == k {
      ArrivalsCount(os, pos, n, j);
    }
  }

  /** With single calls an attempt fails with `e` exactly if the first call that delivers
      nothing is refused with `e`, other than would-block; it succeeds with `k` exactly if
      `k` datagrams came and then a would-block or the end of the slots. */
  lemma {:induction false} SingleCallsAnswer(p: Platform, os: Script, settled: nat, capacity: nat, bufSize: nat,
                                             k: nat, e: IoError)
    requires capacity > 0 && SingleCalls(p, os, settled) && Contract(p, os, settled, capacity, bufSize)
    ensures var start := if p.OnLinux? then settled + 1 else 0;
            var answer := AnswerOf(p, os, settled, capacity);
      && (answer == Returned(Err(e)) <==> e != WouldBlock && SomeFirstRefusal(os, start, capacity, e))
      && (answer == Returned(Ok(k)) <==>
            k <= capacity && AllOnes(os, start, k) && (k < capacity ==> os(start + k) == Refused(WouldBlock)))
      && answer.Returned?
  {
    var start := if p.OnLinux? then settled + 1 else 0;
    LoopErrorIs(os, start, capacity, e);
    ArrivalsCount(os, start, capacity, k);
  }

  /** A bulk call that is refused is answered with the system's own error; `recvmsg_x` with the
      number of messages; a batch without slots with zero, whatever the system. */
  lemma {:induction false} BulkAnswer(p: Platform, os: Script, settled: nat, capacity: nat)
    ensures capacity == 0 ==> AnswerOf(p, os, settled, capacity) == Returned(Ok(0))
    ensures capacity > 0 && (p.OnLinux? || p == OnMac(true)) && !SingleCalls(p, os, settled) && os(settled).Refused? ==>
              AnswerOf(p, os, settled, capacity) == Returned(Err(os(settled).error))
    ensures capacity > 0 && p == OnMac(true) && os(settled).Bulk? ==>
              AnswerOf(p, os, settled, capacity) == Returned(Ok(|os(settled).ms|))
  {
  }

  // ------------------------------------------------------------------
  //  What an attempt takes from the system
  // ------------------------------------------------------------------

  /** The number of datagrams the system handed over, reported or not. */
  function Taken(p: Platform, os: Script, settled: nat, capacity: nat): nat {
    if capacity == 0 then 0
    else if Loops(p, os, settled) then |Arrivals(os, LoopStart(p, settled), capacity)|
    else if os(settled).Bulk? then
      if p.OnLinux? then Wanted(os(settled).ms, |os(settled).ms|) else |os(settled).ms|
    else 0
  }

  /** A loop met a hard error after it had taken something. */
  predicate CutShort(p: Platform, os: Script, settled: nat, capacity: nat) {
    var start := LoopStart(p, settled);
    var k := |Arrivals(os, start, capacity)|;
    && Loops(p, os, settled) && 0 < k < capacity
    && os(start + k).Refused? && os(start + k).error != WouldBlock
  }

  /** An attempt reports all it took, or as much as there are slots for; one that blocks or
      reports nothing took nothing. One that fails took something, and loses it, exactly
      if it is a loop cut short. */
  lemma {:induction false} AnswerTellsTaken(p: Platform, os: Script, settled: nat, capacity: nat, bufSize: nat)
    requires Contract(p, os, settled, capacity, bufSize)
    ensures var answer, taken := AnswerOf(p, os, settled, capacity), Taken(p, os, settled, capacity);
      && (answer.Returned? && answer.result.Ok? ==> answer.result.count == Min(taken, capacity))
      && (answer == Returned(Ok(0)) || answer == Returned(Err(WouldBlock)) ==> taken == 0)
      && (answer.Returned? && answer.result.Err? && taken > 0 <==> CutShort(p, os, settled, capacity))
  {
  }

  /** The first `n` slots show what this attempt received, in order: the messages of the
      single calls or of `recvmsg_x` if their lengths fit u16, the datagrams `recvmmsg`
      delivered if its messages are placed. */
  ghost predicate Shows(p: Platform, os: Script, settled: nat, slots: seq<RecvSlot>, n: nat, bufSize: nat)
    requires SlotsOk(slots, bufSize) && n <= |slots|
  {
    if Loops(p, os, settled) then
      var ms := Arrivals(os, LoopStart(p, settled), |slots|);
      |ms| == n && Seen(slots, ms, bufSize)
    else if os(settled).Bulk? then
      var ms := os(settled).ms;
      if p.OnLinux? then Placed(ms, |slots|) ==> View(slots, n, bufSize) == Take(Deliveries(ms, |ms|), |slots|)
      else |ms| == n && Seen(slots, ms, bufSize)
    else
      false
  }

  method PlatformRecv(p: Platform, batch: RecvBatchRaw, os: Script, ghost settled: nat) returns (answer: Answer)
    requires batch.Valid() && Contract(p, os, settled, |batch.slots|, batch.bufSize)
    modifies batch
    ensures batch.Valid() && |batch.slots| == |old(batch.slots)|
    ensures answer == AnswerOf(p, os, settled, |batch.slots|)
    ensures answer.Returned? ==>
      && Left(p, os, settled, old(batch.slots), batch.slots, batch.bufSize)
      && batch.len == LenAfter(p, os, settled, |batch.slots|, old(batch.len))
  {
    if p.OnLinux? {
      answer := LinuxTryRecv(batch, os, settled);
    } else if p.OnMac? {
      var r := MacTryRecv(batch, p.hasBulk, os, settled);
      answer := Returned(r);
    } else {
      var r := RecvLoop(batch, os, 0);
      answer := Returned(r);
    }
  }

  /** What is left in the slots by a success shows what arrived, and the length is the count. */
  lemma {:induction false} LeftShows(p: Platform, os: Script, settled: nat, before: seq<RecvSlot>,
                                     after: seq<RecvSlot>, bufSize: nat)
    requires SlotsOk(before, bufSize) && SlotsOk(after, bufSize) && |before| == |after|
    requires Contract(p, os, settled, |before|, bufSize) && Left(p, os, settled, before, after, bufSize)
    requires var answer := AnswerOf(p, os, settled, |before|);
             answer.Returned? && answer.result.Ok? && answer.result.count > 0
    ensures var n := AnswerOf(p, os, settled, |before|).result.count;
            n <= |after| && Shows(p, os, settled, after, n, bufSize)
    ensures forall len :: LenAfter(p, os, settled, |before|, len) == AnswerOf(p, os, settled, |before|).result.count
  {
    if Loops(p, os, settled) {
      LandedAreSeen(before, after, Arrivals(os, LoopStart(p, settled), |before|), bufSize);
    } else {
      var ms := os(settled).ms;
      if !p.OnLinux? {
        LandedAreSeen(before, after, ms, bufSize);
      } else if Placed(ms, |before|) {
        PlacedIsDelivered(before, ms, bufSize);
      }
    }
  }
}
