/** The socket of src/socket.rs: single attempts with their bookkeeping, and the
    retry loops of `send_batch` and `recv_batch`. */
module Socket {
  import opened Common
  import opened SockAddr
  import opened Batch
  import opened SendHeaders
  import opened Adaptive
  import opened Runs
  import Send = SendBackends
  import Recv = RecvBackends
  import Metrics

  class BingerUdp {
    const host: Host
    const platform: Platform
    /** Whether the system reports a peer; asked again for every attempt. */
    var connected: bool
    const adaptiveSend: AdaptiveState?
    const adaptiveRecv: AdaptiveState?
    const sendCounters: Metrics.Counters?
    const recvCounters: Metrics.Counters?

    /** The two directions share no controller and no counters. */
    ghost predicate Valid() {
      && (adaptiveSend != null ==> adaptiveSend != adaptiveRecv)
      && (sendCounters != null ==> sendCounters != recvCounters)
    }

    /** `from_std`: each direction gets its own controller and its own counters. */
    constructor FromStd(host: Host, platform: Platform, connected: bool,
                        batchSize: nat, adaptiveBatching: bool, metricsEnabled: bool, now: nat)
      ensures Valid() && this.host == host && this.platform == platform && this.connected == connected
      ensures RecommendedBatchSize() == if adaptiveBatching then Max(MIN_BATCH, Min(batchSize, MAX_BATCH)) else 32
      ensures adaptiveBatching ==>
                && adaptiveSend != null && adaptiveRecv != null && fresh(adaptiveSend) && fresh(adaptiveRecv)
                && adaptiveSend.State() == adaptiveRecv.State() == Initial(batchSize, now)
      ensures metricsEnabled ==>
                && sendCounters != null && recvCounters != null && fresh(sendCounters) && fresh(recvCounters)
                && sendCounters.Tallied() == recvCounters.Tallied() == Metrics.Tally(0, 0, 0, 0, 0)
    {
      this.host, this.platform, this.connected := host, platform, connected;
      if adaptiveBatching {
        var send := new AdaptiveState(batchSize, now);
        var recv := new AdaptiveState(batchSize, now);
        adaptiveSend, adaptiveRecv := send, recv;
      } else {
        adaptiveSend, adaptiveRecv := null, null;
      }
      if metricsEnabled {
        var sent := new Metrics.Counters();
        var received := new Metrics.Counters();
        sendCounters, recvCounters := sent, received;
      } else {
        sendCounters, recvCounters := null, null;
      }
    }

    function RecommendedBatchSize(): nat
      reads adaptiveSend
    {
      if adaptiveSend == null then 32 else adaptiveSend.targetSize
    }

    /** `try_send_batch` */
    method TrySendBatch(b: SendBatchRaw, os: Send.Script, ghost settles: nat) returns (r: IoResult, wire: seq<Packet>)
      requires Valid() && b.Valid() && Send.Settles(platform, connected, os, settles)
      modifies adaptiveSend, sendCounters
      ensures var plan := Send.PlanOf(platform, connected, os, settles, b.len);
              r == Send.Told(plan, os, b.len) && wire == Send.Wire(plan, connected, b.Contents(), os)
      ensures adaptiveSend != null ==>
                adaptiveSend.State() == if r.Ok? then Adaptive.Step(old(adaptiveSend.State()), Completed)
                                        else old(adaptiveSend.State())
      ensures RecommendedBatchSize() == old(RecommendedBatchSize())
      ensures sendCounters != null ==> sendCounters.Tallied() == Metrics.Recorded(old(sendCounters.Tallied()), r)
    {
      r, wire := Send.PlatformSend(host, platform, b, connected, os, settles);
      if sendCounters != null {
        sendCounters.Record(r);
      }
      if r.Ok? && adaptiveSend != null {
        adaptiveSend.RecordEvent();
      }
    }

    /** `send_batch`: retried on would-block, for as long as the list of attempts goes. */
    method SendBatch(b: SendBatchRaw, attempts: seq<SendAttempt>) returns (run: CallRun, wire: seq<Packet>, used: nat)
      requires Valid() && b.Valid() && AllSettle(platform, connected, attempts)
      modifies adaptiveSend, sendCounters
      ensures SendRun(platform, connected, b.Contents(), attempts, run, wire, used)
      // `Ok(n)` counts the wire, which is the entries 0 to n exactly when each is sent as it is
      ensures run.Finished? && run.result.Ok? ==>
                && used > 0 && run.result.count == |wire| <= b.len
                && var path := PlanFor(platform, connected, attempts[used - 1], b.len).path;
                   wire == AsPackets(b.Contents())[..|wire|] <==>
                   forall i | 0 <= i < |wire| :: Send.SentAsIs(path, connected, b.Contents(), i)
      // the whole batch is reported exactly when every packet was accepted
      ensures run == Finished(Ok(b.len)) <==>
                && used > 0
                && var last := attempts[used - 1];
                   Send.AllAccepted(last.os, PlanFor(platform, connected, last, b.len).start, b.len)
      // what the controller saw
      ensures attempts != [] && ResultFor(platform, connected, attempts[0], b.len) != Err(WouldBlock) ==>
                RecommendedBatchSize() == old(RecommendedBatchSize())
      ensures adaptiveSend != null ==>
                adaptiveSend.State() == Adaptive.Run(old(adaptiveSend.State()),
                  SentEvents(SentByAll(platform, connected, b.Contents(), attempts), attempts, used))
      ensures sendCounters != null ==>
                sendCounters.Tallied() == SentTally(old(sendCounters.Tallied()),
                  SentByAll(platform, connected, b.Contents(), attempts), used)
    {
      ghost var ss := SentByAll(platform, connected, b.Contents(), attempts);
      run, wire, used := Retry(b, attempts, b.Contents(), connected, ss);
      SentIsEntriesIff(platform, connected, b.Contents(), attempts, run, wire, used);
      FullCountIff(platform, connected, b.Contents(), attempts, run, wire, used);
      if attempts != [] {
        FirstResultDecides(platform, connected, b.Contents(), attempts, run, wire, used);
        if adaptiveSend != null && ss[0].result != Err(WouldBlock) {
          FirstTripNeverRetargets(old(adaptiveSend.State()), ss, attempts);
        }
      }
    }

    /** The loop of `send_batch`, given what each attempt would do with these entries. */
    method Retry(b: SendBatchRaw, attempts: seq<SendAttempt>, ghost entries: seq<SendEntry>, ghost peer: bool,
                 ghost ss: seq<Sent>) returns (run: CallRun, wire: seq<Packet>, used: nat)
      requires Valid() && b.Valid() && b.Contents() == entries && connected == peer
      requires AllSettle(platform, peer, attempts) && AreSent(platform, peer, entries, attempts, ss)
      modifies adaptiveSend, sendCounters
      ensures RunOf(ss, attempts, run, wire, used)
      ensures adaptiveSend != null ==>
                adaptiveSend.State() == Adaptive.Run(old(adaptiveSend.State()), SentEvents(ss, attempts, used))
      ensures sendCounters != null ==> sendCounters.Tallied() == SentTally(old(sendCounters.Tallied()), ss, used)
    {
      run, wire, used := Pending, [], 0;
      ghost var start := if adaptiveSend == null then Initial(0, 0) else adaptiveSend.State();
      ghost var tally := if sendCounters == null then Metrics.Tally(0, 0, 0, 0, 0) else sendCounters.Tallied();
      while used < |attempts| && run.Pending?
        invariant used <= |attempts| && connected == peer && b.Valid() && b.Contents() == entries
        invariant run == SentAfter(ss, attempts, used) && (used > 0 ==> SentAfter(ss, attempts, used - 1).Pending?)
        invariant wire == if used == 0 then [] else ss[used - 1].wire
        invariant run.Pending? ==> wire == []
        invariant adaptiveSend != null ==> adaptiveSend.State() == Adaptive.Run(start, SentEvents(ss, attempts, used))
        invariant sendCounters != null ==> sendCounters.Tallied() == SentTally(tally, ss, used)
      {
        var sent;
        run, sent := SendTrip(b, attempts, used, entries, peer, ss, start, tally);
        wire := wire + sent;
        used := used + 1;
      }
    }

    /** One trip around it, from `k` trips to the next. */
    method SendTrip(b: SendBatchRaw, attempts: seq<SendAttempt>, k: nat, ghost entries: seq<SendEntry>,
                    ghost peer: bool, ghost ss: seq<Sent>, ghost start: Controller, ghost tally: Metrics.Tally)
        returns (run: CallRun, wire: seq<Packet>)
      requires Valid() && b.Valid() && b.Contents() == entries && connected == peer && k < |attempts|
      requires AllSettle(platform, peer, attempts) && AreSent(platform, peer, entries, attempts, ss)
      requires SentAfter(ss, attempts, k).Pending?
      requires adaptiveSend != null ==> adaptiveSend.State() == Adaptive.Run(start, SentEvents(ss, attempts, k))
      requires sendCounters != null ==> sendCounters.Tallied() == SentTally(tally, ss, k)
      modifies adaptiveSend, sendCounters
      ensures run == SentAfter(ss, attempts, k + 1)
      ensures wire == ss[k].wire && (run.Pending? ==> wire == [])
      ensures adaptiveSend != null ==> adaptiveSend.State() == Adaptive.Run(start, SentEvents(ss, attempts, k + 1))
      ensures sendCounters != null ==> sendCounters.Tallied() == SentTally(tally, ss, k + 1)
    {
      var attempt := attempts[k];
      assert ss[k] == SentBy(platform, peer, entries, attempt);
      Send.ResultTellsWire(PlanFor(platform, peer, attempt, b.len), peer, entries, attempt.os);
      EventsGrow(start, ss, attempts, k);
      var r;
      r, wire := TrySendBatch(b, attempt.os, attempt.settles);
      if r != Err(WouldBlock) {
        return Finished(r), wire;
      }
      if adaptiveSend != null {
        NoteBlocked(adaptiveSend, attempt.checkedAt, attempt.setAt);
      }
      run := if attempt.wait.Some? then Finished(Err(attempt.wait.value)) else Pending;
    }

    /** `send_to`: success is reported as the payload's length. It means the datagram
        is on the wire unless a per-packet loop took the last attempt: there a
        would-block counts as zero packets sent, and the caller is told the same. */
    method SendTo(data: seq<Byte>, addr: SocketAddr, granted: nat, attempts: seq<SendAttempt>)
        returns (run: CallRun, wire: seq<Packet>, used: nat, ghost inner: CallRun)
      requires Valid() && granted >= 1 && AllSettle(platform, connected, attempts)
      modifies adaptiveSend, sendCounters
      // it is a run of `send_batch` with the one entry, whose success is told as the length
      ensures SendRun(platform, connected, [SendEntry(data, Some(addr))], attempts, inner, wire, used)
      ensures run == if inner.Finished? && inner.result.Ok? then Finished(Ok(|data|)) else inner
      ensures wire != [] ==>
                && used > 0 && run == Finished(Ok(|data|))
                && var last := attempts[used - 1];
                   wire == OneWire(PlanFor(platform, connected, last, 1), connected, data, addr, last.os)
      ensures run.Finished? && run.result.Ok? ==>
                && used > 0
                && var plan := PlanFor(platform, connected, attempts[used - 1], 1);
                   wire == [] <==> !plan.path.BulkPath? && attempts[used - 1].os(plan.start) == Send.Fail(WouldBlock)
      ensures var ss := SentByAll(platform, connected, [SendEntry(data, Some(addr))], attempts);
        && (adaptiveSend != null ==>
              adaptiveSend.State() == Adaptive.Run(old(adaptiveSend.State()), SentEvents(ss, attempts, used)))
        && (sendCounters != null ==> sendCounters.Tallied() == SentTally(old(sendCounters.Tallied()), ss, used))
    {
      var b := new SendBatchRaw.WithCapacity(1, granted);
      var pushed := b.Push(data, Some(addr));
      assert b.Contents() == [SendEntry(data, Some(addr))];
      run, wire, used := SendBatch(b, attempts);
      inner := run;
      OneDatagram(platform, connected, data, addr, attempts, run, wire, used);
      if run.Finished? && run.result.Ok? {
        run := Finished(Ok(|data|));
      }
    }

    /** `try_send_to`: one attempt; a would-block is returned as it is and not noted. */
    method TrySendTo(data: seq<Byte>, addr: SocketAddr, granted: nat, os: Send.Script, ghost settles: nat)
        returns (r: IoResult, wire: seq<Packet>)
      requires Valid() && granted >= 1 && Send.Settles(platform, connected, os, settles)
      modifies adaptiveSend, sendCounters
      ensures var plan := Send.PlanOf(platform, connected, os, settles, 1);
              var loops := !plan.path.BulkPath?;
              && wire == OneWire(plan, connected, data, addr, os)
              && r == (if os(plan.start).Accept? || (loops && os(plan.start) == Send.Fail(WouldBlock)) then Ok(|data|)
                       else Err(os(plan.start).error))
      ensures RecommendedBatchSize() == old(RecommendedBatchSize())
      ensures adaptiveSend != null ==>
                adaptiveSend.State() == if r.Ok? then Adaptive.Step(old(adaptiveSend.State()), Completed)
                                        else old(adaptiveSend.State())
      ensures sendCounters != null ==>
                sendCounters.Tallied() == Metrics.Recorded(old(sendCounters.Tallied()),
                  if !r.Ok? then r else if wire == [] then Ok(0) else Ok(1))
    {
      var b := new SendBatchRaw.WithCapacity(1, granted);
      var pushed := b.Push(data, Some(addr));
      var entries := [SendEntry(data, Some(addr))];
      assert b.Contents() == entries;
      r, wire := TrySendBatch(b, os, settles);
      OnePacket(Send.PlanOf(platform, connected, os, settles, 1), connected, data, addr, os);
      if r.Ok? {
        r := Ok(|data|);
      }
    }

    /** `try_recv_batch` */
    method TryRecvBatch(batch: RecvBatchRaw, a: RecvAttempt) returns (answer: Recv.Answer)
      requires Valid() && batch.Valid() && Recv.Contract(platform, a.os, a.settled, |batch.slots|, batch.bufSize)
      modifies batch, adaptiveRecv, recvCounters
      ensures batch.Valid() && |batch.slots| == |old(batch.slots)|
      ensures answer == Recv.AnswerOf(platform, a.os, a.settled, |batch.slots|)
      ensures answer.Returned? ==>
                && Recv.Left(platform, a.os, a.settled, old(batch.slots), batch.slots, batch.bufSize)
                && batch.len == Recv.LenAfter(platform, a.os, a.settled, |batch.slots|, old(batch.len))
      ensures adaptiveRecv != null ==>
                adaptiveRecv.State() == if answer.Returned? && answer.result.Ok?
                                        then Adaptive.Step(old(adaptiveRecv.State()), Completed)
                                        else old(adaptiveRecv.State())
      ensures recvCounters != null ==>
                recvCounters.Tallied() == if answer.Returned?
                                          then Metrics.Recorded(old(recvCounters.Tallied()), answer.result)
                                          else old(recvCounters.Tallied())
    {
      answer := Recv.PlatformRecv(platform, batch, a.os, a.settled);
      if answer.Panic? {
        return;
      }
      if recvCounters != null {
        recvCounters.Record(answer.result);
      }
      if answer.result.Ok? && adaptiveRecv != null {
        adaptiveRecv.RecordEvent();
      }
    }

    /** One trip around `recv_batch`. */
    method RecvTrip(batch: RecvBatchRaw, attempt: RecvAttempt) returns (run: CallRun)
      requires Valid() && batch.Valid()
      requires Recv.Contract(platform, attempt.os, attempt.settled, |batch.slots|, batch.bufSize)
      modifies batch, adaptiveRecv, recvCounters
      ensures batch.Valid() && |batch.slots| == |old(batch.slots)|
      ensures run == TripEnd(Recv.AnswerOf(platform, attempt.os, attempt.settled, |batch.slots|), attempt)
      ensures !run.Crashed? ==>
                LeftBy(platform, attempt, old(Snapshot(batch.slots, batch.len)), Snapshot(batch.slots, batch.len),
                       batch.bufSize)
      ensures adaptiveRecv != null ==>
                adaptiveRecv.State() == Adaptive.Run(old(adaptiveRecv.State()),
                  TripEvents(Recv.AnswerOf(platform, attempt.os, attempt.settled, |batch.slots|), attempt))
      ensures recvCounters != null ==>
                recvCounters.Tallied() == ReceivedTally(old(recvCounters.Tallied()),
                  [Recv.AnswerOf(platform, attempt.os, attempt.settled, |batch.slots|)], 1)
    {
      ghost var start := if adaptiveRecv == null then Initial(0, 0) else adaptiveRecv.State();
      ghost var tally := if recvCounters == null then Metrics.Tally(0, 0, 0, 0, 0) else recvCounters.Tallied();
      var answer := TryRecvBatch(batch, attempt);
      assert ReceivedTally(tally, [answer], 0) == tally;
      run := EndTrip(answer, attempt, start);
    }

    /** What it does with the answer. */
    method EndTrip(answer: Recv.Answer, attempt: RecvAttempt, ghost start: Controller) returns (run: CallRun)
      requires adaptiveRecv != null ==>
                 adaptiveRecv.State() == if answer.Returned? && answer.result.Ok? then Adaptive.Step(start, Completed)
                                         else start
      modifies adaptiveRecv
      ensures run == TripEnd(answer, attempt)
      ensures adaptiveRecv != null ==> adaptiveRecv.State() == Adaptive.Run(start, TripEvents(answer, attempt))
    {
      TripRuns(start, answer, attempt);
      if answer.Panic? {
        return Crashed;
      }
      if answer.result != Ok(0) && answer.result != Err(WouldBlock) {
        return Finished(answer.result);
      }
      if adaptiveRecv != null {
        NoteBlocked(adaptiveRecv, attempt.checkedAt, attempt.setAt);
      }
      run := if attempt.wait.Some? then Finished(Err(attempt.wait.value)) else Pending;
    }

    /** `recv_batch`: zero packets and would-block both wait and try again. `trail` is what
        the batch was before the first attempt and after each one that returned. */
    method RecvBatch(batch: RecvBatchRaw, attempts: seq<RecvAttempt>)
        returns (run: CallRun, used: nat, ghost trail: seq<Snapshot>)
      requires Valid() && batch.Valid()
      requires AllContract(platform, attempts, |batch.slots|, batch.bufSize)
      modifies batch, adaptiveRecv, recvCounters
      ensures batch.Valid() && |batch.slots| == |old(batch.slots)|
      ensures RecvRun(platform, attempts, |batch.slots|, run, used)
      // the batch, whatever the outcome
      ensures Trail(platform, attempts, trail, |batch.slots|, batch.bufSize)
      ensures trail[0] == old(Snapshot(batch.slots, batch.len))
      ensures !run.Crashed? ==> |trail| == used + 1 && trail[used] == Snapshot(batch.slots, batch.len)
      ensures run.Finished? && run.result.Ok? ==>
                && 1 <= run.result.count <= |batch.slots| && batch.len == run.result.count && 1 <= used
                && var last := attempts[used - 1];
                   Recv.Shows(platform, last.os, last.settled, batch.slots, batch.len, batch.bufSize)
      // controller and counters
      ensures RecommendedBatchSize() == old(RecommendedBatchSize())
      ensures adaptiveRecv != null ==>
                adaptiveRecv.State() == Adaptive.Run(old(adaptiveRecv.State()),
                  RunEvents(Answers(platform, attempts, |batch.slots|), attempts, used))
      ensures recvCounters != null ==>
                recvCounters.Tallied() == ReceivedTally(old(recvCounters.Tallied()),
                  Answers(platform, attempts, |batch.slots|), used)
      // where would-block is reported as zero packets, and no other receiver overlaps
      ensures adaptiveRecv != null && 2 * old(adaptiveRecv.State()).blocked <= old(adaptiveRecv.State()).total ==>
                AllLoop(platform, attempts, used) ==> 2 * adaptiveRecv.State().blocked <= adaptiveRecv.State().total
    {
      ghost var answers := Answers(platform, attempts, |batch.slots|);
      ghost var start := if adaptiveRecv == null then Initial(0, 0) else adaptiveRecv.State();
      ghost var tally := if recvCounters == null then Metrics.Tally(0, 0, 0, 0, 0) else recvCounters.Tallied();
      run, used, trail := RetryRecv(batch, attempts, |batch.slots|, answers, start, tally,
                                    Snapshot(batch.slots, batch.len));
      RecvRunEnds(platform, attempts, |batch.slots|, run, used);
      if run.Finished? && run.result.Ok? {
        SuccessShows(platform, attempts, trail, |batch.slots|, batch.bufSize, run.result, used);
      }
      if adaptiveRecv != null && 2 * old(adaptiveRecv.State()).blocked <= old(adaptiveRecv.State()).total
         && AllLoop(platform, attempts, used) {
        LoopsBalance(old(adaptiveRecv.State()), platform, attempts, used, |batch.slots|);
      }
    }

    /** Its loop, given what each attempt would be answered and how things stand before. */
    method RetryRecv(batch: RecvBatchRaw, attempts: seq<RecvAttempt>, ghost cap: nat, ghost answers: seq<Recv.Answer>,
                     ghost start: Controller, ghost tally: Metrics.Tally, ghost first: Snapshot)
        returns (run: CallRun, used: nat, ghost trail: seq<Snapshot>)
      requires Valid() && batch.Valid() && |batch.slots| == cap && AreAnswers(platform, attempts, cap, answers)
      requires AllContract(platform, attempts, cap, batch.bufSize) && first == Snapshot(batch.slots, batch.len)
      requires adaptiveRecv != null ==> adaptiveRecv.State() == start
      requires recvCounters != null ==> recvCounters.Tallied() == tally
      modifies batch, adaptiveRecv, recvCounters
      ensures batch.Valid() && |batch.slots| == cap
      ensures EndsAfter(answers, attempts, run, used)
      ensures Trail(platform, attempts, trail, cap, batch.bufSize) && trail[0] == first
      ensures !run.Crashed? ==> |trail| == used + 1 && trail[used] == Snapshot(batch.slots, batch.len)
      ensures adaptiveRecv != null ==> adaptiveRecv.State() == Adaptive.Run(start, RunEvents(answers, attempts, used))
      ensures recvCounters != null ==> recvCounters.Tallied() == ReceivedTally(tally, answers, used)
    {
      run, used, trail := Pending, 0, [first];
      while used < |attempts| && run.Pending?
        invariant batch.Valid() && |batch.slots| == cap && used <= |attempts|
        invariant run == RunAfter(answers, attempts, used)
        invariant used > 0 ==> RunAfter(answers, attempts, used - 1).Pending?
        invariant Trail(platform, attempts, trail, cap, batch.bufSize) && trail[0] == first
        invariant !run.Crashed? ==> |trail| == used + 1 && trail[used] == Snapshot(batch.slots, batch.len)
        invariant adaptiveRecv != null ==>
                    adaptiveRecv.State() == Adaptive.Run(start, RunEvents(answers, attempts, used))
        invariant recvCounters != null ==> recvCounters.Tallied() == ReceivedTally(tally, answers, used)
      {
        run, trail := NextRecvTrip(batch, attempts, used, cap, answers, start, tally, trail);
        used := used + 1;
      }
    }

    /** From `k` trips to the next. */
    method NextRecvTrip(batch: RecvBatchRaw, attempts: seq<RecvAttempt>, k: nat, ghost cap: nat,
                        ghost answers: seq<Recv.Answer>, ghost start: Controller, ghost tally: Metrics.Tally,
                        ghost trail: seq<Snapshot>)
        returns (run: CallRun, ghost longer: seq<Snapshot>)
      requires Valid() && batch.Valid() && |batch.slots| == cap && k < |attempts|
      requires AreAnswers(platform, attempts, cap, answers) && AllContract(platform, attempts, cap, batch.bufSize)
      requires RunAfter(answers, attempts, k).Pending?
      requires Trail(platform, attempts, trail, cap, batch.bufSize)
      requires |trail| == k + 1 && trail[k] == Snapshot(batch.slots, batch.len)
      requires adaptiveRecv != null ==> adaptiveRecv.State() == Adaptive.Run(start, RunEvents(answers, attempts, k))
      requires recvCounters != null ==> recvCounters.Tallied() == ReceivedTally(tally, answers, k)
      modifies batch, adaptiveRecv, recvCounters
      ensures batch.Valid() && |batch.slots| == cap
      ensures run == RunAfter(answers, attempts, k + 1)
      ensures Trail(platform, attempts, longer, cap, batch.bufSize) && longer[0] == trail[0]
      ensures !run.Crashed? ==> |longer| == k + 2 && longer[k + 1] == Snapshot(batch.slots, batch.len)
      ensures adaptiveRecv != null ==> adaptiveRecv.State() == Adaptive.Run(start, RunEvents(answers, attempts, k + 1))
      ensures recvCounters != null ==> recvCounters.Tallied() == ReceivedTally(tally, answers, k + 1)
    {
      var a := attempts[k];
      assert answers[k] == Recv.AnswerOf(platform, a.os, a.settled, cap);
      RunConcat(start, RunEvents(answers, attempts, k), TripEvents(answers[k], a));
      OneAnswerTally(ReceivedTally(tally, answers, k), answers[k]);
      run := RecvTrip(batch, a);
      longer := trail;
      if !run.Crashed? {
        longer := trail + [Snapshot(batch.slots, batch.len)];
        TrailGrows(platform, attempts, trail, cap, batch.bufSize, Snapshot(batch.slots, batch.len));
      }
    }

    /** `recv_from`: one datagram through a batch of one slot. */
    method RecvFrom(buf: array<Byte>, attempts: seq<RecvAttempt>)
        returns (run: CallRun, addr: SocketAddr, used: nat, ghost slot: RecvSlot, ghost inner: CallRun)
      requires Valid()
      requires AllContract(platform, attempts, 1, buf.Length)
      modifies buf, adaptiveRecv, recvCounters
      // it is a run of `recv_batch` with one slot, whose success is told as the length of its data
      ensures RecvRun(platform, attempts, 1, inner, used)
      ensures run == if inner.Finished? && inner.result.Ok? then Finished(Ok(slot.recvLen)) else inner
      ensures run.Finished? && run.result.Ok? ==>
                && run.result.count <= buf.Length && buf[run.result.count..] == old(buf[run.result.count..])
                && slot.recvLen <= |slot.buf| && buf[..run.result.count] == slot.Data() && addr == slot.addr
                && SlotsOk([slot], buf.Length) && 1 <= used
                && var last := attempts[used - 1];
                   Recv.Shows(platform, last.os, last.settled, [slot], 1, buf.Length)
      ensures !(run.Finished? && run.result.Ok?) ==> buf[..] == old(buf[..])
      ensures RecommendedBatchSize() == old(RecommendedBatchSize())
      ensures adaptiveRecv != null ==>
                adaptiveRecv.State() == Adaptive.Run(old(adaptiveRecv.State()),
                                                     RunEvents(Answers(platform, attempts, 1), attempts, used))
      ensures recvCounters != null ==>
                recvCounters.Tallied() == ReceivedTally(old(recvCounters.Tallied()),
                                                        Answers(platform, attempts, 1), used)
    {
      var data;
      data, addr, run, used, slot := RecvOne(buf.Length, attempts);
      inner := run;
      if run.Finished? && run.result.Ok? {
        var len := Min(|data|, buf.Length);
        forall i | 0 <= i < len {
          buf[i] := data[i];
        }
        run := Finished(Ok(len));
      }
    }

    /** Its batch of one slot: what the slot then holds. */
    method RecvOne(bufSize: nat, attempts: seq<RecvAttempt>)
        returns (data: seq<Byte>, addr: SocketAddr, run: CallRun, used: nat, ghost slot: RecvSlot)
      requires Valid() && AllContract(platform, attempts, 1, bufSize)
      modifies adaptiveRecv, recvCounters
      ensures RecvRun(platform, attempts, 1, run, used)
      ensures SlotsOk([slot], bufSize) && |slot.buf| == bufSize && slot.recvLen <= bufSize
      ensures data == slot.Data() && addr == slot.addr
      ensures run.Finished? && run.result.Ok? ==>
                && 1 <= used
                && var last := attempts[used - 1];
                   Recv.Shows(platform, last.os, last.settled, [slot], 1, bufSize)
      ensures RecommendedBatchSize() == old(RecommendedBatchSize())
      ensures adaptiveRecv != null ==>
                adaptiveRecv.State() == Adaptive.Run(old(adaptiveRecv.State()),
                                                     RunEvents(Answers(platform, attempts, 1), attempts, used))
      ensures recvCounters != null ==>
                recvCounters.Tallied() == ReceivedTally(old(recvCounters.Tallied()),
                                                        Answers(platform, attempts, 1), used)
    {
      var batch := new RecvBatchRaw.WithCapacity(1, bufSize);
      ghost var trail;
      run, used, trail := RecvBatch(batch, attempts);
      data, addr, slot := batch.Data(0), batch.slots[0].addr, batch.slots[0];
      assert batch.slots == [slot];
    }
  }

  /** What both retry loops do with a would-block. */
  method NoteBlocked(state: AdaptiveState, checkedAt: nat, setAt: nat)
    modifies state
    ensures state.State() == Adaptive.Step(old(state.State()), Blocked(checkedAt, setAt))
  {
    state.RecordWouldBlock();
    state.MaybeAdjust(checkedAt, setAt);
  }
}
