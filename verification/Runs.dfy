/** Whole runs of `send_batch` and `recv_batch` (src/socket.rs) as functions of their
    lists of attempts, and what holds of every run. */
module Runs {
  import opened Common
  import opened SockAddr
  import opened Batch
  import opened SendHeaders
  import opened Adaptive
  import Send = SendBackends
  import Recv = RecvBackends
  import LinuxRecv
  import Metrics

  /** One trip around `send_batch`: the system's answers, the clock readings taken if
      it blocks, and how waiting for writability ends. Where the code retries on
      interruption, `settles` is a script position that is not one. */
  datatype SendAttempt = SendAttempt(os: Send.Script, settles: nat, checkedAt: nat, setAt: nat, wait: Option<IoError>)

  /** The same for `recv_batch`; the bulk call goes through at `settled`. */
  datatype RecvAttempt = RecvAttempt(os: Recv.Script, settled: nat, checkedAt: nat, setAt: nat, wait: Option<IoError>)

  /** A run cut off after finitely many attempts is still waiting. */
  datatype CallRun = Finished(result: IoResult) | Pending | Crashed

  // ------------------------------------------------------------------
  //  Runs of send_batch
  // ------------------------------------------------------------------

  predicate AllSettle(p: Platform, connected: bool, attempts: seq<SendAttempt>) {
    forall i {:trigger Send.Settles(p, connected, attempts[i].os, attempts[i].settles)} | 0 <= i < |attempts| ::
      Send.Settles(p, connected, attempts[i].os, attempts[i].settles)
  }

  function PlanFor(p: Platform, connected: bool, a: SendAttempt, n: nat): Send.Plan
    requires Send.Settles(p, connected, a.os, a.settles)
  {
    Send.PlanOf(p, connected, a.os, a.settles, n)
  }

  function ResultFor(p: Platform, connected: bool, a: SendAttempt, n: nat): IoResult
    requires Send.Settles(p, connected, a.os, a.settles)
  {
    Send.Told(PlanFor(p, connected, a, n), a.os, n)
  }

  /** How one trip around `send_batch` ends. */
  function SendEnd(r: IoResult, a: SendAttempt): CallRun {
    if r != Err(WouldBlock) then Finished(r)
    else if a.wait.Some? then Finished(Err(a.wait.value))
    else Pending
  }

  /** What the controller sees of it. */
  function SendEvents(r: IoResult, a: SendAttempt): seq<Event> {
    if r.Ok? then [Completed] else if r == Err(WouldBlock) then [Blocked(a.checkedAt, a.setAt)] else []
  }

  /** What an attempt tells the caller and puts on the wire. */
  datatype Sent = Sent(result: IoResult, wire: seq<Packet>)

  function SentBy(p: Platform, connected: bool, entries: seq<SendEntry>, a: SendAttempt): Sent
    requires Send.Settles(p, connected, a.os, a.settles)
  {
    Sent(ResultFor(p, connected, a, |entries|),
         Send.Wire(PlanFor(p, connected, a, |entries|), connected, entries, a.os))
  }

  /** All attempts, were they all made. */
  function SentByAll(p: Platform, connected: bool, entries: seq<SendEntry>, attempts: seq<SendAttempt>): (ss: seq<Sent>)
    requires AllSettle(p, connected, attempts)
    ensures AreSent(p, connected, entries, attempts, ss)
  {
    seq(|attempts|, i requires 0 <= i < |attempts| => SentBy(p, connected, entries, attempts[i]))
  }

  predicate AreSent(p: Platform, connected: bool, entries: seq<SendEntry>, attempts: seq<SendAttempt>, ss: seq<Sent>)
    requires AllSettle(p, connected, attempts)
  {
    && |ss| == |attempts|
    && forall i {:trigger SentBy(p, connected, entries, attempts[i])} | 0 <= i < |attempts| ::
         ss[i] == SentBy(p, connected, entries, attempts[i])
  }

  /** Where `send_batch` stands after `k` trips like these, if it gets that far. */
  function SentAfter(ss: seq<Sent>, attempts: seq<SendAttempt>, k: nat): CallRun
    requires k <= |ss| == |attempts|
  {
    if k == 0 then Pending
    else
      var before := SentAfter(ss, attempts, k - 1);
      if before.Pending? then SendEnd(ss[k - 1].result, attempts[k - 1]) else before
  }

  function SentEvents(ss: seq<Sent>, attempts: seq<SendAttempt>, k: nat): seq<Event>
    requires k <= |ss| == |attempts|
  {
    if k == 0 then [] else SentEvents(ss, attempts, k - 1) + SendEvents(ss[k - 1].result, attempts[k - 1])
  }

  predicate RunOf(ss: seq<Sent>, attempts: seq<SendAttempt>, run: CallRun, wire: seq<Packet>, used: nat)
    requires |ss| == |attempts|
  {
    && used <= |attempts| && run == SentAfter(ss, attempts, used)
    && (used > 0 ==> SentAfter(ss, attempts, used - 1).Pending?)
    && (run.Pending? ==> used == |attempts|)
    && wire == if used == 0 then [] else ss[used - 1].wire
  }

  /** Exactly how `send_batch` goes: trips that block and wait, up to one that ends the
      run; only that one may put packets on the wire. */
  predicate SendRun(p: Platform, connected: bool, entries: seq<SendEntry>, attempts: seq<SendAttempt>,
                    run: CallRun, wire: seq<Packet>, used: nat)
    requires AllSettle(p, connected, attempts)
  {
    RunOf(SentByAll(p, connected, entries, attempts), attempts, run, wire, used)
  }

  /** The last attempt made decides. */
  lemma {:induction false} LastDecides(p: Platform, connected: bool, entries: seq<SendEntry>,
                                       attempts: seq<SendAttempt>, run: CallRun, wire: seq<Packet>, used: nat)
    requires AllSettle(p, connected, attempts) && SendRun(p, connected, entries, attempts, run, wire, used)
    ensures used == 0 ==> attempts == [] && run == Pending && wire == []
    ensures used > 0 ==>
              var last := attempts[used - 1];
              && Send.Settles(p, connected, last.os, last.settles)
              && run == SendEnd(ResultFor(p, connected, last, |entries|), last)
              && wire == Send.Wire(PlanFor(p, connected, last, |entries|), connected, entries, last.os)
  {
    if used > 0 {
      assert SentByAll(p, connected, entries, attempts)[used - 1] == SentBy(p, connected, entries, attempts[used - 1]);
    }
  }

  /** What a run put on the wire: the entries 0 to `n` for `Ok(n)`, each once and in order,
      exactly when the last attempt sends each of those as it is. */
  lemma {:induction false} SentIsEntriesIff(p: Platform, connected: bool, entries: seq<SendEntry>,
                                            attempts: seq<SendAttempt>, run: CallRun, wire: seq<Packet>, used: nat)
    requires AllSettle(p, connected, attempts) && SendRun(p, connected, entries, attempts, run, wire, used)
    ensures |wire| <= |entries|
    ensures run.Finished? && run.result.Ok? ==> used > 0 && run.result.count == |wire|
    ensures used > 0 ==>
              var path := PlanFor(p, connected, attempts[used - 1], |entries|).path;
              wire == AsPackets(entries)[..|wire|] <==>
              forall i | 0 <= i < |wire| :: Send.SentAsIs(path, connected, entries, i)
  {
    if used > 0 {
      LastDecides(p, connected, entries, attempts, run, wire, used);
      var last := attempts[used - 1];
      var plan := PlanFor(p, connected, last, |entries|);
      Send.ResultTellsWire(plan, connected, entries, last.os);
      Send.WireIsEntriesIff(plan, connected, entries, last.os);
    }
  }

  /** A run whose last attempt is a bulk call is right whatever the batch, if the system refuses
      packets without destination, or those sent by an address element never written. */
  lemma {:induction false} RefusalKeepsRunsRight(p: Platform, connected: bool, entries: seq<SendEntry>,
                                                 attempts: seq<SendAttempt>, run: CallRun, wire: seq<Packet>, used: nat)
    requires AllSettle(p, connected, attempts) && SendRun(p, connected, entries, attempts, run, wire, used)
    requires used > 0
    ensures var last := attempts[used - 1];
            var plan := PlanFor(p, connected, last, |entries|);
            plan.path.BulkPath?
            && (Send.RefusesZeroed(plan, entries, last.os) || Send.RefusesUnaddressed(plan, entries, last.os)) ==>
              wire == AsPackets(entries)[..|wire|]
  {
    LastDecides(p, connected, entries, attempts, run, wire, used);
    var last := attempts[used - 1];
    var plan := PlanFor(p, connected, last, |entries|);
    if plan.path.BulkPath?
       && (Send.RefusesZeroed(plan, entries, last.os) || Send.RefusesUnaddressed(plan, entries, last.os)) {
      Send.RefusalKeepsBulkSendsRight(plan, connected, entries, last.os);
    }
  }

  /** `send_batch` is documented to return the length of the batch. It does exactly when the
      system accepts every packet of the last attempt. */
  lemma {:induction false} FullCountIff(p: Platform, connected: bool, entries: seq<SendEntry>,
                                        attempts: seq<SendAttempt>, run: CallRun, wire: seq<Packet>, used: nat)
    requires AllSettle(p, connected, attempts) && SendRun(p, connected, entries, attempts, run, wire, used)
    ensures run == Finished(Ok(|entries|)) <==>
            && used > 0
            && var last := attempts[used - 1];
               Send.AllAccepted(last.os, PlanFor(p, connected, last, |entries|).start, |entries|)
  {
    if used > 0 {
      LastDecides(p, connected, entries, attempts, run, wire, used);
      var last := attempts[used - 1];
      Send.FullCountIffAllAccepted(PlanFor(p, connected, last, |entries|), last.os, |entries|);
    }
  }

  /** A buffer that fills up after the first packet. */
  function FillsUp(k: nat): Send.Outcome {
    if k == 0 then Send.Accept else Send.Fail(WouldBlock)
  }

  /** ... makes every platform report success for one of two packets. */
  lemma {:induction false} PartialSendIsOk(p: Platform, connected: bool, entries: seq<SendEntry>, a: SendAttempt,
                                           run: CallRun, wire: seq<Packet>, used: nat)
    requires |entries| == 2 && a.os == FillsUp
    requires AllSettle(p, connected, [a]) && SendRun(p, connected, entries, [a], run, wire, used)
    ensures run == Finished(Ok(1)) && |wire| == 1
  {
    Send.AcceptedIs(a.os, 0, 2, 1);
    assert PlanFor(p, connected, a, 2).start == 0;
    LastDecides(p, connected, entries, [a], run, wire, used);
  }

  /** A run that does not succeed has sent something exactly when a per-packet loop met a
      hard error after its first packet; on every other path nothing. */
  lemma {:induction false} FailureSentSomethingIff(p: Platform, connected: bool, entries: seq<SendEntry>,
                                                   attempts: seq<SendAttempt>, run: CallRun, wire: seq<Packet>,
                                                   used: nat)
    requires AllSettle(p, connected, attempts) && SendRun(p, connected, entries, attempts, run, wire, used)
    ensures !(run.Finished? && run.result.Ok?) && wire != [] <==>
            && used > 0
            && var last := attempts[used - 1];
               Send.CutShort(PlanFor(p, connected, last, |entries|), last.os, |entries|)
  {
    LastDecides(p, connected, entries, attempts, run, wire, used);
    if used > 0 {
      TripFailure(p, connected, entries, attempts[used - 1]);
    }
  }

  lemma {:induction false} TripFailure(p: Platform, connected: bool, entries: seq<SendEntry>, a: SendAttempt)
    requires Send.Settles(p, connected, a.os, a.settles)
    ensures var plan := PlanFor(p, connected, a, |entries|);
            var end := SendEnd(ResultFor(p, connected, a, |entries|), a);
            var wire := Send.Wire(plan, connected, entries, a.os);
            !(end.Finished? && end.result.Ok?) && wire != [] <==> Send.CutShort(plan, a.os, |entries|)
  {
    Send.ResultTellsWire(PlanFor(p, connected, a, |entries|), connected, entries, a.os);
  }

  /** Only bulk calls are retried: a run whose first attempt is made packet by packet ends
      with it. Would-block is returned only if waiting failed with it. Success without a
      packet, for a batch that has some, means that a loop took a would-block for zero. */
  lemma {:induction false} OnlyBulkCallsRetry(p: Platform, connected: bool, entries: seq<SendEntry>,
                                              attempts: seq<SendAttempt>, run: CallRun, wire: seq<Packet>, used: nat)
    requires AllSettle(p, connected, attempts) && SendRun(p, connected, entries, attempts, run, wire, used)
    ensures attempts != [] && !PlanFor(p, connected, attempts[0], |entries|).path.BulkPath? ==>
              used == 1 && run.Finished?
    ensures run == Finished(Err(WouldBlock)) ==> used > 0 && attempts[used - 1].wait == Some(WouldBlock)
    ensures run == Finished(Ok(0)) && entries != [] ==>
            && used > 0
            && var plan := PlanFor(p, connected, attempts[used - 1], |entries|);
               !plan.path.BulkPath? && attempts[used - 1].os(plan.start) == Send.Fail(WouldBlock)
  {
    if attempts != [] {
      FirstResultDecides(p, connected, entries, attempts, run, wire, used);
      Send.ResultTellsWire(PlanFor(p, connected, attempts[0], |entries|), connected, entries, attempts[0].os);
    }
    if used > 0 {
      LastDecides(p, connected, entries, attempts, run, wire, used);
      var last := attempts[used - 1];
      Send.ResultTellsWire(PlanFor(p, connected, last, |entries|), connected, entries, last.os);
    }
  }

  /** A first attempt that does not block is the last. */
  lemma {:induction false} FirstResultDecides(p: Platform, connected: bool, entries: seq<SendEntry>,
                                              attempts: seq<SendAttempt>, run: CallRun, wire: seq<Packet>, used: nat)
    requires AllSettle(p, connected, attempts) && SendRun(p, connected, entries, attempts, run, wire, used)
    requires attempts != []
    ensures Send.Settles(p, connected, attempts[0].os, attempts[0].settles)
    ensures ResultFor(p, connected, attempts[0], |entries|) != Err(WouldBlock) ==> used == 1 && run.Finished?
  {
    var ss := SentByAll(p, connected, entries, attempts);
    if ss[0].result != Err(WouldBlock) {
      assert SentAfter(ss, attempts, 0).Pending? && SentAfter(ss, attempts, 1) == Finished(ss[0].result);
      if used > 1 {
        EndIsFinal(ss, attempts, 1, used - 1);
      }
    }
  }

  lemma {:induction false} EndIsFinal(ss: seq<Sent>, attempts: seq<SendAttempt>, j: nat, k: nat)
    requires j <= k <= |ss| == |attempts| && !SentAfter(ss, attempts, j).Pending?
    ensures !SentAfter(ss, attempts, k).Pending?
    decreases k
  {
    if j < k {
      EndIsFinal(ss, attempts, j, k - 1);
    }
  }

  /** The counters after `k` of these attempts. */
  function SentTally(t: Metrics.Tally, ss: seq<Sent>, k: nat): Metrics.Tally
    requires k <= |ss|
  {
    if k == 0 then t else Metrics.Recorded(SentTally(t, ss, k - 1), ss[k - 1].result)
  }

  /** A run counts one error and one would-block for every attempt before its last, and then
      what the last one returned. */
  lemma {:induction false} RunIsCounted(t: Metrics.Tally, ss: seq<Sent>, attempts: seq<SendAttempt>, k: nat)
    requires 0 < k <= |ss| == |attempts| && SentAfter(ss, attempts, k - 1).Pending?
    ensures SentTally(t, ss, k - 1) == t.(errors := t.errors + k - 1, wouldBlock := t.wouldBlock + k - 1)
    ensures var before, r := SentTally(t, ss, k - 1), ss[k - 1].result;
            SentTally(t, ss, k) ==
            if r.Ok? then before.(packets := t.packets + r.count, batches := t.batches + 1, syscalls := t.syscalls + 1)
            else before.(errors := t.errors + k,
                         wouldBlock := t.wouldBlock + if r.error == WouldBlock then k else k - 1)
  {
    Metrics.RecordedInNumbers(SentTally(t, ss, k - 1), ss[k - 1].result);
    if k > 1 {
      RunIsCounted(t, ss, attempts, k - 1);
      assert ss[k - 2].result == Err(WouldBlock);
    }
  }

  // ----- retries -----

  /** The attempt is one bulk call whose first packet finds the buffer full. */
  predicate SendBlocks(p: Platform, connected: bool, a: SendAttempt, n: nat)
    requires Send.Settles(p, connected, a.os, a.settles)
  {
    && n > 0 && !Send.SingleCalls(p, connected, a.os)
    && a.os(PlanFor(p, connected, a, n).start) == Send.Fail(WouldBlock)
  }

  /** It does, and waiting for the socket then succeeds. */
  predicate SendWaits(p: Platform, connected: bool, a: SendAttempt, n: nat)
    requires Send.Settles(p, connected, a.os, a.settles)
  {
    SendBlocks(p, connected, a, n) && a.wait.None?
  }

  predicate AllSendsWait(p: Platform, connected: bool, attempts: seq<SendAttempt>, n: nat, k: nat)
    requires AllSettle(p, connected, attempts) && k <= |attempts|
  {
    k == 0 || (AllSendsWait(p, connected, attempts, n, k - 1) && SendWaits(p, connected, attempts[k - 1], n))
  }

  lemma {:induction false} BlockedResult(p: Platform, connected: bool, entries: seq<SendEntry>, a: SendAttempt)
    requires Send.Settles(p, connected, a.os, a.settles)
    ensures SentBy(p, connected, entries, a).result == Err(WouldBlock) <==> SendBlocks(p, connected, a, |entries|)
  {
    Send.ErrorsByPlatform(p, connected, entries, a.os, a.settles, WouldBlock);
  }

  lemma {:induction false} PendingIffAllWait(p: Platform, connected: bool, entries: seq<SendEntry>,
                                             attempts: seq<SendAttempt>, ss: seq<Sent>, k: nat)
    requires AllSettle(p, connected, attempts) && AreSent(p, connected, entries, attempts, ss) && k <= |attempts|
    ensures SentAfter(ss, attempts, k).Pending? <==> AllSendsWait(p, connected, attempts, |entries|, k)
  {
    if k > 0 {
      PendingIffAllWait(p, connected, entries, attempts, ss, k - 1);
      BlockedResult(p, connected, entries, attempts[k - 1]);
    }
  }

  /** How `send_batch` goes on: every attempt before the last one made was blocked, and the
      wait after it succeeded. The run is still waiting exactly if that holds of all attempts
      there are. Otherwise an attempt that was not blocked ends it with its own result, and
      one that was with the error its wait failed with. */
  lemma {:induction false} RetriesWhileBlocked(p: Platform, connected: bool, entries: seq<SendEntry>,
                                               attempts: seq<SendAttempt>, run: CallRun, wire: seq<Packet>, used: nat)
    requires AllSettle(p, connected, attempts) && SendRun(p, connected, entries, attempts, run, wire, used)
    ensures used == 0 <==> attempts == []
    ensures used > 0 ==> AllSendsWait(p, connected, attempts, |entries|, used - 1)
    ensures run.Pending? <==> AllSendsWait(p, connected, attempts, |entries|, |attempts|)
    ensures used > 0 && !SendBlocks(p, connected, attempts[used - 1], |entries|) ==>
              run == Finished(ResultFor(p, connected, attempts[used - 1], |entries|))
    ensures used > 0 && SendBlocks(p, connected, attempts[used - 1], |entries|) && attempts[used - 1].wait.Some? ==>
              run == Finished(Err(attempts[used - 1].wait.value))
  {
    var ss := SentByAll(p, connected, entries, attempts);
    PendingIffAllWait(p, connected, entries, attempts, ss, used);
    PendingIffAllWait(p, connected, entries, attempts, ss, |attempts|);
    if used > 0 {
      PendingIffAllWait(p, connected, entries, attempts, ss, used - 1);
      BlockedResult(p, connected, entries, attempts[used - 1]);
      if !run.Pending? {
        EndIsFinal(ss, attempts, used, |attempts|);
      }
    }
  }

  /** The would-blocks of the first `n` attempts, as the controller sees them. */
  function BlockedEvents(attempts: seq<SendAttempt>, n: nat): (es: seq<Event>)
    requires n <= |attempts|
    ensures |es| == n
  {
    seq(n, i requires 0 <= i < n => Blocked(attempts[i].checkedAt, attempts[i].setAt))
  }

  /** The controller sees a would-block for every attempt that waited, and then what the last
      one did: a would-block, a completion, or nothing if it failed otherwise. */
  lemma {:induction false} ControllerSeesBlocks(ss: seq<Sent>, attempts: seq<SendAttempt>, k: nat)
    requires k <= |ss| == |attempts| && (k > 0 ==> SentAfter(ss, attempts, k - 1).Pending?)
    ensures SentEvents(ss, attempts, k) ==
            if k == 0 then []
            else if ss[k - 1].result == Err(WouldBlock) then BlockedEvents(attempts, k)
            else BlockedEvents(attempts, k - 1) + if ss[k - 1].result.Ok? then [Completed] else []
  {
    if k > 0 {
      ControllerSeesBlocks(ss, attempts, k - 1);
      assert k > 1 ==> ss[k - 2].result == Err(WouldBlock);
      assert SentEvents(ss, attempts, k - 1) == BlockedEvents(attempts, k - 1);
    }
  }

  /** ... and a single event that is not a would-block does not retarget. */
  lemma {:induction false} FirstTripNeverRetargets(c: Controller, ss: seq<Sent>, attempts: seq<SendAttempt>)
    requires |ss| == |attempts| > 0 && ss[0].result != Err(WouldBlock)
    ensures Adaptive.Run(c, SentEvents(ss, attempts, 1)).target == c.target
  {
    assert SentEvents(ss, attempts, 0) == [];
    assert SentEvents(ss, attempts, 1) == SendEvents(ss[0].result, attempts[0]);
    CompletionsNeverRetarget(c, SendEvents(ss[0].result, attempts[0]));
  }

  lemma {:induction false} EventsGrow(c: Controller, ss: seq<Sent>, attempts: seq<SendAttempt>, k: nat)
    requires k < |ss| == |attempts|
    ensures Adaptive.Run(c, SentEvents(ss, attempts, k + 1))
            == var now, r := Adaptive.Run(c, SentEvents(ss, attempts, k)), ss[k].result;
               if r.Ok? then Adaptive.Step(now, Completed)
               else if r == Err(WouldBlock) then Adaptive.Step(now, Blocked(attempts[k].checkedAt, attempts[k].setAt))
               else now
  {
    var seen := SentEvents(ss, attempts, k);
    RunSnoc(c, seen, Completed);
    RunSnoc(c, seen, Blocked(attempts[k].checkedAt, attempts[k].setAt));
    assert seen + [] == seen;
  }

  lemma {:induction false} RunSnoc(c: Controller, events: seq<Event>, e: Event)
    ensures Adaptive.Run(c, events + [e]) == Adaptive.Step(Adaptive.Run(c, events), e)
  {
    assert (events + [e])[..|events|] == events;
  }

  /** The one datagram, if the system accepts it: to the address, or to the peer where a
      per-packet loop sends on a connected socket. */
  function OneWire(plan: Send.Plan, connected: bool, data: seq<Byte>, addr: SocketAddr, os: Send.Script): seq<Packet> {
    if os(plan.start).Accept?
    then [Packet(data, if connected && !plan.path.BulkPath? then None else Some(addr))]
    else []
  }

  /** A run with one addressed entry. */
  lemma {:induction false} OneDatagram(p: Platform, connected: bool, data: seq<Byte>, addr: SocketAddr,
                                       attempts: seq<SendAttempt>, run: CallRun, wire: seq<Packet>, used: nat)
    requires AllSettle(p, connected, attempts)
    requires SendRun(p, connected, [SendEntry(data, Some(addr))], attempts, run, wire, used)
    ensures used <= |attempts| && (used == 0 ==> wire == [] && run == Pending)
    ensures used > 0 ==>
              var last := attempts[used - 1];
              var plan := PlanFor(p, connected, last, 1);
              var loops := !plan.path.BulkPath?;
              && wire == OneWire(plan, connected, data, addr, last.os)
              && (wire != [] ==> run == Finished(Ok(1)))
              && (run.Finished? && run.result.Ok? ==>
                    (wire == [] <==> loops && last.os(plan.start) == Send.Fail(WouldBlock)))
  {
    LastDecides(p, connected, [SendEntry(data, Some(addr))], attempts, run, wire, used);
    if used > 0 {
      OnePacket(PlanFor(p, connected, attempts[used - 1], 1), connected, data, addr, attempts[used - 1].os);
    }
  }

  /** A batch of one addressed entry. */
  lemma {:induction false} OnePacket(plan: Send.Plan, connected: bool, data: seq<Byte>, addr: SocketAddr,
                                     os: Send.Script)
    ensures var entries := [SendEntry(data, Some(addr))];
            var loops := !plan.path.BulkPath?;
            && Send.Wire(plan, connected, entries, os) == OneWire(plan, connected, data, addr, os)
            && (Send.Told(plan, os, 1)
               == if os(plan.start).Accept? then Ok(1)
                  else if loops && os(plan.start) == Send.Fail(WouldBlock) then Ok(0)
                  else Err(os(plan.start).error))
  {
    var entries := [SendEntry(data, Some(addr))];
    Send.AcceptedIs(os, plan.start, 1, if os(plan.start).Accept? then 1 else 0);
    assert Rank(entries, 0) == 0;
  }

  // ------------------------------------------------------------------
  //  Runs of recv_batch
  // ------------------------------------------------------------------

  /** Zero packets and would-block both make the caller wait. */
  predicate Waits(answer: Recv.Answer) {
    answer == Recv.Returned(Ok(0)) || answer == Recv.Returned(Err(WouldBlock))
  }

  /** How one trip around `recv_batch` ends. */
  function TripEnd(answer: Recv.Answer, a: RecvAttempt): CallRun {
    if answer.Panic? then Crashed
    else if !Waits(answer) then Finished(answer.result)
    else if a.wait.Some? then Finished(Err(a.wait.value))
    else Pending
  }

  /** What the controller sees of it: zero packets count as a completion and as a block. */
  function TripEvents(answer: Recv.Answer, a: RecvAttempt): seq<Event> {
    (if answer.Returned? && answer.result.Ok? then [Completed] else [])
    + if Waits(answer) then [Blocked(a.checkedAt, a.setAt)] else []
  }

  lemma {:induction false} TripRuns(c: Controller, answer: Recv.Answer, a: RecvAttempt)
    ensures Adaptive.Run(c, TripEvents(answer, a))
            == var completed := if answer.Returned? && answer.result.Ok? then Adaptive.Step(c, Completed) else c;
               if Waits(answer) then Adaptive.Step(completed, Blocked(a.checkedAt, a.setAt)) else completed
  {
    var first := if answer.Returned? && answer.result.Ok? then [Completed] else [];
    RunSnoc(c, [], Completed);
    RunSnoc(c, first, Blocked(a.checkedAt, a.setAt));
    assert first + [] == first;
  }

  /** What all attempts would be answered, were they all made. */
  function Answers(p: Platform, attempts: seq<RecvAttempt>, capacity: nat): (answers: seq<Recv.Answer>)
    ensures AreAnswers(p, attempts, capacity, answers)
  {
    seq(|attempts|, i requires 0 <= i < |attempts| => Recv.AnswerOf(p, attempts[i].os, attempts[i].settled, capacity))
  }

  predicate AreAnswers(p: Platform, attempts: seq<RecvAttempt>, capacity: nat, answers: seq<Recv.Answer>) {
    && |answers| == |attempts|
    && forall i {:trigger Recv.AnswerOf(p, attempts[i].os, attempts[i].settled, capacity)} | 0 <= i < |attempts| ::
         answers[i] == Recv.AnswerOf(p, attempts[i].os, attempts[i].settled, capacity)
  }

  function RunEvents(answers: seq<Recv.Answer>, attempts: seq<RecvAttempt>, k: nat): seq<Event>
    requires k <= |answers| == |attempts|
  {
    if k == 0 then [] else RunEvents(answers, attempts, k - 1) + TripEvents(answers[k - 1], attempts[k - 1])
  }

  /** Where `recv_batch` stands after `k` trips with these answers, if it gets that far. */
  function RunAfter(answers: seq<Recv.Answer>, attempts: seq<RecvAttempt>, k: nat): CallRun
    requires k <= |answers| == |attempts|
  {
    if k == 0 then Pending
    else
      var before := RunAfter(answers, attempts, k - 1);
      if before.Pending? then TripEnd(answers[k - 1], attempts[k - 1]) else before
  }

  predicate EndsAfter(answers: seq<Recv.Answer>, attempts: seq<RecvAttempt>, run: CallRun, used: nat)
    requires |answers| == |attempts|
  {
    && used <= |attempts| && run == RunAfter(answers, attempts, used)
    && (used > 0 ==> RunAfter(answers, attempts, used - 1).Pending?)
    && (run.Pending? ==> used == |attempts|)
  }

  /** Exactly how `recv_batch` goes: trips that wait up to one that ends the run. */
  predicate RecvRun(p: Platform, attempts: seq<RecvAttempt>, capacity: nat, run: CallRun, used: nat) {
    EndsAfter(Answers(p, attempts, capacity), attempts, run, used)
  }

  /** Success is a positive count, so a batch without slots never has any. Would-block is
      returned only if waiting failed with it. Only the Linux message loop can crash,
      exactly if its messages before the last ask for all slots. */
  lemma {:induction false} RecvRunEnds(p: Platform, attempts: seq<RecvAttempt>, capacity: nat, run: CallRun, used: nat)
    requires RecvRun(p, attempts, capacity, run, used)
    ensures run.Finished? && run.result.Ok? ==>
              && used > 0 && capacity > 0 && run.result.count > 0
              && var last := attempts[used - 1];
                 Recv.AnswerOf(p, last.os, last.settled, capacity) == Recv.Returned(run.result)
    ensures run == Finished(Err(WouldBlock)) ==> used > 0 && attempts[used - 1].wait == Some(WouldBlock)
    ensures run.Crashed? <==>
              && used > 0 && capacity > 0 && p.OnLinux?
              && var call := attempts[used - 1].os(attempts[used - 1].settled);
                 call.Bulk? && !LinuxRecv.Roomy(call.ms, |call.ms|, capacity)
  {
    if used > 0 {
      var last := attempts[used - 1];
      assert Answers(p, attempts, capacity)[used - 1] == Recv.AnswerOf(p, last.os, last.settled, capacity);
    }
  }

  /** The counters after `k` attempts with these answers; a panic is not counted. */
  function ReceivedTally(t: Metrics.Tally, answers: seq<Recv.Answer>, k: nat): Metrics.Tally
    requires k <= |answers|
  {
    if k == 0 then t
    else
      var before := ReceivedTally(t, answers, k - 1);
      if answers[k - 1].Returned? then Metrics.Recorded(before, answers[k - 1].result) else before
  }

  /** The batch between two attempts. */
  datatype Snapshot = Snapshot(slots: seq<RecvSlot>, len: nat)

  /** The batch before the first attempt and after each one, as the attempts leave it. */
  ghost predicate Trail(p: Platform, attempts: seq<RecvAttempt>, trail: seq<Snapshot>, capacity: nat, bufSize: nat)
    decreases |trail|
  {
    var n := |trail| - 1;
    && 0 <= n <= |attempts| && |trail[n].slots| == capacity && SlotsOk(trail[n].slots, bufSize)
    && (n > 0 ==>
          && Trail(p, attempts, trail[..n], capacity, bufSize)
          && LeftBy(p, attempts[n - 1], trail[n - 1], trail[n], bufSize))
  }

  ghost predicate LeftBy(p: Platform, a: RecvAttempt, before: Snapshot, after: Snapshot, bufSize: nat) {
    && SlotsOk(before.slots, bufSize) && Recv.Contract(p, a.os, a.settled, |before.slots|, bufSize)
    && Recv.Left(p, a.os, a.settled, before.slots, after.slots, bufSize)
    && after.len == Recv.LenAfter(p, a.os, a.settled, |before.slots|, before.len)
  }

  lemma {:induction false} TrailGrows(p: Platform, attempts: seq<RecvAttempt>, trail: seq<Snapshot>, capacity: nat,
                                      bufSize: nat, after: Snapshot)
    requires Trail(p, attempts, trail, capacity, bufSize)
    requires |trail| <= |attempts| && |after.slots| == capacity && SlotsOk(after.slots, bufSize)
    requires LeftBy(p, attempts[|trail| - 1], trail[|trail| - 1], after, bufSize)
    ensures Trail(p, attempts, trail + [after], capacity, bufSize)
  {
    assert (trail + [after])[..|trail|] == trail;
  }

  lemma {:induction false} OneAnswerTally(t: Metrics.Tally, answer: Recv.Answer)
    ensures ReceivedTally(t, [answer], 1) == if answer.Returned? then Metrics.Recorded(t, answer.result) else t
  {
    assert ReceivedTally(t, [answer], 0) == t;
  }

  /** What a success leaves shows what the last attempt received, and the length is the count. */
  lemma {:induction false} SuccessShows(p: Platform, attempts: seq<RecvAttempt>, trail: seq<Snapshot>,
                                        capacity: nat, bufSize: nat, r: IoResult, used: nat)
    requires Trail(p, attempts, trail, capacity, bufSize)
    requires 0 < used <= |attempts| && |trail| == used + 1 && r.Ok? && r.count > 0
    requires Recv.AnswerOf(p, attempts[used - 1].os, attempts[used - 1].settled, capacity) == Recv.Returned(r)
    ensures r.count <= capacity && trail[used].len == r.count
    ensures var last := attempts[used - 1];
            Recv.Shows(p, last.os, last.settled, trail[used].slots, r.count, bufSize)
  {
    var last, before, after := attempts[used - 1], trail[used - 1], trail[used];
    assert LeftBy(p, last, before, after, bufSize);
    assert |trail[..used][used - 1].slots| == capacity;
    Recv.LeftShows(p, last.os, last.settled, before.slots, after.slots, bufSize);
  }

  // ----- retries -----

  /** The attempt brings nothing and does not fail: no slots, a would-block at once, or a bulk
      call whose messages ask for no slot. */
  predicate RecvBlocks(p: Platform, a: RecvAttempt, capacity: nat) {
    || capacity == 0
    || (Recv.SingleCalls(p, a.os, a.settled)
        && a.os(if p.OnLinux? then a.settled + 1 else 0) == Recv.Refused(WouldBlock))
    || (!Recv.SingleCalls(p, a.os, a.settled)
        && (a.os(a.settled) == Recv.Refused(WouldBlock)
            || (a.os(a.settled).Bulk?
                && var ms := a.os(a.settled).ms;
                   if p.OnLinux? then LinuxRecv.Wanted(ms, |ms|) == 0 else ms == [])))
  }

  predicate RecvWaits(p: Platform, a: RecvAttempt, capacity: nat) {
    RecvBlocks(p, a, capacity) && a.wait.None?
  }

  predicate AllRecvsWait(p: Platform, attempts: seq<RecvAttempt>, capacity: nat, k: nat)
    requires k <= |attempts|
  {
    k == 0 || (AllRecvsWait(p, attempts, capacity, k - 1) && RecvWaits(p, attempts[k - 1], capacity))
  }

  lemma {:induction false} BlockedAnswer(p: Platform, a: RecvAttempt, capacity: nat, bufSize: nat)
    requires Recv.Contract(p, a.os, a.settled, capacity, bufSize)
    ensures Waits(Recv.AnswerOf(p, a.os, a.settled, capacity)) <==> RecvBlocks(p, a, capacity)
  {
    Recv.BulkAnswer(p, a.os, a.settled, capacity);
    if capacity > 0 && Recv.SingleCalls(p, a.os, a.settled) {
      Recv.SingleCallsAnswer(p, a.os, a.settled, capacity, bufSize, 0, WouldBlock);
    } else if capacity > 0 && p.OnLinux? && a.os(a.settled).Bulk? {
      LinuxRecv.WantedGrows(a.os(a.settled).ms, if a.os(a.settled).ms == [] then 0 else |a.os(a.settled).ms| - 1,
                            |a.os(a.settled).ms|);
    }
  }

  lemma {:induction false} RecvPendingIffAllWait(p: Platform, attempts: seq<RecvAttempt>, capacity: nat, bufSize: nat,
                                                 answers: seq<Recv.Answer>, k: nat)
    requires AreAnswers(p, attempts, capacity, answers) && AllContract(p, attempts, capacity, bufSize)
    requires k <= |attempts|
    ensures RunAfter(answers, attempts, k).Pending? <==> AllRecvsWait(p, attempts, capacity, k)
  {
    if k > 0 {
      RecvPendingIffAllWait(p, attempts, capacity, bufSize, answers, k - 1);
      BlockedAnswer(p, attempts[k - 1], capacity, bufSize);
    }
  }

  lemma {:induction false} RecvEndIsFinal(answers: seq<Recv.Answer>, attempts: seq<RecvAttempt>, j: nat, k: nat)
    requires j <= k <= |answers| == |attempts| && !RunAfter(answers, attempts, j).Pending?
    ensures !RunAfter(answers, attempts, k).Pending?
    decreases k
  {
    if j < k {
      RecvEndIsFinal(answers, attempts, j, k - 1);
    }
  }

  /** How `recv_batch` goes on: every attempt before the last one made brought nothing, and the
      wait after it succeeded. The run is still waiting exactly if that holds of all attempts
      there are. Otherwise an attempt that brought something, failed or panicked ends it with
      its own outcome, and one that brought nothing with the error its wait failed with. */
  lemma {:induction false} RetriesWhileEmpty(p: Platform, attempts: seq<RecvAttempt>, capacity: nat, bufSize: nat,
                                             run: CallRun, used: nat)
    requires RecvRun(p, attempts, capacity, run, used) && AllContract(p, attempts, capacity, bufSize)
    ensures used == 0 <==> attempts == []
    ensures used > 0 ==> AllRecvsWait(p, attempts, capacity, used - 1)
    ensures run.Pending? <==> AllRecvsWait(p, attempts, capacity, |attempts|)
    ensures used > 0 && !RecvBlocks(p, attempts[used - 1], capacity) ==>
              var answer := Recv.AnswerOf(p, attempts[used - 1].os, attempts[used - 1].settled, capacity);
              run == if answer.Panic? then Crashed else Finished(answer.result)
    ensures used > 0 && RecvBlocks(p, attempts[used - 1], capacity) && attempts[used - 1].wait.Some? ==>
              run == Finished(Err(attempts[used - 1].wait.value))
  {
    var answers := Answers(p, attempts, capacity);
    RecvPendingIffAllWait(p, attempts, capacity, bufSize, answers, used);
    RecvPendingIffAllWait(p, attempts, capacity, bufSize, answers, |attempts|);
    if used > 0 {
      RecvPendingIffAllWait(p, attempts, capacity, bufSize, answers, used - 1);
      BlockedAnswer(p, attempts[used - 1], capacity, bufSize);
      if !run.Pending? {
        RecvEndIsFinal(answers, attempts, used, |attempts|);
      }
    }
  }

  /** A hard error of a single call, after any number of datagrams, ends the run with itself. */
  lemma {:induction false} HardErrorEndsRun(p: Platform, attempts: seq<RecvAttempt>, capacity: nat, bufSize: nat,
                                            run: CallRun, used: nat, e: IoError)
    requires RecvRun(p, attempts, capacity, run, used) && AllContract(p, attempts, capacity, bufSize)
    requires used > 0 && capacity > 0 && e != WouldBlock
    requires var last := attempts[used - 1];
             && Recv.SingleCalls(p, last.os, last.settled)
             && Recv.SomeFirstRefusal(last.os, if p.OnLinux? then last.settled + 1 else 0, capacity, e)
    ensures run == Finished(Err(e))
  {
    var last := attempts[used - 1];
    Recv.SingleCallsAnswer(p, last.os, last.settled, capacity, bufSize, 0, e);
    assert Answers(p, attempts, capacity)[used - 1] == Recv.AnswerOf(p, last.os, last.settled, capacity);
  }

  /** The datagrams the first `k` attempts take from the system. */
  function TakenBy(p: Platform, attempts: seq<RecvAttempt>, k: nat, capacity: nat): nat
    requires k <= |attempts|
  {
    if k == 0 then 0
    else
      TakenBy(p, attempts, k - 1, capacity)
      + Recv.Taken(p, attempts[k - 1].os, attempts[k - 1].settled, capacity)
  }

  /** The system keeps its contract in every attempt. */
  ghost predicate AllContract(p: Platform, attempts: seq<RecvAttempt>, capacity: nat, bufSize: nat) {
    forall i {:trigger Recv.Contract(p, attempts[i].os, attempts[i].settled, capacity, bufSize)}
      | 0 <= i < |attempts| :: Recv.Contract(p, attempts[i].os, attempts[i].settled, capacity, bufSize)
  }

  /** Trips that wait take nothing. */
  lemma {:induction false} WaitingTakesNothing(p: Platform, attempts: seq<RecvAttempt>, k: nat, capacity: nat,
                                               bufSize: nat, answers: seq<Recv.Answer>)
    requires AreAnswers(p, attempts, capacity, answers) && AllContract(p, attempts, capacity, bufSize)
    requires k <= |attempts| && RunAfter(answers, attempts, k).Pending?
    ensures TakenBy(p, attempts, k, capacity) == 0
  {
    if k > 0 {
      WaitingTakesNothing(p, attempts, k - 1, capacity, bufSize, answers);
      TripTellsTaken(p, attempts[k - 1], capacity, bufSize, answers[k - 1]);
    }
  }

  /** Over a whole run: success reports all that was taken, or as much as there are slots for;
      a run without success, crashes aside, has taken something, and lost it, exactly if its
      last attempt was a loop cut short by a hard error. */
  lemma {:induction false} RunTellsTaken(p: Platform, attempts: seq<RecvAttempt>, capacity: nat, bufSize: nat,
                                         run: CallRun, used: nat)
    requires RecvRun(p, attempts, capacity, run, used) && AllContract(p, attempts, capacity, bufSize)
    ensures var taken := TakenBy(p, attempts, used, capacity);
      && (run.Finished? && run.result.Ok? ==> run.result.count == Min(taken, capacity))
      && (!run.Crashed? && !(run.Finished? && run.result.Ok?) && taken > 0 <==>
            used > 0 && Recv.CutShort(p, attempts[used - 1].os, attempts[used - 1].settled, capacity))
  {
    RecvLastDecides(p, attempts, capacity, bufSize, run, used);
    if used > 0 {
      var last := attempts[used - 1];
      TripTellsTaken(p, last, capacity, bufSize, Recv.AnswerOf(p, last.os, last.settled, capacity));
    }
  }

  /** The last attempt made decides, and took all that was taken. */
  lemma {:induction false} RecvLastDecides(p: Platform, attempts: seq<RecvAttempt>, capacity: nat, bufSize: nat,
                                           run: CallRun, used: nat)
    requires RecvRun(p, attempts, capacity, run, used) && AllContract(p, attempts, capacity, bufSize)
    ensures used == 0 ==> run == Pending && TakenBy(p, attempts, used, capacity) == 0
    ensures used > 0 ==>
              var last := attempts[used - 1];
              && run == TripEnd(Recv.AnswerOf(p, last.os, last.settled, capacity), last)
              && TakenBy(p, attempts, used, capacity) == Recv.Taken(p, last.os, last.settled, capacity)
  {
    if used > 0 {
      var answers, last := Answers(p, attempts, capacity), attempts[used - 1];
      assert answers[used - 1] == Recv.AnswerOf(p, last.os, last.settled, capacity);
      WaitingTakesNothing(p, attempts, used - 1, capacity, bufSize, answers);
    }
  }

  lemma {:induction false} TripTellsTaken(p: Platform, a: RecvAttempt, capacity: nat, bufSize: nat, answer: Recv.Answer)
    requires Recv.Contract(p, a.os, a.settled, capacity, bufSize)
    requires answer == Recv.AnswerOf(p, a.os, a.settled, capacity)
    ensures var end, taken := TripEnd(answer, a), Recv.Taken(p, a.os, a.settled, capacity);
      && (end.Finished? && end.result.Ok? ==> end.result.count == Min(taken, capacity))
      && (end.Pending? ==> taken == 0)
      && (!end.Crashed? && !(end.Finished? && end.result.Ok?) && taken > 0 <==>
            Recv.CutShort(p, a.os, a.settled, capacity))
  {
    Recv.AnswerTellsTaken(p, a.os, a.settled, capacity, bufSize);
  }

  /** The first `k` attempts are made datagram by datagram. */
  predicate AllLoop(p: Platform, attempts: seq<RecvAttempt>, k: nat)
    requires k <= |attempts|
  {
    forall i | 0 <= i < k :: Recv.Loops(p, attempts[i].os, attempts[i].settled)
  }

  /** There each block of one caller follows a completion of its own. */
  lemma {:induction false} LoopsPair(p: Platform, attempts: seq<RecvAttempt>, k: nat, capacity: nat,
                                     answers: seq<Recv.Answer>)
    requires AreAnswers(p, attempts, capacity, answers) && k <= |attempts| && AllLoop(p, attempts, k)
    ensures Paired(RunEvents(answers, attempts, k))
  {
    if k > 0 {
      LoopsPair(p, attempts, k - 1, capacity, answers);
      LoopTripPairs(p, attempts[k - 1], capacity, RunEvents(answers, attempts, k - 1));
    }
  }

  lemma {:induction false} LoopTripPairs(p: Platform, a: RecvAttempt, capacity: nat, events: seq<Event>)
    requires Recv.Loops(p, a.os, a.settled) && Paired(events)
    ensures Paired(events + TripEvents(Recv.AnswerOf(p, a.os, a.settled, capacity), a))
  {
    PairedExtends(events, TripEvents(Recv.AnswerOf(p, a.os, a.settled, capacity), a));
  }

  /** ... and while no other caller overlaps, the would-blocks stay at most half of all events. */
  lemma {:induction false} LoopsBalance(c: Controller, p: Platform, attempts: seq<RecvAttempt>, k: nat, capacity: nat)
    requires k <= |attempts| && 2 * c.blocked <= c.total && AllLoop(p, attempts, k)
    ensures var now := Adaptive.Run(c, RunEvents(Answers(p, attempts, capacity), attempts, k));
            2 * now.blocked <= now.total
  {
    LoopsPair(p, attempts, k, capacity, Answers(p, attempts, capacity));
    PairedBlocksCountTwice(c, RunEvents(Answers(p, attempts, capacity), attempts, k));
  }

  lemma {:induction false} PairedExtends(events: seq<Event>, seen: seq<Event>)
    requires |seen| <= 2 && (|seen| == 2 ==> seen[1].Blocked?) && (seen != [] ==> seen[0].Completed?)
    requires Paired(events)
    ensures Paired(events + seen)
  {
    if seen == [] {
      assert events + seen == events;
    } else {
      assert (events + seen)[..|events|] == events;
    }
  }

  lemma {:induction false} RunConcat(c: Controller, first: seq<Event>, second: seq<Event>)
    ensures Adaptive.Run(c, first + second) == Adaptive.Run(Adaptive.Run(c, first), second)
    decreases |second|
  {
    if second == [] {
      assert first + second == first;
    } else {
      var front := second[..|second| - 1];
      RunConcat(c, first, front);
      assert (first + second)[..|first + second| - 1] == first + front;
    }
  }
}
