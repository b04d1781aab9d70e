/** The counters of src/metrics.rs under concurrent callers. Each direction has the
    same five counters, driven the same way by `try_send_batch` and `try_recv_batch`;
    every `fetch_add` is one atomic step, all steps have one order, and callers interleave
    between them. */
module Metrics {
  import opened Common

  datatype Tally = Tally(packets: nat, batches: nat, syscalls: nat, errors: nat, wouldBlock: nat)

  /** Where a caller stands between two increments. */
  datatype Pc =
    | Idle
    | Succeeded(count: nat)   // the platform call returned; nothing counted yet
    | PacketsCounted
    | BatchCounted
    | Failed(error: IoError)  // the platform call failed; nothing counted yet
    | ErrorCounted            // a would-block whose own counter is still to come

  /** The counters, the callers, and what the platform calls have returned so far. */
  datatype World = World(tally: Tally, callers: seq<Pc>, returned: seq<IoResult>)

  /** One increment, or none for a caller about to make its platform call. */
  function Incremented(t: Tally, pc: Pc): Tally {
    match pc
    case Idle => t
    case Succeeded(n) => t.(packets := t.packets + n)
    case PacketsCounted => t.(batches := t.batches + 1)
    case BatchCounted => t.(syscalls := t.syscalls + 1)
    case Failed(_) => t.(errors := t.errors + 1)
    case ErrorCounted => t.(wouldBlock := t.wouldBlock + 1)
  }

  /** Where a caller goes next; a platform call made on the way returns `r`. */
  function Next(pc: Pc, r: IoResult): Pc {
    match pc
    case Idle => if r.Ok? then Succeeded(r.count) else Failed(r.error)
    case Succeeded(_) => PacketsCounted
    case PacketsCounted => BatchCounted
    case BatchCounted => Idle
    case Failed(e) => if e == WouldBlock then ErrorCounted else Idle
    case ErrorCounted => Idle
  }

  /** Caller `i` takes its next step. */
  function Step(w: World, i: nat, r: IoResult): World {
    if i >= |w.callers| then w
    else World(Incremented(w.tally, w.callers[i]),
               w.callers[i := Next(w.callers[i], r)],
               if w.callers[i].Idle? then w.returned + [r] else w.returned)
  }

  /** A schedule picks who moves and what a call started by that move returns. */
  function Run(w: World, schedule: seq<(nat, IoResult)>): World
    decreases |schedule|
  {
    if schedule == [] then w
    else
      var last := schedule[|schedule| - 1];
      Step(Run(w, schedule[..|schedule| - 1]), last.0, last.1)
  }

  predicate Start(w: World) {
    && w.tally == Tally(0, 0, 0, 0, 0)
    && w.returned == []
    && forall i | 0 <= i < |w.callers| :: w.callers[i] == Idle
  }

  // ------------------------------------------------------------------
  //  What is owed to the counters
  // ------------------------------------------------------------------

  datatype Counter = Packets | Batches | Syscalls | Errors | WouldBlocks | OtherErrors | InFlight

  /** What a caller has yet to add to a counter. */
  function Owed(c: Counter, pc: Pc): nat {
    match c
    case Packets => if pc.Succeeded? then pc.count else 0
    case Batches => if pc.Succeeded? || pc.PacketsCounted? then 1 else 0
    case Syscalls => if pc.Succeeded? || pc.PacketsCounted? || pc.BatchCounted? then 1 else 0
    case Errors => if pc.Failed? then 1 else 0
    case WouldBlocks => if pc == Failed(WouldBlock) || pc.ErrorCounted? then 1 else 0
    case OtherErrors => if pc.Failed? && pc.error != WouldBlock then 1 else 0
    case InFlight => if pc.Idle? then 0 else 1
  }

  function OwedBy(c: Counter, callers: seq<Pc>): nat {
    if callers == [] then 0 else Owed(c, callers[0]) + OwedBy(c, callers[1..])
  }

  /** What a returned call is worth to a counter once it is fully counted. */
  function Worth(c: Counter, r: IoResult): nat {
    match c
    case Packets => if r.Ok? then r.count else 0
    case Batches => if r.Ok? then 1 else 0
    case Syscalls => if r.Ok? then 1 else 0
    case Errors => if r.Err? then 1 else 0
    case WouldBlocks => if r == Err(WouldBlock) then 1 else 0
    case OtherErrors => if r.Err? && r.error != WouldBlock then 1 else 0
    case InFlight => 0
  }

  function WorthOf(c: Counter, rs: seq<IoResult>): nat {
    if rs == [] then 0 else WorthOf(c, rs[..|rs| - 1]) + Worth(c, rs[|rs| - 1])
  }

  function Value(c: Counter, t: Tally): nat {
    match c
    case Packets => t.packets
    case Batches => t.batches
    case Syscalls => t.syscalls
    case Errors => t.errors
    case WouldBlocks => t.wouldBlock
    case OtherErrors => 0
    case InFlight => 0
  }

  predicate Balanced(w: World, c: Counter) {
    Value(c, w.tally) + OwedBy(c, w.callers) == WorthOf(c, w.returned)
  }

  /** Conservation: each counter plus what callers still owe it is what the platform
      calls returned; and no caller owes an error that did not happen. */
  predicate Inv(w: World) {
    && Balanced(w, Packets) && Balanced(w, Batches) && Balanced(w, Syscalls)
    && Balanced(w, Errors) && Balanced(w, WouldBlocks)
    && OwedBy(OtherErrors, w.callers) <= WorthOf(OtherErrors, w.returned)
  }

  lemma {:induction false} OwedAfterMove(c: Counter, callers: seq<Pc>, i: nat, pc: Pc)
    requires i < |callers|
    ensures OwedBy(c, callers[i := pc]) == OwedBy(c, callers) - Owed(c, callers[i]) + Owed(c, pc)
    decreases |callers|
  {
    if i == 0 {
      assert callers[0 := pc][1..] == callers[1..];
    } else {
      OwedAfterMove(c, callers[1..], i - 1, pc);
      assert callers[i := pc][1..] == callers[1..][i - 1 := pc];
    }
  }

  lemma {:induction false} WorthAfterReturn(c: Counter, rs: seq<IoResult>, r: IoResult)
    ensures WorthOf(c, rs + [r]) == WorthOf(c, rs) + Worth(c, r)
  {
    assert (rs + [r])[..|rs|] == rs;
  }

  /** A step pays off exactly what it no longer owes; a call owes what it returned. */
  lemma {:induction false} StepPays(t: Tally, pc: Pc, r: IoResult, c: Counter)
    requires !c.OtherErrors? && !c.InFlight?
    ensures Value(c, Incremented(t, pc)) + Owed(c, Next(pc, r))
            == Value(c, t) + Owed(c, pc) + if pc.Idle? then Worth(c, r) else 0
  {
  }

  lemma {:induction false} StepBalances(w: World, i: nat, r: IoResult, c: Counter)
    requires i < |w.callers| && !c.OtherErrors? && !c.InFlight? && Balanced(w, c)
    ensures Balanced(Step(w, i, r), c)
  {
    StepPays(w.tally, w.callers[i], r, c);
    OwedAfterMove(c, w.callers, i, Next(w.callers[i], r));
    WorthAfterReturn(c, w.returned, r);
  }

  lemma {:induction false} MoveOwesRealErrors(pc: Pc, r: IoResult)
    ensures Owed(OtherErrors, Next(pc, r)) <= Owed(OtherErrors, pc) + if pc.Idle? then Worth(OtherErrors, r) else 0
  {
  }

  lemma {:induction false} StepOwesRealErrors(w: World, i: nat, r: IoResult)
    requires i < |w.callers| && OwedBy(OtherErrors, w.callers) <= WorthOf(OtherErrors, w.returned)
    ensures OwedBy(OtherErrors, Step(w, i, r).callers) <= WorthOf(OtherErrors, Step(w, i, r).returned)
  {
    var pc := w.callers[i];
    MoveOwesRealErrors(pc, r);
    OwedAfterMove(OtherErrors, w.callers, i, Next(pc, r));
    if pc.Idle? {
      WorthAfterReturn(OtherErrors, w.returned, r);
    }
  }

  lemma {:induction false} StepKeepsInv(w: World, i: nat, r: IoResult)
    requires Inv(w)
    ensures Inv(Step(w, i, r))
  {
    if i < |w.callers| {
      StepBalances(w, i, r, Packets);
      StepBalances(w, i, r, Batches);
      StepBalances(w, i, r, Syscalls);
      StepBalances(w, i, r, Errors);
      StepBalances(w, i, r, WouldBlocks);
      StepOwesRealErrors(w, i, r);
    }
  }

  lemma {:induction false} NothingOwedWhenIdle(c: Counter, callers: seq<Pc>)
    requires forall i | 0 <= i < |callers| :: callers[i] == Idle
    ensures OwedBy(c, callers) == 0
  {
    if callers != [] {
      NothingOwedWhenIdle(c, callers[1..]);
    }
  }

  lemma {:induction false} RunKeepsInv(w: World, schedule: seq<(nat, IoResult)>)
    requires Start(w)
    ensures Inv(Run(w, schedule))
    decreases |schedule|
  {
    if schedule == [] {
      forall c: Counter ensures OwedBy(c, w.callers) == 0 {
        NothingOwedWhenIdle(c, w.callers);
      }
    } else {
      RunKeepsInv(w, schedule[..|schedule| - 1]);
      var last := schedule[|schedule| - 1];
      StepKeepsInv(Run(w, schedule[..|schedule| - 1]), last.0, last.1);
    }
  }

  // ------------------------------------------------------------------
  //  What an observer may rely on
  // ------------------------------------------------------------------

  lemma {:induction false} OwedAreOrdered(callers: seq<Pc>)
    ensures OwedBy(Batches, callers) <= OwedBy(Syscalls, callers)
    ensures OwedBy(Syscalls, callers) <= OwedBy(Batches, callers) + OwedBy(InFlight, callers)
    ensures OwedBy(Errors, callers) <= OwedBy(WouldBlocks, callers) + OwedBy(OtherErrors, callers)
  {
    if callers != [] {
      OwedAreOrdered(callers[1..]);
    }
  }

  lemma {:induction false} ErrorsAreWouldBlocksOrOthers(rs: seq<IoResult>)
    ensures WorthOf(Errors, rs) == WorthOf(WouldBlocks, rs) + WorthOf(OtherErrors, rs)
    ensures WorthOf(Batches, rs) == WorthOf(Syscalls, rs)
    ensures WorthOf(Batches, rs) + WorthOf(Errors, rs) == |rs|
  {
    if rs != [] {
      ErrorsAreWouldBlocksOrOthers(rs[..|rs| - 1]);
    }
  }

  /** At every moment of every interleaving. */
  lemma {:induction false} CountersNeverContradict(w: World, schedule: seq<(nat, IoResult)>)
    requires Start(w)
    ensures var now := Run(w, schedule);
      && now.tally.syscalls <= now.tally.batches <= now.tally.syscalls + OwedBy(InFlight, now.callers)
      && now.tally.wouldBlock <= now.tally.errors
      && now.tally.batches + now.tally.errors <= |now.returned|
  {
    var now := Run(w, schedule);
    RunKeepsInv(w, schedule);
    OwedAreOrdered(now.callers);
    ErrorsAreWouldBlocksOrOthers(now.returned);
  }

  /** Whenever no caller is in the middle of counting, the counters are exact. */
  lemma {:induction false} CountersAreExactWhenQuiet(w: World, schedule: seq<(nat, IoResult)>)
    requires Start(w)
    requires forall i | 0 <= i < |Run(w, schedule).callers| :: Run(w, schedule).callers[i] == Idle
    ensures var now := Run(w, schedule);
      && now.tally.packets == WorthOf(Packets, now.returned)
      && now.tally.batches == now.tally.syscalls == WorthOf(Batches, now.returned)
      && now.tally.errors == WorthOf(Errors, now.returned)
      && now.tally.wouldBlock == WorthOf(WouldBlocks, now.returned)
      && now.tally.batches + now.tally.errors == |now.returned|
  {
    var now := Run(w, schedule);
    RunKeepsInv(w, schedule);
    forall c: Counter ensures OwedBy(c, now.callers) == 0 {
      NothingOwedWhenIdle(c, now.callers);
    }
    ErrorsAreWouldBlocksOrOthers(now.returned);
  }

  // ----- in numbers -----

  /** The packets that successful calls reported. */
  function PacketsIn(rs: seq<IoResult>): nat {
    if rs == [] then 0
    else PacketsIn(rs[..|rs| - 1]) + match rs[|rs| - 1] case Ok(n) => n case Err(_) => 0
  }

  function SuccessesIn(rs: seq<IoResult>): nat {
    if rs == [] then 0 else SuccessesIn(rs[..|rs| - 1]) + if rs[|rs| - 1].Ok? then 1 else 0
  }

  function FailuresIn(rs: seq<IoResult>): nat {
    if rs == [] then 0 else FailuresIn(rs[..|rs| - 1]) + if rs[|rs| - 1].Err? then 1 else 0
  }

  function WouldBlocksIn(rs: seq<IoResult>): nat {
    if rs == [] then 0 else WouldBlocksIn(rs[..|rs| - 1]) + if rs[|rs| - 1] == Err(WouldBlock) then 1 else 0
  }

  lemma {:induction false} WorthInNumbers(rs: seq<IoResult>)
    ensures WorthOf(Packets, rs) == PacketsIn(rs)
    ensures WorthOf(Batches, rs) == WorthOf(Syscalls, rs) == SuccessesIn(rs)
    ensures WorthOf(Errors, rs) == FailuresIn(rs)
    ensures WorthOf(WouldBlocks, rs) == WouldBlocksIn(rs)
  {
    if rs != [] {
      WorthInNumbers(rs[..|rs| - 1]);
    }
  }

  /** At rest the counters are the packets reported, the successes (twice), the failures and
      the would-blocks among all calls that returned. */
  lemma {:induction false} QuietCountersInNumbers(w: World, schedule: seq<(nat, IoResult)>)
    requires Start(w)
    requires forall i | 0 <= i < |Run(w, schedule).callers| :: Run(w, schedule).callers[i] == Idle
    ensures var now := Run(w, schedule);
            var rs := now.returned;
            now.tally == Tally(PacketsIn(rs), SuccessesIn(rs), SuccessesIn(rs), FailuresIn(rs), WouldBlocksIn(rs))
  {
    CountersAreExactWhenQuiet(w, schedule);
    WorthInNumbers(Run(w, schedule).returned);
  }

  /** What one result adds, in numbers. */
  lemma {:induction false} RecordedInNumbers(t: Tally, r: IoResult)
    ensures r.Ok? ==> Recorded(t, r) == Tally(t.packets + r.count, t.batches + 1, t.syscalls + 1,
                                              t.errors, t.wouldBlock)
    ensures r.Err? ==> Recorded(t, r) == Tally(t.packets, t.batches, t.syscalls, t.errors + 1,
                                               t.wouldBlock + if r.error == WouldBlock then 1 else 0)
  {
  }

  /** One more move of the only caller. */
  lemma {:induction false} NextTurn(w: World, schedule: seq<(nat, IoResult)>, r: IoResult, now: World, after: World)
      returns (longer: seq<(nat, IoResult)>)
    requires Run(w, schedule) == now && after == Step(now, 0, r)
    requires forall i | 0 <= i < |schedule| :: schedule[i] == (0, r)
    ensures Run(w, longer) == after && forall i | 0 <= i < |longer| :: longer[i] == (0, r)
  {
    longer := schedule + [(0, r)];
    assert longer[..|schedule|] == schedule;
  }

  /** One caller on its own, moved until it is idle again, records exactly its result: the
      class and the interleaving model count alike. */
  lemma {:induction false} LoneCallerRecords(t: Tally, returned: seq<IoResult>, r: IoResult)
      returns (schedule: seq<(nat, IoResult)>)
    ensures forall i | 0 <= i < |schedule| :: schedule[i] == (0, r)
    ensures Run(World(t, [Idle], returned), schedule) == World(Recorded(t, r), [Idle], returned + [r])
  {
    var start := World(t, [Idle], returned);
    var now := World(t, [if r.Ok? then Succeeded(r.count) else Failed(r.error)], returned + [r]);
    schedule := NextTurn(start, [], r, start, now);
    if r.Ok? {
      schedule := CountSuccess(start, schedule, r, now);
    } else {
      schedule := CountFailure(start, schedule, r, now);
    }
  }

  lemma {:induction false} CountSuccess(start: World, schedule: seq<(nat, IoResult)>, r: IoResult, now: World)
      returns (longer: seq<(nat, IoResult)>)
    requires r.Ok? && Run(start, schedule) == now && now.callers == [Succeeded(r.count)]
    requires forall i | 0 <= i < |schedule| :: schedule[i] == (0, r)
    ensures forall i | 0 <= i < |longer| :: longer[i] == (0, r)
    ensures Run(start, longer) == World(Recorded(now.tally, r), [Idle], now.returned)
  {
    var a := Step(now, 0, r);
    var b := Step(a, 0, r);
    longer := NextTurn(start, schedule, r, now, a);
    longer := NextTurn(start, longer, r, a, b);
    longer := NextTurn(start, longer, r, b, Step(b, 0, r));
  }

  lemma {:induction false} CountFailure(start: World, schedule: seq<(nat, IoResult)>, r: IoResult, now: World)
      returns (longer: seq<(nat, IoResult)>)
    requires r.Err? && Run(start, schedule) == now && now.callers == [Failed(r.error)]
    requires forall i | 0 <= i < |schedule| :: schedule[i] == (0, r)
    ensures forall i | 0 <= i < |longer| :: longer[i] == (0, r)
    ensures Run(start, longer) == World(Recorded(now.tally, r), [Idle], now.returned)
  {
    var a := Step(now, 0, r);
    longer := NextTurn(start, schedule, r, now, a);
    if r.error == WouldBlock {
      longer := NextTurn(start, longer, r, a, Step(a, 0, r));
    }
  }

  // ------------------------------------------------------------------
  //  One direction's counters as the socket holds them
  // ------------------------------------------------------------------

  class Counters {
    var packets: nat
    var batches: nat
    var syscalls: nat
    var errors: nat
    var wouldBlock: nat

    function Tallied(): Tally
      reads this
    {
      Tally(packets, batches, syscalls, errors, wouldBlock)
    }

    constructor ()
      ensures Tallied() == Tally(0, 0, 0, 0, 0)
    {
      packets, batches, syscalls, errors, wouldBlock := 0, 0, 0, 0, 0;
    }

    /** What `try_*_batch` does with the result of its platform call. */
    method Record(r: IoResult)
      modifies this
      ensures Tallied() == Recorded(old(Tallied()), r)
    {
      match r {
        case Ok(n) =>
          packets := packets + n;
          batches := batches + 1;
          syscalls := syscalls + 1;
        case Err(e) =>
          errors := errors + 1;
          if e == WouldBlock {
            wouldBlock := wouldBlock + 1;
          }
      }
    }
  }

  function Recorded(t: Tally, r: IoResult): Tally {
    Tally(t.packets + Worth(Packets, r), t.batches + Worth(Batches, r), t.syscalls + Worth(Syscalls, r),
          t.errors + Worth(Errors, r), t.wouldBlock + Worth(WouldBlocks, r))
  }
}
