/** The adaptive batch-size controller of src/socket.rs: the state object, and what
    it does over whole runs. Times are nanoseconds of a monotone clock. */
module Adaptive {
  import opened Common

  const MIN_BATCH := 1
  const MAX_BATCH := 1024
  const ADJUSTMENT_INTERVAL := 100_000_000

  datatype Controller = Controller(target: nat, blocked: nat, total: nat, last: nat)

  /** What the send and receive loops report. A would-block is recorded and then
      followed by a look at the clock; adjusting reads the clock once more. */
  datatype Event = Completed | Blocked(checkedAt: nat, setAt: nat)

  datatype Rate = High | Middle | Low

  /** Above 30 percent, below 10 percent, or neither. */
  function RateOf(blocked: nat, total: nat): Rate {
    if 10 * blocked > 3 * total then High
    else if 10 * blocked < total then Low
    else Middle
  }

  function Retarget(target: nat, rate: Rate): nat {
    match rate
    case High => Max(target / 2, MIN_BATCH)
    case Low => if target < MAX_BATCH then Min(target * 3 / 2, MAX_BATCH) else target
    case Middle => target
  }

  predicate Due(c: Controller, now: nat) {
    now - c.last >= ADJUSTMENT_INTERVAL && c.total != 0
  }

  function Adjusted(c: Controller, checkedAt: nat, setAt: nat): Controller {
    if Due(c, checkedAt) then
      Controller(Retarget(c.target, RateOf(c.blocked, c.total)), 0, 0, setAt)
    else
      c
  }

  /** The controller right before the adjustment that follows a would-block. */
  function Noted(c: Controller): Controller {
    c.(blocked := c.blocked + 1, total := c.total + 1)
  }

  function Step(c: Controller, e: Event): Controller {
    match e
    case Completed => c.(total := c.total + 1)
    case Blocked(checkedAt, setAt) => Adjusted(Noted(c), checkedAt, setAt)
  }

  function Run(c: Controller, events: seq<Event>): Controller
    decreases |events|
  {
    if events == [] then c else Step(Run(c, events[..|events| - 1]), events[|events| - 1])
  }

  function Initial(size: nat, now: nat): Controller {
    Controller(Max(MIN_BATCH, Min(size, MAX_BATCH)), 0, 0, now)
  }

  /** `AdaptiveState`, updated in place under its mutex. */
  class AdaptiveState {
    var targetSize: nat
    var wouldBlockCount: nat
    var totalSendCount: nat
    var lastAdjustment: nat

    function State(): Controller
      reads this
    {
      Controller(targetSize, wouldBlockCount, totalSendCount, lastAdjustment)
    }

    constructor (initial: nat, now: nat)
      ensures State() == Initial(initial, now)
      ensures targetSize == if initial == 0 then 1 else if initial > 1024 then 1024 else initial
    {
      targetSize := if initial < MIN_BATCH then MIN_BATCH else if initial > MAX_BATCH then MAX_BATCH else initial;
      wouldBlockCount, totalSendCount, lastAdjustment := 0, 0, now;
    }

    method RecordWouldBlock()
      modifies this
      ensures State() == Noted(old(State()))
    {
      wouldBlockCount := wouldBlockCount + 1;
      totalSendCount := totalSendCount + 1;
    }

    method RecordEvent()
      modifies this
      ensures State() == Step(old(State()), Completed)
    {
      totalSendCount := totalSendCount + 1;
    }

    method MaybeAdjust(checkedAt: nat, setAt: nat)
      modifies this
      ensures State() == Adjusted(old(State()), checkedAt, setAt)
    {
      if checkedAt - lastAdjustment < ADJUSTMENT_INTERVAL {
        return;
      }
      if totalSendCount == 0 {
        return;
      }
      if 10 * wouldBlockCount > 3 * totalSendCount {
        targetSize := Max(targetSize / 2, MIN_BATCH);
      } else if 10 * wouldBlockCount < totalSendCount && targetSize < MAX_BATCH {
        targetSize := Min(targetSize * 3 / 2, MAX_BATCH);
      }
      wouldBlockCount, totalSendCount, lastAdjustment := 0, 0, setAt;
    }
  }

  predicate InRange(target: nat) {
    1 <= target <= 1024
  }

  // ------------------------------------------------------------------
  //  Runs as lists of adjustments
  // ------------------------------------------------------------------

  predicate Adjusts(c: Controller, e: Event) {
    e.Blocked? && Due(Noted(c), e.checkedAt)
  }

  /** The rates at which a run adjusted, in order. */
  function Adjustments(c: Controller, events: seq<Event>): seq<Rate>
    decreases |events|
  {
    if events == [] then
      []
    else
      var before, e := Run(c, events[..|events| - 1]), events[|events| - 1];
      Adjustments(c, events[..|events| - 1])
      + if Adjusts(before, e) then [RateOf(before.blocked + 1, before.total + 1)] else []
  }

  function RetargetAll(target: nat, rates: seq<Rate>): nat
    decreases |rates|
  {
    if rates == [] then target
    else Retarget(RetargetAll(target, rates[..|rates| - 1]), rates[|rates| - 1])
  }

  /** The target is a function of the adjustments alone. */
  lemma {:induction false} TargetFollowsAdjustments(c: Controller, events: seq<Event>)
    ensures Run(c, events).target == RetargetAll(c.target, Adjustments(c, events))
    decreases |events|
  {
    if events != [] {
      var front := events[..|events| - 1];
      TargetFollowsAdjustments(c, front);
      var rates := Adjustments(c, front);
      if Adjusts(Run(c, front), events[|events| - 1]) {
        assert Adjustments(c, events)[..|rates|] == rates;
      } else {
        assert Adjustments(c, events) == rates;
      }
    }
  }

  lemma {:induction false} TargetStaysInRange(c: Controller, events: seq<Event>)
    requires InRange(c.target)
    ensures InRange(Run(c, events).target)
    decreases |events|
  {
    if events != [] {
      TargetStaysInRange(c, events[..|events| - 1]);
    }
  }

  /** Without a would-block nothing moves: direct `try_*` calls never retarget. */
  lemma {:induction false} CompletionsNeverRetarget(c: Controller, events: seq<Event>)
    requires forall i | 0 <= i < |events| :: events[i].Completed?
    ensures Run(c, events) == c.(total := c.total + |events|)
    decreases |events|
  {
    if events != [] {
      CompletionsNeverRetarget(c, events[..|events| - 1]);
    }
  }

  // ------------------------------------------------------------------
  //  Convergence
  // ------------------------------------------------------------------

  /** Once the target is 1 no run of any kind gets it away from 1. */
  lemma {:induction false} OneIsAbsorbing(c: Controller, events: seq<Event>)
    requires c.target == 1
    ensures Run(c, events).target == 1
    decreases |events|
  {
    if events != [] {
      OneIsAbsorbing(c, events[..|events| - 1]);
    }
  }

  function Pow2(n: nat): nat {
    if n == 0 then 1 else 2 * Pow2(n - 1)
  }

  lemma {:induction false} HighRatesHalve(target: nat, rates: seq<Rate>)
    requires InRange(target) && |rates| <= 10
    requires forall i | 0 <= i < |rates| :: rates[i] == High
    ensures 1 <= RetargetAll(target, rates) <= Pow2(10 - |rates|)
    decreases |rates|
  {
    if rates == [] {
      assert Pow2(10) == 1024;
    } else {
      HighRatesHalve(target, rates[..|rates| - 1]);
      assert Pow2(10 - (|rates| - 1)) == 2 * Pow2(10 - |rates|);
    }
  }

  /** Ten high-rate adjustments in a row end at 1 from anywhere, and no later event
      of any kind undoes it. */
  lemma {:induction false} TenHighRatesAreForever(c: Controller, before: seq<Event>, during: seq<Event>,
                                                  after: seq<Event>)
    requires InRange(c.target)
    requires var rates := Adjustments(Run(c, before), during);
             |rates| == 10 && forall i | 0 <= i < 10 :: rates[i] == High
    ensures Run(Run(Run(c, before), during), after).target == 1
  {
    TargetStaysInRange(c, before);
    TargetFollowsAdjustments(Run(c, before), during);
    HighRatesHalve(Run(c, before).target, Adjustments(Run(c, before), during));
    OneIsAbsorbing(Run(Run(c, before), during), after);
  }

  /** The slowest climb: from 2 by half as much again, rounded down. */
  const CLIMB: seq<nat> := [2, 3, 4, 6, 9, 13, 19, 28, 42, 63, 94, 141, 211, 316, 474, 711, 1024]

  lemma {:induction false} LowRatesClimb(target: nat, rates: seq<Rate>)
    requires 2 <= target <= MAX_BATCH && |rates| <= 16
    requires forall i | 0 <= i < |rates| :: rates[i] == Low
    ensures CLIMB[|rates|] <= RetargetAll(target, rates) <= MAX_BATCH
    ensures target == 2 ==> RetargetAll(target, rates) == CLIMB[|rates|]
    decreases |rates|
  {
    if rates != [] {
      var front := rates[..|rates| - 1];
      LowRatesClimb(target, front);
      ClimbStep(|front|, RetargetAll(target, front));
    }
  }

  lemma {:induction false} ClimbStep(i: nat, target: nat)
    requires i < 16 && CLIMB[i] <= target <= MAX_BATCH
    ensures CLIMB[i + 1] <= Retarget(target, Low) <= MAX_BATCH
    ensures target == CLIMB[i] ==> Retarget(target, Low) == CLIMB[i + 1]
  {
    var step := Min(CLIMB[i] * 3 / 2, MAX_BATCH);
    assert step == CLIMB[i + 1];
  }

  /** Sixteen low-rate adjustments in a row reach the maximum from any target but 1;
      from 2 fifteen do not. */
  lemma {:induction false} SixteenLowRatesReachMaximum(c: Controller, events: seq<Event>)
    requires 2 <= c.target <= MAX_BATCH
    requires forall i | 0 <= i < |Adjustments(c, events)| :: Adjustments(c, events)[i] == Low
    ensures |Adjustments(c, events)| == 16 ==> Run(c, events).target == 1024
    ensures |Adjustments(c, events)| < 16 && c.target == 2 ==> Run(c, events).target < 1024
  {
    TargetFollowsAdjustments(c, events);
    if |Adjustments(c, events)| <= 16 {
      LowRatesClimb(c.target, Adjustments(c, events));
    }
  }

  /** A low rate raises the target exactly between 2 and 1023. */
  lemma {:induction false} GrowsIff(target: nat)
    requires InRange(target)
    ensures Retarget(target, Low) > target <==> 2 <= target < MAX_BATCH
    ensures Retarget(target, High) < target <==> 2 <= target
  {
  }

  // ------------------------------------------------------------------
  //  Windows: the counters since the last adjustment
  // ------------------------------------------------------------------

  /** Events since the last adjustment of a run that started with empty counters. */
  function Window(c: Controller, events: seq<Event>): seq<Event>
    decreases |events|
  {
    if events == [] then
      []
    else
      var front, e := events[..|events| - 1], events[|events| - 1];
      if Adjusts(Run(c, front), e) then [] else Window(c, front) + [e]
  }

  function CountCompleted(events: seq<Event>): nat
    decreases |events|
  {
    if events == [] then 0
    else CountCompleted(events[..|events| - 1]) + if events[|events| - 1].Completed? then 1 else 0
  }

  /** The counters are the window: its length, and its would-blocks. */
  lemma {:induction false} CountersAreTheWindow(c: Controller, events: seq<Event>)
    requires c.blocked == c.total == 0
    ensures var now := Run(c, events);
      && now.total == |Window(c, events)|
      && now.total == now.blocked + CountCompleted(Window(c, events))
    decreases |events|
  {
    if events != [] {
      var front, e := events[..|events| - 1], events[|events| - 1];
      CountersAreTheWindow(c, front);
      if !Adjusts(Run(c, front), e) {
        assert (Window(c, front) + [e])[..|Window(c, front)|] == Window(c, front);
      }
    }
  }

  /** In every reachable state: the would-blocks never outnumber the total, the
      zero-total guard never decides an adjustment, and an adjustment that grows the
      target has at least ten completions in its window. */
  lemma {:induction false} EveryGrowthIsEarned(c: Controller, events: seq<Event>, checkedAt: nat, setAt: nat)
    requires c.blocked == c.total == 0 && InRange(c.target)
    ensures var now := Run(c, events);
      && now.blocked <= now.total
      && Noted(now).total > 0
      && (Adjusts(now, Blocked(checkedAt, setAt)) <==> checkedAt - now.last >= 100_000_000)
      && (Step(now, Blocked(checkedAt, setAt)).target > now.target ==> CountCompleted(Window(c, events)) >= 10)
  {
    CountersAreTheWindow(c, events);
    TargetStaysInRange(c, events);
  }

  /** The documented rule, met exactly except at target 1: with the would-block that
      triggers it counted in, the target falls iff more than 30 percent of the window
      blocked, and rises iff fewer than 10 percent did and there is room. An adjustment is
      due 100 ms after the last one was set, and starts a new window then; otherwise the
      would-block joins the window. */
  lemma {:induction false} AdjustsAsDocumented(c: Controller, events: seq<Event>, checkedAt: nat, setAt: nat)
    requires c.blocked == c.total == 0 && InRange(c.target)
    ensures var now, window := Run(c, events), Window(c, events);
      var after := Step(now, Blocked(checkedAt, setAt));
      var next := after.target;
      var total, blocked := |window| + 1, |window| - CountCompleted(window) + 1;
      var due := checkedAt - now.last >= 100_000_000;
      && (next < now.target <==> due && 2 <= now.target && 10 * blocked > 3 * total)
      && (next > now.target <==> due && 2 <= now.target < 1024 && 10 * blocked < total)
      && (next < now.target ==> next == now.target / 2)
      && (next > now.target ==> next == Min(now.target * 3 / 2, 1024))
      && (after.blocked, after.total, after.last)
         == (if due then (0, 0, setAt) else (blocked, total, now.last))
  {
    CountersAreTheWindow(c, events);
    TargetStaysInRange(c, events);
    GrowsIff(Run(c, events).target);
  }

  // ------------------------------------------------------------------
  //  Rate limit
  // ------------------------------------------------------------------

  /** Clock readings never go back, from `start` on. */
  predicate Monotone(start: nat, events: seq<Event>)
    decreases |events|
  {
    events == []
    || (Monotone(start, events[..|events| - 1])
        && (events[|events| - 1].Completed?
            || (Latest(start, events[..|events| - 1]) <= events[|events| - 1].checkedAt <= events[|events| - 1].setAt)))
  }

  /** The last clock reading of a run. */
  function Latest(start: nat, events: seq<Event>): nat
    decreases |events|
  {
    if events == [] then start
    else match events[|events| - 1]
      case Completed => Latest(start, events[..|events| - 1])
      case Blocked(_, setAt) => setAt
  }

  /** At most one adjustment per 100 ms, over every run. */
  lemma {:induction false} AdjustmentsAreRateLimited(c: Controller, events: seq<Event>)
    requires Monotone(c.last, events)
    ensures var now := Run(c, events);
      && c.last + |Adjustments(c, events)| * 100_000_000 <= now.last <= Latest(c.last, events)
    decreases |events|
  {
    if events != [] {
      AdjustmentsAreRateLimited(c, events[..|events| - 1]);
    }
  }

  // ------------------------------------------------------------------
  //  Receive paths that report a would-block as zero packets
  // ------------------------------------------------------------------

  /** Such a path completes before it is found to have blocked. */
  predicate Paired(events: seq<Event>)
    decreases |events|
  {
    events == []
    || (events[|events| - 1].Completed? && Paired(events[..|events| - 1]))
    || (events[|events| - 1].Blocked? && |events| >= 2 && events[|events| - 2].Completed?
        && Paired(events[..|events| - 2]))
  }

  /** There each block counts twice in the total, so the rate never exceeds one half. */
  lemma {:induction false} PairedBlocksCountTwice(c: Controller, events: seq<Event>)
    requires Paired(events) && 2 * c.blocked <= c.total
    ensures 2 * Run(c, events).blocked <= Run(c, events).total
    decreases |events|
  {
    if events != [] {
      if events[|events| - 1].Completed? {
        PairedBlocksCountTwice(c, events[..|events| - 1]);
      } else {
        var front := events[..|events| - 1];
        assert front[..|front| - 1] == events[..|events| - 2];
        PairedBlocksCountTwice(c, events[..|events| - 2]);
        assert Run(c, front) == Step(Run(c, events[..|events| - 2]), Completed);
      }
    }
  }
}
