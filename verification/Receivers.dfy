/** Several callers of `recv_batch` on one socket, where would-block is reported as zero
    packets. A trip takes the controller's lock twice, once for the completion and once for
    the would-block; other callers may come in between. */
module Receivers {
  import opened Common
  import opened Adaptive
  import opened Runs
  import Recv = RecvBackends

  /** One locked section. */
  datatype Move =
    | Direct                                    // a `try_recv_batch` of its own completes
    | Receive(i: nat, empty: bool)              // an attempt of caller i completes
    | Note(i: nat, checkedAt: nat, setAt: nat)  // caller i notes that it was empty

  /** The controller, and which callers have completed an empty attempt and not yet noted it. */
  datatype World = World(c: Controller, owing: seq<bool>)

  predicate Enabled(w: World, m: Move) {
    match m
    case Direct => true
    case Receive(i, _) => i < |w.owing| && !w.owing[i]
    case Note(i, _, _) => i < |w.owing| && w.owing[i]
  }

  function EventOf(m: Move): Event {
    if m.Note? then Blocked(m.checkedAt, m.setAt) else Completed
  }

  /** The locked sections of one trip around `recv_batch` made datagram by datagram: one for
      an answer that is not an error, and a second one if it was empty. */
  function TripMoves(i: nat, answer: Recv.Answer, a: RecvAttempt): seq<Move> {
    (if answer.Returned? && answer.result.Ok? then [Receive(i, Waits(answer))] else [])
    + if Waits(answer) then [Note(i, a.checkedAt, a.setAt)] else []
  }

  /** A trip records what its moves do, and a would-block is noted only after a completion. */
  lemma {:induction false} TripIsMoves(p: Platform, a: RecvAttempt, capacity: nat, i: nat)
    requires Recv.Loops(p, a.os, a.settled)
    ensures var answer := Recv.AnswerOf(p, a.os, a.settled, capacity);
            var moves := TripMoves(i, answer, a);
      && |TripEvents(answer, a)| == |moves| <= 2
      && (forall k | 0 <= k < |moves| :: TripEvents(answer, a)[k] == EventOf(moves[k]))
      && (moves != [] ==> moves[0] == Receive(i, |moves| == 2))
      && (|moves| == 2 ==> moves[1].Note?)
  {
  }

  /** A move that is not the caller's turn does nothing. */
  function Moved(w: World, m: Move): World {
    if !Enabled(w, m) then w
    else
      World(Adaptive.Step(w.c, EventOf(m)),
            match m
            case Direct => w.owing
            case Receive(i, empty) => w.owing[i := empty]
            case Note(i, _, _) => w.owing[i := false])
  }

  function After(w: World, moves: seq<Move>): World
    decreases |moves|
  {
    if moves == [] then w else Moved(After(w, moves[..|moves| - 1]), moves[|moves| - 1])
  }

  /** What the controller sees of an interleaving. */
  function Recorded(w: World, moves: seq<Move>): seq<Event>
    decreases |moves|
  {
    if moves == [] then []
    else
      var front, last := moves[..|moves| - 1], moves[|moves| - 1];
      Recorded(w, front) + if Enabled(After(w, front), last) then [EventOf(last)] else []
  }

  /** Every interleaving is a run of the controller, so all that holds of every run holds here. */
  lemma {:induction false} InterleavingIsARun(w: World, moves: seq<Move>)
    ensures After(w, moves).c == Adaptive.Run(w.c, Recorded(w, moves))
    decreases |moves|
  {
    if moves != [] {
      var front := moves[..|moves| - 1];
      InterleavingIsARun(w, front);
      var events := Recorded(w, front);
      if Enabled(After(w, front), moves[|moves| - 1]) {
        assert Recorded(w, moves)[..|events|] == events;
      } else {
        assert Recorded(w, moves) == events;
      }
    }
  }

  function Count(owing: seq<bool>): (n: nat)
    ensures n <= |owing|
  {
    if owing == [] then 0 else (if owing[0] then 1 else 0) + Count(owing[1..])
  }

  lemma {:induction false} CountAfterUpdate(owing: seq<bool>, i: nat, b: bool)
    requires i < |owing|
    ensures Count(owing[i := b]) == Count(owing) - (if owing[i] then 1 else 0) + if b then 1 else 0
    ensures !b ==> Count(owing[i := b]) < |owing|
    decreases |owing|
  {
    if i == 0 {
      assert owing[0 := b][1..] == owing[1..];
    } else {
      CountAfterUpdate(owing[1..], i - 1, b);
      assert owing[i := b][1..] == owing[1..][i - 1 := b];
    }
  }

  /** What the blocks may exceed half of the events by: one for every other caller, less
      those that still owe a block. An adjustment empties the counters while others owe. */
  predicate Bounded(w: World) {
    |w.owing| > 0 && 2 * w.c.blocked + Count(w.owing) <= w.c.total + |w.owing| - 1
  }

  lemma {:induction false} MoveKeepsBound(w: World, m: Move)
    requires Bounded(w)
    ensures Bounded(Moved(w, m))
  {
    if Enabled(w, m) && !m.Direct? {
      CountAfterUpdate(w.owing, m.i, m.Receive? && m.empty);
    }
  }

  predicate Quiet(w: World) {
    forall i | 0 <= i < |w.owing| :: !w.owing[i]
  }

  lemma {:induction false} NoneOwing(owing: seq<bool>)
    requires forall i | 0 <= i < |owing| :: !owing[i]
    ensures Count(owing) == 0
  {
    if owing != [] {
      NoneOwing(owing[1..]);
    }
  }

  /** With n callers, in every state of every interleaving, twice the would-blocks exceed the
      total by at most n - 1; with one caller not at all. */
  lemma {:induction false} OverlappingBlocks(w: World, moves: seq<Move>)
    requires Quiet(w) && |w.owing| > 0 && 2 * w.c.blocked <= w.c.total
    ensures var now := After(w, moves);
            |now.owing| == |w.owing| && 2 * now.c.blocked + Count(now.owing) <= now.c.total + |w.owing| - 1
    decreases |moves|
  {
    if moves == [] {
      NoneOwing(w.owing);
    } else {
      OverlappingBlocks(w, moves[..|moves| - 1]);
      MoveKeepsBound(After(w, moves[..|moves| - 1]), moves[|moves| - 1]);
    }
  }

  // ------------------------------------------------------------------
  //  The bound is attained
  // ------------------------------------------------------------------

  /** Callers `lo` to `hi` owe a block. */
  function Owing(n: nat, lo: nat, hi: nat): (s: seq<bool>)
    ensures |s| == n
  {
    seq(n, i => lo <= i < hi)
  }

  lemma {:induction false} AfterSnoc(w: World, moves: seq<Move>, m: Move)
    ensures After(w, moves + [m]) == Moved(After(w, moves), m)
  {
    assert (moves + [m])[..|moves|] == moves;
  }

  /** The first `k` callers find nothing. */
  lemma {:induction false} AllReceive(n: nat, k: nat) returns (moves: seq<Move>)
    requires k <= n
    ensures After(World(Initial(32, 0), Owing(n, 0, 0)), moves) == World(Controller(32, 0, k, 0), Owing(n, 0, k))
  {
    if k == 0 {
      moves := [];
    } else {
      var front := AllReceive(n, k - 1);
      moves := front + [Receive(k - 1, true)];
      AfterSnoc(World(Initial(32, 0), Owing(n, 0, 0)), front, Receive(k - 1, true));
      assert Owing(n, 0, k - 1)[k - 1 := true] == Owing(n, 0, k);
    }
  }

  /** Then the first of them notes it, late enough to adjust, and the others right after. */
  lemma {:induction false} OthersNote(n: nat, k: nat) returns (moves: seq<Move>, target: nat)
    requires 0 < k <= n
    ensures After(World(Initial(32, 0), Owing(n, 0, 0)), moves)
            == World(Controller(target, k - 1, k - 1, ADJUSTMENT_INTERVAL), Owing(n, k, n))
  {
    var start, m := World(Initial(32, 0), Owing(n, 0, 0)), Note(k - 1, ADJUSTMENT_INTERVAL, ADJUSTMENT_INTERVAL);
    assert Owing(n, k - 1, n)[k - 1 := false] == Owing(n, k, n);
    var front;
    if k == 1 {
      front := AllReceive(n, n);
      target := Retarget(32, RateOf(1, n + 1));
    } else {
      front, target := OthersNote(n, k - 1);
    }
    moves := front + [m];
    AfterSnoc(start, front, m);
  }

  /** For every number of callers some interleaving attains the bound; from two on, the
      would-blocks are then more than half. */
  lemma {:induction false} BoundIsAttained(n: nat) returns (moves: seq<Move>)
    requires n > 0
    ensures var now := After(World(Initial(32, 0), Owing(n, 0, 0)), moves);
            2 * now.c.blocked == now.c.total + n - 1
  {
    var target;
    moves, target := OthersNote(n, n);
  }

  /** Two callers: the second notes its would-block after the first one's has adjusted. */
  const TWO_RECEIVERS := [
    Completed, Completed,
    Blocked(ADJUSTMENT_INTERVAL, ADJUSTMENT_INTERVAL), Blocked(ADJUSTMENT_INTERVAL, ADJUSTMENT_INTERVAL)]

  lemma {:induction false} TwoReceiversBlockMoreThanHalf()
    ensures var now := Adaptive.Run(Initial(32, 0), TWO_RECEIVERS);
            now.blocked == now.total == 1
  {
    var events := TWO_RECEIVERS;
    assert Adaptive.Run(Initial(32, 0), events[..1]) == Controller(32, 0, 1, 0);
    assert Adaptive.Run(Initial(32, 0), events[..2]) == Controller(32, 0, 2, 0) by {
      assert events[..2][..1] == events[..1];
    }
    assert Adaptive.Run(Initial(32, 0), events[..3]).total == 0 by {
      assert events[..3][..2] == events[..2];
    }
  }
}
