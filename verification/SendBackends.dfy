/** The send paths of all platforms against one script of operating-system
    outcomes: what reaches the wire, and what the caller is told. */
module SendBackends {
  import opened Common
  import opened SockAddr
  import opened Batch
  import opened SendHeaders

  datatype Outcome = Accept | Fail(error: IoError)

  /** The system's answer to the k-th packet, whichever call carries it. A bulk call
      accepts packets until one fails and reports an error only if that is the first. */
  type Script = nat -> Outcome

  /** How many of `n` packets, starting at script position `pos`, go out. */
  function Accepted(os: Script, pos: nat, n: nat): (k: nat)
    ensures k <= n
    ensures forall j | pos <= j < pos + k :: os(j).Accept?
    ensures k < n ==> os(pos + k).Fail?
    decreases n
  {
    if n == 0 || os(pos).Fail? then 0 else 1 + Accepted(os, pos + 1, n - 1)
  }

  /** Any index with these properties is the number of packets that go out. */
  lemma {:induction false} AcceptedIs(os: Script, pos: nat, n: nat, k: nat)
    requires k <= n && (forall j | pos <= j < pos + k :: os(j).Accept?) && (k < n ==> os(pos + k).Fail?)
    ensures Accepted(os, pos, n) == k
    decreases k
  {
    if k > 0 {
      AcceptedIs(os, pos + 1, n - 1, k - 1);
    }
  }

  // ------------------------------------------------------------------
  //  What the caller is told when k of n packets went out
  // ------------------------------------------------------------------

  /** Per-packet loops (fallback, macOS, Linux without sendmmsg). */
  function LoopResult(os: Script, pos: nat, n: nat): IoResult {
    var k := Accepted(os, pos, n);
    if k < n && os(pos + k).error != WouldBlock then Err(os(pos + k).error) else Ok(k)
  }

  /** Windows keeps a partial success. */
  function WindowsResult(os: Script, pos: nat, n: nat): IoResult {
    var k := Accepted(os, pos, n);
    if k == 0 < n && os(pos).error != WouldBlock then Err(os(pos).error) else Ok(k)
  }

  /** One bulk system call. */
  function BulkResult(os: Script, pos: nat, n: nat): IoResult {
    var k := Accepted(os, pos, n);
    if k == 0 < n then Err(os(pos).error) else Ok(k)
  }

  /** The loops drop destinations on a connected socket. */
  function Stripped(entries: seq<SendEntry>, connected: bool): (r: seq<Packet>)
    ensures |r| == |entries|
  {
    seq(|entries|, i requires 0 <= i < |entries| =>
      Packet(entries[i].data, if connected then None else entries[i].addr))
  }

  // ------------------------------------------------------------------
  //  The loops as written
  // ------------------------------------------------------------------

  /** `fallback.rs`, `fallback_send` and both macOS loops. */
  method LoopSend(b: SendBatchRaw, connected: bool, os: Script, pos: nat) returns (r: IoResult, wire: seq<Packet>)
    requires b.Valid()
    ensures r == LoopResult(os, pos, b.len)
    ensures wire == Stripped(b.Contents(), connected)[..Accepted(os, pos, b.len)]
  {
    wire := [];
    if b.len == 0 {
      return Ok(0), wire;
    }
    var sent := 0;
    for i := 0 to b.len
      invariant sent == i == |wire|
      invariant forall j | pos <= j < pos + i :: os(j).Accept?
      invariant wire == Stripped(b.Contents(), connected)[..i]
    {
      var entry := b.Entry(i);
      var packet := if connected || entry.addr.None? then Packet(entry.data, None) else Packet(entry.data, entry.addr);
      match os(pos + i) {
        case Accept =>
          wire := wire + [packet];
          sent := sent + 1;
        case Fail(error) =>
          AcceptedIs(os, pos, b.len, i);
          if error == WouldBlock {
            return Ok(sent), wire;
          }
          return Err(error), wire;
      }
    }
    AcceptedIs(os, pos, b.len, b.len);
    r := Ok(sent);
  }

  /** `windows.rs` */
  method WindowsSend(b: SendBatchRaw, connected: bool, os: Script) returns (r: IoResult, wire: seq<Packet>)
    requires b.Valid()
    ensures r == WindowsResult(os, 0, b.len)
    ensures wire == Stripped(b.Contents(), connected)[..Accepted(os, 0, b.len)]
  {
    wire := [];
    if b.len == 0 {
      return Ok(0), wire;
    }
    var sent := 0;
    for i := 0 to b.len
      invariant sent == i == |wire|
      invariant forall j | 0 <= j < i :: os(j).Accept?
      invariant wire == Stripped(b.Contents(), connected)[..i]
    {
      var entry := b.Entry(i);
      var useAddr := !connected && entry.addr.Some?;
      if os(i).Accept? {
        wire := wire + [Packet(entry.data, if useAddr then entry.addr else None)];
        sent := sent + 1;
      } else {
        AcceptedIs(os, 0, b.len, i);
        var err := os(i).error;
        if err == WouldBlock {
          return Ok(sent), wire;
        }
        if sent > 0 {
          return Ok(sent), wire;
        }
        return Err(err), wire;
      }
    }
    AcceptedIs(os, 0, b.len, b.len);
    r := Ok(sent);
  }

  /** The kernel's side of a bulk call over the first `n` headers of a table. */
  method BulkSend(h: Host, t: Table, n: nat, os: Script, pos: nat) returns (r: IoResult, wire: seq<Packet>)
    requires n <= |t.headers| && forall i | 0 <= i < n :: Readable(t, i)
    ensures r == BulkResult(os, pos, n)
    ensures |wire| == Accepted(os, pos, n) && forall i | 0 <= i < |wire| :: wire[i] == NamedPacket(h, t, i)
  {
    wire := [];
    var i: nat := 0;
    while i < n && os(pos + i).Accept?
      invariant i <= n && |wire| == i
      invariant forall j | pos <= j < pos + i :: os(j).Accept?
      invariant forall j | 0 <= j < i :: wire[j] == NamedPacket(h, t, j)
    {
      wire := wire + [NamedPacket(h, t, i)];
      i := i + 1;
    }
    AcceptedIs(os, pos, n, i);
    r := if i == 0 < n then Err(os(pos).error) else Ok(i);
  }

  // ------------------------------------------------------------------
  //  Linux and macOS
  // ------------------------------------------------------------------

  /** What a bulk call over a table of these entries reads out of it. */
  function TablePackets(entries: seq<SendEntry>, heap: bool): (r: seq<Packet>)
    ensures |r| == |entries|
  {
    if heap then HeapPackets(entries) else AsPackets(entries)
  }

  method TableSend(h: Host, b: SendBatchRaw, heap: bool, os: Script, pos: nat) returns (r: IoResult, wire: seq<Packet>)
    requires b.Valid() && (!heap ==> b.len <= MAX_STACK)
    ensures r == BulkResult(os, pos, b.len)
    ensures wire == TablePackets(b.Contents(), heap)[..Accepted(os, pos, b.len)]
  {
    var t: Table;
    if heap {
      t := BuildOnHeap(UnixEncoder(h), b);
      HeapTableIsRead(h, b.Contents(), t);
    } else {
      t := BuildOnStack(UnixEncoder(h), b);
      NamesAreRead(h, b.Contents(), t);
    }
    r, wire := BulkSend(h, t, b.len, os, pos);
  }

  /** `linux.rs`: one `sendmmsg`, or the loop where the kernel does not have it. */
  method LinuxSend(h: Host, b: SendBatchRaw, connected: bool, os: Script) returns (r: IoResult, wire: seq<Packet>)
    requires b.Valid()
    ensures b.len > 0 && os(0) == Fail(NoSys) ==>
      r == LoopResult(os, 1, b.len) && wire == Stripped(b.Contents(), connected)[..Accepted(os, 1, b.len)]
    ensures b.len == 0 || os(0) != Fail(NoSys) ==>
      && r == BulkResult(os, 0, b.len)
      && wire == TablePackets(b.Contents(), b.len > MAX_STACK)[..Accepted(os, 0, b.len)]
  {
    if b.len == 0 {
      return Ok(0), [];
    }
    r, wire := TableSend(h, b, b.len > MAX_STACK, os, 0);
    if r == Err(NoSys) {
      r, wire := LoopSend(b, connected, os, 1);
    }
  }

  /** The first script position from `pos` on that is not an interruption; `until` is one. */
  function Settled(os: Script, pos: nat, until: nat): (r: nat)
    requires pos <= until && os(until) != Fail(Interrupted)
    ensures pos <= r && os(r) != Fail(Interrupted) && forall j | pos <= j < r :: os(j) == Fail(Interrupted)
    decreases until - pos
  {
    if os(pos) == Fail(Interrupted) then Settled(os, pos + 1, until) else pos
  }

  method RetryEintr(os: Script, pos: nat, ghost until: nat) returns (settled: nat)
    requires pos <= until && os(until) != Fail(Interrupted)
    ensures settled == Settled(os, pos, until)
  {
    settled := pos;
    while os(settled) == Fail(Interrupted)
      invariant pos <= settled <= until && Settled(os, settled, until) == Settled(os, pos, until)
      decreases until - settled
    {
      settled := settled + 1;
    }
  }

  /** `macos.rs`: a loop on a connected socket or without `sendmsg_x`, otherwise one
      bulk call that is retried while interrupted. */
  method MacSend(h: Host, b: SendBatchRaw, connected: bool, hasSendmsgX: bool, os: Script, ghost until: nat)
      returns (r: IoResult, wire: seq<Packet>)
    requires b.Valid()
    requires !connected && hasSendmsgX ==> os(until) != Fail(Interrupted)
    ensures connected || !hasSendmsgX ==>
      r == LoopResult(os, 0, b.len) && wire == Stripped(b.Contents(), connected)[..Accepted(os, 0, b.len)]
    ensures !connected && hasSendmsgX ==>
      var settled := Settled(os, 0, until);
      r == BulkResult(os, settled, b.len) && wire == HeapPackets(b.Contents())[..Accepted(os, settled, b.len)]
  {
    if b.len == 0 {
      return Ok(0), [];
    }
    if connected || !hasSendmsgX {
      r, wire := LoopSend(b, connected, os, 0);
      return;
    }
    var settled := RetryEintr(os, 0, until);
    r, wire := TableSend(h, b, true, os, settled);
  }

  // ------------------------------------------------------------------
  //  One attempt on any platform
  // ------------------------------------------------------------------

  /** How an attempt goes about it: packet by packet, or with one bulk call. */
  datatype Path = LoopPath | WindowsPath | BulkPath(heap: bool)

  /** The path an attempt takes, and the script position of its first packet. */
  datatype Plan = Plan(path: Path, start: nat)

  /** Only the macOS bulk call is retried while interrupted; it has to stop being so. */
  predicate Settles(p: Platform, connected: bool, os: Script, until: nat) {
    p.OnMac? && p.hasBulk && !connected ==> os(until) != Fail(Interrupted)
  }

  function PlanOf(p: Platform, connected: bool, os: Script, until: nat, n: nat): Plan
    requires Settles(p, connected, os, until)
  {
    match p
    case OnLinux => if os(0) == Fail(NoSys) then Plan(LoopPath, 1) else Plan(BulkPath(n > MAX_STACK), 0)
    case OnMac(hasBulk) =>
      if connected || !hasBulk then Plan(LoopPath, 0) else Plan(BulkPath(true), Settled(os, 0, until))
    case OnWindows => Plan(WindowsPath, 0)
    case Elsewhere => Plan(LoopPath, 0)
  }

  /** What the caller is told. */
  function Told(plan: Plan, os: Script, n: nat): IoResult {
    match plan.path
    case LoopPath => LoopResult(os, plan.start, n)
    case WindowsPath => WindowsResult(os, plan.start, n)
    case BulkPath(_) => BulkResult(os, plan.start, n)
  }

  /** What the path makes of the entries. */
  function Packets(path: Path, connected: bool, entries: seq<SendEntry>): (r: seq<Packet>)
    ensures |r| == |entries|
  {
    if path.BulkPath? then TablePackets(entries, path.heap) else Stripped(entries, connected)
  }

  function Wire(plan: Plan, connected: bool, entries: seq<SendEntry>, os: Script): (wire: seq<Packet>)
    ensures |wire| == Accepted(os, plan.start, |entries|)
  {
    Packets(plan.path, connected, entries)[..Accepted(os, plan.start, |entries|)]
  }

  method PlatformSend(h: Host, p: Platform, b: SendBatchRaw, connected: bool, os: Script, ghost until: nat)
      returns (r: IoResult, wire: seq<Packet>)
    requires b.Valid() && Settles(p, connected, os, until)
    ensures var plan := PlanOf(p, connected, os, until, b.len);
            r == Told(plan, os, b.len) && wire == Wire(plan, connected, b.Contents(), os)
  {
    match p {
      case OnLinux => r, wire := LinuxSend(h, b, connected, os);
      case OnMac(hasBulk) => r, wire := MacSend(h, b, connected, hasBulk, os, until);
      case OnWindows => r, wire := WindowsSend(b, connected, os);
      case Elsewhere => r, wire := LoopSend(b, connected, os, 0);
    }
  }

  // ------------------------------------------------------------------
  //  The platforms, one by one
  // ------------------------------------------------------------------

  /** The first packet that is not accepted is number `k`, and fails with `e`. */
  predicate FirstFailure(os: Script, pos: nat, n: nat, k: nat, e: IoError) {
    k < n && AllAccepted(os, pos, k) && os(pos + k) == Fail(e)
  }

  /** The system makes single calls: always on Windows and other systems, on macOS when
      connected or without `sendmsg_x`, on Linux once `sendmmsg` turns out to be missing. */
  predicate SingleCalls(p: Platform, connected: bool, os: Script) {
    || p.OnWindows? || p.Elsewhere?
    || (p.OnMac? && (connected || !p.hasBulk))
    || (p.OnLinux? && os(0) == Fail(NoSys))
  }

  ghost predicate SomeFirstFailure(os: Script, pos: nat, n: nat, e: IoError) {
    exists k :: FirstFailure(os, pos, n, k, e)
  }

  lemma {:induction false} LoopErrorIs(os: Script, pos: nat, n: nat, e: IoError)
    ensures LoopResult(os, pos, n) == Err(e) <==> e != WouldBlock && SomeFirstFailure(os, pos, n, e)
  {
    var k := Accepted(os, pos, n);
    if LoopResult(os, pos, n) == Err(e) {
      assert FirstFailure(os, pos, n, k, e);
    }
    forall j | FirstFailure(os, pos, n, j, e) ensures j == k {
      AcceptedIs(os, pos, n, j);
    }
  }

  lemma {:induction false} FirstPacketErrorIs(os: Script, pos: nat, n: nat, e: IoError)
    ensures WindowsResult(os, pos, n) == Err(e) <==> n > 0 && os(pos) == Fail(e) && e != WouldBlock
    ensures BulkResult(os, pos, n) == Err(e) <==> n > 0 && os(pos) == Fail(e)
  {
    if n > 0 && os(pos) == Fail(e) {
      AcceptedIs(os, pos, n, 0);
    }
  }

  /** When an attempt reports an error, and which. On Windows only a failure of the first
      packet, other than would-block, is one, so nothing was sent. With single calls elsewhere
      it is the first failure, other than would-block, wherever it comes. A bulk call reports
      a failure of the first packet, whatever it is. All else is success with the number sent. */
  lemma {:induction false} ErrorsByPlatform(p: Platform, connected: bool, entries: seq<SendEntry>, os: Script,
                                            until: nat, e: IoError)
    requires Settles(p, connected, os, until)
    ensures var plan := PlanOf(p, connected, os, until, |entries|);
            var r, wire := Told(plan, os, |entries|), Wire(plan, connected, entries, os);
      && (r.Ok? ==> r.count == |wire|)
      && (r == Err(e) <==>
            if p.OnWindows? then entries != [] && os(0) == Fail(e) && e != WouldBlock
            else if SingleCalls(p, connected, os) then
              e != WouldBlock && SomeFirstFailure(os, plan.start, |entries|, e)
            else entries != [] && os(plan.start) == Fail(e))
      && (p.OnWindows? && r.Err? ==> wire == [])
  {
    var plan := PlanOf(p, connected, os, until, |entries|);
    LoopErrorIs(os, plan.start, |entries|, e);
    FirstPacketErrorIs(os, plan.start, |entries|, e);
  }

  /** Where the first packet stands in the script: the start, past a missing `sendmmsg`, or
      past the interruptions of `sendmsg_x`. */
  lemma {:induction false} StartByPlatform(p: Platform, connected: bool, n: nat, os: Script, until: nat)
    requires Settles(p, connected, os, until)
    ensures var start := PlanOf(p, connected, os, until, n).start;
            if p.OnLinux? then
              start == if os(0) == Fail(NoSys) then 1 else 0
            else if SingleCalls(p, connected, os) then
              start == 0
            else
              os(start) != Fail(Interrupted) && forall j | 0 <= j < start :: os(j) == Fail(Interrupted)
  {
  }

  /** What goes out: the data of the first entries, as many as are accepted in a row; with
      single calls on a connected socket without destination, on another with the entries' own. */
  lemma {:induction false} PacketsByPlatform(p: Platform, connected: bool, entries: seq<SendEntry>, os: Script,
                                             until: nat)
    requires Settles(p, connected, os, until)
    ensures var start := PlanOf(p, connected, os, until, |entries|).start;
            var wire := Wire(PlanOf(p, connected, os, until, |entries|), connected, entries, os);
      && |wire| <= |entries| && AllAccepted(os, start, |wire|)
      && (|wire| < |entries| ==> os(start + |wire|).Fail?)
      && (forall i | 0 <= i < |wire| :: wire[i].data == entries[i].data)
      && (SingleCalls(p, connected, os) ==>
            forall i | 0 <= i < |wire| :: wire[i].dest == if connected then None else entries[i].addr)
  {
  }

  /** A bulk call keeps the destinations: up to 64 entries on Linux always ... */
  lemma {:induction false} SmallBatchesKeepDestinations(connected: bool, entries: seq<SendEntry>, os: Script,
                                                        until: nat)
    requires |entries| <= 64 && os(0) != Fail(NoSys)
    ensures var wire := Wire(PlanOf(OnLinux, connected, os, until, |entries|), connected, entries, os);
            forall i | 0 <= i < |wire| :: wire[i].dest == entries[i].addr
  {
    assert PlanOf(OnLinux, connected, os, until, |entries|).path == BulkPath(false);
  }

  /** ... and with a heap table wherever addressed entries come first. */
  lemma {:induction false} AddressedFirstKeepDestinations(p: Platform, connected: bool, entries: seq<SendEntry>,
                                                          os: Script, until: nat)
    requires Settles(p, connected, os, until) && !SingleCalls(p, connected, os) && AddressedFirst(entries)
    ensures var wire := Wire(PlanOf(p, connected, os, until, |entries|), connected, entries, os);
            forall i | 0 <= i < |wire| :: wire[i].dest == entries[i].addr
  {
    AddressedFirstIsRankExact(entries);
    assert forall i | 0 <= i < |entries| ::
        NamedByRank(entries, i) ==> HeapPackets(entries)[i].dest == entries[i].addr;
  }

  // ------------------------------------------------------------------
  //  What every attempt guarantees
  // ------------------------------------------------------------------

  predicate AllAccepted(os: Script, pos: nat, n: nat) {
    forall j | pos <= j < pos + n :: os(j).Accept?
  }

  /** The whole batch is reported sent exactly when the system accepted every packet. */
  lemma {:induction false} FullCountIffAllAccepted(plan: Plan, os: Script, n: nat)
    ensures Told(plan, os, n) == Ok(n) <==> AllAccepted(os, plan.start, n)
  {
    if AllAccepted(os, plan.start, n) {
      AcceptedIs(os, plan.start, n, n);
    }
  }

  /** A per-packet loop met a hard error after it had sent something. */
  predicate CutShort(plan: Plan, os: Script, n: nat) {
    var k := Accepted(os, plan.start, n);
    plan.path.LoopPath? && 0 < k < n && os(plan.start + k).error != WouldBlock
  }

  /** A count is the number of packets sent. Only a per-packet loop fails after having sent
      something; only a bulk call reports a would-block as an error, and only a loop
      reports it as zero packets. */
  lemma {:induction false} ResultTellsWire(plan: Plan, connected: bool, entries: seq<SendEntry>, os: Script)
    ensures var r, wire := Told(plan, os, |entries|), Wire(plan, connected, entries, os);
      && (r.Ok? ==> r.count == |wire|)
      && (r.Err? && wire != [] <==> CutShort(plan, os, |entries|))
      && (r == Err(WouldBlock) <==> plan.path.BulkPath? && entries != [] && os(plan.start) == Fail(WouldBlock))
      && (r == Ok(0) <==> entries == [] || (!plan.path.BulkPath? && os(plan.start) == Fail(WouldBlock)))
  {
  }

  /** Entry `i` is sent as it is: a loop drops destinations on a connected socket, a heap
      table is read by rank, a stack table is right. */
  predicate SentAsIs(path: Path, connected: bool, entries: seq<SendEntry>, i: nat)
    requires i < |entries|
  {
    if path.BulkPath? then path.heap ==> SentByRank(entries, i) else connected ==> entries[i].addr.None?
  }

  /** The wire is the first entries of the batch exactly when each of those is sent as it is. */
  lemma {:induction false} WireIsEntriesIff(plan: Plan, connected: bool, entries: seq<SendEntry>, os: Script)
    ensures var wire := Wire(plan, connected, entries, os);
            wire == AsPackets(entries)[..|wire|] <==>
            forall i | 0 <= i < |wire| :: SentAsIs(plan.path, connected, entries, i)
  {
    var wire := Wire(plan, connected, entries, os);
    forall i | 0 <= i < |wire|
      ensures wire[i] == AsPackets(entries)[..|wire|][i] <==> SentAsIs(plan.path, connected, entries, i)
    {
    }
  }

  /** The system refuses a packet whose element of the address table was never written: it
      has no family and port 0. */
  predicate RefusesZeroed(plan: Plan, entries: seq<SendEntry>, os: Script) {
    forall i | 0 <= i < |entries| && ReadsZeroed(entries, i) :: os(plan.start + i).Fail?
  }

  /** It refuses a packet without destination, as it does on an unconnected socket. */
  predicate RefusesUnaddressed(plan: Plan, entries: seq<SendEntry>, os: Script) {
    forall i | 0 <= i < |entries| && entries[i].addr.None? :: os(plan.start + i).Fail?
  }

  /** A heap table sends packets astray only if the system accepts one whose element is
      zeroed, and also one without destination. Where it refuses either kind, every bulk
      send of every batch is right. */
  lemma {:induction false} RefusalKeepsBulkSendsRight(plan: Plan, connected: bool, entries: seq<SendEntry>, os: Script)
    requires plan.path.BulkPath?
    requires RefusesZeroed(plan, entries, os) || RefusesUnaddressed(plan, entries, os)
    ensures var wire := Wire(plan, connected, entries, os);
            wire == AsPackets(entries)[..|wire|]
  {
    var wire := Wire(plan, connected, entries, os);
    if wire != AsPackets(entries)[..|wire|] {
      AstrayOnlyAfterZeroed(entries, |wire|);
    }
  }

  /** Above 64 entries on Linux, connected or not: if the system does accept them all, a batch
      whose first entry alone has no destination is reported as sent in full although the
      second packet was sent by a zeroed element and every later one went to another's peer. */
  lemma {:induction false} SuccessWithWrongPeers(connected: bool, entries: seq<SendEntry>, os: Script, until: nat)
    requires |entries| > MAX_STACK && entries[0].addr.None?
    requires forall i | 1 <= i < |entries| :: entries[i].addr.Some?
    requires AllAccepted(os, 0, |entries|)
    ensures var plan := PlanOf(OnLinux, connected, os, until, |entries|);
            var wire := Wire(plan, connected, entries, os);
            && Told(plan, os, |entries|) == Ok(|entries|) && |wire| == |entries|
            && ReadsZeroed(entries, 1)
            && forall i | 2 <= i < |entries| :: wire[i].dest == entries[i - 1].addr
  {
    AcceptedIs(os, 0, |entries|, |entries|);
    ConnectedEntryFirstShiftsPeers(entries);
    RankAfterFirst(entries, 1);
  }

  // ------------------------------------------------------------------
  //  The backends compared
  // ------------------------------------------------------------------

  /** For one and the same script every platform puts the same packets on the wire, in the
      same order, unless the first answer is one that only some paths skip, a destination
      overrides a connected peer, or a heap table names a wrong one. */
  lemma {:induction false} PlatformsSendTheSame(p: Platform, connected: bool, entries: seq<SendEntry>, os: Script,
                                                until: nat)
    requires Settles(p, connected, os, until) && os(0) != Fail(NoSys) && os(0) != Fail(Interrupted)
    requires connected ==> forall i | 0 <= i < |entries| :: entries[i].addr.None?
    requires RankExact(entries)
    ensures Wire(PlanOf(p, connected, os, until, |entries|), connected, entries, os)
            == AsPackets(entries)[..Accepted(os, 0, |entries|)]
  {
    WireIsEntriesIff(PlanOf(p, connected, os, until, |entries|), connected, entries, os);
  }

  /** Their results differ exactly where a bulk call reports a would-block that stopped
      the first packet, and where a loop reports a hard error that came after some
      packets had gone out. */
  lemma {:induction false} ResultsDiffer(os: Script, pos: nat, n: nat)
    ensures var k := Accepted(os, pos, n);
      && (BulkResult(os, pos, n) != WindowsResult(os, pos, n) <==> k == 0 < n && os(pos).error == WouldBlock)
      && (LoopResult(os, pos, n) != WindowsResult(os, pos, n) <==> 0 < k < n && os(pos + k).error != WouldBlock)
      && (BulkResult(os, pos, n) != WindowsResult(os, pos, n) ==>
            BulkResult(os, pos, n) == Err(WouldBlock) && WindowsResult(os, pos, n) == Ok(0))
      && (LoopResult(os, pos, n) != WindowsResult(os, pos, n) ==>
            LoopResult(os, pos, n) == Err(os(pos + k).error) && WindowsResult(os, pos, n) == Ok(k))
  {
  }
}
