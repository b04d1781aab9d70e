/** The header tables handed to `sendmmsg` and `sendmsg_x`: built in fixed stack
    arrays up to 64 entries, in vectors beyond that (and always on macOS). A pointer
    into a table is its index. */
module SendHeaders {
  import opened Common
  import opened SockAddr
  import opened Batch

  const MAX_STACK := 64

  /** What `encode_sockaddr` writes for an address. The tables are built without
      looking into it. */
  type Encoder = e: SocketAddr -> seq<Byte> | forall a :: |e(a)| <= STORAGE_SIZE witness _ => []

  function UnixEncoder(h: Host): Encoder {
    a => Encoded(h, a)
  }

  /** `msg_name`: null, a table entry, or a local variable that is gone by the time
      of the system call. */
  datatype Name = Null | At(idx: nat) | Dead

  datatype Header = Header(name: Name, nameLen: nat, iov: Option<nat>)

  const ZERO_HEADER := Header(Null, 0, None)

  datatype Table = Table(headers: seq<Header>, iovecs: seq<seq<Byte>>, addrs: seq<Storage>)

  predicate NamesDestination(enc: Encoder, addrs: seq<Storage>, header: Header, addr: Option<SocketAddr>) {
    if addr.None? then
      header.name == Null && header.nameLen == 0
    else
      && header.nameLen == |enc(addr.value)|
      && header.name.At? && header.name.idx < |addrs|
      && addrs[header.name.idx][..header.nameLen] == enc(addr.value)
  }

  /** Header `i` names exactly this entry: its bytes and its encoded destination. */
  predicate Names(enc: Encoder, t: Table, i: nat, entry: SendEntry)
    requires i < |t.headers|
  {
    && t.headers[i].iov.Some? && t.headers[i].iov.value < |t.iovecs|
    && t.iovecs[t.headers[i].iov.value] == entry.data
    && NamesDestination(enc, t.addrs, t.headers[i], entry.addr)
  }

  // ------------------------------------------------------------------
  //  Stack path: addresses are packed into the table in order
  // ------------------------------------------------------------------

  method BuildOnStack(enc: Encoder, b: SendBatchRaw) returns (t: Table)
    requires b.Valid() && b.len <= MAX_STACK
    ensures |t.headers| == MAX_STACK
    ensures forall i | 0 <= i < b.len :: Names(enc, t, i, b.Contents()[i])
  {
    var msgs := new Header[MAX_STACK](_ => ZERO_HEADER);
    var iovecs := new seq<Byte>[MAX_STACK](_ => []);
    var addrs := new Storage[MAX_STACK](_ => Zeroed());
    var addrIdx := 0;
    ghost var entries := b.Contents();
    for i := 0 to b.len
      invariant addrIdx <= i
      invariant forall k | i <= k < MAX_STACK :: msgs[k] == ZERO_HEADER
      invariant forall k | 0 <= k < i :: msgs[k].iov == Some(k) && iovecs[k] == entries[k].data
      invariant forall k | 0 <= k < i :: NamesDestination(enc, addrs[..addrIdx], msgs[k], entries[k].addr)
    {
      ghost var packed, done := addrs[..addrIdx], msgs[..i];
      addrIdx := FillEntry(enc, b.Entry(i), msgs, iovecs, addrs, i, addrIdx);
      MoreAddresses(enc, packed, addrs[..addrIdx], done, entries);
    }
    t := Table(msgs[..], iovecs[..], addrs[..]);
    MoreAddresses(enc, addrs[..addrIdx], t.addrs, t.headers[..b.len], entries);
  }

  /** One iteration: entry `i` takes the next element of the address table if it needs one. */
  method FillEntry(enc: Encoder, entry: SendEntry, msgs: array<Header>, iovecs: array<seq<Byte>>,
                   addrs: array<Storage>, i: nat, addrIdx: nat) returns (next: nat)
    requires i < msgs.Length && i < iovecs.Length && addrIdx < addrs.Length
    requires msgs[i] == ZERO_HEADER
    modifies msgs, iovecs, addrs
    ensures msgs[..] == old(msgs[..])[i := msgs[i]] && iovecs[..] == old(iovecs[..])[i := entry.data]
    ensures addrs[..addrIdx] == old(addrs[..addrIdx]) && addrIdx <= next <= addrIdx + 1
    ensures msgs[i].iov == Some(i) && NamesDestination(enc, addrs[..next], msgs[i], entry.addr)
  {
    next := addrIdx;
    if entry.addr.Some? {
      addrs[addrIdx] := Overwrite(addrs[addrIdx], enc(entry.addr.value));
      msgs[i] := msgs[i].(name := At(addrIdx), nameLen := |enc(entry.addr.value)|);
      next := addrIdx + 1;
    }
    iovecs[i] := entry.data;
    msgs[i] := msgs[i].(iov := Some(i));
  }

  lemma {:induction false} MoreAddresses(enc: Encoder, few: seq<Storage>, many: seq<Storage>, headers: seq<Header>,
                                         entries: seq<SendEntry>)
    requires few <= many && |headers| <= |entries|
    requires forall k | 0 <= k < |headers| :: NamesDestination(enc, few, headers[k], entries[k].addr)
    ensures forall k | 0 <= k < |headers| :: NamesDestination(enc, many, headers[k], entries[k].addr)
  {
  }

  // ------------------------------------------------------------------
  //  Heap path: one address slot per entry, patched with a packed index
  // ------------------------------------------------------------------

  /** Number of addressed entries before `i`. */
  function Rank(entries: seq<SendEntry>, i: nat): (r: nat)
    requires i <= |entries|
    ensures r <= i
  {
    if i == 0 then 0 else Rank(entries, i - 1) + if entries[i - 1].addr.Some? then 1 else 0
  }

  function StorageOf(enc: Encoder, entry: SendEntry): Storage {
    if entry.addr.Some? then Overwrite(Zeroed(), enc(entry.addr.value)) else Zeroed()
  }

  function NameLen(enc: Encoder, entry: SendEntry): nat {
    if entry.addr.Some? then |enc(entry.addr.value)| else 0
  }

  predicate HeapTable(enc: Encoder, entries: seq<SendEntry>, t: Table) {
    && |t.headers| == |t.iovecs| == |t.addrs| == |entries|
    && (forall i | 0 <= i < |entries| :: t.iovecs[i] == entries[i].data)
    && (forall i | 0 <= i < |entries| :: t.addrs[i] == StorageOf(enc, entries[i]))
    && (forall i | 0 <= i < |entries| ::
          t.headers[i] == HeapHeader(enc, entries[i], At(Rank(entries, i)), i))
  }

  /** A heap header before (`Dead`) and after (`At`) the second pass has reached it. */
  function HeapHeader(enc: Encoder, entry: SendEntry, name: Name, i: nat): Header {
    Header(if entry.addr.Some? then name else Null, NameLen(enc, entry), Some(i))
  }

  /** First pass: one slot of every table per entry; the name pointers lead nowhere yet. */
  method PushTables(enc: Encoder, b: SendBatchRaw) returns (t: Table)
    requires b.Valid()
    ensures |t.headers| == |t.iovecs| == |t.addrs| == b.len
    ensures forall k | 0 <= k < b.len :: t.iovecs[k] == b.Contents()[k].data
    ensures forall k | 0 <= k < b.len :: t.addrs[k] == StorageOf(enc, b.Contents()[k])
    ensures forall k | 0 <= k < b.len :: t.headers[k] == HeapHeader(enc, b.Contents()[k], Dead, k)
  {
    var msgs: seq<Header>, iovecs: seq<seq<Byte>>, addrs: seq<Storage> := [], [], [];
    for i := 0 to b.len
      invariant |msgs| == |iovecs| == |addrs| == i
      invariant forall k | 0 <= k < i :: iovecs[k] == b.slots[k].data
      invariant forall k | 0 <= k < i :: addrs[k] == StorageOf(enc, b.slots[k])
      invariant forall k | 0 <= k < i :: msgs[k] == HeapHeader(enc, b.slots[k], Dead, k)
    {
      var entry := b.Entry(i);
      var storage, mhdr := Zeroed(), ZERO_HEADER;
      if entry.addr.Some? {
        storage := Overwrite(storage, enc(entry.addr.value));
        mhdr := mhdr.(name := Dead, nameLen := |enc(entry.addr.value)|);
      }
      addrs := addrs + [storage];
      iovecs := iovecs + [entry.data];
      msgs := msgs + [mhdr.(iov := Some(i))];
    }
    t := Table(msgs, iovecs, addrs);
  }

  /** Second pass: every pointer is set again, the names with a packed index. */
  method SetPointers(b: SendBatchRaw, pushed: seq<Header>) returns (msgs: seq<Header>)
    requires b.Valid() && |pushed| == b.len
    ensures |msgs| == b.len
    ensures forall k | 0 <= k < b.len :: msgs[k] == Pointed(b.Contents(), pushed[k], k)
  {
    msgs := pushed;
    var addrIdx := 0;
    ghost var entries := b.Contents();
    for i := 0 to |msgs|
      invariant |msgs| == b.len && addrIdx == Rank(entries, i)
      invariant forall k | 0 <= k < i :: msgs[k] == Pointed(entries, pushed[k], k)
      invariant forall k | i <= k < |msgs| :: msgs[k] == pushed[k]
    {
      msgs := msgs[i := msgs[i].(iov := Some(i))];
      if b.Entry(i).addr.Some? {
        msgs := msgs[i := msgs[i].(name := At(addrIdx))];
        addrIdx := addrIdx + 1;
      }
    }
  }

  function Pointed(entries: seq<SendEntry>, header: Header, i: nat): Header
    requires i < |entries|
  {
    Header(if entries[i].addr.Some? then At(Rank(entries, i)) else header.name, header.nameLen, Some(i))
  }

  method BuildOnHeap(enc: Encoder, b: SendBatchRaw) returns (t: Table)
    requires b.Valid()
    ensures HeapTable(enc, b.Contents(), t)
  {
    var pushed := PushTables(enc, b);
    var msgs := SetPointers(b, pushed.headers);
    t := Table(msgs, pushed.iovecs, pushed.addrs);
  }

  /** The packed index lands on the entry's own destination, or on an equal one. */
  predicate NamedByRank(entries: seq<SendEntry>, i: nat)
    requires i < |entries|
  {
    entries[i].addr.None? || entries[Rank(entries, i)].addr == entries[i].addr
  }

  predicate RankExact(entries: seq<SendEntry>) {
    forall i | 0 <= i < |entries| :: NamedByRank(entries, i)
  }

  /** Exactly which headers of the heap table name their own entry. */
  lemma {:induction false} HeapNamesIffRank(h: Host, entries: seq<SendEntry>, t: Table, i: nat)
    requires HeapTable(UnixEncoder(h), entries, t) && i < |entries|
    ensures Names(UnixEncoder(h), t, i, entries[i]) <==> NamedByRank(entries, i)
  {
    if entries[i].addr.Some? {
      var a, other := entries[i].addr.value, entries[Rank(entries, i)];
      var storage := StorageOf(UnixEncoder(h), other);
      assert t.addrs[Rank(entries, i)] == storage;
      if other.addr.None? {
        ZeroedEncodesNothing(h, a);
      } else {
        var b := other.addr.value;
        assert storage[..|Encoded(h, b)|] == Encoded(h, b);
        if storage[..|Encoded(h, a)|] == Encoded(h, a) {
          EncodingsAreDistinct(h, a, b, storage);
        }
      }
    }
  }

  /** Addressed entries come before entries without destination. */
  predicate AddressedFirst(entries: seq<SendEntry>) {
    forall i, j | 0 <= i < j < |entries| :: entries[j].addr.Some? ==> entries[i].addr.Some?
  }

  predicate SameAddressing(a: seq<SendEntry>, b: seq<SendEntry>) {
    |a| == |b| && forall i | 0 <= i < |a| :: a[i].addr.Some? == b[i].addr.Some?
  }

  /** The heap path is right for every choice of destinations exactly when no entry
      without destination precedes an addressed one. */
  lemma {:induction false} HeapExactIffAddressedFirst(entries: seq<SendEntry>)
    ensures AddressedFirst(entries) <==> forall other :: SameAddressing(entries, other) ==> RankExact(other)
  {
    if AddressedFirst(entries) {
      forall other | SameAddressing(entries, other) ensures RankExact(other) {
        AddressedFirstIsRankExact(other);
      }
    } else {
      var other, j := AddressedLaterFails(entries);
    }
  }

  /** Destinations that go wrong when an entry without one comes before an addressed one. */
  lemma {:induction false} AddressedLaterFails(entries: seq<SendEntry>) returns (other: seq<SendEntry>, j: nat)
    requires !AddressedFirst(entries)
    ensures SameAddressing(entries, other) && j < |other| && !NamedByRank(other, j)
    ensures other[j].addr != Some(UNSPECIFIED)
  {
    var i, last :| 0 <= i < last < |entries| && entries[last].addr.Some? && entries[i].addr.None?;
    RankBelow(entries, i, last);
    other, j := Distinct(entries, last), last;
    RankOfSameAddressing(entries, other, j);
  }

  lemma {:induction false} AddressedFirstIsRankExact(entries: seq<SendEntry>)
    requires AddressedFirst(entries)
    ensures RankExact(entries)
  {
    forall i | 0 <= i < |entries| ensures NamedByRank(entries, i) {
      if entries[i].addr.Some? {
        RankOfPrefix(entries, i);
      }
    }
  }

  lemma {:induction false} RankOfPrefix(entries: seq<SendEntry>, i: nat)
    requires i <= |entries| && forall k | 0 <= k < i :: entries[k].addr.Some?
    ensures Rank(entries, i) == i
  {
    if i > 0 {
      RankOfPrefix(entries, i - 1);
    }
  }

  lemma {:induction false} RankBelow(entries: seq<SendEntry>, i: nat, j: nat)
    requires i < j <= |entries| && entries[i].addr.None?
    ensures Rank(entries, j) < j
    decreases j
  {
    if i < j - 1 {
      RankBelow(entries, i, j - 1);
    }
  }

  lemma {:induction false} RankOfSameAddressing(a: seq<SendEntry>, b: seq<SendEntry>, i: nat)
    requires SameAddressing(a, b) && i <= |a|
    ensures Rank(a, i) == Rank(b, i)
  {
    if i > 0 {
      RankOfSameAddressing(a, b, i - 1);
    }
  }

  /** The same entries with one destination for `j` and another for everyone else. */
  function Distinct(entries: seq<SendEntry>, j: nat): (r: seq<SendEntry>)
    ensures SameAddressing(entries, r)
  {
    seq(|entries|, i requires 0 <= i < |entries| =>
      if entries[i].addr.None? then entries[i]
      else SendEntry(entries[i].data, Some(V4([127, 0, 0, 1], if i == j then 1 else 2))))
  }

  // ------------------------------------------------------------------
  //  What the kernel reads
  // ------------------------------------------------------------------

  /** A datagram on the wire; no destination means the connected peer. */
  datatype Packet = Packet(data: seq<Byte>, dest: Option<SocketAddr>)

  function AsPackets(entries: seq<SendEntry>): (r: seq<Packet>)
    ensures |r| == |entries|
  {
    seq(|entries|, i requires 0 <= i < |entries| => Packet(entries[i].data, entries[i].addr))
  }

  predicate Readable(t: Table, i: nat) {
    && i < |t.headers|
    && t.headers[i].iov.Some? && t.headers[i].iov.value < |t.iovecs|
    && (t.headers[i].name.Null? || (t.headers[i].name.At? && t.headers[i].name.idx < |t.addrs|))
  }

  function NamedPacket(h: Host, t: Table, i: nat): Packet
    requires Readable(t, i)
  {
    var header := t.headers[i];
    Packet(t.iovecs[header.iov.value],
           if header.name.Null? then None
           else Some(DecodeSockaddr(h, t.addrs[header.name.idx], header.nameLen)))
  }

  lemma {:induction false} NamedPacketIsEntry(h: Host, t: Table, i: nat, entry: SendEntry)
    requires i < |t.headers| && Names(UnixEncoder(h), t, i, entry)
    ensures Readable(t, i) && NamedPacket(h, t, i) == Packet(entry.data, entry.addr)
  {
    if entry.addr.Some? {
      RoundTrip(h, entry.addr.value, t.addrs[t.headers[i].name.idx]);
    }
  }

  /** The kernel reads the entries out of a table whose headers name them. */
  lemma {:induction false} NamesAreRead(h: Host, entries: seq<SendEntry>, t: Table)
    requires |entries| <= |t.headers|
    requires forall i | 0 <= i < |entries| :: Names(UnixEncoder(h), t, i, entries[i])
    ensures forall i | 0 <= i < |entries| :: Readable(t, i) && NamedPacket(h, t, i) == AsPackets(entries)[i]
  {
    forall i | 0 <= i < |entries| ensures Readable(t, i) && NamedPacket(h, t, i) == AsPackets(entries)[i] {
      NamedPacketIsEntry(h, t, i, entries[i]);
    }
  }

  // ----- what it reads out of a heap table -----

  /** The destination found in an entry's element of the address table. An element left
      zeroed has no family and reads as 0.0.0.0:0. */
  function StoredDestination(entry: SendEntry): SocketAddr {
    if entry.addr.Some? then entry.addr.value else UNSPECIFIED
  }

  /** Every addressed entry goes to the destination stored at its rank. */
  function HeapPackets(entries: seq<SendEntry>): (r: seq<Packet>)
    ensures |r| == |entries|
  {
    seq(|entries|, i requires 0 <= i < |entries| =>
      Packet(entries[i].data,
             if entries[i].addr.None? then None else Some(StoredDestination(entries[Rank(entries, i)]))))
  }

  /** No dead pointer is left in a heap table, and this is how it is read. */
  lemma {:induction false} HeapTableIsRead(h: Host, entries: seq<SendEntry>, t: Table)
    requires HeapTable(UnixEncoder(h), entries, t)
    ensures forall i | 0 <= i < |entries| :: Readable(t, i) && NamedPacket(h, t, i) == HeapPackets(entries)[i]
  {
    forall i | 0 <= i < |entries| ensures Readable(t, i) && NamedPacket(h, t, i) == HeapPackets(entries)[i] {
      if entries[i].addr.Some? {
        StorageIsRead(h, entries[Rank(entries, i)], entries[i].addr.value);
      }
    }
  }

  /** The kernel is told the length of the entry's own address, whatever lies there. */
  lemma {:induction false} StorageIsRead(h: Host, entry: SendEntry, own: SocketAddr)
    ensures DecodeSockaddr(h, StorageOf(UnixEncoder(h), entry), |Encoded(h, own)|) == StoredDestination(entry)
  {
    if entry.addr.Some? {
      EncodedIffDecoded(h, entry.addr.value, StorageOf(UnixEncoder(h), entry), |Encoded(h, own)|);
    } else {
      ZeroedEncodesNothing(h, own);
    }
  }

  /** Entry `i` is sent where it should: its rank finds its destination, or an element
      that reads as 0.0.0.0:0 when that is the destination. */
  predicate SentByRank(entries: seq<SendEntry>, i: nat)
    requires i < |entries|
  {
    NamedByRank(entries, i) || (entries[Rank(entries, i)].addr.None? && entries[i].addr == Some(UNSPECIFIED))
  }

  /** Exactly how much of what is sent are the entries. */
  lemma {:induction false} HeapPrefixIffRanks(entries: seq<SendEntry>, k: nat)
    requires k <= |entries|
    ensures HeapPackets(entries)[..k] == AsPackets(entries)[..k] <==> forall i | 0 <= i < k :: SentByRank(entries, i)
  {
    forall i | 0 <= i < k
      ensures HeapPackets(entries)[..k][i] == AsPackets(entries)[..k][i] <==> SentByRank(entries, i)
    {
    }
  }

  /** The heap path sends every choice of destinations right exactly when no entry
      without destination precedes an addressed one. */
  lemma {:induction false} HeapSendsExactlyIffAddressedFirst(entries: seq<SendEntry>)
    ensures AddressedFirst(entries) <==>
            forall other :: SameAddressing(entries, other) ==> HeapPackets(other) == AsPackets(other)
  {
    if AddressedFirst(entries) {
      forall other | SameAddressing(entries, other) ensures HeapPackets(other) == AsPackets(other) {
        AddressedFirstIsRankExact(other);
        assert forall i | 0 <= i < |other| :: NamedByRank(other, i) ==> HeapPackets(other)[i] == AsPackets(other)[i];
      }
    } else {
      var other, j := AddressedLaterFails(entries);
      assert HeapPackets(other)[j] != AsPackets(other)[j];
    }
  }

  /** One entry without destination, put first in a batch of any length, sends the next
      one to 0.0.0.0:0 and every later one to the peer of its predecessor. */
  lemma {:induction false} ConnectedEntryFirstShiftsPeers(entries: seq<SendEntry>)
    requires |entries| >= 2 && entries[0].addr.None?
    requires forall i | 1 <= i < |entries| :: entries[i].addr.Some?
    ensures HeapPackets(entries)[1].dest == Some(UNSPECIFIED)
    ensures forall i | 2 <= i < |entries| :: HeapPackets(entries)[i].dest == entries[i - 1].addr
  {
    RankAfterFirst(entries, 1);
    forall i | 2 <= i < |entries| ensures HeapPackets(entries)[i].dest == entries[i - 1].addr {
      RankAfterFirst(entries, i);
    }
  }

  lemma {:induction false} RankAfterFirst(entries: seq<SendEntry>, i: nat)
    requires 1 <= i <= |entries| && entries[0].addr.None?
    requires forall k | 1 <= k < i :: entries[k].addr.Some?
    ensures Rank(entries, i) == i - 1
  {
    if i > 1 {
      RankAfterFirst(entries, i - 1);
    } else {
      assert Rank(entries, 0) == 0;
    }
  }

  /** The element entry `i` is sent by was never written. */
  predicate ReadsZeroed(entries: seq<SendEntry>, i: nat)
    requires i < |entries|
  {
    entries[i].addr.Some? && entries[Rank(entries, i)].addr.None?
  }

  /** As long as every entry is named right, addressed entries have come first, and the
      rank is where they end. */
  lemma {:induction false} RankEndsAddressed(entries: seq<SendEntry>, j: nat)
    requires j <= |entries| && forall i | 0 <= i < j :: NamedByRank(entries, i)
    ensures forall i | 0 <= i < j :: entries[i].addr.Some? <==> i < Rank(entries, j)
  {
    if j > 0 {
      RankEndsAddressed(entries, j - 1);
      assert NamedByRank(entries, j - 1);
    }
  }

  /** The first entry that is not named right reads an element that was never written, and
      an entry without destination comes before it. */
  lemma {:induction false} FirstMisnamedReadsZeroed(entries: seq<SendEntry>, j: nat)
    requires j < |entries| && !NamedByRank(entries, j) && forall i | 0 <= i < j :: NamedByRank(entries, i)
    ensures ReadsZeroed(entries, j) && Rank(entries, j) < j
  {
    RankEndsAddressed(entries, j);
  }

  /** Packets go astray only behind one that was sent by a zeroed element, and only behind
      one without destination. */
  lemma {:induction false} AstrayOnlyAfterZeroed(entries: seq<SendEntry>, k: nat)
    requires k <= |entries| && HeapPackets(entries)[..k] != AsPackets(entries)[..k]
    ensures exists i :: 0 <= i < k && ReadsZeroed(entries, i)
    ensures exists i :: 0 <= i < k && entries[i].addr.None?
  {
    HeapPrefixIffRanks(entries, k);
    var j :| 0 <= j < k && !SentByRank(entries, j);
    var first := FirstMisnamed(entries, j);
    FirstMisnamedReadsZeroed(entries, first);
    assert entries[Rank(entries, first)].addr.None?;
  }

  lemma {:induction false} FirstMisnamed(entries: seq<SendEntry>, j: nat) returns (first: nat)
    requires j < |entries| && !NamedByRank(entries, j)
    ensures first <= j && !NamedByRank(entries, first) && forall i | 0 <= i < first :: NamedByRank(entries, i)
  {
    if i :| 0 <= i < j && !NamedByRank(entries, i) {
      first := FirstMisnamed(entries, i);
    } else {
      first := j;
    }
  }

  /** The third of three packets goes to the second one's peer. */
  lemma {:induction false} ThirdPacketGoesAstray(x: seq<Byte>, y: seq<Byte>, z: seq<Byte>, a: SocketAddr, b: SocketAddr)
    ensures HeapPackets([SendEntry(x, None), SendEntry(y, Some(a)), SendEntry(z, Some(b))])[2] == Packet(z, Some(a))
  {
    ConnectedEntryFirstShiftsPeers([SendEntry(x, None), SendEntry(y, Some(a)), SendEntry(z, Some(b))]);
  }
}
