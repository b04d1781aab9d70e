/** The reusable batch containers of src/batch.rs. */
module Batch {
  import opened Common
  import opened SockAddr

  // ------------------------------------------------------------------
  //  Send side
  // ------------------------------------------------------------------

  datatype SendEntry = SendEntry(data: seq<Byte>, addr: Option<SocketAddr>)

  datatype PushResult = Pushed | BatchFull(capacity: nat)

  /** A slot vector that only grows up to its allocation, and a logical length
      that `Clear` resets without dropping the slots. */
  class SendBatchRaw {
    /** `Vec::capacity` of the slot vector. */
    const capacity: nat
    var slots: seq<SendEntry>
    var len: nat

    ghost predicate Valid()
      reads this
    {
      len <= |slots| <= capacity
    }

    ghost function Contents(): seq<SendEntry>
      requires Valid()
      reads this
    {
      slots[..len]
    }

    /** `Vec::with_capacity` may allocate more than was asked for. */
    constructor WithCapacity(requested: nat, granted: nat)
      requires requested <= granted
      ensures Valid() && Contents() == [] && capacity == granted
    {
      capacity, slots, len := granted, [], 0;
    }

    method Push(data: seq<Byte>, addr: Option<SocketAddr>) returns (r: PushResult)
      requires Valid()
      modifies this
      ensures Valid()
      ensures r == if old(len) < capacity then Pushed else BatchFull(capacity)
      ensures r.Pushed? ==> Contents() == old(Contents()) + [SendEntry(data, addr)]
      ensures r.BatchFull? ==> slots == old(slots) && len == old(len)
    {
      if len >= capacity {
        return BatchFull(capacity);
      }
      var slot := SendEntry(data, addr);
      if |slots| <= len {
        slots := slots + [slot];
      } else {
        slots := slots[len := slot];
      }
      len := len + 1;
      return Pushed;
    }

    /** Reads a slot; past the logical length it still answers with the stale entry. */
    function Entry(idx: nat): (entry: SendEntry)
      requires Valid() && idx < |slots|
      reads this
      ensures idx < len ==> entry == Contents()[idx]
    {
      slots[idx]
    }

    method Clear()
      requires Valid()
      modifies this`len
      ensures Valid() && Contents() == []
    {
      len := 0;
    }

    /** Any sequence of pushes and clears leaves what the bounded sequence holds. */
    method Replay(ops: seq<SendOp>)
      requires Valid()
      modifies this
      ensures Valid()
      ensures Contents() == RunOps(capacity, old(Contents()), ops)
    {
      for i := 0 to |ops|
        invariant Valid()
        invariant Contents() == RunOps(capacity, old(Contents()), ops[..i])
      {
        match ops[i] {
          case PushOp(entry) => var _ := Push(entry.data, entry.addr);
          case ClearOp => Clear();
        }
        assert ops[..i + 1][..i] == ops[..i];
      }
      assert ops[..|ops|] == ops;
    }
  }

  datatype SendOp = PushOp(entry: SendEntry) | ClearOp

  /** The bounded sequence that `SendBatchRaw` refines. */
  function RunOps(capacity: nat, contents: seq<SendEntry>, ops: seq<SendOp>): seq<SendEntry> {
    if ops == [] then
      contents
    else
      var before := RunOps(capacity, contents, ops[..|ops| - 1]);
      match ops[|ops| - 1]
      case ClearOp => []
      case PushOp(entry) => if |before| < capacity then before + [entry] else before
  }

  function PushesSinceClear(ops: seq<SendOp>): seq<SendEntry> {
    if ops == [] then
      []
    else match ops[|ops| - 1]
      case ClearOp => []
      case PushOp(entry) => PushesSinceClear(ops[..|ops| - 1]) + [entry]
  }

  /** From empty, a batch holds the pushes since the last clear, cut at its capacity. */
  lemma {:induction false} ContentsArePushesSinceClear(capacity: nat, ops: seq<SendOp>)
    ensures RunOps(capacity, [], ops) == Take(PushesSinceClear(ops), capacity)
  {
    if ops != [] {
      ContentsArePushesSinceClear(capacity, ops[..|ops| - 1]);
    }
  }

  // ------------------------------------------------------------------
  //  Receive side
  // ------------------------------------------------------------------

  datatype Timestamp = Timestamp(sec: int, nsec: int)

  datatype RecvSlot = RecvSlot(buf: seq<Byte>, addr: SocketAddr, recvLen: U16,
                               timestamp: Option<Timestamp>, dstAddr: Option<SocketAddr>)
  {
    /** What `data` hands out for this slot. */
    function Data(): seq<Byte>
      requires recvLen <= |buf|
    {
      buf[..recvLen]
    }
  }

  predicate SlotsOk(slots: seq<RecvSlot>, bufSize: nat) {
    forall i | 0 <= i < |slots| :: |slots[i].buf| == bufSize && slots[i].recvLen <= bufSize
  }

  /** `n as u16` */
  function AsU16(n: nat): (r: U16)
    ensures r <= n
    ensures n < 0x1_0000 <==> r == n
  {
    n % 0x1_0000
  }

  class RecvBatchRaw {
    const bufSize: nat
    var slots: seq<RecvSlot>
    var len: nat

    /** Buffers keep their size and no stored length reaches past its buffer. */
    ghost predicate Valid()
      reads this
    {
      SlotsOk(slots, bufSize)
    }

    constructor WithCapacity(capacity: nat, bufSize: nat)
      ensures Valid() && len == 0 && this.bufSize == bufSize
      ensures |slots| == capacity
      ensures forall i | 0 <= i < capacity ::
                && slots[i].buf == seq(bufSize, _ => 0) && slots[i].addr == UNSPECIFIED && slots[i].recvLen == 0
                && slots[i].timestamp == None && slots[i].dstAddr == None
    {
      this.bufSize := bufSize;
      slots := seq(capacity, _ => RecvSlot(seq(bufSize, _ => 0), UNSPECIFIED, 0, None, None));
      len := 0;
    }

    function Capacity(): nat
      reads this
    {
      |slots|
    }

    method SetLen(n: nat)
      modifies this`len
      ensures len == n
    {
      len := n;
    }

    /** The unsafe setter: its caller owes `n` within the buffer; the cast may wrap. */
    method SetRecvLen(idx: nat, n: nat)
      requires Valid() && idx < |slots| && n <= bufSize
      modifies this`slots
      ensures Valid() && slots == old(slots)[idx := old(slots)[idx].(recvLen := AsU16(n))]
    {
      slots := slots[idx := slots[idx].(recvLen := AsU16(n))];
    }

    /** `*addr_out = addr` through `buffer_mut` */
    method SetAddr(idx: nat, addr: SocketAddr)
      requires Valid() && idx < |slots|
      modifies this`slots
      ensures Valid() && slots == old(slots)[idx := old(slots)[idx].(addr := addr)]
    {
      slots := slots[idx := slots[idx].(addr := addr)];
    }

    /** `buf[..n].copy_from_slice(bytes)` through `buffer_mut`, or a kernel write */
    method WriteBuffer(idx: nat, bytes: seq<Byte>)
      requires Valid() && idx < |slots| && |bytes| <= bufSize
      modifies this`slots
      ensures Valid() && slots == old(slots)[idx := old(slots)[idx].(buf := Overwrite(old(slots)[idx].buf, bytes))]
    {
      slots := slots[idx := slots[idx].(buf := Overwrite(slots[idx].buf, bytes))];
    }

    method SetTimestamp(idx: nat, ts: Option<Timestamp>)
      requires Valid() && idx < |slots|
      modifies this`slots
      ensures Valid() && slots == old(slots)[idx := old(slots)[idx].(timestamp := ts)]
    {
      slots := slots[idx := slots[idx].(timestamp := ts)];
    }

    method SetDstAddr(idx: nat, addr: Option<SocketAddr>)
      requires Valid() && idx < |slots|
      modifies this`slots
      ensures Valid() && slots == old(slots)[idx := old(slots)[idx].(dstAddr := addr)]
    {
      slots := slots[idx := slots[idx].(dstAddr := addr)];
    }

    /** `data`: in a valid batch the slice is always in range. */
    function Data(idx: nat): seq<Byte>
      requires Valid() && idx < |slots|
      reads this
    {
      slots[idx].Data()
    }

    method Clear()
      requires Valid()
      modifies this
      ensures Valid() && len == 0 && slots == Cleared(old(slots)) && |slots| == |old(slots)|
      ensures forall i | 0 <= i < |slots| ::
                && slots[i].recvLen == 0 && slots[i].timestamp == None && slots[i].dstAddr == None
                && slots[i].buf == old(slots)[i].buf && slots[i].addr == old(slots)[i].addr
    {
      len := 0;
      for i := 0 to |slots|
        invariant len == 0 && |slots| == |old(slots)|
        invariant slots[..i] == Cleared(old(slots))[..i] && slots[i..] == old(slots)[i..]
      {
        assert slots[i] == old(slots)[i..][0];
        slots := slots[i := slots[i].(recvLen := 0, timestamp := None, dstAddr := None)];
      }
      assert slots[..|slots|] == slots;
    }
  }

  /** Lengths and metadata reset, buffers and source addresses retained. */
  function Cleared(slots: seq<RecvSlot>): (r: seq<RecvSlot>)
    ensures |r| == |slots|
  {
    seq(|slots|, i requires 0 <= i < |slots| => slots[i].(recvLen := 0, timestamp := None, dstAddr := None))
  }
}
