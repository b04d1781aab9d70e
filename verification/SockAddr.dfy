/** The C socket-address codec of src/sockaddr/unix.rs, byte by byte, for both
    host byte orders and for the Linux and macOS structure layouts. */
module SockAddr {
  import opened Common

  datatype Endian = Little | Big

  datatype Os = Linux | MacOs

  /** The host decides how integers and the address family lie in memory. */
  datatype Host = Host(os: Os, endian: Endian)

  type Octets4 = s: seq<Byte> | |s| == 4 witness [0, 0, 0, 0]
  type Octets16 = s: seq<Byte> | |s| == 16 witness [0, 0, 0, 0, 0, 0, 0, 0, 0, 0, 0, 0, 0, 0, 0, 0]

  datatype SocketAddr =
    | V4(ip4: Octets4, port: U16)
    | V6(ip6: Octets16, port: U16, flowinfo: U32, scopeId: U32)

  const UNSPECIFIED := V4([0, 0, 0, 0], 0)

  /** sizeof(sockaddr_storage) */
  const STORAGE_SIZE := 128

  type Storage = s: seq<Byte> | |s| == STORAGE_SIZE witness seq(STORAGE_SIZE, _ => 0)

  /** `mem::zeroed()` */
  function Zeroed(): Storage {
    seq(STORAGE_SIZE, _ => 0)
  }

  const AF_INET: Byte := 2

  function AfInet6(os: Os): Byte {
    if os.Linux? then 10 else 30
  }

  // ----- integers in memory -----

  /** The `n` lowest base-256 digits of `x`, lowest first. */
  function Digits(x: nat, n: nat): (b: seq<Byte>)
    ensures |b| == n
  {
    if n == 0 then [] else [x % 0x100] + Digits(x / 0x100, n - 1)
  }

  function Number(b: seq<Byte>): (x: nat)
    ensures x < Pow256(|b|)
  {
    if b == [] then 0 else b[0] + 0x100 * Number(b[1..])
  }

  function Pow256(n: nat): nat {
    if n == 0 then 1 else 0x100 * Pow256(n - 1)
  }

  function Reversed(b: seq<Byte>): (r: seq<Byte>)
    ensures |r| == |b|
  {
    seq(|b|, i requires 0 <= i < |b| => b[|b| - 1 - i])
  }

  /** The bytes of a native integer of `n` bytes, lowest address first. */
  function Store(e: Endian, x: nat, n: nat): (b: seq<Byte>)
    ensures |b| == n
  {
    if e.Little? then Digits(x, n) else Reversed(Digits(x, n))
  }

  function Load(e: Endian, b: seq<Byte>): (x: nat)
    ensures x < Pow256(|b|)
  {
    if e.Little? then Number(b) else Number(Reversed(b))
  }

  function Load16(e: Endian, b: seq<Byte>): U16
    requires |b| == 2
  {
    assert Pow256(2) == 0x1_0000;
    Load(e, b)
  }

  function Load32(e: Endian, b: seq<Byte>): U32
    requires |b| == 4
  {
    assert Pow256(4) == 0x1_0000_0000;
    Load(e, b)
  }

  /** `to_be` and `from_be`: the same byte swap on a little-endian host. */
  function Swapped(e: Endian, x: nat, n: nat): (r: nat)
    ensures x < Pow256(n) ==> r < Pow256(n)
  {
    if e.Big? then x else Load(Big, Store(Little, x, n))
  }

  /** `u16::from_be` of the bytes of a port. */
  function LoadPort(e: Endian, b: seq<Byte>): U16
    requires |b| == 2
  {
    assert Pow256(2) == 0x1_0000;
    Swapped(e, Load(e, b), 2)
  }

  lemma {:induction false} NumberOfDigits(x: nat, n: nat)
    requires x < Pow256(n)
    ensures Number(Digits(x, n)) == x
  {
    if n > 0 {
      NumberOfDigits(x / 0x100, n - 1);
      assert Digits(x, n)[1..] == Digits(x / 0x100, n - 1);
    }
  }

  lemma {:induction false} DigitsOfNumber(b: seq<Byte>)
    ensures Digits(Number(b), |b|) == b
  {
    if b != [] {
      DigitsOfNumber(b[1..]);
      LowDigit(b[0], Number(b[1..]));
    }
  }

  lemma {:induction false} LowDigit(low: Byte, high: nat)
    ensures (low + 0x100 * high) % 0x100 == low && (low + 0x100 * high) / 0x100 == high
  {
  }

  lemma {:induction false} ReversedTwice(b: seq<Byte>)
    ensures Reversed(Reversed(b)) == b
  {
  }

  /** Reading an integer back from memory, on either host. */
  lemma {:induction false} LoadOfStore(e: Endian, x: nat, n: nat)
    requires x < Pow256(n)
    ensures Load(e, Store(e, x, n)) == x
  {
    NumberOfDigits(x, n);
    ReversedTwice(Digits(x, n));
  }

  lemma {:induction false} StoreOfLoad(e: Endian, b: seq<Byte>)
    ensures Store(e, Load(e, b), |b|) == b
  {
    if e.Little? {
      DigitsOfNumber(b);
    } else {
      DigitsOfNumber(Reversed(b));
      ReversedTwice(b);
    }
  }

  /** What is swapped before it is stored lies in memory in network order ... */
  lemma {:induction false} SwappedIsNetworkOrder(e: Endian, x: nat, n: nat)
    ensures Store(e, Swapped(e, x, n), n) == Store(Big, x, n)
  {
    if e.Little? {
      DigitsOfNumber(Reversed(Digits(x, n)));
    }
  }

  /** ... and what is swapped after it is loaded was in network order. */
  lemma {:induction false} NetworkOrderIsSwapped(e: Endian, b: seq<Byte>)
    ensures Swapped(e, Load(e, b), |b|) == Load(Big, b)
  {
    StoreOfLoad(e, b);
  }

  // ----- encode -----

  /** The family field, preceded on macOS by the length byte the code leaves zero. */
  function FamilyBytes(h: Host, family: Byte): (b: seq<Byte>)
    ensures |b| == 2
  {
    if h.os.Linux? then Store(h.endian, family, 2) else [0, family]
  }

  const SIN_ZERO: seq<Byte> := [0, 0, 0, 0, 0, 0, 0, 0]

  /** The bytes of the `sockaddr_in` or `sockaddr_in6` that the encoder writes. */
  function Encoded(h: Host, addr: SocketAddr): (b: seq<Byte>)
    ensures |b| == if addr.V4? then 16 else 28
  {
    match addr
    case V4(ip, port) =>
      FamilyBytes(h, AF_INET) + Store(h.endian, Swapped(h.endian, port, 2), 2)
      + Store(h.endian, Load(h.endian, ip), 4) + SIN_ZERO
    case V6(ip, port, flowinfo, scopeId) =>
      FamilyBytes(h, AfInet6(h.os)) + Store(h.endian, Swapped(h.endian, port, 2), 2)
      + Store(h.endian, flowinfo, 4) + ip + Store(h.endian, scopeId, 4)
  }

  /** A whole storage after the encoder has written the start of it. */
  function EncodedInto(h: Host, addr: SocketAddr, previous: Storage): Storage {
    Overwrite(previous, Encoded(h, addr))
  }

  /** `encode_sockaddr`: writes the caller's storage in place. */
  method EncodeSockaddr(h: Host, addr: SocketAddr, storage: array<Byte>) returns (len: nat)
    requires storage.Length == STORAGE_SIZE
    modifies storage
    ensures len == if addr.V4? then 16 else 28
    ensures storage[..] == EncodedInto(h, addr, old(storage[..]))
    ensures storage[len..] == old(storage[len..])
    ensures InNetworkOrder(addr, storage[..])
    ensures DecodeSockaddr(h, storage[..], len) == addr
  {
    var raw := Encoded(h, addr);
    len := |raw|;
    forall i | 0 <= i < |raw| {
      storage[i] := raw[i];
    }
    assert storage[..len] == raw;
    RoundTrip(h, addr, storage[..]);
    NetworkOrder(h, addr, storage[..]);
  }

  // ----- decode -----

  function Family(h: Host, storage: Storage): U16 {
    if h.os.Linux? then Load16(h.endian, storage[0..2]) else storage[1]
  }

  /** `decode_sockaddr` */
  function DecodeSockaddr(h: Host, storage: Storage, len: nat): SocketAddr {
    if len == 0 then
      UNSPECIFIED
    else if Family(h, storage) == AF_INET then
      V4(Store(Big, Swapped(h.endian, Load(h.endian, storage[4..8]), 4), 4), LoadPort(h.endian, storage[2..4]))
    else if Family(h, storage) == AfInet6(h.os) then
      V6(storage[8..24], LoadPort(h.endian, storage[2..4]),
         Load32(h.endian, storage[4..8]), Load32(h.endian, storage[24..28]))
    else
      UNSPECIFIED
  }

  // ----- field by field -----

  lemma {:induction false} Parts(s: seq<Byte>, lo: nat, mid: nat, hi: nat, a: seq<Byte>, b: seq<Byte>)
    requires lo <= mid <= hi <= |s| && |a| == mid - lo && |b| == hi - mid
    ensures s[lo..hi] == a + b <==> s[lo..mid] == a && s[mid..hi] == b
  {
    assert s[lo..hi] == s[lo..mid] + s[mid..hi];
    assert (a + b)[..|a|] == a && (a + b)[|a|..] == b;
  }

  lemma {:induction false} LoadIff(e: Endian, b: seq<Byte>, x: nat)
    requires x < Pow256(|b|)
    ensures Load(e, b) == x <==> b == Store(e, x, |b|)
  {
    StoreOfLoad(e, b);
    LoadOfStore(e, x, |b|);
  }

  lemma {:induction false} FamilyIff(h: Host, family: Byte, s: Storage)
    ensures s[0..2] == FamilyBytes(h, family) <==> Family(h, s) == family && (h.os.MacOs? ==> s[0] == 0)
  {
    assert Pow256(2) == 0x1_0000;
    LoadIff(h.endian, s[0..2], family);
  }

  lemma {:induction false} PortIff(e: Endian, port: U16, b: seq<Byte>)
    requires |b| == 2
    ensures b == Store(e, Swapped(e, port, 2), 2) <==> LoadPort(e, b) == port
  {
    assert Pow256(2) == 0x1_0000;
    SwappedIsNetworkOrder(e, port, 2);
    NetworkOrderIsSwapped(e, b);
    LoadIff(Big, b, port);
  }

  lemma {:induction false} Ip4Iff(e: Endian, ip: Octets4, b: Octets4)
    ensures Store(e, Load(e, ip), 4) == ip
    ensures Store(Big, Swapped(e, Load(e, b), 4), 4) == b
  {
    StoreOfLoad(e, ip);
    StoreOfLoad(Big, b);
    NetworkOrderIsSwapped(e, b);
  }

  lemma {:induction false} WordIff(e: Endian, x: U32, b: seq<Byte>)
    requires |b| == 4
    ensures b == Store(e, x, 4) <==> Load32(e, b) == x
  {
    assert Pow256(4) == 0x1_0000_0000;
    LoadIff(e, b, x);
  }

  // ----- laws -----

  function FamilyOf(h: Host, addr: SocketAddr): Byte {
    if addr.V4? then AF_INET else AfInet6(h.os)
  }

  predicate StartsWith(h: Host, addr: SocketAddr, s: Storage) {
    s[..|Encoded(h, addr)|] == Encoded(h, addr)
  }

  /** The bytes no address accounts for: the length byte of macOS, the padding of
      an IPv4 structure. The encoder leaves them zero, the decoder does not look. */
  predicate PaddingZero(h: Host, addr: SocketAddr, s: Storage) {
    (h.os.MacOs? ==> s[0] == 0) && (addr.V4? ==> s[8..16] == SIN_ZERO)
  }

  lemma {:induction false} StartsWithV4(h: Host, ip: Octets4, port: U16, s: Storage)
    ensures StartsWith(h, V4(ip, port), s) <==>
            && s[0..2] == FamilyBytes(h, AF_INET) && s[2..4] == Store(h.endian, Swapped(h.endian, port, 2), 2)
            && s[4..8] == ip && s[8..16] == SIN_ZERO
  {
    var e := h.endian;
    var f, p, w := FamilyBytes(h, AF_INET), Store(e, Swapped(e, port, 2), 2), Store(e, Load(e, ip), 4);
    Ip4Iff(e, ip, ip);
    Parts(s, 0, 8, 16, f + p + w, SIN_ZERO);
    Parts(s, 0, 4, 8, f + p, w);
    Parts(s, 0, 2, 4, f, p);
  }

  lemma {:induction false} StartsWithV6(h: Host, ip: Octets16, port: U16, flow: U32, scope: U32, s: Storage)
    ensures StartsWith(h, V6(ip, port, flow, scope), s) <==>
            && s[0..2] == FamilyBytes(h, AfInet6(h.os)) && s[2..4] == Store(h.endian, Swapped(h.endian, port, 2), 2)
            && s[4..8] == Store(h.endian, flow, 4) && s[8..24] == ip && s[24..28] == Store(h.endian, scope, 4)
  {
    var e := h.endian;
    var f, p, w := FamilyBytes(h, AfInet6(h.os)), Store(e, Swapped(e, port, 2), 2), Store(e, flow, 4);
    Parts(s, 0, 24, 28, f + p + w + ip, Store(e, scope, 4));
    Parts(s, 0, 8, 24, f + p + w, ip);
    Parts(s, 0, 4, 8, f + p, w);
    Parts(s, 0, 2, 4, f, p);
  }

  /** Encoder and decoder determine each other: a storage starts with an address's
      encoding exactly when it decodes to that address, with its family, and is zero
      where the structure has no field of the address. */
  lemma {:induction false} EncodedIffDecoded(h: Host, addr: SocketAddr, s: Storage, len: nat)
    requires len > 0
    ensures StartsWith(h, addr, s) <==>
            Family(h, s) == FamilyOf(h, addr) && DecodeSockaddr(h, s, len) == addr && PaddingZero(h, addr, s)
  {
    FamilyIff(h, FamilyOf(h, addr), s);
    PortIff(h.endian, addr.port, s[2..4]);
    match addr {
      case V4(ip, port) =>
        StartsWithV4(h, ip, port, s);
        Ip4Iff(h.endian, ip, s[4..8]);
      case V6(ip, port, flow, scope) =>
        StartsWithV6(h, ip, port, flow, scope, s);
        WordIff(h.endian, flow, s[4..8]);
        WordIff(h.endian, scope, s[24..28]);
    }
  }

  predicate InNetworkOrder(addr: SocketAddr, s: Storage) {
    && s[2..4] == [addr.port / 0x100, addr.port % 0x100]
    && (if addr.V4? then s[4..8] == addr.ip4 else s[8..24] == addr.ip6)
  }

  /** Port and address lie in memory in network order on every host. */
  lemma {:induction false} NetworkOrder(h: Host, addr: SocketAddr, s: Storage)
    requires StartsWith(h, addr, s)
    ensures InNetworkOrder(addr, s)
  {
    SwappedIsNetworkOrder(h.endian, addr.port, 2);
    PortBytes(addr.port);
    match addr {
      case V4(ip, port) => StartsWithV4(h, ip, port, s);
      case V6(ip, port, flow, scope) => StartsWithV6(h, ip, port, flow, scope, s);
    }
  }

  /** The value of four bytes in memory. */
  function Word(e: Endian, b0: Byte, b1: Byte, b2: Byte, b3: Byte): nat {
    if e.Little? then b0 + 0x100 * b1 + 0x1_0000 * b2 + 0x100_0000 * b3
    else b3 + 0x100 * b2 + 0x1_0000 * b1 + 0x100_0000 * b0
  }

  lemma {:induction false} NumberOfFour(b: seq<Byte>)
    requires |b| == 4
    ensures Number(b) == Word(Little, b[0], b[1], b[2], b[3])
  {
    assert Number(b[1..]) == b[1] + 0x100 * Number(b[1..][1..]);
    assert b[1..][1..] == b[2..];
    assert Number(b[2..]) == b[2] + 0x100 * Number(b[2..][1..]);
    assert b[2..][1..] == [b[3]];
    assert Number([b[3]]) == b[3];
  }

  lemma {:induction false} WordAt(e: Endian, s: Storage, i: nat, x: U32)
    requires i + 4 <= STORAGE_SIZE && s[i..i + 4] == Store(e, x, 4)
    ensures Word(e, s[i], s[i + 1], s[i + 2], s[i + 3]) == x
  {
    var b := s[i..i + 4];
    WordIff(e, x, b);
    NumberOfFour(b);
    NumberOfFour(Reversed(b));
  }

  /** The other fields of section 3.3 of RFC 3493 and of `sockaddr_in`, in numbers: the family
      in host order (after a zero length byte on macOS), flow info and scope id in host order. */
  lemma {:induction false} HostFields(h: Host, addr: SocketAddr, s: Storage)
    requires StartsWith(h, addr, s)
    ensures var family := if addr.V4? then 2 else if h.os.Linux? then 10 else 30;
            s[0..2] == if h.os.Linux? && h.endian.Little? then [family, 0] else [0, family]
    ensures addr.V4? ==> s[8..16] == [0, 0, 0, 0, 0, 0, 0, 0]
    ensures addr.V6? ==> Word(h.endian, s[4], s[5], s[6], s[7]) == addr.flowinfo
    ensures addr.V6? ==> Word(h.endian, s[24], s[25], s[26], s[27]) == addr.scopeId
  {
    match addr {
      case V4(ip, port) =>
        StartsWithV4(h, ip, port, s);
        PortBytes(2);
      case V6(ip, port, flow, scope) =>
        StartsWithV6(h, ip, port, flow, scope, s);
        WordAt(h.endian, s, 4, flow);
        WordAt(h.endian, s, 24, scope);
        PortBytes(10);
    }
  }

  lemma {:induction false} PortBytes(port: U16)
    ensures Store(Big, port, 2) == [port / 0x100, port % 0x100]
    ensures Store(Little, port, 2) == [port % 0x100, port / 0x100]
  {
    assert Digits(port / 0x100, 1) == [port / 0x100];
    assert Digits(port, 2) == [port % 0x100, port / 0x100];
  }

  /** Decoding reads back the encoded address whatever the rest of the storage holds. */
  lemma {:induction false} RoundTrip(h: Host, addr: SocketAddr, s: Storage)
    requires StartsWith(h, addr, s)
    ensures DecodeSockaddr(h, s, |Encoded(h, addr)|) == addr
  {
    EncodedIffDecoded(h, addr, s, |Encoded(h, addr)|);
  }

  /** A storage that starts with one address's encoding starts with no other's. */
  lemma {:induction false} EncodingsAreDistinct(h: Host, a: SocketAddr, b: SocketAddr, s: Storage)
    requires StartsWith(h, a, s) && StartsWith(h, b, s)
    ensures a == b
  {
    EncodedIffDecoded(h, a, s, 1);
    EncodedIffDecoded(h, b, s, 1);
  }

  /** The zeroed storage of an entry without destination encodes no address. */
  lemma {:induction false} ZeroedEncodesNothing(h: Host, a: SocketAddr)
    ensures !StartsWith(h, a, Zeroed())
    ensures DecodeSockaddr(h, Zeroed(), |Encoded(h, a)|) == UNSPECIFIED == V4([0, 0, 0, 0], 0)
  {
    assert Pow256(2) == 0x1_0000;
    assert Zeroed()[0..2] == [0, 0] == Digits(0, 2) == Reversed(Digits(0, 2));
    LoadIff(h.endian, Zeroed()[0..2], 0);
    EncodedIffDecoded(h, a, Zeroed(), 1);
  }

  /** The storage with those bytes set to zero. */
  function Unpadded(h: Host, addr: SocketAddr, s: Storage): (r: Storage)
    ensures PaddingZero(h, addr, r) && (PaddingZero(h, addr, s) ==> r == s)
  {
    seq(STORAGE_SIZE, i requires 0 <= i < STORAGE_SIZE =>
      if (h.os.MacOs? && i == 0) || (addr.V4? && 8 <= i < 16) then 0 else s[i])
  }

  lemma {:induction false} PaddingIsNotDecoded(h: Host, s: Storage, len: nat)
    ensures DecodeSockaddr(h, Unpadded(h, DecodeSockaddr(h, s, len), s), len) == DecodeSockaddr(h, s, len)
    ensures Family(h, Unpadded(h, DecodeSockaddr(h, s, len), s)) == Family(h, s)
  {
    var a := DecodeSockaddr(h, s, len);
    var r := Unpadded(h, a, s);
    assert h.os.Linux? ==> r[0..2] == s[0..2];
    assert r[2..4] == s[2..4] && r[4..8] == s[4..8];
    assert a.V6? ==> r[8..24] == s[8..24] && r[24..28] == s[24..28];
  }

  /** Encoding what a storage of a known family decodes to gives back the storage's
      start but for those bytes, and hence all of it exactly when they are zero. A
      storage of any other family, and every empty one, decodes to 0.0.0.0:0. */
  lemma {:induction false} EncodeAfterDecode(h: Host, s: Storage, len: nat)
    ensures var a := DecodeSockaddr(h, s, len);
            if len > 0 && (Family(h, s) == AF_INET || Family(h, s) == AfInet6(h.os)) then
              StartsWith(h, a, Unpadded(h, a, s)) && (StartsWith(h, a, s) <==> PaddingZero(h, a, s))
            else
              a == UNSPECIFIED
  {
    if len > 0 {
      var a := DecodeSockaddr(h, s, len);
      PaddingIsNotDecoded(h, s, len);
      EncodedIffDecoded(h, a, s, len);
      EncodedIffDecoded(h, a, Unpadded(h, a, s), len);
    }
  }
}
