/** Machine-integer ranges and the small result types shared by every module. */
module Common {

  type Byte = x: int | 0 <= x < 0x100
  type U16 = x: int | 0 <= x < 0x1_0000
  type U32 = x: int | 0 <= x < 0x1_0000_0000

  datatype Option<+T> = None | Some(value: T)

  /** The `io::Error`s the library tells apart; every other errno is `Other`. */
  datatype IoError = WouldBlock | Interrupted | NoSys | Other(errno: int)

  datatype IoResult = Ok(count: nat) | Err(error: IoError)

  /** What the library was built for; on macOS the bulk calls are looked up at run time. */
  datatype Platform = OnLinux | OnMac(hasBulk: bool) | OnWindows | Elsewhere

  function Min(a: int, b: int): int {
    if a <= b then a else b
  }

  function Max(a: int, b: int): int {
    if a <= b then b else a
  }

  /** The first `n` elements, or all of them when there are fewer. */
  function Take<T>(s: seq<T>, n: nat): seq<T> {
    if n <= |s| then s[..n] else s
  }

  /** `Vec<u8>` contents after a prefix has been overwritten in place. */
  function Overwrite(buf: seq<Byte>, prefix: seq<Byte>): (r: seq<Byte>)
    requires |prefix| <= |buf|
    ensures |r| == |buf| && r[..|prefix|] == prefix && r[|prefix|..] == buf[|prefix|..]
  {
    prefix + buf[|prefix|..]
  }
}
