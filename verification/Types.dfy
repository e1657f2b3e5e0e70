/** Shared vocabulary: machine integers, byte strings, addresses, and the two
    wrapper datatypes the Rust code uses for absent values and errors. */
module Types {

  type byte = x: int | 0 <= x < 0x100
  type u16 = x: int | 0 <= x < 0x1_0000
  type u32 = x: int | 0 <= x < 0x1_0000_0000
  type u64 = x: int | 0 <= x < 0x1_0000_0000_0000_0000
  type i64 = x: int | -0x8000_0000_0000_0000 <= x < 0x8000_0000_0000_0000

  const I64_MAX: i64 := 0x7FFF_FFFF_FFFF_FFFF
  const U64_MAX: u64 := 0xFFFF_FFFF_FFFF_FFFF

  type Bytes = seq<byte>

  /** A monotonic clock reading, in nanoseconds since the server started. */
  type Instant = nat

  const NANOS_PER_SECOND: nat := 1_000_000_000
  const NANOS_PER_MILLI: nat := 1_000_000

  /** A source address; the server only ever compares addresses for equality. */
  type Ip = nat

  datatype Endpoint = Endpoint(ip: Ip, port: u16)

  /** The hex form of a client id, under which the server files everything it
      knows about the client. */
  type ClientKey = string

  datatype Option<+T> = None | Some(value: T)

  datatype Result<+T, +E> = Ok(value: T) | Err(error: E)

  function Min(a: int, b: int): (m: int)
    ensures m <= a && m <= b && (m == a || m == b)
  {
    if a <= b then a else b
  }

  function Max(a: int, b: int): (m: int)
    ensures a <= m && b <= m && (m == a || m == b)
  {
    if a <= b then b else a
  }

  /** `Instant::duration_since`, which saturates at zero. */
  function Since(now: Instant, earlier: Instant): (d: nat)
    ensures earlier <= now ==> d == now - earlier
    ensures now < earlier ==> d == 0
  {
    if earlier <= now then now - earlier else 0
  }

  /** Clamp a sum to the largest i64, as `(a as i128 + b as i128).min(i64::MAX)` does. */
  function AddClamped(a: i64, b: u64): (r: i64)
    ensures a + b <= 0x7FFF_FFFF_FFFF_FFFF ==> r == a + b
    ensures a + b > 0x7FFF_FFFF_FFFF_FFFF ==> r == 0x7FFF_FFFF_FFFF_FFFF
  {
    Min(a + b, I64_MAX)
  }
}
