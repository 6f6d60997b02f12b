/** Shared vocabulary: machine integers, saturating arithmetic, results, and the bounded ring
    that the evidence list, the sampler and the runtime all use. */
module Common {

  datatype Option<+T> = None | Some(value: T)

  datatype Result<+T, +E> = Ok(value: T) | Err(error: E)

  const U32_MAX: nat := 0xFFFF_FFFF
  const U64_MAX: nat := 0xFFFF_FFFF_FFFF_FFFF
  /** The largest `Duration`, in nanoseconds: `u64::MAX` seconds and 999,999,999 nanoseconds. */
  const DURATION_MAX: nat := 18446744073709551615999999999

  type u8 = x: int | 0 <= x < 256
  type u32 = x: int | 0 <= x <= U32_MAX
  type u64 = x: int | 0 <= x <= U64_MAX
  type i32 = x: int | -0x8000_0000 <= x < 0x8000_0000
  type Duration = x: int | 0 <= x <= DURATION_MAX
  type Bytes = seq<u8>

  function Min(a: int, b: int): int {
    if a <= b then a else b
  }

  function Max(a: int, b: int): int {
    if a >= b then a else b
  }

  function SatAdd32(a: u32, b: u32): u32 {
    if a + b > U32_MAX then U32_MAX else a + b
  }

  function SatAdd64(a: u64, b: u64): u64 {
    if a + b > U64_MAX then U64_MAX else a + b
  }

  function SatAddDuration(a: Duration, b: Duration): Duration {
    if a + b > DURATION_MAX then DURATION_MAX else a + b
  }

  /** Saturating subtraction, for any of the unsigned types above. */
  function SatSub(a: nat, b: nat): (r: nat)
    ensures r <= a
  {
    if a < b then 0 else a - b
  }

  /** Whole milliseconds, saturating at 64 bits. */
  function Ms(d: Duration): u64 {
    Min(d / 1_000_000, U64_MAX)
  }

  /** The last `n` items of a list, or all of them when there are fewer. */
  function Last<T>(s: seq<T>, n: nat): seq<T>
  {
    if |s| <= n then s else s[|s| - n..]
  }

  /** Append to a ring of fixed capacity, evicting the oldest item when it is full. */
  function Push<T>(ring: seq<T>, item: T, capacity: nat): seq<T>
    requires 0 < capacity
  {
    if |ring| == capacity then ring[1..] + [item] else ring + [item]
  }

  /** A ring that holds the latest items still does after a push. */
  lemma PushKeepsLatest<T>(all: seq<T>, item: T, capacity: nat)
    requires 0 < capacity
    ensures Push(Last(all, capacity), item, capacity) == Last(all + [item], capacity)
  {
    var more := all + [item];
    if |all| < capacity {
      assert Last(more, capacity) == more;
    } else if |all| == capacity {
      assert more[1..] == all[1..] + [item];
    } else {
      var skipped: nat := |all| - capacity;
      assert all[skipped..][1..] == all[skipped + 1..];
      assert more[skipped + 1..] == all[skipped + 1..] + [item];
    }
  }
}
