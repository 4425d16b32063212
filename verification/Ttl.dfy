/**
  Lifetimes of set entries: 32-bit seconds in which 0 means "never expires", computed
  from DNS answers and from deadlines in nanoseconds.
 */
module Ttl {
  import opened Text

  newtype uint32 = x: int | 0 <= x < 0x1_0000_0000
  newtype int64 = x: int | -0x8000_0000_0000_0000 <= x < 0x8000_0000_0000_0000

  const MAX_UINT32: uint32 := 0xFFFF_FFFF
  const MAX_RECORD_TTL: uint32 := 86400
  const MAX_DEADLINE_TTL: uint32 := 604800
  const SECOND: int := 1_000_000_000

  function Min(a: int, b: int): int { if a <= b then a else b }

  function SaturatingAdd(a: uint32, b: uint32): (sum: uint32)
    ensures sum as int == Min(a as int + b as int, MAX_UINT32 as int)
  {
    if a > MAX_UINT32 - b then MAX_UINT32 else a + b
  }

  /** Never 0, so an answer from DNS never becomes permanent, and never below the
      configured extra time. */
  function FromRecord(recordTtl: uint32, additional: uint32): (ttl: uint32)
    ensures ttl != 0 && ttl >= additional
    ensures ttl as int <= additional as int + MAX_RECORD_TTL as int
    ensures recordTtl <= MAX_RECORD_TTL && 0 < recordTtl as int + additional as int <= MAX_UINT32 as int
            ==> ttl as int == recordTtl as int + additional as int
    ensures recordTtl > MAX_RECORD_TTL ==>
              ttl as int == Min(additional as int + MAX_RECORD_TTL as int, MAX_UINT32 as int)
    ensures additional as int + Min(recordTtl as int, MAX_RECORD_TTL as int) > MAX_UINT32 as int ==> ttl == MAX_UINT32
  {
    var capped := if recordTtl > MAX_RECORD_TTL then MAX_RECORD_TTL else recordTtl;
    var ttl := SaturatingAdd(capped, additional);
    if ttl == 0 then 1 else ttl
  }

  /** Two's complement wrap-around of 64-bit signed arithmetic. */
  function Wrap64(x: int): int64
  {
    ((x + 0x8000_0000_0000_0000) % 0x1_0000_0000_0000_0000 - 0x8000_0000_0000_0000) as int64
  }

  /** Division that truncates toward zero. */
  function Quotient(a: int, b: int): int
    requires b > 0
  {
    if a >= 0 then a / b else 0 - ((0 - a) / b)
  }

  function ToUint64(x: int64): int
  {
    if x < 0 then x as int + 0x1_0000_0000_0000_0000 else x as int
  }

  /** The seconds left, rounded up and capped at a week, for every 64-bit duration:
      also where adding almost a second wraps around. */
  function FromDeadline(d: int64): (ttl: Option<uint32>)
    ensures ttl.None? <==> d <= 0
    ensures ttl.Some? ==> 1 <= ttl.value <= MAX_DEADLINE_TTL
    ensures ttl.Some? && ttl.value < MAX_DEADLINE_TTL ==>
              (ttl.value as int - 1) * SECOND < d as int <= ttl.value as int * SECOND
    ensures ttl == Some(MAX_DEADLINE_TTL) ==> d as int > (MAX_DEADLINE_TTL as int - 1) * SECOND
  {
    if d <= 0 then None
    else
      var sum := Wrap64(Wrap64(d as int + SECOND) as int - 1);
      var quotient := ToUint64(Quotient(sum as int, SECOND) as int64);
      var sec := if quotient == 0 then 1 else quotient;
      Some((if sec > MAX_DEADLINE_TTL as int then MAX_DEADLINE_TTL as int else sec) as uint32)
  }

  /** The wrap-around is real: the largest durations make the sum negative, and only the
      unsigned conversion brings them back to the cap. */
  lemma WrappedDeadlineIsCapped(d: int64)
    requires d as int > 0x8000_0000_0000_0000 - SECOND
    ensures Wrap64(Wrap64(d as int + SECOND) as int - 1) < 0
    ensures FromDeadline(d) == Some(MAX_DEADLINE_TTL)
  {
    assert d as int + SECOND + 0x8000_0000_0000_0000 < 2 * 0x1_0000_0000_0000_0000;
  }
}
