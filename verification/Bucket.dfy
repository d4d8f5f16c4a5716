/** The 10-day partitions that messages are stored in. */
module Bucket {
  import opened Integers
  import opened Bits
  import opened Snowflake

  const BUCKET_SIZE_DAYS := 10
  const LUMIERE_EPOCH_SECS := 1_704_067_200

  /** Division rounding toward zero. */
  function TruncDiv(a: int, b: int): int
    requires b > 0
  {
    if a >= 0 then a / b else -(-a / b)
  }

  /** Milliseconds since the Unix epoch at which the id was made. */
  function CreatedAt(id: Id): int {
    TimestampMs(id) + LUMIERE_EPOCH
  }

  /** Bucket of a point in time, given in Unix milliseconds. */
  function FromDateTime(unixMs: int): int {
    var epochDays := AsI32(TruncDiv(unixMs / 1000 - LUMIERE_EPOCH_SECS, 86_400));
    TruncDiv(epochDays, BUCKET_SIZE_DAYS)
  }

  function FromSnowflake(id: Id): int {
    FromDateTime(CreatedAt(id))
  }

  /** The chain of roundings through seconds, days and ten-day spans is one division. */
  lemma ClosedForm(id: Id)
    ensures FromSnowflake(id) == id / 4194304 / 864_000_000
    ensures 0 <= FromSnowflake(id) <= 5090
    ensures AsI32(FromSnowflake(id)) == FromSnowflake(id)
  {
    FieldsAreDigits(id);
    FromMillis(TimestampMs(id));
    SmallI32(FromSnowflake(id));
  }

  lemma FromMillis(ts: nat)
    requires ts < TIMESTAMP_BOUND
    ensures FromDateTime(ts + LUMIERE_EPOCH) == ts / 864_000_000 <= 5090
  {
    Rounding(ts);
    SmallI32(ts / 1000 / 86_400);
  }

  lemma SmallI32(x: int)
    requires 0 <= x <= I32_MAX
    ensures AsI32(x) == x
  {
  }

  /** Rounding down in steps is rounding down once. */
  lemma Rounding(ts: nat)
    ensures (ts + LUMIERE_EPOCH) / 1000 - LUMIERE_EPOCH_SECS == ts / 1000
    ensures ts / 1000 / 86_400 / 10 == ts / 864_000_000
  {
    assert ts / 1000 / 86_400 == ts / 86_400_000;
    assert ts / 86_400_000 / 10 == ts / 864_000_000;
  }

  /** Later ids never fall into earlier buckets. */
  lemma Monotone(a: Id, b: Id)
    requires a <= b
    ensures FromSnowflake(a) <= FromSnowflake(b)
  {
    ClosedForm(a);
    ClosedForm(b);
  }
}
