/** The metering records of ee/billing and the 64-bit arithmetic on their values. */
module Usage {

  const MAX64 := 0x7fff_ffff_ffff_ffff
  const TWO_64 := 0x1_0000_0000_0000_0000

  type int64 = x: int | -MAX64 - 1 <= x <= MAX64

  /** The int64 a sum leaves behind. */
  function Wrap(x: int): (r: int64)
    ensures -MAX64 - 1 <= x <= MAX64 ==> r == x
  {
    (x + MAX64 + 1) % TWO_64 - MAX64 - 1
  }

  /** a + b on int64 operands. */
  function Plus(a: int64, b: int64): (r: int64) {
    var sum := a + b;
    if sum > MAX64 then sum - TWO_64 else if sum < -MAX64 - 1 then sum + TWO_64 else sum
  }

  lemma PlusAssociative(a: int64, b: int64, c: int64)
    ensures Plus(Plus(a, b), c) == Plus(a, Plus(b, c))
  {}

  /** Adding one more operand to a wrapped sum. */
  lemma PlusIsWrap(x: int, c: int64)
    ensures Plus(Wrap(x), c) == Wrap(x + c)
  {
    var q, r := (x + MAX64 + 1) / TWO_64, (x + MAX64 + 1) % TWO_64;
    var k := if r + c >= TWO_64 then q + 1 else if r + c < 0 then q - 1 else q;
    DivModIs(x + c + MAX64 + 1, k, r + c + (q - k) * TWO_64);
  }

  lemma DivModIs(y: int, k: int, r: int)
    requires y == k * TWO_64 + r && 0 <= r < TWO_64
    ensures y % TWO_64 == r
  {}

  datatype Kind = Counter | Gauge

  /** Times are seconds from Go's zero time, in UTC. */
  const HOUR := 3600
  const DAY := 86400

  /** PeriodStart: truncation to the hour. */
  function PeriodStart(t: int): (r: int)
    ensures r <= t < r + HOUR && r % HOUR == 0
  {
    t - t % HOUR
  }

  /** Truncation to the day. */
  function DayStart(t: int): (r: int)
    ensures r <= t < r + DAY && r % DAY == 0
  {
    t - t % DAY
  }

  datatype UsageRecord = UsageRecord(
    tenant: string, slug: string, meter: string, kind: Kind,
    periodStart: int, periodEnd: int, value: int64, unit: string)

  /** recordKey. */
  datatype Key = Key(tenant: string, meter: string, period: int)
}
