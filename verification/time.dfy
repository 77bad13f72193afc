/** Duration arithmetic over instants given as integer milliseconds. */
module Time {

  const MsPerMinute: int := 60000
  const MsPerHour: int := 3600000
  const MsPerDay: int := 86400000

  function AbsDiff(a: int, b: int): nat {
    if a <= b then b - a else a - b
  }

  /** `hoursBetween(a, b)`: the distance between two instants in fractional hours. */
  function HoursBetween(a: int, b: int): (h: real)
    ensures h >= 0.0
    ensures h == 0.0 <==> a == b
    ensures a <= b ==> h * MsPerHour as real == (b - a) as real
    ensures b <= a ==> h * MsPerHour as real == (a - b) as real
  {
    AbsDiff(a, b) as real / MsPerHour as real
  }

  /** `daysBetween(a, b)`: the distance between two instants in fractional days. */
  function DaysBetween(a: int, b: int): (d: real)
    ensures d >= 0.0
    ensures d == 0.0 <==> a == b
    ensures a <= b ==> d * MsPerDay as real == (b - a) as real
    ensures b <= a ==> d * MsPerDay as real == (a - b) as real
  {
    AbsDiff(a, b) as real / MsPerDay as real
  }

  /** Both distances are symmetric in their arguments. */
  lemma BetweenSymmetric(a: int, b: int)
    ensures HoursBetween(a, b) == HoursBetween(b, a)
    ensures DaysBetween(a, b) == DaysBetween(b, a)
  {
  }

  /** A day is 24 hours. */
  lemma DaysAreTwentyFourHours(a: int, b: int)
    ensures DaysBetween(a, b) * 24.0 == HoursBetween(a, b)
  {
  }

  /** Distances along a timeline add up. */
  lemma HoursAdditive(a: int, b: int, c: int)
    requires a <= b <= c
    ensures HoursBetween(a, c) == HoursBetween(a, b) + HoursBetween(b, c)
  {
  }
}
