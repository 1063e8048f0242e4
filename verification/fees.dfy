/** The parking fee charged when a reservation ends: a first-hour rate,
    additional hours pro rata, a daily cap, then a 50% surcharge on the
    additional-hour rate for time past the imposed cutoff, rounded to cents. */
module Fees {
  import opened ReservationModel

  /** Elapsed time between two instants in fractional hours. */
  function DurationHours(from: Instant, to: Instant): real {
    (to - from) as real / MS_PER_HOUR as real
  }

  /** The fee before any surcharge: first hour, then each additional hour at
      its rate, never more than the daily cap. */
  function BaseFee(rate: Rate, hours: real): (fee: real)
    ensures fee <= rate.dailyCap
    ensures hours <= 1.0 ==> fee == if rate.firstHour > rate.dailyCap then rate.dailyCap else rate.firstHour
    ensures rate.firstHour <= rate.dailyCap && rate.additionalHour >= 0.0 ==> fee >= rate.firstHour
  {
    var fee := if hours > 1.0 then rate.firstHour + rate.additionalHour * (hours - 1.0) else rate.firstHour;
    if fee > rate.dailyCap then rate.dailyCap else fee
  }

  /** The overtime surcharge: 1.5 times the additional-hour rate for each hour
      past the cutoff, and nothing without a cutoff or when ending by it. */
  function LateFee(rate: Rate, endTime: Instant, maxEndTime: Option<Instant>): (late: real)
    ensures maxEndTime.None? || endTime <= maxEndTime.value ==> late == 0.0
    ensures rate.additionalHour >= 0.0 ==> late >= 0.0
    ensures maxEndTime.Some? && endTime > maxEndTime.value && rate.additionalHour > 0.0 ==> late > 0.0
  {
    if maxEndTime.Some? && endTime > maxEndTime.value then
      var overtimeHours := DurationHours(maxEndTime.value, endTime);
      assert overtimeHours > 0.0;
      rate.additionalHour * overtimeHours * 1.5
    else 0.0
  }

  /** Rounding to two decimals, halves upward, as Math.round(x * 100) / 100 does. */
  function Round2(x: real): (r: real)
    ensures x - 0.005 < r <= x + 0.005
    ensures x >= 0.0 ==> r >= 0.0
    ensures (r * 100.0).Floor as real == r * 100.0
  {
    var cents := (x * 100.0 + 0.5).Floor;
    assert x >= 0.0 ==> cents >= 0;
    cents as real / 100.0
  }

  /** The fee recorded when a reservation that started at `startTime` ends at `endTime`. */
  function Fee(rate: Rate, startTime: Instant, endTime: Instant, maxEndTime: Option<Instant>): (fee: real)
    ensures rate.firstHour >= 0.0 && rate.additionalHour >= 0.0 && rate.dailyCap >= 0.0 ==> fee >= 0.0
    ensures maxEndTime.None? || endTime <= maxEndTime.value ==> fee <= Round2(rate.dailyCap)
  {
    var base := BaseFee(rate, DurationHours(startTime, endTime));
    var late := LateFee(rate, endTime, maxEndTime);
    assert rate.firstHour >= 0.0 && rate.additionalHour >= 0.0 && rate.dailyCap >= 0.0 ==> base + late >= 0.0;
    assert maxEndTime.None? || endTime <= maxEndTime.value ==> Round2(base + late) <= Round2(rate.dailyCap) by {
      if maxEndTime.None? || endTime <= maxEndTime.value {
        RoundMonotone(base + late, rate.dailyCap);
      }
    }
    Round2(base + late)
  }

  lemma RoundMonotone(x: real, y: real)
    requires x <= y
    ensures Round2(x) <= Round2(y)
  {
    var sx, sy := x * 100.0 + 0.5, y * 100.0 + 0.5;
    assert sx <= sy;
    var a, b := sx.Floor, sy.Floor;
    assert a as real <= sx && sy < b as real + 1.0;
    assert a <= b;
  }

  /** With a non-negative additional-hour rate, a longer stay never costs less before the surcharge. */
  lemma BaseFeeMonotone(rate: Rate, h1: real, h2: real)
    requires rate.additionalHour >= 0.0
    requires h1 <= h2
    ensures BaseFee(rate, h1) <= BaseFee(rate, h2)
  {
    var a := rate.additionalHour;
    if h2 > 1.0 {
      var m := if h1 > 1.0 then h1 else 1.0;
      assert a * (h2 - 1.0) - a * (m - 1.0) == a * (h2 - m);
      assert h2 - m >= 0.0;
      assert a * (h2 - m) >= 0.0;
    }
  }

  lemma DurationMonotone(from: Instant, to1: Instant, to2: Instant)
    requires to1 <= to2
    ensures DurationHours(from, to1) <= DurationHours(from, to2)
  {
    assert (to1 - from) as real <= (to2 - from) as real;
  }

  /** With a non-negative additional-hour rate, ending later never lowers the surcharge. */
  lemma LateFeeMonotone(rate: Rate, end1: Instant, end2: Instant, maxEndTime: Option<Instant>)
    requires rate.additionalHour >= 0.0
    requires end1 <= end2
    ensures LateFee(rate, end1, maxEndTime) <= LateFee(rate, end2, maxEndTime)
  {
    if maxEndTime.Some? && end1 > maxEndTime.value {
      var a := rate.additionalHour;
      var o1 := DurationHours(maxEndTime.value, end1);
      var o2 := DurationHours(maxEndTime.value, end2);
      DurationMonotone(maxEndTime.value, end1, end2);
      assert a * o2 * 1.5 - a * o1 * 1.5 == a * (o2 - o1) * 1.5;
      assert a * (o2 - o1) >= 0.0;
    }
  }

  /** A longer stay never costs less, surcharge and rounding included, for a fixed cutoff. */
  lemma FeeMonotone(rate: Rate, startTime: Instant, end1: Instant, end2: Instant, maxEndTime: Option<Instant>)
    requires rate.additionalHour >= 0.0
    requires end1 <= end2
    ensures Fee(rate, startTime, end1, maxEndTime) <= Fee(rate, startTime, end2, maxEndTime)
  {
    var h1, h2 := DurationHours(startTime, end1), DurationHours(startTime, end2);
    DurationMonotone(startTime, end1, end2);
    BaseFeeMonotone(rate, h1, h2);
    LateFeeMonotone(rate, end1, end2, maxEndTime);
    RoundMonotone(BaseFee(rate, h1) + LateFee(rate, end1, maxEndTime), BaseFee(rate, h2) + LateFee(rate, end2, maxEndTime));
  }

  /** A worked case: rates 50 / 30 / 300 for a 3.5-hour stay give 125.00,
      and ending one hour past the cutoff adds 45.00. */
  lemma WorkedExample()
    ensures Fee(Rate(50.0, 30.0, 300.0), 0, 7 * MS_PER_HOUR / 2, None) == 125.0
    ensures Fee(Rate(50.0, 30.0, 300.0), 0, 7 * MS_PER_HOUR / 2, Some(5 * MS_PER_HOUR / 2)) == 170.0
  {
    var rate := Rate(50.0, 30.0, 300.0);
    assert DurationHours(0, 7 * MS_PER_HOUR / 2) == 3.5;
    assert BaseFee(rate, 3.5) == 125.0;
    assert DurationHours(5 * MS_PER_HOUR / 2, 7 * MS_PER_HOUR / 2) == 1.0;
    assert LateFee(rate, 7 * MS_PER_HOUR / 2, Some(5 * MS_PER_HOUR / 2)) == 45.0;
    assert (125.0 * 100.0 + 0.5).Floor == 12500;
    assert (170.0 * 100.0 + 0.5).Floor == 17000;
  }
}
