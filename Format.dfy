/**
 * The two renderings of a duration. The localised message templates are not modelled:
 * each rendering is its tier (which template is chosen) and the integers put into it.
 */
module Format {
  import opened Time

  /** The tier FormatDurationFriendly picks and the numbers it shows in it. */
  datatype Friendly =
    | DaysTier(days: int, hours: int, minutes: int)
    | HoursTier(hours: int, minutes: int)
    | MinutesTier(minutes: int)
  {
    /** The days shown, zero in the tiers that do not show days. */
    function ShownDays(): int
    {
      if DaysTier? then days else 0
    }

    /** The hours shown, zero in the tier that does not show hours. */
    function ShownHours(): int
    {
      if MinutesTier? then 0 else hours
    }
  }

  /**
   * Splits a minute count into days, hours and minutes with C# truncating `/` and `%`, and
   * picks the days tier when there is a day, else the hours tier when there is an hour.
   * For a count that is not negative the parts add back up to it exactly.
   */
  function FormatDurationFriendly(totalMinutes: int): (f: Friendly)
    ensures totalMinutes >= 0 ==>
      && f.ShownDays() * 1440 + f.ShownHours() * 60 + f.minutes == totalMinutes
      && 0 <= f.ShownDays() && 0 <= f.ShownHours() < 24 && 0 <= f.minutes < 60
    ensures f.DaysTier? <==> totalMinutes >= 1440
    ensures f.HoursTier? <==> 60 <= totalMinutes < 1440
    ensures f.DaysTier? ==> f.days > 0
    ensures f.HoursTier? ==> f.hours > 0
    ensures totalMinutes < 0 ==> f.MinutesTier? && -60 < f.minutes <= 0
  {
    MinuteParts(if totalMinutes >= 0 then totalMinutes else -totalMinutes);
    var days := Quot(totalMinutes, 24 * 60);
    var hours := Quot(Rem(totalMinutes, 24 * 60), 60);
    var minutes := Rem(totalMinutes, 60);
    if days > 0 then DaysTier(days, hours, minutes)
    else if hours > 0 then HoursTier(hours, minutes)
    else MinutesTier(minutes)
  }

  /** How a minute count that is not negative splits into days, hours and minutes. */
  lemma MinuteParts(n: int)
    requires n >= 0
    ensures n / 1440 * 1440 + (n % 1440) / 60 * 60 + n % 60 == n
    ensures 0 <= (n % 1440) / 60 < 24 && 0 <= n % 60 < 60
    ensures n / 1440 > 0 <==> n >= 1440
    ensures n < 1440 ==> ((n % 1440) / 60 > 0 <==> n >= 60)
  {
    var d, r := n / 1440, n % 1440;
    var h, m := r / 60, r % 60;
    assert n == (d * 24 + h) * 60 + m;
    DivUnique(n, d * 24 + h, m, 60);
    if n < 1440 {
      DivUnique(n, 0, n, 1440);
    }
  }

  /** The tier FormatTimeRemaining picks and the TimeSpan components it shows in it. */
  datatype RemainingView =
    | DaysLeft(days: int, hours: int, minutes: int)
    | HoursLeft(hours: int, minutes: int)
    | MinutesLeft(minutes: int, seconds: int)
  {
    /** The ticks the shown components stand for. */
    function ShownTicks(): int
    {
      match this
      case DaysLeft(d, h, m) => d * TicksPerDay + h * TicksPerHour + m * TicksPerMinute
      case HoursLeft(h, m) => h * TicksPerHour + m * TicksPerMinute
      case MinutesLeft(m, s) => m * TicksPerMinute + s * TicksPerSecond
    }

    /** The smallest unit the tier shows: minutes, except seconds in the sub-hour tier. */
    function Resolution(): int
    {
      if MinutesLeft? then TicksPerSecond else TicksPerMinute
    }
  }

  /**
   * Renders a remaining time of `remaining` ticks (a TimeSpan): whole days, hours and minutes
   * from one day on, hours and minutes from one hour on, else minutes and seconds.
   */
  function FormatTimeRemaining(remaining: int): RemainingView
  {
    var days := Quot(remaining, TicksPerDay);
    var hours := Rem(Quot(remaining, TicksPerHour), 24);
    var minutes := Rem(Quot(remaining, TicksPerMinute), 60);
    var seconds := Rem(Quot(remaining, TicksPerSecond), 60);
    if remaining >= TicksPerDay then DaysLeft(days, hours, minutes)
    else if remaining >= TicksPerHour then HoursLeft(hours, minutes)
    else MinutesLeft(minutes, seconds)
  }

  /**
   * The tier of the remaining-time view follows the remainder, and for a remainder that is not
   * negative the view truncates it to the tier's smallest unit, with in-range components.
   */
  lemma FormatTimeRemainingTruncates(remaining: int)
    ensures var v := FormatTimeRemaining(remaining);
      && (v.DaysLeft? <==> remaining >= TicksPerDay)
      && (v.HoursLeft? <==> TicksPerHour <= remaining < TicksPerDay)
      && (remaining >= 0 ==>
        && v.ShownTicks() <= remaining < v.ShownTicks() + v.Resolution()
        && (v.DaysLeft? ==> v.days >= 1 && 0 <= v.hours < 24 && 0 <= v.minutes < 60)
        && (v.HoursLeft? ==> 1 <= v.hours < 24 && 0 <= v.minutes < 60)
        && (v.MinutesLeft? ==> 0 <= v.minutes < 60 && 0 <= v.seconds < 60))
  {
    TimeSpanParts(remaining);
  }

  /** How the TimeSpan components of a non-negative tick count fit together. */
  lemma TimeSpanParts(t: int)
    ensures var s, m, h, d := t / TicksPerSecond, t / TicksPerMinute, t / TicksPerHour, t / TicksPerDay;
      t >= 0 ==> (
        && d * TicksPerDay + (h % 24) * TicksPerHour + (m % 60) * TicksPerMinute <= t
        && t < d * TicksPerDay + (h % 24) * TicksPerHour + (m % 60 + 1) * TicksPerMinute
        && (t < TicksPerDay ==> h % 24 == h)
        && (t < TicksPerHour ==> (
             && h == 0 && m % 60 == m
             && m * TicksPerMinute + (s % 60) * TicksPerSecond <= t
             && t < m * TicksPerMinute + (s % 60 + 1) * TicksPerSecond)))
  {
    if t < 0 {
      return;
    }
    var s, m, h, d := t / TicksPerSecond, t / TicksPerMinute, t / TicksPerHour, t / TicksPerDay;
    NestedDiv(t, TicksPerSecond, 60);
    NestedDiv(t, TicksPerMinute, 60);
    NestedDiv(t, TicksPerHour, 24);
    assert m / 60 == h && h / 24 == d && s / 60 == m;
    assert m == h * 60 + m % 60;
    assert h == d * 24 + h % 24;
    assert s == m * 60 + s % 60;
    assert t == m * TicksPerMinute + t % TicksPerMinute;
    assert t == s * TicksPerSecond + t % TicksPerSecond;
  }
}
