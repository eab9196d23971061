/**
 * The rescue preset's countdown clock (RescueInteractor.update_time): a
 * five-minute start time minus the elapsed ticks, shown as MM:SS.
 *
 * The source computes with datetime.timedelta: the shown value is the
 * `seconds` field of the normalised difference, which is the floor of the
 * remaining time taken modulo one day. Time is kept exact here: a tick
 * counter and an integer tick rate.
 */
module RescueClock {
  import opened Keys

  /** START_TIME = timedelta(minutes=5), in seconds. */
  const START_SECONDS := 300

  const SECONDS_PER_DAY := 86400

  /**
   * Whole seconds left on the clock, rounded down; negative once the five
   * minutes are over (timedelta does not clamp at zero).
   */
  function RemainingSeconds(tick: nat, rate: nat): (s: int)
    requires rate > 0
    ensures s * rate <= START_SECONDS * rate - tick < (s + 1) * rate
  {
    (START_SECONDS * rate - tick) / rate
  }

  /**
   * timedelta's `seconds` field of the remaining time: the floored remaining
   * seconds reduced into one day.
   */
  function DaySeconds(tick: nat, rate: nat): (s: nat)
    requires rate > 0
    ensures s < SECONDS_PER_DAY
    ensures (s - RemainingSeconds(tick, rate)) % SECONDS_PER_DAY == 0
  {
    RemainingSeconds(tick, rate) % SECONDS_PER_DAY
  }

  /** The (minutes, seconds) pair shown: seconds in 0..59, recombining to DaySeconds. */
  function ClockFields(tick: nat, rate: nat): (f: (nat, nat))
    requires rate > 0
    ensures f.1 < 60 && f.0 < 1440
    ensures f.0 * 60 + f.1 == DaySeconds(tick, rate)
  {
    var seconds := DaySeconds(tick, rate);
    var minutes := seconds / 60;
    (minutes, seconds - minutes * 60)
  }

  /** The timer text '{:02d}:{:02d}'.format(minutes, seconds). */
  function ClockText(tick: nat, rate: nat): (t: string)
    requires rate > 0
    ensures |t| >= 5 && t[|t| - 3] == ':'
    ensures |t| == 5 <==> ClockFields(tick, rate).0 < 100
    ensures t[0] == '0' <==> ClockFields(tick, rate).0 < 10
  {
    var f := ClockFields(tick, rate);
    Pad2(f.0) + ":" + Pad2(f.1)
  }

  /**
   * The text is a faithful rendering of the fields: the last two characters
   * read back as the seconds, the part before the colon as the minutes.
   */
  lemma ClockTextReadsBack(tick: nat, rate: nat)
    requires rate > 0
    ensures var t, f := ClockText(tick, rate), ClockFields(tick, rate);
            |t| >= 5 && t[|t| - 3] == ':' &&
            AllDigits(t[..|t| - 3]) && ParseDigits(t[..|t| - 3]) == f.0 &&
            AllDigits(t[|t| - 2..]) && ParseDigits(t[|t| - 2..]) == f.1
  {
    var t, f := ClockText(tick, rate), ClockFields(tick, rate);
    var mm, ss := Pad2(f.0), Pad2(f.1);
    assert t == mm + ":" + ss;
    assert |ss| == 2;
    assert t[..|t| - 3] == mm;
    assert t[|t| - 2..] == ss;
  }

  /** Multiplying by a positive rate preserves strict order, so it can be cancelled. */
  lemma MulCancel(a: int, b: int, rate: int)
    requires rate > 0 && a * rate < b * rate
    ensures a < b
  {
  }

  /** Until the five minutes are up the clock shows the true remaining time. */
  lemma NoWrapBeforeEnd(tick: nat, rate: nat)
    requires rate > 0 && tick <= START_SECONDS * rate
    ensures DaySeconds(tick, rate) == RemainingSeconds(tick, rate)
    ensures 0 <= RemainingSeconds(tick, rate) <= START_SECONDS
  {
    var s := RemainingSeconds(tick, rate);
    MulCancel(-1, s, rate);
    MulCancel(s, START_SECONDS + 1, rate);
  }

  /**
   * After the five minutes (and within a day) the remaining time is negative
   * and the shown value is that time plus one day.
   */
  lemma WrapsAfterEnd(tick: nat, rate: nat)
    requires rate > 0 && START_SECONDS * rate < tick <= (START_SECONDS + SECONDS_PER_DAY) * rate
    ensures -SECONDS_PER_DAY <= RemainingSeconds(tick, rate) < 0
    ensures DaySeconds(tick, rate) == RemainingSeconds(tick, rate) + SECONDS_PER_DAY
  {
    var s := RemainingSeconds(tick, rate);
    MulCancel(s, 0, rate);
    MulCancel(-SECONDS_PER_DAY - 1, s, rate);
  }

  /** At 30 ticks per second, tick 8970 shows one second left and tick 9000 shows zero. */
  lemma ClockExamples()
    ensures ClockText(8970, 30) == "00:01"
    ensures ClockText(9000, 30) == "00:00"
  {
    assert RemainingSeconds(8970, 30) == 1;
    assert RemainingSeconds(9000, 30) == 0;
    assert Digits(0) == "0" && Digits(1) == "1";
  }

  /** One tick past the end, the remaining time wraps to the last second of a day. */
  lemma ClockWrapExample()
    ensures ClockFields(9001, 30) == (1439, 59)
    ensures ClockText(9001, 30) == "1439:59"
  {
    assert RemainingSeconds(9001, 30) == -1;
    assert DaySeconds(9001, 30) == 86399;
    assert Digits(1) == "1" && Digits(14) == "14" && Digits(143) == "143";
    assert Digits(1439) == "1439";
    assert Digits(5) == "5" && Digits(59) == "59";
  }
}
