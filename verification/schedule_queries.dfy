/**
 * The outage card's queries over today's and tomorrow's ranges: the periods
 * shown on the time line, the index of the period containing "now", the
 * countdown until power goes off or comes back, each period's duration label
 * and the test for whether tomorrow's schedule really contains an outage.
 * "Now" is a minute of the local day, passed in by the caller.
 */
module ScheduleQueries {

  import opened Wrappers
  import opened Text
  import opened HoursMinutes
  import opened OutageSchedule

  /**
   * One row of today's time line (`buildTodayPeriods`). `end` is the second
   * half of the label, undefined (None) when the label has no '-'.
   */
  datatype Period = Period(start: string, end: Option<string>, hasPower: bool, startMinutes: int, endMinutes: int)

  /** Ranges are present and non-empty (`todayHasData` / `tomorrowHasData`). */
  predicate HasData(ranges: Option<seq<OutageRange>>) {
    ranges.Some? && |ranges.value| > 0
  }

  /**
   * A range as a time-line period: the two halves of its "start-end" label, its
   * status as a flag, and its end with 0 read as 24:00. A label without a second
   * half leaves the end text undefined.
   */
  function ToPeriod(r: OutageRange): (p: Period)
    ensures p.hasPower <==> r.status == Yes
    ensures p.startMinutes == r.startMinutes
    ensures p.endMinutes != 0 && (r.endMinutes != 0 ==> p.endMinutes == r.endMinutes)
    ensures r.endMinutes == 0 ==> p.endMinutes == MinutesPerDay
    ensures '-' !in r.timeRange ==> p.start == r.timeRange && p.end.None?
    ensures '-' in r.timeRange ==> p.end.Some?
  {
    var parts := Split(r.timeRange, '-');
    assert '-' !in r.timeRange ==> parts == [r.timeRange] by {
      if '-' !in r.timeRange { SplitNoSeparator(r.timeRange, '-'); }
    }
    assert '-' in r.timeRange ==> |parts| >= 2 by {
      if '-' in r.timeRange { SplitWithSeparator(r.timeRange, '-'); }
    }
    Period(parts[0], if |parts| >= 2 then Some(parts[1]) else None, r.status == Yes,
           r.startMinutes, if r.endMinutes == 0 then MinutesPerDay else r.endMinutes)
  }

  /** `buildTodayPeriods`: one period per range, none without data. */
  function BuildTodayPeriods(today: Option<seq<OutageRange>>): (periods: seq<Period>)
    ensures |periods| == if HasData(today) then |today.value| else 0
    ensures HasData(today) ==> forall k :: 0 <= k < |periods| ==> periods[k] == ToPeriod(today.value[k])
  {
    if !HasData(today) then []
    else seq(|today.value|, k requires 0 <= k < |today.value| => ToPeriod(today.value[k]))
  }

  /** A well-formed range's label splits back into its two clock texts. */
  lemma ToPeriodOfWellFormed(r: OutageRange)
    requires 0 <= r.startMinutes < r.endMinutes && Labelled(r)
    ensures ToPeriod(r) == Period(FormatClock(r.startMinutes), Some(FormatClock(r.endMinutes)),
                                  r.status == Yes, r.startMinutes, r.endMinutes)
  {
    NoDashInClock(r.startMinutes);
    NoDashInClock(r.endMinutes);
    SplitAtFirst(FormatClock(r.startMinutes), '-', FormatClock(r.endMinutes));
    SplitNoSeparator(FormatClock(r.endMinutes), '-');
    assert r.timeRange == FormatClock(r.startMinutes) + ['-'] + FormatClock(r.endMinutes);
  }

  /**
   * On a compressed schedule each period carries its range's clock texts and
   * minutes unchanged: the end is never 0, so the 0-to-24:00 rewrite never fires.
   */
  lemma PeriodsOfSchedule(ranges: seq<OutageRange>)
    requires AllWellFormed(ranges)
    ensures var periods := BuildTodayPeriods(Some(ranges));
            && |periods| == |ranges|
            && forall k :: 0 <= k < |ranges| ==>
                 periods[k] == Period(FormatClock(ranges[k].startMinutes), Some(FormatClock(ranges[k].endMinutes)),
                                      ranges[k].status == Yes, ranges[k].startMinutes, ranges[k].endMinutes)
  {
    forall k | 0 <= k < |ranges| {
      ToPeriodOfWellFormed(ranges[k]);
    }
  }

  /** The periods of well-formed ranges keep their minutes and power flag. */
  lemma PeriodMinutes(ranges: seq<OutageRange>)
    requires AllWellFormed(ranges)
    ensures var periods := BuildTodayPeriods(Some(ranges));
            && |periods| == |ranges|
            && forall k :: 0 <= k < |ranges| ==>
                 && periods[k].startMinutes == ranges[k].startMinutes
                 && periods[k].endMinutes == ranges[k].endMinutes
                 && periods[k].hasPower == (ranges[k].status == Yes)
  {
    forall k | 0 <= k < |ranges|
      ensures ranges[k].endMinutes != 0
    {
      assert OnGridRange(ranges[k]);
    }
  }

  /* ---------------------------------------------------------------------- */
  /* Ordering and coverage of a chain of ranges                             */
  /* ---------------------------------------------------------------------- */

  /** Earlier ranges end no later than later ranges start. */
  lemma {:induction false} ChainOrdered(ranges: seq<OutageRange>, k: nat, l: nat)
    requires Chain(ranges) && k < l < |ranges|
    ensures ranges[k].endMinutes <= ranges[l].startMinutes
    decreases l - k
  {
    if l > k + 1 {
      ChainOrdered(ranges, k, l - 1);
      assert WellFormedRange(ranges[l - 1]);
    }
  }

  lemma ChainPrefix(ranges: seq<OutageRange>, n: nat)
    requires Chain(ranges) && n <= |ranges|
    ensures Chain(ranges[..n])
  {
    var p := ranges[..n];
    assert AllWellFormed(p) by {
      forall k | 0 <= k < |p| ensures WellFormedRange(p[k]) { assert p[k] == ranges[k]; }
    }
    assert Contiguous(p) by {
      forall k | 0 <= k < |p| - 1 ensures p[k].endMinutes == p[k + 1].startMinutes {
        assert p[k] == ranges[k] && p[k + 1] == ranges[k + 1];
      }
    }
    assert Alternating(p) by {
      forall k | 0 <= k < |p| - 1 ensures p[k].status != p[k + 1].status {
        assert p[k] == ranges[k] && p[k + 1] == ranges[k + 1];
      }
    }
  }

  /** Every minute between the first start and the last end lies in some range. */
  lemma {:induction false} ChainCovers(ranges: seq<OutageRange>, now: int) returns (k: nat)
    requires Chain(ranges) && |ranges| > 0
    requires ranges[0].startMinutes <= now < ranges[|ranges| - 1].endMinutes
    ensures k < |ranges| && ranges[k].startMinutes <= now < ranges[k].endMinutes
    decreases |ranges|
  {
    var n := |ranges|;
    if now >= ranges[n - 1].startMinutes {
      k := n - 1;
    } else {
      ChainPrefix(ranges, n - 1);
      assert ranges[n - 2].endMinutes == ranges[n - 1].startMinutes;
      k := ChainCovers(ranges[..n - 1], now);
    }
  }

  /** No minute lies in two ranges of a chain. */
  lemma ChainDisjoint(ranges: seq<OutageRange>, now: int, k: nat, l: nat)
    requires Chain(ranges) && k < |ranges| && l < |ranges|
    requires ranges[k].startMinutes <= now < ranges[k].endMinutes
    requires ranges[l].startMinutes <= now < ranges[l].endMinutes
    ensures k == l
  {
    if k < l {
      ChainOrdered(ranges, k, l);
    } else if l < k {
      ChainOrdered(ranges, l, k);
    }
  }

  /** A chain spans exactly the minutes from its first start to its last end. */
  lemma ChainBounds(ranges: seq<OutageRange>, k: nat)
    requires Chain(ranges) && k < |ranges|
    ensures ranges[0].startMinutes <= ranges[k].startMinutes
    ensures ranges[k].endMinutes <= ranges[|ranges| - 1].endMinutes
  {
    if k > 0 {
      ChainOrdered(ranges, 0, k);
    }
    if k < |ranges| - 1 {
      ChainOrdered(ranges, k, |ranges| - 1);
    }
  }

  /* ---------------------------------------------------------------------- */
  /* Current period                                                         */
  /* ---------------------------------------------------------------------- */

  predicate Covers(p: Period, now: int) {
    p.startMinutes <= now < p.endMinutes
  }

  /** `findIndex` from position `from` on: the first period containing `now`, or -1. */
  function FindCovering(periods: seq<Period>, now: int, from: nat): (idx: int)
    requires from <= |periods|
    ensures idx == -1 || from <= idx < |periods|
    ensures idx >= 0 ==> Covers(periods[idx], now)
    ensures idx >= 0 ==> forall j :: from <= j < idx ==> !Covers(periods[j], now)
    ensures idx == -1 ==> forall j :: from <= j < |periods| ==> !Covers(periods[j], now)
    decreases |periods| - from
  {
    if from == |periods| then -1
    else if Covers(periods[from], now) then from
    else FindCovering(periods, now, from + 1)
  }

  /** `getCurrentPeriodIndex`: the first period containing `now`, or -1 if there is none. */
  function CurrentPeriodIndex(periods: seq<Period>, now: int): (idx: int)
    ensures -1 <= idx < |periods|
    ensures idx >= 0 ==> Covers(periods[idx], now) && forall j :: 0 <= j < idx ==> !Covers(periods[j], now)
    ensures idx == -1 ==> forall j :: 0 <= j < |periods| ==> !Covers(periods[j], now)
  {
    if |periods| == 0 then -1 else FindCovering(periods, now, 0)
  }

  /**
   * On a day's compressed schedule, a minute of the day lies in exactly one
   * period and the lookup finds it; any other minute finds none.
   */
  lemma CurrentPeriodOfDay(ranges: seq<OutageRange>, slots: seq<Status>, now: int)
    requires IsRunEncoding(ranges, slots) && |slots| == 2 * HoursPerDay
    ensures var periods := BuildTodayPeriods(Some(ranges));
            var idx := CurrentPeriodIndex(periods, now);
            && (idx >= 0 <==> 0 <= now < MinutesPerDay)
            && (idx >= 0 ==> forall k :: 0 <= k < |periods| && Covers(periods[k], now) ==> k == idx)
  {
    var periods := BuildTodayPeriods(Some(ranges));
    PeriodMinutes(ranges);
    var idx := CurrentPeriodIndex(periods, now);
    if 0 <= now < MinutesPerDay {
      var k := ChainCovers(ranges, now);
      assert Covers(periods[k], now);
    }
    if idx >= 0 {
      ChainBounds(ranges, idx);
      forall k | 0 <= k < |periods| && Covers(periods[k], now)
        ensures k == idx
      {
        ChainDisjoint(ranges, now, k, idx);
      }
    }
  }

  /* ---------------------------------------------------------------------- */
  /* Remaining time                                                         */
  /* ---------------------------------------------------------------------- */

  datatype RemainingInfo = RemainingInfo(title: string, text: string)

  const UntilOffTitle := "До вимкнення світла"
  const UntilOnTitle := "До включення світла"
  const NoDataText := "Немає даних"
  const LessThanMinuteText := "менше хвилини"

  /**
   * The countdown text: "<h> год." when there are whole hours, then
   * "<m> хв." when there are leftover minutes, or "менше хвилини" for zero.
   */
  function RemainingText(remainingMinutes: nat): (text: string)
    ensures remainingMinutes == 0 ==> text == LessThanMinuteText
    ensures remainingMinutes > 0 ==>
              text == UnitsText(remainingMinutes / 60, remainingMinutes % 60, "год.", "хв.")
  {
    var hours := remainingMinutes / 60;
    var minutes := remainingMinutes % 60;
    var text1 := if hours > 0 then NatToString(hours) + " год." else "";
    var text2 := if minutes > 0 then (if text1 != "" then text1 + " " else text1) + NatToString(minutes) + " хв."
                 else text1;
    if text2 == "" then LessThanMinuteText else text2
  }

  /** The countdown text of a positive count reads back as its hours and minutes; "менше хвилини" does not read. */
  lemma RemainingTextReadsBack(m: nat)
    ensures m > 0 ==> ParseUnitsText(RemainingText(m), "год.", "хв.") == Some((m / 60, m % 60))
    ensures m == 0 ==> ParseUnitsText(RemainingText(m), "год.", "хв.") == None
  {
    if m > 0 {
      UnitsTextRoundTrip(m / 60, m % 60, "год.", "хв.");
    } else {
      SplitTwo("менше", "хвилини");
      assert LessThanMinuteText == "менше" + " " + "хвилини";
    }
  }

  /** The countdown text determines the number of minutes it shows. */
  lemma RemainingTextInjective(a: nat, b: nat)
    requires RemainingText(a) == RemainingText(b)
    ensures a == b
  {
    RemainingTextReadsBack(a);
    RemainingTextReadsBack(b);
  }

  /** `find(p => p.hasPower && p.startMinutes > now)` from position `from`, as an index or -1. */
  function FindNextPowered(periods: seq<Period>, now: int, from: nat): (idx: int)
    requires from <= |periods|
    ensures idx == -1 || from <= idx < |periods|
    ensures idx >= 0 ==> periods[idx].hasPower && periods[idx].startMinutes > now
    ensures idx >= 0 ==> forall j :: from <= j < idx ==> !(periods[j].hasPower && periods[j].startMinutes > now)
    ensures idx == -1 ==> forall j :: from <= j < |periods| ==> !(periods[j].hasPower && periods[j].startMinutes > now)
    decreases |periods| - from
  {
    if from == |periods| then -1
    else if periods[from].hasPower && periods[from].startMinutes > now then from
    else FindNextPowered(periods, now, from + 1)
  }

  function Max0(x: int): (m: nat) {
    if x > 0 then x else 0
  }

  /**
   * `getRemainingInfo`: nothing without a current period; with power, the time
   * to the end of the current period; without power, the time to the start of
   * the first later powered period, or "Немає даних" if there is none. The
   * dashboard reads the clock twice: `indexNow` is the minute the current
   * period was looked up at, `now` the minute the countdown is computed from;
   * a minute may tick between the two.
   */
  function GetRemainingInfo(periods: seq<Period>, indexNow: int, now: int): (info: Option<RemainingInfo>)
    ensures info.None? <==> CurrentPeriodIndex(periods, indexNow) == -1
    ensures info.Some? && periods[CurrentPeriodIndex(periods, indexNow)].hasPower ==> info.value.title == UntilOffTitle
    ensures info.Some? && !periods[CurrentPeriodIndex(periods, indexNow)].hasPower ==> info.value.title == UntilOnTitle
    ensures info.Some? && periods[CurrentPeriodIndex(periods, indexNow)].hasPower ==>
              info.value.text == RemainingText(Max0(periods[CurrentPeriodIndex(periods, indexNow)].endMinutes - now))
    ensures info.Some? && !periods[CurrentPeriodIndex(periods, indexNow)].hasPower && FindNextPowered(periods, now, 0) == -1 ==>
              info.value.text == NoDataText
    ensures info.Some? && !periods[CurrentPeriodIndex(periods, indexNow)].hasPower && FindNextPowered(periods, now, 0) != -1 ==>
              info.value.text == RemainingText(Max0(periods[FindNextPowered(periods, now, 0)].startMinutes - now))
  {
    var idx := CurrentPeriodIndex(periods, indexNow);
    if idx == -1 || |periods| == 0 then None
    else
      var current := periods[idx];
      if current.hasPower then
        Some(RemainingInfo(UntilOffTitle, RemainingText(Max0(current.endMinutes - now))))
      else
        var next := FindNextPowered(periods, now, 0);
        if next == -1 then Some(RemainingInfo(UntilOnTitle, NoDataText))
        else Some(RemainingInfo(UntilOnTitle, RemainingText(Max0(periods[next].startMinutes - now))))
  }

  /** In a powered period the countdown runs to the period's end, which is in the future. */
  lemma RemainingWhilePowered(ranges: seq<OutageRange>, now: int, k: nat)
    requires Chain(ranges) && k < |ranges|
    requires ranges[k].startMinutes <= now < ranges[k].endMinutes && ranges[k].status == Yes
    ensures ranges[k].endMinutes - now > 0
    ensures GetRemainingInfo(BuildTodayPeriods(Some(ranges)), now, now)
            == Some(RemainingInfo(UntilOffTitle, RemainingText(ranges[k].endMinutes - now)))
  {
    var periods := BuildTodayPeriods(Some(ranges));
    PeriodMinutes(ranges);
    var idx := CurrentPeriodIndex(periods, now);
    assert Covers(periods[k], now);
    ChainDisjoint(ranges, now, k, idx);
  }

  /**
   * In an unpowered period the next powered period is the very next one, so the
   * countdown runs to the current period's end; in the day's last period there
   * is no later powered period and the text is "Немає даних".
   */
  lemma RemainingWhileUnpowered(ranges: seq<OutageRange>, now: int, k: nat)
    requires Chain(ranges) && k < |ranges|
    requires ranges[k].startMinutes <= now < ranges[k].endMinutes && ranges[k].status == No
    ensures ranges[k].endMinutes - now > 0
    ensures k < |ranges| - 1 ==>
              GetRemainingInfo(BuildTodayPeriods(Some(ranges)), now, now)
              == Some(RemainingInfo(UntilOnTitle, RemainingText(ranges[k].endMinutes - now)))
    ensures k == |ranges| - 1 ==>
              GetRemainingInfo(BuildTodayPeriods(Some(ranges)), now, now) == Some(RemainingInfo(UntilOnTitle, NoDataText))
  {
    var periods := BuildTodayPeriods(Some(ranges));
    PeriodMinutes(ranges);
    var idx := CurrentPeriodIndex(periods, now);
    assert Covers(periods[k], now);
    ChainDisjoint(ranges, now, k, idx);
    NextPoweredAfterOutage(ranges, now, k);
    if k < |ranges| - 1 {
      assert ranges[k].endMinutes == ranges[k + 1].startMinutes;
    }
  }

  /* When the minute ticks between the two clock reads. */

  /** A day powered until 10:00 and then off. */
  const PoweredThenOff: seq<Period> := [Period("00:00", Some("10:00"), true, 0, 600), Period("10:00", Some("24:00"), false, 600, 1440)]

  /** A day off until 10:00 and then powered. */
  const OffThenPowered: seq<Period> := [Period("00:00", Some("10:00"), false, 0, 600), Period("10:00", Some("24:00"), true, 600, 1440)]

  /**
   * The powered period is found at 09:59 and the countdown taken at 10:00:
   * the remaining time is clamped to 0 and shown as "менше хвилини", which
   * one reading never shows for a powered period.
   */
  lemma TickAtPowerOff()
    ensures GetRemainingInfo(PoweredThenOff, 599, 599) == Some(RemainingInfo(UntilOffTitle, RemainingText(1)))
    ensures GetRemainingInfo(PoweredThenOff, 599, 600) == Some(RemainingInfo(UntilOffTitle, LessThanMinuteText))
  {
    assert CurrentPeriodIndex(PoweredThenOff, 599) == 0;
  }

  /**
   * The outage is found at 09:59 and the next powered period looked for at
   * 10:00: the 10:00 period no longer starts later, so "Немає даних" is shown
   * one minute before power returns.
   */
  lemma TickAtPowerOn()
    ensures GetRemainingInfo(OffThenPowered, 599, 599) == Some(RemainingInfo(UntilOnTitle, RemainingText(1)))
    ensures GetRemainingInfo(OffThenPowered, 599, 600) == Some(RemainingInfo(UntilOnTitle, NoDataText))
  {
    assert CurrentPeriodIndex(OffThenPowered, 599) == 0;
    assert FindNextPowered(OffThenPowered, 599, 0) == 1;
    assert FindNextPowered(OffThenPowered, 600, 0) == -1;
  }

  /** During an outage the next powered period is the one right after it, if any. */
  lemma NextPoweredAfterOutage(ranges: seq<OutageRange>, now: int, k: nat)
    requires Chain(ranges) && k < |ranges|
    requires ranges[k].startMinutes <= now < ranges[k].endMinutes && ranges[k].status == No
    ensures FindNextPowered(BuildTodayPeriods(Some(ranges)), now, 0) == if k < |ranges| - 1 then k + 1 else -1
  {
    var periods := BuildTodayPeriods(Some(ranges));
    PeriodMinutes(ranges);
    var next := FindNextPowered(periods, now, 0);
    // Periods up to k start no later than now; period k itself is unpowered.
    forall j | 0 <= j <= k
      ensures !(periods[j].hasPower && periods[j].startMinutes > now)
    {
      if j < k {
        ChainOrdered(ranges, j, k);
        assert OnGridRange(ranges[j]);
      }
    }
    if k < |ranges| - 1 {
      assert ranges[k + 1].status == Yes;
      assert periods[k + 1].hasPower && periods[k + 1].startMinutes > now;
    }
  }

  /** Outside the day there is no current period and no countdown. */
  lemma NoRemainingOutsideDay(ranges: seq<OutageRange>, slots: seq<Status>, now: int)
    requires IsRunEncoding(ranges, slots) && |slots| == 2 * HoursPerDay
    requires now < 0 || now >= MinutesPerDay
    ensures GetRemainingInfo(BuildTodayPeriods(Some(ranges)), now, now) == None
  {
    CurrentPeriodOfDay(ranges, slots, now);
  }

  /* ---------------------------------------------------------------------- */
  /* Duration label                                                         */
  /* ---------------------------------------------------------------------- */

  /** JavaScript's `%`, whose result takes the sign of the dividend. */
  function JsRem(a: int, b: int): (r: int)
    requires b > 0
    ensures -b < r < b
    ensures a >= 0 ==> r == a % b
  {
    if a >= 0 then a % b else -((-a) % b)
  }

  /**
   * The duration label under each period: the period's clock texts are parsed
   * back to minutes and their difference written as "<h> год <m> хв", trimmed;
   * unparsable texts give NaN, which prints neither part. None is a throw:
   * an undefined end has no `split`.
   */
  function DurationText(p: Period): (d: Option<string>)
    ensures d.None? <==> p.end.None?
    ensures d.Some? && (':' !in p.start || ':' !in p.end.value) ==> d.value == ""
  {
    if p.end.None? then None else Some(DurationLabel(PeriodDuration(p.start, p.end.value)))
  }

  /** `endMinutes - startMinutes` of two parsed clock texts; None stands for NaN. */
  function PeriodDuration(start: string, end: string): (duration: Option<int>)
    ensures ':' !in start || ':' !in end ==> duration.None?
  {
    var s := ClockMinutes(start);
    var e := ClockMinutes(end);
    if s.Some? && e.Some? then Some(e.value - s.value) else None
  }

  /** The label for a duration in minutes; a missing (NaN) duration prints neither part. */
  function DurationLabel(duration: Option<int>): (l: string)
    ensures duration.None? || duration.value <= 0 ==> l == ""
  {
    var hoursText := if duration.Some? && duration.value / 60 > 0 then NatToString(duration.value / 60) + " " + HourUnit else "";
    var minutesText := if duration.Some? && JsRem(duration.value, 60) > 0 then NatToString(JsRem(duration.value, 60)) + " " + MinuteUnit else "";
    Trim(hoursText + " " + minutesText)
  }

  /** Whole hours and leftover minutes, joined by a space and trimmed, give the shared units text. */
  lemma TrimmedUnits(h: nat, m: nat, hourUnit: string, minuteUnit: string)
    requires h > 0 || m > 0
    requires |hourUnit| > 0 && !IsJsWhitespace(hourUnit[|hourUnit| - 1])
    requires |minuteUnit| > 0 && !IsJsWhitespace(minuteUnit[|minuteUnit| - 1])
    ensures Trim((if h > 0 then NatToString(h) + " " + hourUnit else "") + " "
                 + (if m > 0 then NatToString(m) + " " + minuteUnit else ""))
            == UnitsText(h, m, hourUnit, minuteUnit)
  {
    if h > 0 && m > 0 {
      TrimmedBoth(NatToString(h), NatToString(m), hourUnit, minuteUnit);
    } else if h > 0 {
      TrimmedHoursOnly(NatToString(h), hourUnit);
    } else {
      TrimmedMinutesOnly(NatToString(m), minuteUnit);
    }
  }

  lemma TrimmedBoth(hs: string, ms: string, hourUnit: string, minuteUnit: string)
    requires |hs| > 0 && !IsJsWhitespace(hs[0])
    requires |minuteUnit| > 0 && !IsJsWhitespace(minuteUnit[|minuteUnit| - 1])
    ensures Trim(hs + " " + hourUnit + " " + (ms + " " + minuteUnit)) == hs + " " + hourUnit + " " + ms + " " + minuteUnit
  {
    var t := hs + " " + hourUnit + " " + ms + " " + minuteUnit;
    assert hs + " " + hourUnit + " " + (ms + " " + minuteUnit) == t;
    assert t[0] == hs[0];
    assert t[|t| - 1] == minuteUnit[|minuteUnit| - 1];
    TrimKeeps(t);
  }

  lemma TrimmedHoursOnly(hs: string, hourUnit: string)
    requires |hs| > 0 && !IsJsWhitespace(hs[0])
    requires |hourUnit| > 0 && !IsJsWhitespace(hourUnit[|hourUnit| - 1])
    ensures Trim(hs + " " + hourUnit + " " + "") == hs + " " + hourUnit
  {
    var t := hs + " " + hourUnit;
    assert t + " " + "" == t + " ";
    assert t[0] == hs[0];
    assert t[|t| - 1] == hourUnit[|hourUnit| - 1];
    TrimEndDropsSpace(t);
    TrimEndKeeps(t);
    TrimStartKeeps(t);
  }

  lemma TrimmedMinutesOnly(ms: string, minuteUnit: string)
    requires |ms| > 0 && !IsJsWhitespace(ms[0])
    requires |minuteUnit| > 0 && !IsJsWhitespace(minuteUnit[|minuteUnit| - 1])
    ensures Trim("" + " " + (ms + " " + minuteUnit)) == ms + " " + minuteUnit
  {
    var t := ms + " " + minuteUnit;
    assert "" + " " + t == " " + t;
    assert t[0] == ms[0];
    assert (" " + t)[|" " + t| - 1] == minuteUnit[|minuteUnit| - 1];
    TrimEndKeeps(" " + t);
    TrimStartDropsSpace(t);
    TrimStartKeeps(t);
  }

  /** A positive duration is labelled with its whole hours and leftover minutes. */
  lemma DurationLabelOf(d: int)
    requires d > 0
    ensures DurationLabel(Some(d)) == UnitsText(d / 60, d % 60, HourUnit, MinuteUnit)
  {
    assert d / 60 > 0 || d % 60 > 0 by {
      assert d == 60 * (d / 60) + d % 60;
    }
    assert JsRem(d, 60) == d % 60;
    TrimmedUnits(d / 60, d % 60, HourUnit, MinuteUnit);
  }

  /** A period whose clock texts parse to s < e is labelled with the length e - s. */
  lemma DurationTextOf(p: Period, s: int, e: int)
    requires p.end.Some? && ClockMinutes(p.start) == Some(s) && ClockMinutes(p.end.value) == Some(e) && s < e
    ensures DurationText(p) == Some(DurationLabel(Some(e - s)))
  {
    assert PeriodDuration(p.start, p.end.value) == Some(e - s);
  }

  /**
   * A period between two formatted clock times -- as every period of a
   * compressed schedule is, by `PeriodsOfSchedule` -- is labelled with their
   * difference in whole hours and leftover minutes, in the shared units format
   * (which reads back by `UnitsTextRoundTrip`).
   */
  lemma DurationOfPeriod(p: Period, s: nat, e: nat)
    requires p.start == FormatClock(s) && p.end == Some(FormatClock(e)) && s < e
    ensures DurationText(p) == Some(UnitsText((e - s) / 60, (e - s) % 60, HourUnit, MinuteUnit))
  {
    assert DurationText(p) == Some(DurationLabel(Some(e - s))) by {
      ClockRoundTrip(s);
      ClockRoundTrip(e);
      DurationTextOf(p, s, e);
    }
    DurationLabelOf(e - s);
  }

  /* ---------------------------------------------------------------------- */
  /* Tomorrow                                                               */
  /* ---------------------------------------------------------------------- */

  /**
   * `tomorrowIsTrulyScheduled`: tomorrow has ranges, at least one of them is an
   * outage, and they are not the single all-day powered range.
   */
  predicate TomorrowIsTrulyScheduled(tomorrow: Option<seq<OutageRange>>) {
    && HasData(tomorrow)
    && (exists k :: 0 <= k < |tomorrow.value| && tomorrow.value[k].status == No)
    && !(|tomorrow.value| == 1 && tomorrow.value[0].status == Yes && tomorrow.value[0].timeRange == "00:00-24:00")
  }

  /**
   * The all-day powered test never decides anything: a day with an outage
   * range is never the single powered range, so tomorrow counts as scheduled
   * exactly when it has data and an outage range.
   */
  lemma AllDayTestRedundant(tomorrow: Option<seq<OutageRange>>)
    ensures TomorrowIsTrulyScheduled(tomorrow) <==>
              HasData(tomorrow) && exists k :: 0 <= k < |tomorrow.value| && tomorrow.value[k].status == No
  {
    if HasData(tomorrow) && exists k :: 0 <= k < |tomorrow.value| && tomorrow.value[k].status == No {
      var k :| 0 <= k < |tomorrow.value| && tomorrow.value[k].status == No;
      assert !(|tomorrow.value| == 1 && tomorrow.value[0].status == Yes);
    }
  }

  /** A status occurs among the re-expanded slots exactly when some range on the grid has it. */
  lemma {:induction false} StatusInSlots(ranges: seq<OutageRange>, status: Status)
    requires AllOnGrid(ranges)
    ensures status in SlotsOf(ranges) <==> exists k :: 0 <= k < |ranges| && ranges[k].status == status
    decreases |ranges|
  {
    if |ranges| > 0 {
      var n := |ranges|;
      var init := ranges[..n - 1];
      var last := ranges[n - 1];
      assert AllOnGrid(init) by {
        forall k | 0 <= k < |init| ensures OnGridRange(init[k]) { assert init[k] == ranges[k]; }
      }
      StatusInSlots(init, status);
      assert init + [last] == ranges;
      StatusInLastRange(init, last, status);
      StatusOfSnoc(init, last, status);
    }
  }

  /** Appending a range on the grid adds its status, and only its status, to the slots. */
  lemma StatusInLastRange(init: seq<OutageRange>, last: OutageRange, status: Status)
    requires OnGridRange(last)
    ensures status in SlotsOf(init + [last]) <==> status in SlotsOf(init) || status == last.status
  {
    SlotsOfAppend(init, last);
    WellFormedSlotCount(last);
    var rep := Repeat(last.status, SlotCount(last));
    assert rep[0] == last.status;
    assert status in rep ==> status == last.status by {
      if status in rep {
        var i :| 0 <= i < |rep| && rep[i] == status;
      }
    }
  }

  /** Some range of `init + [last]` has a status exactly when some range of `init` or `last` has it. */
  lemma StatusOfSnoc(init: seq<OutageRange>, last: OutageRange, status: Status)
    ensures var rs := init + [last];
            (exists k :: 0 <= k < |rs| && rs[k].status == status)
            <==> (exists k :: 0 <= k < |init| && init[k].status == status) || last.status == status
  {
    var rs := init + [last];
    if exists k :: 0 <= k < |rs| && rs[k].status == status {
      var k :| 0 <= k < |rs| && rs[k].status == status;
      if k < |init| {
        assert init[k] == rs[k];
      }
    }
    if exists k :: 0 <= k < |init| && init[k].status == status {
      var k :| 0 <= k < |init| && init[k].status == status;
      assert rs[k] == init[k];
    }
    assert rs[|init|] == last;
  }

  /**
   * For data that was compressed, tomorrow counts as scheduled exactly when some
   * half-hour slot is an outage; no data never counts.
   */
  lemma TomorrowScheduledIffOutage(tomorrow: Option<seq<OutageRange>>, slots: seq<Status>)
    requires tomorrow.Some? ==> IsRunEncoding(tomorrow.value, slots)
    ensures tomorrow.None? ==> !TomorrowIsTrulyScheduled(tomorrow)
    ensures tomorrow.Some? ==> (TomorrowIsTrulyScheduled(tomorrow) <==> No in slots)
  {
    if tomorrow.Some? {
      StatusInSlots(tomorrow.value, No);
    }
  }
}
