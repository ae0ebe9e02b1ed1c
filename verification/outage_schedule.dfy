/**
 * The outage-schedule interval engine of the dashboard: one group's 24 hourly
 * codes are expanded into 48 half-hour slots, the slots are run-length encoded
 * into maximal ranges labelled "HH:MM-HH:MM", and the ranges are queried for the
 * current period, the time left in the current state, the per-range duration
 * and whether tomorrow's schedule holds any outage at all.
 */
module OutageSchedule {

  import opened Wrappers
  import opened Text
  import opened HoursMinutes

  /** Power present ("yes") or absent ("no") during one half-hour slot. */
  datatype Status = Yes | No

  /** One group's hourly codes, keyed by the hour string "1".."24". */
  type GroupData = map<string, string>

  const HoursPerDay: nat := 24
  const SlotMinutes: nat := 30
  const MinutesPerDay: nat := 1440

  /* ---------------------------------------------------------------------- */
  /* Half-hour slot expansion                                               */
  /* ---------------------------------------------------------------------- */

  /** `groupData[String(h)]`: the code stored for hour `h`, if any. */
  function HourCode(g: GroupData, h: nat): (code: Option<string>) {
    var key := NatToString(h);
    if key in g then Some(g[key]) else None
  }

  /**
   * The two half-hour slots of one hour. Only the explicit codes "no", "first"
   * and "second" ever produce an absent slot: a missing, empty or unknown code
   * fails open to power present in both halves.
   */
  function ExpandCode(value: Option<string>): (pair: (Status, Status))
    ensures pair.0 == No <==> value == Some("no") || value == Some("first")
    ensures pair.1 == No <==> value == Some("no") || value == Some("second")
  {
    match value
    case None => (Yes, Yes)
    case Some(code) =>
      if code == "" then (Yes, Yes)
      else if code == "yes" then (Yes, Yes)
      else if code == "no" then (No, No)
      else if code == "first" then (No, Yes)
      else if code == "second" then (Yes, No)
      else (Yes, Yes)
  }

  /** The slots of hours 1..n, two per hour, in chronological order. */
  function ExpandHours(g: GroupData, n: nat): (slots: seq<Status>)
    ensures |slots| == 2 * n
    ensures forall h :: 1 <= h <= n ==>
              slots[2 * h - 2] == ExpandCode(HourCode(g, h)).0
              && slots[2 * h - 1] == ExpandCode(HourCode(g, h)).1
  {
    if n == 0 then []
    else
      var pair := ExpandCode(HourCode(g, n));
      ExpandHours(g, n - 1) + [pair.0, pair.1]
  }

  /** The 48 half-hour slots of one day: index i covers minutes [30i, 30i + 30). */
  function DaySlots(g: GroupData): (slots: seq<Status>)
    ensures |slots| == 2 * HoursPerDay
  {
    ExpandHours(g, HoursPerDay)
  }

  /** Slot i belongs to hour i/2 + 1; its half is chosen by the parity of i. */
  lemma DaySlotAt(g: GroupData, i: nat)
    requires i < 2 * HoursPerDay
    ensures DaySlots(g)[i] == (if i % 2 == 0 then ExpandCode(HourCode(g, i / 2 + 1)).0
                               else ExpandCode(HourCode(g, i / 2 + 1)).1)
  {
    var h := i / 2 + 1;
    assert 1 <= h <= HoursPerDay;
    assert i == 2 * h - 2 || i == 2 * h - 1;
  }

  /** A slot is absent only if its hour carries one of the explicit outage codes. */
  lemma NeverFabricatesOutage(g: GroupData, i: nat)
    requires i < 2 * HoursPerDay
    requires DaySlots(g)[i] == No
    ensures HourCode(g, i / 2 + 1) in {Some("no"), Some("first"), Some("second")}
  {
    DaySlotAt(g, i);
  }

  /** An unrecognised code for hour h gives the same day as leaving hour h out. */
  lemma UnknownCodeActsAsMissing(g: GroupData, h: nat, code: string)
    requires 1 <= h <= HoursPerDay
    requires code !in {"yes", "no", "first", "second"}
    ensures DaySlots(g[NatToString(h) := code]) == DaySlots(g - {NatToString(h)})
  {
    var g1, g2 := g[NatToString(h) := code], g - {NatToString(h)};
    forall h' | 1 <= h' <= HoursPerDay
      ensures ExpandCode(HourCode(g1, h')) == ExpandCode(HourCode(g2, h'))
    {
      if h' != h {
        if NatToString(h') == NatToString(h) {
          NatToStringInjective(h', h);
        }
      }
    }
    var s1, s2 := DaySlots(g1), DaySlots(g2);
    forall i | 0 <= i < |s1|
      ensures s1[i] == s2[i]
    {
      DaySlotAt(g1, i);
      DaySlotAt(g2, i);
    }
  }

  /* ---------------------------------------------------------------------- */
  /* "HH:MM" times                                                          */
  /* ---------------------------------------------------------------------- */

  /** The "HH:MM" text of a minute count, both fields zero-padded to two digits. */
  function FormatClock(minutes: nat): (c: string)
    ensures minutes < 6000 ==> |c| == 5 && c[2] == ':'
  {
    PadStart2(NatToString(minutes / 60)) + ":" + PadStart2(NatToString(minutes % 60))
  }

  /** `formatSlotTime`: the "HH:MM" start of slot i ("24:00" for i = 48). */
  function FormatSlotTime(slotIndex: nat): (t: string)
    ensures ClockMinutes(t) == Some(slotIndex * SlotMinutes)
    ensures slotIndex <= 48 ==> |t| == 5
  {
    ClockRoundTrip(slotIndex * SlotMinutes);
    FormatClock(slotIndex * SlotMinutes)
  }

  /** `h * 60 + m` after `t.split(":").map(Number)`; None stands for NaN. */
  function ClockMinutes(t: string): (minutes: Option<int>)
    ensures ':' !in t ==> minutes.None?
  {
    var parts := Split(t, ':');
    assert ':' !in t ==> |parts| == 1 by {
      if ':' !in t { SplitNoSeparator(t, ':'); }
    }
    if |parts| < 2 then None
    else
      match (JsNumber(parts[0]), JsNumber(parts[1]))
      case (Some(h), Some(m)) => Some(h * 60 + m)
      case _ => None
  }

  lemma NoSeparatorInDigits(s: string, c: char)
    requires AllDigits(s)
    requires !IsDigit(c)
    ensures c !in s
  {
    forall i | 0 <= i < |s|
      ensures s[i] != c
    {
      assert IsDigit(s[i]);
    }
  }

  /** Formatting a minute count and parsing it back is exact. */
  lemma ClockRoundTrip(minutes: nat)
    ensures ClockMinutes(FormatClock(minutes)) == Some(minutes)
  {
    var h, m := NatToString(minutes / 60), NatToString(minutes % 60);
    var hs, ms := PadStart2(h), PadStart2(m);
    PadStart2Value(h);
    PadStart2Value(m);
    DigitsValueOfNatToString(minutes / 60);
    DigitsValueOfNatToString(minutes % 60);
    NoSeparatorInDigits(hs, ':');
    NoSeparatorInDigits(ms, ':');
    SplitAtFirst(hs, ':', ms);
    SplitNoSeparator(ms, ':');
    assert hs + ":" + ms == hs + [':'] + ms;
  }

  /** Different minute counts never share a clock text. */
  lemma FormatClockInjective(a: nat, b: nat)
    requires FormatClock(a) == FormatClock(b)
    ensures a == b
  {
    ClockRoundTrip(a);
    ClockRoundTrip(b);
  }

  lemma NoDashInClock(minutes: nat)
    ensures '-' !in FormatClock(minutes)
  {
    var h, m := NatToString(minutes / 60), NatToString(minutes % 60);
    PadStart2Value(h);
    PadStart2Value(m);
    NoSeparatorInDigits(PadStart2(h), '-');
    NoSeparatorInDigits(PadStart2(m), '-');
  }

  /* ---------------------------------------------------------------------- */
  /* Ranges                                                                 */
  /* ---------------------------------------------------------------------- */

  datatype OutageRange = OutageRange(
    timeRange: string,
    emoji: string,
    text: string,
    status: Status,
    startMinutes: int,
    endMinutes: int)

  function Emoji(status: Status): (e: string) {
    if status == Yes then "🟢" else "🔴"
  }

  function Caption(status: Status): (c: string) {
    if status == Yes then "Світло буде" else "Світла не буде"
  }

  /** A non-empty range on the half-hour grid whose labels match its status and bounds. */
  predicate WellFormedRange(r: OutageRange) {
    OnGridRange(r) && Labelled(r)
  }

  /** A non-empty span of minutes starting and ending on a half-hour boundary. */
  predicate OnGridRange(r: OutageRange) {
    && 0 <= r.startMinutes < r.endMinutes
    && r.startMinutes % SlotMinutes == 0
    && r.endMinutes % SlotMinutes == 0
  }

  /** The range's "HH:MM-HH:MM" label, emoji and caption agree with its bounds and status. */
  predicate Labelled(r: OutageRange)
    requires 0 <= r.startMinutes && 0 <= r.endMinutes
  {
    && r.timeRange == FormatClock(r.startMinutes) + "-" + FormatClock(r.endMinutes)
    && r.emoji == Emoji(r.status)
    && r.text == Caption(r.status)
  }

  /**
   * `pushRange`: the range of slots startIndex..endIndex. Its minutes come from
   * formatting the bounds as "HH:MM" and parsing them back, which is exact.
   */
  function PushRange(startIndex: nat, endIndex: nat, status: Status): (r: OutageRange)
    requires startIndex <= endIndex
    ensures WellFormedRange(r) && r.status == status
    ensures r.startMinutes == SlotMinutes * startIndex
    ensures r.endMinutes == SlotMinutes * (endIndex + 1)
  {
    var startTime := FormatSlotTime(startIndex);
    var endTime := FormatSlotTime(endIndex + 1);
    ClockRoundTrip(startIndex * SlotMinutes);
    ClockRoundTrip((endIndex + 1) * SlotMinutes);
    OnGrid(startIndex);
    OnGrid(endIndex + 1);
    var startMinutes := ClockMinutes(startTime).value;
    var endMinutes := ClockMinutes(endTime).value;
    OutageRange(startTime + "-" + endTime, Emoji(status), Caption(status), status,
                startMinutes, endMinutes)
  }

  lemma OnGrid(i: nat)
    ensures i * SlotMinutes == SlotMinutes * i
    ensures (i * SlotMinutes) % SlotMinutes == 0
  {
  }

  /** The number of half-hour slots a range spans. */
  function SlotCount(r: OutageRange): (n: nat) {
    if r.endMinutes > r.startMinutes then (r.endMinutes - r.startMinutes) / SlotMinutes else 0
  }

  /** A well-formed range spans a whole, positive number of slots. */
  lemma WellFormedSlotCount(r: OutageRange)
    requires OnGridRange(r)
    ensures SlotCount(r) >= 1
    ensures SlotCount(r) * SlotMinutes == r.endMinutes - r.startMinutes
  {
    var a, b := r.startMinutes / SlotMinutes, r.endMinutes / SlotMinutes;
    assert r.startMinutes == SlotMinutes * a;
    assert r.endMinutes == SlotMinutes * b;
    assert r.endMinutes - r.startMinutes == SlotMinutes * (b - a);
  }

  /** Re-expansion of ranges into half-hour slots, each range giving its status once per slot. */
  function SlotsOf(ranges: seq<OutageRange>): (slots: seq<Status>) {
    if |ranges| == 0 then []
    else
      var last := ranges[|ranges| - 1];
      SlotsOf(ranges[..|ranges| - 1]) + Repeat(last.status, SlotCount(last))
  }

  /** Every range is well formed; the grid and the labels are stated apart so that proofs about minutes need not look at the labels. */
  predicate AllWellFormed(ranges: seq<OutageRange>) {
    AllOnGrid(ranges) && AllLabelled(ranges)
  }

  predicate AllOnGrid(ranges: seq<OutageRange>) {
    forall k :: 0 <= k < |ranges| ==> OnGridRange(ranges[k])
  }

  predicate AllLabelled(ranges: seq<OutageRange>) {
    forall k {:trigger Labelled(ranges[k])} :: 0 <= k < |ranges| ==> 0 <= ranges[k].startMinutes && 0 <= ranges[k].endMinutes && Labelled(ranges[k])
  }

  /** Each range ends where the next one starts. */
  predicate Contiguous(ranges: seq<OutageRange>) {
    forall k :: 0 <= k < |ranges| - 1 ==> ranges[k].endMinutes == ranges[k + 1].startMinutes
  }

  /** Neighbouring ranges differ in status, so no range could be merged with the next. */
  predicate Alternating(ranges: seq<OutageRange>) {
    forall k :: 0 <= k < |ranges| - 1 ==> ranges[k].status != ranges[k + 1].status
  }

  /** Well-formed, contiguous ranges in which neighbours differ in status. */
  predicate Chain(ranges: seq<OutageRange>) {
    AllWellFormed(ranges) && Contiguous(ranges) && Alternating(ranges)
  }

  /**
   * `ranges` is the maximal run-length encoding of `slots`: non-empty, starting
   * at minute 0, ending at 30 * |slots|, contiguous, adjacent ranges differing in
   * status, and re-expanding to exactly `slots`.
   */
  predicate IsRunEncoding(ranges: seq<OutageRange>, slots: seq<Status>) {
    && |ranges| > 0
    && Chain(ranges)
    && ranges[0].startMinutes == 0
    && ranges[|ranges| - 1].endMinutes == SlotMinutes * |slots|
    && SlotsOf(ranges) == slots
  }

  lemma SlotCountOfPush(startIndex: nat, endIndex: nat, status: Status)
    requires startIndex <= endIndex
    ensures SlotCount(PushRange(startIndex, endIndex, status)) == endIndex + 1 - startIndex
  {
    var r := PushRange(startIndex, endIndex, status);
    assert r.endMinutes - r.startMinutes == SlotMinutes * (endIndex + 1 - startIndex);
  }

  lemma SlotsOfAppend(ranges: seq<OutageRange>, r: OutageRange)
    ensures SlotsOf(ranges + [r]) == SlotsOf(ranges) + Repeat(r.status, SlotCount(r))
  {
    assert (ranges + [r])[..|ranges|] == ranges;
  }

  lemma WellFormedAppend(ranges: seq<OutageRange>, r: OutageRange)
    requires AllWellFormed(ranges) && WellFormedRange(r)
    ensures AllWellFormed(ranges + [r])
  {
    var rs := ranges + [r];
    forall k | 0 <= k < |rs|
      ensures WellFormedRange(rs[k])
    {
      if k < |ranges| {
        assert rs[k] == ranges[k];
      }
    }
  }

  lemma ContiguousAppend(ranges: seq<OutageRange>, r: OutageRange)
    requires Contiguous(ranges)
    requires |ranges| > 0 ==> ranges[|ranges| - 1].endMinutes == r.startMinutes
    ensures Contiguous(ranges + [r])
  {
  }

  lemma AlternatingAppend(ranges: seq<OutageRange>, r: OutageRange)
    requires Alternating(ranges)
    requires |ranges| > 0 ==> ranges[|ranges| - 1].status != r.status
    ensures Alternating(ranges + [r])
  {
  }

  lemma ChainAppend(ranges: seq<OutageRange>, r: OutageRange)
    requires Chain(ranges) && WellFormedRange(r)
    requires |ranges| > 0 ==> ranges[|ranges| - 1].endMinutes == r.startMinutes
    requires |ranges| > 0 ==> ranges[|ranges| - 1].status != r.status
    ensures Chain(ranges + [r])
  {
    WellFormedAppend(ranges, r);
    ContiguousAppend(ranges, r);
    AlternatingAppend(ranges, r);
  }

  /** Closing the open range [start, i) extends the encoding of slots[..start] to slots[..i]. */
  lemma CloseRange(ranges: seq<OutageRange>, slots: seq<Status>, start: nat, i: nat, status: Status)
    requires start < i <= |slots|
    requires IsRun(slots, start, i, status)
    requires Chain(ranges) && SlotsOf(ranges) == slots[..start]
    requires |ranges| == 0 <==> start == 0
    requires |ranges| > 0 ==> ranges[0].startMinutes == 0
    requires |ranges| > 0 ==> ranges[|ranges| - 1].endMinutes == SlotMinutes * start
    requires |ranges| > 0 ==> ranges[|ranges| - 1].status != status
    ensures var ranges' := ranges + [PushRange(start, i - 1, status)];
            && Chain(ranges')
            && SlotsOf(ranges') == slots[..i]
            && ranges'[0].startMinutes == 0
            && ranges'[|ranges'| - 1].endMinutes == SlotMinutes * i
            && ranges'[|ranges'| - 1].status == status
  {
    var r := PushRange(start, i - 1, status);
    SlotCountOfPush(start, i - 1, status);
    ChainAppend(ranges, r);
    SlotsOfAppend(ranges, r);
    RunPrefix(slots, start, i, status);
  }

  /** Every slot in [start, i) has the given status. */
  predicate IsRun(slots: seq<Status>, start: nat, i: nat, status: Status)
    requires start <= i <= |slots|
  {
    forall j :: start <= j < i ==> slots[j] == status
  }

  lemma RunExtend(slots: seq<Status>, start: nat, i: nat, status: Status)
    requires start <= i < |slots|
    requires IsRun(slots, start, i, status) && slots[i] == status
    ensures IsRun(slots, start, i + 1, status)
  {
  }

  /** A prefix ending in a run of one status is the shorter prefix plus that run. */
  lemma RunPrefix(slots: seq<Status>, start: nat, i: nat, status: Status)
    requires start <= i <= |slots|
    requires IsRun(slots, start, i, status)
    ensures slots[..i] == slots[..start] + Repeat(status, i - start)
  {
    var rhs := slots[..start] + Repeat(status, i - start);
    assert |rhs| == i;
    forall j | 0 <= j < i
      ensures slots[..i][j] == rhs[j]
    {
      if j < start {
        assert rhs[j] == slots[j];
      } else {
        assert rhs[j] == Repeat(status, i - start)[j - start];
      }
    }
  }

  /**
   * The compressor of `buildHalfHourRanges`: a linear scan that closes the open
   * range whenever the status changes, then closes the last one.
   */
  method CompressSlots(slots: seq<Status>) returns (ranges: seq<OutageRange>)
    ensures |slots| == 0 ==> ranges == []
    ensures |slots| > 0 ==> IsRunEncoding(ranges, slots)
  {
    if |slots| == 0 {
      return [];
    }
    ranges := [];
    var currentStatus := slots[0];
    var rangeStartIndex := 0;
    var i := 1;
    while i < |slots|
      invariant 1 <= i <= |slots|
      invariant 0 <= rangeStartIndex < i
      invariant currentStatus == slots[rangeStartIndex]
      invariant IsRun(slots, rangeStartIndex, i, currentStatus)
      invariant Chain(ranges)
      invariant SlotsOf(ranges) == slots[..rangeStartIndex]
      invariant |ranges| == 0 <==> rangeStartIndex == 0
      invariant |ranges| > 0 ==> ranges[0].startMinutes == 0
      invariant |ranges| > 0 ==> ranges[|ranges| - 1].endMinutes == SlotMinutes * rangeStartIndex
      invariant |ranges| > 0 ==> ranges[|ranges| - 1].status != currentStatus
    {
      if slots[i] != currentStatus {
        CloseRange(ranges, slots, rangeStartIndex, i, currentStatus);
        ranges := ranges + [PushRange(rangeStartIndex, i - 1, currentStatus)];
        rangeStartIndex := i;
        currentStatus := slots[i];
      }
      RunExtend(slots, rangeStartIndex, i, currentStatus);
      i := i + 1;
    }
    CloseRange(ranges, slots, rangeStartIndex, |slots|, currentStatus);
    ranges := ranges + [PushRange(rangeStartIndex, |slots| - 1, currentStatus)];
    assert slots[..|slots|] == slots;
  }

  /**
   * `buildHalfHourRanges`: no group data gives no ranges (which is not the same
   * as a full day of power); any group data gives the run-length encoding of its
   * 48 slots.
   */
  method BuildHalfHourRanges(groupData: Option<GroupData>) returns (ranges: seq<OutageRange>)
    ensures groupData.None? ==> ranges == []
    ensures groupData.Some? ==> IsRunEncoding(ranges, DaySlots(groupData.value))
  {
    if groupData.None? {
      return [];
    }
    var slots := DaySlots(groupData.value);
    ranges := CompressSlots(slots);
  }
}
