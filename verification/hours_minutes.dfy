/**
 * The "<h> <hour-unit> <m> <minute-unit>" text shape shared by the outage
 * countdown, the outage period duration and the inverter's time-to-full label:
 * the hours part appears only when the hours are positive, the minutes part only
 * when the minutes are positive, and the two are separated by one space.
 */
module HoursMinutes {

  import opened Wrappers
  import opened Text

  /** The units the dashboard writes: hours and minutes in Ukrainian. */
  const HourUnit := "год"
  const MinuteUnit := "хв"

  function UnitsText(h: nat, m: nat, hourUnit: string, minuteUnit: string): (t: string) {
    if h > 0 && m > 0 then NatToString(h) + " " + hourUnit + " " + NatToString(m) + " " + minuteUnit
    else if h > 0 then NatToString(h) + " " + hourUnit
    else if m > 0 then NatToString(m) + " " + minuteUnit
    else ""
  }

  /** Reads an hours/minutes text back; None when the text has not that shape. */
  function ParseUnitsText(t: string, hourUnit: string, minuteUnit: string): (hm: Option<(nat, nat)>) {
    var tokens := Split(t, ' ');
    if |tokens| == 4 && AllDigits(tokens[0]) && tokens[1] == hourUnit
       && AllDigits(tokens[2]) && tokens[3] == minuteUnit then
      Some((DigitsValue(tokens[0]), DigitsValue(tokens[2])))
    else if |tokens| == 2 && AllDigits(tokens[0]) && tokens[1] == hourUnit then
      Some((DigitsValue(tokens[0]), 0))
    else if |tokens| == 2 && AllDigits(tokens[0]) && tokens[1] == minuteUnit then
      Some((0, DigitsValue(tokens[0])))
    else None
  }

  predicate ValidUnits(hourUnit: string, minuteUnit: string) {
    ' ' !in hourUnit && ' ' !in minuteUnit && hourUnit != minuteUnit
  }

  lemma NoSpaceInNumber(n: nat)
    ensures ' ' !in NatToString(n)
  {
    var s := NatToString(n);
    forall i | 0 <= i < |s|
      ensures s[i] != ' '
    {
      assert IsDigit(s[i]);
    }
  }

  /** Splitting "x y" on spaces when neither part has a space. */
  lemma SplitTwo(x: string, y: string)
    requires ' ' !in x && ' ' !in y
    ensures Split(x + " " + y, ' ') == [x, y]
  {
    SplitAtFirst(x, ' ', y);
    SplitNoSeparator(y, ' ');
  }

  /** Splitting "x y z w" on spaces when no part has a space. */
  lemma SplitFour(x: string, y: string, z: string, w: string)
    requires ' ' !in x && ' ' !in y && ' ' !in z && ' ' !in w
    ensures Split(x + " " + y + " " + z + " " + w, ' ') == [x, y, z, w]
  {
    var zw := z + " " + w;
    var yzw := y + [' '] + zw;
    assert x + " " + y + " " + z + " " + w == x + [' '] + yzw;
    SplitAtFirst(x, ' ', yzw);
    SplitAtFirst(y, ' ', zw);
    SplitTwo(z, w);
  }

  /** The text is empty exactly when both parts are zero. */
  lemma UnitsTextEmpty(h: nat, m: nat, hourUnit: string, minuteUnit: string)
    ensures UnitsText(h, m, hourUnit, minuteUnit) == "" <==> h == 0 && m == 0
  {
    NatToStringNonEmpty(h);
    NatToStringNonEmpty(m);
  }

  /** A non-empty hours/minutes text determines its hours and minutes. */
  lemma UnitsTextRoundTrip(h: nat, m: nat, hourUnit: string, minuteUnit: string)
    requires ValidUnits(hourUnit, minuteUnit)
    requires h > 0 || m > 0
    ensures ParseUnitsText(UnitsText(h, m, hourUnit, minuteUnit), hourUnit, minuteUnit) == Some((h, m))
  {
    NoSpaceInNumber(h);
    NoSpaceInNumber(m);
    DigitsValueOfNatToString(h);
    DigitsValueOfNatToString(m);
    if h > 0 && m > 0 {
      BothPartsRoundTrip(NatToString(h), NatToString(m), hourUnit, minuteUnit);
    } else if h > 0 {
      OnePartRoundTrip(NatToString(h), hourUnit, hourUnit, minuteUnit);
    } else {
      OnePartRoundTrip(NatToString(m), minuteUnit, hourUnit, minuteUnit);
    }
  }

  /** "<hs> <hour-unit> <ms> <minute-unit>" reads back as its two numbers. */
  lemma BothPartsRoundTrip(hs: string, ms: string, hourUnit: string, minuteUnit: string)
    requires ValidUnits(hourUnit, minuteUnit)
    requires AllDigits(hs) && AllDigits(ms) && ' ' !in hs && ' ' !in ms
    ensures ParseUnitsText(hs + " " + hourUnit + " " + ms + " " + minuteUnit, hourUnit, minuteUnit)
            == Some((DigitsValue(hs), DigitsValue(ms)))
  {
    SplitFour(hs, hourUnit, ms, minuteUnit);
  }

  /** "<ns> <unit>" reads back as hours or minutes according to the unit. */
  lemma OnePartRoundTrip(ns: string, unit: string, hourUnit: string, minuteUnit: string)
    requires ValidUnits(hourUnit, minuteUnit)
    requires unit == hourUnit || unit == minuteUnit
    requires AllDigits(ns) && ' ' !in ns
    ensures ParseUnitsText(ns + " " + unit, hourUnit, minuteUnit)
            == Some(if unit == hourUnit then (DigitsValue(ns), 0) else (0, DigitsValue(ns)))
  {
    SplitTwo(ns, unit);
  }

  /** Distinct (hours, minutes) pairs give distinct texts. */
  lemma UnitsTextInjective(h1: nat, m1: nat, h2: nat, m2: nat, hourUnit: string, minuteUnit: string)
    requires ValidUnits(hourUnit, minuteUnit)
    requires UnitsText(h1, m1, hourUnit, minuteUnit) == UnitsText(h2, m2, hourUnit, minuteUnit)
    ensures h1 == h2 && m1 == m2
  {
    UnitsTextEmpty(h1, m1, hourUnit, minuteUnit);
    UnitsTextEmpty(h2, m2, hourUnit, minuteUnit);
    if h1 > 0 || m1 > 0 {
      UnitsTextRoundTrip(h1, m1, hourUnit, minuteUnit);
      UnitsTextRoundTrip(h2, m2, hourUnit, minuteUnit);
    }
  }

  lemma NatToStringNonEmpty(n: nat)
    ensures |NatToString(n)| >= 1
  {
  }
}
