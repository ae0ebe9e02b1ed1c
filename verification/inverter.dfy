/**
 * The inverter panel's derivations: the time-to-full label, grid detection,
 * the split of the signed battery power into discharge and charge, the power
 * drawn from the grid, the capacity clamp and its colour, and the choice of
 * the discharge / charge / idle card together with the battery circle's props.
 * Powers, voltages and percentages are integers; a time in seconds is a real
 * or a non-finite number.
 */
module Inverter {

  import opened Wrappers
  import opened HoursMinutes

  /** `BATTERY_CAPACITY_WH`: 5.12 kWh. */
  const BatteryCapacityWh := 5120

  /* ---------------------------------------------------------------------- */
  /* Time-to-full label                                                     */
  /* ---------------------------------------------------------------------- */

  /** A JavaScript number of seconds: finite, or Infinity/NaN. */
  datatype Seconds = Finite(value: real) | NonFinite

  const NoTime := "—"
  const UnderAMinute := "< 1 хв"

  /**
   * Whole hours, then whole minutes of what remains. For positive seconds
   * `seconds % 3600` is `seconds - 3600 * floor(seconds / 3600)`.
   */
  function TimeSplit(seconds: real): (hm: (nat, nat))
    requires seconds > 0.0
    ensures hm.1 < 60
    ensures ((hm.0 * 3600 + hm.1 * 60) as real) <= seconds < ((hm.0 * 3600 + hm.1 * 60 + 60) as real)
  {
    var h := (seconds / 3600.0).Floor;
    var rest := seconds - (h as real) * 3600.0;
    var m := (rest / 60.0).Floor;
    (h, m)
  }

  /** The split is the only one with those bounds. */
  lemma TimeSplitUnique(seconds: real, h: nat, m: nat)
    requires seconds > 0.0 && m < 60
    requires ((h * 3600 + m * 60) as real) <= seconds < ((h * 3600 + m * 60 + 60) as real)
    ensures TimeSplit(seconds) == (h, m)
  {
    var hm := TimeSplit(seconds);
    var x := h * 60 + m;
    var y := hm.0 * 60 + hm.1;
    assert 60 * x - 60 < 60 * y < 60 * x + 60;
    assert x == y;
  }

  /** `formatTimeToFull`. */
  function FormatTimeToFull(seconds: Seconds): (text: string)
    ensures seconds.NonFinite? || seconds.value <= 0.0 ==> text == NoTime
    ensures seconds.Finite? && 0.0 < seconds.value < 60.0 ==> text == UnderAMinute
  {
    if seconds.NonFinite? || seconds.value <= 0.0 then NoTime
    else
      var hm := TimeSplit(seconds.value);
      if hm.0 > 0 || hm.1 > 0 then UnitsText(hm.0, hm.1, HourUnit, MinuteUnit) else UnderAMinute
  }

  /** From a minute on, the label reads back as the whole hours and minutes of the time. */
  lemma FormatTimeToFullReadsBack(seconds: real)
    requires seconds >= 60.0
    ensures var hm := TimeSplit(seconds);
            && ParseUnitsText(FormatTimeToFull(Finite(seconds)), HourUnit, MinuteUnit) == Some(hm)
            && (hm.0 * 3600 + hm.1 * 60) as real <= seconds < (hm.0 * 3600 + hm.1 * 60 + 60) as real
  {
    var hm := TimeSplit(seconds);
    assert hm.0 > 0 || hm.1 > 0;
    UnitsTextRoundTrip(hm.0, hm.1, HourUnit, MinuteUnit);
  }

  /** Two positive times get the same label exactly when they agree on whole hours and minutes. */
  lemma FormatTimeToFullInjective(a: real, b: real)
    requires a >= 60.0 && b >= 60.0
    ensures FormatTimeToFull(Finite(a)) == FormatTimeToFull(Finite(b)) <==> TimeSplit(a) == TimeSplit(b)
  {
    if FormatTimeToFull(Finite(a)) == FormatTimeToFull(Finite(b)) {
      FormatTimeToFullReadsBack(a);
      FormatTimeToFullReadsBack(b);
    }
  }

  /* ---------------------------------------------------------------------- */
  /* Power flow                                                             */
  /* ---------------------------------------------------------------------- */

  /** The inverter reading; every field may be missing. */
  datatype InverterData = InverterData(
    acVoltage: Option<int>,
    loadPower: Option<int>,
    batteryPower: Option<int>,
    capacityPercentage: Option<int>)

  datatype PowerFlow = PowerFlow(
    hasGrid: bool,
    loadPower: int,
    batteryPower: int,
    capacity: int,
    gridPowerW: int,
    inverterPowerW: int,
    chargingPowerW: int)

  /**
   * The derived figures. Battery power is signed: positive while the battery
   * discharges into the inverter, negative while it charges.
   */
  function Derive(data: Option<InverterData>): (f: PowerFlow)
    ensures f.hasGrid <==> data.Some? && data.value.acVoltage.Some? && data.value.acVoltage.value > 50
    ensures f.loadPower == (if data.Some? then data.value.loadPower.GetOr(0) else 0)
    ensures f.batteryPower == (if data.Some? then data.value.batteryPower.GetOr(0) else 0)
    ensures f.capacity == (if data.Some? then data.value.capacityPercentage.GetOr(0) else 0)
    ensures f.inverterPowerW >= 0 && f.chargingPowerW >= 0
    ensures f.inverterPowerW - f.chargingPowerW == f.batteryPower
    ensures f.inverterPowerW == 0 || f.chargingPowerW == 0
    ensures f.gridPowerW >= 0
    ensures !f.hasGrid ==> f.gridPowerW == 0
    ensures f.hasGrid ==> f.gridPowerW >= f.loadPower - f.batteryPower
    ensures f.hasGrid && f.loadPower <= f.batteryPower ==> f.gridPowerW == 0
  {
    var hasGrid := data.Some? && data.value.acVoltage.Some? && data.value.acVoltage.value > 50;
    var load := if data.Some? then data.value.loadPower.GetOr(0) else 0;
    var battery := if data.Some? then data.value.batteryPower.GetOr(0) else 0;
    var capacity := if data.Some? then data.value.capacityPercentage.GetOr(0) else 0;
    var grid := if hasGrid then (if load - battery > 0 then load - battery else 0) else 0;
    var inverter := if battery > 0 then battery else 0;
    var charging := if battery < 0 then -battery else 0;
    PowerFlow(hasGrid, load, battery, capacity, grid, inverter, charging)
  }

  /**
   * With the grid present, the grid supplies exactly the shortfall the battery
   * leaves, and nothing once the battery alone covers the load.
   */
  lemma GridCoversShortfall(data: Option<InverterData>)
    requires Derive(data).hasGrid
    ensures var f := Derive(data);
            && (f.loadPower >= f.batteryPower ==> f.gridPowerW + f.batteryPower == f.loadPower)
            && (f.loadPower <= f.batteryPower ==> f.gridPowerW == 0)
  {
  }

  /** At most one of discharge and charge is shown as non-zero, and the sign of the battery power says which. */
  lemma DischargeOrCharge(data: Option<InverterData>)
    ensures var f := Derive(data);
            && (f.inverterPowerW > 0 <==> f.batteryPower > 0)
            && (f.chargingPowerW > 0 <==> f.batteryPower < 0)
            && (f.batteryPower == 0 <==> f.inverterPowerW == 0 && f.chargingPowerW == 0)
  {
  }

  /* ---------------------------------------------------------------------- */
  /* Capacity and colour                                                    */
  /* ---------------------------------------------------------------------- */

  /** `Math.min(100, Math.max(0, capacity))`. */
  function ClampCapacity(capacity: int): (c: int)
    ensures 0 <= c <= 100
    ensures 0 <= capacity <= 100 ==> c == capacity
    ensures capacity < 0 ==> c == 0
    ensures capacity > 100 ==> c == 100
  {
    var low := if capacity > 0 then capacity else 0;
    if low < 100 then low else 100
  }

  datatype Level = Green | Amber | Red

  datatype Color = Color(main: string, glow: string)

  function LevelColor(level: Level): (c: Color) {
    match level
    case Green => Color("#10b981", "rgba(16, 185, 129, 0.5)")
    case Amber => Color("#f59e0b", "rgba(245, 158, 11, 0.5)")
    case Red => Color("#ef4444", "rgba(239, 68, 68, 0.5)")
  }

  /** `getColor`'s thresholds on the clamped capacity. */
  function CapacityLevel(clamped: int): (level: Level)
    ensures level == Green <==> clamped > 60
    ensures level == Amber <==> 30 < clamped <= 60
    ensures level == Red <==> clamped <= 30
  {
    if clamped > 60 then Green else if clamped > 30 then Amber else Red
  }

  /** How good a level is: Red 0, Amber 1, Green 2. */
  function Rank(level: Level): (r: nat) {
    match level
    case Red => 0
    case Amber => 1
    case Green => 2
  }

  /** More charge never shows a worse colour. */
  lemma LevelMonotone(a: int, b: int)
    requires a <= b
    ensures Rank(CapacityLevel(ClampCapacity(a))) <= Rank(CapacityLevel(ClampCapacity(b)))
  {
  }

  /** The three colours are distinct, so the colour tells the level. */
  lemma LevelColorInjective(x: Level, y: Level)
    requires LevelColor(x).main == LevelColor(y).main
    ensures x == y
  {
  }

  /* ---------------------------------------------------------------------- */
  /* Card selection and battery circle                                      */
  /* ---------------------------------------------------------------------- */

  /** The card shown in the discharge slot. */
  datatype Card =
    | DischargeCard(watts: int, timeToEmpty: string)
    | ChargeCard(watts: int, timeToFull: string)
    | IdleCard

  /** What the battery circle receives. */
  datatype CircleProps = CircleProps(
    capacity: int,
    isCharging: bool,
    particleColor: string,
    timeToEmpty: Option<string>,
    timeToFull: Option<string>)

  /**
   * The card: discharge while the inverter draws from the battery, else charge
   * while the grid charges it, else idle. The two times come from floating-point
   * divisions and are inputs here.
   */
  function SelectCard(f: PowerFlow, timeToEmptySec: Seconds, timeToFullSec: Seconds): (card: Card)
    ensures card.DischargeCard? <==> f.inverterPowerW > 0
    ensures card.ChargeCard? <==> f.inverterPowerW <= 0 && f.hasGrid && f.chargingPowerW > 0
    ensures card.DischargeCard? ==> card.watts == f.inverterPowerW
    ensures card.ChargeCard? ==> card.watts == f.chargingPowerW
  {
    if f.inverterPowerW > 0 then DischargeCard(f.inverterPowerW, FormatTimeToFull(timeToEmptySec))
    else if f.hasGrid && f.chargingPowerW > 0 then ChargeCard(f.chargingPowerW, FormatTimeToFull(timeToFullSec))
    else IdleCard
  }

  /** The battery circle's props. */
  function Circle(f: PowerFlow, timeToEmptySec: Seconds, timeToFullSec: Seconds): (p: CircleProps)
    ensures p.capacity == f.capacity
    ensures p.isCharging <==> f.batteryPower < 0
    ensures p.particleColor == (if p.isCharging then "#10b981" else "#ef4444")
    ensures p.timeToEmpty.Some? <==> f.inverterPowerW > 0
    ensures p.timeToFull.Some? <==> f.hasGrid && f.chargingPowerW > 0
  {
    var isCharging := f.batteryPower < 0;
    CircleProps(
      f.capacity,
      isCharging,
      if isCharging then "#10b981" else "#ef4444",
      if f.inverterPowerW > 0 then Some(FormatTimeToFull(timeToEmptySec)) else None,
      if f.hasGrid && f.chargingPowerW > 0 then Some(FormatTimeToFull(timeToFullSec)) else None)
  }

  /**
   * For derived figures, the card and the circle tell the same story: the
   * circle shows a time to empty exactly with the discharge card, a time to
   * full exactly with the charge card (and then the battery is charging), and
   * never both; both show the same text.
   */
  lemma CardAgreesWithCircle(data: Option<InverterData>, timeToEmptySec: Seconds, timeToFullSec: Seconds)
    ensures var f := Derive(data);
            var card := SelectCard(f, timeToEmptySec, timeToFullSec);
            var p := Circle(f, timeToEmptySec, timeToFullSec);
            && (card.DischargeCard? <==> p.timeToEmpty.Some?)
            && (card.ChargeCard? <==> p.timeToFull.Some?)
            && (card.IdleCard? <==> p.timeToEmpty.None? && p.timeToFull.None?)
            && (card.DischargeCard? ==> p.timeToEmpty.value == card.timeToEmpty && !p.isCharging)
            && (card.ChargeCard? ==> p.timeToFull.value == card.timeToFull && p.isCharging)
  {
  }
}
