/**
 * The alert map: the set of alerted API region ids (active rows plus an
 * optional list of ids, closed under the Donetsk alias "11"/"28"), the table
 * from map region ids to API ids, each region's path and caption styles, and
 * the count of alerted regions. The table is kept exactly as written: id 25
 * maps to "31" (Kyiv city) although the region table captions 25 "АР Крим",
 * and 6 maps to "7", which is not an oblast id.
 */
module UkraineMap {

  import opened Regions
  import opened Oblasts
  import opened Wrappers
  import AlertsRoute
  import DashboardAlerts

  type MapAlert = DashboardAlerts.AlertRegion

  /** `regionIdMap`: map region id to API region id. */
  const RegionIdMap: map<int, string> := map[
    1 := "4", 2 := "8", 3 := "9", 4 := "11", 5 := "10", 6 := "7", 7 := "12",
    8 := "13", 9 := "14", 10 := "15", 11 := "16", 12 := "27", 13 := "17",
    14 := "18", 15 := "19", 16 := "5", 17 := "20", 18 := "21", 19 := "22",
    20 := "23", 21 := "3", 22 := "24", 23 := "26", 24 := "25", 25 := "31",
    26 := "29"
  ]

  /** The ids of flagged rows. */
  function ActiveIds(alerts: seq<MapAlert>): (ids: set<string>)
    ensures forall id :: id in ids <==> exists i :: 0 <= i < |alerts| && alerts[i].regionId == id && alerts[i].activeAlert
  {
    set i | 0 <= i < |alerts| && alerts[i].activeAlert :: alerts[i].regionId
  }

  /** The ids before the alias step: flagged rows plus the extra list. */
  function RawIds(alerts: seq<MapAlert>, extra: seq<string>): (ids: set<string>) {
    ActiveIds(alerts) + set i | 0 <= i < |extra| :: extra[i]
  }

  /** Donetsk has two API ids; if either is alerted both are. */
  function CloseAlias(ids: set<string>): (closed: set<string>)
    ensures ids <= closed
    ensures "11" in closed <==> "28" in closed
    ensures closed - ids <= {"11", "28"}
  {
    if "11" in ids || "28" in ids then ids + {"11", "28"} else ids
  }

  /** The map's alert set. */
  function AlertSet(alerts: seq<MapAlert>, extra: seq<string>): (ids: set<string>)
    ensures RawIds(alerts, extra) <= ids
    ensures "11" in ids <==> "28" in ids
    ensures ids - RawIds(alerts, extra) <= {"11", "28"}
  {
    CloseAlias(RawIds(alerts, extra))
  }

  /** A row that is not flagged adds nothing to the alert set. */
  lemma InactiveRowAddsNothing(alerts: seq<MapAlert>, extra: seq<string>, row: MapAlert)
    requires !row.activeAlert
    ensures AlertSet(alerts + [row], extra) == AlertSet(alerts, extra)
  {
    var a := alerts + [row];
    assert ActiveIds(a) == ActiveIds(alerts) by {
      forall id ensures id in ActiveIds(a) <==> id in ActiveIds(alerts) {
        if id in ActiveIds(a) {
          var i :| 0 <= i < |a| && a[i].regionId == id && a[i].activeAlert;
          assert i < |alerts| && alerts[i] == a[i];
        }
        if id in ActiveIds(alerts) {
          var i :| 0 <= i < |alerts| && alerts[i].regionId == id && alerts[i].activeAlert;
          assert a[i] == alerts[i];
        }
      }
    }
  }

  /** The alert state of a map region: it has an API id and that id is alerted. */
  function HasAlert(regionId: int, ids: set<string>): (lit: bool)
    ensures lit ==> 1 <= regionId <= 26
    ensures ids == {} ==> !lit
  {
    MapKeys(regionId);
    regionId in RegionIdMap && RegionIdMap[regionId] in ids
  }

  datatype PathStyle = PathStyle(fill: string, stroke: string, opacity: string, className: string)
  datatype LabelStyle = LabelStyle(textColor: string, fontWeight: string)

  /** Path colours, opacity and pulse class: chosen by the alert state alone. */
  function PathStyleOf(hasAlert: bool): (s: PathStyle)
    ensures hasAlert <==> s.fill == "#7a1f2d"
    ensures hasAlert <==> s.className == "animate-pulse"
    ensures !hasAlert <==> s.className == ""
  {
    if hasAlert then PathStyle("#7a1f2d", "#c53030", "1", "animate-pulse")
    else PathStyle("#16202C", "#2a3a4d", "0.9", "")
  }

  /** Caption colour and weight: chosen by the alert state alone. */
  function LabelStyleOf(hasAlert: bool): (s: LabelStyle)
    ensures hasAlert <==> s.textColor == "#ff6b7a"
    ensures hasAlert <==> s.fontWeight == "bold"
  {
    if hasAlert then LabelStyle("#ff6b7a", "bold") else LabelStyle("#8ba3c0", "normal")
  }

  datatype RegionView = RegionView(id: int, title: string, path: PathStyle, caption: LabelStyle)

  /** The rendered regions, in table order. */
  function Render(regions: seq<Region>, ids: set<string>): (views: seq<RegionView>)
    ensures |views| == |regions|
    ensures forall k :: 0 <= k < |regions| ==>
              views[k].id == regions[k].id && views[k].title == regions[k].title
              && (views[k].path.fill == "#7a1f2d" <==> HasAlert(regions[k].id, ids))
  {
    seq(|regions|, k requires 0 <= k < |regions| =>
      RegionView(regions[k].id, regions[k].title,
                 PathStyleOf(HasAlert(regions[k].id, ids)),
                 LabelStyleOf(HasAlert(regions[k].id, ids))))
  }

  /** A region's path and its caption always agree on whether it is alerted. */
  lemma PathAndLabelAgree(regions: seq<Region>, ids: set<string>, k: nat)
    requires k < |regions|
    ensures var v := Render(regions, ids)[k];
            v.path.fill == "#7a1f2d" <==> v.caption.textColor == "#ff6b7a"
  {
  }

  /** The number of alerted regions, as a reference definition. */
  function CountAlerted(regions: seq<Region>, ids: set<string>): (n: nat)
    ensures n <= |regions|
    decreases |regions|
  {
    if |regions| == 0 then 0
    else CountAlerted(regions[..|regions| - 1], ids) + (if HasAlert(regions[|regions| - 1].id, ids) then 1 else 0)
  }

  /** The `alertCount` loop. */
  method AlertCount(regions: seq<Region>, ids: set<string>) returns (count: nat)
    ensures count == CountAlerted(regions, ids)
    ensures count <= |regions|
  {
    count := 0;
    var i := 0;
    while i < |regions|
      invariant 0 <= i <= |regions|
      invariant count == CountAlerted(regions[..i], ids)
    {
      assert regions[..i + 1][..i] == regions[..i];
      if HasAlert(regions[i].id, ids) {
        count := count + 1;
      }
      i := i + 1;
    }
    assert regions[..i] == regions;
  }

  /** The number of regions without an alert, as a reference definition. */
  function CountQuiet(regions: seq<Region>, ids: set<string>): (n: nat)
    decreases |regions|
  {
    if |regions| == 0 then 0
    else CountQuiet(regions[..|regions| - 1], ids) + (if HasAlert(regions[|regions| - 1].id, ids) then 0 else 1)
  }

  /** The "without alert" figure `regions.length - alertCount` is exactly the number of quiet regions. */
  lemma {:induction false} QuietFigure(regions: seq<Region>, ids: set<string>)
    ensures |regions| - CountAlerted(regions, ids) == CountQuiet(regions, ids)
    decreases |regions|
  {
    if |regions| > 0 {
      QuietFigure(regions[..|regions| - 1], ids);
    }
  }

  /** Adding ids never lowers the count. */
  lemma {:induction false} CountMonotone(regions: seq<Region>, ids: set<string>, more: set<string>)
    requires ids <= more
    ensures CountAlerted(regions, ids) <= CountAlerted(regions, more)
    decreases |regions|
  {
    if |regions| > 0 {
      CountMonotone(regions[..|regions| - 1], ids, more);
    }
  }

  /* ---------------------------------------------------------------------- */
  /* What the tables as written imply                                       */
  /* ---------------------------------------------------------------------- */

  /** An alert for Kyiv city ("31") lights region 25, whose caption is "АР Крим". */
  lemma KyivCityLightsCrimeaCaption(alerts: seq<MapAlert>, extra: seq<string>)
    requires "31" in AlertSet(alerts, extra)
    ensures HasAlert(25, AlertSet(alerts, extra))
    ensures AllRegions[24].id == 25 && AllRegions[24].title == "АР Крим"
  {
  }

  /** Either Donetsk id lights region 4. */
  lemma DonetskAlias(alerts: seq<MapAlert>, extra: seq<string>)
    requires "11" in RawIds(alerts, extra) || "28" in RawIds(alerts, extra)
    ensures HasAlert(4, AlertSet(alerts, extra))
  {
  }

  /** Region 6 maps to "7", not an oblast id: rows that carry oblast ids never light it. */
  lemma ZakarpattiaNeverLitByOblastRows(alerts: seq<MapAlert>)
    requires forall i :: 0 <= i < |alerts| ==> IsOblastId(alerts[i].regionId)
    ensures !HasAlert(6, AlertSet(alerts, []))
  {
    OblastIdsLacksSeven();
  }

  /** The table's keys are exactly 1..26. */
  lemma MapKeys(id: int)
    ensures id in RegionIdMap <==> 1 <= id <= 26
  {
  }

  /** Which map regions the ids of interest come from. */
  lemma MapInverse(id: int)
    requires id in RegionIdMap
    ensures RegionIdMap[id] == "14" ==> id == 9
    ensures RegionIdMap[id] == "31" ==> id == 25
    ensures RegionIdMap[id] == "29" ==> id == 26
    ensures RegionIdMap[id] != "701"
  {
  }

  /** "29" (Crimea) is mapped from region 26, which the region table does not have: it lights nothing. */
  lemma CrimeaIdLightsNothing()
    ensures CountAlerted(AllRegions, {"29"}) == 0
  {
    RegionIds();
    forall k | 0 <= k < |AllRegions| ensures !HasAlert(AllRegions[k].id, {"29"}) {
      if AllRegions[k].id in RegionIdMap {
        MapInverse(AllRegions[k].id);
      }
    }
    NothingLit(AllRegions, {"29"});
  }

  lemma {:induction false} NothingLit(regions: seq<Region>, ids: set<string>)
    requires forall k :: 0 <= k < |regions| ==> !HasAlert(regions[k].id, ids)
    ensures CountAlerted(regions, ids) == 0
    decreases |regions|
  {
    if |regions| > 0 {
      NothingLit(regions[..|regions| - 1], ids);
    }
  }

  /**
   * The dashboard panel feeds the map its three rows only; of the region
   * table, at most Kyiv oblast (9) and region 25 (Kyiv city, captioned
   * "АР Крим") can then be alerted.
   */
  lemma PanelLightsOnlyKyiv(response: Option<AlertsRoute.AlertsResponse>, k: nat)
    requires k < |AllRegions|
    requires HasAlert(AllRegions[k].id, AlertSet(DashboardAlerts.Panel(response).alerts, []))
    ensures AllRegions[k].id == 9 || AllRegions[k].id == 25
  {
    var rows := DashboardAlerts.Panel(response).alerts;
    PanelRowIds(response);
    assert RawIds(rows, []) == ActiveIds(rows);
    var apiId := RegionIdMap[AllRegions[k].id];
    assert apiId in ActiveIds(rows);
    MapInverse(AllRegions[k].id);
  }

  /** The panel's rows carry the three target ids only. */
  lemma PanelRowIds(response: Option<AlertsRoute.AlertsResponse>)
    ensures forall id :: id in ActiveIds(DashboardAlerts.Panel(response).alerts) ==> id == "31" || id == "14" || id == "701"
  {
    var rows := DashboardAlerts.Panel(response).alerts;
    forall i | 0 <= i < |rows| ensures rows[i].regionId == "31" || rows[i].regionId == "14" || rows[i].regionId == "701" {
    }
  }
}
