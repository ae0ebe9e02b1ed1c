/**
 * What the alert sources share: the ukrainealarm.com region record, the list of
 * oblast-level region ids (districts and communities are dropped), and the
 * front-end `AlertData` shape a region record is reshaped into. The alerts
 * route and the alerts store each declare the same id list and the same
 * reshaping; they are defined once here.
 */
module Oblasts {

  import opened Wrappers

  datatype ActiveAlert = ActiveAlert(regionId: string, regionType: string, alertType: string, lastUpdate: string)

  /**
   * A region as the API reports it. `activeAlerts` is declared as an array but
   * is read defensively, so a missing list is modelled as `None`.
   */
  datatype RegionAlert = RegionAlert(
    regionId: string,
    regionType: string,
    regionName: string,
    lastUpdate: string,
    activeAlerts: Option<seq<ActiveAlert>>)

  /** The record the front end receives for one region. */
  datatype AlertData = AlertData(
    regionId: string,
    regionName: string,
    activeAlert: bool,
    lastUpdate: string,
    alertTypes: seq<string>)

  /** The 27 oblast-level ids: "3", "4", "5" and "8" to "31". */
  const OblastIds: seq<string> := [
    "3", "4", "5", "8", "9", "10", "11", "12", "13", "14", "15", "16",
    "17", "18", "19", "20", "21", "22", "23", "24", "25", "26", "27", "28",
    "29", "30", "31"
  ]

  /** `OBLAST_IDS.includes(id)`. */
  predicate IsOblastId(id: string) {
    id in OblastIds
  }

  /** The types of a region's active alerts, in order. */
  function AlertTypes(alerts: seq<ActiveAlert>): (types: seq<string>)
    ensures |types| == |alerts|
    ensures forall i :: 0 <= i < |alerts| ==> types[i] == alerts[i].alertType
  {
    if |alerts| == 0 then [] else [alerts[0].alertType] + AlertTypes(alerts[1..])
  }

  /**
   * The reshaping into `AlertData`: the alert flag is "the list is present and
   * non-empty", the types are the list's types in order, or none.
   */
  function ToAlertData(region: RegionAlert): (d: AlertData)
    ensures d.regionId == region.regionId && d.regionName == region.regionName
    ensures d.lastUpdate == region.lastUpdate
    ensures d.activeAlert <==> |d.alertTypes| > 0
    ensures region.activeAlerts.None? ==> d.alertTypes == []
    ensures region.activeAlerts.Some? ==>
              |d.alertTypes| == |region.activeAlerts.value|
              && forall i :: 0 <= i < |d.alertTypes| ==> d.alertTypes[i] == region.activeAlerts.value[i].alertType
  {
    var active := region.activeAlerts.Some? && |region.activeAlerts.value| > 0;
    var types := if region.activeAlerts.Some? then AlertTypes(region.activeAlerts.value) else [];
    AlertData(region.regionId, region.regionName, active, region.lastUpdate, types)
  }

  lemma OblastIdsLength()
    ensures |OblastIds| == 27
  {
  }

  lemma OblastIdsHas()
    ensures IsOblastId("14") && IsOblastId("31") && IsOblastId("28") && IsOblastId("11")
  {
  }

  lemma OblastIdsLacksCommunity()
    ensures !IsOblastId("701")
  {
  }

  lemma OblastIdsLacksSeven()
    ensures !IsOblastId("7")
  {
  }
}
