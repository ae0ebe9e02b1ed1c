/**
 * The dashboard's alert panel: from the `/api/alerts` response it picks three
 * target regions (Kyiv city, Kyiv oblast, the Borshchahivka community), each
 * flagged by the first response record with its id, and derives the panel's
 * "any alert" and "has data" flags. A failed fetch or parse is `None`.
 */
module DashboardAlerts {

  import opened Wrappers
  import opened Oblasts
  import AlertsRoute

  /** One panel row. The response records carry no notes, so `notes` is always null and is not modelled. */
  datatype AlertRegion = AlertRegion(regionId: string, regionName: string, activeAlert: bool)

  datatype AlertsPanel = AlertsPanel(alerts: seq<AlertRegion>, hasActiveAlert: bool, hasData: bool)

  /** The target regions: id and caption, in display order. */
  const TargetRegions: seq<(string, string)> := [
    ("31", "м. Київ"),
    ("14", "Київська область"),
    ("701", "Борщагівська ТГ")
  ]

  /** `data.find(item => item.regionId === id)`: the first record with this id. */
  function FindById(data: seq<AlertData>, id: string): (r: Option<AlertData>)
    ensures r.None? <==> forall i :: 0 <= i < |data| ==> data[i].regionId != id
    ensures r.Some? ==> exists i :: 0 <= i < |data| && data[i] == r.value && data[i].regionId == id
                          && forall j :: 0 <= j < i ==> data[j].regionId != id
  {
    if |data| == 0 then None
    else if data[0].regionId == id then Some(data[0])
    else
      var r := FindById(data[1..], id);
      assert r.Some? ==> exists i :: 0 <= i < |data| && data[i] == r.value && data[i].regionId == id
                            && forall j :: 0 <= j < i ==> data[j].regionId != id by {
        if r.Some? {
          var i :| 0 <= i < |data[1..]| && data[1..][i] == r.value && data[1..][i].regionId == id
                   && forall j :: 0 <= j < i ==> data[1..][j].regionId != id;
          assert data[i + 1] == r.value;
          forall j | 0 <= j < i + 1 ensures data[j].regionId != id {
            if j > 0 { assert data[j] == data[1..][j - 1]; }
          }
        }
      }
      r
  }

  /** The row of one target: flagged iff its first record is flagged; absent records read as not flagged. */
  function TargetRow(data: seq<AlertData>, target: (string, string)): (row: AlertRegion)
    ensures row.regionId == target.0 && row.regionName == target.1
    ensures row.activeAlert <==> FindById(data, target.0).Some? && FindById(data, target.0).value.activeAlert
  {
    var found := FindById(data, target.0);
    AlertRegion(target.0, target.1, found.Some? && found.value.activeAlert)
  }

  predicate AnyActive(rows: seq<AlertRegion>) {
    exists i :: 0 <= i < |rows| && rows[i].activeAlert
  }

  /** The panel for a response, or the empty "no data" panel when the request failed. */
  function Panel(response: Option<AlertsRoute.AlertsResponse>): (p: AlertsPanel)
    ensures response.None? ==> p == AlertsPanel([], false, false)
    ensures response.Some? ==>
              && |p.alerts| == |TargetRegions|
              && (forall k :: 0 <= k < |TargetRegions| ==> p.alerts[k] == TargetRow(response.value.alerts, TargetRegions[k]))
              && p.hasData == response.value.ok
    ensures p.hasActiveAlert <==> AnyActive(p.alerts)
  {
    match response
    case None => AlertsPanel([], false, false)
    case Some(result) =>
      var rows := seq(|TargetRegions|, k requires 0 <= k < |TargetRegions| => TargetRow(result.alerts, TargetRegions[k]));
      AlertsPanel(rows, AnyActive(rows), result.ok)
  }

  /** A record whose id is not an oblast id never appears in a route response. */
  lemma RouteHasOnlyOblasts(apiKey: Option<string>, upstream: AlertsRoute.Upstream, iot: AlertsRoute.IotOutcome, id: string)
    requires !IsOblastId(id)
    ensures FindById(AlertsRoute.HandleGet(apiKey, upstream, iot).alerts, id).None?
  {
    var r := AlertsRoute.HandleGet(apiKey, upstream, iot);
    if r.ok {
      AlertsRoute.SuccessfulResponse(apiKey, upstream.data, iot);
      forall i | 0 <= i < |r.alerts| ensures r.alerts[i].regionId != id {
        assert r.alerts[i] in r.alerts;
      }
    }
  }

  /**
   * The community row ("701") is never flagged for a response of the alerts
   * route, because the route keeps oblast records only.
   */
  lemma CommunityNeverFlagged(apiKey: Option<string>, upstream: AlertsRoute.Upstream, iot: AlertsRoute.IotOutcome)
    ensures var p := Panel(Some(AlertsRoute.HandleGet(apiKey, upstream, iot)));
            p.alerts[2].regionId == "701" && !p.alerts[2].activeAlert
  {
    OblastIdsLacksCommunity();
    RouteHasOnlyOblasts(apiKey, upstream, iot, "701");
  }

  /** A failed route response yields three unflagged rows and the "no data" flag. */
  lemma FailedResponsePanel(apiKey: Option<string>, upstream: AlertsRoute.Upstream, iot: AlertsRoute.IotOutcome)
    requires !AlertsRoute.HandleGet(apiKey, upstream, iot).ok
    ensures var p := Panel(Some(AlertsRoute.HandleGet(apiKey, upstream, iot)));
            && |p.alerts| == 3 && !p.hasActiveAlert && !p.hasData
  {
    var p := Panel(Some(AlertsRoute.HandleGet(apiKey, upstream, iot)));
    forall i | 0 <= i < |p.alerts| ensures !p.alerts[i].activeAlert {
    }
  }
}
