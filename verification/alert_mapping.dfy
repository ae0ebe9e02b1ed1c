/**
 * `getRegionsWithStatus`: which map regions are under an air-raid alert, given
 * the alerts the API reported. Each alert is reduced to a location UID and an
 * activity flag; flags are OR-merged per UID, then OR-merged again per region
 * through the many-to-one UID table, and finally attached to every region.
 */
module AlertMapping {

  import opened Wrappers
  import opened Text
  import opened OrderedMaps
  import opened Regions

  /**
   * `LOCATION_MAPPING`, as written: "14" and "31" (Kyiv oblast and the city)
   * both go to region 9, and "29" and "30" (Crimea and Sevastopol) go to
   * region 26, which the region table does not have.
   */
  const LocationMapping: map<string, int> := map[
    "4" := 1, "8" := 2, "9" := 3, "28" := 4, "10" := 5, "11" := 6, "12" := 7,
    "13" := 8, "14" := 9, "31" := 9, "15" := 10, "16" := 11, "27" := 12,
    "17" := 13, "18" := 14, "19" := 15, "5" := 16, "20" := 17, "21" := 18,
    "22" := 19, "23" := 20, "3" := 21, "24" := 22, "26" := 23, "25" := 24,
    "29" := 26, "30" := 26
  ]

  /** A `string | number` field, or a JSON null that slipped in. */
  datatype JsKey = Str(s: string) | Num(n: int) | NullKey

  /** `String(key)`. */
  function KeyString(k: JsKey): (s: string)
    ensures k.Str? ==> s == k.s
    ensures !k.Str? ==> s != ""
  {
    match k
    case Str(s) => s
    case Num(n) => IntToString(n)
    case NullKey => "null"
  }

  /** `finished_at`: absent, null (still running) or a timestamp. */
  datatype FinishedAt = Unset | Null | At(time: string)

  /** The fields of an API alert that the aggregation reads; `None` is `undefined`. */
  datatype ApiAlert = ApiAlert(
    locationUid: Option<JsKey>,
    regionId: Option<JsKey>,
    finishedAt: FinishedAt,
    activeAlert: Option<bool>,
    alertType: Option<string>,
    alertTypeSnake: Option<string>)

  /**
   * The alert's location UID: `location_uid` if defined, else `regionId` if
   * defined, as a string; none when both are undefined or the string is empty.
   */
  function AlertUid(a: ApiAlert): (uid: Option<string>)
    ensures uid.Some? ==> uid.value != ""
    ensures a.locationUid.Some? ==> uid == (if KeyString(a.locationUid.value) == "" then None else Some(KeyString(a.locationUid.value)))
    ensures a.locationUid.None? && a.regionId.Some? ==>
              uid == (if KeyString(a.regionId.value) == "" then None else Some(KeyString(a.regionId.value)))
    ensures a.locationUid.None? && a.regionId.None? ==> uid.None?
  {
    var raw := if a.locationUid.Some? then Some(KeyString(a.locationUid.value))
               else if a.regionId.Some? then Some(KeyString(a.regionId.value))
               else None;
    if raw.Some? && raw.value != "" then raw else None
  }

  const AirRaid := "AIR_RAID"

  /**
   * Whether an alert is active, by priority: an explicit `activeAlert` flag;
   * else, when `finished_at` is present, whether it is null; else whether
   * either spelling of the alert type is "AIR_RAID".
   */
  function IsActive(a: ApiAlert): (active: bool)
    ensures a.activeAlert.Some? ==> (active <==> a.activeAlert.value)
    ensures a.activeAlert.None? && a.finishedAt.At? ==> !active
    ensures a.activeAlert.None? && a.finishedAt.Null? ==> active
    ensures active && a.activeAlert.None? && !a.finishedAt.Null? ==>
              a.alertType == Some(AirRaid) || a.alertTypeSnake == Some(AirRaid)
  {
    if a.activeAlert.Some? then a.activeAlert.value
    else if !a.finishedAt.Unset? then a.finishedAt.Null?
    else a.alertType == Some(AirRaid) || a.alertTypeSnake == Some(AirRaid)
  }

  /** A lower-priority field never overrides a higher one. */
  lemma ActivityPriority(a: ApiAlert)
    ensures a.activeAlert == Some(true) ==> IsActive(a)
    ensures a.activeAlert == Some(false) ==> !IsActive(a)
    ensures a.activeAlert.None? && a.finishedAt.At? ==> !IsActive(a)
    ensures a.activeAlert.None? && a.finishedAt.Null? ==> IsActive(a)
    ensures a.activeAlert.None? && a.finishedAt.Unset? ==>
              (IsActive(a) <==> a.alertType == Some(AirRaid) || a.alertTypeSnake == Some(AirRaid))
  {
  }

  /* ---------------------------------------------------------------------- */
  /* Per-UID table                                                          */
  /* ---------------------------------------------------------------------- */

  type UidTable = OrderedMap<string, bool>

  /** Some alert carries this UID. */
  predicate Mentions(alerts: seq<ApiAlert>, uid: string) {
    exists i :: 0 <= i < |alerts| && AlertUid(alerts[i]) == Some(uid)
  }

  /** Some active alert carries this UID. */
  predicate ActiveFor(alerts: seq<ApiAlert>, uid: string) {
    exists i :: 0 <= i < |alerts| && AlertUid(alerts[i]) == Some(uid) && IsActive(alerts[i])
  }

  /**
   * One step of the first `forEach`: an alert without a UID is skipped; an
   * active one sets its UID to true; an inactive one sets false only if the UID
   * is not yet present, so an active status is never overwritten.
   */
  function RecordAlert(table: UidTable, a: ApiAlert): (t: UidTable) {
    match AlertUid(a)
    case None => table
    case Some(uid) =>
      var active := IsActive(a);
      if active || !Has(table, uid) then Set(table, uid, active) else table
  }

  /** The UID table after the alerts in order: each mentioned UID maps to the OR of its alerts' activity. */
  function UidTableOf(alerts: seq<ApiAlert>): (table: UidTable)
    ensures UniqueKeys(table)
    ensures forall uid :: Get(table, uid) == if Mentions(alerts, uid) then Some(ActiveFor(alerts, uid)) else None
    decreases |alerts|
  {
    if |alerts| == 0 then []
    else
      var init := alerts[..|alerts| - 1];
      var last := alerts[|alerts| - 1];
      var before := UidTableOf(init);
      var after := RecordAlert(before, last);
      assert alerts == init + [last];
      RecordAlertAll(init, before, last);
      assert UniqueKeys(after) by {
        if AlertUid(last).Some? {
          SetKeepsUnique(before, AlertUid(last).value, IsActive(last));
        }
      }
      after
  }

  lemma RecordAlertAll(init: seq<ApiAlert>, before: UidTable, last: ApiAlert)
    requires forall u :: Get(before, u) == if Mentions(init, u) then Some(ActiveFor(init, u)) else None
    ensures var alerts := init + [last];
            forall uid :: Get(RecordAlert(before, last), uid)
                          == if Mentions(alerts, uid) then Some(ActiveFor(alerts, uid)) else None
  {
    forall uid
      ensures Get(RecordAlert(before, last), uid)
              == if Mentions(init + [last], uid) then Some(ActiveFor(init + [last], uid)) else None
    {
      RecordAlertStep(init, before, last, uid);
    }
  }

  /** Mentions and activity of a UID after one more alert. */
  lemma RecordAlertStep(init: seq<ApiAlert>, before: UidTable, last: ApiAlert, uid: string)
    requires forall u :: Get(before, u) == if Mentions(init, u) then Some(ActiveFor(init, u)) else None
    ensures var alerts := init + [last];
            Get(RecordAlert(before, last), uid)
            == if Mentions(alerts, uid) then Some(ActiveFor(alerts, uid)) else None
  {
    var alerts := init + [last];
    var n := |init|;
    assert alerts[n] == last;
    assert Mentions(alerts, uid) <==> Mentions(init, uid) || AlertUid(last) == Some(uid) by {
      if Mentions(alerts, uid) {
        var i :| 0 <= i < |alerts| && AlertUid(alerts[i]) == Some(uid);
        if i < n { assert alerts[i] == init[i]; }
      }
      if Mentions(init, uid) {
        var i :| 0 <= i < |init| && AlertUid(init[i]) == Some(uid);
        assert alerts[i] == init[i];
      }
    }
    assert ActiveFor(alerts, uid) <==> ActiveFor(init, uid) || (AlertUid(last) == Some(uid) && IsActive(last)) by {
      if ActiveFor(alerts, uid) {
        var i :| 0 <= i < |alerts| && AlertUid(alerts[i]) == Some(uid) && IsActive(alerts[i]);
        if i < n { assert alerts[i] == init[i]; }
      }
      if ActiveFor(init, uid) {
        var i :| 0 <= i < |init| && AlertUid(init[i]) == Some(uid) && IsActive(init[i]);
        assert alerts[i] == init[i];
      }
    }
    assert ActiveFor(init, uid) ==> Mentions(init, uid);
  }

  /* ---------------------------------------------------------------------- */
  /* Per-region table                                                       */
  /* ---------------------------------------------------------------------- */

  type RegionTable = OrderedMap<int, bool>

  /** Some entry of the UID table has a UID that maps to this region. */
  predicate MapsTo(table: UidTable, id: int) {
    exists i :: 0 <= i < |table| && table[i].0 in LocationMapping && LocationMapping[table[i].0] == id
  }

  /** Some true entry of the UID table has a UID that maps to this region. */
  predicate ActiveMapsTo(table: UidTable, id: int) {
    exists i :: 0 <= i < |table| && table[i].0 in LocationMapping && LocationMapping[table[i].0] == id && table[i].1
  }

  /**
   * One step of the second `forEach`: a UID absent from the mapping is skipped;
   * otherwise its region's status becomes the region's current status (false if
   * none yet) OR the UID's status.
   */
  function RecordUid(regions: RegionTable, entry: (string, bool)): RegionTable {
    if entry.0 in LocationMapping then
      var id := LocationMapping[entry.0];
      Set(regions, id, Get(regions, id).GetOr(false) || entry.1)
    else regions
  }

  /** The region table after the UID table's entries in order: each region ORs the UIDs mapped to it. */
  function RegionTableOf(table: UidTable): (regions: RegionTable)
    ensures forall id :: Get(regions, id) == if MapsTo(table, id) then Some(ActiveMapsTo(table, id)) else None
    decreases |table|
  {
    if |table| == 0 then []
    else
      var init := table[..|table| - 1];
      var last := table[|table| - 1];
      var before := RegionTableOf(init);
      var after := RecordUid(before, last);
      assert forall id :: Get(after, id) == if MapsTo(table, id) then Some(ActiveMapsTo(table, id)) else None by {
        forall id
          ensures Get(after, id) == if MapsTo(table, id) then Some(ActiveMapsTo(table, id)) else None
        {
          RecordUidStep(init, before, last, id);
          assert table == init + [last];
        }
      }
      after
  }

  lemma RecordUidStep(init: UidTable, before: RegionTable, last: (string, bool), id: int)
    requires forall j :: Get(before, j) == if MapsTo(init, j) then Some(ActiveMapsTo(init, j)) else None
    ensures var table := init + [last];
            Get(RecordUid(before, last), id)
            == if MapsTo(table, id) then Some(ActiveMapsTo(table, id)) else None
  {
    var table := init + [last];
    var n := |init|;
    assert table[n] == last;
    var hit := last.0 in LocationMapping && LocationMapping[last.0] == id;
    assert MapsTo(table, id) <==> MapsTo(init, id) || hit by {
      if MapsTo(table, id) {
        var i :| 0 <= i < |table| && table[i].0 in LocationMapping && LocationMapping[table[i].0] == id;
        if i < n { assert table[i] == init[i]; }
      }
      if MapsTo(init, id) {
        var i :| 0 <= i < |init| && init[i].0 in LocationMapping && LocationMapping[init[i].0] == id;
        assert table[i] == init[i];
      }
    }
    assert ActiveMapsTo(table, id) <==> ActiveMapsTo(init, id) || (hit && last.1) by {
      if ActiveMapsTo(table, id) {
        var i :| 0 <= i < |table| && table[i].0 in LocationMapping && LocationMapping[table[i].0] == id && table[i].1;
        if i < n { assert table[i] == init[i]; }
      }
      if ActiveMapsTo(init, id) {
        var i :| 0 <= i < |init| && init[i].0 in LocationMapping && LocationMapping[init[i].0] == id && init[i].1;
        assert table[i] == init[i];
      }
    }
    assert ActiveMapsTo(init, id) ==> MapsTo(init, id);
  }

  /* ---------------------------------------------------------------------- */
  /* Result                                                                 */
  /* ---------------------------------------------------------------------- */

  datatype RegionWithStatus = RegionWithStatus(region: Region, isAlert: bool)

  /** The reference meaning: some active alert's UID maps to this region. */
  predicate RegionAlerted(alerts: seq<ApiAlert>, id: int) {
    exists i :: 0 <= i < |alerts| && AlertUid(alerts[i]).Some?
      && AlertUid(alerts[i]).value in LocationMapping
      && LocationMapping[AlertUid(alerts[i]).value] == id
      && IsActive(alerts[i])
  }

  /** `getRegionsWithStatus`: every region, in order, with its alert flag (false when absent). */
  function GetRegionsWithStatus(alerts: seq<ApiAlert>, regions: seq<Region>): (r: seq<RegionWithStatus>)
    ensures |r| == |regions|
    ensures forall k :: 0 <= k < |regions| ==> r[k].region == regions[k]
  {
    var byRegion := RegionTableOf(UidTableOf(alerts));
    seq(|regions|, k requires 0 <= k < |regions| =>
      RegionWithStatus(regions[k], Get(byRegion, regions[k].id).GetOr(false)))
  }

  /** The two OR-merges together: a region is flagged exactly when some active alert's UID maps to it. */
  lemma RegionsWithStatusMeaning(alerts: seq<ApiAlert>, regions: seq<Region>, k: nat)
    requires k < |regions|
    ensures GetRegionsWithStatus(alerts, regions)[k].isAlert <==> RegionAlerted(alerts, regions[k].id)
  {
    var table := UidTableOf(alerts);
    var byRegion := RegionTableOf(table);
    assert GetRegionsWithStatus(alerts, regions)[k].isAlert == Get(byRegion, regions[k].id).GetOr(false);
    assert Get(byRegion, regions[k].id).GetOr(false) <==> ActiveMapsTo(table, regions[k].id);
    ActiveMapsToMeaning(alerts, regions[k].id);
  }

  /** A true UID entry mapping to a region is the same as an active alert mapping to it. */
  lemma ActiveMapsToMeaning(alerts: seq<ApiAlert>, id: int)
    ensures ActiveMapsTo(UidTableOf(alerts), id) <==> RegionAlerted(alerts, id)
  {
    var table := UidTableOf(alerts);
    if ActiveMapsTo(table, id) {
      var i :| 0 <= i < |table| && table[i].0 in LocationMapping && LocationMapping[table[i].0] == id && table[i].1;
      GetAt(table, i);
      assert ActiveFor(alerts, table[i].0);
      var j :| 0 <= j < |alerts| && AlertUid(alerts[j]) == Some(table[i].0) && IsActive(alerts[j]);
    }
    if RegionAlerted(alerts, id) {
      var i :| 0 <= i < |alerts| && AlertUid(alerts[i]).Some?
        && AlertUid(alerts[i]).value in LocationMapping
        && LocationMapping[AlertUid(alerts[i]).value] == id
        && IsActive(alerts[i]);
      var uid := AlertUid(alerts[i]).value;
      assert ActiveFor(alerts, uid);
      assert Get(table, uid) == Some(true);
      var j :| 0 <= j < |table| && table[j] == (uid, true);
    }
  }

  /** Only the set of alerts matters: reordering or repeating alerts changes nothing. */
  lemma OrderIndependent(alerts1: seq<ApiAlert>, alerts2: seq<ApiAlert>, regions: seq<Region>)
    requires forall a :: a in alerts1 <==> a in alerts2
    ensures GetRegionsWithStatus(alerts1, regions) == GetRegionsWithStatus(alerts2, regions)
  {
    var r1, r2 := GetRegionsWithStatus(alerts1, regions), GetRegionsWithStatus(alerts2, regions);
    forall k | 0 <= k < |regions| ensures r1[k] == r2[k] {
      RegionsWithStatusMeaning(alerts1, regions, k);
      RegionsWithStatusMeaning(alerts2, regions, k);
      SameAlerted(alerts1, alerts2, regions[k].id);
    }
  }

  lemma SameAlerted(alerts1: seq<ApiAlert>, alerts2: seq<ApiAlert>, id: int)
    requires forall a :: a in alerts1 <==> a in alerts2
    ensures RegionAlerted(alerts1, id) <==> RegionAlerted(alerts2, id)
  {
    if RegionAlerted(alerts1, id) {
      var i :| 0 <= i < |alerts1| && AlertUid(alerts1[i]).Some?
        && AlertUid(alerts1[i]).value in LocationMapping
        && LocationMapping[AlertUid(alerts1[i]).value] == id && IsActive(alerts1[i]);
      assert alerts1[i] in alerts2;
      var j :| 0 <= j < |alerts2| && alerts2[j] == alerts1[i];
    }
    if RegionAlerted(alerts2, id) {
      var i :| 0 <= i < |alerts2| && AlertUid(alerts2[i]).Some?
        && AlertUid(alerts2[i]).value in LocationMapping
        && LocationMapping[AlertUid(alerts2[i]).value] == id && IsActive(alerts2[i]);
      assert alerts2[i] in alerts1;
      var j :| 0 <= j < |alerts1| && alerts1[j] == alerts2[i];
    }
  }

  /** A permutation of the alerts gives the same regions. */
  lemma PermutationInvariant(alerts1: seq<ApiAlert>, alerts2: seq<ApiAlert>, regions: seq<Region>)
    requires multiset(alerts1) == multiset(alerts2)
    ensures GetRegionsWithStatus(alerts1, regions) == GetRegionsWithStatus(alerts2, regions)
  {
    forall a ensures a in alerts1 <==> a in alerts2 {
      assert a in alerts1 <==> a in multiset(alerts1);
      assert a in alerts2 <==> a in multiset(alerts2);
    }
    OrderIndependent(alerts1, alerts2, regions);
  }

  /** An alert that does not map actively to a region leaves that region's meaning unchanged. */
  lemma AlertedWithout(alerts: seq<ApiAlert>, a: ApiAlert, id: int)
    requires AlertUid(a).None? || AlertUid(a).value !in LocationMapping
             || LocationMapping[AlertUid(a).value] != id || !IsActive(a)
    ensures RegionAlerted(alerts + [a], id) <==> RegionAlerted(alerts, id)
  {
    var both := alerts + [a];
    if RegionAlerted(both, id) {
      var i :| 0 <= i < |both| && AlertUid(both[i]).Some?
        && AlertUid(both[i]).value in LocationMapping
        && LocationMapping[AlertUid(both[i]).value] == id && IsActive(both[i]);
      assert both[|alerts|] == a;
      assert i < |alerts|;
      assert both[i] == alerts[i];
    }
    if RegionAlerted(alerts, id) {
      var i :| 0 <= i < |alerts| && AlertUid(alerts[i]).Some?
        && AlertUid(alerts[i]).value in LocationMapping
        && LocationMapping[AlertUid(alerts[i]).value] == id && IsActive(alerts[i]);
      assert both[i] == alerts[i];
    }
  }

  /** An alert without a UID, with a UID outside the mapping, or inactive, changes no region. */
  lemma IrrelevantAlert(alerts: seq<ApiAlert>, a: ApiAlert, regions: seq<Region>)
    requires AlertUid(a).None? || AlertUid(a).value !in LocationMapping || !IsActive(a)
    ensures GetRegionsWithStatus(alerts + [a], regions) == GetRegionsWithStatus(alerts, regions)
  {
    var r1, r2 := GetRegionsWithStatus(alerts + [a], regions), GetRegionsWithStatus(alerts, regions);
    forall k | 0 <= k < |regions| ensures r1[k] == r2[k] {
      RegionsWithStatusMeaning(alerts + [a], regions, k);
      RegionsWithStatusMeaning(alerts, regions, k);
      AlertedWithout(alerts, a, regions[k].id);
    }
  }

  /** An alert for the city of Kyiv ("31") flags the Kyiv oblast region, id 9. */
  lemma KyivCityFlagsOblast(alerts: seq<ApiAlert>, i: nat)
    requires i < |alerts| && AlertUid(alerts[i]) == Some("31") && IsActive(alerts[i])
    ensures GetRegionsWithStatus(alerts, AllRegions)[8].isAlert
    ensures GetRegionsWithStatus(alerts, AllRegions)[8].region == Region(9, "Київська", 450, 190, 16)
  {
    assert LocationMapping["31"] == 9;
    assert AllRegions[8] == Region(9, "Київська", 450, 190, 16);
    assert RegionAlerted(alerts, 9);
    RegionsWithStatusMeaning(alerts, AllRegions, 8);
  }

  /**
   * The Crimea and Sevastopol UIDs map to region 26, which the table does not
   * have, so their alerts never show on the map.
   */
  lemma CrimeaNeverShown(alerts: seq<ApiAlert>, a: ApiAlert)
    requires AlertUid(a) == Some("29") || AlertUid(a) == Some("30")
    ensures GetRegionsWithStatus(alerts + [a], AllRegions) == GetRegionsWithStatus(alerts, AllRegions)
  {
    var r1, r2 := GetRegionsWithStatus(alerts + [a], AllRegions), GetRegionsWithStatus(alerts, AllRegions);
    RegionIds();
    assert LocationMapping[AlertUid(a).value] == 26;
    forall k | 0 <= k < |AllRegions| ensures r1[k] == r2[k] {
      RegionsWithStatusMeaning(alerts + [a], AllRegions, k);
      RegionsWithStatusMeaning(alerts, AllRegions, k);
      AlertedWithout(alerts, a, AllRegions[k].id);
    }
  }
}
