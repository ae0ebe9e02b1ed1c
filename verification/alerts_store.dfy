/**
 * The shared alert store that polling and the webhook both feed: a cache of
 * region records keyed by region id (oblasts only), the times of the last
 * polling and webhook updates, and the last oblast string. The store is an
 * explicit state value; each update takes the current time as a parameter.
 */
module AlertsStore {

  import opened Wrappers
  import opened OrderedMaps
  import opened Oblasts

  datatype Store = Store(
    cache: OrderedMap<string, RegionAlert>,
    lastPollingTime: int,
    lastWebhookTime: int,
    oblastString: Option<string>)

  /** The store at module load: empty cache, both times 0, no oblast string. */
  const Initial := Store([], 0, 0, None)

  /** One entry per region id, every key an oblast id, and each entry filed under its own region id. */
  predicate Valid(s: Store) {
    && UniqueKeys(s.cache)
    && forall i :: 0 <= i < |s.cache| ==> IsOblastId(s.cache[i].0) && s.cache[i].1.regionId == s.cache[i].0
  }

  /** `alertsCache.set(region.regionId, region)` when the id is an oblast id. */
  function SetIfOblast(cache: OrderedMap<string, RegionAlert>, region: RegionAlert): (c: OrderedMap<string, RegionAlert>) {
    if IsOblastId(region.regionId) then Set(cache, region.regionId, region) else cache
  }

  lemma SetIfOblastValid(s: Store, region: RegionAlert)
    requires Valid(s)
    ensures Valid(s.(cache := SetIfOblast(s.cache, region)))
  {
    if IsOblastId(region.regionId) {
      var c := Set(s.cache, region.regionId, region);
      SetKeepsUnique(s.cache, region.regionId, region);
      forall i | 0 <= i < |c| ensures IsOblastId(c[i].0) && c[i].1.regionId == c[i].0 {
        if c[i].0 == region.regionId {
          GetAt(c, i);
        } else {
          GetAt(c, i);
          assert i < |s.cache|;
          GetAt(s.cache, i);
        }
      }
    }
  }

  /**
   * `updateRegionAlert`: an oblast record is stored under its id and stamps the
   * webhook time; any other record leaves the store exactly as it was.
   */
  function UpdateRegionAlert(s: Store, region: RegionAlert, now: int): (t: Store)
    ensures !IsOblastId(region.regionId) ==> t == s
    ensures IsOblastId(region.regionId) ==>
              && Get(t.cache, region.regionId) == Some(region)
              && (forall id :: id != region.regionId ==> Get(t.cache, id) == Get(s.cache, id))
              && t.lastWebhookTime == now
              && t.lastPollingTime == s.lastPollingTime && t.oblastString == s.oblastString
    ensures Valid(s) ==> Valid(t)
  {
    if IsOblastId(region.regionId) then
      assert Valid(s) ==> Valid(s.(cache := SetIfOblast(s.cache, region))) by {
        if Valid(s) { SetIfOblastValid(s, region); }
      }
      s.(cache := Set(s.cache, region.regionId, region), lastWebhookTime := now)
    else s
  }

  /** The last record in the list with this region id, if any. */
  function LastWithId(regions: seq<RegionAlert>, id: string): (r: Option<RegionAlert>)
    ensures r.Some? ==> r.value.regionId == id && r.value in regions
    ensures r.None? <==> forall i :: 0 <= i < |regions| ==> regions[i].regionId != id
  {
    if |regions| == 0 then None
    else if regions[|regions| - 1].regionId == id then Some(regions[|regions| - 1])
    else
      var r := LastWithId(regions[..|regions| - 1], id);
      assert r.Some? ==> r.value in regions by {
        if r.Some? {
          assert r.value in regions[..|regions| - 1];
        }
      }
      assert r.None? ==> forall i :: 0 <= i < |regions| ==> regions[i].regionId != id by {
        if r.None? {
          forall i | 0 <= i < |regions| ensures regions[i].regionId != id {
            if i < |regions| - 1 { assert regions[i] == regions[..|regions| - 1][i]; }
          }
        }
      }
      r
  }

  /** The cache after `forEach` over the records: per oblast id the last record wins, other ids are untouched. */
  function SetAllOblasts(cache: OrderedMap<string, RegionAlert>, regions: seq<RegionAlert>): (c: OrderedMap<string, RegionAlert>)
    ensures forall id :: Get(c, id) == if IsOblastId(id) && LastWithId(regions, id).Some? then LastWithId(regions, id) else Get(cache, id)
    decreases |regions|
  {
    if |regions| == 0 then cache
    else
      var init := regions[..|regions| - 1];
      var last := regions[|regions| - 1];
      var before := SetAllOblasts(cache, init);
      SetIfOblast(before, last)
  }

  lemma SetAllOblastsValid(s: Store, regions: seq<RegionAlert>)
    requires Valid(s)
    ensures Valid(s.(cache := SetAllOblasts(s.cache, regions)))
    decreases |regions|
  {
    if |regions| > 0 {
      var init := regions[..|regions| - 1];
      SetAllOblastsValid(s, init);
      SetIfOblastValid(s.(cache := SetAllOblasts(s.cache, init)), regions[|regions| - 1]);
    }
  }

  /**
   * `updateAllRegions`: the oblast records are stored (the last one wins per
   * id) and the polling time is stamped even when nothing was stored.
   */
  function UpdateAllRegions(s: Store, regions: seq<RegionAlert>, now: int): (t: Store)
    ensures t.lastPollingTime == now
    ensures t.lastWebhookTime == s.lastWebhookTime && t.oblastString == s.oblastString
    ensures forall id :: !IsOblastId(id) ==> Get(t.cache, id) == Get(s.cache, id)
    ensures forall id :: IsOblastId(id) ==>
              Get(t.cache, id) == if LastWithId(regions, id).Some? then LastWithId(regions, id) else Get(s.cache, id)
    ensures Valid(s) ==> Valid(t)
  {
    assert Valid(s) ==> Valid(s.(cache := SetAllOblasts(s.cache, regions))) by {
      if Valid(s) { SetAllOblastsValid(s, regions); }
    }
    s.(cache := SetAllOblasts(s.cache, regions), lastPollingTime := now)
  }

  /** `updateOblastString`. */
  function UpdateOblastString(s: Store, str: string): (t: Store)
    ensures t.oblastString == Some(str)
    ensures t.cache == s.cache && t.lastPollingTime == s.lastPollingTime && t.lastWebhookTime == s.lastWebhookTime
  {
    s.(oblastString := Some(str))
  }

  /** `getOblastString`: null until a string was stored. */
  function GetOblastString(s: Store): (str: Option<string>)
    ensures s == Initial ==> str.None?
  {
    s.oblastString
  }

  /** `getAlerts`: one front-end record per cache entry, in the cache's insertion order. */
  function GetAlerts(s: Store): (alerts: seq<AlertData>)
    ensures |alerts| == |s.cache|
    ensures forall i :: 0 <= i < |alerts| ==> alerts[i] == ToAlertData(s.cache[i].1)
  {
    seq(|s.cache|, i requires 0 <= i < |s.cache| => ToAlertData(s.cache[i].1))
  }

  /** In a valid store the records have distinct oblast ids, each record flagged iff it lists an alert type. */
  lemma GetAlertsOfValid(s: Store)
    requires Valid(s)
    ensures var alerts := GetAlerts(s);
            && (forall i :: 0 <= i < |alerts| ==> IsOblastId(alerts[i].regionId))
            && (forall i, j :: 0 <= i < j < |alerts| ==> alerts[i].regionId != alerts[j].regionId)
            && (forall i :: 0 <= i < |alerts| ==> (alerts[i].activeAlert <==> |alerts[i].alertTypes| > 0))
  {
  }

  /** `hasData`: the cache is non-empty, so `getAlerts` has something to return. */
  function HasData(s: Store): (nonEmpty: bool)
    ensures nonEmpty <==> |GetAlerts(s)| > 0
  {
    |s.cache| > 0
  }

  /** `getLastUpdateTime`: the later of the two update times. */
  function GetLastUpdateTime(s: Store): (t: int)
    ensures t >= s.lastPollingTime && t >= s.lastWebhookTime
    ensures t == s.lastPollingTime || t == s.lastWebhookTime
  {
    if s.lastPollingTime >= s.lastWebhookTime then s.lastPollingTime else s.lastWebhookTime
  }

  /**
   * `needsPolling`: a webhook update younger than the TTL suppresses polling;
   * otherwise poll when the last poll is strictly older than the TTL.
   */
  function NeedsPolling(s: Store, ttl: int, now: int): (due: bool)
    ensures now - s.lastWebhookTime < ttl ==> !due
    ensures now - s.lastWebhookTime >= ttl ==> (due <==> now - s.lastPollingTime > ttl)
  {
    if now - s.lastWebhookTime < ttl then false
    else now - s.lastPollingTime > ttl
  }

  /* ---------------------------------------------------------------------- */
  /* Runs of operations                                                     */
  /* ---------------------------------------------------------------------- */

  datatype Op =
    | RegionUpdate(region: RegionAlert, now: int)
    | AllUpdate(regions: seq<RegionAlert>, now: int)
    | OblastUpdate(str: string)

  function Apply(s: Store, op: Op): (t: Store) {
    match op
    case RegionUpdate(region, now) => UpdateRegionAlert(s, region, now)
    case AllUpdate(regions, now) => UpdateAllRegions(s, regions, now)
    case OblastUpdate(str) => UpdateOblastString(s, str)
  }

  /** The store after a sequence of operations, in order. */
  function Run(s: Store, ops: seq<Op>): (t: Store)
    decreases |ops|
  {
    if |ops| == 0 then s else Apply(Run(s, ops[..|ops| - 1]), ops[|ops| - 1])
  }

  /** Every reachable store is valid. */
  lemma {:induction false} RunValid(ops: seq<Op>)
    ensures Valid(Run(Initial, ops))
    decreases |ops|
  {
    if |ops| > 0 {
      RunValid(ops[..|ops| - 1]);
    }
  }

  /** The oblast string read back is the one last stored, or null if none was. */
  function LastOblastString(ops: seq<Op>): (str: Option<string>)
    decreases |ops|
  {
    if |ops| == 0 then None
    else if ops[|ops| - 1].OblastUpdate? then Some(ops[|ops| - 1].str)
    else LastOblastString(ops[..|ops| - 1])
  }

  lemma {:induction false} LastOblastWins(ops: seq<Op>)
    ensures GetOblastString(Run(Initial, ops)) == LastOblastString(ops)
    decreases |ops|
  {
    if |ops| > 0 {
      LastOblastWins(ops[..|ops| - 1]);
    }
  }

  /** Entries are never removed, so once the store has data it keeps it. */
  lemma {:induction false} DataPersists(s: Store, ops: seq<Op>)
    requires HasData(s)
    ensures HasData(Run(s, ops))
    decreases |ops|
  {
    if |ops| > 0 {
      DataPersists(s, ops[..|ops| - 1]);
      var before := Run(s, ops[..|ops| - 1]);
      match ops[|ops| - 1]
      case RegionUpdate(region, now) =>
      case AllUpdate(regions, now) =>
        CacheNeverShrinks(before.cache, regions);
      case OblastUpdate(str) =>
    }
  }

  lemma CacheNeverShrinks(cache: OrderedMap<string, RegionAlert>, regions: seq<RegionAlert>)
    ensures |SetAllOblasts(cache, regions)| >= |cache|
    decreases |regions|
  {
    if |regions| > 0 {
      CacheNeverShrinks(cache, regions[..|regions| - 1]);
    }
  }

  /** Right after a poll at `now`, no poll is due for any non-negative TTL. */
  lemma NoPollRightAfterPolling(s: Store, regions: seq<RegionAlert>, now: int, ttl: int)
    requires ttl >= 0
    ensures !NeedsPolling(UpdateAllRegions(s, regions, now), ttl, now)
  {
  }

  /** A webhook update for an oblast suppresses polling for exactly the TTL that follows it. */
  lemma WebhookSuppressesPolling(s: Store, region: RegionAlert, at: int, now: int, ttl: int)
    requires IsOblastId(region.regionId)
    ensures now - at < ttl ==> !NeedsPolling(UpdateRegionAlert(s, region, at), ttl, now)
    ensures now - at >= ttl ==>
              (NeedsPolling(UpdateRegionAlert(s, region, at), ttl, now) <==> now - s.lastPollingTime > ttl)
  {
  }

  /** A poll exactly one TTL old is not yet due; one millisecond later it is, absent webhook updates. */
  lemma PollingBoundary(s: Store, ttl: int)
    requires s.lastWebhookTime <= s.lastPollingTime
    ensures !NeedsPolling(s, ttl, s.lastPollingTime + ttl)
    ensures NeedsPolling(s, ttl, s.lastPollingTime + ttl + 1)
  {
  }
}
