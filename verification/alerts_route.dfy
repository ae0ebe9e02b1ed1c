/**
 * The `/api/alerts` GET handler: read the ukrainealarm.com region list, keep
 * the oblast-level records in their order, reshape them for the front end, and
 * attach the optional IoT oblast string. The two upstream fetches are inputs:
 * their outcomes are parameters, as is the API key from the environment.
 */
module AlertsRoute {

  import opened Wrappers
  import opened Text
  import opened OrderedMaps
  import opened Oblasts
  import AlertsStore

  /** What the regions request produced. */
  datatype Upstream =
    | Threw(error: string)      // fetch or JSON parsing threw; `error` is `String(error)`
    | Rejected(status: int)     // a response that is not ok
    | NotArray                  // a JSON body that is not an array
    | Regions(data: seq<RegionAlert>)

  /** What the optional IoT request produced. */
  datatype IotOutcome = IotThrew | IotNotOk | IotText(text: string)

  datatype AlertsResponse = AlertsResponse(
    ok: bool,
    alerts: seq<AlertData>,
    oblastString: Option<string>,
    error: Option<string>)

  const MissingKeyError := "API ключ не налаштовано"
  const InvalidDataError := "Невалідні дані від API"
  const ApiErrorPrefix := "API помилка: "

  /** A key counts as configured when present and non-empty. */
  predicate HasKey(apiKey: Option<string>) {
    apiKey.Some? && |apiKey.value| > 0
  }

  /** The records whose region id is an oblast id, in their original order. */
  function OblastFilter(data: seq<RegionAlert>): (kept: seq<RegionAlert>)
    ensures |kept| <= |data|
    ensures forall r :: r in kept <==> r in data && IsOblastId(r.regionId)
    decreases |data|
  {
    if |data| == 0 then []
    else
      var init := data[..|data| - 1];
      var last := data[|data| - 1];
      assert data == init + [last];
      OblastFilter(init) + (if IsOblastId(last.regionId) then [last] else [])
  }

  /** A single record is kept exactly when its id is an oblast id. */
  lemma OblastFilterSingle(r: RegionAlert)
    ensures OblastFilter([r]) == if IsOblastId(r.regionId) then [r] else []
  {
    assert [r][..0] == [];
  }

  /**
   * Filtering distributes over concatenation; with OblastFilterSingle this
   * pins the filter down as `Array.prototype.filter`: the kept records stay in
   * upstream order and a repeated record is kept as often as it appears.
   */
  lemma {:induction false} OblastFilterAppend(x: seq<RegionAlert>, y: seq<RegionAlert>)
    ensures OblastFilter(x + y) == OblastFilter(x) + OblastFilter(y)
    decreases |y|
  {
    if |y| == 0 {
      assert x + y == x;
    } else {
      var init := y[..|y| - 1];
      var last := y[|y| - 1];
      assert (x + y)[..|x + y| - 1] == x + init;
      assert (x + y)[|x + y| - 1] == last;
      OblastFilterAppend(x, init);
    }
  }

  /** The front-end records of the kept regions. */
  function RouteAlerts(data: seq<RegionAlert>): (alerts: seq<AlertData>)
    ensures |alerts| == |OblastFilter(data)|
    ensures forall i :: 0 <= i < |alerts| ==> alerts[i] == ToAlertData(OblastFilter(data)[i])
  {
    var kept := OblastFilter(data);
    seq(|kept|, i requires 0 <= i < |kept| => ToAlertData(kept[i]))
  }

  /** One record gives its front-end record exactly when its id is an oblast id. */
  lemma RouteAlertsSingle(r: RegionAlert)
    ensures RouteAlerts([r]) == if IsOblastId(r.regionId) then [ToAlertData(r)] else []
  {
    OblastFilterSingle(r);
  }

  /**
   * The route's list distributes over concatenation; with RouteAlertsSingle it
   * is the upstream order, one front-end record per oblast record.
   */
  lemma RouteAlertsAppend(x: seq<RegionAlert>, y: seq<RegionAlert>)
    ensures RouteAlerts(x + y) == RouteAlerts(x) + RouteAlerts(y)
  {
    OblastFilterAppend(x, y);
  }

  /** The IoT text with every double quote removed and the ends trimmed. */
  function CleanOblastString(text: string): (s: string)
    ensures '"' !in s
    ensures |s| > 0 ==> !IsJsWhitespace(s[0]) && !IsJsWhitespace(s[|s| - 1])
    ensures |s| <= |text|
    ensures exists i :: TrimmedSliceAt(RemoveAll(text, '"'), s, i)
  {
    var unquoted := RemoveAll(text, '"');
    TrimKeepsAbsent(unquoted, '"');
    CleanIsTrimmedSlice(unquoted);
    Trim(unquoted)
  }

  /** `s` is `u[i..]` up to its length, with only whitespace before and after it in `u`. */
  predicate TrimmedSliceAt(u: string, s: string, i: int) {
    && 0 <= i <= |u| - |s| && s == u[i..i + |s|]
    && (forall k :: 0 <= k < i ==> IsJsWhitespace(u[k]))
    && (forall k :: i + |s| <= k < |u| ==> IsJsWhitespace(u[k]))
  }

  /** What trimming keeps is a slice with only whitespace cut on either side. */
  lemma CleanIsTrimmedSlice(u: string)
    ensures exists i :: TrimmedSliceAt(u, Trim(u), i)
  {
    TrimCutsOuterWhitespace(u);
    var s, i := Trim(u), |TrimEnd(u)| - |Trim(u)|;
    forall k | 0 <= k < i ensures IsJsWhitespace(u[k]) {
      assert u[..i][k] == u[k];
    }
    forall k | i + |s| <= k < |u| ensures IsJsWhitespace(u[k]) {
      assert u[i + |s|..][k - (i + |s|)] == u[k];
    }
    assert TrimmedSliceAt(u, s, i);
  }

  /** A string with no whitespace at either end. */
  predicate Unpadded(s: string) {
    |s| > 0 ==> !IsJsWhitespace(s[0]) && !IsJsWhitespace(s[|s| - 1])
  }

  /** Only one unpadded slice of `u` has nothing but whitespace around it. */
  lemma TrimmedSliceUnique(u: string, s: string, i: int, t: string, j: int)
    requires TrimmedSliceAt(u, s, i) && Unpadded(s)
    requires TrimmedSliceAt(u, t, j) && Unpadded(t)
    ensures s == t
  {
    assert |s| > 0 ==> s[0] == u[i] && s[|s| - 1] == u[i + |s| - 1];
    assert |t| > 0 ==> t[0] == u[j] && t[|t| - 1] == u[j + |t| - 1];
  }

  /**
   * The cleaned text is the only unpadded slice of the quote-free text with
   * nothing but whitespace around it: every other character survives, in order.
   */
  lemma CleanOblastStringUnique(text: string, t: string, j: int)
    requires TrimmedSliceAt(RemoveAll(text, '"'), t, j) && Unpadded(t)
    ensures CleanOblastString(text) == t
  {
    var s := CleanOblastString(text);
    var i :| TrimmedSliceAt(RemoveAll(text, '"'), s, i);
    TrimmedSliceUnique(RemoveAll(text, '"'), s, i, t, j);
  }

  /** Trimming only drops characters, so a character absent before is absent after. */
  lemma TrimKeepsAbsent(t: string, c: char)
    requires c !in t
    ensures c !in Trim(t)
  {
    var s := Trim(t);
    TrimCutsOuterWhitespace(t);
    var i := |TrimEnd(t)| - |s|;
    forall k | 0 <= k < |s| ensures s[k] != c {
      assert s[k] == t[i + k];
    }
  }

  /** Cleaning is idempotent: a cleaned string is its own cleaning. */
  lemma CleanOblastStringIdempotent(text: string)
    ensures CleanOblastString(CleanOblastString(text)) == CleanOblastString(text)
  {
    var s := CleanOblastString(text);
    assert RemoveAll(s, '"') == s;
    if |s| > 0 {
      TrimKeeps(s);
    } else {
      assert |Trim(s)| <= |s|;
    }
  }

  /** The handler. The IoT outcome is only consulted once the region list was read. */
  function HandleGet(apiKey: Option<string>, upstream: Upstream, iot: IotOutcome): (r: AlertsResponse)
    ensures r.ok <==> HasKey(apiKey) && upstream.Regions?
    ensures !r.ok ==> r.alerts == [] && r.oblastString == None && r.error.Some?
    ensures r.ok ==> r.error == None
    ensures !HasKey(apiKey) ==> r.error == Some(MissingKeyError)
    ensures r.ok ==> r.alerts == RouteAlerts(upstream.data)
    ensures r.ok ==> r.oblastString == if iot.IotText? then Some(CleanOblastString(iot.text)) else None
  {
    if !HasKey(apiKey) then AlertsResponse(false, [], None, Some(MissingKeyError))
    else match upstream
      case Threw(e) => AlertsResponse(false, [], None, Some(e))
      case Rejected(status) => AlertsResponse(false, [], None, Some(ApiErrorPrefix + IntToString(status)))
      case NotArray => AlertsResponse(false, [], None, Some(InvalidDataError))
      case Regions(data) =>
        var oblastString := if iot.IotText? then Some(CleanOblastString(iot.text)) else None;
        AlertsResponse(true, RouteAlerts(data), oblastString, None)
  }

  /** A successful response lists exactly the oblast records, one per record, each flagged iff it lists an alert type. */
  lemma SuccessfulResponse(apiKey: Option<string>, data: seq<RegionAlert>, iot: IotOutcome)
    requires HasKey(apiKey)
    ensures var r := HandleGet(apiKey, Regions(data), iot);
            && r.ok
            && (forall a :: a in r.alerts ==> IsOblastId(a.regionId))
            && (forall region :: region in data && IsOblastId(region.regionId) ==> ToAlertData(region) in r.alerts)
            && (forall a :: a in r.alerts ==> (a.activeAlert <==> |a.alertTypes| > 0))
            && (forall a :: a in r.alerts ==> exists region :: region in data && IsOblastId(region.regionId) && a == ToAlertData(region))
            && |r.alerts| == |OblastFilter(data)|
            && (r.oblastString.Some? <==> iot.IotText?)
  {
    assert HandleGet(apiKey, Regions(data), iot).alerts == RouteAlerts(data);
    RouteAlertsContents(data);
  }

  /** The route's records are exactly the front-end records of the oblast records. */
  lemma RouteAlertsContents(data: seq<RegionAlert>)
    ensures var alerts := RouteAlerts(data);
            && (forall a :: a in alerts ==> IsOblastId(a.regionId))
            && (forall region :: region in data && IsOblastId(region.regionId) ==> ToAlertData(region) in alerts)
            && (forall a :: a in alerts ==> (a.activeAlert <==> |a.alertTypes| > 0))
            && (forall a :: a in alerts ==> exists region :: region in data && IsOblastId(region.regionId) && a == ToAlertData(region))
  {
    var alerts := RouteAlerts(data);
    var kept := OblastFilter(data);
    forall a | a in alerts
      ensures IsOblastId(a.regionId)
      ensures exists region :: region in data && IsOblastId(region.regionId) && a == ToAlertData(region)
    {
      var i :| 0 <= i < |alerts| && alerts[i] == a;
      assert kept[i] in kept;
    }
    forall region | region in data && IsOblastId(region.regionId) ensures ToAlertData(region) in alerts {
      var i :| 0 <= i < |kept| && kept[i] == region;
      assert alerts[i] == ToAlertData(region);
    }
  }

  /** The error text of a rejected regions request names its status code. */
  lemma RejectedNamesStatus(apiKey: Option<string>, status: nat, iot: IotOutcome)
    requires HasKey(apiKey)
    ensures var r := HandleGet(apiKey, Rejected(status), iot);
            && r.error.Some?
            && r.error.value[..|ApiErrorPrefix|] == ApiErrorPrefix
            && AllDigits(r.error.value[|ApiErrorPrefix|..])
            && DigitsValue(r.error.value[|ApiErrorPrefix|..]) == status
  {
    var e := ApiErrorPrefix + IntToString(status);
    assert e[|ApiErrorPrefix|..] == NatToString(status);
    DigitsValueOfNatToString(status);
  }

  /* ---------------------------------------------------------------------- */
  /* The route and the store agree                                          */
  /* ---------------------------------------------------------------------- */

  /** The region ids of a list are pairwise distinct. */
  predicate DistinctIds(data: seq<RegionAlert>) {
    forall i, j :: 0 <= i < j < |data| ==> data[i].regionId != data[j].regionId
  }

  /** The cache entries that storing each record of `kept` under its id builds when no id repeats. */
  function Entries(kept: seq<RegionAlert>): (m: OrderedMap<string, RegionAlert>)
    ensures |m| == |kept|
    ensures forall i :: 0 <= i < |kept| ==> m[i] == (kept[i].regionId, kept[i])
  {
    seq(|kept|, i requires 0 <= i < |kept| => (kept[i].regionId, kept[i]))
  }

  lemma {:induction false} PollingBuildsEntries(data: seq<RegionAlert>)
    requires DistinctIds(data)
    ensures AlertsStore.SetAllOblasts([], data) == Entries(OblastFilter(data))
    decreases |data|
  {
    if |data| > 0 {
      var init := data[..|data| - 1];
      var last := data[|data| - 1];
      assert DistinctIds(init);
      PollingBuildsEntries(init);
      var m := Entries(OblastFilter(init));
      if IsOblastId(last.regionId) {
        assert !Has(m, last.regionId) by {
          forall i | 0 <= i < |m| ensures m[i].0 != last.regionId {
            var region := OblastFilter(init)[i];
            assert region in init;
            var j :| 0 <= j < |init| && init[j] == region;
            assert data[j] == region;
          }
        }
        assert Entries(OblastFilter(init) + [last]) == m + [(last.regionId, last)];
      }
    }
  }

  /**
   * When the upstream list repeats no id, a poll into an empty store serves the
   * same records, in the same order, as the route does.
   */
  lemma PollingMatchesRoute(data: seq<RegionAlert>, now: int)
    requires DistinctIds(data)
    ensures AlertsStore.GetAlerts(AlertsStore.UpdateAllRegions(AlertsStore.Initial, data, now)) == RouteAlerts(data)
  {
    PollingBuildsEntries(data);
  }
}
