# Kyiv home dashboard: a Dafny model of its logic

The dashboard shows a Kyiv household's power-outage schedule, air-raid alerts
for Kyiv and a map of Ukraine's oblasts, the home inverter's battery state and
the weather, and lets the browser subscribe to push notifications. This project
models the parts of it that compute something and proves what they promise:

- **Outage schedule** (`outage_schedule.dfy`, `schedule_queries.dfy`,
  `hours_minutes.dfy`): the hourly codes of one outage group expanded into 48
  half-hour slots, run-length compressed into labelled "HH:MM-HH:MM" ranges,
  turned into today's periods, the current-period lookup, the countdown to the
  next switch, the duration captions, and the "tomorrow is really scheduled" test.
- **Alerts** (`ordered_maps.dfy`, `regions.dfy`, `oblasts.dfy`,
  `alert_mapping.dfy`, `alerts_store.dfy`, `alerts_route.dfy`,
  `dashboard_alerts.dfy`, `ukraine_map.dfy`): the UID-to-region aggregation,
  the in-memory alert store fed by polling and by webhooks, the `/api/alerts`
  handler, the dashboard's three-row alert panel, and the map's alert set,
  colouring and count.
- **Inverter** (`inverter.dfy`): the time-to-full label, the grid, discharge
  and charge powers, the capacity clamp and colour thresholds, and which card
  and battery-circle texts are shown.
- **Web push** (`base64.dfy`, `push_client.dfy`, `push_send_route.dfy`):
  decoding the URL-safe VAPID key (base64 with the alphabet of section 5 of
  RFC 4648, decoded as the WHATWG forgiving-base64 algorithm does), the
  service-worker registration gate, the early-exit order of subscribing, and
  the `/api/push/send` request validation and forwarding.
- **Webhook** (`webhook_route.dfy`, over the JSON values of `json.dfy`): the
  shared-secret check, payload validation and the log line.
- **Weather icon** (`weather_icons.dfy`): the WMO weather-code classifier
  (code table 4677) and the icon's CSS classes.

JavaScript behaviour is written out where it matters: `undefined` is `None`,
truthiness is explicit, `%` on a possibly negative dividend is `JsRem`, a JS
`Map` is an association list that keeps insertion order, `String(v)` and
`join` render values as JavaScript does, and a throw becomes an explicit error
result. The clock, the environment variables and every upstream answer are
parameters.

The id tables are kept exactly as written, and the model proves what follows
from them: region 25 of the region table is captioned "АР Крим" but the map
looks it up under "31" (the city of Kyiv), so a Kyiv alert lights the Crimea
caption (`UkraineMap.KyivCityLightsCrimeaCaption`); "29" and "30" map to
region 26, which the region table does not have, so Crimea alerts never show
(`AlertMapping.CrimeaNeverShown`, `UkraineMap.CrimeaIdLightsNothing`); map
region 6 is looked up under "7", which is not an oblast id
(`UkraineMap.ZakarpattiaNeverLitByOblastRows`).

## Model

| member | source | states |
|---|---|---|
| OutageSchedule.ExpandCode | components/dashboard.tsx:180-203 | the first half-hour is off exactly for "no" and "first", the second exactly for "no" and "second"; a missing, "yes" or unknown code keeps both on |
| OutageSchedule.ExpandHours | components/dashboard.tsx:179-204 | hours 1..n give 2n slots, hour h filling slots 2h-2 and 2h-1 with its code's expansion |
| OutageSchedule.DaySlots | components/dashboard.tsx:177-204 | any hour map yields exactly 48 slots |
| OutageSchedule.DaySlotAt | components/dashboard.tsx:179-204 | slot i belongs to hour i/2+1 and takes the half its parity selects |
| OutageSchedule.NeverFabricatesOutage | components/dashboard.tsx:181-203 | a slot is off only if its hour carries "no", "first" or "second" |
| OutageSchedule.UnknownCodeActsAsMissing | components/dashboard.tsx:182-202 | an unrecognised code gives the same day as no code for that hour |
| OutageSchedule.ClockRoundTrip | components/dashboard.tsx:213-232 | a minute count formatted as zero-padded "HH:MM" and split back on ':' gives the same count, so the recomputed start and end minutes are exact |
| OutageSchedule.FormatClockInjective | components/dashboard.tsx:213-221 | different minute counts never get the same clock text |
| OutageSchedule.FormatClock | components/dashboard.tsx:213-221 | below 100 hours the text is five characters with the colon in the middle |
| OutageSchedule.FormatSlotTime | components/dashboard.tsx:213-221 | the start time of slot i reads back as 30·i minutes, and is five characters for the 49 slot boundaries of a day |
| OutageSchedule.ClockMinutes | components/dashboard.tsx:229-230 | a text without a colon reads as NaN |
| OutageSchedule.NoDashInClock | components/dashboard.tsx:213-221 | a clock text contains no '-', so splitting the range label on '-' recovers both ends |
| OutageSchedule.PushRange | components/dashboard.tsx:223-242 | a range from slot a to slot b starts at minute 30a, ends at 30(b+1), and its label, emoji and caption match its bounds and status |
| OutageSchedule.WellFormedSlotCount | components/dashboard.tsx:223-242 | a range on the half-hour grid spans a positive whole number of slots |
| OutageSchedule.CloseRange | components/dashboard.tsx:244-250 | closing the open run extends a contiguous, alternating encoding of the slots seen so far by exactly that run |
| OutageSchedule.RunPrefix | components/dashboard.tsx:244-250 | a prefix that ends in a run is the shorter prefix followed by that run |
| OutageSchedule.CompressSlots | components/dashboard.tsx:206-254 | the ranges are non-empty, contiguous, alternate in status, start at minute 0, end at the last slot's end, and re-expand to exactly the input slots |
| OutageSchedule.BuildHalfHourRanges | components/dashboard.tsx:174-255 | no group data gives no ranges (not a full day of power); any group data gives the run-length encoding of its 48 slots, from 00:00 to 24:00 |
| ScheduleQueries.BuildTodayPeriods | components/dashboard.tsx:391-404 | one period per range, none without data |
| ScheduleQueries.ToPeriodOfWellFormed | components/dashboard.tsx:393-403 | a labelled range splits back into its two clock texts, keeps its minutes, and the end-minute normalisation never fires |
| ScheduleQueries.ToPeriod | components/dashboard.tsx:393-403 | powered exactly for "yes"; the start minutes are kept; an end of 0 becomes 24:00 (1440 minutes) and any other end is kept; a label without "-" is all start with the end left undefined, and a label with "-" always has an end |
| ScheduleQueries.PeriodsOfSchedule | components/dashboard.tsx:391-404 | the periods of a schedule carry the clock texts of their ranges' bounds |
| ScheduleQueries.PeriodMinutes | components/dashboard.tsx:391-404 | the periods keep each range's minutes and power flag |
| ScheduleQueries.ChainOrdered | components/dashboard.tsx:244-252 | in a contiguous chain earlier ranges end no later than later ones start |
| ScheduleQueries.ChainCovers | components/dashboard.tsx:408-415 | every minute between the first start and the last end lies in some range |
| ScheduleQueries.ChainDisjoint | components/dashboard.tsx:408-415 | no minute lies in two ranges of a chain |
| ScheduleQueries.ChainBounds | components/dashboard.tsx:244-252 | every range lies between the chain's first start and last end |
| ScheduleQueries.CurrentPeriodIndex | components/dashboard.tsx:408-415 | the index of the first period containing now, or -1 exactly when none does |
| ScheduleQueries.CurrentPeriodOfDay | components/dashboard.tsx:408-415 | for a day's schedule and 0 <= now < 1440 exactly one period contains now; outside the day the lookup gives -1 |
| ScheduleQueries.RemainingText | components/dashboard.tsx:449-463 | zero minutes reads "менше хвилини"; otherwise the whole hours with "год." and the leftover minutes with "хв.", each only when positive |
| ScheduleQueries.RemainingTextReadsBack | components/dashboard.tsx:449-463 | a positive countdown text parses back to (m / 60, m % 60); the zero text parses to nothing |
| ScheduleQueries.RemainingTextInjective | components/dashboard.tsx:449-463 | the countdown text determines the minutes it shows |
| ScheduleQueries.FindNextPowered | components/dashboard.tsx:436-439 | the first powered period starting after now, or -1 when there is none |
| ScheduleQueries.GetRemainingInfo | components/dashboard.tsx:408-465 | the current period is looked up at the first clock reading and the countdown taken at the second; there is a countdown exactly when the first reading finds a current period, titled "До вимкнення світла" for a powered one and "До включення світла" otherwise; the text counts down, clamped at 0, to the powered period's end, or to the start of the first powered period after the second reading, or is "Немає даних" when there is none |
| ScheduleQueries.TickAtPowerOff | components/dashboard.tsx:425-434 | a powered period found at 09:59 with the countdown taken at 10:00 shows "менше хвилини" through the clamp to 0 |
| ScheduleQueries.TickAtPowerOn | components/dashboard.tsx:436-445 | an outage found at 09:59 with the next powered period looked for at 10:00 shows "Немає даних" one minute before power returns |
| ScheduleQueries.RemainingWhilePowered | components/dashboard.tsx:431-434 | with both clock readings equal, in a powered period the countdown is "До вимкнення світла" with the positive minutes to the period's end |
| ScheduleQueries.RemainingWhileUnpowered | components/dashboard.tsx:435-447 | with both clock readings equal, in an unpowered period the countdown runs to the next range's start, or reads "Немає даних" in the last range |
| ScheduleQueries.NoRemainingOutsideDay | components/dashboard.tsx:422-423 | with both clock readings equal, for a minute outside the day there is no countdown |
| ScheduleQueries.JsRem | components/dashboard.tsx:667 | JavaScript's remainder: it keeps the dividend's sign and agrees with the mathematical one for non-negative dividends |
| ScheduleQueries.DurationLabelOf | components/dashboard.tsx:666-670 | a positive duration is captioned with its whole hours and leftover minutes, empty parts and outer spaces dropped |
| ScheduleQueries.DurationLabel | components/dashboard.tsx:666-670 | a missing (NaN) or non-positive duration gives an empty caption; the positive case is DurationLabelOf |
| ScheduleQueries.PeriodDuration | components/dashboard.tsx:663-665 | a start or end text without a colon makes the duration NaN |
| ScheduleQueries.DurationText | components/dashboard.tsx:662-671 | the caption throws exactly when the end text is undefined; otherwise clock texts without a colon give an empty caption, and DurationTextOf gives the parsed case |
| ScheduleQueries.DurationTextOf | components/dashboard.tsx:663-665 | a period whose clock texts parse to s < e is captioned with the duration e - s |
| ScheduleQueries.DurationOfPeriod | components/dashboard.tsx:663-670 | a period between clock texts of s < e minutes is captioned with (e - s) / 60 hours and (e - s) % 60 minutes |
| ScheduleQueries.StatusInSlots | components/dashboard.tsx:386-389 | a status occurs among a schedule's slots exactly when some range has it |
| ScheduleQueries.TomorrowScheduledIffOutage | components/dashboard.tsx:386-389 | tomorrow counts as scheduled exactly when its data has some off slot; the "00:00-24:00 all on" exclusion is then implied |
| ScheduleQueries.AllDayTestRedundant | components/dashboard.tsx:386-389 | tomorrow counts as scheduled exactly when it has ranges and one of them is an outage; the all-day powered test can never change the answer |
| HoursMinutes.UnitsTextEmpty | components/dashboard.tsx:668-670 | the hours/minutes caption is empty exactly when both parts are zero |
| HoursMinutes.UnitsTextRoundTrip | components/inverter-dashboard.tsx:41-43 | a non-empty hours/minutes text parses back to its hours and minutes |
| HoursMinutes.UnitsTextInjective | components/dashboard.tsx:668-670 | distinct hours/minutes pairs give distinct captions |
| AlertMapping.KeyString | lib/alert-mapping.ts:83-87 | `String` of a string key is the key itself; of a number or null it is never empty |
| AlertMapping.AlertUid | lib/alert-mapping.ts:83-95 | the UID is `location_uid` if defined, else `regionId` if defined, as a string; none when both are undefined or the string is empty |
| AlertMapping.ActivityPriority | lib/alert-mapping.ts:102-108 | an explicit flag decides; else a present `finished_at` decides by being null; else either spelling of the type being "AIR_RAID" |
| AlertMapping.IsActive | lib/alert-mapping.ts:102-106 | a present activeAlert decides alone; otherwise a present finished_at decides, active exactly when it is null; otherwise only an "AIR_RAID" type in either spelling makes it active |
| AlertMapping.UidTableOf | lib/alert-mapping.ts:79-115 | one entry per mentioned UID holding the OR of its alerts' activity, so an active status is never overwritten |
| AlertMapping.RegionTableOf | lib/alert-mapping.ts:119-129 | one entry per region reached by a mapped UID, holding the OR over those UIDs; unmapped UIDs are skipped |
| AlertMapping.GetRegionsWithStatus | lib/alert-mapping.ts:132-135 | same length and order as the input regions, each region kept unchanged |
| AlertMapping.RegionsWithStatusMeaning | lib/alert-mapping.ts:74-136 | a region is flagged exactly when some active alert's UID maps to it |
| AlertMapping.OrderIndependent | lib/alert-mapping.ts:112-129 | only which alerts occur matters: reordering or repeating alerts changes nothing |
| AlertMapping.PermutationInvariant | lib/alert-mapping.ts:112-129 | a permutation of the alerts gives the same result |
| AlertMapping.IrrelevantAlert | lib/alert-mapping.ts:89-123 | an alert without a UID, with an unmapped UID, or inactive changes no region |
| AlertMapping.KyivCityFlagsOblast | lib/alert-mapping.ts:14-15 | an active alert for the city of Kyiv ("31") flags the Kyiv oblast region, id 9 |
| AlertMapping.CrimeaNeverShown | lib/alert-mapping.ts:31-32 | alerts for "29" or "30" change no region of the region table, which has no region 26 |
| OrderedMaps.Set | lib/alerts-store.ts:50 | `set` replaces an existing key's value in place or appends a new entry, and no other key's value changes |
| OrderedMaps.SetKeepsUnique | lib/alerts-store.ts:50-60 | `set` never creates a second entry for a key |
| Oblasts.ToAlertData | lib/alerts-store.ts:81-87 | the record keeps id, name and time; it is flagged iff it lists an alert type, and lists the types of its active alerts in order, or none |
| Oblasts.OblastIdsLength | lib/alerts-store.ts:41-45 | the oblast list has 27 ids |
| AlertsStore.SetIfOblastValid | lib/alerts-store.ts:49-50 | storing a record under its own oblast id keeps the store valid |
| AlertsStore.UpdateRegionAlert | lib/alerts-store.ts:48-53 | a non-oblast id leaves the store unchanged; an oblast id stores the record under its id and sets the webhook time, nothing else changes, and validity is kept |
| AlertsStore.LastWithId | lib/alerts-store.ts:58-62 | the last record with an id, or none exactly when no record has it |
| AlertsStore.SetAllOblasts | lib/alerts-store.ts:58-62 | per oblast id the last record with that id wins; every other key keeps its value |
| AlertsStore.UpdateAllRegions | lib/alerts-store.ts:56-64 | the polling time is set even when nothing is stored; only oblast ids are stored, the last one winning; the other fields and validity are kept |
| AlertsStore.UpdateOblastString | lib/alerts-store.ts:67-69 | the oblast string is replaced and nothing else changes |
| AlertsStore.GetAlerts | lib/alerts-store.ts:77-91 | one front-end record per cache entry, in insertion order |
| AlertsStore.GetAlertsOfValid | lib/alerts-store.ts:77-91 | in a reachable store the records have distinct oblast ids |
| AlertsStore.GetLastUpdateTime | lib/alerts-store.ts:99-101 | the later of the polling and webhook times |
| AlertsStore.HasData | lib/alerts-store.ts:94-96 | the store has data exactly when getAlerts returns a non-empty list |
| AlertsStore.GetOblastString | lib/alerts-store.ts:72-74 | null in the initial store; LastOblastWins shows it is the last string stored |
| AlertsStore.NeedsPolling | lib/alerts-store.ts:104-112 | never due while the last webhook update is younger than the TTL; otherwise due exactly when the last poll is strictly older than the TTL |
| AlertsStore.RunValid | lib/alerts-store.ts:29-64 | after any sequence of updates from the initial store, keys are unique oblast ids and each record is filed under its own id |
| AlertsStore.LastOblastWins | lib/alerts-store.ts:38-74 | the oblast string read back is the last one stored, or null if none was |
| AlertsStore.DataPersists | lib/alerts-store.ts:94-96 | entries are never removed, so once the store has data it keeps it |
| AlertsStore.CacheNeverShrinks | lib/alerts-store.ts:56-62 | polling never shrinks the cache |
| AlertsStore.NoPollRightAfterPolling | lib/alerts-store.ts:104-112 | right after a poll no poll is due for any non-negative TTL |
| AlertsStore.WebhookSuppressesPolling | lib/alerts-store.ts:104-112 | a webhook update suppresses polling for exactly the TTL after it; later the polling age decides |
| AlertsStore.PollingBoundary | lib/alerts-store.ts:110-111 | a poll exactly one TTL old is not yet due; one millisecond later it is |
| AlertsRoute.OblastFilter | app/api/alerts/route.ts:77 | a record is kept exactly when it is in the input and its id is an oblast id; the result is no longer than the input |
| AlertsRoute.OblastFilterSingle | app/api/alerts/route.ts:77 | one record is kept exactly when its id is an oblast id |
| AlertsRoute.OblastFilterAppend | app/api/alerts/route.ts:77 | filtering a concatenation concatenates the filtered parts, so kept records stay in upstream order and repeats are kept as often as they occur |
| AlertsRoute.RouteAlerts | app/api/alerts/route.ts:80-86 | one front-end record per kept region |
| AlertsRoute.RouteAlertsSingle | app/api/alerts/route.ts:77-86 | one record gives its front-end record exactly when its id is an oblast id |
| AlertsRoute.RouteAlertsAppend | app/api/alerts/route.ts:77-86 | the route's list of a concatenation is the concatenation of the lists, so the records keep upstream order and multiplicity |
| AlertsRoute.CleanOblastString | app/api/alerts/route.ts:97 | no double quote remains, neither end is whitespace, the text only shrinks, and the result is a slice of the quote-free text with only whitespace cut from either end |
| AlertsRoute.CleanOblastStringUnique | app/api/alerts/route.ts:97 | the result is the only such slice, so every non-quote character between the first and last non-whitespace ones survives, in order |
| AlertsRoute.TrimmedSliceUnique | app/api/alerts/route.ts:97 | a string has only one slice with no whitespace at its ends and only whitespace around it, the one `trim` keeps |
| Text.RemoveAllSingle | app/api/alerts/route.ts:97 | one character is dropped exactly when it is a double quote, for `replace(/"/g, "")` |
| Text.RemoveAllAppend | app/api/alerts/route.ts:97 | removal distributes over concatenation, so every other character is kept in order |
| AlertsRoute.CleanOblastStringIdempotent | app/api/alerts/route.ts:97 | cleaning a cleaned string changes nothing |
| AlertsRoute.HandleGet | app/api/alerts/route.ts:27-117 | success exactly when a key is configured and the regions request returned an array; every failure has no alerts, a null oblast string and an error; a missing key names itself; a success carries the route's records of the upstream list and the cleaned IoT text, or null when the IoT request failed |
| AlertsRoute.SuccessfulResponse | app/api/alerts/route.ts:77-107 | a success lists one front-end record per oblast record and nothing else: each listed record comes from an oblast record of the data, each oblast record is listed, the count is the number of kept records; each is flagged iff it lists alert types; a failed IoT request leaves the oblast string null |
| AlertsRoute.RejectedNamesStatus | app/api/alerts/route.ts:53-62 | a rejected regions request reports "API помилка: " and its status |
| AlertsRoute.PollingBuildsEntries | lib/alerts-store.ts:56-64 | polling distinct records into an empty store files the oblast records in order |
| AlertsRoute.PollingMatchesRoute | lib/alerts-store.ts:77-91 | with distinct ids, the store after one poll returns the same records as the route |
| DashboardAlerts.FindById | components/dashboard.tsx:800 | the first record with the id, or none exactly when no record has it |
| DashboardAlerts.TargetRow | components/dashboard.tsx:799-807 | a row keeps the target's id and name, and is flagged iff the first record with that id is |
| DashboardAlerts.Panel | components/dashboard.tsx:786-817 | a failed request gives no rows and no data; otherwise the three targets in order, "any alert" iff some row is flagged, and the response's `ok` as the data flag |
| DashboardAlerts.RouteHasOnlyOblasts | app/api/alerts/route.ts:77 | a non-oblast id never appears in a route response |
| DashboardAlerts.CommunityNeverFlagged | components/dashboard.tsx:793-807 | the community row "701" is never flagged for a route response |
| DashboardAlerts.FailedResponsePanel | components/dashboard.tsx:799-811 | a failed route response yields three unflagged rows and no data |
| UkraineMap.ActiveIds | components/ukraine-map.tsx:58-62 | the ids of exactly the flagged rows |
| UkraineMap.CloseAlias | components/ukraine-map.tsx:71-74 | the set only grows, by "11" and "28" at most, and afterwards holds "11" iff it holds "28" |
| UkraineMap.AlertSet | components/ukraine-map.tsx:55-74 | holds every flagged row's id and every extra id, adds only the Donetsk alias, and holds "11" iff "28" |
| UkraineMap.InactiveRowAddsNothing | components/ukraine-map.tsx:59 | an unflagged row adds nothing |
| UkraineMap.PathStyleOf | components/ukraine-map.tsx:82-94 | fill, stroke, opacity and pulse are chosen by the alert state alone |
| UkraineMap.LabelStyleOf | components/ukraine-map.tsx:109-110 | caption colour and weight are chosen by the alert state alone |
| UkraineMap.Render | components/ukraine-map.tsx:77-130 | one view per region in table order, alerted iff it has an API id in the set |
| UkraineMap.HasAlert | components/ukraine-map.tsx:105-106 | only regions 1..26 of the table can be alerted, and nothing is alerted for an empty id set |
| UkraineMap.PathAndLabelAgree | components/ukraine-map.tsx:78-106 | a region's path and caption agree on whether it is alerted |
| UkraineMap.CountAlerted | components/ukraine-map.tsx:133-139 | the alerted-region count is at most the number of regions |
| UkraineMap.AlertCount | components/ukraine-map.tsx:133-139 | the counting loop returns the number of alerted regions |
| UkraineMap.QuietFigure | components/ukraine-map.tsx:151 | regions minus the alert count is exactly the number of quiet regions, never negative |
| UkraineMap.CountMonotone | components/ukraine-map.tsx:133-139 | more alerted ids never lower the count |
| UkraineMap.KyivCityLightsCrimeaCaption | components/ukraine-map.tsx:44 | an alert for "31" lights region 25, captioned "АР Крим" in the region table |
| UkraineMap.DonetskAlias | components/ukraine-map.tsx:23-74 | either Donetsk id lights region 4 |
| UkraineMap.ZakarpattiaNeverLitByOblastRows | components/ukraine-map.tsx:25 | rows with oblast ids never light region 6, looked up under "7" |
| UkraineMap.CrimeaIdLightsNothing | components/ukraine-map.tsx:45 | "29" lights no region of the table, since region 26 is absent |
| UkraineMap.PanelLightsOnlyKyiv | components/ukraine-map.tsx:19-46 | fed the dashboard panel, the map can light only region 9 or region 25 |
| Inverter.TimeSplit | components/inverter-dashboard.tsx:39-40 | whole hours and minutes of a positive time: minutes below 60 and h*3600 + m*60 <= s < that + 60 |
| Inverter.TimeSplitUnique | components/inverter-dashboard.tsx:39-40 | the split is the only one with those bounds |
| Inverter.FormatTimeToFull | components/inverter-dashboard.tsx:37-45 | "—" for non-finite or non-positive times, "< 1 хв" below a minute |
| Inverter.FormatTimeToFullReadsBack | components/inverter-dashboard.tsx:41-43 | from one minute on the label parses back to the time's whole hours and minutes |
| Inverter.FormatTimeToFullInjective | components/inverter-dashboard.tsx:37-45 | two times from a minute on share a label exactly when they share whole hours and minutes |
| Inverter.Derive | components/inverter-dashboard.tsx:293-301 | grid iff the voltage is a number above 50; missing readings are 0; discharge and charge are non-negative, at most one is non-zero and their difference is the battery power; grid power is non-negative, 0 without grid, at least the shortfall load − battery with grid, and 0 once the battery covers the load |
| Inverter.GridCoversShortfall | components/inverter-dashboard.tsx:298 | with grid, grid plus battery power is exactly the load while the battery falls short, and the grid supplies nothing once the battery covers the load |
| Inverter.DischargeOrCharge | components/inverter-dashboard.tsx:299-301 | the battery power's sign says which of discharge and charge is non-zero |
| Inverter.ClampCapacity | components/inverter-dashboard.tsx:92 | the capacity is clamped to 0..100 and kept when already inside |
| Inverter.CapacityLevel | components/inverter-dashboard.tsx:100-104 | green above 60, amber above 30 up to 60, red otherwise |
| Inverter.LevelMonotone | components/inverter-dashboard.tsx:92-104 | more charge never shows a worse colour |
| Inverter.LevelColorInjective | components/inverter-dashboard.tsx:101-103 | the three colours are distinct |
| Inverter.SelectCard | components/inverter-dashboard.tsx:471-524 | the discharge card iff discharging; else the charge card iff grid and charging; else the idle card |
| Inverter.Circle | components/inverter-dashboard.tsx:533-537 | the circle shows the capacity, charges iff the battery power is negative, and gets each time text exactly when that card is shown |
| Inverter.CardAgreesWithCircle | components/inverter-dashboard.tsx:471-537 | the card and the circle agree on which time text is shown |
| Base64.StdChar | lib/push-client.ts:35 | every 6-bit value has a standard-alphabet character decoding to it |
| Base64.SextetOfInverse | lib/push-client.ts:35 | every standard-alphabet character is the character of its value |
| Base64.SextetsRoundTrip | lib/push-client.ts:35 | decoding the sextets of any bytes gives the bytes back |
| Base64.Atob | lib/push-client.ts:35 | a decoded string has only codes below 256 |
| Base64.PaddingCount | lib/push-client.ts:32 | at most three '=' and the padded length is a multiple of 4 |
| Base64.ToStandard | lib/push-client.ts:32-33 | '-' becomes '+', '_' becomes '/', other characters are kept, and the padding is all '=' |
| Base64.CopyCharCodes | lib/push-client.ts:36-40 | the copy loop fills the array with the decoded string's character codes |
| Base64.CharCodesOfBinary | lib/push-client.ts:36-40 | codes below 256 survive the copy unchanged |
| Base64.UrlBase64ToUint8Array | lib/push-client.ts:31-42 | a result exactly when `atob` accepts the standardised key, and then byte i is the code of decoded character i |
| Base64.UrlBase64RoundTrip | lib/push-client.ts:31-42 | the conversion reads the unpadded URL-safe encoding of any bytes back to those bytes |
| Base64.RemainderOneRejected | lib/push-client.ts:32-35 | a key of length 1 modulo 4 is rejected |
| PushClient.ShouldRegister | lib/push-client.ts:7-25 | registration needs a window, service workers, and https or a local host |
| PushClient.RegistrationGate | lib/push-client.ts:11-15 | in a browser with service workers, registration happens exactly on https or a local host |
| PushClient.RequestPermission | lib/push-client.ts:52-68 | granted exactly when the APIs exist and the prompt answered granted; unsupported without them |
| PushClient.PostToBackend | lib/push-client.ts:126-145 | the post is the last action; the outcome is ok exactly when the backend accepts, with "Бекенд відхилив підписку" for a refusal and the network message for a thrown fetch |
| PushClient.SubscribeToPush | lib/push-client.ts:70-77 | no window or a missing API fails first with its own message and no action; success says "Сповіщення увімкнено" |
| PushClient.SubscribeAndPost | lib/push-client.ts:98-146 | a subscription attempt comes fourth, only when the lookup of an existing subscription neither throws nor finds one, and carries the decoded key; a throwing lookup fails the attempt; success ends with the post |
| PushClient.LookupFailureStopsSubscribe | lib/push-client.ts:98-111 | when looking up the existing subscription throws, the attempt fails with "Не вдалося підписатися на push" before any subscribe |
| PushClient.NoSubscribeWithoutPermission | lib/push-client.ts:79-82 | without granted permission nothing past the prompt happens |
| PushClient.NoSubscribeWithoutKey | lib/push-client.ts:84-88 | with permission but no key nothing past the prompt happens |
| PushClient.SubscribeCarriesKey | lib/push-client.ts:79-106 | any subscription attempt follows a granted prompt and carries the decoded VAPID key |
| PushClient.SuccessMeansPosted | lib/push-client.ts:70-141 | success needs every gate passed and the backend's acceptance, and ends with the post |
| PushClient.EncodedKeySubscribes | lib/push-client.ts:103-106 | a key from the URL-safe encoder reaches the subscription step with its own bytes |
| Json.LastField | app/api/push/send/route.ts:7-8 | a field is absent iff no entry has its name; otherwise it is the last entry with that name |
| Json.FieldOfObject | app/api/push/send/route.ts:33-38 | an object with distinct field names reads each field back |
| Json.ToJsStringOfTruthyScalar | app/api/webhook/alerts/route.ts:45-48 | a truthy string, number or boolean never renders empty |
| PushSendRoute.RegionOrDefault | app/api/push/send/route.ts:8 | the region is the given one when present, else "kyiv" |
| PushSendRoute.HandleSend | app/api/push/send/route.ts:5-70 | unreadable or null bodies fail with 500; a falsy type, title or message fails with 400 before anything is sent; only valid requests are forwarded; success exactly when forwarded and accepted |
| PushSendRoute.ForwardsIffValid | app/api/push/send/route.ts:10-39 | a request reaches the push server exactly when it passes validation |
| PushSendRoute.ForwardedReadsBack | app/api/push/send/route.ts:33-38 | the forwarded body carries type and title, the message as `body`, and the defaulted region, with no `message` field |
| PushSendRoute.UnknownTypeRejected | app/api/push/send/route.ts:18-24 | with all fields present, a type outside the three fails with 400 and a message listing them |
| PushSendRoute.RejectionRelayed | app/api/push/send/route.ts:41-52 | a refusing push server's status and text are relayed and the response is not a success |
| PushSendRoute.AcceptanceRelayed | app/api/push/send/route.ts:54-55 | an accepted push returns 200 with the push server's answer |
| WebhookRoute.Secret | app/api/webhook/alerts/route.ts:19 | an unset secret behaves as empty |
| WebhookRoute.AlertTypesText | app/api/webhook/alerts/route.ts:43 | a value exactly for absent, null, or arrays without null alerts, and never empty |
| WebhookRoute.AlertCountOfLogged | app/api/webhook/alerts/route.ts:42 | for every value the handler gets past the types step with, absent or null counts 0 and an array counts its alerts |
| WebhookRoute.LogLine | app/api/webhook/alerts/route.ts:45-48 | the logged line starts with "📢 Webhook: " and ends with the alert types |
| WebhookRoute.HandleWebhook | app/api/webhook/alerts/route.ts:21-60 | a wrong secret gives 401; a missing or null body gives 500; a falsy region id or name gives 400 "Invalid data"; a log line exactly on 200, which needs both the region id and name; the line names the region, its id, the alert count and the joined types |
| WebhookRoute.WrongSecretRefused | app/api/webhook/alerts/route.ts:24-30 | with a secret set, a wrong or missing header gives 401 whatever the body |
| WebhookRoute.HeaderIgnoredWhenAuthorized | app/api/webhook/alerts/route.ts:19-24 | without a secret, or with the right header, the header does not change the result |
| WebhookRoute.AcceptedEchoesRegion | app/api/webhook/alerts/route.ts:55 | an accepted event is acknowledged with its own region id |
| WebhookRoute.WellFormedAccepted | app/api/webhook/alerts/route.ts:36-55 | an event with id, name and object alerts is accepted and logs a line with its alert count |
| WebhookRoute.NoTypesOnlyWhenNothingJoined | app/api/webhook/alerts/route.ts:43 | "немає" replaces the types only for no alerts or one untyped alert |
| WeatherIcons.SizeClass | components/animated-weather-icon.tsx:12-16 | each size class starts with a width and ends without whitespace |
| WeatherIcons.ClassifyMatchesGroups | components/animated-weather-icon.tsx:137-159 | sun exactly for 0 and 1; rain, snow and thunder exactly for their listed codes; cloud for 2, 3, 45, 48 and every unlisted code |
| WeatherIcons.Classify | components/animated-weather-icon.tsx:137-159 | every code outside the five listed groups is drawn as a cloud, and only 95 as thunder |
| WeatherIcons.GroupsDisjoint | components/animated-weather-icon.tsx:138-156 | the five code groups share no code |
| WeatherIcons.IconClassShape | components/animated-weather-icon.tsx:12-19 | the class list is the size classes, followed by one space and the trimmed caller class when that is non-empty |
| WeatherIcons.DefaultSizeIsMedium | components/animated-weather-icon.tsx:134 | without a size the icon is medium, "w-7 h-7" |

## Left out

- Network, JSON parsing and response construction: every `fetch`, `response.json()` and `NextResponse` is replaced by its possible outcomes as parameters; only status codes and the fields the handlers choose are modelled.
- The clock and time zones: each clock reading is a parameter in minutes (schedule) or milliseconds (store), and the countdown takes its two readings as two parameters; `Date`, `Intl`, `toLocaleString` and the Kyiv-midnight and date formatting are left out.
- Polling, timers and storage: the schedule's fetch-and-cache lifecycle, `setInterval`, localStorage and React state are left out; the stale-data notice is not modelled.
- Floating point: the time-to-full and time-to-empty divisions and the SVG geometry are not modelled; `Inverter.FormatTimeToFull` takes the seconds as a real or a non-finite marker.
- Inverter.Derive: readings are integers; a non-integer wattage from the inverter is not modelled.
- The webhook's GET handler, which only reports that the endpoint is ready.
- WebhookRoute.AlertCount: only the values for which the handler gets past the types step (absent, null, array) are distinguished; for any other value the handler fails before logging.
- Text.JsNumber: only digit strings are read; `Number` also accepts surrounding whitespace, a sign, a fraction, an exponent and hex digits, which the model reads as NaN. The clock texts of a compressed schedule are always zero-padded digits, so the difference arises only for hand-written labels.
- Json: numbers are integers, and an object's `length` or `map` property is never treated as a function or array length.
- Base64.PaddingCount: lengths are counted in code points; JavaScript counts UTF-16 units, which differ only for keys outside the base64 alphabets, which `atob` rejects anyway.
- AlertMapping: `LOCATION_MAPPING` lookups of keys inherited from `Object.prototype` are not modelled.
- The dashboard's alert rows drop the `notes` field, which is always null for route responses; a record whose `activeAlert` is missing reads as not flagged, as the `|| false` makes it.
- The push-server, ukrainealarm and Open-Meteo APIs, the service worker script, the layout, the particle background, the tabs, the notification toggle, the inverter route, the webhook registration and push-test routes are presentation or single upstream calls.
- The dashboard's own weather icon table and description strings are not modelled; the animated icon's classifier is.
