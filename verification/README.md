# Supametrics core in Dafny

Supametrics is a small web-analytics service. A tracking snippet posts page views and custom
events to a Go server (Fiber). The Go server authenticates them with a public or secret API key,
applies per-client and per-project rate limits and a monthly event quota, and stores the events
in `analytics_events`. A TypeScript API (Hono) lets signed-in users manage projects, teams and
members, and it serves dashboards. Those dashboards hold totals, unique visitors, breakdowns,
period-over-period changes and a time series for a named period ("today", "thisweek",
"last3years", ...). A React dashboard renders the changes as trends, keeps the active workspace
and remembers dropdown filters in local storage.

This project models that core as Dafny modules, one per concern:

- **Time and calendar.**
  - `Calendar` covers the date arithmetic of ECMAScript, in milliseconds on one calendar:
    day numbers, civil dates, `setDate`, `setMonth`, `setFullYear` and the start or end of a
    day, week, month or year.
  - `TimeRange` models `getTimeRange` and `getPreviousTimeRange` of the analytics handler.
  - `GoTimeRange` and `GoFormat` model the Go copies and Go's date layouts.
- **Analytics queries.**
  - `Events` holds the event row and the SQL conditions.
  - `Aggregation` holds the GROUP BY / COUNT(DISTINCT) breakdowns and the `date_trunc` series.
  - `AnalyticsHandler` models `fetchAnalytics`.
  - `GoAnalyticsHandler` models the Go `GetAnalytics`.
  - `Weekly` models the weekly project summary.
  - `Change`, `JsNumbers` and `Trend` model the percent change, `toFixed(1)`, `parseFloat`
    and the trend badge.
- **Ingestion.**
  - `Ingestion` models `LogAnalyticsEvent`, with its GeoIP and user-agent helpers, over an
    event table object.
  - `ClientIdentity` models the client address, IP anonymisation, the daily visitor id and
    the user hash.
- **Keys and limits.**
  - `ApiKeys` models key generation and the key-format checks.
  - `RedisStore` models the Redis cache helpers over a store object.
  - `RateLimiter` and `Quota` model the Go utilities.
  - `PublicKeyMiddleware` and `PrivateKeyMiddleware` model the two middlewares.
- **Projects and teams.**
  - `Pagination` models both pagination helpers.
  - `ProjectHelpers` models the membership helpers.
  - `ProjectCreation`, `ProjectList` and `ProjectAccess` model the project routes.
  - `Teams` models the team routes.
- **Client state.**
  - `WorkspaceStore` models the zustand workspace store as a class.
  - `FilterDropdown` models the filter dropdown as a class.

Clocks, randomness, hash functions, the GeoIP database and the slug helper are parameters. The
model includes these behaviours of the code where they differ from the service's documented
behaviour:
- The "thismonth" comparison window is built with `setMonth` and is not clamped. In a 31-day
  month that follows a shorter month, it therefore overlaps the current month
  (`TimeRange.ThisMonthPreviousCanOverlap`).
- `fetchAnalytics` never answers 404. Membership rows must name an existing project (a foreign
  key), so a project id that passes the UUID check but names no project has no membership, and
  the caller gets 403 (`AnalyticsHandler.UnknownProjectIsForbidden`).
- The online-visitor query runs before the filter is validated.
- The overview of a project without a team is readable by every signed-in user, as "viewer".
- The workspace store's `isPersonalWorkspace` is written as a getter, but zustand's `set` copies
  it into the next state as a plain value, read against the state before the update. It is read
  first while no workspace is active, so it stays false
  (`WorkspaceStore.PersonalFlagAlwaysFalse`). The getter's intended reading is
  `WorkspaceStore.IsPersonal`.

## Model

| member | source | states |
|---|---|---|
| Calendar.StartOfDay | apps/hono-api/src/handlers/analytics.ts:24-25 | midnight of t's day: t's day number at time of day 0 |
| Calendar.EndOfDay | apps/hono-api/src/handlers/analytics.ts:26-27 | 23:59:59.999 of t's day: its day number at the day's last millisecond |
| Calendar.DayBounds | apps/hono-api/src/handlers/analytics.ts:24-27 | a day runs from its midnight to its last millisecond, both on t's day, and holds t |
| Calendar.IsoWeekDay | apps/hono-api/src/handlers/analytics.ts:29 | `getDay() \|\| 7`: Monday 1 through Sunday 7 |
| Calendar.StartOfWeek | apps/hono-api/src/handlers/analytics.ts:28-34 | midnight of the Monday of t's week |
| Calendar.WeekBounds | apps/hono-api/src/handlers/analytics.ts:28-34 | the week start is a Monday midnight, at most t and less than seven days before it |
| Calendar.WeekStable | apps/hono-api/src/handlers/analytics.ts:28-34 | every instant of a week resolves to the same Monday |
| Calendar.EndOfWeek | apps/hono-api/src/handlers/analytics.ts:35-40 | 23:59:59.999 of the Sunday that closes t's week: one millisecond before seven days after the week start |
| Calendar.StartOfMonth | apps/hono-api/src/handlers/analytics.ts:41 | midnight of the 1st of t's month, DateOf(t) - 1 days before t's day |
| Calendar.EndOfMonth | apps/hono-api/src/handlers/analytics.ts:42-43 | day 0 of the next month is 23:59:59.999 of day DaysInMonth of t's month (29 February in leap years, 31 December for December) |
| Calendar.MonthBounds | apps/hono-api/src/handlers/analytics.ts:41-43 | the month runs from its 1st at 00:00 to its last day at 23:59:59.999 and holds t |
| Calendar.YearBounds | apps/hono-api/src/handlers/analytics.ts:44-46 | the year runs from 1 January 00:00 to 31 December 23:59:59.999 and holds t |
| Calendar.YearsAgoBounds | apps/hono-api/src/handlers/analytics.ts:47-48 | n years back, 1 January opens year YearOf(t) - n, no later than t's year for n >= 0 |
| Calendar.SetDateShift | apps/hono-api/src/handlers/analytics.ts:70-71 | `setDate(getDate() + k)` moves an instant by exactly k whole days |
| Calendar.CivilOfDay | apps/hono-api/src/handlers/analytics.ts:24-48 | the calendar date of a day number is the one valid date with that number |
| Calendar.CivilOfDayOfCivil | apps/hono-api/src/handlers/analytics.ts:24-48 | reading back the date of a valid date's day number gives that date |
| Calendar.DayOfCivilInjective | apps/hono-api/src/handlers/analytics.ts:24-48 | different valid dates have different day numbers |
| Calendar.PreviousMonthStart | apps/hono-api/src/handlers/analytics.ts:135-136 | `setMonth(getMonth() - 1)` on the 1st at midnight gives the 1st of the month before |
| Calendar.PreviousMonthEnd | apps/hono-api/src/handlers/analytics.ts:137-138 | `setMonth(getMonth() - 1)` on a month's last millisecond keeps the day of month, normalised in the month before |
| Calendar.PreviousYearStart | apps/hono-api/src/handlers/analytics.ts:142-143 | `setFullYear(getFullYear() - 1)` on 1 January gives 1 January of the year before |
| Calendar.PreviousYearEnd | apps/hono-api/src/handlers/analytics.ts:144-145 | `setFullYear(getFullYear() - 1)` on a year's last millisecond gives that of the year before |
| TimeRange.ParseFilter | apps/hono-api/src/handlers/analytics.ts:12-21 | a string is a filter exactly when it is one of the eight allowed tokens, case-sensitive |
| TimeRange.ParseFilterOfName | apps/hono-api/src/handlers/analytics.ts:12-21 | every token's name parses back to that token |
| TimeRange.Resolve | apps/hono-api/src/handlers/analytics.ts:55-96 | the switch on the token; exactly the two sliding tokens have no end |
| TimeRange.GetTimeRange | apps/hono-api/src/handlers/analytics.ts:51-101 | the range of an allowed token, and "Invalid filter" for every other string |
| TimeRange.WholeDay | apps/hono-api/src/handlers/analytics.ts:64-68 | "today" is 00:00:00.000 to 23:59:59.999 of now's day |
| TimeRange.CalendarRangeBounds | apps/hono-api/src/handlers/analytics.ts:64-96 | every calendar range starts at a midnight, ends at a last millisecond, and starts strictly before it ends |
| TimeRange.RangeHoldsNow | apps/hono-api/src/handlers/analytics.ts:64-96 | today, thisweek, thismonth, thisyear and last3years contain now; yesterday ends before it |
| TimeRange.YesterdayIsTodayMinusOneDay | apps/hono-api/src/handlers/analytics.ts:69-76 | "yesterday" is the "today" range moved back exactly one day |
| TimeRange.ThisWeekStable | apps/hono-api/src/handlers/analytics.ts:77-81 | two instants of one Monday-to-Sunday week resolve "thisweek" identically |
| TimeRange.PreviousWindow | apps/hono-api/src/handlers/analytics.ts:103-157 | the sliding windows end where the current range starts and the last3years window 1 ms before it; thismonth and thisyear need the current end |
| TimeRange.GetPreviousTimeRange | apps/hono-api/src/handlers/analytics.ts:103-157 | the comparison window of an allowed token, and "Invalid filter" for any other string |
| TimeRange.SlidingPrevious | apps/hono-api/src/handlers/analytics.ts:109-118 | the 10-second and 5-minute windows end where the current one starts and have its length |
| TimeRange.ShiftedPrevious | apps/hono-api/src/handlers/analytics.ts:119-133 | today and yesterday compare with the window 24 h earlier and thisweek with the one 7 days earlier, ending 1 ms before the current start |
| TimeRange.ThisMonthPrevious | apps/hono-api/src/handlers/analytics.ts:134-140 | the window starts on the 1st of the preceding month; its end is the current last day of month, normalised, so it lands in the current month when the preceding month is shorter |
| TimeRange.PreviousMonthWindow | apps/hono-api/src/handlers/analytics.ts:134-140 | both ends of the "thismonth" range move back one month |
| TimeRange.ThisYearPrevious | apps/hono-api/src/handlers/analytics.ts:141-147 | "thisyear" compares with the whole previous calendar year, which ends just before the current start |
| TimeRange.PreviousYearWindow | apps/hono-api/src/handlers/analytics.ts:141-147 | both ends of the "thisyear" range move back one year |
| TimeRange.Last3YearsPrevious | apps/hono-api/src/handlers/analytics.ts:148-153 | the window ends 1 ms before the current start and starts three years before that end |
| TimeRange.PreviousEndsBeforeStart | apps/hono-api/src/handlers/analytics.ts:103-157 | for every token but "thismonth" the comparison window ends no later than the current start |
| TimeRange.ThisMonthPreviousCanOverlap | apps/hono-api/src/handlers/analytics.ts:134-140 | in a 31-day month after a shorter one, the "thismonth" comparison window overlaps the current month |
| Change.PercentChangeMeaning | apps/hono-api/src/handlers/analytics.ts:159-162 | null exactly on a zero baseline; otherwise r times the baseline's magnitude is 100 times the difference, and r has the sign of the difference |
| Change.WeeklyPercentChangeMeaning | apps/hono-api/src/helpers/project-analytics.ts:8-14 | on a zero baseline 0 or 100 by whether the count is zero; otherwise r times the baseline is 100 times the difference |
| Change.PercentChangeVariants | apps/hono-api/src/helpers/project-analytics.ts:8-14 | the weekly and analytics percent changes agree on a non-zero baseline and part only on a zero one |
| Change.FormatChangeShape | apps/hono-api/src/handlers/analytics.ts:344-345 | null stays null; a value gives sign, one-decimal magnitude and exactly one "%", with "+" exactly for a positive value and "-" exactly for a negative one |
| JsNumbers.RoundedIsNearest | apps/hono-api/src/handlers/analytics.ts:345 | `toFixed(1)` moves a number by at most half a tenth |
| JsNumbers.ParseToFixed1 | apps/dashboard/lib/get-trend.ts:10 | `parseFloat` reads back what `toFixed(1)` writes as the rounded value |
| JsNumbers.ParseIntOfNat | apps/hono-api/src/lib/utils.ts:11-12 | `parseInt` reads back the decimal rendering of a natural number |
| Trend.GetTrendConsistent | apps/dashboard/lib/get-trend.ts:1-42 | every trend has matching direction, class and label; missing, empty and unparsable strings are neutral |
| Trend.ClassifyConsistent | apps/dashboard/lib/get-trend.ts:12-41 | every branch after the parse returns a consistent trend |
| Trend.GetTrendDependsOnValue | apps/dashboard/lib/get-trend.ts:10-41 | two non-empty strings read as the same number get the same direction and class; an up label repeats its own string |
| Trend.ClassifyIgnoresText | apps/dashboard/lib/get-trend.ts:12-41 | the branch after the parse, and so the direction and class, depends on the number alone |
| Trend.TrendOfFormattedChange | apps/dashboard/lib/get-trend.ts:10-34 | the trend of a formatted change is up exactly for v >= 0.05, down exactly for v <= -0.05 ("-0.0%" is neutral); a down label shows the magnitude |
| Trend.ClassifyRounded | apps/dashboard/lib/get-trend.ts:12-41 | the branch taken on the rounded value, with the label built |
| Trend.MinusDropped | apps/dashboard/lib/get-trend.ts:32 | removing the first "-" of a negative formatted change leaves the magnitude's rendering |
| Events.WhereMembership | apps/hono-api/src/handlers/analytics.ts:312-326 | a row is read exactly when it is stored and satisfies every condition; every row read has a timestamp |
| Aggregation.KeysOfSpec | apps/hono-api/src/handlers/analytics.ts:184-200 | the group keys are distinct, and a key is a group exactly when some row carries it |
| Aggregation.RankOrderSpec | apps/hono-api/src/handlers/analytics.ts:184-200 | ORDER BY count DESC permutes the keys, keeps them distinct, and leaves counts non-increasing |
| Aggregation.GroupCountSpec | apps/hono-api/src/handlers/analytics.ts:184-225 | at most `limit` groups, each with a non-NULL key and its true count of at least 1; keys distinct, counts non-increasing; a key left out counts no more than any group kept |
| Aggregation.GroupsCounted | apps/hono-api/src/handlers/analytics.ts:184-200 | every group carries its key's true COUNT(*), at least 1 |
| Aggregation.GroupsOrdered | apps/hono-api/src/handlers/analytics.ts:184-200 | the groups have distinct keys in non-increasing order of count |
| Aggregation.GroupsComplete | apps/hono-api/src/handlers/analytics.ts:216-225 | a key missing from the limited result counts no more than any group kept |
| Aggregation.VisitorsSpec | apps/hono-api/src/handlers/analytics.ts:226-237 | COUNT(DISTINCT visitor_id) counts exactly the ids some row carries, never more than the rows |
| Aggregation.Breakdown | apps/hono-api/src/handlers/analytics.ts:216-225 | 15 paths and referrers, 10 hostnames, countries and cities, 5 UTM sources at most |
| Aggregation.CommonAggregationsBounds | apps/hono-api/src/handlers/analytics.ts:226-251 | every row read is one visit, there are no more visitors than visits, and an empty store gives zero for both |
| Aggregation.FrequencySpec | apps/hono-api/src/handlers/analytics.ts:355-364 | one point per non-empty bucket in ascending order, each with at least one visit and no more visitors than visits; every row falls in a listed bucket, and the visits add up to the rows |
| Aggregation.FrequencyAscending | apps/hono-api/src/handlers/analytics.ts:355-364 | the buckets are strictly ascending |
| Aggregation.FrequencyPointCounts | apps/hono-api/src/handlers/analytics.ts:355-364 | each point has at least one visit and no more visitors than visits |
| Aggregation.FrequencyCovers | apps/hono-api/src/handlers/analytics.ts:355-364 | every timestamped row falls in a listed bucket |
| Aggregation.FrequencySum | apps/hono-api/src/handlers/analytics.ts:355-364 | the visits of the points add up to the timestamped rows |
| AnalyticsHandler.CurrentConditions | apps/hono-api/src/handlers/analytics.ts:312-318 | project and lower bound first, the end only when the range has one, the event name only when truthy; the array selects exactly the matching rows |
| AnalyticsHandler.PreviousConditions | apps/hono-api/src/handlers/analytics.ts:319-326 | project and both window bounds, then the event name only when truthy; the array selects exactly the matching rows |
| AnalyticsHandler.RequestedFilterSpec | apps/hono-api/src/handlers/analytics.ts:296-307 | a missing or empty filter means "today"; the filter is lower-cased before the check |
| AnalyticsHandler.FetchAnalytics | apps/hono-api/src/handlers/analytics.ts:256-416 | 400 for a bad project id, 500 without a user, 403 without a membership, 400 for a bad filter; a success reports the project's name, an undefined `url`, the current rows' aggregations, the formatted changes against the comparison window and the frequency series |
| AnalyticsHandler.UnknownProjectIsForbidden | apps/hono-api/src/handlers/analytics.ts:282-292 | with the foreign key from memberships to projects, an id naming no project has no membership, so the answer is 403 |
| GoTimeRange.AddDays | apps/go-server/handlers/get_analytics.go:40 | `AddDate(0, 0, k)` moves an instant by exactly k days |
| GoTimeRange.DaysToMonday | apps/go-server/handlers/get_analytics.go:46-50 | Monday 0 through Sunday 6: the ISO weekday minus one |
| GoTimeRange.GoEndOfMonth | apps/go-server/handlers/get_analytics.go:68-71 | `time.Date(y, m+1, 0, 23, 59, 59, 999ms)` is the TypeScript end of month |
| GoTimeRange.GoEndOfYear | apps/go-server/handlers/get_analytics.go:73-75 | 31 December 23:59:59.999 is the TypeScript end of year |
| GoTimeRange.GoResolve | apps/go-server/handlers/get_analytics.go:34-61 | the bucket unit is hour, day or month |
| GoTimeRange.GoGetTimeRange | apps/go-server/handlers/get_analytics.go:22-66 | an allowed token resolves by its own case, and every other string falls back to "today" |
| GoTimeRange.GoAgreesWithTs | apps/go-server/handlers/get_analytics.go:22-66 | on the five shared tokens, Go and TypeScript give the same instants and bucket unit |
| GoTimeRange.GoFallbackIsToday | apps/go-server/handlers/get_analytics.go:62-63 | any other string gets the TypeScript "today" range |
| GoTimeRange.GoWeekIsTsWeek | apps/go-server/handlers/get_analytics.go:44-53 | the Go "thisweek" range is the TypeScript Monday-to-Sunday week |
| GoTimeRange.GoWeekStart | apps/go-server/handlers/get_analytics.go:51 | going back to Monday and taking midnight is the TypeScript week start |
| GoTimeRange.GoWeekEnd | apps/go-server/handlers/get_analytics.go:52 | going forward to Sunday and taking 23:59:59.999 is the TypeScript week end |
| GoAnalyticsHandler.IsValidFilter | apps/go-server/handlers/get_analytics.go:98-110 | the loop accepts exactly the five tokens, case-sensitive |
| GoAnalyticsHandler.BuildWhere | apps/go-server/handlers/get_analytics.go:114-121 | three base placeholders, plus " AND event_name = $4" with a fourth argument exactly for a non-empty event name; the clause selects exactly the matching rows |
| GoAnalyticsHandler.CollectFrequency | apps/go-server/handlers/get_analytics.go:158-166 | the collected points are the rows that scanned, in order |
| GoAnalyticsHandler.ScannedSpec | apps/go-server/handlers/get_analytics.go:158-166 | a failed scan drops only its own row; without failures every row is collected |
| GoAnalyticsHandler.GoRowsSum | apps/go-server/handlers/get_analytics.go:139-149 | every row the queries read is counted in exactly one bucket |
| GoAnalyticsHandler.GetAnalytics | apps/go-server/handlers/get_analytics.go:88-181 | 500 without project context, 400 for a filter outside the five, 500 on either query error; a success reports the rows' count and distinct visitors (zero on ErrNoRows), the series minus failed scans, and visits that add up across the series when nothing fails |
| GoFormat.DateKeyIsTheDay | apps/go-server/utils/user.go:52 | "2006-01-02" names the day: same day, same key; and for years 0-9999, same key, same day |
| GoFormat.MonthKeyIsTheMonth | apps/go-server/handlers/post_analyics.go:286 | "2006-01" names the month: same year and month exactly when same key, for years 0-9999 |
| GoFormat.MonthKeyOfMonthStart | apps/go-server/middleware/public_key.go:110-112 | the month's first instant formats to the same key as any instant of the month |
| Weekly.Select | apps/hono-api/src/helpers/project-analytics.ts:28-54 | the selected rows never outnumber the store |
| Weekly.SelectMembership | apps/hono-api/src/helpers/project-analytics.ts:28-54 | a row is selected exactly when it is stored and satisfies the window |
| Weekly.TruthyVisitorsSpec | apps/hono-api/src/helpers/project-analytics.ts:57-59 | exactly the non-empty ids some row carries count, never more than the rows |
| Weekly.WeeklyWindows | apps/hono-api/src/helpers/project-analytics.ts:20-25 | the week starts seven days before now, the previous week seven days before that, and no row is in both windows |
| Weekly.WeeklyAggregateSpec | apps/hono-api/src/helpers/project-analytics.ts:16-76 | the totals count the current window; both changes are always present; two empty weeks report "0.0%" |
| Weekly.ZeroChange | apps/hono-api/src/helpers/project-analytics.ts:12 | no change over an empty baseline renders as "0.0%" |
| Ingestion.GeoIpLookupSpec | apps/go-server/handlers/post_analyics.go:38-76 | a local address is "Private IP" without the database; a public lookup fails without a database, on an error, or when neither field is known; a success never has both defaults |
| Ingestion.PrivateRangeCut | apps/go-server/handlers/post_analyics.go:39 | only "172.16." of 172.16.0.0/12 counts as local |
| Ingestion.UserAgentSpec | apps/go-server/handlers/post_analyics.go:86-103 | Chrome on macOS exactly when the agent holds both "Chrome" and "Macintosh" |
| Ingestion.EventTable.constructor | apps/go-server/handlers/post_analyics.go:264-281 | an empty table |
| Ingestion.EventTable.Insert | apps/go-server/handlers/post_analyics.go:264-284 | the row is appended, or nothing changes when the statement fails |
| Ingestion.LogAnalyticsEvent | apps/go-server/handlers/post_analyics.go:176-294 | the answer, the rows and the counters after one request |
| Ingestion.RejectionsChangeNothing | apps/go-server/handlers/post_analyics.go:177-193 | 401, 400, 400, 400 in order, and 500 on a failed insert; none stores a row or touches Redis |
| Ingestion.AcceptedEventIsStored | apps/go-server/handlers/post_analyics.go:195-288 | exactly one row for the project, stamped now, with the request's fields, the daily visitor id and the session; the month counter goes up by one |
| Ingestion.LocationSpec | apps/go-server/handlers/post_analyics.go:206-226 | the client's country and city when both are sent, else "Private IP", the GeoIP answer or "Unknown Location" |
| Ingestion.CounterIsTheMiddlewaresKey | apps/go-server/handlers/post_analyics.go:286-288 | the counter key is the one the key middlewares read for that month |
| Ingestion.CachedTotalTracksRows | apps/go-server/handlers/post_analyics.go:282-288 | a cached monthly total that equals the count of rows stays equal after an accepted event |
| ClientIdentity.ClientIpPrecedence | apps/go-server/utils/user.go:13-24 | Cloudflare, then the first X-Forwarded-For entry, then X-Real-IP, then the connection address |
| ClientIdentity.AnonymisedIpv4 | apps/go-server/utils/user.go:34-38 | a four-part dotted address keeps three parts and ends in "0" |
| ClientIdentity.AnonymisedIpv6 | apps/go-server/utils/user.go:39-43 | a colon address keeps two groups followed by "::" |
| ClientIdentity.AnonymiseIpSpec | apps/go-server/utils/user.go:30-45 | the empty address is "unknown"; the IPv4 and IPv6 cuts apply only to the shapes they expect; anything else is kept |
| ClientIdentity.AnonymiseIpIdempotent | apps/go-server/utils/user.go:30-45 | anonymising twice changes nothing more |
| ClientIdentity.SameSubnetSameAddress | apps/go-server/utils/user.go:34-38 | two addresses of the same /24 anonymise alike |
| ClientIdentity.VisitorIdShape | apps/go-server/utils/user.go:55-58 | a visitor id is 64 lower-case hex digits that decode to the digest |
| ClientIdentity.VisitorIdCollisions | apps/go-server/utils/user.go:29-59 | same address and agent on the same day give the same id; empty inputs count as "unknown"; a /24 and agent collide on one day |
| ClientIdentity.VisitorBaseNamesTheDay | apps/go-server/utils/user.go:52-55 | the hashed text changes with the day, for years 0-9999 |
| ClientIdentity.UserHashSpec | apps/go-server/utils/user.go:62-73 | 16 lower-case hex digits, the head of the digest of "ip\|ua"; empty inputs are "unknown" |
| ApiKeys.PublicKeyFormat | apps/go-server/utils/validate_key.go:17-27 | the empty key has its own error; others pass exactly as "supm_" plus 32 lower-case hex digits |
| ApiKeys.SecretKeyFormat | apps/go-server/utils/validate_key.go:30-40 | the empty key has its own error; others pass exactly as "sk_" plus 64 lower-case hex digits |
| ApiKeys.KeyFormatsDisjoint | apps/go-server/utils/validate_key.go:8-14 | no string is both a public and a secret key |
| ApiKeys.GeneratedKeysAreWellFormed | apps/hono-api/src/lib/utils.ts:4-8 | every generated pair passes both format checks |
| ApiKeys.WellFormedKeysAreGenerated | apps/hono-api/src/lib/utils.ts:4-8 | every well-formed key comes from exactly one choice of random bytes |
| Hex.HexRoundTrip | apps/hono-api/src/lib/utils.ts:5-6 | hex encoding is lower-case and reads back as the bytes |
| Hex.HexDecodeRoundTrip | apps/hono-api/src/lib/utils.ts:5-6 | every run of lower-case hex pairs is the encoding of some bytes |
| Pagination.LibClampSpec | apps/hono-api/src/lib/utils.ts:11-13 | page >= 1 and 1 <= limit <= 100 for numbers, NaN stays NaN; the offset is (page - 1) * limit, a non-negative multiple of the limit |
| Pagination.LibPaginationSpec | apps/hono-api/src/lib/utils.ts:10-15 | absent parameters give page 1, limit 20, offset 0 |
| Pagination.HelperClampSpec | apps/hono-api/src/helpers/pagination.ts:7-14 | page >= 1 and 1 <= limit <= 100 always; NaN or 0 gives page 1 and limit 20 |
| Pagination.HelperPaginationDefaults | apps/hono-api/src/helpers/pagination.ts:3-16 | absent parameters give page 1, limit 20, offset 0 |
| Pagination.PaginationVersionsAgree | apps/hono-api/src/helpers/pagination.ts:7-11 | the two versions give the same page exactly when it reads as a number, and the same limit exactly when it reads as a non-zero number |
| Quota.GetQuota | apps/go-server/utils/lib.go:9-18 | the quota is never negative |
| Quota.GetQuotaSpec | apps/go-server/utils/lib.go:3-18 | the paid quota exactly for "paid", unlimited exactly for "enterprise", the free quota otherwise |
| Quota.QuotaTablesDiffer | apps/go-server/utils/lib.go:3-18 | `GetQuota` and both middlewares agree on "enterprise" and on other plans, and disagree on "paid" and "pro" |
| RateLimiter.AllowRequest | apps/go-server/utils/rate_limiter.go:12-27 | the store after the call is the one-step function of the store before |
| RateLimiter.AllowRequestStep | apps/go-server/utils/rate_limiter.go:12-27 | the count goes up by one, and the request is allowed exactly within the limit; the expiry is set only when the count is 1; a Redis error denies and changes nothing |
| RateLimiter.FreshWindow | apps/go-server/utils/rate_limiter.go:22-26 | in a fresh window the first `limit` calls pass and every later one is denied |
| RedisStore.Store.constructor | apps/go-server/utils/redis_utils.go:68-76 | the empty store |
| RedisStore.Store.Incr | apps/go-server/utils/redis_utils.go:70 | INCR adds one to the key, or changes nothing and fails |
| RedisStore.Store.Expire | apps/go-server/utils/redis_utils.go:74 | EXPIRE sets the key's time to live, or changes nothing |
| RedisStore.Store.Get | apps/go-server/utils/redis_utils.go:34 | GET returns the stored number, or none on a miss or an error |
| RedisStore.Store.Set | apps/go-server/utils/redis_utils.go:28 | SET stores the number with its time to live, or changes nothing |
| RedisStore.IncrementCacheCounts | apps/go-server/utils/redis_utils.go:68-76 | one is added at namespace:key and returned, and the time to live is refreshed on every call; nothing else changes; a failure returns 0 |
| RedisStore.IncrementCache | apps/go-server/utils/redis_utils.go:68-76 | the store after the call is the one-step function of the store before |
| RedisStore.GetCache | apps/go-server/utils/redis_utils.go:32-43 | the cached number under prefix:id, or none |
| RedisStore.SetCache | apps/go-server/utils/redis_utils.go:16-29 | the number is stored under prefix:id |
| PublicKeyMiddleware.LoadMonthlyEvents | apps/go-server/middleware/public_key.go:109-129 | the cached count, or the count of the project's events since the start of the month, cached for a minute |
| PublicKeyMiddleware.VerifyPublicKey | apps/go-server/middleware/public_key.go:23-147 | the verdict and the store are those of the decision function over the store before |
| PublicKeyMiddleware.InvalidAttempts | apps/go-server/middleware/public_key.go:34-89 | a malformed key counts an attempt and is 429 above 10, else 401; an unknown key counts and is 401; a lookup error is 500 |
| PublicKeyMiddleware.PlanRateLimit | apps/go-server/middleware/public_key.go:91-107 | "enterprise" is never limited; other plans get 429 above 2000 ("pro") or 200 |
| PublicKeyMiddleware.PlanQuota | apps/go-server/middleware/public_key.go:109-142 | refused exactly when the plan has a quota (1,000,000 "pro", 15,000 otherwise) and the total is above it |
| PublicKeyMiddleware.ProceedOnlyWhenAllPass | apps/go-server/middleware/public_key.go:144-146 | the context is attached only when every check passed, with the monthly total |
| PublicKeyMiddleware.FailsOpen | apps/go-server/middleware/public_key.go:34-107 | with Redis down, no counter ever refuses a request |
| PrivateKeyMiddleware.VerifyPrivateKey | apps/go-server/middleware/private_key.go:14-146 | the verdict and the store are those of the decision function over the store before |
| PrivateKeyMiddleware.PrivateKeyOrder | apps/go-server/middleware/private_key.go:17-75 | a bad format is 401 with no counter; the global limit (429 above 200) comes before the lookup; an unknown key is 401 and a lookup error 500 |
| PrivateKeyMiddleware.ProjectKeyIsNotGlobal | apps/go-server/middleware/private_key.go:33-79 | the project counter never shares a key with a global one |
| PrivateKeyMiddleware.MonthlyEventsKeyIsNotRateKey | apps/go-server/middleware/private_key.go:100-121 | reading the monthly total writes only the "project_events" entry |
| PrivateKeyMiddleware.PrivatePlanLimits | apps/go-server/middleware/private_key.go:77-140 | 429 exactly above 2000, 20,000 or 100,000 by plan; then quota 150,000 "pro", 15,000 otherwise, none for "enterprise" |
| PrivateKeyMiddleware.PrivateFailsOpen | apps/go-server/middleware/private_key.go:25-98 | with Redis down, no rate limit refuses and the store is unchanged |
| ProjectHelpers.GetUserOrNull | apps/hono-api/src/helpers/projects.ts:17-22 | the context's user, or null when the context or the user is missing |
| ProjectHelpers.FirstMembership | apps/hono-api/src/helpers/projects.ts:39-48 | the row found matches both the project and the user |
| ProjectHelpers.MembershipIsFirstMatch | apps/hono-api/src/helpers/projects.ts:34-49 | no membership for a missing or empty user; otherwise the first matching row, and none exactly when no row matches |
| ProjectHelpers.AdminRules | apps/hono-api/src/helpers/projects.ts:51-66 | an admin's first row has role admin; the owner always passes `isOwnerOrAdmin`, anyone else exactly when admin |
| ProjectCreation.AttemptInjective | apps/hono-api/src/handlers/projects.ts:30-42 | different attempts are different slugs |
| ProjectCreation.FirstFreeSlugUnique | apps/hono-api/src/handlers/projects.ts:30-42 | the first free slug is determined by the slugs in use |
| ProjectCreation.UniqueSlug | apps/hono-api/src/handlers/projects.ts:30-42 | the loop returns the first of base, base-1, base-2, ... that no project uses |
| ProjectCreation.FreePlanLimits | apps/hono-api/src/handlers/projects.ts:44-98 | a missing user is 404; a free user never gets a team project, and gets a personal one exactly below 5; other plans always get one |
| ProjectCreation.NewRowsSpec | apps/hono-api/src/handlers/projects.ts:61-114 | the project has the slug, name and description given; personal projects are owned by the creator; team projects have no owner and an admin creator; either way the creator passes `isOwnerOrAdmin` |
| ProjectCreation.CreateProject | apps/hono-api/src/handlers/projects.ts:22-117 | 400 for a bad body, the gate's error otherwise, or the new rows with the body's name and description, the first free slug and a fresh key pair |
| ProjectList.OwnedSpec | apps/hono-api/src/handlers/projects.ts:129-132 | exactly the caller's projects, as "owner" |
| ProjectList.JoinedSpec | apps/hono-api/src/handlers/projects.ts:134-138 | exactly the projects a membership row names, with its role |
| ProjectList.MemberOfSpec | apps/hono-api/src/handlers/projects.ts:134-138 | exactly the projects of the caller's membership rows, with their roles |
| ProjectList.CombinedSpec | apps/hono-api/src/handlers/projects.ts:141-144 | the combined list holds the owned and the joined projects and nothing else |
| ProjectList.FilterByNameSpec | apps/hono-api/src/handlers/projects.ts:147-151 | an entry survives exactly when its lower-cased name includes the search |
| ProjectList.FilterByTypeSpec | apps/hono-api/src/handlers/projects.ts:154-158 | an entry survives exactly when its team matches the type |
| ProjectList.FilteredSpec | apps/hono-api/src/handlers/projects.ts:125-158 | both filters in order; an absent or empty search keeps every name |
| ProjectList.InsertNewestOrdered | apps/hono-api/src/handlers/projects.ts:161-163 | inserting keeps a newest-first list newest first |
| ProjectList.InsertNewestElements | apps/hono-api/src/handlers/projects.ts:161-163 | inserting adds exactly the one element |
| ProjectList.InsertNewestStable | apps/hono-api/src/handlers/projects.ts:161-163 | the new entry goes before every entry of the same time |
| ProjectList.SortNewestSpec | apps/hono-api/src/handlers/projects.ts:161-163 | the sort is newest first, stable, and a permutation |
| ProjectList.CeilDivSpec | apps/hono-api/src/handlers/projects.ts:174 | `Math.ceil(total / limit)` is the least number of pages that hold the total |
| ProjectList.ParamsShape | apps/hono-api/src/handlers/projects.ts:123 | the pagination the handler reads is clamped |
| ProjectList.ListProjects | apps/hono-api/src/handlers/projects.ts:120-177 | the handler's answer is the filtered, sorted, sliced listing |
| ProjectList.AnswerSpec | apps/hono-api/src/handlers/projects.ts:165-176 | a NaN page or limit is empty; otherwise the page is the run from the offset of at most `limit` entries; `total` and `totalPages` count the list |
| ProjectList.ListProjectsPage | apps/hono-api/src/handlers/projects.ts:165 | the page is the run of the sorted list from the offset, at most `limit` long and shorter only at the end |
| ProjectList.ListProjectsCount | apps/hono-api/src/handlers/projects.ts:167-176 | `total` counts the filtered list; `totalPages` is the least number of pages of `limit` entries that hold it |
| ProjectList.ListProjectsEntries | apps/hono-api/src/handlers/projects.ts:120-177 | every listed entry is owned or joined, passes both filters, and the page is newest first |
| ProjectList.FirstPage | apps/hono-api/src/handlers/projects.ts:165 | offset 0 gives the first `limit` entries, or all of them |
| ProjectList.DefaultPage | apps/hono-api/src/handlers/projects.ts:123-165 | without parameters the answer is the first 20 entries, page 1, limit 20 |
| ProjectAccess.LibHelpersAgree | apps/hono-api/src/lib/project-helpers.ts:23-45 | the library and helper-module lookups agree for every non-empty user id |
| ProjectAccess.RotateKeySpec | apps/hono-api/src/handlers/projects.ts:181-197 | exactly the owner or an admin rotates; the project then holds one unrevoked new pair and other projects keep their rows |
| ProjectAccess.DeleteProjectSpec | apps/hono-api/src/handlers/projects.ts:200-216 | deletion succeeds exactly when nobody else owns the project and, for a team project, the caller is admin; only that project goes |
| ProjectAccess.OverviewSpec | apps/hono-api/src/handlers/projects.ts:219-251 | the owner reads as admin; a team project needs a role, else 403; a teamless one is read as viewer; keys are shown exactly to admin and editor |
| ProjectAccess.ParseRole | apps/hono-api/src/handlers/projects.ts:258-259 | a role is accepted exactly when it is admin, editor or viewer |
| ProjectAccess.InviteAndRoleSpec | apps/hono-api/src/handlers/projects.ts:254-296 | a bad role is 400 and a non-admin 403; otherwise the invite succeeds and a role change rewrites exactly the target's rows in the project |
| ProjectAccess.UpdateVersusDelete | apps/hono-api/src/handlers/projects.ts:299-320 | the owner may always update and an admin only a team project; a truthy name or description replaces the stored one, nothing else of the row or of other projects changes; an owner who is not admin of their team project may update but not delete |
| ProjectAccess.RowsOfSpec | apps/hono-api/src/handlers/projects.ts:323-342 | the entries are exactly the project's membership rows |
| ProjectAccess.ListMembers | apps/hono-api/src/handlers/projects.ts:323-351 | 500 without the project, 403 unless owner or member; otherwise the project's rows, then the owner when there is one |
| ProjectAccess.ReaderIsListed | apps/hono-api/src/handlers/projects.ts:323-351 | whoever may read the list is on it |
| ProjectAccess.LeaveSpec | apps/hono-api/src/handlers/projects.ts:354-375 | a non-member is 400 and an admin 403; anyone else leaves with no membership left and every other row kept |
| Teams.DashedCharacters | apps/hono-api/src/handlers/teams.ts:47 | replacing white-space runs leaves dashes and the non-white characters |
| Teams.DashingWithoutWhitespace | apps/hono-api/src/handlers/teams.ts:47 | a text without white space is unchanged |
| Teams.TeamSlugSpec | apps/hono-api/src/handlers/teams.ts:47 | a slug has no white space and no upper case, so slugging it again is the identity; other characters are the name's, lower-cased |
| Teams.TeamsOfMember | apps/hono-api/src/handlers/teams.ts:21-29 | never more entries than memberships |
| Teams.TeamsOfMemberSpec | apps/hono-api/src/handlers/teams.ts:13-31 | 401 without a user; otherwise an entry exactly for each membership of an existing team, with that role |
| Teams.CreateTeamSpec | apps/hono-api/src/handlers/teams.ts:34-66 | 401 without a user, 403 for free; otherwise a team with the slug, owned by the creator, who becomes its "owner" member |
| WorkspaceStore.Store.constructor | apps/dashboard/store/use-workspace.tsx:21-34 | the empty list, no active workspace and the `isPersonalWorkspace` getter |
| WorkspaceStore.Store.SetWorkspaces | apps/dashboard/store/use-workspace.tsx:24-29 | the list is replaced, the first entry becomes active only when none is, and `isPersonalWorkspace` is copied as the value read before |
| WorkspaceStore.Store.SetActiveWorkspace | apps/dashboard/store/use-workspace.tsx:30 | the workspace becomes active, the list is unchanged, and `isPersonalWorkspace` is copied as the value read before |
| WorkspaceStore.Store.IsPersonalWorkspace | apps/dashboard/store/use-workspace.tsx:31-33 | false in every state the store reaches, because `set` freezes the getter's first reading |
| WorkspaceStore.PersonalFlagFalsePreserved | apps/dashboard/store/use-workspace.tsx:24-33 | the initial state and both setters keep `isPersonalWorkspace` false |
| WorkspaceStore.RunKeepsPersonalFlagFalse | apps/dashboard/store/use-workspace.tsx:24-33 | any run of setter calls keeps `isPersonalWorkspace` false |
| WorkspaceStore.PersonalFlagAlwaysFalse | apps/dashboard/store/use-workspace.tsx:31-33 | from the initial store, `isPersonalWorkspace` reads false after any calls |
| WorkspaceStore.PersonalFlagIgnoresActiveWorkspace | apps/dashboard/store/use-workspace.tsx:30-33 | making a personal workspace active leaves the flag false, unlike the intended reading |
| WorkspaceStore.SetWorkspacesSpec | apps/dashboard/store/use-workspace.tsx:24-29 | a set active workspace stays, whatever lists follow; the flag keeps its value |
| WorkspaceStore.StaleActiveWorkspace | apps/dashboard/store/use-workspace.tsx:24-29 | after [a] then [b], a is still active |
| WorkspaceStore.SetActiveWorkspaceSpec | apps/dashboard/store/use-workspace.tsx:30-33 | any workspace can be made active, even one outside the list; the intended reading is personal exactly when it says so, while the stored flag keeps its value |
| FilterDropdown.HandleSelectSpec | packages/ui/src/components/ui/filter.tsx:63-73 | in multiple mode the option toggles and others keep their occurrences; toggling twice restores the selection; single mode selects exactly the option |
| FilterDropdown.StringElementsSpec | packages/ui/src/components/ui/filter.tsx:37 | exactly the string elements of the array are kept |
| FilterDropdown.StringsRoundTrip | packages/ui/src/components/ui/filter.tsx:37 | an array of strings gives back those strings in order |
| FilterDropdown.LoadedSelectionSpec | packages/ui/src/components/ui/filter.tsx:30-50 | a saved array gives its strings; a missing, empty, unparsable or non-array value gives the first option, or keeps the selection when there are no options |
| FilterDropdown.PersistRoundTrip | packages/ui/src/components/ui/filter.tsx:30-61 | a saved selection loads back as the same selection |
| FilterDropdown.Dropdown.constructor | packages/ui/src/components/ui/filter.tsx:27 | the empty selection over the given storage |
| FilterDropdown.Dropdown.Load | packages/ui/src/components/ui/filter.tsx:30-50 | the selection becomes the restored one and the storage is unchanged |
| FilterDropdown.Dropdown.Save | packages/ui/src/components/ui/filter.tsx:53-61 | a non-empty selection is stored under its key and reported; an empty one changes nothing |
| FilterDropdown.Dropdown.Select | packages/ui/src/components/ui/filter.tsx:63-73 | the selection becomes the toggled one |
| Strings.ToLower | apps/hono-api/src/handlers/projects.ts:125 | the text keeps its length and each character is lower-cased on its own |
| Strings.Trim | apps/dashboard/lib/get-trend.ts:10 | the result neither starts nor ends with white space |
| Strings.SplitPiecesHaveNoSeparator | apps/go-server/utils/user.go:35 | no piece of a split holds the separator |
| Strings.SplitCount | apps/go-server/utils/user.go:18 | a split has more than one piece exactly when the string holds the separator |
| JsNumbers.ToFixed1 | apps/hono-api/src/handlers/analytics.ts:345 | one digit after a point, a leading "-" exactly for a negative number, and no "%" |
| Hex.HexEncode | apps/go-server/utils/user.go:58 | two hexadecimal digits per byte |
| ProjectList.PageOf | apps/hono-api/src/handlers/projects.ts:165 | `slice(offset, offset + limit)` holds at most `limit` entries, taken in order from the offset, fewer only at the end |
| ProjectList.NewestFirstSlice | apps/hono-api/src/handlers/projects.ts:165 | a slice holds only entries of the list, newest first when the list is |
| Strings.JoinSplit | apps/go-server/utils/user.go:35-42 | joining a split with its separator gives back the string |
| Strings.SplitJoin | apps/go-server/utils/user.go:35-42 | splitting a join of separator-free pieces gives back the pieces |
| Strings.ToLowerIdempotent | apps/hono-api/src/handlers/analytics.ts:296-297 | lower-casing twice is lower-casing once |
| Strings.ReplaceFirstOccurrence | apps/dashboard/lib/get-trend.ts:10 | `replace` with a string pattern replaces only the first occurrence |

## Left out

Environment:
- Hashes, random bytes, new ids, the clock, the GeoIP database and the slug helper are parameters. SHA-256, `crypto.randomBytes`, nanoid, MaxMind and `slugifyProjectName` are not part of this model.
- JSON text is abstract. `parse` and `stringify` are parameters, and the dashboard's JSON is a small datatype.
- The Drizzle and Postgres layer becomes sequences of rows in table order. A query's row order is table order, and a JS `NaN` is None.
- Time zones are not modelled. The TypeScript code uses local time and the Go code uses UTC; both are read on one calendar.
- The `Intl` labels of the frequency series and the series' exact JSON layout are not modelled.
- Change.PercentChange, Change.WeeklyPercentChange, JsNumbers.ToFixed1: JavaScript numbers are modelled as exact reals, so double rounding, negative zero, Infinity and `parseFloat` underflow are not reproduced. Near a tie of `toFixed(1)` the text can differ: for 2003 visits against 2000, the double `(3 / 2000) * 100` is just below 0.15 and the program sends "+0.1%", while the model computes exactly 0.15 and gives "+0.2%". `AnalyticsHandler.FetchAnalytics` and `Weekly` inherit this.
- Calendar.MakeDay: ECMAScript's `new Date(y, m, …)` maps a year from 0 to 99 to 1900-1999. The model takes every year as written, so `Calendar.YearsAgoBounds` and the `TimeRange` lemmas state the JavaScript behaviour only for years above 99, which every clock reading meets.
- Calendar.MakeDate: ECMAScript's TimeClip makes an instant more than 8.64e15 ms from the epoch an Invalid Date whose getters give NaN. Instants are unbounded integers here, so the `Calendar` and `TimeRange` lemmas hold the JavaScript behaviour only inside the Date range, which every clock reading is in.
- RedisStore: time passing and key expiry are not modelled. A TTL is recorded but a key never expires between calls, so `RateLimiter.FreshWindow` and the middleware lemmas describe one window's life. The middlewares count with `IncrementCache`, which refreshes the 1-minute TTL on every request. Their counters therefore reset only after a full idle minute: a free project that gets one event every 50 seconds is refused from its 201st request on, and stays refused while that traffic continues.
- zustand's `setState` is not part of this model. The store's update follows its merge, `Object.assign({}, state, partial)`.

Analytics engine:
- Aggregation.GroupCount: SQL leaves the order of equal counts open; the model keeps keys of equal count in order of first appearance.
- Aggregation.EventSummary: it is computed by `getCommonAggregations` but not returned, so nothing is proved about it.
- AnalyticsHandler.FetchAnalytics: the text of `formatChange` is modelled, but the frequency series is represented only by its points.
- GoAnalyticsHandler.GetAnalytics: `sql.ErrNoRows` cannot occur with COUNT(*). It is modelled as the error the code ignores, and the summary then stays zero.
- The `projects` table has no `url` column, so the `url` that `fetchAnalytics` returns is always undefined (`AnalyticsData.url` is None).

Ingestion:
- Private addresses are matched only by the prefixes the code lists. Only "172.16." of 172.16.0.0/12 counts (`Ingestion.PrivateRangeCut`).
- `LogAnalyticsEvent` reads the connection address `c.IP()`, not `GetRealClientIP`. The model does the same.
- An empty address or user agent hashes like the literal "unknown".
- `post_analyics.go` has its own copy of `GenerateAnonVisitorID`, identical to `user.go`'s. The model defines it once.
- The event's UTM medium, campaign, term and content, its event data, the duration and the browser and OS versions are not part of `Events.Event`. No query of the core reads them.
- The panic of `uuid.MustParse` on a malformed project id in context is not modelled. The key middlewares only attach ids read from the database.
- The session cookie's attributes (expiry, HttpOnly, SameSite) are not modelled. Only its value is.

Keys, middlewares and pagination:
- Both middlewares read the whole X-Forwarded-For header as the client address, not its first entry. The model does the same.
- The middlewares do not call `GetQuota`. Their quota tables differ from it and from each other (`Quota.QuotaTablesDiffer`).
- `parseInt` is modelled for decimal digits with an optional sign and leading white space. Other radix prefixes do not arise with radix 10.
- Redis errors are modelled as a failing call. The count reads 0, so the limits fail open.
- `toLowerCase` is modelled on ASCII letters only.
- The workspace's `logo` (a React component) is not modelled.

Projects:
- The routes use `lib/project-helpers.ts`, not `helpers/projects.ts`. `ProjectAccess.LibHelpersAgree` relates the two.
- `getUserOrThrow` returns a 401 response instead of throwing. Every route then reads `.uuid` of that response, so unauthenticated calls to the project routes are not modelled: the caller is a signed-in user id.
- `getProjectOrThrow` refers to a `c` it does not have, so a missing project ends in the global error handler's 500. The model reports it as that failure.
- ProjectCreation.CreateProject, Teams.CreateTeam: the inserts are not modelled as able to fail, and three failures of the code as written are left out:
  - `nanoid()` gives a 21-character id, but `projects.uuid` and `teams.uuid` are Postgres `uuid` columns. On the schema as written, both inserts are refused and both creation routes end in a 500.
  - `teams.slug` is unique across all teams, so a second team whose name gives the same slug fails at the insert.
  - A team body without a string `name` throws at `name.toLowerCase()`, which is a 500.
- ProjectAccess.DeleteProject: the schema's `onDelete: "cascade"` also removes the project's membership and API-key rows. The model returns only the projects table, so it does not show those rows going.
- Drizzle's error on a PATCH with nothing to set is not modelled.
- `Array.prototype.sort` is modelled by its result: the stable sort by descending creation time. A missing `createdAt` sorts as time 0.
- Invite checks the role and the caller's rights but stores and sends nothing. The model does the same.
- The role change does not check that the target is a member. The model does the same.
- An ownerless project of no team can be deleted by any caller. A team project's owner needs the admin role to delete it but not to rename it (`ProjectAccess.UpdateVersusDelete`).
- The raw-event and report listing routes at the end of `projects.ts` (lines 378-498) are not part of this model. They use `analyticsEvents` and `reports` tables that the file never imports.
