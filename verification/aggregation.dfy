/**
  The read-side aggregations of the analytics handler (`getCommonAggregations` and the
  frequency query): row count, distinct visitors, per-dimension GROUP BY / COUNT(*) with the
  NULL group dropped, ordered by count and cut to a limit, and the time-bucketed series.
  Every query reads the rows `Where(store, conditions)` returns.
*/
module Aggregation {
  import opened Wrappers
  import opened Calendar
  import opened Events
  import opened TimeRange

  predicate Distinct<T(==)>(s: seq<T>) {
    forall i, j :: 0 <= i < j < |s| ==> s[i] != s[j]
  }

  // Grouping

  /** The rows whose grouping key is k. */
  function Having<K(==)>(rows: seq<Event>, key: Event -> Option<K>, k: K): (r: seq<Event>)
    ensures |r| <= |rows|
  {
    if |rows| == 0 then []
    else
      var init := Having(rows[..|rows| - 1], key, k);
      if key(rows[|rows| - 1]) == Some(k) then init + [rows[|rows| - 1]] else init
  }

  /** COUNT(*) of the group with key k. */
  function Occurrences<K(==)>(rows: seq<Event>, key: Event -> Option<K>, k: K): nat {
    |Having(rows, key, k)|
  }

  /** The distinct non-NULL keys of the rows, in order of first appearance. */
  function KeysOf<K(==)>(rows: seq<Event>, key: Event -> Option<K>): seq<K> {
    if |rows| == 0 then []
    else
      var ks := KeysOf(rows[..|rows| - 1], key);
      var k := key(rows[|rows| - 1]);
      if k.Some? && k.value !in ks then ks + [k.value] else ks
  }

  /** The group keys are distinct, and a key is a group key exactly when some row carries it. */
  lemma {:induction false} KeysOfSpec<K>(rows: seq<Event>, key: Event -> Option<K>)
    ensures Distinct(KeysOf(rows, key))
    ensures forall k :: k in KeysOf(rows, key) <==> Occurrences(rows, key, k) > 0
    decreases |rows|
  {
    if |rows| > 0 {
      KeysOfSpec(rows[..|rows| - 1], key);
    }
  }

  // Ordering

  /** The position of the first key of highest rank. */
  function MaxIndex<K>(ks: seq<K>, rank: K -> int): (i: nat)
    requires |ks| > 0
    ensures i < |ks|
    ensures forall j :: 0 <= j < |ks| ==> rank(ks[j]) <= rank(ks[i])
  {
    if |ks| == 1 then 0
    else
      var m := MaxIndex(ks[..|ks| - 1], rank);
      if rank(ks[|ks| - 1]) > rank(ks[m]) then |ks| - 1 else m
  }

  /** The keys by rank, highest first; among equal ranks the earlier key first. */
  function RankOrder<K>(ks: seq<K>, rank: K -> int): (r: seq<K>)
    ensures |r| == |ks|
    decreases |ks|
  {
    if |ks| == 0 then []
    else
      var i := MaxIndex(ks, rank);
      [ks[i]] + RankOrder(ks[..i] + ks[i + 1..], rank)
  }

  /** Ordering by rank permutes the keys. */
  lemma {:induction false} RankOrderPermutes<K>(ks: seq<K>, rank: K -> int)
    ensures multiset(RankOrder(ks, rank)) == multiset(ks)
    decreases |ks|
  {
    if |ks| > 0 {
      var i := MaxIndex(ks, rank);
      var rest := ks[..i] + ks[i + 1..];
      RankOrderPermutes(rest, rank);
      assert RankOrder(ks, rank) == [ks[i]] + RankOrder(rest, rank);
      assert ks == ks[..i] + [ks[i]] + ks[i + 1..];
    }
  }

  /** After ordering by rank, ranks never increase along the sequence. */
  lemma {:induction false} RankOrderSorted<K>(ks: seq<K>, rank: K -> int)
    ensures forall i, j :: 0 <= i < j < |ks| ==> rank(RankOrder(ks, rank)[i]) >= rank(RankOrder(ks, rank)[j])
    decreases |ks|
  {
    if |ks| > 0 {
      var i := MaxIndex(ks, rank);
      var rest := ks[..i] + ks[i + 1..];
      var tail := RankOrder(rest, rank);
      var r := RankOrder(ks, rank);
      RankOrderSorted(rest, rank);
      RankOrderPermutes(rest, rank);
      assert r == [ks[i]] + tail;
      forall j | 0 <= j < |tail|
        ensures rank(tail[j]) <= rank(ks[i])
      {
        assert tail[j] in multiset(rest);
        var p :| 0 <= p < |rest| && rest[p] == tail[j];
        assert rest[p] == ks[if p < i then p else p + 1];
      }
      forall a, b | 0 <= a < b < |ks|
        ensures rank(r[a]) >= rank(r[b])
      {
        assert r[b] == tail[b - 1];
        if a > 0 {
          assert r[a] == tail[a - 1];
        }
      }
    }
  }

  /** Ordering distinct keys by rank keeps them distinct. */
  lemma {:induction false} RankOrderDistinct<K>(ks: seq<K>, rank: K -> int)
    requires Distinct(ks)
    ensures Distinct(RankOrder(ks, rank))
    decreases |ks|
  {
    if |ks| > 0 {
      var i := MaxIndex(ks, rank);
      var rest := ks[..i] + ks[i + 1..];
      var tail := RankOrder(rest, rank);
      var r := RankOrder(ks, rank);
      RemoveAtDistinct(ks, i);
      RankOrderDistinct(rest, rank);
      RankOrderPermutes(rest, rank);
      assert r == [ks[i]] + tail;
      forall a, b | 0 <= a < b < |ks|
        ensures r[a] != r[b]
      {
        assert r[b] == tail[b - 1];
        assert tail[b - 1] in multiset(rest);
        if a > 0 {
          assert r[a] == tail[a - 1];
        }
      }
    }
  }

  /** Ordering by rank permutes the keys, keeps distinct keys distinct, and leaves ranks non-increasing. */
  lemma RankOrderSpec<K>(ks: seq<K>, rank: K -> int)
    ensures multiset(RankOrder(ks, rank)) == multiset(ks)
    ensures forall i, j :: 0 <= i < j < |ks| ==> rank(RankOrder(ks, rank)[i]) >= rank(RankOrder(ks, rank)[j])
    ensures Distinct(ks) ==> Distinct(RankOrder(ks, rank))
  {
    RankOrderPermutes(ks, rank);
    RankOrderSorted(ks, rank);
    if Distinct(ks) {
      RankOrderDistinct(ks, rank);
    }
  }

  /** Removing one element of a distinct sequence leaves a distinct sequence without it. */
  lemma RemoveAtDistinct<K>(ks: seq<K>, i: nat)
    requires Distinct(ks) && i < |ks|
    ensures Distinct(ks[..i] + ks[i + 1..])
    ensures ks[i] !in ks[..i] + ks[i + 1..]
  {
    var rest := ks[..i] + ks[i + 1..];
    forall a, b | 0 <= a < b < |rest|
      ensures rest[a] != rest[b]
    {
      var pa := if a < i then a else a + 1;
      var pb := if b < i then b else b + 1;
      assert rest[a] == ks[pa] && rest[b] == ks[pb];
    }
    forall p | 0 <= p < |rest|
      ensures rest[p] != ks[i]
    {
      assert rest[p] == ks[if p < i then p else p + 1];
    }
  }

  // Group counts

  /** A group of the GROUP BY result: its key and its COUNT(*). */
  datatype Group<K> = Group(key: K, count: nat)

  function Tally<K(==)>(rows: seq<Event>, key: Event -> Option<K>, ks: seq<K>): (gs: seq<Group<K>>)
    ensures |gs| == |ks|
    ensures forall i :: 0 <= i < |ks| ==> gs[i] == Group(ks[i], Occurrences(rows, key, ks[i]))
  {
    seq(|ks|, i requires 0 <= i < |ks| => Group(ks[i], Occurrences(rows, key, ks[i])))
  }

  /** `.limit(n)`: the first n elements, or all of them when there is no limit. */
  function TakeAtMost<T>(s: seq<T>, limit: Option<nat>): (r: seq<T>)
    ensures limit.Some? ==> |r| <= limit.value
    ensures |r| <= |s| && r == s[..|r|]
    ensures limit.None? || |s| <= limit.value ==> r == s
  {
    if limit.Some? && |s| > limit.value then s[..limit.value] else s
  }

  function ByCount<K(==)>(rows: seq<Event>, key: Event -> Option<K>): K -> int {
    k => Occurrences(rows, key, k)
  }

  /**
    `SELECT count(*), col ... WHERE <conditions> AND col IS NOT NULL GROUP BY col
    ORDER BY count(*) DESC LIMIT n`. Groups of equal count keep the order in which their keys
    first appear (SQL leaves that order open).
  */
  function GroupCount<K(==)>(rows: seq<Event>, key: Event -> Option<K>, limit: Option<nat>): seq<Group<K>> {
    TakeAtMost(Tally(rows, key, RankOrder(KeysOf(rows, key), ByCount(rows, key))), limit)
  }

  /**
    A group count has at most `limit` groups, each carrying a non-NULL key, its true count
    (at least 1), keys all different, counts non-increasing; and a key left out of the result
    was cut by the limit and counts no more than any group kept.
  */
  lemma GroupCountSpec<K(!new)>(rows: seq<Event>, key: Event -> Option<K>, limit: Option<nat>)
    ensures var r := GroupCount(rows, key, limit);
      && (limit.Some? ==> |r| <= limit.value)
      && (forall i :: 0 <= i < |r| ==> r[i].count == Occurrences(rows, key, r[i].key) > 0)
      && (forall i, j :: 0 <= i < j < |r| ==> r[i].key != r[j].key && r[i].count >= r[j].count)
      && (forall k :: Occurrences(rows, key, k) > 0 && (forall i :: 0 <= i < |r| ==> r[i].key != k) ==>
            && limit.Some? && |r| == limit.value
            && forall i :: 0 <= i < |r| ==> r[i].count >= Occurrences(rows, key, k))
  {
    var o := RankOrder(KeysOf(rows, key), ByCount(rows, key));
    RankedKeys(rows, key);
    GroupsOfRankedKeys(rows, key, o, limit);
  }

  /** The keys in count order: each non-NULL key once, counts non-increasing. */
  lemma RankedKeys<K(!new)>(rows: seq<Event>, key: Event -> Option<K>)
    ensures Ranked(rows, key, RankOrder(KeysOf(rows, key), ByCount(rows, key)))
  {
    var ks := KeysOf(rows, key);
    var rank := ByCount(rows, key);
    var o := RankOrder(ks, rank);
    KeysOfSpec(rows, key);
    RankOrderSpec(ks, rank);
    forall k
      ensures k in o <==> k in ks
    {
      assert k in o <==> k in multiset(o);
      assert k in ks <==> k in multiset(ks);
    }
    forall i, j | 0 <= i < j < |o|
      ensures Occurrences(rows, key, o[i]) >= Occurrences(rows, key, o[j])
    {
      assert rank(o[i]) >= rank(o[j]);
    }
  }

  /** o lists each non-NULL key of the rows once, in non-increasing order of count. */
  ghost predicate Ranked<K(!new)>(rows: seq<Event>, key: Event -> Option<K>, o: seq<K>) {
    && Distinct(o)
    && (forall k :: k in o <==> Occurrences(rows, key, k) > 0)
    && (forall i, j :: 0 <= i < j < |o| ==> Occurrences(rows, key, o[i]) >= Occurrences(rows, key, o[j]))
  }

  /** The tally of ranked keys, cut to the limit, has the properties of a group count. */
  lemma GroupsOfRankedKeys<K(!new)>(rows: seq<Event>, key: Event -> Option<K>, o: seq<K>, limit: Option<nat>)
    requires Ranked(rows, key, o)
    ensures var r := TakeAtMost(Tally(rows, key, o), limit);
      && (forall i :: 0 <= i < |r| ==> r[i].count == Occurrences(rows, key, r[i].key) > 0)
      && (forall i, j :: 0 <= i < j < |r| ==> r[i].key != r[j].key && r[i].count >= r[j].count)
      && (forall k :: Occurrences(rows, key, k) > 0 && (forall i :: 0 <= i < |r| ==> r[i].key != k) ==>
            && limit.Some? && |r| == limit.value
            && forall i :: 0 <= i < |r| ==> r[i].count >= Occurrences(rows, key, k))
  {
    GroupsCounted(rows, key, o, limit);
    GroupsOrdered(rows, key, o, limit);
    GroupsComplete(rows, key, o, limit);
  }

  lemma GroupsCounted<K(!new)>(rows: seq<Event>, key: Event -> Option<K>, o: seq<K>, limit: Option<nat>)
    requires Ranked(rows, key, o)
    ensures var r := TakeAtMost(Tally(rows, key, o), limit);
      forall i :: 0 <= i < |r| ==> r[i].count == Occurrences(rows, key, r[i].key) > 0
  {
    var gs := Tally(rows, key, o);
    var r := TakeAtMost(gs, limit);
    forall i | 0 <= i < |r|
      ensures r[i].count == Occurrences(rows, key, r[i].key) > 0
    {
      assert r[i] == gs[i];
      assert o[i] in o;
    }
  }

  lemma GroupsOrdered<K(!new)>(rows: seq<Event>, key: Event -> Option<K>, o: seq<K>, limit: Option<nat>)
    requires Ranked(rows, key, o)
    ensures var r := TakeAtMost(Tally(rows, key, o), limit);
      forall i, j :: 0 <= i < j < |r| ==> r[i].key != r[j].key && r[i].count >= r[j].count
  {
    var gs := Tally(rows, key, o);
    var r := TakeAtMost(gs, limit);
    forall i, j | 0 <= i < j < |r|
      ensures r[i].key != r[j].key && r[i].count >= r[j].count
    {
      assert r[i] == gs[i] && r[j] == gs[j];
    }
  }

  lemma GroupsComplete<K(!new)>(rows: seq<Event>, key: Event -> Option<K>, o: seq<K>, limit: Option<nat>)
    requires Ranked(rows, key, o)
    ensures var r := TakeAtMost(Tally(rows, key, o), limit);
      forall k :: Occurrences(rows, key, k) > 0 && (forall i :: 0 <= i < |r| ==> r[i].key != k) ==>
        && limit.Some? && |r| == limit.value
        && forall i :: 0 <= i < |r| ==> r[i].count >= Occurrences(rows, key, k)
  {
    var gs := Tally(rows, key, o);
    var r := TakeAtMost(gs, limit);
    forall k | Occurrences(rows, key, k) > 0 && (forall i :: 0 <= i < |r| ==> r[i].key != k)
      ensures limit.Some? && |r| == limit.value
      ensures forall i :: 0 <= i < |r| ==> r[i].count >= Occurrences(rows, key, k)
    {
      assert k in o;
      var p :| 0 <= p < |o| && o[p] == k;
      assert |r| <= p;
      forall i | 0 <= i < |r|
        ensures r[i].count >= Occurrences(rows, key, k)
      {
        assert r[i] == gs[i];
      }
    }
  }

  // Visitors

  /** The distinct non-NULL visitor ids of the rows: what COUNT(DISTINCT visitor_id) counts. */
  function Visitors(rows: seq<Event>): set<string> {
    if |rows| == 0 then {}
    else
      var last := rows[|rows| - 1];
      Visitors(rows[..|rows| - 1]) + (if last.visitorId.Some? then {last.visitorId.value} else {})
  }

  /** A visitor is counted exactly when some row carries its id, so there are no more visitors than rows. */
  lemma {:induction false} VisitorsSpec(rows: seq<Event>)
    ensures forall v :: v in Visitors(rows) <==> exists i :: 0 <= i < |rows| && rows[i].visitorId == Some(v)
    ensures |Visitors(rows)| <= |rows|
    decreases |rows|
  {
    if |rows| > 0 {
      var init := rows[..|rows| - 1];
      VisitorsSpec(init);
      forall v
        ensures v in Visitors(rows) <==> exists i :: 0 <= i < |rows| && rows[i].visitorId == Some(v)
      {
        if v in Visitors(rows) && v !in Visitors(init) {
          assert rows[|rows| - 1].visitorId == Some(v);
        }
        if exists i :: 0 <= i < |rows| && rows[i].visitorId == Some(v) {
          var i :| 0 <= i < |rows| && rows[i].visitorId == Some(v);
          if i < |rows| - 1 {
            assert init[i] == rows[i];
          }
        }
      }
    }
  }

  // The common aggregations

  /** The dimensions the analytics handler breaks the rows down by. */
  datatype Dimension = Os | Device | Browser | Path | Referrer | Hostname | UtmSource | Country | City

  /** The column a dimension groups by (`pathname` is NOT NULL, the others are nullable). */
  function Column(d: Dimension): Event -> Option<string> {
    match d
    case Os => (e: Event) => e.osName
    case Device => (e: Event) => e.deviceType
    case Browser => (e: Event) => e.browserName
    case Path => (e: Event) => Some(e.pathname)
    case Referrer => (e: Event) => e.referrer
    case Hostname => (e: Event) => e.hostname
    case UtmSource => (e: Event) => e.utmSource
    case Country => (e: Event) => e.country
    case City => (e: Event) => e.city
  }

  /** `.limit(n)` of each breakdown: 15 paths and referrers, 10 hostnames, countries and cities, 5 UTM sources. */
  function Limit(d: Dimension): Option<nat> {
    match d
    case Path | Referrer => Some(15)
    case Hostname | Country | City => Some(10)
    case UtmSource => Some(5)
    case Os | Device | Browser => None
  }

  /** The groups of one dimension, never more than its limit. */
  function Breakdown(rows: seq<Event>, d: Dimension): (r: seq<Group<string>>)
    ensures Limit(d).Some? ==> |r| <= Limit(d).value
  {
    GroupCount(rows, Column(d), Limit(d))
  }

  /** The (event type, event name) summary: computed by `getCommonAggregations` but not returned. */
  function EventSummary(rows: seq<Event>): seq<Group<(string, Option<string>)>> {
    GroupCount(rows, (e: Event) => Some((e.eventType, e.eventName)), None)
  }

  datatype CommonAggregations = CommonAggregations(
    osSummary: seq<Group<string>>,
    deviceSummary: seq<Group<string>>,
    browserSummary: seq<Group<string>>,
    topPaths: seq<Group<string>>,
    topReferrers: seq<Group<string>>,
    topHostnames: seq<Group<string>>,
    topUtmSources: seq<Group<string>>,
    topCountries: seq<Group<string>>,
    topCities: seq<Group<string>>,
    totalVisits: nat,
    uniqueVisitors: nat)

  /** `getCommonAggregations(conditions)` over the store. */
  function GetCommonAggregations(store: seq<Event>, c: Conditions): CommonAggregations {
    var rows := Where(store, c);
    CommonAggregations(
      Breakdown(rows, Os), Breakdown(rows, Device), Breakdown(rows, Browser),
      Breakdown(rows, Path), Breakdown(rows, Referrer), Breakdown(rows, Hostname),
      Breakdown(rows, UtmSource), Breakdown(rows, Country), Breakdown(rows, City),
      |rows|, |Visitors(rows)|)
  }

  /**
    The totals: every row read is counted once, no more visitors than visits, both zero on an
    empty store. (The per-dimension limits are the contract of Breakdown.)
  */
  lemma CommonAggregationsBounds(store: seq<Event>, c: Conditions)
    ensures var a := GetCommonAggregations(store, c);
      && a.totalVisits == |Where(store, c)|
      && a.uniqueVisitors <= a.totalVisits
      && (store == [] ==> a.totalVisits == 0 && a.uniqueVisitors == 0)
  {
    VisitorsSpec(Where(store, c));
  }

  // The frequency series

  /** `date_trunc(unit, timestamp)`: the start of the second, minute, hour, day or month of t. */
  function Bucket(g: Granularity, t: Instant): Instant {
    match g
    case Seconds => t - t % MsPerSecond
    case Minutes => t - t % MsPerMinute
    case Hours => t - t % MsPerHour
    case Days => MakeDate(Day(t), 0)
    case Months => StartOfMonth(t)
  }

  /** A bucket starts no later than the instants in it. */
  lemma BucketBefore(g: Granularity, t: Instant)
    ensures Bucket(g, t) <= t
  {
    match g
    case Days => DaySplit(t);
    case Months => MonthBounds(t);
    case _ =>
  }

  function BucketKey(g: Granularity): Event -> Option<Instant> {
    (e: Event) => if e.timestamp.Some? then Some(Bucket(g, e.timestamp.value)) else None
  }

  /** One point of the series: a bucket, its COUNT(*) and its COUNT(DISTINCT visitor_id). */
  datatype FrequencyPoint = FrequencyPoint(time: Instant, totalVisits: nat, uniqueVisitors: nat)

  function Points(rows: seq<Event>, g: Granularity, ks: seq<Instant>): (ps: seq<FrequencyPoint>)
    ensures |ps| == |ks|
  {
    if ks == [] then []
    else
      var inBucket := Having(rows, BucketKey(g), ks[0]);
      [FrequencyPoint(ks[0], |inBucket|, |Visitors(inBucket)|)] + Points(rows, g, ks[1..])
  }

  /** `GROUP BY date_trunc(unit, timestamp) ORDER BY date_trunc(unit, timestamp)`. */
  function Frequency(rows: seq<Event>, g: Granularity): seq<FrequencyPoint> {
    Points(rows, g, RankOrder(KeysOf(rows, BucketKey(g)), t => -t))
  }

  function SumVisits(ps: seq<FrequencyPoint>): nat {
    if ps == [] then 0 else ps[0].totalVisits + SumVisits(ps[1..])
  }

  /** How many rows have a timestamp (the NULL bucket is never read: see Events.WhereMembership). */
  function Stamped(rows: seq<Event>): nat {
    if |rows| == 0 then 0
    else Stamped(rows[..|rows| - 1]) + (if rows[|rows| - 1].timestamp.Some? then 1 else 0)
  }

  /**
    The series has one point per non-empty bucket, in strictly ascending bucket order; each
    point counts at least one visit and no more visitors than visits; every timestamped row
    falls in a listed bucket; and the visits of the points sum to the number of timestamped
    rows.
  */
  lemma FrequencySpec(rows: seq<Event>, g: Granularity)
    ensures var ps := Frequency(rows, g);
      && (forall i, j :: 0 <= i < j < |ps| ==> ps[i].time < ps[j].time)
      && (forall i :: 0 <= i < |ps| ==> 1 <= ps[i].totalVisits && ps[i].uniqueVisitors <= ps[i].totalVisits)
      && (forall i :: 0 <= i < |rows| && rows[i].timestamp.Some? ==>
            exists j :: 0 <= j < |ps| && ps[j].time == Bucket(g, rows[i].timestamp.value))
      && SumVisits(ps) == Stamped(rows)
  {
    FrequencyAscending(rows, g);
    FrequencyPointCounts(rows, g);
    FrequencyCovers(rows, g);
    FrequencySum(rows, g);
  }

  /** The buckets of the series, before they are counted: the distinct buckets in ascending order. */
  lemma FrequencyBuckets(rows: seq<Event>, g: Granularity)
    ensures var o := RankOrder(KeysOf(rows, BucketKey(g)), t => -t);
      && Distinct(o)
      && (forall i, j :: 0 <= i < j < |o| ==> o[i] < o[j])
      && (forall k :: k in o <==> Occurrences(rows, BucketKey(g), k) > 0)
  {
    var key := BucketKey(g);
    var ks := KeysOf(rows, key);
    var o := RankOrder(ks, t => -t);
    KeysOfSpec(rows, key);
    RankOrderSpec(ks, t => -t);
    forall i, j | 0 <= i < j < |o|
      ensures o[i] < o[j]
    {
      assert -o[i] >= -o[j] && o[i] != o[j];
    }
    forall k
      ensures k in o <==> k in ks
    {
      assert k in o <==> k in multiset(o);
      assert k in ks <==> k in multiset(ks);
    }
  }

  lemma FrequencyAscending(rows: seq<Event>, g: Granularity)
    ensures var ps := Frequency(rows, g);
      forall i, j :: 0 <= i < j < |ps| ==> ps[i].time < ps[j].time
  {
    var o := RankOrder(KeysOf(rows, BucketKey(g)), t => -t);
    FrequencyBuckets(rows, g);
    PointsAt(rows, g, o);
  }

  lemma FrequencyPointCounts(rows: seq<Event>, g: Granularity)
    ensures var ps := Frequency(rows, g);
      forall i :: 0 <= i < |ps| ==> 1 <= ps[i].totalVisits && ps[i].uniqueVisitors <= ps[i].totalVisits
  {
    var o := RankOrder(KeysOf(rows, BucketKey(g)), t => -t);
    var ps := Frequency(rows, g);
    FrequencyBuckets(rows, g);
    PointsAt(rows, g, o);
    forall i | 0 <= i < |ps|
      ensures 1 <= ps[i].totalVisits && ps[i].uniqueVisitors <= ps[i].totalVisits
    {
      var inBucket := Having(rows, BucketKey(g), o[i]);
      assert o[i] in o;
      assert ps[i] == FrequencyPoint(o[i], |inBucket|, |Visitors(inBucket)|);
      VisitorsSpec(inBucket);
    }
  }

  lemma FrequencyCovers(rows: seq<Event>, g: Granularity)
    ensures var ps := Frequency(rows, g);
      forall i :: 0 <= i < |rows| && rows[i].timestamp.Some? ==>
        exists j :: 0 <= j < |ps| && ps[j].time == Bucket(g, rows[i].timestamp.value)
  {
    var key := BucketKey(g);
    var o := RankOrder(KeysOf(rows, key), t => -t);
    var ps := Frequency(rows, g);
    FrequencyBuckets(rows, g);
    PointsAt(rows, g, o);
    forall i | 0 <= i < |rows| && rows[i].timestamp.Some?
      ensures exists j :: 0 <= j < |ps| && ps[j].time == Bucket(g, rows[i].timestamp.value)
    {
      var b := Bucket(g, rows[i].timestamp.value);
      HavingContains(rows, key, i);
      assert b in o;
      var j :| 0 <= j < |o| && o[j] == b;
      assert ps[j].time == b;
    }
  }

  lemma FrequencySum(rows: seq<Event>, g: Granularity)
    ensures SumVisits(Frequency(rows, g)) == Stamped(rows)
  {
    var o := RankOrder(KeysOf(rows, BucketKey(g)), t => -t);
    FrequencyBuckets(rows, g);
    SumOfPoints(rows, g, o);
    forall k | Occurrences(rows, BucketKey(g), k) > 0
      ensures k in o
    {
    }
    SumOccurrences(rows, BucketKey(g), o);
    StampedIsKeyed(rows, g);
  }

  /** The i-th point is bucket ks[i] with its count and its distinct visitors. */
  lemma {:induction false} PointsAt(rows: seq<Event>, g: Granularity, ks: seq<Instant>)
    ensures forall i :: 0 <= i < |ks| ==>
      var inBucket := Having(rows, BucketKey(g), ks[i]);
      Points(rows, g, ks)[i] == FrequencyPoint(ks[i], |inBucket|, |Visitors(inBucket)|)
    decreases |ks|
  {
    if ks != [] {
      var inBucket := Having(rows, BucketKey(g), ks[0]);
      var rest := Points(rows, g, ks[1..]);
      assert Points(rows, g, ks) == [FrequencyPoint(ks[0], |inBucket|, |Visitors(inBucket)|)] + rest;
      PointsAt(rows, g, ks[1..]);
      forall i | 0 < i < |ks|
        ensures Points(rows, g, ks)[i] == rest[i - 1] && ks[i] == ks[1..][i - 1]
      {
      }
    }
  }

  /** A row with a non-NULL key is counted in its key's group. */
  lemma {:induction false} HavingContains<K>(rows: seq<Event>, key: Event -> Option<K>, i: nat)
    requires i < |rows| && key(rows[i]).Some?
    ensures Occurrences(rows, key, key(rows[i]).value) > 0
    decreases |rows|
  {
    if i < |rows| - 1 {
      HavingContains(rows[..|rows| - 1], key, i);
    }
  }

  // Sums of counts

  /** The total count of the groups ks. */
  function SumOcc<K(==)>(rows: seq<Event>, key: Event -> Option<K>, ks: seq<K>): nat {
    if ks == [] then 0 else Occurrences(rows, key, ks[0]) + SumOcc(rows, key, ks[1..])
  }

  /** How many of ks equal the key o. */
  function Hits<K(==)>(ks: seq<K>, o: Option<K>): nat {
    if ks == [] then 0 else (if o == Some(ks[0]) then 1 else 0) + Hits(ks[1..], o)
  }

  /** How many rows carry a non-NULL key. */
  function Keyed<K(==)>(rows: seq<Event>, key: Event -> Option<K>): nat {
    if |rows| == 0 then 0
    else Keyed(rows[..|rows| - 1], key) + (if key(rows[|rows| - 1]).Some? then 1 else 0)
  }

  /**
    Over distinct keys that include every non-NULL key of the rows, the group counts add up
    to the number of rows with a non-NULL key: each such row is counted in exactly one group.
  */
  lemma {:induction false} SumOccurrences<K>(rows: seq<Event>, key: Event -> Option<K>, ks: seq<K>)
    requires Distinct(ks)
    requires forall k :: Occurrences(rows, key, k) > 0 ==> k in ks
    ensures SumOcc(rows, key, ks) == Keyed(rows, key)
    decreases |rows|
  {
    if |rows| == 0 {
      SumOfEmpty(rows, key, ks);
    } else {
      var init := rows[..|rows| - 1];
      var last := key(rows[|rows| - 1]);
      forall k | Occurrences(init, key, k) > 0
        ensures k in ks
      {
        assert Occurrences(init, key, k) <= Occurrences(rows, key, k);
      }
      SumOccurrences(init, key, ks);
      SumOccSnoc(rows, key, ks);
      HitsDistinct(ks, last);
      if last.Some? {
        HavingContains(rows, key, |rows| - 1);
        assert Occurrences(rows, key, last.value) > 0;
        assert last.value in ks;
        assert Keyed(rows, key) == Keyed(init, key) + 1;
      } else {
        assert Keyed(rows, key) == Keyed(init, key);
      }
    }
  }

  lemma {:induction false} SumOfEmpty<K>(rows: seq<Event>, key: Event -> Option<K>, ks: seq<K>)
    requires |rows| == 0
    ensures SumOcc(rows, key, ks) == 0
    decreases |ks|
  {
    if ks != [] {
      SumOfEmpty(rows, key, ks[1..]);
    }
  }

  /** Adding a row adds one to the group of its key and nothing to the others. */
  lemma {:induction false} SumOccSnoc<K>(rows: seq<Event>, key: Event -> Option<K>, ks: seq<K>)
    requires |rows| > 0
    ensures SumOcc(rows, key, ks) == SumOcc(rows[..|rows| - 1], key, ks) + Hits(ks, key(rows[|rows| - 1]))
    decreases |ks|
  {
    if ks != [] {
      SumOccSnoc(rows, key, ks[1..]);
    }
  }

  /** A key occurs once in distinct keys that hold it, and not at all otherwise. */
  lemma {:induction false} HitsDistinct<K>(ks: seq<K>, o: Option<K>)
    requires Distinct(ks)
    ensures Hits(ks, o) == (if o.Some? && o.value in ks then 1 else 0)
    decreases |ks|
  {
    if ks != [] {
      assert Distinct(ks[1..]) by {
        forall a, b | 0 <= a < b < |ks[1..]|
          ensures ks[1..][a] != ks[1..][b]
        {
          assert ks[1..][a] == ks[a + 1] && ks[1..][b] == ks[b + 1];
        }
      }
      HitsDistinct(ks[1..], o);
      forall p | 0 <= p < |ks[1..]|
        ensures ks[1..][p] != ks[0]
      {
        assert ks[1..][p] == ks[p + 1];
      }
      assert o.Some? && o.value in ks <==> o.Some? && (o.value == ks[0] || o.value in ks[1..]) by {
        assert ks == [ks[0]] + ks[1..];
      }
    }
  }

  /** The visits of the points over ks are the group counts of ks. */
  lemma {:induction false} SumOfPoints(rows: seq<Event>, g: Granularity, ks: seq<Instant>)
    ensures SumVisits(Points(rows, g, ks)) == SumOcc(rows, BucketKey(g), ks)
    decreases |ks|
  {
    if ks != [] {
      SumOfPoints(rows, g, ks[1..]);
      assert Points(rows, g, ks)[1..] == Points(rows, g, ks[1..]);
    }
  }

  /** A row has a bucket exactly when it has a timestamp. */
  lemma {:induction false} StampedIsKeyed(rows: seq<Event>, g: Granularity)
    ensures Keyed(rows, BucketKey(g)) == Stamped(rows)
    decreases |rows|
  {
    if |rows| > 0 {
      StampedIsKeyed(rows[..|rows| - 1], g);
    }
  }

  /** Every row a query reads has a timestamp, so every row read falls in a bucket of the series. */
  lemma AllStamped(store: seq<Event>, c: Conditions)
    ensures Stamped(Where(store, c)) == |Where(store, c)|
  {
    WhereMembership(store, c);
    StampedAll(Where(store, c));
  }

  lemma {:induction false} StampedAll(rows: seq<Event>)
    requires forall i :: 0 <= i < |rows| ==> rows[i].timestamp.Some?
    ensures Stamped(rows) == |rows|
    decreases |rows|
  {
    if |rows| > 0 {
      StampedAll(rows[..|rows| - 1]);
    }
  }
}
