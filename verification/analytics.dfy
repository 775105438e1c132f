/**
 * GET /analytics/{video_id}: reduces the selected detections to the number
 * of distinct tracks, the mean per-track dwell time and the busiest minute.
 */
module Analytics {
  import opened Records
  import opened Grouping
  import opened Query

  datatype Summary = Summary(totalPeople: nat, avgDwellTime: real, peakMinute: Option<int>)

  function TrackOf(d: Detection): int { d.trackId }

  function TimeOf(d: Detection): real { d.timestamp }

  /** `int(d.timestamp // 60)`: floor division of a float, so negative times round down. */
  function MinuteOf(d: Detection): (m: int)
    ensures m as real * 60.0 <= d.timestamp < (m + 1) as real * 60.0
  {
    (d.timestamp / 60.0).Floor
  }

  /** Python's `max` over a non-empty list of floats. */
  function MaxOf(s: seq<real>): (m: real)
    requires |s| > 0
    ensures m in s
    ensures forall x :: x in s ==> x <= m
  {
    if |s| == 1 then s[0]
    else
      var rest := MaxOf(s[1..]);
      assert s == [s[0]] + s[1..];
      if s[0] >= rest then s[0] else rest
  }

  /** Python's `min` over a non-empty list of floats. */
  function MinOf(s: seq<real>): (m: real)
    requires |s| > 0
    ensures m in s
    ensures forall x :: x in s ==> m <= x
  {
    if |s| == 1 then s[0]
    else
      var rest := MinOf(s[1..]);
      assert s == [s[0]] + s[1..];
      if s[0] <= rest then s[0] else rest
  }

  /** A track's dwell: last sighting minus first sighting. */
  function Span(ts: seq<real>): real
    requires |ts| > 0
  {
    MaxOf(ts) - MinOf(ts)
  }

  function SumOf(s: seq<real>): real {
    if |s| == 0 then 0.0 else s[0] + SumOf(s[1..])
  }

  /** `set(d.track_id for d in detections)` */
  function TrackIds(fs: seq<Detection>): (ids: set<int>)
    ensures forall d :: d in fs ==> d.trackId in ids
    ensures forall t :: t in ids ==> exists d :: d in fs && d.trackId == t
  {
    set d | d in fs :: d.trackId
  }

  /** The timestamps of one track, in query order (reference definition). */
  function TimestampsOf(fs: seq<Detection>, track: int): seq<real> {
    ValuesOf(fs, TrackOf, TimeOf, track)
  }

  /** How many detections fall in minute `m` (reference definition). */
  function MinuteCount(fs: seq<Detection>, m: int): nat {
    |ValuesOf(fs, MinuteOf, TimeOf, m)|
  }

  /** `by_track`: track id -> timestamps, in first-sighting order. */
  function ByTrack(fs: seq<Detection>): seq<Entry<int, real>> {
    Group(fs, TrackOf, TimeOf)
  }

  /**
   * `minute_counts`: minute -> count, in first-occurrence order. The count of
   * a minute is the length of the list of that minute's detections.
   */
  function MinuteBuckets(fs: seq<Detection>): seq<Entry<int, real>> {
    Group(fs, MinuteOf, TimeOf)
  }

  /** `[max(ts) - min(ts) for ts in by_track.values()]` */
  function DwellTimes(g: seq<Entry<int, real>>): (dw: seq<real>)
    requires NonEmptyLists(g)
    ensures |dw| == |g|
    ensures forall i :: 0 <= i < |g| ==> dw[i] == Span(g[i].values) && dw[i] >= 0.0
  {
    if |g| == 0 then []
    else [Span(g[0].values)] + DwellTimes(g[1..])
  }

  /**
   * The loop inside `max(minute_counts, key=minute_counts.get)`: `best` is the
   * maximum of the first `i` buckets, and it moves only on a strictly larger
   * count, so the first of several equal maxima is kept.
   */
  function PeakFrom(g: seq<Entry<int, real>>, i: nat, best: nat): (k: nat)
    requires best < i <= |g|
    requires forall j :: 0 <= j < i ==> |g[j].values| <= |g[best].values|
    requires forall j :: 0 <= j < best ==> |g[j].values| < |g[best].values|
    ensures k < |g|
    ensures forall j :: 0 <= j < |g| ==> |g[j].values| <= |g[k].values|
    ensures forall j :: 0 <= j < k ==> |g[j].values| < |g[k].values|
    decreases |g| - i
  {
    if i == |g| then best
    else if |g[i].values| > |g[best].values| then PeakFrom(g, i + 1, i)
    else PeakFrom(g, i + 1, best)
  }

  /** Index of the bucket `max(minute_counts, key=minute_counts.get)` returns. */
  function PeakIndex(g: seq<Entry<int, real>>): (k: nat)
    requires |g| > 0
    ensures k < |g|
    ensures forall j :: 0 <= j < |g| ==> |g[j].values| <= |g[k].values|
    ensures forall j :: 0 <= j < k ==> |g[j].values| < |g[k].values|
  {
    PeakFrom(g, 1, 0)
  }

  /** The analytics of the detections of `videoId`, restricted to `roi` when one is given. */
  function GetAnalytics(ds: seq<Detection>, videoId: int, roi: Option<int>): (r: Summary)
    ensures |Filter(ds, videoId, roi)| == 0 <==> r == Summary(0, 0.0, None)
    ensures r.peakMinute.Some? <==> |Filter(ds, videoId, roi)| > 0
    ensures r.totalPeople <= |Filter(ds, videoId, roi)|
  {
    var fs := Filter(ds, videoId, roi);
    if |fs| == 0 then Summary(0, 0.0, None)
    else
      var byTrack := ByTrack(fs);
      var dwells := DwellTimes(byTrack);
      var minutes := MinuteBuckets(fs);
      TrackCount(fs);
      Summary(|TrackIds(fs)|,
              SumOf(dwells) / (|dwells| as real),
              Some(minutes[PeakIndex(minutes)].key))
  }

  /** The keys of `by_track` are exactly the distinct track ids of the selection. */
  lemma TrackKeys(fs: seq<Detection>)
    ensures forall t :: t in Keys(ByTrack(fs)) <==> t in TrackIds(fs)
  {
    GroupKeys(fs, TrackOf, TimeOf);
    forall t ensures t in Keys(ByTrack(fs)) <==> t in TrackIds(fs) {
      if t in Keys(ByTrack(fs)) {
        var f := FirstIndex(fs, TrackOf, t);
        assert fs[f] in fs && fs[f].trackId == t;
      }
      if t in TrackIds(fs) {
        var d :| d in fs && d.trackId == t;
        var p :| 0 <= p < |fs| && fs[p] == d;
        assert TrackOf(fs[p]) == t;
      }
    }
  }

  /**
   * There are as many distinct track ids as keys of `by_track` (so as many as
   * dwell values), and at least one when any detection matched.
   */
  lemma TrackCount(fs: seq<Detection>)
    ensures |TrackIds(fs)| == |ByTrack(fs)| <= |fs|
    ensures |fs| > 0 ==> |ByTrack(fs)| > 0
  {
    var ks := Keys(ByTrack(fs));
    TrackKeys(fs);
    GroupKeys(fs, TrackOf, TimeOf);
    assert (set k | k in ks) == TrackIds(fs);
    DistinctCard(ks);
    SetSizeBound(fs);
    if |fs| > 0 {
      assert fs[0].trackId in TrackIds(fs);
    }
  }

  /** A projection of a list has no more distinct values than the list has elements. */
  lemma {:induction false} SetSizeBound(fs: seq<Detection>)
    ensures |TrackIds(fs)| <= |fs|
  {
    if |fs| > 0 {
      SetSizeBound(fs[1..]);
      assert TrackIds(fs) == TrackIds(fs[1..]) + {fs[0].trackId} by {
        assert fs == [fs[0]] + fs[1..];
      }
    }
  }

  /**
   * Only detections of the requested video (and ROI, when given) are
   * aggregated, and every one of them is.
   */
  lemma AggregatesOnlySelection(ds: seq<Detection>, videoId: int, roi: Option<int>, d: Detection)
    ensures d in Filter(ds, videoId, roi) <==>
      d in ds && d.videoId == videoId && (roi.Some? ==> d.roiId == roi)
  {
  }

  /**
   * `avg_dwell_time` is the mean of exactly one dwell value per distinct
   * track, and the divisor equals `total_people`, which is non-zero here.
   */
  lemma AverageOverTracks(ds: seq<Detection>, videoId: int, roi: Option<int>)
    requires |Filter(ds, videoId, roi)| > 0
    ensures var fs := Filter(ds, videoId, roi);
      var g := ByTrack(fs);
      var r := GetAnalytics(ds, videoId, roi);
      && Distinct(Keys(g))
      && (forall t :: t in Keys(g) <==> t in TrackIds(fs))
      && r.totalPeople == |TrackIds(fs)| == |DwellTimes(g)| > 0
      && r.avgDwellTime == SumOf(DwellTimes(g)) / (r.totalPeople as real)
  {
    var fs := Filter(ds, videoId, roi);
    TrackCount(fs);
    TrackKeys(fs);
    GroupKeys(fs, TrackOf, TimeOf);
  }

  /**
   * Each dwell value is the last minus the first timestamp of its track, is
   * never negative, and is zero for a track seen once.
   */
  lemma DwellIsSpan(fs: seq<Detection>)
    ensures var g := ByTrack(fs);
      var dw := DwellTimes(g);
      forall i :: 0 <= i < |g| ==>
        && |TimestampsOf(fs, g[i].key)| > 0
        && dw[i] == Span(TimestampsOf(fs, g[i].key))
        && dw[i] >= 0.0
        && (|TimestampsOf(fs, g[i].key)| == 1 ==> dw[i] == 0.0)
  {
    var g := ByTrack(fs);
    var dw := DwellTimes(g);
    assert g == Group(fs, TrackOf, TimeOf);
    GroupEntries(fs, TrackOf, TimeOf);
    forall i | 0 <= i < |g|
      ensures |TimestampsOf(fs, g[i].key)| > 0
      ensures dw[i] == Span(TimestampsOf(fs, g[i].key)) && dw[i] >= 0.0
      ensures |TimestampsOf(fs, g[i].key)| == 1 ==> dw[i] == 0.0
    {
      var ts := g[i].values;
      assert ts == TimestampsOf(fs, g[i].key);
      assert dw[i] == Span(ts);
      if |ts| == 1 {
        SpanOfSingle(ts);
      }
    }
  }

  lemma SpanOfSingle(ts: seq<real>)
    requires |ts| == 1
    ensures Span(ts) == 0.0
  {
  }

  /**
   * The minute buckets account for every selected detection once, and each
   * bucket holds the number of detections in its minute.
   */
  lemma MinuteBucketsCount(fs: seq<Detection>)
    ensures TotalSize(MinuteBuckets(fs)) == |fs|
    ensures forall i :: 0 <= i < |MinuteBuckets(fs)| ==>
      |MinuteBuckets(fs)[i].values| == MinuteCount(fs, MinuteBuckets(fs)[i].key) > 0
    ensures forall d :: d in fs ==> MinuteOf(d) in Keys(MinuteBuckets(fs))
  {
    var g := MinuteBuckets(fs);
    GroupKeys(fs, MinuteOf, TimeOf);
    GroupLookup(fs, MinuteOf, TimeOf);
    forall i | 0 <= i < |g| ensures |g[i].values| == MinuteCount(fs, g[i].key) {
      LookupAt(g, i);
    }
    forall d | d in fs ensures MinuteOf(d) in Keys(g) {
      var p :| 0 <= p < |fs| && fs[p] == d;
      assert FirstIndex(fs, MinuteOf, MinuteOf(d)) <= p;
    }
  }

  /**
   * `peak_minute` is a minute in which some selected detection falls, no
   * minute has more detections, and among equally busy minutes it is the one
   * whose first detection comes first in query order.
   */
  lemma PeakMinuteIsFirstBusiest(ds: seq<Detection>, videoId: int, roi: Option<int>)
    requires |Filter(ds, videoId, roi)| > 0
    ensures var fs := Filter(ds, videoId, roi);
      var m := GetAnalytics(ds, videoId, roi).peakMinute.value;
      && (exists i :: 0 <= i < |fs| && MinuteOf(fs[i]) == m)
      && (forall d :: d in fs ==> MinuteCount(fs, MinuteOf(d)) <= MinuteCount(fs, m))
      && (forall d :: d in fs && MinuteOf(d) != m && MinuteCount(fs, MinuteOf(d)) == MinuteCount(fs, m) ==>
            FirstIndex(fs, MinuteOf, m) < FirstIndex(fs, MinuteOf, MinuteOf(d)))
  {
    var fs := Filter(ds, videoId, roi);
    var g := MinuteBuckets(fs);
    var k := PeakIndex(g);
    var m := g[k].key;
    assert GetAnalytics(ds, videoId, roi).peakMinute.value == m;
    MinuteBucketsCount(fs);
    GroupKeys(fs, MinuteOf, TimeOf);
    assert m in Keys(g);
    var f := FirstIndex(fs, MinuteOf, m);
    assert MinuteOf(fs[f]) == m;
    forall d | d in fs
      ensures MinuteCount(fs, MinuteOf(d)) <= MinuteCount(fs, m)
      ensures MinuteOf(d) != m && MinuteCount(fs, MinuteOf(d)) == MinuteCount(fs, m) ==>
        f < FirstIndex(fs, MinuteOf, MinuteOf(d))
    {
      var ks := Keys(g);
      var j :| 0 <= j < |ks| && ks[j] == MinuteOf(d);
      assert g[j].key == MinuteOf(d);
      if MinuteOf(d) != m && MinuteCount(fs, MinuteOf(d)) == MinuteCount(fs, m) {
        assert j != k;
        assert k < j;
      }
    }
  }
}
