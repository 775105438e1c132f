/**
 * GET /detections/{video_id}: the detections of one video (and of one ROI,
 * when asked), earliest first, at most 500 of them, projected to the
 * columns the dashboard table shows.
 */
module DetectionsRoute {
  import opened Records
  import opened Query

  /** The row limit of the query. */
  const MaxRows: nat := 500

  /** One JSON row of the response. */
  datatype Row = Row(trackId: int, timestamp: real, x1: real, y1: real, x2: real, y2: real)

  function Project(d: Detection): Row {
    Row(d.trackId, d.timestamp, d.x1, d.y1, d.x2, d.y2)
  }

  /** The detections the query returns, before projection. */
  function Selected(ds: seq<Detection>, videoId: int, roi: Option<int>): (q: seq<Detection>)
    ensures forall d :: d in q ==> d.videoId == videoId
    ensures roi.Some? ==> forall d :: d in q ==> d.roiId == roi
    ensures SortedByTime(q)
    ensures |q| <= MaxRows
    ensures multiset(q) <= multiset(Filter(ds, videoId, roi))
    ensures |Filter(ds, videoId, roi)| <= MaxRows ==> multiset(q) == multiset(Filter(ds, videoId, roi))
    ensures |Filter(ds, videoId, roi)| > MaxRows ==> |q| == MaxRows
    ensures forall d, e :: d in multiset(Filter(ds, videoId, roi)) - multiset(q) && e in q ==>
      e.timestamp <= d.timestamp
  {
    var sorted := SortByTime(Filter(ds, videoId, roi));
    LimitKeepsEarliest(sorted, MaxRows);
    var q := Limit(sorted, MaxRows);
    assert forall d :: d in q ==> d in multiset(sorted);
    q
  }

  /** The response body: one row per selected detection, in the same order. */
  function GetDetections(ds: seq<Detection>, videoId: int, roi: Option<int>): (rows: seq<Row>)
    ensures |rows| == |Selected(ds, videoId, roi)| <= MaxRows
    ensures forall i :: 0 <= i < |rows| ==> rows[i] == Project(Selected(ds, videoId, roi)[i])
    ensures forall i, j :: 0 <= i < j < |rows| ==> rows[i].timestamp <= rows[j].timestamp
  {
    var q := Selected(ds, videoId, roi);
    seq(|q|, i requires 0 <= i < |q| => Project(q[i]))
  }

  /**
   * Whenever at most 500 detections match, the response lists every one of
   * them (as many times as it occurs), whatever order ties get.
   */
  lemma SmallResultIsComplete(ds: seq<Detection>, videoId: int, roi: Option<int>, d: Detection)
    requires |Filter(ds, videoId, roi)| <= MaxRows
    requires d in ds && d.videoId == videoId && (roi.Some? ==> d.roiId == roi)
    ensures Project(d) in GetDetections(ds, videoId, roi)
  {
    var q := Selected(ds, videoId, roi);
    assert d in Filter(ds, videoId, roi);
    assert d in multiset(q);
    var i :| 0 <= i < |q| && q[i] == d;
    assert GetDetections(ds, videoId, roi)[i] == Project(d);
  }
}
