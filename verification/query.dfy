/**
 * The database queries the detection routes build: a filter on the video
 * and, when given, on the ROI; an ordering by timestamp; a row limit.
 */
module Query {
  import opened Records

  /**
   * The WHERE clause: `Detection.video_id == video_id`, plus
   * `Detection.roi_id == roi_id` only when an ROI id is supplied.
   * A detection whose `roi_id` is NULL never matches an ROI id.
   */
  predicate Matches(d: Detection, videoId: int, roi: Option<int>) {
    d.videoId == videoId && (roi.None? || d.roiId == Some(roi.value))
  }

  /** `q.all()` without ORDER BY: the matching detections in table order. */
  function Filter(ds: seq<Detection>, videoId: int, roi: Option<int>): (fs: seq<Detection>)
    ensures |fs| <= |ds|
    ensures forall d :: multiset(fs)[d] == if Matches(d, videoId, roi) then multiset(ds)[d] else 0
    ensures forall d :: d in fs <==> d in ds && Matches(d, videoId, roi)
  {
    if |ds| == 0 then []
    else
      var rest := Filter(ds[1..], videoId, roi);
      assert ds == [ds[0]] + ds[1..];
      if Matches(ds[0], videoId, roi) then [ds[0]] + rest else rest
  }

  predicate SortedByTime(s: seq<Detection>) {
    forall i, j :: 0 <= i < j < |s| ==> s[i].timestamp <= s[j].timestamp
  }

  /** Places `d` into a list already ordered by timestamp. */
  function Insert(d: Detection, s: seq<Detection>): (r: seq<Detection>)
    requires SortedByTime(s)
    ensures SortedByTime(r)
    ensures multiset(r) == multiset(s) + multiset{d}
  {
    if |s| == 0 then [d]
    else if d.timestamp <= s[0].timestamp then
      ConsSorted(d, s);
      [d] + s
    else
      var rest := Insert(d, s[1..]);
      assert s == [s[0]] + s[1..];
      BoundedAfterInsert(s[0].timestamp, d, s[1..], rest);
      ConsSorted(s[0], rest);
      [s[0]] + rest
  }

  /** Putting an element no later than any other in front keeps a list ordered. */
  lemma ConsSorted(h: Detection, r: seq<Detection>)
    requires SortedByTime(r)
    requires forall k :: 0 <= k < |r| ==> h.timestamp <= r[k].timestamp
    ensures SortedByTime([h] + r)
  {
    var hr := [h] + r;
    forall i, j | 0 <= i < j < |hr| ensures hr[i].timestamp <= hr[j].timestamp {
      assert hr[j] == r[j - 1];
      if i > 0 {
        assert hr[i] == r[i - 1];
      }
    }
  }

  /** A bound on `tail` and on `d` is a bound on any rearrangement of `tail` plus `d`. */
  lemma BoundedAfterInsert(t: real, d: Detection, tail: seq<Detection>, rest: seq<Detection>)
    requires t <= d.timestamp
    requires forall k :: 0 <= k < |tail| ==> t <= tail[k].timestamp
    requires multiset(rest) == multiset(tail) + multiset{d}
    ensures forall k :: 0 <= k < |rest| ==> t <= rest[k].timestamp
  {
    forall k | 0 <= k < |rest| ensures t <= rest[k].timestamp {
      assert rest[k] in multiset(rest);
      if rest[k] != d {
        assert rest[k] in multiset(tail);
        var j :| 0 <= j < |tail| && tail[j] == rest[k];
      }
    }
  }

  /**
   * `ORDER BY timestamp`. SQL leaves the order of equal timestamps open; the
   * contract states only what every conforming order shares.
   */
  function SortByTime(s: seq<Detection>): (r: seq<Detection>)
    ensures SortedByTime(r)
    ensures multiset(r) == multiset(s)
  {
    if |s| == 0 then []
    else
      assert s == [s[0]] + s[1..];
      Insert(s[0], SortByTime(s[1..]))
  }

  /** `LIMIT n`: the first `n` rows, or all of them when there are fewer. */
  function Limit(s: seq<Detection>, n: nat): (r: seq<Detection>)
    ensures |r| == if |s| <= n then |s| else n
    ensures r == s[..|r|]
  {
    if |s| <= n then s else s[..n]
  }

  /**
   * Cutting a time-ordered list keeps its earliest rows: nothing left out is
   * earlier than anything kept.
   */
  lemma LimitKeepsEarliest(s: seq<Detection>, n: nat)
    requires SortedByTime(s)
    ensures SortedByTime(Limit(s, n))
    ensures multiset(Limit(s, n)) <= multiset(s)
    ensures forall d, e :: d in multiset(s) - multiset(Limit(s, n)) && e in Limit(s, n) ==>
      e.timestamp <= d.timestamp
  {
    var r := Limit(s, n);
    var m := |r|;
    assert r == s[..m];
    SplitMultiset(s, m);
    assert multiset(s) - multiset(r) == multiset(s[m..]);
    assert SortedByTime(r) by {
      forall i, j | 0 <= i < j < m ensures r[i].timestamp <= r[j].timestamp {
        assert r[i] == s[i] && r[j] == s[j];
      }
    }
    forall d, e | d in multiset(s[m..]) && e in r
      ensures e.timestamp <= d.timestamp
    {
      var j :| m <= j < |s| && s[j] == d;
      var i :| 0 <= i < m && s[i] == e;
    }
  }

  /** The rows a prefix leaves out are, as a multiset, the remaining suffix. */
  lemma SplitMultiset(s: seq<Detection>, m: nat)
    requires m <= |s|
    ensures multiset(s[..m]) <= multiset(s)
    ensures multiset(s) - multiset(s[..m]) == multiset(s[m..])
    ensures forall d :: d in multiset(s[m..]) ==> exists j :: m <= j < |s| && s[j] == d
    ensures forall e :: e in s[..m] ==> exists i :: 0 <= i < m && s[i] == e
  {
    assert s == s[..m] + s[m..];
    forall d | d in multiset(s[m..]) ensures exists j :: m <= j < |s| && s[j] == d {
      var k :| 0 <= k < |s[m..]| && s[m..][k] == d;
      assert s[m + k] == d;
    }
  }
}
