/**
 * GET /roi/{video_id} and POST /roi: listing the regions of interest of a
 * video, and storing a new one, then stamping its id onto every detection of
 * that video whose bounding-box centre lies inside or on the polygon.
 */
module RoiRoute {
  import opened Records

  datatype IntPoint = IntPoint(x: int, y: int)

  const Int32Min: int := -0x8000_0000
  const Int32Max: int := 0x7FFF_FFFF
  const Int32Span: int := 0x1_0000_0000

  /** A float cast to an integer type: the fraction is dropped, toward zero. */
  function Truncate(x: real): (i: int)
    ensures x >= 0.0 ==> 0 <= i && i as real <= x < i as real + 1.0
    ensures x < 0.0 ==> i <= 0 && i as real - 1.0 < x <= i as real
  {
    if x >= 0.0 then x.Floor else -((-x).Floor)
  }

  /** Two's-complement wrap of an integer into the int32 range. */
  function WrapInt32(i: int): (w: int)
    ensures Int32Min <= w <= Int32Max
    ensures (w - i) % Int32Span == 0
    ensures Int32Min <= i <= Int32Max ==> w == i
  {
    (i - Int32Min) % Int32Span + Int32Min
  }

  /** One coordinate of `np.array(points, dtype=np.int32)`. */
  function ToInt32(x: real): int {
    WrapInt32(Truncate(x))
  }

  /**
   * `np.array(payload["points"], dtype=np.int32)`: the polygon the containment
   * test sees. Every coordinate fits in 32 bits, and a coordinate that was
   * already in range only loses its fraction.
   */
  function Int32Polygon(points: seq<Point>): (poly: seq<IntPoint>)
    ensures |poly| == |points|
    ensures forall i :: 0 <= i < |poly| ==>
      Int32Min <= poly[i].x <= Int32Max && Int32Min <= poly[i].y <= Int32Max
    ensures forall i :: 0 <= i < |poly| && Int32Min as real <= points[i].x <= Int32Max as real ==>
      poly[i].x == Truncate(points[i].x)
    ensures forall i :: 0 <= i < |poly| && Int32Min as real <= points[i].y <= Int32Max as real ==>
      poly[i].y == Truncate(points[i].y)
  {
    seq(|points|, i requires 0 <= i < |points| => IntPoint(ToInt32(points[i].x), ToInt32(points[i].y)))
  }

  function Min(a: real, b: real): real { if a <= b then a else b }

  function Max(a: real, b: real): real { if a <= b then b else a }

  /** The test point of a detection: the centre of its bounding box. */
  function Centre(d: Detection): (c: Point)
    ensures Min(d.x1, d.x2) <= c.x <= Max(d.x1, d.x2)
    ensures Min(d.y1, d.y2) <= c.y <= Max(d.y1, d.y2)
    ensures c.x - d.x1 == d.x2 - c.x && c.y - d.y1 == d.y2 - c.y
  {
    Point((d.x1 + d.x2) / 2.0, (d.y1 + d.y2) / 2.0)
  }

  /**
   * `cv2.pointPolygonTest(poly, pt, False) >= 0`: whether `pt` is inside or on
   * the boundary of the polygon. OpenCV's geometry is not part of this model,
   * so the test is a parameter of the operations that use it.
   */
  type InsideTest = (seq<IntPoint>, Point) -> bool

  /** The part of the database the routes touch. */
  datatype Db = Db(rois: seq<Roi>, detections: seq<Detection>)

  /** The JSON body of POST /roi; a key absent from the body is `None`. */
  datatype RoiPayload = RoiPayload(videoId: Option<int>, name: Option<string>, points: Option<seq<Point>>)

  /** One element of the GET /roi/{video_id} response. */
  datatype RoiRow = RoiRow(id: int, name: string, points: seq<Point>)

  function RowOf(r: Roi): RoiRow {
    RoiRow(r.id, r.name, r.points)
  }

  /** GET /roi/{video_id}: the ROIs of that video, in table order. */
  function ListRois(rois: seq<Roi>, videoId: int): (rows: seq<RoiRow>)
    ensures |rows| <= |rois|
    ensures forall row :: row in rows <==> exists r :: r in rois && r.videoId == videoId && row == RowOf(r)
  {
    if |rois| == 0 then []
    else
      var rest := ListRois(rois[1..], videoId);
      assert rois == [rois[0]] + rois[1..];
      if rois[0].videoId == videoId then [RowOf(rois[0])] + rest else rest
  }

  /** The id the database gives a new ROI row: one past the largest id in use. */
  function NextRoiId(rois: seq<Roi>): (id: int)
    ensures id >= 1
    ensures forall r :: r in rois ==> r.id < id
  {
    if |rois| == 0 then 1
    else
      var rest := NextRoiId(rois[1..]);
      assert rois == [rois[0]] + rois[1..];
      if rois[0].id + 1 > rest then rois[0].id + 1 else rest
  }

  /** Whether the ROI creation loop re-tags `d`. */
  predicate Hit(d: Detection, videoId: int, poly: seq<IntPoint>, inside: InsideTest) {
    d.videoId == videoId && inside(poly, Centre(d))
  }

  /**
   * The loop over the detections of `videoId`: a hit gets `roi_id := roiId`,
   * whatever it held before; every other detection is left as it was.
   */
  function Tag(ds: seq<Detection>, videoId: int, poly: seq<IntPoint>, roiId: int, inside: InsideTest): (r: seq<Detection>)
    ensures |r| == |ds|
    ensures forall i :: 0 <= i < |ds| ==> r[i].(roiId := ds[i].roiId) == ds[i]
    ensures forall i :: 0 <= i < |ds| && Hit(ds[i], videoId, poly, inside) ==> r[i].roiId == Some(roiId)
    ensures forall i :: 0 <= i < |ds| && !Hit(ds[i], videoId, poly, inside) ==> r[i] == ds[i]
  {
    seq(|ds|, i requires 0 <= i < |ds| =>
      if Hit(ds[i], videoId, poly, inside) then ds[i].(roiId := Some(roiId)) else ds[i])
  }

  /** The database state and the response after a POST /roi. */
  datatype Created = Created(db: Db, response: Result<int>)

  /**
   * POST /roi. A missing key fails before anything is written. Otherwise the
   * ROI is stored as received; if the audit log then fails the request ends
   * there, with the ROI stored but no detection tagged; else the detections
   * are tagged against the int32 copy of the points and the new id returned.
   */
  function CreateRoi(db: Db, p: RoiPayload, inside: InsideTest, log: Outcome<()>): (c: Created)
    ensures p.videoId.None? || p.name.None? || p.points.None? ==>
      c.db == db && c.response.Err? && c.response.failure.Unhandled?
    ensures p.videoId.Some? && p.name.Some? && p.points.Some? ==>
      var id := NextRoiId(db.rois);
      && (forall r :: r in db.rois ==> r.id != id)
      && c.db.rois == db.rois + [Roi(id, p.videoId.value, p.name.value, p.points.value)]
      && (log.Raised? ==> c.db.detections == db.detections && c.response == Err(Unhandled(log.message)))
      && (log.Returned? ==>
            && c.response == Ok(id)
            && c.db.detections == Tag(db.detections, p.videoId.value, Int32Polygon(p.points.value), id, inside))
  {
    if p.videoId.None? || p.name.None? || p.points.None? then
      Created(db, Err(Unhandled("KeyError")))
    else
      var id := NextRoiId(db.rois);
      var stored := Db(db.rois + [Roi(id, p.videoId.value, p.name.value, p.points.value)], db.detections);
      match log
      case Raised(e) => Created(stored, Err(Unhandled(e)))
      case Returned(_) =>
        var poly := Int32Polygon(p.points.value);
        Created(stored.(detections := Tag(db.detections, p.videoId.value, poly, id, inside)), Ok(id))
  }

  /** Every ROI id a detection carries names a stored ROI. */
  predicate Consistent(db: Db) {
    forall d :: d in db.detections && d.roiId.Some? ==>
      exists r :: r in db.rois && r.id == d.roiId.value
  }

  /**
   * After a successful POST /roi, a detection carries the new id exactly
   * when it belongs to the payload's video and its centre passes the
   * containment test on the int32 polygon; nothing else about any detection
   * changes, and the database stays consistent.
   */
  lemma CreateRoiTagsExactlyHits(db: Db, p: RoiPayload, inside: InsideTest)
    requires Consistent(db)
    requires p.videoId.Some? && p.name.Some? && p.points.Some?
    ensures var c := CreateRoi(db, p, inside, Returned(()));
      var id := c.response.value;
      var poly := Int32Polygon(p.points.value);
      && c.response.Ok?
      && Consistent(c.db)
      && |c.db.detections| == |db.detections|
      && forall i :: 0 <= i < |db.detections| ==>
           && (c.db.detections[i].roiId == Some(id) <==> Hit(db.detections[i], p.videoId.value, poly, inside))
           && c.db.detections[i].(roiId := db.detections[i].roiId) == db.detections[i]
  {
    var c := CreateRoi(db, p, inside, Returned(()));
    var id := NextRoiId(db.rois);
    var ds := db.detections;
    var ds' := c.db.detections;
    forall i | 0 <= i < |ds| && !Hit(ds[i], p.videoId.value, Int32Polygon(p.points.value), inside)
      ensures ds'[i].roiId != Some(id)
    {
      if ds[i].roiId.Some? {
        assert ds[i] in ds;
        var r :| r in db.rois && r.id == ds[i].roiId.value;
        assert r.id < id;
      }
    }
    var newRoi := Roi(id, p.videoId.value, p.name.value, p.points.value);
    assert newRoi in c.db.rois;
    forall d | d in ds' && d.roiId.Some?
      ensures exists r :: r in c.db.rois && r.id == d.roiId.value
    {
      var i :| 0 <= i < |ds'| && ds'[i] == d;
      if d.roiId != Some(id) {
        assert ds[i].roiId == d.roiId;
        assert ds[i] in ds;
        var r :| r in db.rois && r.id == d.roiId.value;
        assert r in c.db.rois;
      }
    }
  }

  /** Listing a video's ROIs after a POST /roi shows the old ones and then the new one. */
  lemma ListAfterCreate(db: Db, p: RoiPayload, inside: InsideTest, log: Outcome<()>, videoId: int)
    requires p.videoId.Some? && p.name.Some? && p.points.Some?
    ensures var c := CreateRoi(db, p, inside, log);
      ListRois(c.db.rois, videoId) ==
        ListRois(db.rois, videoId) +
        (if videoId == p.videoId.value then [RoiRow(NextRoiId(db.rois), p.name.value, p.points.value)] else [])
  {
    var roi := Roi(NextRoiId(db.rois), p.videoId.value, p.name.value, p.points.value);
    ListSnoc(db.rois, roi, videoId);
  }

  lemma {:induction false} ListSnoc(rois: seq<Roi>, roi: Roi, videoId: int)
    ensures ListRois(rois + [roi], videoId) ==
      ListRois(rois, videoId) + (if roi.videoId == videoId then [RowOf(roi)] else [])
  {
    if |rois| > 0 {
      assert (rois + [roi])[1..] == rois[1..] + [roi];
      ListSnoc(rois[1..], roi, videoId);
    }
  }
}
