/**
 * Shared records of the backend: the detection and ROI rows of the
 * database, and the ways a request handler can end without a body.
 */
module Records {

  /** Python's `Optional[...]` / JSON `null`. */
  datatype Option<T> = None | Some(value: T)

  /** A row of the `detections` table (the variant that carries `roi_id`). */
  datatype Detection = Detection(
    videoId: int,
    roiId: Option<int>,
    trackId: int,
    timestamp: real,
    x1: real,
    y1: real,
    x2: real,
    y2: real)

  /** A point of an ROI polygon as it arrives in JSON (native video pixels). */
  datatype Point = Point(x: real, y: real)

  /** A row of the `rois` table; `points` is stored exactly as received. */
  datatype Roi = Roi(id: int, videoId: int, name: string, points: seq<Point>)

  /** How a handler ends when it does not produce its normal body. */
  datatype Failure =
    | HttpError(code: int, detail: Option<string>)  // an HTTPException; None is FastAPI's default detail
    | Unhandled(message: string)                    // an exception escaping the handler (served as 500)

  datatype Result<T> = Ok(value: T) | Err(failure: Failure)

  /** What a call into code outside the model did: returned a value or raised. */
  datatype Outcome<T> = Returned(value: T) | Raised(message: string)

  const NotFound: Failure := HttpError(404, None)
  const BadRequest: Failure := HttpError(400, None)
}
