# Multi-object-tracking dashboard: a Dafny model of its routes, job lifecycle and poller

The system uploads a video and runs object tracking on it in a background
worker. It stores one `Detection` row per tracked box and serves:

- the annotated video and a heatmap;
- the detections, earliest first;
- per-video analytics: distinct people, mean dwell time and busiest minute;
- polygonal regions of interest (ROIs), which tag the detections whose box
  centre lies in them.

A React page uploads a file and polls the job until it finishes. It then
fetches the video's detections.

This project models the logic of that flow as immutable datatypes and pure
functions. It proves what each operation promises.

| file | module | models |
|---|---|---|
| `records.dfy` | `Records` | the shared records `Detection`, `Roi`, `Point`; `Option`; the HTTP outcome types `Result`/`Failure`; `Outcome`, for a call that returns or raises |
| `grouping.dfy` | `Grouping` | the insertion-ordered Python dict built by `d.setdefault(k, []).append(v)`, with reference definitions `ValuesOf`/`FirstIndex` |
| `query.dfy` | `Query` | the detection query: the video/ROI filter, `ORDER BY timestamp`, `LIMIT` |
| `analytics.dfy` | `Analytics` | `get_analytics` |
| `detections.dfy` | `DetectionsRoute` | `get_detections` of the modular backend |
| `roi.dfy` | `RoiRoute` | `list_rois`, `create_roi`, the int32 copy of the polygon, the box centre |
| `paths.dfy` | `Paths` | POSIX `os.path.splitext`, lower-casing, the video extension check |
| `jobs.dfy` | `Jobs` | `JobState`, `run_processing`, the job registry, `upload_video`, `job_status` |
| `media.dfy` | `Media` | `get_video`, `get_heatmap` of the modular backend |
| `monolith.dfy` | `Monolith` | the single-file server `main.py` |
| `client.dfy` | `Client` | the App component's upload, poll, detections-effect and heatmap-toggle logic |

Some parts of the system are parameters of the model:

- The database is a sequence of rows.
- `process_video` is an `Outcome<int>` that returns a video id or raises. The same holds for the audit write (`log_event`) and the file write.
- `cv2.pointPolygonTest(poly, pt, False) >= 0` is a function-valued parameter `inside`.
- `os.path.exists` is a function-valued parameter `fileExists`.
- A fresh `uuid4` is a `jobId` parameter.

The background thread is one sequential step. Each step yields every registry state that a concurrent status poll could observe.

On the client, each event is one callback that runs to completion, followed by one render. The render re-runs the detections effect when `[jobDone, job?.video_id]` changed.

The code keeps each interval handle local to its own `handleUpload` call, so nothing cancels an earlier interval. The model follows the code: `Client.UploadsNeverCancel` and `Client.StaleIntervalOverwritesJob` state what actually happens.

## Model

| member | source | states |
|---|---|---|
| `Grouping.Append` | backend/app/routes/analytics.py:34-35 | adding a value keeps existing keys in place and appends a new key last; only the list under that key grows, by exactly that value |
| `Grouping.Group` | backend/app/routes/analytics.py:33-35 | the dict built by the loop holds every input element's value exactly once in total, and no key has an empty list |
| `Grouping.GroupKeys` | backend/app/routes/analytics.py:33-35 | the dict's keys are distinct, are exactly the keys that occur in the input, and are in first-occurrence order |
| `Grouping.GroupLookup` | backend/app/routes/analytics.py:33-35 | the list under each key is that key's values in input order |
| `Grouping.GroupEntries` | backend/app/routes/analytics.py:33-35 | every entry holds exactly the values of its own key |
| `Query.Filter` | backend/app/routes/analytics.py:17-22 | a detection is kept, with its multiplicity, iff it has the video id and, when an ROI id is given, that ROI id; otherwise it is dropped |
| `Query.Insert` | backend/app/routes/detections.py:22 | inserting into a time-ordered list keeps it ordered and adds exactly one element |
| `Query.SortByTime` | backend/app/routes/detections.py:22 | the result is ordered by timestamp and is a permutation of the input |
| `Query.Limit` | backend/app/routes/detections.py:22 | the result is the first min(n, length) rows |
| `Query.LimitKeepsEarliest` | backend/app/routes/detections.py:22 | cutting a time-ordered list keeps it ordered, keeps a sub-multiset, and leaves out nothing earlier than a kept row |
| `Analytics.MinuteOf` | backend/app/routes/analytics.py:41 | `int(t // 60)` is the minute `m` with `60m <= t < 60(m+1)`, rounding down for negative times too |
| `Analytics.MaxOf` | backend/app/routes/analytics.py:37 | `max` is an element of the list and no element exceeds it |
| `Analytics.MinOf` | backend/app/routes/analytics.py:37 | `min` is an element of the list and no element is below it |
| `Analytics.DwellTimes` | backend/app/routes/analytics.py:37 | one dwell value per track entry, each max minus min of its timestamps and never negative |
| `Analytics.PeakFrom` | backend/app/routes/analytics.py:47 | the chosen bucket has the largest count, and every earlier bucket has a strictly smaller one, so the first maximum wins |
| `Analytics.PeakIndex` | backend/app/routes/analytics.py:47 | the chosen minute bucket has the largest count, and every earlier bucket has a strictly smaller one |
| `Analytics.GetAnalytics` | backend/app/routes/analytics.py:24-48 | the all-zero answer with no peak minute is returned exactly when nothing matches; otherwise there is a peak minute and at most one person per matching detection |
| `Analytics.TrackIds` | backend/app/routes/analytics.py:31 | the set holds every detection's track id and nothing else |
| `Analytics.TrackKeys` | backend/app/routes/analytics.py:31-35 | the keys of `by_track` are exactly the distinct track ids |
| `Analytics.TrackCount` | backend/app/routes/analytics.py:31-45 | there are as many distinct track ids as `by_track` entries, no more than detections, and at least one when any detection matched |
| `Analytics.SetSizeBound` | backend/app/routes/analytics.py:31 | the set of track ids is no larger than the list of detections |
| `Analytics.AggregatesOnlySelection` | backend/app/routes/analytics.py:17-20 | exactly the detections of the video, and of the ROI only when one is given, are aggregated |
| `Analytics.AverageOverTracks` | backend/app/routes/analytics.py:37-46 | `avg_dwell_time` is the sum of the dwell values divided by their count, which equals `total_people` and is non-zero |
| `Analytics.DwellIsSpan` | backend/app/routes/analytics.py:33-37 | each dwell value is the last minus the first timestamp of its track, is non-negative, and is 0 for a track seen once |
| `Analytics.SpanOfSingle` | backend/app/routes/analytics.py:37 | a single timestamp spans zero seconds |
| `Analytics.MinuteBucketsCount` | backend/app/routes/analytics.py:39-42 | the minute counts sum to the number of detections, each count is the number of detections in that `floor(t/60)` minute, and every detection's minute is a key |
| `Analytics.PeakMinuteIsFirstBusiest` | backend/app/routes/analytics.py:39-47 | `peak_minute` is the minute of some detection; no minute is busier; among equally busy minutes it is the one seen first in query order |
| `DetectionsRoute.Selected` | backend/app/routes/detections.py:17-22 | the rows are of the video (and of the ROI when given), time-ordered, at most 500, a sub-multiset of the matches, all matches when at most 500 match, exactly 500 otherwise, and no omitted match is earlier than a returned one |
| `DetectionsRoute.GetDetections` | backend/app/routes/detections.py:24-34 | one row per selected detection, in the same order, carrying its track id, timestamp and corners |
| `DetectionsRoute.SmallResultIsComplete` | backend/app/routes/detections.py:22 | with at most 500 matches, every matching detection appears in the response |
| `RoiRoute.Truncate` | backend/app/routes/roi.py:38 | converting a float drops the fraction toward zero |
| `RoiRoute.WrapInt32` | backend/app/routes/roi.py:38 | the int32 value lies in range, is congruent modulo 2^32, and equals the input when the input is already in range |
| `RoiRoute.Int32Polygon` | backend/app/routes/roi.py:38 | the polygon the test sees has one int32 point per payload point, each coordinate truncated when in range |
| `RoiRoute.Centre` | backend/app/routes/roi.py:45-46 | the test point lies between the box corners, at equal distance from each |
| `RoiRoute.ListRois` | backend/app/routes/roi.py:13-16 | a row is listed iff some stored ROI of that video has that id, name and points |
| `RoiRoute.NextRoiId` | backend/app/routes/roi.py:27-29 | the new ROI's id is positive and greater than every stored id, so it is fresh |
| `RoiRoute.Tag` | backend/app/routes/roi.py:40-48 | only `roi_id` can change; a detection of the video whose centre is inside gets the new id, even over an earlier one; every other detection is unchanged |
| `RoiRoute.CreateRoi` | backend/app/routes/roi.py:19-52 | a missing key fails with nothing written; otherwise the ROI is stored with the raw payload points and a fresh id; a failed audit write ends the request with no detection tagged; otherwise detections are tagged against the int32 points and the id is returned |
| `RoiRoute.CreateRoiTagsExactlyHits` | backend/app/routes/roi.py:40-52 | after a successful create, a detection carries the new id iff it is of the payload's video and its centre passes the test; nothing else changes, and every tagged ROI id names a stored ROI |
| `RoiRoute.ListAfterCreate` | backend/app/routes/roi.py:13-29 | listing after a create shows the earlier ROIs of the video, then the new one when it belongs to that video |
| `RoiRoute.ListSnoc` | backend/app/routes/roi.py:15-16 | listing a table with one more ROI at the end lists that ROI last, when it belongs to the video |
| `Paths.LastIndex` | backend/app/routes/jobs.py:30 | the result is the position of the last occurrence, or -1 when there is none |
| `Paths.LastIndexIs` | backend/app/routes/jobs.py:30 | the two facts of the last-occurrence contract determine the index |
| `Paths.FirstNonDot` | backend/app/routes/jobs.py:30 | the scan stops at the first non-dot character of the final component |
| `Paths.Ext` | backend/app/routes/jobs.py:30 | the extension is a suffix of the name and either empty or one dot followed by no dot or slash |
| `Paths.ExtIff` | backend/app/routes/jobs.py:30 | the extension is non-empty exactly when the final component has a dot with a non-dot character before it, and then it starts at the last dot |
| `Paths.SplitExt` | backend/app/routes/jobs.py:30 | the split's root and extension concatenate to the name, and the loop finds the same extension as `Ext` |
| `Paths.Lower` | backend/app/routes/jobs.py:30 | lower-casing maps A–Z to a–z and the Kelvin sign U+212A to `k`, leaves every other character alone, and leaves neither an upper-case ASCII letter nor a Kelvin sign |
| `Paths.CheckFilename` | backend/app/routes/jobs.py:27-32 | a missing or empty name is refused as such; otherwise the name is accepted iff its lower-cased extension is `.mp4`, `.mov`, `.mkv` or `.avi` |
| `Paths.UpperCaseAccepted` | backend/app/routes/jobs.py:30-31 | `clip.MP4` is accepted with extension `.mp4` |
| `Paths.KelvinSignAccepted` | backend/app/routes/jobs.py:30-31 | a name ending in `.m` + U+212A + `v` lowers to `.mkv` and is accepted |
| `Paths.LastSuffixOnly` | backend/app/routes/jobs.py:30-32 | `clip.mp4.txt` is refused |
| `Paths.HiddenNameHasNoExtension` | backend/app/routes/jobs.py:30-32 | `.mp4`, `..mp4` and `videos/.mp4` have no extension, so `.mp4` is refused |
| `Paths.DirectoryDotIgnored` | backend/app/routes/jobs.py:30 | a dot in a directory name is not an extension |
| `Jobs.StatusName` | backend/app/services/video_processor.py:11-31 | the reported status is one of four strings, "done" exactly for a done job and "failed" exactly for a failed one |
| `Jobs.NewJob` | backend/app/services/video_processor.py:6-12 | a new job is queued with no video id and no error |
| `Jobs.RunProcessing` | backend/app/services/video_processor.py:15-34 | the first state is `processing`; ids and paths never change; every state that is done has a video id; each step is a permitted transition; the run ends done iff processing and the audit write both succeed; a processor failure leaves the video id as it was and records the error |
| `Jobs.FailedJobMayHaveVideo` | backend/app/services/video_processor.py:25-34 | a failed audit write after processing yields a job that was reported done and ends failed with its video id set |
| `Jobs.UploadVideo` | backend/app/routes/jobs.py:21-55 | a refused name is a bare 400 with nothing registered; a failed file write registers nothing; otherwise a queued job is filed under the id with path `uploads/<id><ext>`; a failed audit write ends the request with no worker started; otherwise the worker for `outputs/<id>.mp4` starts and the id is returned |
| `Jobs.UploadRegistersOnlyAccepted` | backend/app/routes/jobs.py:27-55 | the registry changes iff the upload is accepted and written, only under the new id, with a queued job whose path ends in a video extension, and it stays well formed |
| `Jobs.JobStatus` | backend/app/routes/jobs.py:58-69 | an unknown id gives 404; a known id gives that job's id, status, video id and error unchanged |
| `Jobs.Process` | backend/app/routes/jobs.py:45-53 | the worker's run changes only its own job, one observable registry per assignment |
| `Jobs.ProcessKeepsRegistryWellFormed` | backend/app/services/video_processor.py:15-34 | every registry a poll can observe during a run is well formed, has the same ids, differs only in the worker's job, and a "done" reply always has a video id |
| `Media.GetVideo` | backend/app/routes/media.py:12-22 | the video is served iff the job exists, is done and its output file exists; it is served from `outputs/<job_id>.mp4`; every refusal is 404 |
| `Media.GetHeatmap` | backend/app/routes/media.py:25-34 | the heatmap is served iff the job exists and is done, from `outputs/<job_id>.png`, without a file check; every refusal is 404 |
| `Media.MediaFollowsWorker` | backend/app/routes/media.py:12-34 | in a well-formed registry the served paths are those of the requested id; a served job has a video id; the video is served iff the heatmap is and the file exists |
| `Media.NoMediaBeforeDone` | backend/app/routes/media.py:14-16 | at no point of a run whose processing raised, and at no point before a run reports done, is any media served |
| `Media.HeatmapServedBeforeAuditFailure` | backend/app/services/video_processor.py:25-34 | a run whose processing returns but whose audit write raises is reported done on its way to failed, and the heatmap is served while it is done |
| `Monolith.MonoRunProcessing` | main.py:55-78 | processing first; done iff the processor returns, with its id; a failure keeps the video id and records the error |
| `Monolith.DoneIsFinal` | main.py:59-75 | in main.py a done job never changes again, and a failed new job has no video id |
| `Monolith.ModularWorkerDiffers` | main.py:59-75 | the same run ends done in main.py and failed with a video id in the modular backend |
| `Monolith.MonoUpload` | main.py:85-106 | the two 400 details; a failed write registers nothing; an accepted and written upload always registers a queued job, starts its worker and returns its id |
| `Monolith.UploadsAgree` | main.py:85-106 | both servers register the same jobs and accept the same uploads; only main.py's 400s carry details |
| `Monolith.MonoJobStatus` | main.py:109-122 | an unknown id raises KeyError, unhandled; a known id is reported unchanged |
| `Monolith.NoJobNotFound` | main.py:111-113 | main.py's lookup never answers with an HTTP error; it agrees with the modular lookup on known ids and differs on every unknown one |
| `Monolith.IntendedMonoJobStatus` | main.py:111-113 | the lookup with `jobs.get`: an unknown id gets 404 "Job not found", and a known one the same reply as before |
| `Monolith.MonoGetVideo` | main.py:125-134 | served iff the job exists and is done; otherwise 404 "Video not ready"; no file check |
| `Monolith.MonoGetHeatmap` | main.py:136-145 | served iff the job exists and is done; otherwise 404 "Image not ready" |
| `Monolith.MonoGetDetections` | main.py:147-169 | at most 500 rows, in time order |
| `Monolith.MonoDetectionsComplete` | main.py:151-157 | every row comes from a detection of the video, whatever its ROI; with at most 500 of them, all are listed |
| `Client.Render` | frontend/src/App.jsx:87-99 | the effect starts one detection fetch iff its dependencies changed, `jobDone` is set and the job shown has a truthy video id; nothing else changes |
| `Client.OnChoose` | frontend/src/App.jsx:46-54 | with no file, or while uploading, nothing changes; otherwise `uploading` is set and the job, detections, `jobDone` and heatmap are reset, with intervals untouched |
| `Client.OnUploadReply` | frontend/src/App.jsx:64-81 | the job becomes the queued placeholder with the returned id, `uploading` ends, and one new interval polls that id beside all live ones |
| `Client.OnTick` | frontend/src/App.jsx:68-81 | a dead interval changes nothing; a live one replaces the job with the reply; "done" clears it and sets `jobDone`; "failed" clears it and keeps `jobDone`; any other status keeps polling |
| `Client.OnDetections` | frontend/src/App.jsx:90-96 | a response to a started fetch replaces the table |
| `Client.OnToggle` | frontend/src/App.jsx:158-162 | the heatmap flips iff the button is shown and enabled; nothing else changes |
| `Client.InitialInv` | frontend/src/App.jsx:35-39 | the first render satisfies the invariant |
| `Client.RenderKeepsInv` | frontend/src/App.jsx:87-99 | a render restores the effect's dependencies and keeps pending fetches among the started ones |
| `Client.RenderFetchStep` | frontend/src/App.jsx:88-98 | a render starts at most one fetch, while `jobDone` is set, of the shown job's non-zero video id |
| `Client.ChooseKeepsInv` | frontend/src/App.jsx:46-54 | choosing a file keeps the invariant and adds at most one fetch, only while `jobDone` is set and for the shown job's non-zero video id |
| `Client.UploadReplyKeepsInv` | frontend/src/App.jsx:64-81 | the upload reply keeps the invariant |
| `Client.TickKeepsInv` | frontend/src/App.jsx:68-81 | a poll keeps the invariant |
| `Client.DetectionsKeepInv` | frontend/src/App.jsx:90-96 | a detections response keeps the invariant and the fetch log |
| `Client.StepKeepsInv` | frontend/src/App.jsx:46-99 | every event keeps the invariant; the handle counter never goes back; the fetch log only grows, by at most one fetch, made only while `jobDone` is set and of the shown job's non-zero video id, whatever that job's status |
| `Client.ClearedStaysCleared` | frontend/src/App.jsx:73-80 | once an interval is cleared it stays cleared whatever happens next |
| `Client.UploadsNeverCancel` | frontend/src/App.jsx:46-81 | uploads only add intervals; no upload removes an earlier one |
| `Client.StaleIntervalOverwritesJob` | frontend/src/App.jsx:68-81 | after a second upload the first upload's interval is still live, and its tick replaces the view with the first job |
| `Client.StaleDoneFetchesProcessingVideo` | frontend/src/App.jsx:68-99 | after two uploads the first interval's "done" sets `jobDone`, and a "processing" reply for the second job that carries a video id starts a second fetch while "processing" is shown |
| `Client.PollUntilDone` | frontend/src/App.jsx:46-99 | queued, processing, processing, done: polling stops, `jobDone` is set, the toggle is enabled, and exactly one detections fetch is made |
| `Client.RefusedUploadPollsForever` | frontend/src/App.jsx:64-81 | replies without a status (the 404 body for `/jobs/undefined` after a refused upload) never clear the interval and start no fetch |

## Left out

- Rounding: `round(...)` of the timestamps, the coordinates and the mean dwell is not modelled. Rows and the summary carry exact values.
- `process_video`: YOLO/ByteTrack inference, video writing and heatmap computation are an opaque step that returns a video id or raises. `backend/app/core/audit.py` and the audit-log routes are also opaque: they are an outcome parameter that returns or raises.
- `cv2.pointPolygonTest` is a parameter `inside`, not a geometry. Whether OpenCV accepts a given array shape is not part of this model.
- Threads: the worker is one sequential step. Interleavings of two workers, and races on the shared `jobs` dict, are not modelled.
- File I/O: the upload's bytes, `FileResponse` and `os.makedirs` are not modelled. `os.path.exists` is a parameter.
- FastAPI's own handling is not modelled. A request without a `file` part gets a 422 validation response before the route runs.
- Payload types are not modelled: in the model, `video_id` is an int, `name` is a string and `points` is a list of number pairs. A body with other types raises inside NumPy or the ORM.
- `Paths.Lower`: only A–Z and the Kelvin sign U+212A are lower-cased. Python's `str.lower` also maps other non-ASCII characters, for example `É` to `é` and `İ` to two characters. Each of those results still contains a non-ASCII character, so it can never equal one of the four extensions, and acceptance is unaffected. An accepted extension is the same in Python and in the model.
- `Paths.Ext`: POSIX `splitext` only. The Windows variant also treats `\` as a path separator.
- `RoiRoute.WrapInt32`: NumPy's conversion of an out-of-range float to int32 is platform-dependent. The model fixes it as truncation followed by a 32-bit wrap, and proves only the in-range behaviour in `RoiRoute.Int32Polygon`.
- `Jobs.RunProcessing`: the outcome of the `video_processing_failed` audit write in the `except` branch is not a parameter. It runs after the last assignment, so it changes no job state.
- `Client.OnTick`: a tick is the interval firing and its reply arriving together. Several polls in flight for one interval, and their replies crossing, are not modelled.
- Transport failures on the client are not modelled: a rejected `fetch`, or a body that is not JSON. The model covers only responses that parse.
- `Client.OnDetections`: the fetched list replaces the table as received. Its rows are not checked against the backend route.
- JSX layout and styles are left out. So is the `videoRef` handle, which no modelled logic reads.

## Findings

| source | as written | input that shows it | evidently intended | confidence | as-written member | corrected member |
|---|---|---|---|---|---|---|
| main.py:111-113 | `job = jobs[job_id]` raises KeyError for an unknown id, so the `if not job` 404 branch can never run | GET /jobs/x on an empty registry | `jobs.get(job_id)`, answering 404 "Job not found" | high; not executed | `Monolith.NoJobNotFound` | `Monolith.IntendedMonoJobStatus` |
