/**
 * The single-file server (main.py): the same job lifecycle, upload, media and
 * detection routes with its own job registry, no audit logging, error
 * details on its 400 and 404 responses, and a job lookup that indexes the
 * registry directly.
 */
module Monolith {
  import opened Records
  import opened Paths
  import opened Jobs
  import opened Query
  import opened DetectionsRoute
  import opened Media

  /**
   * `run_processing(job)` of main.py: like the modular worker but with no
   * audit write inside the `try`, so the only failure is the processor's.
   */
  function MonoRunProcessing(job: JobState, proc: Outcome<int>): (trace: seq<JobState>)
    ensures |trace| >= 2
    ensures trace[0] == job.(status := Processing)
    ensures forall i :: 0 <= i < |trace| ==>
      trace[i].jobId == job.jobId && trace[i].videoPath == job.videoPath && DoneHasVideo(trace[i])
    ensures Last(trace).status == Done <==> proc.Returned?
    ensures proc.Returned? ==> Last(trace).videoId == Some(proc.value) && Last(trace).error == job.error
    ensures proc.Raised? ==> Last(trace).videoId == job.videoId && Last(trace).error == Some(proc.message)
  {
    var p := job.(status := Processing);
    match proc
    case Raised(e) =>
      var failed := p.(status := Failed);
      [p, failed, failed.(error := Some(e))]
    case Returned(vid) =>
      var withId := p.(videoId := Some(vid));
      [p, withId, withId.(status := Done)]
  }

  /**
   * Once main.py's worker reports `done` the job never changes again, and a
   * failed job never gains a video id; neither holds of the modular worker.
   */
  lemma DoneIsFinal(job: JobState, proc: Outcome<int>)
    requires job.videoId.None?
    ensures var t := MonoRunProcessing(job, proc);
      && (forall i, j :: 0 <= i < j < |t| && t[i].status == Done ==> t[j] == t[i])
      && (Last(t).status == Failed ==> Last(t).videoId.None?)
  {
    var t := MonoRunProcessing(job, proc);
    assert |t| == 3 && t[0].status != Done && t[1].status != Done;
  }

  /** The same run under the modular worker: `done`, then `failed` with a video id. */
  lemma ModularWorkerDiffers()
    ensures var job := NewJob("j", "uploads/j.mp4");
      var mono := MonoRunProcessing(job, Returned(7));
      var modular := RunProcessing(job, Returned(7), Raised("database is locked"));
      && Last(mono).status == Done
      && Last(modular).status == Failed && Last(modular).videoId == Some(7)
  {
  }

  /** The 400 of main.py for a refused name, with its detail text. */
  function Refusal(reason: Rejection): Failure {
    match reason
    case NoFilename => HttpError(400, Some("No filename provided"))
    case UnsupportedFormat => HttpError(400, Some("Unsupported video format"))
  }

  /** The registry, the response and the started worker after main.py's POST /upload. */
  datatype MonoUploaded = MonoUploaded(jobs: Registry, response: Result<string>, worker: Option<string>)

  /**
   * POST /upload of main.py: the same checks as the modular route but with
   * detail texts, and no audit write, so an accepted and written file always
   * registers a queued job and starts its worker.
   */
  function MonoUpload(jobs: Registry, filename: Option<string>, jobId: string, write: Outcome<()>): (u: MonoUploaded)
    ensures (filename.None? || filename.value == []) ==>
      u == MonoUploaded(jobs, Err(HttpError(400, Some("No filename provided"))), None)
    ensures filename.Some? && filename.value != [] && CheckFilename(filename).Rejected? ==>
      u == MonoUploaded(jobs, Err(HttpError(400, Some("Unsupported video format"))), None)
    ensures CheckFilename(filename).Accepted? && write.Raised? ==>
      u == MonoUploaded(jobs, Err(Unhandled(write.message)), None)
    ensures CheckFilename(filename).Accepted? && write.Returned? ==>
      u == MonoUploaded(jobs[jobId := NewJob(jobId, UploadPath(jobId, CheckFilename(filename).ext))], Ok(jobId), Some(jobId))
  {
    match CheckFilename(filename)
    case Rejected(reason) => MonoUploaded(jobs, Err(Refusal(reason)), None)
    case Accepted(ext) =>
      if write.Raised? then MonoUploaded(jobs, Err(Unhandled(write.message)), None)
      else MonoUploaded(jobs[jobId := NewJob(jobId, UploadPath(jobId, ext))], Ok(jobId), Some(jobId))
  }

  /**
   * Both servers accept and refuse the same uploads and register the same
   * job; they differ only in the 400 details and in main.py having no audit
   * write that could fail after registration.
   */
  lemma UploadsAgree(jobs: Registry, filename: Option<string>, jobId: string, write: Outcome<()>)
    ensures var mono := MonoUpload(jobs, filename, jobId, write);
      var modular := UploadVideo(jobs, filename, jobId, write, Returned(()));
      && mono.jobs == modular.jobs
      && mono.response.Ok? == modular.response.Ok?
      && (mono.response.Ok? ==> mono.response == modular.response)
      && (modular.response == Err(BadRequest) <==> mono.response.Err? && mono.response.failure.HttpError?)
      && (mono.response.Err? && mono.response.failure.HttpError? ==>
            mono.response.failure.code == 400 && mono.response.failure.detail.Some?)
  {
  }

  /**
   * GET /jobs/{job_id} of main.py: `jobs[job_id]` raises KeyError for an
   * unknown id, so the request fails unhandled; a registered job is always
   * truthy and is reported as it is.
   */
  function MonoJobStatus(jobs: Registry, jobId: string): (r: Result<StatusReply>)
    ensures r.Err? <==> jobId !in jobs
    ensures r.Err? ==> r.failure.Unhandled?
    ensures r.Ok? ==>
      var j := jobs[jobId];
      r.value == StatusReply(j.jobId, StatusName(j.status), j.videoId, j.error)
  {
    if jobId !in jobs then Err(Unhandled("KeyError"))
    else
      var j := jobs[jobId];
      Ok(StatusReply(j.jobId, StatusName(j.status), j.videoId, j.error))
  }

  /**
   * main.py's job lookup never answers 404, "Job not found" or otherwise; it
   * agrees with the modular lookup on every registered id and fails
   * differently on every unknown one.
   */
  lemma NoJobNotFound(jobs: Registry, jobId: string)
    ensures !(MonoJobStatus(jobs, jobId).Err? && MonoJobStatus(jobs, jobId).failure.HttpError?)
    ensures jobId in jobs ==> MonoJobStatus(jobs, jobId) == JobStatus(jobs, jobId)
    ensures jobId !in jobs ==> JobStatus(jobs, jobId) == Err(NotFound) && MonoJobStatus(jobs, jobId) != JobStatus(jobs, jobId)
  {
  }

  /**
   * The lookup main.py evidently intends: `jobs.get(job_id)`, so that an
   * unknown id reaches its 404 "Job not found" branch.
   */
  function IntendedMonoJobStatus(jobs: Registry, jobId: string): (r: Result<StatusReply>)
    ensures r.Err? <==> jobId !in jobs
    ensures r.Err? ==> r.failure == HttpError(404, Some("Job not found"))
    ensures r.Ok? ==> r == MonoJobStatus(jobs, jobId) && r == JobStatus(jobs, jobId)
  {
    if jobId !in jobs then Err(HttpError(404, Some("Job not found")))
    else
      var j := jobs[jobId];
      Ok(StatusReply(j.jobId, StatusName(j.status), j.videoId, j.error))
  }

  /** GET /video/{job_id} of main.py: 404 "Video not ready" unless finished; no file check. */
  function MonoGetVideo(jobs: Registry, jobId: string): (r: Result<Served>)
    ensures r.Ok? <==> jobId in jobs && jobs[jobId].status == Done
    ensures r.Ok? ==> r.value == Served(OutputPath(jobs[jobId].jobId), "video/mp4")
    ensures r.Err? ==> r.failure == HttpError(404, Some("Video not ready"))
  {
    if jobId !in jobs || jobs[jobId].status != Done then Err(HttpError(404, Some("Video not ready")))
    else Ok(Served(OutputDir + "/" + jobs[jobId].jobId + ".mp4", "video/mp4"))
  }

  /** GET /heatmap/{job_id} of main.py: 404 "Image not ready" unless finished. */
  function MonoGetHeatmap(jobs: Registry, jobId: string): (r: Result<Served>)
    ensures r.Ok? <==> jobId in jobs && jobs[jobId].status == Done
    ensures r.Ok? ==> r.value == Served(HeatmapPath(jobs[jobId].jobId), "image/png")
    ensures r.Err? ==> r.failure == HttpError(404, Some("Image not ready"))
  {
    if jobId !in jobs || jobs[jobId].status != Done then Err(HttpError(404, Some("Image not ready")))
    else Ok(Served(OutputDir + "/" + jobs[jobId].jobId + ".png", "image/png"))
  }

  /**
   * GET /detections/{video_id} of main.py: the modular query with no ROI
   * filter, so every detection of the video, ROI-tagged or not, is eligible.
   */
  function MonoGetDetections(ds: seq<Detection>, videoId: int): (rows: seq<Row>)
    ensures |rows| <= MaxRows
    ensures forall i, j :: 0 <= i < j < |rows| ==> rows[i].timestamp <= rows[j].timestamp
  {
    GetDetections(ds, videoId, None)
  }

  /**
   * Every row of main.py's detection list comes from a detection of the
   * requested video, whatever its ROI, and when at most 500 detections belong
   * to the video every one of them is listed.
   */
  lemma MonoDetectionsComplete(ds: seq<Detection>, videoId: int)
    ensures var rows := MonoGetDetections(ds, videoId);
      && (forall i :: 0 <= i < |rows| ==> exists d :: d in ds && d.videoId == videoId && rows[i] == Project(d))
      && (|Filter(ds, videoId, None)| <= MaxRows ==>
            forall d :: d in ds && d.videoId == videoId ==> Project(d) in rows)
  {
    var rows := MonoGetDetections(ds, videoId);
    var q := Selected(ds, videoId, None);
    forall i | 0 <= i < |rows|
      ensures exists d :: d in ds && d.videoId == videoId && rows[i] == Project(d)
    {
      assert q[i] in multiset(Filter(ds, videoId, None));
      assert q[i] in Filter(ds, videoId, None);
    }
    if |Filter(ds, videoId, None)| <= MaxRows {
      forall d | d in ds && d.videoId == videoId ensures Project(d) in rows {
        SmallResultIsComplete(ds, videoId, None, d);
      }
    }
  }
}
