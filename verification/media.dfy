/**
 * GET /video/{job_id} and GET /heatmap/{job_id} of the modular backend: files
 * served only for a job of the shared registry whose status is `done`.
 */
module Media {
  import opened Records
  import opened Jobs

  /** A file response: the path served and its media type. */
  datatype Served = Served(path: string, mediaType: string)

  /** Whether `jobId` names a finished job. */
  predicate Finished(jobs: Registry, jobId: string) {
    jobId in jobs && jobs[jobId].status == Done
  }

  /**
   * GET /video/{job_id}. `fileExists` stands for `os.path.exists`. The path is
   * built from the job's own id; 404 unless the job is finished and that file
   * exists.
   */
  function GetVideo(jobs: Registry, jobId: string, fileExists: string -> bool): (r: Result<Served>)
    ensures r.Ok? <==> Finished(jobs, jobId) && fileExists(OutputPath(jobs[jobId].jobId))
    ensures r.Ok? ==> r.value == Served(OutputPath(jobs[jobId].jobId), "video/mp4")
    ensures r.Err? ==> r.failure == NotFound
  {
    if !Finished(jobs, jobId) then Err(NotFound)
    else
      var path := OutputDir + "/" + jobs[jobId].jobId + ".mp4";
      if !fileExists(path) then Err(NotFound) else Ok(Served(path, "video/mp4"))
  }

  /** Where the worker writes the heatmap of a job. */
  function HeatmapPath(jobId: string): string {
    OutputDir + "/" + jobId + ".png"
  }

  /** GET /heatmap/{job_id}: 404 unless the job is finished; the file is not checked. */
  function GetHeatmap(jobs: Registry, jobId: string): (r: Result<Served>)
    ensures r.Ok? <==> Finished(jobs, jobId)
    ensures r.Ok? ==> r.value == Served(HeatmapPath(jobs[jobId].jobId), "image/png")
    ensures r.Err? ==> r.failure == NotFound
  {
    if !Finished(jobs, jobId) then Err(NotFound)
    else Ok(Served(OutputDir + "/" + jobs[jobId].jobId + ".png", "image/png"))
  }

  /**
   * In a well-formed registry the served files are the ones the worker for
   * the requested id writes, and a job being served has a processed video;
   * a heatmap is served whenever the annotated video is.
   */
  lemma MediaFollowsWorker(jobs: Registry, jobId: string, fileExists: string -> bool)
    requires WellFormed(jobs)
    ensures GetVideo(jobs, jobId, fileExists).Ok? ==>
      && GetVideo(jobs, jobId, fileExists).value.path == OutputPath(jobId)
      && jobs[jobId].videoId.Some?
      && GetHeatmap(jobs, jobId).Ok?
    ensures GetHeatmap(jobs, jobId).Ok? ==>
      GetHeatmap(jobs, jobId).value.path == HeatmapPath(jobId) && jobs[jobId].videoId.Some?
    ensures GetVideo(jobs, jobId, fileExists).Ok? <==> GetHeatmap(jobs, jobId).Ok? && fileExists(OutputPath(jobId))
  {
  }

  /**
   * A run whose processing returns but whose audit write raises is reported
   * `done` on the way to `failed`, and while it is `done` its heatmap is
   * served.
   */
  lemma HeatmapServedBeforeAuditFailure()
    ensures var jobs := map["j" := NewJob("j", "uploads/j.mp4")];
      var states := Process(jobs, "j", Returned(7), Raised("database is locked"));
      && GetHeatmap(states[2], "j").Ok?
      && Last(states)["j"].status == Failed
  {
    var jobs := map["j" := NewJob("j", "uploads/j.mp4")];
    var states := Process(jobs, "j", Returned(7), Raised("database is locked"));
    var trace := RunProcessing(jobs["j"], Returned(7), Raised("database is locked"));
    assert states[2]["j"] == trace[2];
    assert Last(states)["j"] == Last(trace);
  }

  /**
   * No media is served at any point of a worker run whose processing raised,
   * nor at any point before a successful run reports `done`.
   */
  lemma NoMediaBeforeDone(jobs: Registry, jobId: string, proc: Outcome<int>, log: Outcome<()>, fileExists: string -> bool)
    requires WellFormed(jobs)
    requires jobId in jobs
    ensures var states := Process(jobs, jobId, proc, log);
      forall i :: 0 <= i < |states| && (proc.Raised? || i < 2) ==>
        GetVideo(states[i], jobId, fileExists).Err? && GetHeatmap(states[i], jobId).Err?
  {
    var states := Process(jobs, jobId, proc, log);
    var trace := RunProcessing(jobs[jobId], proc, log);
    forall i | 0 <= i < |states| && (proc.Raised? || i < 2)
      ensures !Finished(states[i], jobId)
    {
      assert states[i][jobId] == trace[i];
    }
  }
}
