/**
 * The background-job side of the modular backend: the `JobState` record, the
 * worker's `run_processing` transitions, and the in-memory job registry that
 * POST /upload fills and GET /jobs/{job_id} reads.
 */
module Jobs {
  import opened Records
  import opened Paths

  const UploadDir: string := "uploads"
  const OutputDir: string := "outputs"

  datatype Status = Queued | Processing | Done | Failed

  /** The status string the API reports. */
  function StatusName(s: Status): (name: string)
    ensures name in {"queued", "processing", "done", "failed"}
    ensures name == "done" <==> s == Done
    ensures name == "failed" <==> s == Failed
  {
    match s
    case Queued => "queued"
    case Processing => "processing"
    case Done => "done"
    case Failed => "failed"
  }

  datatype JobState = JobState(jobId: string, videoPath: string, videoId: Option<int>, status: Status, error: Option<string>)

  /** `JobState(job_id, video_path)`: queued, with no video id and no error. */
  function NewJob(jobId: string, videoPath: string): (j: JobState)
    ensures j.jobId == jobId && j.videoPath == videoPath
    ensures j.status == Queued && j.videoId.None? && j.error.None?
  {
    JobState(jobId, videoPath, None, Queued, None)
  }

  /** A finished job always knows the id of its processed video. */
  predicate DoneHasVideo(j: JobState) {
    j.status == Done ==> j.videoId.Some?
  }

  /** The status changes one assignment of `run_processing` can make. */
  predicate Transition(a: Status, b: Status) {
    a == b || (a == Processing && (b == Done || b == Failed)) || (a == Done && b == Failed)
  }

  function Last<T>(s: seq<T>): T
    requires |s| > 0
  {
    s[|s| - 1]
  }

  /**
   * `run_processing(job, db, output_path)`, as the sequence of job states a
   * concurrent status poll can observe, one per assignment. `proc` is what
   * `process_video` does and `log` what the `video_processed` audit write
   * does; both sit inside the `try`. The audit write in the `except` branch
   * runs after the last assignment, so its outcome changes no state.
   */
  function RunProcessing(job: JobState, proc: Outcome<int>, log: Outcome<()>): (trace: seq<JobState>)
    ensures |trace| >= 2
    ensures trace[0] == job.(status := Processing)
    ensures forall i :: 0 <= i < |trace| ==>
      trace[i].jobId == job.jobId && trace[i].videoPath == job.videoPath && DoneHasVideo(trace[i])
    ensures forall i :: 0 < i < |trace| ==> Transition(trace[i - 1].status, trace[i].status)
    ensures Last(trace).status == Done || Last(trace).status == Failed
    ensures Last(trace).status == Done <==> proc.Returned? && log.Returned?
    ensures proc.Returned? ==> Last(trace).videoId == Some(proc.value)
    ensures proc.Raised? ==> Last(trace).videoId == job.videoId && Last(trace).error == Some(proc.message)
    ensures proc.Returned? && log.Raised? ==> Last(trace).error == Some(log.message)
    ensures Last(trace).status == Done ==> Last(trace).error == job.error
  {
    var p := job.(status := Processing);
    match proc
    case Raised(e) =>
      var failed := p.(status := Failed);
      [p, failed, failed.(error := Some(e))]
    case Returned(vid) =>
      var withId := p.(videoId := Some(vid));
      var done := withId.(status := Done);
      match log
      case Returned(_) => [p, withId, done]
      case Raised(e) =>
        var failed := done.(status := Failed);
        [p, withId, done, failed, failed.(error := Some(e))]
  }

  /**
   * The converse of "done implies a video id" does not hold for failures: a
   * job whose audit write fails after processing ends `failed` with its video
   * id set, having been reported `done` first.
   */
  lemma FailedJobMayHaveVideo()
    ensures var t := RunProcessing(NewJob("j", "uploads/j.mp4"), Returned(7), Raised("database is locked"));
      && Last(t).status == Failed && Last(t).videoId == Some(7)
      && exists i :: 0 <= i < |t| && t[i].status == Done
  {
    var t := RunProcessing(NewJob("j", "uploads/j.mp4"), Returned(7), Raised("database is locked"));
    assert t[2].status == Done;
  }

  /** The in-memory registry: job id to job. */
  type Registry = map<string, JobState>

  /** Every job is filed under its own id, and every finished job has a video. */
  predicate WellFormed(jobs: Registry) {
    forall id :: id in jobs ==> jobs[id].jobId == id && DoneHasVideo(jobs[id])
  }

  /** The handle of the worker thread an upload starts. */
  datatype Worker = Worker(jobId: string, outputPath: string)

  /** The registry, the response and the started worker after POST /upload. */
  datatype Uploaded = Uploaded(jobs: Registry, response: Result<string>, worker: Option<Worker>)

  /** Where an accepted upload is stored. */
  function UploadPath(jobId: string, ext: string): string {
    UploadDir + "/" + jobId + ext
  }

  /** Where the worker writes the annotated video of a job. */
  function OutputPath(jobId: string): string {
    OutputDir + "/" + jobId + ".mp4"
  }

  /**
   * POST /upload. `jobId` stands for the fresh `uuid4`, `write` for saving the
   * file and `log` for the `video_uploaded` audit write. A refused name is a
   * bare 400 with nothing registered; a failed write registers nothing; a
   * failed audit write leaves the job registered and queued but starts no
   * worker; otherwise the worker starts and the id is returned.
   */
  function UploadVideo(jobs: Registry, filename: Option<string>, jobId: string, write: Outcome<()>, log: Outcome<()>): (u: Uploaded)
    ensures CheckFilename(filename).Rejected? ==> u == Uploaded(jobs, Err(BadRequest), None)
    ensures CheckFilename(filename).Accepted? && write.Raised? ==>
      u == Uploaded(jobs, Err(Unhandled(write.message)), None)
    ensures CheckFilename(filename).Accepted? && write.Returned? ==>
      && u.jobs == jobs[jobId := NewJob(jobId, UploadPath(jobId, CheckFilename(filename).ext))]
      && (log.Returned? ==> u.response == Ok(jobId) && u.worker == Some(Worker(jobId, OutputPath(jobId))))
      && (log.Raised? ==> u.response == Err(Unhandled(log.message)) && u.worker.None?)
  {
    match CheckFilename(filename)
    case Rejected(_) => Uploaded(jobs, Err(BadRequest), None)
    case Accepted(ext) =>
      if write.Raised? then Uploaded(jobs, Err(Unhandled(write.message)), None)
      else
        var jobs' := jobs[jobId := NewJob(jobId, UploadPath(jobId, ext))];
        if log.Raised? then Uploaded(jobs', Err(Unhandled(log.message)), None)
        else Uploaded(jobs', Ok(jobId), Some(Worker(jobId, OutputPath(jobId))))
  }

  /**
   * An upload registers a job exactly when the name is accepted and the file
   * is written; the registry is otherwise untouched, the new job is queued,
   * its stored extension is one of the video extensions, and the registry
   * stays well formed. The id is a fresh `uuid4`, so not yet in use.
   */
  lemma UploadRegistersOnlyAccepted(jobs: Registry, filename: Option<string>, jobId: string, write: Outcome<()>, log: Outcome<()>)
    requires WellFormed(jobs)
    requires jobId !in jobs
    ensures var u := UploadVideo(jobs, filename, jobId, write, log);
      && WellFormed(u.jobs)
      && (u.jobs == jobs <==> !(CheckFilename(filename).Accepted? && write.Returned?))
      && (forall id :: id != jobId ==> (id in u.jobs <==> id in jobs) && (id in jobs ==> u.jobs[id] == jobs[id]))
      && (u.jobs != jobs ==>
            && jobId in u.jobs && u.jobs[jobId].status == Queued
            && exists ext :: ext in VideoExtensions && u.jobs[jobId].videoPath == UploadPath(jobId, ext))
      && (u.response.Ok? ==> u.jobs != jobs && u.response.value == jobId)
  {
    var u := UploadVideo(jobs, filename, jobId, write, log);
    if CheckFilename(filename).Accepted? && write.Returned? {
      var ext := CheckFilename(filename).ext;
      assert u.jobs[jobId] == NewJob(jobId, UploadPath(jobId, ext));
      assert jobId in u.jobs.Keys - jobs.Keys;
    }
  }

  /** The body of GET /jobs/{job_id}. */
  datatype StatusReply = StatusReply(jobId: string, status: string, videoId: Option<int>, error: Option<string>)

  /** GET /jobs/{job_id}: 404 for an unknown id, else that job's fields as they are. */
  function JobStatus(jobs: Registry, jobId: string): (r: Result<StatusReply>)
    ensures r.Err? <==> jobId !in jobs
    ensures r.Err? ==> r.failure == NotFound
    ensures r.Ok? ==>
      var j := jobs[jobId];
      && r.value.jobId == j.jobId && r.value.videoId == j.videoId && r.value.error == j.error
      && r.value.status == StatusName(j.status)
  {
    if jobId !in jobs then Err(NotFound)
    else
      var j := jobs[jobId];
      Ok(StatusReply(j.jobId, StatusName(j.status), j.videoId, j.error))
  }

  /** The registry as seen after each assignment of the worker for `jobId`. */
  function Process(jobs: Registry, jobId: string, proc: Outcome<int>, log: Outcome<()>): (states: seq<Registry>)
    requires jobId in jobs
    ensures |states| == |RunProcessing(jobs[jobId], proc, log)|
    ensures forall i :: 0 <= i < |states| ==>
      states[i] == jobs[jobId := RunProcessing(jobs[jobId], proc, log)[i]]
  {
    var trace := RunProcessing(jobs[jobId], proc, log);
    seq(|trace|, i requires 0 <= i < |trace| => jobs[jobId := trace[i]])
  }

  /**
   * Every registry a poll can see while a worker runs is well formed, holds the
   * same job ids, and differs from the start only in the worker's own job.
   * A status reply of "done" therefore always carries a video id.
   */
  lemma ProcessKeepsRegistryWellFormed(jobs: Registry, jobId: string, proc: Outcome<int>, log: Outcome<()>)
    requires WellFormed(jobs)
    requires jobId in jobs
    ensures forall i :: 0 <= i < |Process(jobs, jobId, proc, log)| ==>
      var s := Process(jobs, jobId, proc, log)[i];
      && WellFormed(s)
      && s.Keys == jobs.Keys
      && (forall id :: id in jobs && id != jobId ==> s[id] == jobs[id])
      && (JobStatus(s, jobId).value.status == "done" ==> JobStatus(s, jobId).value.videoId.Some?)
  {
    var states := Process(jobs, jobId, proc, log);
    var trace := RunProcessing(jobs[jobId], proc, log);
    forall i | 0 <= i < |states|
      ensures WellFormed(states[i]) && states[i].Keys == jobs.Keys
    {
      assert states[i] == jobs[jobId := trace[i]];
      assert trace[i].jobId == jobId;
    }
  }
}
