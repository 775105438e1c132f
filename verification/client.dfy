/**
 * The dashboard's upload-and-poll logic (the App component) as an event-driven
 * state machine. Each event is one callback running to completion followed
 * by one render, after which the detections effect runs if its dependencies
 * `[jobDone, job?.video_id]` changed.
 */
module Client {
  import opened Records
  import opened DetectionsRoute

  /**
   * What `setJob` stores: the placeholder set after an upload, or a status
   * reply parsed from JSON. A field absent from the JSON (or null) is `None`.
   */
  datatype JobView = JobView(jobId: Option<string>, status: Option<string>, videoId: Option<int>)

  /** The dependency list of the detections effect. */
  datatype Deps = Deps(jobDone: bool, videoId: Option<int>)

  /**
   * The component state plus what the model needs to see of the outside: the
   * live intervals (handle to the job id each polls), the next handle, the
   * detection fetches started (by video id, in order) and those unanswered,
   * and the dependencies the effect last ran with.
   */
  datatype Client = Client(
    job: Option<JobView>,
    uploading: bool,
    detections: seq<Row>,
    jobDone: bool,
    showHeatmap: bool,
    intervals: map<nat, Option<string>>,
    nextInterval: nat,
    fetches: seq<int>,
    pending: multiset<int>,
    deps: Deps)

  /** The first render: nothing uploaded; the effect ran once and did nothing. */
  const Initial: Client := Client(None, false, [], false, false, map[], 0, [], multiset{}, Deps(false, None))

  datatype Event =
    | Choose(hasFile: bool)                        // the file input's onChange
    | UploadReply(jobId: Option<string>)           // the POST /upload body; `job_id` absent on an error body
    | Tick(interval: nat, reply: JobView)          // an interval fires and its GET /jobs reply arrives
    | DetectionsReply(videoId: int, rows: seq<Row>)
    | ToggleHeatmap

  /** JavaScript truthiness of `job?.video_id`: present and not 0. */
  predicate Truthy(v: Option<int>) {
    v.Some? && v.value != 0
  }

  function DepsOf(c: Client): Deps {
    Deps(c.jobDone, if c.job.Some? then c.job.value.videoId else None)
  }

  /** The condition of the effect body: `jobDone && job?.video_id`. */
  predicate ShouldFetch(d: Deps) {
    d.jobDone && Truthy(d.videoId)
  }

  /**
   * The render after a state change: the effect re-runs when its dependencies
   * differ from the last run, and then starts a fetch of the video's
   * detections when `jobDone` is set and the job shown has a non-zero video
   * id. Nothing else changes.
   */
  function Render(c: Client): (r: Client)
    ensures r.deps == DepsOf(r) && DepsOf(r) == DepsOf(c)
    ensures r.(deps := c.deps, fetches := c.fetches, pending := c.pending) == c
    ensures |r.fetches| == |c.fetches| + 1 <==> c.deps != DepsOf(c) && ShouldFetch(DepsOf(c))
    ensures |r.fetches| > |c.fetches| ==>
      && ShouldFetch(DepsOf(c))
      && r.fetches == c.fetches + [DepsOf(c).videoId.value]
      && r.pending == c.pending + multiset{DepsOf(c).videoId.value}
    ensures |r.fetches| == |c.fetches| ==> r.fetches == c.fetches && r.pending == c.pending
  {
    var d := DepsOf(c);
    if d == c.deps then c
    else if ShouldFetch(d) then
      c.(deps := d, fetches := c.fetches + [d.videoId.value], pending := c.pending + multiset{d.videoId.value})
    else c.(deps := d)
  }

  /**
   * `handleUpload`: without a file nothing happens (the input is also disabled
   * while uploading); otherwise the view is reset and `uploading` set. No
   * interval is cancelled.
   */
  function OnChoose(c: Client, hasFile: bool): (r: Client)
    ensures !hasFile || c.uploading ==> r == c
    ensures hasFile && !c.uploading ==>
      && r.uploading && r.job.None? && r.detections == [] && !r.jobDone && !r.showHeatmap
      && r.intervals == c.intervals && r.nextInterval == c.nextInterval
      && r.fetches == c.fetches && r.pending == c.pending
  {
    if !hasFile || c.uploading then c
    else Render(c.(uploading := true, job := None, detections := [], jobDone := false, showHeatmap := false))
  }

  /**
   * The upload response: the job placeholder shows the returned id as queued,
   * `uploading` ends, and a new interval polling that id starts alongside
   * every interval already live.
   */
  function OnUploadReply(c: Client, jobId: Option<string>): (r: Client)
    ensures !c.uploading ==> r == c
    ensures c.uploading ==>
      && r.job == Some(JobView(jobId, Some("queued"), None)) && !r.uploading
      && r.intervals == c.intervals[c.nextInterval := jobId]
      && r.nextInterval == c.nextInterval + 1
      && r.detections == c.detections && r.jobDone == c.jobDone && r.showHeatmap == c.showHeatmap
  {
    if !c.uploading then c
    else
      Render(c.(job := Some(JobView(jobId, Some("queued"), None)), uploading := false,
                intervals := c.intervals[c.nextInterval := jobId], nextInterval := c.nextInterval + 1))
  }

  /**
   * One poll of a live interval: the reply replaces the job view wholesale;
   * "done" clears that interval and sets `jobDone`; "failed" clears it and
   * leaves `jobDone` as it was; any other reply keeps polling. A cleared
   * interval never fires again.
   */
  function OnTick(c: Client, t: nat, reply: JobView): (r: Client)
    ensures t !in c.intervals ==> r == c
    ensures t in c.intervals ==>
      && r.job == Some(reply)
      && r.uploading == c.uploading && r.detections == c.detections && r.showHeatmap == c.showHeatmap
      && r.nextInterval == c.nextInterval
      && r.jobDone == (c.jobDone || reply.status == Some("done"))
      && (reply.status == Some("done") || reply.status == Some("failed") ==> r.intervals == c.intervals - {t})
      && (reply.status != Some("done") && reply.status != Some("failed") ==> r.intervals == c.intervals)
  {
    if t !in c.intervals then c
    else
      var c1 := c.(job := Some(reply));
      var c2 := if reply.status == Some("done") then c1.(jobDone := true, intervals := c.intervals - {t}) else c1;
      var c3 := if reply.status == Some("failed") then c2.(intervals := c.intervals - {t}) else c2;
      Render(c3)
  }

  /** A detections response replaces the table; only a started, unanswered fetch can answer. */
  function OnDetections(c: Client, videoId: int, rows: seq<Row>): (r: Client)
    ensures videoId !in c.pending ==> r == c
    ensures videoId in c.pending ==>
      r == c.(detections := rows, pending := c.pending - multiset{videoId})
  {
    if videoId !in c.pending then c
    else c.(detections := rows, pending := c.pending - multiset{videoId})
  }

  /** The heatmap button exists only for a "done" job and is disabled until `jobDone`. */
  predicate ToggleEnabled(c: Client) {
    c.job.Some? && c.job.value.status == Some("done") && c.jobDone
  }

  function OnToggle(c: Client): (r: Client)
    ensures r.showHeatmap == (c.showHeatmap != ToggleEnabled(c))
    ensures r.(showHeatmap := c.showHeatmap) == c
  {
    if ToggleEnabled(c) then c.(showHeatmap := !c.showHeatmap) else c
  }

  function Step(c: Client, e: Event): Client {
    match e
    case Choose(hasFile) => OnChoose(c, hasFile)
    case UploadReply(jobId) => OnUploadReply(c, jobId)
    case Tick(t, reply) => OnTick(c, t, reply)
    case DetectionsReply(videoId, rows) => OnDetections(c, videoId, rows)
    case ToggleHeatmap => OnToggle(c)
  }

  function Run(c: Client, es: seq<Event>): Client
    decreases |es|
  {
    if |es| == 0 then c else Run(Step(c, es[0]), es[1..])
  }

  /**
   * Every live interval handle was issued, the effect's dependencies are those
   * of the current state, and every unanswered fetch was started.
   */
  predicate Inv(c: Client) {
    && (forall t :: t in c.intervals ==> t < c.nextInterval)
    && c.deps == DepsOf(c)
    && c.pending <= multiset(c.fetches)
  }

  lemma InitialInv()
    ensures Inv(Initial)
  {
  }

  /** The render keeps the invariant of any state whose handles and fetches are in order. */
  lemma RenderKeepsInv(c: Client)
    requires forall t :: t in c.intervals ==> t < c.nextInterval
    requires c.pending <= multiset(c.fetches)
    ensures Inv(Render(c))
  {
    var r := Render(c);
    if |r.fetches| > |c.fetches| {
      var v := DepsOf(c).videoId.value;
      assert multiset(r.fetches) == multiset(c.fetches) + multiset{v};
    }
  }

  /**
   * What a step does to the fetch log: at most one new fetch, made while
   * `jobDone` is set, of the non-zero video id of the job shown.
   */
  predicate FetchStep(c: Client, r: Client) {
    && |c.fetches| <= |r.fetches| <= |c.fetches| + 1
    && r.fetches[..|c.fetches|] == c.fetches
    && (|r.fetches| > |c.fetches| ==>
          r.jobDone && r.job.Some? && r.job.value.videoId == Some(r.fetches[|c.fetches|]) && r.fetches[|c.fetches|] != 0)
  }

  /** The fetch-log part of `StepKeepsInv`, for a step that ends in a render. */
  lemma RenderFetchStep(c: Client, c': Client)
    requires c'.fetches == c.fetches
    ensures FetchStep(c, Render(c'))
  {
    var r := Render(c');
    assert r.fetches[..|c.fetches|] == c.fetches;
  }

  lemma ChooseKeepsInv(c: Client, hasFile: bool)
    requires Inv(c)
    ensures Inv(OnChoose(c, hasFile)) && FetchStep(c, OnChoose(c, hasFile))
  {
    if hasFile && !c.uploading {
      var c' := c.(uploading := true, job := None, detections := [], jobDone := false, showHeatmap := false);
      RenderKeepsInv(c');
      RenderFetchStep(c, c');
    } else {
      assert c.fetches[..|c.fetches|] == c.fetches;
    }
  }

  lemma UploadReplyKeepsInv(c: Client, jobId: Option<string>)
    requires Inv(c)
    ensures Inv(OnUploadReply(c, jobId)) && FetchStep(c, OnUploadReply(c, jobId))
  {
    if c.uploading {
      var c' := c.(job := Some(JobView(jobId, Some("queued"), None)), uploading := false,
                   intervals := c.intervals[c.nextInterval := jobId], nextInterval := c.nextInterval + 1);
      RenderKeepsInv(c');
      RenderFetchStep(c, c');
    } else {
      assert c.fetches[..|c.fetches|] == c.fetches;
    }
  }

  lemma TickKeepsInv(c: Client, t: nat, reply: JobView)
    requires Inv(c)
    ensures Inv(OnTick(c, t, reply)) && FetchStep(c, OnTick(c, t, reply))
  {
    if t in c.intervals {
      var c1 := c.(job := Some(reply));
      var c2 := if reply.status == Some("done") then c1.(jobDone := true, intervals := c.intervals - {t}) else c1;
      var c3 := if reply.status == Some("failed") then c2.(intervals := c.intervals - {t}) else c2;
      RenderKeepsInv(c3);
      RenderFetchStep(c, c3);
    } else {
      assert c.fetches[..|c.fetches|] == c.fetches;
    }
  }

  lemma DetectionsKeepInv(c: Client, videoId: int, rows: seq<Row>)
    requires Inv(c)
    ensures Inv(OnDetections(c, videoId, rows)) && FetchStep(c, OnDetections(c, videoId, rows))
  {
    assert c.fetches[..|c.fetches|] == c.fetches;
    if videoId in c.pending {
      assert c.pending - multiset{videoId} <= c.pending;
    }
  }

  /**
   * Every event keeps the invariant, never takes back a started fetch, starts
   * at most one, and starts one only while `jobDone` is set, for the non-zero
   * video id of the job shown. The flag is sticky until the next upload, so the
   * job shown need not be "done" itself.
   */
  lemma StepKeepsInv(c: Client, e: Event)
    requires Inv(c)
    ensures Inv(Step(c, e)) && Step(c, e).nextInterval >= c.nextInterval && FetchStep(c, Step(c, e))
  {
    match e
    case Choose(hasFile) => ChooseKeepsInv(c, hasFile);
    case UploadReply(jobId) => UploadReplyKeepsInv(c, jobId);
    case Tick(t, reply) => TickKeepsInv(c, t, reply);
    case DetectionsReply(v, rows) => DetectionsKeepInv(c, v, rows);
    case ToggleHeatmap => assert c.fetches[..|c.fetches|] == c.fetches;
  }

  /**
   * A cleared interval stays cleared whatever happens next: a finished or
   * failed job's polling is over for good, and its handle is never reused.
   */
  lemma {:induction false} ClearedStaysCleared(c: Client, es: seq<Event>, t: nat)
    requires Inv(c)
    requires t < c.nextInterval && t !in c.intervals
    ensures t !in Run(c, es).intervals
    decreases |es|
  {
    if |es| > 0 {
      var c' := Step(c, es[0]);
      StepKeepsInv(c, es[0]);
      assert t !in c'.intervals;
      ClearedStaysCleared(c', es[1..], t);
    }
  }

  /** Uploads add intervals and never remove one: only a tick's reply clears an interval. */
  lemma {:induction false} UploadsNeverCancel(c: Client, es: seq<Event>)
    requires forall i :: 0 <= i < |es| ==> es[i].Choose? || es[i].UploadReply?
    ensures c.intervals.Keys <= Run(c, es).intervals.Keys
    decreases |es|
  {
    if |es| > 0 {
      var c' := Step(c, es[0]);
      assert c.intervals.Keys <= c'.intervals.Keys;
      UploadsNeverCancel(c', es[1..]);
    }
  }

  /**
   * A second upload leaves the first upload's interval running, and its next
   * tick overwrites the view with the first job's status.
   */
  lemma StaleIntervalOverwritesJob()
    ensures var es := [Choose(true), UploadReply(Some("a")), Choose(true), UploadReply(Some("b")),
                       Tick(0, JobView(Some("a"), Some("processing"), None))];
      var c := Run(Initial, es);
      && c.intervals == map[0 := Some("a"), 1 := Some("b")]
      && c.job == Some(JobView(Some("a"), Some("processing"), None))
  {
    var c1 := Step(Initial, Choose(true));
    var c2 := Step(c1, UploadReply(Some("a")));
    var c3 := Step(c2, Choose(true));
    var c4 := Step(c3, UploadReply(Some("b")));
    var c5 := Step(c4, Tick(0, JobView(Some("a"), Some("processing"), None)));
    assert c4.intervals == map[0 := Some("a"), 1 := Some("b")];
    assert Run(c4, [Tick(0, JobView(Some("a"), Some("processing"), None))]) == c5;
  }

  /**
   * `jobDone` outlives the job that set it: after a second upload the first
   * upload's interval reports "done" and sets the flag, and a "processing"
   * reply for the second job that already carries a video id (the worker sets
   * the id before the status) starts a second fetch while "processing" is shown.
   */
  lemma StaleDoneFetchesProcessingVideo()
    ensures var es := [Choose(true), UploadReply(Some("a")), Choose(true), UploadReply(Some("b")),
                       Tick(0, JobView(Some("a"), Some("done"), Some(5))),
                       Tick(1, JobView(Some("b"), Some("processing"), Some(9)))];
      var c := Run(Initial, es);
      && c.fetches == [5, 9] && c.jobDone
      && c.job == Some(JobView(Some("b"), Some("processing"), Some(9)))
      && c.intervals == map[1 := Some("b")]
  {
    var c1 := Step(Initial, Choose(true));
    var c2 := Step(c1, UploadReply(Some("a")));
    var c3 := Step(c2, Choose(true));
    var c4 := Step(c3, UploadReply(Some("b")));
    var c5 := Step(c4, Tick(0, JobView(Some("a"), Some("done"), Some(5))));
    var c6 := Step(c5, Tick(1, JobView(Some("b"), Some("processing"), Some(9))));
    assert c2.intervals == map[0 := Some("a")] && c2.fetches == [] && !c2.jobDone;
    assert c4.intervals == map[0 := Some("a"), 1 := Some("b")] && c4.fetches == [] && !c4.jobDone;
    assert c4.deps == DepsOf(c4);
    assert c5.fetches == [5] && c5.intervals == map[1 := Some("b")] && c5.jobDone;
    assert c6.fetches == [5, 9];
    assert Run(c5, [Tick(1, JobView(Some("b"), Some("processing"), Some(9)))]) == c6;
  }

  /**
   * The usual run: queued, processing, processing, done. The interval is
   * cleared, the job is done, the heatmap toggle is enabled, and the
   * detections of its video are fetched exactly once.
   */
  lemma PollUntilDone()
    ensures var es := [Choose(true), UploadReply(Some("a")),
                       Tick(0, JobView(Some("a"), Some("queued"), None)),
                       Tick(0, JobView(Some("a"), Some("processing"), None)),
                       Tick(0, JobView(Some("a"), Some("processing"), None)),
                       Tick(0, JobView(Some("a"), Some("done"), Some(7)))];
      var c := Run(Initial, es);
      && c.intervals == map[] && c.jobDone && c.fetches == [7] && ToggleEnabled(c)
  {
    var c2 := Step(Step(Initial, Choose(true)), UploadReply(Some("a")));
    var c3 := Step(c2, Tick(0, JobView(Some("a"), Some("queued"), None)));
    var c4 := Step(c3, Tick(0, JobView(Some("a"), Some("processing"), None)));
    var c5 := Step(c4, Tick(0, JobView(Some("a"), Some("processing"), None)));
    var c6 := Step(c5, Tick(0, JobView(Some("a"), Some("done"), Some(7))));
    assert c2.intervals == map[0 := Some("a")];
    assert c5.fetches == [] && !c5.jobDone && c5.intervals == map[0 := Some("a")];
    assert c6.intervals == map[];
    assert Run(c5, [Tick(0, JobView(Some("a"), Some("done"), Some(7)))]) == c6;
  }

  /**
   * When the upload is refused the body has no `job_id`, the interval polls
   * `/jobs/undefined`, and the 404 body has no `status`: that interval is
   * never cleared and no detections are ever fetched.
   */
  lemma {:induction false} RefusedUploadPollsForever(c: Client, t: nat, n: nat)
    requires t in c.intervals
    ensures var es := seq(n, i => Tick(t, JobView(None, None, None)));
      var r := Run(c, es);
      && t in r.intervals && r.jobDone == c.jobDone
      && (c.deps == DepsOf(c) ==> r.fetches == c.fetches)
    decreases n
  {
    var es := seq(n, i => Tick(t, JobView(None, None, None)));
    if n > 0 {
      var c' := Step(c, es[0]);
      assert es[1..] == seq(n - 1, i => Tick(t, JobView(None, None, None)));
      RefusedUploadPollsForever(c', t, n - 1);
    }
  }
}
