/**
 * The ScheduledSnapshot reconciler. In distributed mode it only creates or updates the CronJob
 * that runs the worker on the schedule. Inline, it waits until the next cron instant after the
 * last snapshot (or after one minute ago when there was none), captures the target, diffs it
 * against the previous capture when there is one, uploads, rotates the status and requeues for
 * the next instant. The cron schedule, the clock, storage and the browser are inputs.
 */
module ScheduledController {
  import opened Wrappers
  import opened Fraction
  import opened ApiTypes
  import LineDiff
  import opened SnapshotPipeline
  import opened WorkerArgs
  import GoFlag
  import WorkerCli
  import WorkerInvocation
  import opened ScheduledProcessing

  const Second: int := 1000000000
  const Minute: int := 60 * Second

  datatype Fetch = Fetched | Missing | FetchFailed(msg: string)

  // ---------------------------------------------------------------- cron job

  datatype CronJobSpec = CronJobSpec(schedule: string, image: string, args: seq<string>)

  /** A CronJob: its metadata (name, namespace, and whatever else the cluster keeps there) and its spec. */
  datatype CronJob = CronJob(name: string, namespace: string, metadata: string, spec: CronJobSpec)

  /** What the Get of the CronJob's name gives. */
  datatype CronLookup = CronFound(existing: CronJob) | CronMissing | CronLookupFailed(msg: string)

  datatype Config = Config(distributed: bool, callbackHost: string, workerImage: string, group: string, version: string)

  /** "snapshot-<name>": one CronJob per ScheduledSnapshot. */
  function CronJobName(name: string): (s: string)
    ensures |s| == 9 + |name| && s[9..] == name
  {
    "snapshot-" + name
  }

  /** Different ScheduledSnapshots own different CronJobs. */
  lemma CronJobNamesDiffer(a: string, b: string)
    requires a != b
    ensures CronJobName(a) != CronJobName(b)
  {
    assert CronJobName(a)[9..] == a;
  }

  /**
   * The CronJob createOrUpdateCronJob wants, as written: the worker with the target as both
   * URLs first, then the formats, the callback URL under "--callback-url", the selectors and
   * the headers.
   */
  function DesiredCronJob(name: string, namespace: string, spec: ScheduledSnapshotSpec, cfg: Config, order: seq<string>): (c: CronJob)
    requires IsKeyOrder(spec.headers, order)
    ensures c.name == CronJobName(name) && c.namespace == namespace && c.metadata == ""
    ensures c.spec.schedule == spec.schedule && c.spec.image == cfg.workerImage
    ensures |c.spec.args| == 8 + |MaskArgs(spec.maskSelectors)| + 2 * |spec.headers|
    ensures c.spec.args[..2] == [spec.target, spec.target]
    ensures c.spec.args[6..8] == ["--callback-url", CallbackURL(cfg.callbackHost, namespace, cfg.group, cfg.version, "scheduledsnapshot", name)]
  {
    CronJob(CronJobName(name), namespace, "",
            CronJobSpec(spec.schedule, cfg.workerImage,
                        Args(spec.target, spec.target, spec.screenshotDiffFormat, spec.htmlDiffFormat,
                             "--callback-url", CallbackURL(cfg.callbackHost, namespace, cfg.group, cfg.version, "scheduledsnapshot", name),
                             spec.maskSelectors, spec.headers, order)))
  }

  /**
   * The worker the CronJob starts stops at the first URL, sees every later argument as a URL
   * too, and exits with status 1 (Finding 1 in README).
   */
  lemma CronJobRejected(name: string, namespace: string, spec: ScheduledSnapshotSpec, cfg: Config,
                        order: seq<string>, env: WorkerCli.Env)
    requires IsKeyOrder(spec.headers, order) && !GoFlag.LooksLikeFlag(spec.target)
    ensures WorkerCli.Invoke(DesiredCronJob(name, namespace, spec, cfg, order).spec.args, env)
            == WorkerCli.Stop(1, "want exactly two URLs")
  {
    WorkerInvocation.AsWrittenArgsRejected(spec.target, spec.target, spec.screenshotDiffFormat, spec.htmlDiffFormat,
                                           "--callback-url",
                                           CallbackURL(cfg.callbackHost, namespace, cfg.group, cfg.version, "scheduledsnapshot", name),
                                           spec.maskSelectors, spec.headers, order, env);
  }

  /** How createOrUpdateCronJob ends: the CronJob it wrote, and whether it created it. */
  datatype CronWrite = CronWrite(cronJob: CronJob, created: bool)

  /**
   * createOrUpdateCronJob: a missing CronJob is created; an existing one keeps its metadata and
   * has only its spec replaced; a failed lookup is an error.
   */
  function AppliedCronJob(desired: CronJob, lookup: CronLookup, write: Write): (r: Result<CronWrite>)
    ensures r.Ok? && r.value.created ==> lookup.CronMissing? && r.value.cronJob == desired
    ensures r.Ok? && !r.value.created ==>
              lookup.CronFound? && r.value.cronJob == lookup.existing.(spec := desired.spec)
    ensures lookup.CronLookupFailed? ==> r == Err("failed to get existing cronjob: " + lookup.msg)
    ensures !lookup.CronLookupFailed? ==> (r.Ok? <==> write.Accepted?)
  {
    match lookup
    case CronLookupFailed(m) => Err("failed to get existing cronjob: " + m)
    case CronMissing =>
      if write.Rejected? then Err("failed to create cronjob: " + write.msg) else Ok(CronWrite(desired, true))
    case CronFound(existing) =>
      if write.Rejected? then Err("failed to update cronjob: " + write.msg)
      else Ok(CronWrite(existing.(spec := desired.spec), false))
  }

  /** Applying the same desired CronJob to what a previous apply wrote changes nothing more. */
  lemma ApplyIdempotent(desired: CronJob, lookup: CronLookup, write: Write)
    requires AppliedCronJob(desired, lookup, write).Ok?
    ensures var c := AppliedCronJob(desired, lookup, write).value.cronJob;
            AppliedCronJob(desired, CronFound(c), Accepted) == Ok(CronWrite(c, false))
  {
  }

  /** createOrUpdateCronJob step by step: build the args, then look up, then create or update. */
  method CreateOrUpdateCronJob(scheduled: ScheduledSnapshot, cfg: Config, order: seq<string>, lookup: CronLookup, write: Write)
    returns (r: Result<CronWrite>)
    requires IsKeyOrder(scheduled.spec.headers, order)
    ensures r == AppliedCronJob(DesiredCronJob(scheduled.name, scheduled.namespace, scheduled.spec, cfg, order), lookup, write)
  {
    var spec := scheduled.spec;
    var args := BuildArgs(spec.target, spec.target, spec.screenshotDiffFormat, spec.htmlDiffFormat,
                          "--callback-url", CallbackURL(cfg.callbackHost, scheduled.namespace, cfg.group, cfg.version,
                                                        "scheduledsnapshot", scheduled.name),
                          spec.maskSelectors, spec.headers, order);
    var desired := CronJob(CronJobName(scheduled.name), scheduled.namespace, "",
                           CronJobSpec(spec.schedule, cfg.workerImage, args));
    match lookup {
      case CronLookupFailed(m) =>
        return Err("failed to get existing cronjob: " + m);
      case CronMissing =>
        if write.Rejected? {
          return Err("failed to create cronjob: " + write.msg);
        }
        return Ok(CronWrite(desired, true));
      case CronFound(existing) =>
        var updated := existing.(spec := desired.spec);
        if write.Rejected? {
          return Err("failed to update cronjob: " + write.msg);
        }
        return Ok(CronWrite(updated, false));
    }
  }

  // ---------------------------------------------------------------- requeue decision

  /** The instant the next snapshot is due: the cron instant after the last one, or after a minute ago. */
  function NextRun(next: int -> int, last: Option<int>, now: int): int
  {
    match last
    case Some(t) => next(t)
    case None => next(now - Minute)
  }

  /** After a snapshot the reconcile comes back at the cron instant following now. */
  function RequeueAfter(next: int -> int, now: int): int
  {
    next(now) - now
  }

  /** Before the due instant the reconcile waits exactly until it; from then on it takes a snapshot. */
  datatype Timing = WaitFor(after: int) | Due

  function Timed(next: int -> int, last: Option<int>, now: int): (t: Timing)
    ensures t.WaitFor? <==> now < NextRun(next, last, now)
    ensures t.WaitFor? ==> t.after > 0 && now + t.after == NextRun(next, last, now)
  {
    var nextRun := NextRun(next, last, now);
    if now < nextRun then WaitFor(nextRun - now) else Due
  }

  // ---------------------------------------------------------------- reconcile

  /** How a reconcile ends when it does not fail. */
  datatype Work =
    | NoWork                                      // the resource is gone
    | CronJobApplied(write: CronWrite)            // distributed mode
    | Waiting(requeueAfter: int)                  // not due yet
    | Took(capture: Capture, requeueAfter: int)   // a snapshot was taken

  /** The outside world of one reconcile; schedule is the parse of the spec's cron expression. */
  datatype World = World(
    fetch: Fetch,
    schedule: Result<int -> int>,
    now: int,
    svc: Services,
    get: string -> Result<Bytes>,
    statusWrite: Write,
    headerOrder: seq<string>,
    cronLookup: CronLookup,
    cronWrite: Write)

  /** One reconcile as a function of the stored status: the new stored status and the result. */
  function ScheduledReconciled(name: string, namespace: string, spec: ScheduledSnapshotSpec, st: ScheduledSnapshotStatus,
                               cfg: Config, w: World): (ScheduledSnapshotStatus, Result<Work>)
    requires IsKeyOrder(spec.headers, w.headerOrder)
  {
    match w.fetch
    case Missing => (st, Ok(NoWork))
    case FetchFailed(m) => (st, Err(m))
    case Fetched =>
      if cfg.distributed then
        match AppliedCronJob(DesiredCronJob(name, namespace, spec, cfg, w.headerOrder), w.cronLookup, w.cronWrite)
        case Err(m) => (st, Err(m))
        case Ok(c) => (st, Ok(CronJobApplied(c)))
      else
        match w.schedule
        case Err(m) => (st, Err(m))
        case Ok(next) => InlineReconciled(spec, st, next, w)
  }

  /** The inline path once the schedule is known: wait, or take a snapshot and rotate the status. */
  function InlineReconciled(spec: ScheduledSnapshotSpec, st: ScheduledSnapshotStatus, next: int -> int, w: World)
    : (r: (ScheduledSnapshotStatus, Result<Work>))
  {
    match Timed(next, st.lastSnapshotTime, w.now)
    case WaitFor(after) => (st, Ok(Waiting(after)))
    case Due => Landed(st, ScheduledProcessed(spec, AsWrittenBaselines(st), w.svc, w.get), w.statusWrite, w.now, RequeueAfter(next, w.now))
  }

  /** After the capture: the status write decides whether the rotation lands. */
  function Landed(st: ScheduledSnapshotStatus, processed: Result<Capture>, write: Write, now: int, requeueAfter: int)
    : (r: (ScheduledSnapshotStatus, Result<Work>))
    ensures r.1.Ok? <==> processed.Ok? && write.Accepted?
    ensures r.1.Ok? ==> r == (Rotated(st, processed.value, now), Ok(Took(processed.value, requeueAfter)))
    ensures r.1.Err? ==> r.0 == st
  {
    match processed
    case Err(m) => (st, Err(m))
    case Ok(cap) =>
      match write
      case Rejected(m) => (st, Err("failed to update scheduled snapshot status: " + m))
      case Accepted => (Rotated(st, cap, now), Ok(Took(cap, requeueAfter)))
  }
}
