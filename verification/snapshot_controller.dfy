/**
 * The Snapshot reconciler. A reconcile fetches the resource, stops when its generation has
 * already been observed, records the generation in the status first, and then either submits a
 * worker Job (distributed mode) or captures, diffs and uploads inline and overwrites the
 * status with the eight artifact fields. The Snapshot object stands for the copy the API
 * server stores: a status write that the server rejects leaves it as it was.
 */
module SnapshotController {
  import opened Wrappers
  import opened StringUtil
  import opened ApiTypes
  import opened SnapshotPipeline
  import opened WorkerArgs
  import GoFlag
  import WorkerCli
  import WorkerInvocation

  /** What the Get of the reconciled name gives. */
  datatype Fetch = Fetched | Missing | FetchFailed(msg: string)

  /** What the API server answers to one status update. */
  datatype Write = Accepted | Rejected(msg: string)

  /** What the API server answers to a Job creation. */
  datatype CreateOutcome = Created | AlreadyExists | CreateFailed(msg: string)

  /** The reconciler's settings; group and version are those of the API group the resource belongs to. */
  datatype Config = Config(distributed: bool, callbackHost: string, workerImage: string, group: string, version: string)

  /** The parts of the worker Job the model keeps: its name, namespace, image and argument list. */
  datatype Job = Job(name: string, namespace: string, image: string, args: seq<string>)

  /** The work one reconcile did. */
  datatype Work = NoWork | JobSubmitted(job: Job) | SnapshotTaken(artifacts: Artifacts)

  /**
   * The outside world of one reconcile: the API server's answers, the clock (as Unix seconds
   * for the Job name and as an instant for the status), the order Go visits the header map in,
   * and the capture and storage services.
   */
  datatype World = World(
    fetch: Fetch,
    guardWrite: Write,
    create: CreateOutcome,
    statusWrite: Write,
    unix: nat,
    now: int,
    headerOrder: seq<string>,
    svc: Services)

  // ---------------------------------------------------------------- status

  /** updateSnapshotStatus's writes: every artifact field and the snapshot time; the generation stays. */
  function Overwritten(st: SnapshotStatus, a: Artifacts, now: int): (r: SnapshotStatus)
    ensures r.baselineURL == a.baselineURL && r.targetURL == a.targetURL
    ensures r.baselineHTMLURL == a.baselineHTMLURL && r.targetHTMLURL == a.targetHTMLURL
    ensures r.screenshotDiffURL == a.screenshotDiffURL && r.screenshotDiffAmount == a.screenshotDiffAmount
    ensures r.htmlDiffURL == a.htmlDiffURL && r.htmlDiffAmount == a.htmlDiffAmount
    ensures r.lastSnapshotTime == Some(now)
    ensures r.observedGeneration == st.observedGeneration
  {
    st.(baselineURL := a.baselineURL, targetURL := a.targetURL, baselineHTMLURL := a.baselineHTMLURL,
        targetHTMLURL := a.targetHTMLURL, screenshotDiffURL := a.screenshotDiffURL,
        screenshotDiffAmount := a.screenshotDiffAmount, htmlDiffURL := a.htmlDiffURL,
        htmlDiffAmount := a.htmlDiffAmount, lastSnapshotTime := Some(now))
  }

  /** Overwriting twice with the same artifacts and instant is overwriting once. */
  lemma OverwriteIdempotent(st: SnapshotStatus, a: Artifacts, now: int)
    ensures Overwritten(Overwritten(st, a, now), a, now) == Overwritten(st, a, now)
  {
  }

  /** The artifact part of a status: the eight fields the worker's output reports. */
  function ArtifactsOf(st: SnapshotStatus): Artifacts
  {
    Artifacts(st.baselineURL, st.targetURL, st.baselineHTMLURL, st.targetHTMLURL,
              st.screenshotDiffURL, st.screenshotDiffAmount, st.htmlDiffURL, st.htmlDiffAmount)
  }

  /** The status reads back exactly the artifacts written into it. */
  lemma OverwrittenArtifacts(st: SnapshotStatus, a: Artifacts, now: int)
    ensures ArtifactsOf(Overwritten(st, a, now)) == a
  {
  }

  /** updateSnapshotStatus on the stored object: the overwrite lands only when the server accepts it. */
  method UpdateSnapshotStatus(snapshot: Snapshot, a: Artifacts, now: int, write: Write) returns (r: Result<()>)
    modifies snapshot
    ensures write.Accepted? ==> r == Ok(()) && snapshot.status == Overwritten(old(snapshot.status), a, now)
    ensures write.Rejected? ==> r == Err("failed to update snapshot status: " + write.msg) && snapshot.status == old(snapshot.status)
  {
    if write.Rejected? {
      return Err("failed to update snapshot status: " + write.msg);
    }
    snapshot.status := Overwritten(snapshot.status, a, now);
    r := Ok(());
  }

  // ---------------------------------------------------------------- job

  /** "snapshot-<name>-<unix seconds>". */
  function JobName(name: string, unix: nat): (s: string)
    ensures |s| > 10 + |name| && s[..9] == "snapshot-"
  {
    "snapshot-" + name + "-" + Itoa(unix)
  }

  /** Jobs for the same Snapshot made in different seconds have different names. */
  lemma JobNamesDiffer(name: string, unix1: nat, unix2: nat)
    requires unix1 != unix2
    ensures JobName(name, unix1) != JobName(name, unix2)
  {
    var prefix := "snapshot-" + name + "-";
    assert JobName(name, unix1) == prefix + Itoa(unix1);
    assert JobName(name, unix2) == prefix + Itoa(unix2);
    if JobName(name, unix1) == JobName(name, unix2) {
      assert Itoa(unix1) == JobName(name, unix1)[|prefix|..];
      assert Itoa(unix2) == JobName(name, unix2)[|prefix|..];
      ItoaValue(unix1);
      ItoaValue(unix2);
    }
  }

  /** The callback URL a Snapshot's worker PATCHes its artifacts to. */
  function SnapshotCallbackURL(cfg: Config, namespace: string, name: string): string
  {
    CallbackURL(cfg.callbackHost, namespace, cfg.group, cfg.version, "snapshot", name)
  }

  /**
   * createJob's Job as written: the baseline and target URLs first, then the formats, the
   * callback URL under "--callback", the selectors and the headers.
   */
  function JobFor(name: string, namespace: string, spec: SnapshotSpec, cfg: Config, unix: nat, order: seq<string>): (job: Job)
    requires IsKeyOrder(spec.headers, order)
    ensures job.name == JobName(name, unix) && job.namespace == namespace && job.image == cfg.workerImage
    ensures |job.args| == 8 + |MaskArgs(spec.maskSelectors)| + 2 * |spec.headers|
    ensures job.args[..2] == [spec.baseline, spec.target]
    ensures job.args[6..8] == ["--callback", SnapshotCallbackURL(cfg, namespace, name)]
  {
    Job(JobName(name, unix), namespace, cfg.workerImage,
        Args(spec.baseline, spec.target, spec.screenshotDiffFormat, spec.htmlDiffFormat,
             "--callback", SnapshotCallbackURL(cfg, namespace, name), spec.maskSelectors, spec.headers, order))
  }

  /**
   * The worker started by such a Job stops at the baseline URL, sees every later argument as a
   * URL too, and exits with status 1 (Finding 1 in README).
   */
  lemma SubmittedJobRejected(name: string, namespace: string, spec: SnapshotSpec, cfg: Config, unix: nat,
                             order: seq<string>, env: WorkerCli.Env)
    requires IsKeyOrder(spec.headers, order) && !GoFlag.LooksLikeFlag(spec.baseline)
    ensures WorkerCli.Invoke(JobFor(name, namespace, spec, cfg, unix, order).args, env)
            == WorkerCli.Stop(1, "want exactly two URLs")
  {
    WorkerInvocation.AsWrittenArgsRejected(spec.baseline, spec.target, spec.screenshotDiffFormat, spec.htmlDiffFormat,
                                           "--callback", SnapshotCallbackURL(cfg, namespace, name),
                                           spec.maskSelectors, spec.headers, order, env);
  }

  /** createJob: build the Job, then create it; an existing Job of that name counts as success. */
  method CreateJob(snapshot: Snapshot, cfg: Config, unix: nat, order: seq<string>, create: CreateOutcome)
    returns (r: Result<Job>)
    requires IsKeyOrder(snapshot.spec.headers, order)
    ensures r == (if create.CreateFailed? then Err("failed to create job: " + create.msg)
                  else Ok(JobFor(snapshot.name, snapshot.namespace, snapshot.spec, cfg, unix, order)))
  {
    var spec := snapshot.spec;
    var args := BuildArgs(spec.baseline, spec.target, spec.screenshotDiffFormat, spec.htmlDiffFormat,
                          "--callback", SnapshotCallbackURL(cfg, snapshot.namespace, snapshot.name),
                          spec.maskSelectors, spec.headers, order);
    var job := Job(JobName(snapshot.name, unix), snapshot.namespace, cfg.workerImage, args);
    match create
    case CreateFailed(m) => return Err("failed to create job: " + m);
    case AlreadyExists => return Ok(job);
    case Created => return Ok(job);
  }

  // ---------------------------------------------------------------- reconcile

  /**
   * One reconcile as a function of the stored status: the new stored status and the result.
   * A failure after the guard write keeps the recorded generation.
   */
  function Reconciled(name: string, namespace: string, generation: int, spec: SnapshotSpec, st: SnapshotStatus,
                      cfg: Config, w: World): (SnapshotStatus, Result<Work>)
    requires IsKeyOrder(spec.headers, w.headerOrder)
  {
    match w.fetch
    case Missing => (st, Ok(NoWork))
    case FetchFailed(m) => (st, Err(m))
    case Fetched =>
      if st.observedGeneration >= generation then (st, Ok(NoWork))
      else
        match w.guardWrite
        case Rejected(m) => (st, Err(m))
        case Accepted =>
          var guarded := st.(observedGeneration := generation);
          if cfg.distributed then
            match w.create
            case CreateFailed(m) => (guarded, Err("failed to create job: " + m))
            case _ => (guarded, Ok(JobSubmitted(JobFor(name, namespace, spec, cfg, w.unix, w.headerOrder))))
          else
            match Processed(spec.baseline, spec.target, spec.screenshotDiffFormat, spec.htmlDiffFormat,
                      OptionsFor(spec.maskSelectors, spec.headers), w.svc)
            case Err(m) => (guarded, Err(m))
            case Ok(a) =>
              match w.statusWrite
              case Rejected(m) => (guarded, Err("failed to update snapshot status: " + m))
              case Accepted => (Overwritten(guarded, a, w.now), Ok(SnapshotTaken(a)))
  }

  /** Reconcile on the stored object, step by step. */
  method Reconcile(snapshot: Snapshot, cfg: Config, w: World) returns (r: Result<Work>)
    requires IsKeyOrder(snapshot.spec.headers, w.headerOrder)
    modifies snapshot
    ensures (snapshot.status, r) ==
            Reconciled(snapshot.name, snapshot.namespace, snapshot.generation, snapshot.spec, old(snapshot.status), cfg, w)
  {
    if w.fetch.Missing? {
      return Ok(NoWork);
    }
    if w.fetch.FetchFailed? {
      return Err(w.fetch.msg);
    }
    if snapshot.status.observedGeneration >= snapshot.generation {
      return Ok(NoWork);
    }
    if w.guardWrite.Rejected? {
      return Err(w.guardWrite.msg);
    }
    snapshot.status := snapshot.status.(observedGeneration := snapshot.generation);
    if cfg.distributed {
      var job := CreateJob(snapshot, cfg, w.unix, w.headerOrder, w.create);
      if job.Err? {
        return Err(job.msg);
      }
      return Ok(JobSubmitted(job.value));
    }
    var spec := snapshot.spec;
    var processed := ProcessSnapshot(spec.baseline, spec.target, spec.screenshotDiffFormat, spec.htmlDiffFormat,
                                     OptionsFor(spec.maskSelectors, spec.headers), w.svc);
    if processed.Err? {
      return Err(processed.msg);
    }
    var updated := UpdateSnapshotStatus(snapshot, processed.value, w.now, w.statusWrite);
    if updated.Err? {
      return Err(updated.msg);
    }
    r := Ok(SnapshotTaken(processed.value));
  }

  // ---------------------------------------------------------------- properties

  /** A resource that is gone ends the reconcile with no error and nothing changed. */
  lemma MissingIsNoOp(name: string, namespace: string, generation: int, spec: SnapshotSpec, st: SnapshotStatus,
                      cfg: Config, w: World)
    requires IsKeyOrder(spec.headers, w.headerOrder) && w.fetch.Missing?
    ensures Reconciled(name, namespace, generation, spec, st, cfg, w) == (st, Ok(NoWork))
  {
  }

  /** An observed generation at or past the resource's own means nothing is done and nothing changes. */
  lemma GenerationGuard(name: string, namespace: string, generation: int, spec: SnapshotSpec, st: SnapshotStatus,
                        cfg: Config, w: World)
    requires IsKeyOrder(spec.headers, w.headerOrder) && !w.fetch.FetchFailed?
    requires st.observedGeneration >= generation
    ensures Reconciled(name, namespace, generation, spec, st, cfg, w) == (st, Ok(NoWork))
  {
  }

  /** The observed generation never goes down, and it reaches the generation whenever the guard write lands. */
  lemma ObservedGenerationAdvances(name: string, namespace: string, generation: int, spec: SnapshotSpec,
                                   st: SnapshotStatus, cfg: Config, w: World)
    requires IsKeyOrder(spec.headers, w.headerOrder)
    ensures var st' := Reconciled(name, namespace, generation, spec, st, cfg, w).0;
            st'.observedGeneration >= st.observedGeneration &&
            (w.fetch.Fetched? && w.guardWrite.Accepted? ==> st'.observedGeneration >= generation)
  {
  }

  /**
   * Once a reconcile has recorded the generation, every later reconcile of that generation is a
   * no-op, whatever the world answers, even when the first one failed after the guard write:
   * a generation is worked on at most once.
   */
  lemma AtMostOncePerGeneration(name: string, namespace: string, generation: int, spec: SnapshotSpec,
                                st: SnapshotStatus, cfg: Config, w1: World, w2: World)
    requires IsKeyOrder(spec.headers, w1.headerOrder) && IsKeyOrder(spec.headers, w2.headerOrder)
    requires w1.fetch.Fetched? && w1.guardWrite.Accepted? && !w2.fetch.FetchFailed?
    ensures var st1 := Reconciled(name, namespace, generation, spec, st, cfg, w1).0;
            Reconciled(name, namespace, generation, spec, st1, cfg, w2) == (st1, Ok(NoWork))
  {
    ObservedGenerationAdvances(name, namespace, generation, spec, st, cfg, w1);
  }

  /**
   * In distributed mode the reconcile never captures and never writes artifacts: at most the
   * generation is recorded, and a successful reconcile submitted the Job (an existing Job included).
   */
  lemma DistributedSubmitsOnly(name: string, namespace: string, generation: int, spec: SnapshotSpec,
                               st: SnapshotStatus, cfg: Config, w: World)
    requires IsKeyOrder(spec.headers, w.headerOrder) && cfg.distributed
    ensures var (st', r) := Reconciled(name, namespace, generation, spec, st, cfg, w);
            ArtifactsOf(st') == ArtifactsOf(st) && st'.lastSnapshotTime == st.lastSnapshotTime &&
            (r.Ok? && r.value != NoWork ==> r.value == JobSubmitted(JobFor(name, namespace, spec, cfg, w.unix, w.headerOrder))) &&
            (w.fetch.Fetched? && st.observedGeneration < generation && w.guardWrite.Accepted? ==>
               (r.Ok? <==> !w.create.CreateFailed?))
  {
  }

  /**
   * Inline mode with every step succeeding: the stored status holds the new generation and
   * exactly the processed artifacts, stamped with the reconcile's instant.
   */
  lemma InlineSnapshot(name: string, namespace: string, generation: int, spec: SnapshotSpec,
                       st: SnapshotStatus, cfg: Config, w: World)
    requires IsKeyOrder(spec.headers, w.headerOrder) && !cfg.distributed
    requires w.fetch.Fetched? && st.observedGeneration < generation
    requires w.guardWrite.Accepted? && w.statusWrite.Accepted?
    requires Processed(spec.baseline, spec.target, spec.screenshotDiffFormat, spec.htmlDiffFormat,
                      OptionsFor(spec.maskSelectors, spec.headers), w.svc).Ok?
    ensures var a := Processed(spec.baseline, spec.target, spec.screenshotDiffFormat, spec.htmlDiffFormat,
                      OptionsFor(spec.maskSelectors, spec.headers), w.svc).value;
            var (st', r) := Reconciled(name, namespace, generation, spec, st, cfg, w);
            r == Ok(SnapshotTaken(a)) && ArtifactsOf(st') == a &&
            st'.observedGeneration == generation && st'.lastSnapshotTime == Some(w.now)
  {
    var a := Processed(spec.baseline, spec.target, spec.screenshotDiffFormat, spec.htmlDiffFormat,
                      OptionsFor(spec.maskSelectors, spec.headers), w.svc).value;
    OverwrittenArtifacts(st.(observedGeneration := generation), a, w.now);
  }
}
