/**
 * The ScheduledSnapshot reconciler on the stored object, step by step, proved against the
 * reconcile function of ScheduledController, and what that function promises across runs.
 */
module ScheduledReconciler {
  import opened Wrappers
  import opened Fraction
  import opened ApiTypes
  import opened SnapshotPipeline
  import opened WorkerArgs
  import opened ScheduledProcessing
  import opened ScheduledController

  /** Reconcile on the stored object, step by step. */
  method Reconcile(scheduled: ScheduledSnapshot, cfg: Config, w: World) returns (r: Result<Work>)
    requires IsKeyOrder(scheduled.spec.headers, w.headerOrder)
    modifies scheduled
    ensures (scheduled.status, r) ==
            ScheduledReconciled(scheduled.name, scheduled.namespace, scheduled.spec, old(scheduled.status), cfg, w)
  {
    if w.fetch.Missing? {
      return Ok(NoWork);
    }
    if w.fetch.FetchFailed? {
      return Err(w.fetch.msg);
    }
    if cfg.distributed {
      var c := CreateOrUpdateCronJob(scheduled, cfg, w.headerOrder, w.cronLookup, w.cronWrite);
      if c.Err? {
        return Err(c.msg);
      }
      return Ok(CronJobApplied(c.value));
    }
    if w.schedule.Err? {
      return Err(w.schedule.msg);
    }
    r := ReconcileInline(scheduled, w.schedule.value, w);
  }

  /** The inline path of Reconcile on the stored object. */
  method ReconcileInline(scheduled: ScheduledSnapshot, next: int -> int, w: World) returns (r: Result<Work>)
    modifies scheduled
    ensures (scheduled.status, r) == InlineReconciled(scheduled.spec, old(scheduled.status), next, w)
  {
    var st := scheduled.status;
    var nextRun := next(w.now - Minute);
    if st.lastSnapshotTime.Some? {
      nextRun := next(st.lastSnapshotTime.value);
    }
    assert nextRun == NextRun(next, st.lastSnapshotTime, w.now);
    if w.now < nextRun {
      InlineWaits(scheduled.spec, st, next, w);
      return Ok(Waiting(nextRun - w.now));
    }
    var requeueAfter := RequeueAfter(next, w.now);
    r := TakeSnapshot(scheduled, scheduled.spec, st, next, requeueAfter, w);
  }

  /** Capture, diff and upload against the stored baselines, then land the result. */
  method TakeSnapshot(scheduled: ScheduledSnapshot, spec: ScheduledSnapshotSpec, st: ScheduledSnapshotStatus,
                      next: int -> int, requeueAfter: int, w: World) returns (r: Result<Work>)
    requires st == scheduled.status && Timed(next, st.lastSnapshotTime, w.now) == Due
    requires requeueAfter == RequeueAfter(next, w.now)
    modifies scheduled
    ensures (scheduled.status, r) == InlineReconciled(spec, st, next, w)
  {
    var cap := ProcessScheduled(spec, AsWrittenBaselines(st), w.svc, w.get);
    DueLands(spec, st, next, w, cap);
    r := Land(scheduled, st, cap, w.statusWrite, w.now, requeueAfter);
  }

  /** Once due, the inline path is the landing of the capture against the stored baselines. */
  lemma DueLands(spec: ScheduledSnapshotSpec, st: ScheduledSnapshotStatus, next: int -> int, w: World,
                 processed: Result<Capture>)
    requires Timed(next, st.lastSnapshotTime, w.now) == Due
    requires processed == ScheduledProcessed(spec, AsWrittenBaselines(st), w.svc, w.get)
    ensures InlineReconciled(spec, st, next, w).0 == Landed(st, processed, w.statusWrite, w.now, RequeueAfter(next, w.now)).0
    ensures InlineReconciled(spec, st, next, w).1 == Landed(st, processed, w.statusWrite, w.now, RequeueAfter(next, w.now)).1
  {
  }

  /** The tail of reconcile: give up on a failed capture, else write the rotated status and requeue. */
  method Land(scheduled: ScheduledSnapshot, st: ScheduledSnapshotStatus, processed: Result<Capture>, write: Write,
              now: int, requeueAfter: int) returns (r: Result<Work>)
    requires st == scheduled.status
    modifies scheduled
    ensures (scheduled.status, r) == Landed(st, processed, write, now, requeueAfter)
  {
    if processed.Err? {
      return Err(processed.msg);
    }
    var updated := UpdateScheduledSnapshotStatus(scheduled, processed.value, now, write);
    if updated.Err? {
      return Err(updated.msg);
    }
    r := Ok(Took(processed.value, requeueAfter));
  }

  // ---------------------------------------------------------------- properties

  /** Distributed mode never captures and never touches the status. */
  lemma DistributedOnlyAppliesCronJob(name: string, namespace: string, spec: ScheduledSnapshotSpec,
                                      st: ScheduledSnapshotStatus, cfg: Config, w: World)
    requires IsKeyOrder(spec.headers, w.headerOrder) && cfg.distributed
    ensures var (st', r) := ScheduledReconciled(name, namespace, spec, st, cfg, w);
            st' == st && (r.Ok? ==> r.value.NoWork? || r.value.CronJobApplied?)
  {
  }

  /** Before the due instant nothing is captured and the reconcile comes back exactly at that instant. */
  lemma NotDueWaits(name: string, namespace: string, spec: ScheduledSnapshotSpec,
                    st: ScheduledSnapshotStatus, cfg: Config, w: World)
    requires IsKeyOrder(spec.headers, w.headerOrder) && !cfg.distributed
    requires w.fetch.Fetched? && w.schedule.Ok?
    requires w.now < NextRun(w.schedule.value, st.lastSnapshotTime, w.now)
    ensures ScheduledReconciled(name, namespace, spec, st, cfg, w) ==
            (st, Ok(Waiting(NextRun(w.schedule.value, st.lastSnapshotTime, w.now) - w.now)))
  {
  }

  /**
   * A snapshot taken at instant now records now as the last snapshot time, so the next
   * reconcile at the same instant waits for the following cron instant, provided the schedule
   * moves forward.
   */
  lemma TakenThenWaits(name: string, namespace: string, spec: ScheduledSnapshotSpec,
                       st: ScheduledSnapshotStatus, cfg: Config, w: World, w2: World)
    requires IsKeyOrder(spec.headers, w.headerOrder) && IsKeyOrder(spec.headers, w2.headerOrder) && !cfg.distributed
    requires w.fetch.Fetched? && w.schedule.Ok? && w.schedule.value(w.now) > w.now
    requires ScheduledReconciled(name, namespace, spec, st, cfg, w).1.Ok?
    requires ScheduledReconciled(name, namespace, spec, st, cfg, w).1.value.Took?
    requires w2.fetch.Fetched? && w2.schedule == w.schedule && w2.now == w.now
    ensures var st1 := ScheduledReconciled(name, namespace, spec, st, cfg, w).0;
            ScheduledReconciled(name, namespace, spec, st1, cfg, w2) == (st1, Ok(Waiting(w.schedule.value(w.now) - w.now)))
  {
    var next := w.schedule.value;
    var r := InlineReconciled(spec, st, next, w);
    assert ScheduledReconciled(name, namespace, spec, st, cfg, w) == r;
    assert r.0.lastSnapshotTime == Some(w.now);
    InlineWaits(spec, r.0, next, w2);
    assert ScheduledReconciled(name, namespace, spec, r.0, cfg, w2) == InlineReconciled(spec, r.0, next, w2);
  }

  lemma InlineWaits(spec: ScheduledSnapshotSpec, st: ScheduledSnapshotStatus, next: int -> int, w: World)
    requires w.now < NextRun(next, st.lastSnapshotTime, w.now)
    ensures InlineReconciled(spec, st, next, w) == (st, Ok(Waiting(NextRun(next, st.lastSnapshotTime, w.now) - w.now)))
  {
  }

  /**
   * A snapshot taken on a resource with a stored baseline stores a diff computed against that
   * stored baseline, while the new status names the previous capture as its baseline whenever
   * there was one; the two differ as soon as the stored baseline and the previous capture do.
   */
  lemma TakenDiffAgainstStoredBaseline(name: string, namespace: string, spec: ScheduledSnapshotSpec,
                                       st: ScheduledSnapshotStatus, cfg: Config, w: World)
    requires IsKeyOrder(spec.headers, w.headerOrder) && !cfg.distributed
    requires ScheduledReconciled(name, namespace, spec, st, cfg, w).1.Ok?
    requires ScheduledReconciled(name, namespace, spec, st, cfg, w).1.value.Took?
    requires st.baselineURL != ""
    ensures var (st1, r) := ScheduledReconciled(name, namespace, spec, st, cfg, w);
            var c := w.svc.capture(OptionsFor(spec.maskSelectors, spec.headers), spec.target).value;
            w.svc.capture(OptionsFor(spec.maskSelectors, spec.headers), spec.target).Ok? &&
            w.get(st.baselineURL).Ok? &&
            GenerateDiff(w.get(st.baselineURL).value, c.screenshot, spec.screenshotDiffFormat, w.svc).Ok? &&
            st1.screenshotDiffAmount == GenerateDiff(w.get(st.baselineURL).value, c.screenshot, spec.screenshotDiffFormat, w.svc).value.1 &&
            st1.baselineURL == (if st.targetURL != "" then st.targetURL else st.baselineURL)
  {
    var c := w.svc.capture(OptionsFor(spec.maskSelectors, spec.headers), spec.target).value;
    var d := ScheduledDiffs(c, AsWrittenBaselines(st), spec, w.svc, w.get);
    assert d.Ok?;
    DiffsAgainstSetBaselines(c, AsWrittenBaselines(st), spec, w.svc, w.get);
    UploadsStored(spec.target, c, d.value, AsWrittenBaselines(st), w.svc);
  }

  /**
   * On a fresh resource the second snapshot stores no diff either: the first run left the
   * baselines empty and moved its capture into the target fields only.
   */
  lemma SecondRunWithoutDiff(spec: ScheduledSnapshotSpec, next: int -> int, w: World, w2: World)
    requires InlineReconciled(spec, EmptyScheduledSnapshotStatus, next, w).1.Ok?
    requires InlineReconciled(spec, EmptyScheduledSnapshotStatus, next, w).1.value.Took?
    requires var st1 := InlineReconciled(spec, EmptyScheduledSnapshotStatus, next, w).0;
             InlineReconciled(spec, st1, next, w2).1.Ok? && InlineReconciled(spec, st1, next, w2).1.value.Took?
    ensures var st1 := InlineReconciled(spec, EmptyScheduledSnapshotStatus, next, w).0;
            var st2 := InlineReconciled(spec, st1, next, w2).0;
            st2.screenshotDiffURL == "" && st2.screenshotDiffAmount == Zero &&
            st2.htmlDiffURL == "" && st2.htmlDiffAmount == Zero
  {
    var st1 := InlineReconciled(spec, EmptyScheduledSnapshotStatus, next, w).0;
    assert AsWrittenBaselines(st1) == AsWrittenBaselines(EmptyScheduledSnapshotStatus);
    FirstRunHasNoDiff(spec, w2.svc, w2.get);
  }
}
