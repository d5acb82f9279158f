/**
 * The capture-diff-upload run of the ScheduledSnapshot reconciler, and the status rotation that
 * follows it: the previous target becomes the new baseline and the run's results the new target.
 */
module ScheduledProcessing {
  import opened Wrappers
  import opened Fraction
  import opened ApiTypes
  import LineDiff
  import opened SnapshotPipeline

  /** The answer of the API server to a status update. */
  datatype Write = Accepted | Rejected(msg: string)

  // ---------------------------------------------------------------- processing

  /** The diff of one run, when a baseline existed: the image and the HTML diff, each optional. */
  datatype Diffs = Diffs(image: Option<(Bytes, Fraction)>, html: Option<LineDiff.DiffResult>)

  /** The six fields one run writes besides the rotated baselines. */
  datatype Capture = Capture(
    imageURL: string,
    htmlURL: string,
    diffURL: string,
    diffAmount: Fraction,
    htmlDiffURL: string,
    htmlDiffAmount: Fraction)

  /** The stored artifacts a run compares the new capture with: screenshot URL and HTML URL. */
  datatype Baselines = Baselines(imageURL: string, htmlURL: string)

  /**
   * The diff stage: the stored baseline screenshot and HTML are fetched only when their URL is
   * set, and each diff runs only then.
   */
  function ScheduledDiffs(c: Captured, base: Baselines, spec: ScheduledSnapshotSpec, svc: Services,
                          get: string -> Result<Bytes>): Result<Diffs>
  {
    var image :-
      if base.imageURL == "" then Ok(None)
      else
        var data :- Wrap("failed to generate diff: ", get(base.imageURL));
        var d :- Wrap("failed to generate diff: ", GenerateDiff(data, c.screenshot, spec.screenshotDiffFormat, svc));
        Ok(Some(d));
    var html :-
      if base.htmlURL == "" then Ok(None)
      else
        var data :- Wrap("failed to download baseline HTML: ", get(base.htmlURL));
        var h :- Wrap("failed to generate HTML diff: ", HtmlDiff(data, c.html, spec.htmlDiffFormat));
        Ok(Some(h));
    Ok(Diffs(image, html))
  }

  /** Each diff exists exactly when its baseline URL is set, and is the diff against what that URL holds. */
  lemma DiffsAgainstSetBaselines(c: Captured, base: Baselines, spec: ScheduledSnapshotSpec, svc: Services,
                                 get: string -> Result<Bytes>)
    ensures var r := ScheduledDiffs(c, base, spec, svc, get);
            r.Ok? ==>
              (r.value.image.Some? <==> base.imageURL != "") &&
              (r.value.html.Some? <==> base.htmlURL != "") &&
              (r.value.html.Some? ==>
                 get(base.htmlURL).Ok? && r.value.html.value == LineDiffOf(get(base.htmlURL).value, c.html)) &&
              (r.value.image.Some? ==>
                 get(base.imageURL).Ok? &&
                 GenerateDiff(get(base.imageURL).value, c.screenshot, spec.screenshotDiffFormat, svc) == Ok(r.value.image.value))
  {
  }

  /**
   * The upload stage: the capture under ScheduledSnapshot/capture/..., the image diff when there
   * is one and the HTML diff when it is non-empty, both under Snapshot/diff/ with the hash of
   * the compared baseline URL and the target. Absent diffs leave URL "" and amount 0.
   */
  function ScheduledUploads(target: string, c: Captured, d: Diffs, base: Baselines, svc: Services): Result<Capture>
  {
    var up :- UploadCapture("ScheduledSnapshot", target, c, svc);
    var hash := svc.hash(base.imageURL + target);
    var diffURL :-
      if d.image.None? then Ok("")
      else Wrap("failed to upload diff image: ", svc.put(DiffKey(hash, svc.timestamp, "jpeg"), d.image.value.0));
    var htmlDiffURL :-
      if d.html.None? || d.html.value.diff == [] then Ok("")
      else Wrap("failed to upload HTML diff: ", svc.put(DiffKey(hash, svc.timestamp, "txt"), d.html.value.diff));
    Ok(Capture(up.0, up.1, diffURL,
               if d.image.Some? then d.image.value.1 else Zero,
               htmlDiffURL,
               if d.html.Some? then d.html.value.amount else Zero))
  }

  /** What a successful upload stage stored, and under which keys. */
  lemma UploadsStored(target: string, c: Captured, d: Diffs, base: Baselines, svc: Services)
    ensures var r := ScheduledUploads(target, c, d, base, svc);
            (r.Ok? ==>
              var captureBase := CaptureBase("ScheduledSnapshot", svc.hash(target), svc.timestamp);
              Stored(svc, captureBase + ".jpeg", c.screenshot, r.value.imageURL) &&
              Stored(svc, captureBase + ".html", c.html, r.value.htmlURL)) &&
            (r.Ok? ==>
              var hash := svc.hash(base.imageURL + target);
              (d.image.Some? ==> Stored(svc, DiffKey(hash, svc.timestamp, "jpeg"), d.image.value.0, r.value.diffURL) &&
                                 r.value.diffAmount == d.image.value.1) &&
              (d.image.None? ==> r.value.diffURL == "" && r.value.diffAmount == Zero)) &&
            (r.Ok? ==>
              var hash := svc.hash(base.imageURL + target);
              (d.html.Some? && d.html.value.diff != [] ==>
                 Stored(svc, DiffKey(hash, svc.timestamp, "txt"), d.html.value.diff, r.value.htmlDiffURL)) &&
              (d.html.None? || d.html.value.diff == [] ==> r.value.htmlDiffURL == "") &&
              r.value.htmlDiffAmount == (if d.html.Some? then d.html.value.amount else Zero))
  {
  }

  /** processSnapshot against the given baselines: capture, diff, upload. */
  function ScheduledProcessed(spec: ScheduledSnapshotSpec, base: Baselines, svc: Services, get: string -> Result<Bytes>): Result<Capture>
  {
    var c :- Wrap("failed to download screenshot: ", svc.capture(OptionsFor(spec.maskSelectors, spec.headers), spec.target));
    var d :- ScheduledDiffs(c, base, spec, svc, get);
    ScheduledUploads(spec.target, c, d, base, svc)
  }

  /** processSnapshot, step by step. */
  method ProcessScheduled(spec: ScheduledSnapshotSpec, base: Baselines, svc: Services, get: string -> Result<Bytes>)
    returns (r: Result<Capture>)
    ensures r == ScheduledProcessed(spec, base, svc, get)
  {
    var c := svc.capture(OptionsFor(spec.maskSelectors, spec.headers), spec.target);
    if c.Err? {
      return Err("failed to download screenshot: " + c.msg);
    }
    var image: Option<(Bytes, Fraction)> := None;
    if base.imageURL != "" {
      var data := get(base.imageURL);
      if data.Err? {
        return Err("failed to generate diff: " + data.msg);
      }
      var diff := GenerateDiff(data.value, c.value.screenshot, spec.screenshotDiffFormat, svc);
      if diff.Err? {
        return Err("failed to generate diff: " + diff.msg);
      }
      image := Some(diff.value);
    }
    var html: Option<LineDiff.DiffResult> := None;
    if base.htmlURL != "" {
      var data := get(base.htmlURL);
      if data.Err? {
        return Err("failed to download baseline HTML: " + data.msg);
      }
      var diff := GenerateHTMLDiff(data.value, c.value.html, spec.htmlDiffFormat);
      if diff.Err? {
        return Err("failed to generate HTML diff: " + diff.msg);
      }
      html := Some(diff.value);
    }
    assert ScheduledDiffs(c.value, base, spec, svc, get) == Ok(Diffs(image, html));
    r := ScheduledUploads(spec.target, c.value, Diffs(image, html), base, svc);
  }

  // ---------------------------------------------------------------- status rotation

  /** The previous target becomes the baseline, each only when it was set. */
  function RotatedBaselines(st: ScheduledSnapshotStatus): (b: Baselines)
    ensures b.imageURL == (if st.targetURL != "" then st.targetURL else st.baselineURL)
    ensures b.htmlURL == (if st.targetHTMLURL != "" then st.targetHTMLURL else st.baselineHTMLURL)
  {
    Baselines(if st.targetURL != "" then st.targetURL else st.baselineURL,
              if st.targetHTMLURL != "" then st.targetHTMLURL else st.baselineHTMLURL)
  }

  /** updateScheduledSnapshotStatus's writes: rotate the baselines, then overwrite the run's fields. */
  function Rotated(st: ScheduledSnapshotStatus, cap: Capture, now: int): (r: ScheduledSnapshotStatus)
    ensures Baselines(r.baselineURL, r.baselineHTMLURL) == RotatedBaselines(st)
    ensures r.targetURL == cap.imageURL && r.targetHTMLURL == cap.htmlURL
    ensures r.screenshotDiffURL == cap.diffURL && r.screenshotDiffAmount == cap.diffAmount
    ensures r.htmlDiffURL == cap.htmlDiffURL && r.htmlDiffAmount == cap.htmlDiffAmount
    ensures r.lastSnapshotTime == Some(now)
  {
    var b := RotatedBaselines(st);
    ScheduledSnapshotStatus(b.imageURL, cap.imageURL, b.htmlURL, cap.htmlURL, cap.diffURL, cap.diffAmount,
                            cap.htmlDiffURL, cap.htmlDiffAmount, Some(now))
  }

  /** updateScheduledSnapshotStatus on the stored object: the rotation lands only when the server accepts it. */
  method UpdateScheduledSnapshotStatus(scheduled: ScheduledSnapshot, cap: Capture, now: int, write: Write)
    returns (r: Result<()>)
    modifies scheduled
    ensures write.Accepted? ==> r == Ok(()) && scheduled.status == Rotated(old(scheduled.status), cap, now)
    ensures write.Rejected? ==>
              r == Err("failed to update scheduled snapshot status: " + write.msg) && scheduled.status == old(scheduled.status)
  {
    if write.Rejected? {
      return Err("failed to update scheduled snapshot status: " + write.msg);
    }
    var st := scheduled.status;
    if st.targetURL != "" {
      st := st.(baselineURL := st.targetURL);
    }
    if st.targetHTMLURL != "" {
      st := st.(baselineHTMLURL := st.targetHTMLURL);
    }
    st := st.(targetURL := cap.imageURL, targetHTMLURL := cap.htmlURL, screenshotDiffURL := cap.diffURL,
              screenshotDiffAmount := cap.diffAmount, htmlDiffURL := cap.htmlDiffURL,
              htmlDiffAmount := cap.htmlDiffAmount, lastSnapshotTime := Some(now));
    scheduled.status := st;
    r := Ok(());
  }

  // ---------------------------------------------------------------- baseline choice

  /** The baselines the code diffs against: the stored baseline fields, before the rotation. */
  function AsWrittenBaselines(st: ScheduledSnapshotStatus): (b: Baselines)
    ensures b.imageURL == st.baselineURL && b.htmlURL == st.baselineHTMLURL
  {
    Baselines(st.baselineURL, st.baselineHTMLURL)
  }

  /**
   * As written, once two runs have stored different captures, the status a run writes names as
   * its baseline the previous capture, while the diff it stores was computed against the one
   * before that.
   */
  lemma AsWrittenDiffsAgainstStaleBaseline(st: ScheduledSnapshotStatus, cap: Capture, now: int)
    requires st.targetURL != "" && st.baselineURL != st.targetURL
    ensures AsWrittenBaselines(st).imageURL != Rotated(st, cap, now).baselineURL
  {
  }

  /**
   * As written, the second run of a fresh ScheduledSnapshot produces no screenshot diff although
   * the first run stored a capture to compare with.
   */
  lemma AsWrittenSecondRunWithoutDiff(cap: Capture, now: int)
    requires cap.imageURL != ""
    ensures var st1 := Rotated(EmptyScheduledSnapshotStatus, cap, now);
            st1.targetURL != "" && AsWrittenBaselines(st1).imageURL == ""
  {
  }

  /**
   * Corrected: a run diffs against the rotated baselines, so the baseline the new status names
   * is the one its diff was computed against, and every run after the first has one.
   */
  lemma RotatedBaselineIsCompared(st: ScheduledSnapshotStatus, cap: Capture, now: int)
    ensures Baselines(Rotated(st, cap, now).baselineURL, Rotated(st, cap, now).baselineHTMLURL) == RotatedBaselines(st)
    ensures st.targetURL != "" ==> RotatedBaselines(st).imageURL == st.targetURL
    ensures RotatedBaselines(Rotated(st, cap, now)).imageURL ==
              (if cap.imageURL != "" then cap.imageURL else RotatedBaselines(st).imageURL)
  {
  }

  /**
   * Corrected, end to end: after a fresh resource's first run stored a capture, the second run
   * downloads that capture as its baseline and stores its diff against it, with that diff's amount.
   */
  lemma RotatedSecondRunHasDiff(cap: Capture, now: int, spec: ScheduledSnapshotSpec, svc: Services,
                                get: string -> Result<Bytes>)
    requires cap.imageURL != ""
    ensures var base := RotatedBaselines(Rotated(EmptyScheduledSnapshotStatus, cap, now));
            var r := ScheduledProcessed(spec, base, svc, get);
            var c := svc.capture(OptionsFor(spec.maskSelectors, spec.headers), spec.target);
            base.imageURL == cap.imageURL &&
            (r.Ok? ==>
               c.Ok? && get(cap.imageURL).Ok? &&
               var d := GenerateDiff(get(cap.imageURL).value, c.value.screenshot, spec.screenshotDiffFormat, svc);
               d.Ok? && r.value.diffAmount == d.value.1 &&
               Stored(svc, DiffKey(svc.hash(cap.imageURL + spec.target), svc.timestamp, "jpeg"), d.value.0, r.value.diffURL))
  {
    var base := RotatedBaselines(Rotated(EmptyScheduledSnapshotStatus, cap, now));
    var r := ScheduledProcessed(spec, base, svc, get);
    if r.Ok? {
      var c := svc.capture(OptionsFor(spec.maskSelectors, spec.headers), spec.target).value;
      var ds := ScheduledDiffs(c, base, spec, svc, get);
      assert ds.Ok?;
      DiffsAgainstSetBaselines(c, base, spec, svc, get);
      UploadsStored(spec.target, c, ds.value, base, svc);
    }
  }

  /** A first run on a fresh resource has nothing to compare with: no diffs, zero amounts. */
  lemma FirstRunHasNoDiff(spec: ScheduledSnapshotSpec, svc: Services, get: string -> Result<Bytes>)
    requires ScheduledProcessed(spec, AsWrittenBaselines(EmptyScheduledSnapshotStatus), svc, get).Ok?
    ensures var cap := ScheduledProcessed(spec, AsWrittenBaselines(EmptyScheduledSnapshotStatus), svc, get).value;
            cap.diffURL == "" && cap.htmlDiffURL == "" && cap.diffAmount == Zero && cap.htmlDiffAmount == Zero
  {
    var c := svc.capture(OptionsFor(spec.maskSelectors, spec.headers), spec.target).value;
    var base := AsWrittenBaselines(EmptyScheduledSnapshotStatus);
    assert ScheduledDiffs(c, base, spec, svc, get) == Ok(Diffs(None, None));
    UploadsStored(spec.target, c, Diffs(None, None), base, svc);
  }
}
