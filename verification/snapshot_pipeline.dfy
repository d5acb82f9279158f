/**
 * The processing shared by the Snapshot reconciler (inline mode) and the worker command:
 * capture baseline and target, diff the screenshots and the HTML, upload the captures and the
 * two diffs, and report the eight artifact fields. Browser, JPEG codec, image differ, storage,
 * hashing and the clock are services passed in as functions; the HTML line diff is the
 * LineDiff model itself.
 */
module SnapshotPipeline {
  import opened Wrappers
  import opened Fraction
  import LineDiff
  import CaptureConfig

  type Bytes = seq<LineDiff.Byte>

  // ---------------------------------------------------------------- differ dispatch

  /** The image differs a format name selects; the pixel differ is built with threshold 0.1. */
  datatype ImageDiffer = RectangleDiffer | PixelDiffer(threshold: Fraction)

  const PixelThreshold: Fraction := Fraction(1, 10)

  function ImageFormatName(d: ImageDiffer): string
  {
    match d
    case RectangleDiffer => "rectangle"
    case PixelDiffer(_) => "pixel"
  }

  /** The screenshot-diff format switch: "rectangle" or "pixel", anything else an error. */
  function ImageDifferFor(format: string): (r: Result<ImageDiffer>)
    ensures r.Ok? <==> format == "rectangle" || format == "pixel"
    ensures r.Ok? ==> ImageFormatName(r.value) == format
    ensures r.Ok? && r.value.PixelDiffer? ==> r.value.threshold == PixelThreshold
    ensures r.Err? ==> r.msg == "unknown diff format: " + format
  {
    match format
    case "rectangle" => Ok(RectangleDiffer)
    case "pixel" => Ok(PixelDiffer(PixelThreshold))
    case _ => Err("unknown diff format: " + format)
  }

  /** Each differ the switch builds is selected again by its own name. */
  lemma ImageDifferNamed(d: ImageDiffer)
    requires d == RectangleDiffer || d == PixelDiffer(PixelThreshold)
    ensures ImageDifferFor(ImageFormatName(d)) == Ok(d)
  {
  }

  /** The result of the HTML line differ: the LineDiff model's text and amount. */
  function LineDiffOf(baseline: Bytes, target: Bytes): (r: LineDiff.DiffResult)
    ensures r.amount.den > 0 && r.amount.num <= r.amount.den
  {
    var a, b := LineDiff.SplitLines(baseline), LineDiff.SplitLines(target);
    LineDiff.DiffResult(
      LineDiff.DiffText(LineDiff.Backtrack(a, b)),
      if |a| + |b| == 0 then Zero else Fraction(LineDiff.ChangedLines(a, b), |a| + |b|))
  }

  /** The HTML-diff format switch: only "line" is known. */
  function HtmlDiff(baseline: Bytes, target: Bytes, format: string): (r: Result<LineDiff.DiffResult>)
    ensures r.Ok? <==> format == "line"
    ensures r.Ok? ==> r.value == LineDiffOf(baseline, target)
  {
    if format == "line" then Ok(LineDiffOf(baseline, target))
    else Err("unknown HTML diff format: " + format)
  }

  /** generateHTMLDiff: dispatch on the format, then run the line differ. */
  method GenerateHTMLDiff(baseline: Bytes, target: Bytes, format: string) returns (r: Result<LineDiff.DiffResult>)
    ensures r == HtmlDiff(baseline, target, format)
  {
    if format != "line" {
      return Err("unknown HTML diff format: " + format);
    }
    var result := LineDiff.Calculate(baseline, target);
    r := Ok(result);
  }

  /** Identical HTML on both sides gives an empty-change HTML diff amount. */
  lemma IdenticalHtmlNoDiff(html: Bytes)
    ensures LineDiffOf(html, html).amount.num == 0
  {
    LineDiff.IdenticalInputs(html);
  }

  // ---------------------------------------------------------------- services

  datatype Captured = Captured(screenshot: Bytes, html: Bytes)

  datatype Services = Services(
    capture: (CaptureConfig.CaptureOptions, string) -> Result<Captured>,  // the browser: options, URL
    decodeError: Bytes -> Option<string>,                            // jpeg.Decode's error, if any
    imageDiff: (ImageDiffer, Bytes, Bytes) -> Result<(Bytes, Fraction)>,  // Calculate, then jpeg.Encode
    put: (string, Bytes) -> Result<string>,                          // Storage.Put, giving a URL
    hash: string -> string,                                          // first 16 hex digits of sha256
    timestamp: string)                                               // the clock, as yyyyMMddHHmmss

  /** Error wrapping in the xerrors style: the prefix goes before the cause. */
  function Wrap<T>(prefix: string, r: Result<T>): (w: Result<T>)
    ensures w.Ok? <==> r.Ok?
    ensures w.Ok? ==> w.value == r.value
    ensures w.Err? ==> w.msg == prefix + r.msg
  {
    match r
    case Ok(v) => Ok(v)
    case Err(m) => Err(prefix + m)
  }

  /** generateDiff: decode baseline, then target, then pick the differ, then diff and encode. */
  function GenerateDiff(baseline: Bytes, target: Bytes, format: string, svc: Services): (r: Result<(Bytes, Fraction)>)
    ensures r.Ok? ==> svc.decodeError(baseline).None? && svc.decodeError(target).None? && ImageDifferFor(format).Ok?
    ensures r.Ok? ==> svc.imageDiff(ImageDifferFor(format).value, baseline, target) == r
    ensures svc.decodeError(baseline).Some? ==> r == Err("failed to decode baseline image: " + svc.decodeError(baseline).value)
    ensures svc.decodeError(baseline).None? && svc.decodeError(target).Some? ==>
              r == Err("failed to decode target image: " + svc.decodeError(target).value)
    ensures svc.decodeError(baseline).None? && svc.decodeError(target).None? && ImageDifferFor(format).Err? ==>
              r == Err("unknown diff format: " + format)
  {
    if svc.decodeError(baseline).Some? then Err("failed to decode baseline image: " + svc.decodeError(baseline).value)
    else if svc.decodeError(target).Some? then Err("failed to decode target image: " + svc.decodeError(target).value)
    else
      match ImageDifferFor(format)
      case Err(m) => Err(m)
      case Ok(d) => Wrap("failed to encode diff image: ", svc.imageDiff(d, baseline, target))
  }

  // ---------------------------------------------------------------- storage keys

  /** "<Kind>/capture/<hash>/<timestamp>": the base key of a capture. */
  function CaptureBase(kind: string, urlHash: string, timestamp: string): string
  {
    kind + "/capture/" + urlHash + "/" + timestamp
  }

  /** "Snapshot/diff/<hash>/<timestamp>.<ext>": the key of a diff artifact. */
  function DiffKey(hash: string, timestamp: string, ext: string): string
  {
    "Snapshot/diff/" + hash + "/" + timestamp + "." + ext
  }

  /** A Snapshot capture never lands on a diff key, whatever the hashes and timestamps. */
  lemma CaptureAndDiffKeysDiffer(h1: string, t1: string, suffix: string, h2: string, t2: string, ext: string)
    ensures CaptureBase("Snapshot", h1, t1) + suffix != DiffKey(h2, t2, ext)
  {
    var c, d := CaptureBase("Snapshot", h1, t1) + suffix, DiffKey(h2, t2, ext);
    assert c[9] == 'c' && d[9] == 'd';
  }

  /** A ScheduledSnapshot capture never lands on a Snapshot capture or diff key. */
  lemma ScheduledKeysApart(h1: string, t1: string, s1: string, h2: string, t2: string, s2: string)
    ensures CaptureBase("ScheduledSnapshot", h1, t1) + s1 != CaptureBase("Snapshot", h2, t2) + s2
    ensures CaptureBase("ScheduledSnapshot", h1, t1) + s1 != DiffKey(h2, t2, s2)
  {
    var c := CaptureBase("ScheduledSnapshot", h1, t1) + s1;
    assert c[1] == 'c';
    assert (CaptureBase("Snapshot", h2, t2) + s2)[1] == 'n';
    assert DiffKey(h2, t2, s2)[1] == 'n';
  }

  /** The screenshot and the HTML of one capture go to distinct keys. */
  lemma CaptureKeysDiffer(base: string)
    ensures base + ".jpeg" != base + ".html"
  {
    assert (base + ".jpeg")[|base| + 1] == 'j';
    assert (base + ".html")[|base| + 1] == 'h';
  }

  /** The two diff artifacts of one run go to distinct keys. */
  lemma DiffKeysDiffer(hash: string, timestamp: string)
    ensures DiffKey(hash, timestamp, "jpeg") != DiffKey(hash, timestamp, "txt")
  {
    var n := |"Snapshot/diff/" + hash + "/" + timestamp + "."|;
    assert DiffKey(hash, timestamp, "jpeg")[n] == 'j';
    assert DiffKey(hash, timestamp, "txt")[n] == 't';
  }

  /** The storage accepted data under key and answered with url. */
  predicate Stored(svc: Services, key: string, data: Bytes, url: string)
  {
    svc.put(key, data) == Ok(url)
  }

  /** uploadCapture: the screenshot under base.jpeg, then the HTML under base.html. */
  function UploadCapture(kind: string, url: string, c: Captured, svc: Services): (r: Result<(string, string)>)
    ensures r.Ok? <==>
              svc.put(CaptureBase(kind, svc.hash(url), svc.timestamp) + ".jpeg", c.screenshot).Ok? &&
              svc.put(CaptureBase(kind, svc.hash(url), svc.timestamp) + ".html", c.html).Ok?
    ensures r.Ok? ==>
              r.value.0 == svc.put(CaptureBase(kind, svc.hash(url), svc.timestamp) + ".jpeg", c.screenshot).value &&
              r.value.1 == svc.put(CaptureBase(kind, svc.hash(url), svc.timestamp) + ".html", c.html).value
  {
    var base := CaptureBase(kind, svc.hash(url), svc.timestamp);
    var image :- Wrap("failed to upload screenshot: ", svc.put(base + ".jpeg", c.screenshot));
    var html :- Wrap("failed to upload HTML: ", svc.put(base + ".html", c.html));
    Ok((image, html))
  }

  // ---------------------------------------------------------------- processSnapshot

  /** The capture options a resource asks for: its mask selectors and its headers. */
  function OptionsFor(maskSelectors: seq<string>, headers: map<string, string>): CaptureConfig.CaptureOptions
  {
    CaptureConfig.CaptureOptions(maskSelectors, Some(headers))
  }

  /** The eight artifact fields: WorkerOutput, and the artifact part of a Snapshot status. */
  datatype Artifacts = Artifacts(
    baselineURL: string,
    targetURL: string,
    baselineHTMLURL: string,
    targetHTMLURL: string,
    screenshotDiffURL: string,
    screenshotDiffAmount: Fraction,
    htmlDiffURL: string,
    htmlDiffAmount: Fraction)

  /**
   * processSnapshot as a function of its inputs. Where the errgroups run steps side by side,
   * the reported error is that of the first failing step in program order.
   */
  function Processed(baseline: string, target: string, screenshotFormat: string, htmlFormat: string,
                     options: CaptureConfig.CaptureOptions, svc: Services): Result<Artifacts>
  {
    var b :- Wrap("failed to capture baseline screenshot: ", svc.capture(options, baseline));
    var t :- Wrap("failed to capture target screenshot: ", svc.capture(options, target));
    var image :- Wrap("failed to generate diff: ", GenerateDiff(b.screenshot, t.screenshot, screenshotFormat, svc));
    var html :- Wrap("failed to generate HTML diff: ", HtmlDiff(b.html, t.html, htmlFormat));
    Uploaded(baseline, target, b, t, image, html, svc)
  }

  /**
   * The upload step, once both diffs exist: every URL reported is the one the storage returned
   * for the matching key, and the amounts are the differs' own.
   */
  function Uploaded(baseline: string, target: string, b: Captured, t: Captured, image: (Bytes, Fraction),
                    html: LineDiff.DiffResult, svc: Services): (r: Result<Artifacts>)
    ensures r.Ok? ==>
              var hash := svc.hash(baseline + target);
              var baselineBase := CaptureBase("Snapshot", svc.hash(baseline), svc.timestamp);
              var targetBase := CaptureBase("Snapshot", svc.hash(target), svc.timestamp);
              Stored(svc, baselineBase + ".jpeg", b.screenshot, r.value.baselineURL) &&
              Stored(svc, baselineBase + ".html", b.html, r.value.baselineHTMLURL) &&
              Stored(svc, targetBase + ".jpeg", t.screenshot, r.value.targetURL) &&
              Stored(svc, targetBase + ".html", t.html, r.value.targetHTMLURL) &&
              Stored(svc, DiffKey(hash, svc.timestamp, "jpeg"), image.0, r.value.screenshotDiffURL) &&
              Stored(svc, DiffKey(hash, svc.timestamp, "txt"), html.diff, r.value.htmlDiffURL) &&
              r.value.screenshotDiffAmount == image.1 && r.value.htmlDiffAmount == html.amount
  {
    var baselineUp :- UploadCapture("Snapshot", baseline, b, svc);
    var targetUp :- UploadCapture("Snapshot", target, t, svc);
    var hash := svc.hash(baseline + target);
    var diffURL :- Wrap("failed to upload diff image: ", svc.put(DiffKey(hash, svc.timestamp, "jpeg"), image.0));
    var htmlDiffURL :- Wrap("failed to upload HTML diff: ", svc.put(DiffKey(hash, svc.timestamp, "txt"), html.diff));
    Ok(Artifacts(baselineUp.0, targetUp.0, baselineUp.1, targetUp.1, diffURL, image.1, htmlDiffURL, html.amount))
  }

  /** The processing steps, in the order the code runs them. */
  method ProcessSnapshot(baseline: string, target: string, screenshotFormat: string, htmlFormat: string,
                         options: CaptureConfig.CaptureOptions, svc: Services)
    returns (r: Result<Artifacts>)
    ensures r == Processed(baseline, target, screenshotFormat, htmlFormat, options, svc)
  {
    var b := svc.capture(options, baseline);
    if b.Err? {
      return Err("failed to capture baseline screenshot: " + b.msg);
    }
    var t := svc.capture(options, target);
    if t.Err? {
      return Err("failed to capture target screenshot: " + t.msg);
    }
    var image := GenerateDiff(b.value.screenshot, t.value.screenshot, screenshotFormat, svc);
    if image.Err? {
      return Err("failed to generate diff: " + image.msg);
    }
    var html := GenerateHTMLDiff(b.value.html, t.value.html, htmlFormat);
    if html.Err? {
      return Err("failed to generate HTML diff: " + html.msg);
    }
    var baselineUp := UploadCapture("Snapshot", baseline, b.value, svc);
    if baselineUp.Err? {
      return Err(baselineUp.msg);
    }
    var targetUp := UploadCapture("Snapshot", target, t.value, svc);
    if targetUp.Err? {
      return Err(targetUp.msg);
    }
    var hash := svc.hash(baseline + target);
    var diffImage, diffAmount := image.value.0, image.value.1;
    var diffURL := svc.put(DiffKey(hash, svc.timestamp, "jpeg"), diffImage);
    if diffURL.Err? {
      return Err("failed to upload diff image: " + diffURL.msg);
    }
    var htmlDiffURL := svc.put(DiffKey(hash, svc.timestamp, "txt"), html.value.diff);
    if htmlDiffURL.Err? {
      return Err("failed to upload HTML diff: " + htmlDiffURL.msg);
    }
    r := Ok(Artifacts(baselineUp.value.0, targetUp.value.0, baselineUp.value.1, targetUp.value.1,
                      diffURL.value, diffAmount, htmlDiffURL.value, html.value.amount));
  }

  /**
   * A successful run captured both pages and knew both formats; its artifacts are the uploads
   * of those captures, of the screenshot diff and of the LineDiff result.
   */
  lemma ProcessedArtifacts(baseline: string, target: string, screenshotFormat: string, htmlFormat: string,
                           options: CaptureConfig.CaptureOptions, svc: Services)
    requires Processed(baseline, target, screenshotFormat, htmlFormat, options, svc).Ok?
    ensures svc.capture(options, baseline).Ok? && svc.capture(options, target).Ok?
    ensures ImageDifferFor(screenshotFormat).Ok? && htmlFormat == "line"
    ensures GenerateDiff(svc.capture(options, baseline).value.screenshot, svc.capture(options, target).value.screenshot, screenshotFormat, svc).Ok?
    ensures Uploaded(baseline, target, svc.capture(options, baseline).value, svc.capture(options, target).value,
                     GenerateDiff(svc.capture(options, baseline).value.screenshot, svc.capture(options, target).value.screenshot, screenshotFormat, svc).value,
                     LineDiffOf(svc.capture(options, baseline).value.html, svc.capture(options, target).value.html), svc)
            == Processed(baseline, target, screenshotFormat, htmlFormat, options, svc)
  {
  }

  /** A failed capture of the baseline fails the whole run before anything is uploaded. */
  lemma BaselineCaptureFailure(baseline: string, target: string, screenshotFormat: string, htmlFormat: string,
                               options: CaptureConfig.CaptureOptions, svc: Services)
    requires svc.capture(options, baseline).Err?
    ensures Processed(baseline, target, screenshotFormat, htmlFormat, options, svc) ==
              Err("failed to capture baseline screenshot: " + svc.capture(options, baseline).msg)
  {
  }

  /** When both pages serve the same HTML, the run reports a zero HTML diff amount. */
  lemma SameHtmlZeroAmount(baseline: string, target: string, screenshotFormat: string, htmlFormat: string,
                           options: CaptureConfig.CaptureOptions, svc: Services)
    requires Processed(baseline, target, screenshotFormat, htmlFormat, options, svc).Ok?
    requires svc.capture(options, baseline).Ok? && svc.capture(options, target).Ok?
    requires svc.capture(options, baseline).value.html == svc.capture(options, target).value.html
    ensures Processed(baseline, target, screenshotFormat, htmlFormat, options, svc).value.htmlDiffAmount.num == 0
  {
    ProcessedArtifacts(baseline, target, screenshotFormat, htmlFormat, options, svc);
    IdenticalHtmlNoDiff(svc.capture(options, baseline).value.html);
  }
}
