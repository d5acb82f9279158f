/**
 * The worker command: parse its flags and exactly two URLs, build the browser configuration
 * and capture options, run the shared snapshot processing, and print the eight artifact
 * fields or PATCH them to the callback URL through the retrying transport. Flag defaults are
 * the built-in ones (the environment overrides of each default are not modelled); the
 * DISPLAY and HEADERS variables, the integer and duration conversions, the browser, storage
 * and the callback's network are inputs.
 */
module WorkerCli {
  import opened Wrappers
  import opened GoFlag
  import CliFlags
  import StringUtil
  import opened CaptureConfig
  import opened SnapshotPipeline
  import RetryStrategy
  import RetryOn
  import RetryTransport

  /** The flag variables after flag.Parse; the repeatable -H collects its values in order. */
  datatype WorkerFlags = WorkerFlags(
    screenshotFormat: string,
    maskSelectors: string,
    delay: int,
    viewportWidth: int,
    viewportHeight: int,
    chromeDevtoolsProtocolURL: string,
    screenshotDiffFormat: string,
    htmlDiffFormat: string,
    storageBackend: string,
    callbackURL: string,
    headers: seq<string>)

  const Defaults: WorkerFlags :=
    WorkerFlags("jpeg", "", 3 * Second, 1920, 1080, "", "pixel", "line", "file", "", [])

  const FlagNames: set<string> :=
    {"screenshot-format", "mask-selectors", "delay", "viewport-width", "viewport-height",
     "chrome-devtools-protocol-url", "screenshot-diff-format", "html-diff-format",
     "storage-backend", "callback-url", "H"}

  /** The flags that hold a string, by name. */
  predicate IsStringFlag(name: string)
  {
    name == "screenshot-format" || name == "mask-selectors" || name == "chrome-devtools-protocol-url" ||
    name == "screenshot-diff-format" || name == "html-diff-format" || name == "storage-backend" ||
    name == "callback-url"
  }

  function StringFlag(f: WorkerFlags, name: string): string
  {
    if name == "screenshot-format" then f.screenshotFormat
    else if name == "mask-selectors" then f.maskSelectors
    else if name == "chrome-devtools-protocol-url" then f.chromeDevtoolsProtocolURL
    else if name == "screenshot-diff-format" then f.screenshotDiffFormat
    else if name == "html-diff-format" then f.htmlDiffFormat
    else if name == "storage-backend" then f.storageBackend
    else if name == "callback-url" then f.callbackURL
    else ""
  }

  /**
   * The Set method of the flag one occurrence names: a string flag takes the value, a number
   * or duration flag its conversion (or the conversion's error), and -H appends.
   */
  function SetFlag(f: WorkerFlags, s: Setting, conv: Conversions): (r: Result<WorkerFlags>)
    ensures IsStringFlag(s.name) ==> r.Ok? && StringFlag(r.value, s.name) == s.value
    ensures IsStringFlag(s.name) || s.name == "H" ==>
              r.Ok? && r.value.delay == f.delay && r.value.viewportWidth == f.viewportWidth &&
              r.value.viewportHeight == f.viewportHeight
    ensures r.Ok? ==> forall n :: IsStringFlag(n) && n != s.name ==> StringFlag(r.value, n) == StringFlag(f, n)
    ensures r.Ok? ==> r.value.headers == f.headers + (if s.name == "H" then [s.value] else [])
  {
    var v := s.value;
    if s.name == "screenshot-format" then Ok(f.(screenshotFormat := v))
    else if s.name == "mask-selectors" then Ok(f.(maskSelectors := v))
    else if s.name == "chrome-devtools-protocol-url" then Ok(f.(chromeDevtoolsProtocolURL := v))
    else if s.name == "screenshot-diff-format" then Ok(f.(screenshotDiffFormat := v))
    else if s.name == "html-diff-format" then Ok(f.(htmlDiffFormat := v))
    else if s.name == "storage-backend" then Ok(f.(storageBackend := v))
    else if s.name == "callback-url" then Ok(f.(callbackURL := v))
    else if s.name == "H" then Ok(f.(headers := f.headers + [v]))
    else if s.name == "delay" then
      var d :- conv.parseDuration(v);
      Ok(f.(delay := d))
    else if s.name == "viewport-width" then
      var n :- conv.parseInt(v);
      Ok(f.(viewportWidth := n))
    else if s.name == "viewport-height" then
      var n :- conv.parseInt(v);
      Ok(f.(viewportHeight := n))
    else Ok(f)
  }

  /** Every occurrence applied in command-line order; the first failing conversion is the error. */
  function SetAll(f: WorkerFlags, settings: seq<Setting>, conv: Conversions): Result<WorkerFlags>
  {
    if |settings| == 0 then Ok(f)
    else
      var g :- SetAll(f, settings[..|settings| - 1], conv);
      SetFlag(g, settings[|settings| - 1], conv)
  }

  /** SetAll read from the front: the first occurrence is set first, then the rest from there. */
  lemma {:induction false} SetAllCons(f: WorkerFlags, s: Setting, rest: seq<Setting>, conv: Conversions)
    ensures SetAll(f, [s] + rest, conv) ==
            match SetFlag(f, s, conv)
            case Err(m) => Err(m)
            case Ok(g) => SetAll(g, rest, conv)
    decreases |rest|
  {
    if |rest| == 0 {
      assert ([s] + rest)[..0] == [];
    } else {
      var init := rest[..|rest| - 1];
      SetAllCons(f, s, init, conv);
      assert ([s] + rest)[..|rest|] == [s] + init;
    }
  }

  /**
   * FlagSet.Parse as main runs it: each occurrence goes to its flag's Set method as soon as it
   * is read, so a value that does not convert ends the parse there, before a later syntax
   * error, undefined flag or -h is seen. The result is the flag values and the positionals.
   */
  function ParseFlags(args: seq<string>, f: WorkerFlags, conv: Conversions): Result<(WorkerFlags, seq<string>)>
    decreases |args|
  {
    match Head(args, FlagNames)
    case Halt(o) => Ok((f, o.positionals))
    case Bad(msg) => Err(msg)
    case Flag(s, width) =>
      match SetFlag(f, s, conv)
      case Err(cause) => Err(InvalidValue(s, cause))
      case Ok(g) => ParseFlags(args[width..], g, conv)
  }

  /**
   * Setting while parsing succeeds exactly when the syntax parse succeeds and all its
   * occurrences then set in order, and gives the same flags and positionals.
   */
  lemma {:induction false} ParseFlagsAgrees(args: seq<string>, f: WorkerFlags, conv: Conversions)
    ensures ParseFlags(args, f, conv).Ok? <==>
            Parse(args, FlagNames).Ok? && SetAll(f, Parse(args, FlagNames).value.settings, conv).Ok?
    ensures ParseFlags(args, f, conv).Ok? ==>
            ParseFlags(args, f, conv).value ==
            (SetAll(f, Parse(args, FlagNames).value.settings, conv).value, Parse(args, FlagNames).value.positionals)
    ensures Parse(args, FlagNames).Ok? && ParseFlags(args, f, conv).Err? ==> ParseFlags(args, f, conv).msg != HelpRequested
    decreases |args|
  {
    match Head(args, FlagNames)
    case Halt(o) =>
    case Bad(msg) =>
    case Flag(s, width) =>
      var rest := Parse(args[width..], FlagNames);
      if rest.Ok? {
        SetAllCons(f, s, rest.value.settings, conv);
      }
      if SetFlag(f, s, conv).Ok? {
        ParseFlagsAgrees(args[width..], SetFlag(f, s, conv).value, conv);
      }
  }

  /**
   * With only string flags and -H given, every string flag holds its last value (or its
   * default) and the -H values are collected in order.
   */
  lemma {:induction false} SetAllStrings(f: WorkerFlags, settings: seq<Setting>, conv: Conversions)
    requires forall i :: 0 <= i < |settings| ==> IsStringFlag(settings[i].name) || settings[i].name == "H"
    ensures SetAll(f, settings, conv).Ok?
    ensures forall n :: IsStringFlag(n) ==> StringFlag(SetAll(f, settings, conv).value, n) == LastValue(settings, n, StringFlag(f, n))
    ensures SetAll(f, settings, conv).value.headers == f.headers + AllValues(settings, "H")
    ensures var g := SetAll(f, settings, conv).value;
            g.delay == f.delay && g.viewportWidth == f.viewportWidth && g.viewportHeight == f.viewportHeight
  {
    if |settings| > 0 {
      var init, last := settings[..|settings| - 1], settings[|settings| - 1];
      SetAllStrings(f, init, conv);
      var g := SetAll(f, init, conv).value;
      assert SetAll(f, settings, conv) == SetFlag(g, last, conv);
      forall n | IsStringFlag(n)
        ensures StringFlag(SetAll(f, settings, conv).value, n) == LastValue(settings, n, StringFlag(f, n))
      {
        if n != last.name {
          assert StringFlag(SetAll(f, settings, conv).value, n) == StringFlag(g, n);
        }
      }
    }
  }

  // ---------------------------------------------------------------- invocation

  /** The environment: DISPLAY, and HEADERS when it is set to a JSON object of strings. */
  datatype Env = Env(display: string, headersJSON: Option<map<string, string>>, conv: Conversions)

  /** The request headers: the -H lines in order, then every HEADERS entry over them. */
  function Headers(lines: seq<string>, json: Option<map<string, string>>): (m: map<string, string>)
    ensures json.Some? ==> forall k :: k in json.value ==> k in m && m[k] == json.value[k]
    ensures json.Some? ==> forall k :: k in m && k !in json.value ==> k in CliFlags.HeaderMap(lines, map[]) && m[k] == CliFlags.HeaderMap(lines, map[])[k]
    ensures json.None? ==> m == CliFlags.HeaderMap(lines, map[])
  {
    match json
    case None => CliFlags.HeaderMap(lines, map[])
    case Some(j) => CliFlags.HeaderMap(lines, map[]) + j
  }

  /** What main has gathered once the flags are valid and the two URLs are present. */
  datatype Invocation = Invocation(
    baseline: string,
    target: string,
    config: PlaywrightConfig,
    options: CaptureOptions,
    screenshotDiffFormat: string,
    htmlDiffFormat: string,
    storageBackend: string,
    callbackURL: string)

  /** How the start of main ends: a run, or an exit status (2 for a flag error, 0 for -h, 1 for a wrong URL count). */
  datatype Start = Run(inv: Invocation) | Stop(code: nat, reason: string)

  function FlagsInvocation(f: WorkerFlags, positionals: seq<string>, env: Env): (inv: Invocation)
    requires |positionals| == 2
    ensures [inv.baseline, inv.target] == positionals
  {
    Invocation(
      positionals[0], positionals[1],
      Configured(ConfigFlags(f.screenshotFormat, f.delay, f.chromeDevtoolsProtocolURL, env.display,
                             f.viewportWidth, f.viewportHeight, "")),
      CaptureOptions(CliFlags.Selectors(f.maskSelectors), Some(Headers(f.headers, env.headersJSON))),
      f.screenshotDiffFormat, f.htmlDiffFormat, f.storageBackend, f.callbackURL)
  }

  function Invoke(args: seq<string>, env: Env): (s: Start)
    ensures s.Run? ==> Parse(args, FlagNames).Ok? && Parse(args, FlagNames).value.positionals == [s.inv.baseline, s.inv.target]
    ensures Parse(args, FlagNames).Err? ==> s.Stop? && s.code != 1
    ensures Parse(args, FlagNames).Ok? && SetAll(Defaults, Parse(args, FlagNames).value.settings, env.conv).Err? ==>
              s.Stop? && s.code == 2
  {
    ParseFlagsAgrees(args, Defaults, env.conv);
    var r := ParseFlags(args, Defaults, env.conv);
    if r.Err? then Stop(if r.msg == HelpRequested then 0 else 2, r.msg)
    else if |r.value.1| != 2 then Stop(1, "want exactly two URLs")
    else Run(FlagsInvocation(r.value.0, r.value.1, env))
  }

  /** Once the flags parse and convert, the URL count decides: two start a run, any other number stops with status 1. */
  lemma InvokeParsed(args: seq<string>, env: Env)
    requires Parse(args, FlagNames).Ok? && SetAll(Defaults, Parse(args, FlagNames).value.settings, env.conv).Ok?
    ensures var positionals := Parse(args, FlagNames).value.positionals;
            var f := SetAll(Defaults, Parse(args, FlagNames).value.settings, env.conv).value;
            Invoke(args, env) ==
            if |positionals| != 2 then Stop(1, "want exactly two URLs") else Run(FlagsInvocation(f, positionals, env))
  {
    ParseFlagsAgrees(args, Defaults, env.conv);
  }

  /** Valid flags with any number of URLs but two stop the worker with status 1. */
  lemma WrongUrlCount(args: seq<string>, env: Env)
    requires Parse(args, FlagNames).Ok? && SetAll(Defaults, Parse(args, FlagNames).value.settings, env.conv).Ok?
    requires |Parse(args, FlagNames).value.positionals| != 2
    ensures Invoke(args, env) == Stop(1, "want exactly two URLs")
  {
    InvokeParsed(args, env);
  }

  /**
   * A delay that does not convert, given before -h, ends the worker with status 2 and the
   * conversion's error: the help request behind it is never read.
   */
  lemma {:induction false} BadValueBeforeHelp(value: string, rest: seq<string>, env: Env)
    requires env.conv.parseDuration(value).Err?
    ensures Invoke(["-delay", value, "-h"] + rest, env) ==
            Stop(2, InvalidValue(Setting("delay", value), env.conv.parseDuration(value).msg))
    ensures Parse(["-delay", value, "-h"] + rest, FlagNames) == Err(HelpRequested)
  {
    var args := ["-delay", value, "-h"] + rest;
    assert "-delay"[1..] == "delay";
    assert StringUtil.SplitFirst("delay", '=').None?;
    assert Head(args, FlagNames) == Flag(Setting("delay", value), 2);
    assert args[2..] == ["-h"] + rest;
    assert "-h"[1..] == "h";
    assert StringUtil.SplitFirst("h", '=').None?;
    assert Head(args[2..], FlagNames) == Bad(HelpRequested);
  }

  // ---------------------------------------------------------------- run

  /** The outside world of one run. */
  datatype Backends = Backends(
    newCapturer: PlaywrightConfig -> Option<string>,  // NewPlaywrightCapturer: None, or its error
    openStorage: string -> Option<string>,            // the "file" or "s3" backend: None, or its error
    newRequest: string -> Option<string>,             // NewRequestWithContext on the callback URL
    browser: (PlaywrightConfig, CaptureOptions, string) -> Result<Captured>,
    decodeError: Bytes -> Option<string>,
    imageDiff: (ImageDiffer, Bytes, Bytes) -> Result<(Bytes, Fraction.Fraction)>,
    put: (string, Bytes) -> Result<string>,
    hash: string -> string,
    timestamp: string,
    callbackAttempt: nat -> RetryTransport.Outcome,   // what each PATCH attempt gives
    callbackCancelled: nat -> bool,                   // the client timeout ending a back-off wait
    entropy: int -> int)

  /** The services processSnapshot sees: the browser bound to this run's configuration. */
  function ServicesFor(inv: Invocation, b: Backends): Services
  {
    Services((options, url) => b.browser(inv.config, options, url), b.decodeError, b.imageDiff, b.put, b.hash, b.timestamp)
  }

  /** The callback client: back-off from 10 ms up to 1 s, at most 3 retries, default retry policy. */
  function CallbackTransport(entropy: int -> int): RetryTransport.Transport
  {
    RetryTransport.Transport(
      Some(RetryStrategy.ExponentialBackOff(10000000, Second, 3, entropy)),
      Some(RetryOn.Default))
  }

  datatype WorkerEnd = Printed(output: Artifacts) | CalledBack(output: Artifacts) | Exited(code: nat, reason: string)

  /**
   * Print the output, or PATCH it; any response counts as delivered, whatever its status. A
   * callback URL the request cannot be built from ends the worker before any attempt.
   */
  function Deliver(output: Artifacts, callbackURL: string, b: Backends): (e: WorkerEnd)
    ensures callbackURL == "" <==> e.Printed?
    ensures e.Printed? || e.CalledBack? ==> e.output == output
    ensures callbackURL != "" && b.newRequest(callbackURL).Some? ==>
              e == Exited(1, "failed to send callback: failed to create request: " + b.newRequest(callbackURL).value)
  {
    if callbackURL == "" then Printed(output)
    else if b.newRequest(callbackURL).Some? then
      Exited(1, "failed to send callback: failed to create request: " + b.newRequest(callbackURL).value)
    else
      match RetryTransport.RoundTrip(CallbackTransport(b.entropy), 0, b.callbackAttempt, b.callbackCancelled).reply
      case Served(_) => CalledBack(output)
      case _ => Exited(1, "failed to send callback")
  }

  /** The storage backend's failure, for the two backends main knows. */
  function StorageFailure(backend: string, b: Backends): (r: Option<string>)
    ensures r.Some? ==> backend == "file" || backend == "s3"
    ensures backend == "file" || backend == "s3" ==> (r.Some? <==> b.openStorage(backend).Some?)
  {
    if backend == "file" && b.openStorage("file").Some? then
      Some("failed to create file storage backend: " + b.openStorage("file").value)
    else if backend == "s3" && b.openStorage("s3").Some? then
      Some("failed to create S3 storage backend: " + b.openStorage("s3").value)
    else None
  }

  /** The whole worker: start, create the capturer, open storage, process, deliver. */
  function WorkerRun(args: seq<string>, env: Env, b: Backends): WorkerEnd
  {
    match Invoke(args, env)
    case Stop(code, reason) => Exited(code, reason)
    case Run(inv) =>
      if b.newCapturer(inv.config).Some? then Exited(1, "failed to initialize capturer: " + b.newCapturer(inv.config).value)
      else if StorageFailure(inv.storageBackend, b).Some? then Exited(1, StorageFailure(inv.storageBackend, b).value)
      else
      match Processed(inv.baseline, inv.target, inv.screenshotDiffFormat, inv.htmlDiffFormat, inv.options, ServicesFor(inv, b))
      case Err(m) => Exited(1, "failed to process snapshot: " + m)
      case Ok(output) => Deliver(output, inv.callbackURL, b)
  }

  /** main, step by step: the loops over -H values and selectors, the config writes, the processing. */
  method WorkerMain(args: seq<string>, env: Env, b: Backends) returns (end: WorkerEnd)
    ensures end == WorkerRun(args, env, b)
  {
    var parsed := ParseFlags(args, Defaults, env.conv);
    if parsed.Err? {
      return Exited(if parsed.msg == HelpRequested then 0 else 2, parsed.msg);
    }
    var f, positionals := parsed.value.0, parsed.value.1;
    if |positionals| != 2 {
      return Exited(1, "want exactly two URLs");
    }
    var config := Configure(ConfigFlags(f.screenshotFormat, f.delay, f.chromeDevtoolsProtocolURL, env.display,
                                        f.viewportWidth, f.viewportHeight, ""));
    var capturerErr := b.newCapturer(config);
    if capturerErr.Some? {
      return Exited(1, "failed to initialize capturer: " + capturerErr.value);
    }
    var selectors := CliFlags.SplitMaskSelectors(f.maskSelectors);
    var headers := CliFlags.ParseHeaders(f.headers, map[]);
    if env.headersJSON.Some? {
      headers := headers + env.headersJSON.value;
    }
    var inv := Invocation(positionals[0], positionals[1], config, CaptureOptions(selectors, Some(headers)),
                          f.screenshotDiffFormat, f.htmlDiffFormat, f.storageBackend, f.callbackURL);
    assert inv == FlagsInvocation(f, positionals, env);
    if f.storageBackend == "file" {
      var storageErr := b.openStorage("file");
      if storageErr.Some? {
        return Exited(1, "failed to create file storage backend: " + storageErr.value);
      }
    } else if f.storageBackend == "s3" {
      var storageErr := b.openStorage("s3");
      if storageErr.Some? {
        return Exited(1, "failed to create S3 storage backend: " + storageErr.value);
      }
    }
    var result := ProcessSnapshot(inv.baseline, inv.target, inv.screenshotDiffFormat, inv.htmlDiffFormat, inv.options,
                                  ServicesFor(inv, b));
    if result.Err? {
      return Exited(1, "failed to process snapshot: " + result.msg);
    }
    end := Deliver(result.value, inv.callbackURL, b);
  }

  /** A callback endpoint that answers at once, even with an error status, receives the output once. */
  lemma AnsweredCallback(output: Artifacts, callbackURL: string, b: Backends)
    requires callbackURL != "" && b.newRequest(callbackURL).None?
    requires b.callbackAttempt(0).Response? && !RetryOn.RetriableStatus(RetryOn.Default, b.callbackAttempt(0).code)
    ensures Deliver(output, callbackURL, b) == CalledBack(output)
  {
  }

  /** A callback that keeps failing with a retriable error is tried four times, then the worker exits 1. */
  lemma UnreachableCallback(output: Artifacts, callbackURL: string, b: Backends)
    requires callbackURL != "" && b.newRequest(callbackURL).None?
    requires forall n :: b.callbackAttempt(n) == RetryTransport.Error(RetryOn.Temporary)
    requires forall n :: !b.callbackCancelled(n)
    ensures Deliver(output, callbackURL, b) == Exited(1, "failed to send callback")
    ensures RetryTransport.RoundTrip(CallbackTransport(b.entropy), 0, b.callbackAttempt, b.callbackCancelled).calls == 4
  {
    var t := CallbackTransport(b.entropy);
    assert RetryOn.RetriableError(RetryOn.Default, RetryOn.Temporary);
    assert RetryTransport.RoundTrip(t, 3, b.callbackAttempt, b.callbackCancelled).calls == 1;
    assert RetryTransport.RoundTrip(t, 2, b.callbackAttempt, b.callbackCancelled).calls == 2;
    assert RetryTransport.RoundTrip(t, 1, b.callbackAttempt, b.callbackCancelled).calls == 3;
  }
}
