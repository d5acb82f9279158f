/**
 * The capture command: parse its flags and the URL, open file storage in the output
 * directory, build the browser configuration and capture options, capture the page, store
 * the screenshot and the HTML under one key base, and print the two stored paths as JSON.
 * Flag defaults are the built-in ones (the environment overrides of each default are not
 * modelled); DISPLAY, the integer and duration conversions, storage, the browser, the hash
 * and the clock are inputs.
 */
module CaptureCli {
  import opened Wrappers
  import opened GoFlag
  import CliFlags
  import opened CaptureConfig
  import opened SnapshotPipeline

  /** The flag variables after flag.Parse; the repeatable -H collects its values in order. */
  datatype CaptureFlags = CaptureFlags(
    directory: string,
    format: string,
    maskSelectors: string,
    delay: int,
    viewportWidth: int,
    viewportHeight: int,
    userAgent: string,
    chromeDevtoolsProtocolURL: string,
    headers: seq<string>)

  const CaptureDefaults: CaptureFlags := CaptureFlags("/tmp", "jpeg", "", 3 * Second, 1920, 1080, "", "", [])

  const CaptureFlagNames: set<string> :=
    {"directory", "format", "mask-selectors", "delay", "viewport-width", "viewport-height",
     "user-agent", "chrome-devtools-protocol-url", "H"}

  /** The flags of the command that hold a string, by name. */
  predicate IsTextFlag(name: string)
  {
    name == "directory" || name == "format" || name == "mask-selectors" || name == "user-agent" ||
    name == "chrome-devtools-protocol-url"
  }

  function TextFlag(f: CaptureFlags, name: string): string
  {
    if name == "directory" then f.directory
    else if name == "format" then f.format
    else if name == "mask-selectors" then f.maskSelectors
    else if name == "user-agent" then f.userAgent
    else if name == "chrome-devtools-protocol-url" then f.chromeDevtoolsProtocolURL
    else ""
  }

  /**
   * The Set method of the flag one occurrence names: a string flag takes the value, a number
   * or duration flag its conversion (or the conversion's error), and -H appends.
   */
  function SetCaptureFlag(f: CaptureFlags, s: Setting, conv: Conversions): (r: Result<CaptureFlags>)
    ensures IsTextFlag(s.name) ==> r.Ok? && TextFlag(r.value, s.name) == s.value
    ensures r.Ok? ==> forall n :: IsTextFlag(n) && n != s.name ==> TextFlag(r.value, n) == TextFlag(f, n)
    ensures r.Ok? ==> r.value.headers == f.headers + (if s.name == "H" then [s.value] else [])
    ensures s.name == "delay" ==> (r.Ok? <==> conv.parseDuration(s.value).Ok?)
    ensures s.name == "viewport-width" || s.name == "viewport-height" ==> (r.Ok? <==> conv.parseInt(s.value).Ok?)
  {
    var v := s.value;
    if s.name == "directory" then Ok(f.(directory := v))
    else if s.name == "format" then Ok(f.(format := v))
    else if s.name == "mask-selectors" then Ok(f.(maskSelectors := v))
    else if s.name == "user-agent" then Ok(f.(userAgent := v))
    else if s.name == "chrome-devtools-protocol-url" then Ok(f.(chromeDevtoolsProtocolURL := v))
    else if s.name == "H" then Ok(f.(headers := f.headers + [v]))
    else if s.name == "delay" then
      var d :- conv.parseDuration(v);
      Ok(f.(delay := d))
    else if s.name == "viewport-width" then
      var n :- conv.parseInt(v);
      Ok(f.(viewportWidth := n))
    else if s.name == "viewport-height" then
      var n :- conv.parseInt(v);
      Ok(f.(viewportHeight := n))
    else Ok(f)
  }

  /** Every occurrence applied in command-line order; the first failing conversion is the error. */
  function SetCaptureFlags(f: CaptureFlags, settings: seq<Setting>, conv: Conversions): Result<CaptureFlags>
  {
    if |settings| == 0 then Ok(f)
    else
      var g :- SetCaptureFlags(f, settings[..|settings| - 1], conv);
      SetCaptureFlag(g, settings[|settings| - 1], conv)
  }

  /** SetCaptureFlags read from the front: the first occurrence is set first, then the rest from there. */
  lemma {:induction false} SetCaptureFlagsCons(f: CaptureFlags, s: Setting, rest: seq<Setting>, conv: Conversions)
    ensures SetCaptureFlags(f, [s] + rest, conv) ==
            match SetCaptureFlag(f, s, conv)
            case Err(m) => Err(m)
            case Ok(g) => SetCaptureFlags(g, rest, conv)
    decreases |rest|
  {
    if |rest| == 0 {
      assert ([s] + rest)[..0] == [];
    } else {
      var init := rest[..|rest| - 1];
      SetCaptureFlagsCons(f, s, init, conv);
      assert ([s] + rest)[..|rest|] == [s] + init;
    }
  }

  /**
   * FlagSet.Parse as main runs it: each occurrence goes to its flag's Set method as soon as it
   * is read, so a value that does not convert ends the parse there, before a later syntax
   * error, undefined flag or -h is seen. The result is the flag values and the positionals.
   */
  function ParseCaptureFlags(args: seq<string>, f: CaptureFlags, conv: Conversions): Result<(CaptureFlags, seq<string>)>
    decreases |args|
  {
    match Head(args, CaptureFlagNames)
    case Halt(o) => Ok((f, o.positionals))
    case Bad(msg) => Err(msg)
    case Flag(s, width) =>
      match SetCaptureFlag(f, s, conv)
      case Err(cause) => Err(InvalidValue(s, cause))
      case Ok(g) => ParseCaptureFlags(args[width..], g, conv)
  }

  /**
   * Setting while parsing succeeds exactly when the syntax parse succeeds and all its
   * occurrences then set in order, and gives the same flags and positionals.
   */
  lemma {:induction false} ParseCaptureFlagsAgrees(args: seq<string>, f: CaptureFlags, conv: Conversions)
    ensures ParseCaptureFlags(args, f, conv).Ok? <==>
            Parse(args, CaptureFlagNames).Ok? && SetCaptureFlags(f, Parse(args, CaptureFlagNames).value.settings, conv).Ok?
    ensures ParseCaptureFlags(args, f, conv).Ok? ==>
            ParseCaptureFlags(args, f, conv).value ==
            (SetCaptureFlags(f, Parse(args, CaptureFlagNames).value.settings, conv).value,
             Parse(args, CaptureFlagNames).value.positionals)
    ensures Parse(args, CaptureFlagNames).Ok? && ParseCaptureFlags(args, f, conv).Err? ==>
              ParseCaptureFlags(args, f, conv).msg != HelpRequested
    decreases |args|
  {
    match Head(args, CaptureFlagNames)
    case Halt(o) =>
    case Bad(msg) =>
    case Flag(s, width) =>
      var rest := Parse(args[width..], CaptureFlagNames);
      if rest.Ok? {
        SetCaptureFlagsCons(f, s, rest.value.settings, conv);
      }
      if SetCaptureFlag(f, s, conv).Ok? {
        ParseCaptureFlagsAgrees(args[width..], SetCaptureFlag(f, s, conv).value, conv);
      }
  }

  /** Once a URL has been reached, whatever is appended after it only lengthens the positionals. */
  lemma {:induction false} ParseCaptureFlagsExtends(args: seq<string>, extra: seq<string>, f: CaptureFlags, conv: Conversions)
    requires Parse(args, CaptureFlagNames).Ok? && |Parse(args, CaptureFlagNames).value.positionals| > 0
    ensures ParseCaptureFlags(args + extra, f, conv) ==
            match ParseCaptureFlags(args, f, conv)
            case Err(m) => Err(m)
            case Ok(p) => Ok((p.0, p.1 + extra))
    decreases |args|
  {
    var h := Head(args, CaptureFlagNames);
    if h.Flag? {
      HeadFlagExtends(args, extra, CaptureFlagNames);
      assert (args + extra)[h.width..] == args[h.width..] + extra;
      var g := SetCaptureFlag(f, h.setting, conv);
      if g.Ok? {
        ParseCaptureFlagsExtends(args[h.width..], extra, g.value, conv);
      }
    } else {
      HeadHaltExtends(args, extra, CaptureFlagNames);
    }
  }

  /** Whatever else is given, -H collects exactly its values, in command-line order. */
  lemma {:induction false} CaptureHeadersCollected(f: CaptureFlags, settings: seq<Setting>, conv: Conversions)
    requires SetCaptureFlags(f, settings, conv).Ok?
    ensures SetCaptureFlags(f, settings, conv).value.headers == f.headers + AllValues(settings, "H")
  {
    if |settings| > 0 {
      var init := settings[..|settings| - 1];
      CaptureHeadersCollected(f, init, conv);
    }
  }

  /** Every string flag holds the value of its last occurrence, or its default. */
  lemma {:induction false} CaptureTextFlagsLast(f: CaptureFlags, settings: seq<Setting>, conv: Conversions, n: string)
    requires SetCaptureFlags(f, settings, conv).Ok? && IsTextFlag(n)
    ensures TextFlag(SetCaptureFlags(f, settings, conv).value, n) == LastValue(settings, n, TextFlag(f, n))
  {
    if |settings| > 0 {
      var init, last := settings[..|settings| - 1], settings[|settings| - 1];
      CaptureTextFlagsLast(f, init, conv, n);
      var g := SetCaptureFlags(f, init, conv).value;
      assert SetCaptureFlags(f, settings, conv) == SetCaptureFlag(g, last, conv);
    }
  }

  // ---------------------------------------------------------------- invocation

  /** The environment: DISPLAY and the flag conversions. */
  datatype CaptureEnv = CaptureEnv(display: string, conv: Conversions)

  /** What main has gathered once the flags are valid and a URL is present. */
  datatype CaptureInvocation = CaptureInvocation(
    url: string,
    directory: string,
    config: PlaywrightConfig,
    options: CaptureOptions)

  /** How the start of main ends: a run, or an exit status (2 for a flag error, 0 for -h, 1 without a URL). */
  datatype CaptureStart = Capturing(inv: CaptureInvocation) | Quit(code: nat, reason: string)

  /** The header map is built only when -H was given; otherwise the options carry none. */
  function CaptureHeaders(lines: seq<string>): (h: Option<map<string, string>>)
    ensures h.None? <==> lines == []
    ensures h.Some? ==> h.value == CliFlags.HeaderMap(lines, map[])
  {
    if |lines| > 0 then Some(CliFlags.HeaderMap(lines, map[])) else None
  }

  function CaptureFlagsInvocation(f: CaptureFlags, url: string, env: CaptureEnv): CaptureInvocation
  {
    CaptureInvocation(
      url, f.directory,
      Configured(ConfigFlags(f.format, f.delay, f.chromeDevtoolsProtocolURL, env.display,
                             f.viewportWidth, f.viewportHeight, f.userAgent)),
      CaptureOptions(CliFlags.Selectors(f.maskSelectors), CaptureHeaders(f.headers)))
  }

  /** Flag parsing, then the URL: the first positional argument; any others are ignored. */
  function CaptureInvoke(args: seq<string>, env: CaptureEnv): (s: CaptureStart)
    ensures s.Capturing? ==>
              Parse(args, CaptureFlagNames).Ok? && |Parse(args, CaptureFlagNames).value.positionals| > 0 &&
              s.inv.url == Parse(args, CaptureFlagNames).value.positionals[0]
    ensures Parse(args, CaptureFlagNames).Err? ==> s.Quit? && s.code != 1
    ensures Parse(args, CaptureFlagNames).Ok? && Parse(args, CaptureFlagNames).value.positionals == [] ==> s.Quit?
    ensures Parse(args, CaptureFlagNames).Ok? &&
            SetCaptureFlags(CaptureDefaults, Parse(args, CaptureFlagNames).value.settings, env.conv).Err? ==>
              s.Quit? && s.code == 2
  {
    ParseCaptureFlagsAgrees(args, CaptureDefaults, env.conv);
    var r := ParseCaptureFlags(args, CaptureDefaults, env.conv);
    if r.Err? then Quit(if r.msg == HelpRequested then 0 else 2, r.msg)
    else if |r.value.1| == 0 then Quit(1, "url not specified")
    else Capturing(CaptureFlagsInvocation(r.value.0, r.value.1[0], env))
  }

  /** Once the flags parse and convert, a URL starts the capture and its absence stops with status 1. */
  lemma CaptureInvokeParsed(args: seq<string>, env: CaptureEnv)
    requires Parse(args, CaptureFlagNames).Ok?
    requires SetCaptureFlags(CaptureDefaults, Parse(args, CaptureFlagNames).value.settings, env.conv).Ok?
    ensures var positionals := Parse(args, CaptureFlagNames).value.positionals;
            var f := SetCaptureFlags(CaptureDefaults, Parse(args, CaptureFlagNames).value.settings, env.conv).value;
            CaptureInvoke(args, env) ==
            if |positionals| == 0 then Quit(1, "url not specified") else Capturing(CaptureFlagsInvocation(f, positionals[0], env))
  {
    ParseCaptureFlagsAgrees(args, CaptureDefaults, env.conv);
  }

  /** Valid flags without a URL stop the command with status 1. */
  lemma NoUrlQuits(args: seq<string>, env: CaptureEnv)
    requires Parse(args, CaptureFlagNames).Ok?
    requires SetCaptureFlags(CaptureDefaults, Parse(args, CaptureFlagNames).value.settings, env.conv).Ok?
    requires Parse(args, CaptureFlagNames).value.positionals == []
    ensures CaptureInvoke(args, env) == Quit(1, "url not specified")
  {
    CaptureInvokeParsed(args, env);
  }

  /** Arguments after the URL change nothing: the command captures the first positional only. */
  lemma ExtraArgumentsIgnored(args: seq<string>, extra: seq<string>, env: CaptureEnv)
    requires Parse(args, CaptureFlagNames).Ok? && |Parse(args, CaptureFlagNames).value.positionals| > 0
    ensures CaptureInvoke(args + extra, env) == CaptureInvoke(args, env)
  {
    ParseCaptureFlagsAgrees(args, CaptureDefaults, env.conv);
    ParseCaptureFlagsExtends(args, extra, CaptureDefaults, env.conv);
  }

  /** The request headers reach the browser exactly when -H was given, parsed as the worker parses them. */
  lemma HeadersOnlyWithFlag(args: seq<string>, env: CaptureEnv)
    requires CaptureInvoke(args, env).Capturing?
    ensures var o := Parse(args, CaptureFlagNames).value;
            var h := CaptureInvoke(args, env).inv.options.headers;
            (h.None? <==> AllValues(o.settings, "H") == []) &&
            (h.Some? ==> h.value == CliFlags.HeaderMap(AllValues(o.settings, "H"), map[]))
  {
    ParseCaptureFlagsAgrees(args, CaptureDefaults, env.conv);
    var o := Parse(args, CaptureFlagNames).value;
    var f := SetCaptureFlags(CaptureDefaults, o.settings, env.conv).value;
    CaptureInvokeParsed(args, env);
    assert CaptureInvoke(args, env) == Capturing(CaptureFlagsInvocation(f, o.positionals[0], env));
    CaptureHeadersCollected(CaptureDefaults, o.settings, env.conv);
    assert f.headers == AllValues(o.settings, "H");
  }

  // ---------------------------------------------------------------- run

  /** The outside world of one run. */
  datatype CaptureBackends = CaptureBackends(
    openStorage: string -> Option<string>,                           // NewFileStorage: None, or its error
    put: (string, string, Bytes) -> Result<string>,                  // Put under the directory, giving a path
    newCapturer: PlaywrightConfig -> Option<string>,                 // NewPlaywrightCapturer: None, or its error
    browser: (PlaywrightConfig, CaptureOptions, string) -> Result<Captured>,
    hash: string -> string,                                          // first 16 hex digits of sha256
    timestamp: string)                                               // the clock, as yyyyMMddHHmmss

  /** The JSON object the command prints. */
  datatype SnapshotResult = SnapshotResult(screenshotPath: string, htmlPath: string)

  datatype CaptureEnd = Wrote(result: SnapshotResult) | CaptureExited(code: nat, reason: string)

  /** The screenshot key (with the configured format as extension) and the HTML key, sharing one base. */
  function CaptureKeys(url: string, format: string, b: CaptureBackends): (keys: (string, string))
    ensures var base := CaptureBase("Snapshot", b.hash(url), b.timestamp);
            keys.0 == base + "." + format && keys.1 == base + ".html"
  {
    var base := CaptureBase("Snapshot", b.hash(url), b.timestamp);
    (base + "." + format, base + ".html")
  }

  /** The two uploads of the error group; the screenshot's error is the one reported when both fail. */
  function Uploads(inv: CaptureInvocation, c: Captured, b: CaptureBackends): (r: Result<SnapshotResult>)
    ensures var keys := CaptureKeys(inv.url, inv.config.format, b);
            (r.Ok? <==> b.put(inv.directory, keys.0, c.screenshot).Ok? && b.put(inv.directory, keys.1, c.html).Ok?) &&
            (r.Ok? ==> r.value == SnapshotResult(b.put(inv.directory, keys.0, c.screenshot).value,
                                                 b.put(inv.directory, keys.1, c.html).value))
  {
    var keys := CaptureKeys(inv.url, inv.config.format, b);
    var image :- b.put(inv.directory, keys.0, c.screenshot);
    var html :- b.put(inv.directory, keys.1, c.html);
    Ok(SnapshotResult(image, html))
  }

  /** The whole command: start, open storage, create the capturer, capture, upload, print. */
  function CaptureRun(args: seq<string>, env: CaptureEnv, b: CaptureBackends): CaptureEnd
  {
    match CaptureInvoke(args, env)
    case Quit(code, reason) => CaptureExited(code, reason)
    case Capturing(inv) =>
      if b.openStorage(inv.directory).Some? then
        CaptureExited(1, "Failed to create storage backend: " + b.openStorage(inv.directory).value)
      else if b.newCapturer(inv.config).Some? then
        CaptureExited(1, "Failed to create capturer: " + b.newCapturer(inv.config).value)
      else
        match b.browser(inv.config, inv.options, inv.url)
        case Err(m) => CaptureExited(1, "Failed to capture screenshot: " + m)
        case Ok(c) =>
          match Uploads(inv, c, b)
          case Err(m) => CaptureExited(1, "Failed to upload: " + m)
          case Ok(result) => Wrote(result)
  }

  /** main, step by step: the flag checks, the config writes, the loops over selectors and -H values, the uploads. */
  method CaptureMain(args: seq<string>, env: CaptureEnv, b: CaptureBackends) returns (end: CaptureEnd)
    ensures end == CaptureRun(args, env, b)
  {
    var parsed := ParseCaptureFlags(args, CaptureDefaults, env.conv);
    if parsed.Err? {
      return CaptureExited(if parsed.msg == HelpRequested then 0 else 2, parsed.msg);
    }
    var f, positionals := parsed.value.0, parsed.value.1;
    if |positionals| == 0 {
      return CaptureExited(1, "url not specified");
    }
    var url := positionals[0];
    var storageErr := b.openStorage(f.directory);
    if storageErr.Some? {
      return CaptureExited(1, "Failed to create storage backend: " + storageErr.value);
    }
    var config := Configure(ConfigFlags(f.format, f.delay, f.chromeDevtoolsProtocolURL, env.display,
                                        f.viewportWidth, f.viewportHeight, f.userAgent));
    var capturerErr := b.newCapturer(config);
    if capturerErr.Some? {
      return CaptureExited(1, "Failed to create capturer: " + capturerErr.value);
    }
    var selectors := CliFlags.SplitMaskSelectors(f.maskSelectors);
    var headers: Option<map<string, string>> := None;
    if |f.headers| > 0 {
      var m := CliFlags.ParseHeaders(f.headers, map[]);
      headers := Some(m);
    }
    var inv := CaptureInvocation(url, f.directory, config, CaptureOptions(selectors, headers));
    assert inv == CaptureFlagsInvocation(f, url, env);
    var captured := b.browser(config, inv.options, url);
    if captured.Err? {
      return CaptureExited(1, "Failed to capture screenshot: " + captured.msg);
    }
    var c := captured.value;
    var base := CaptureBase("Snapshot", b.hash(url), b.timestamp);
    var imagePath := b.put(f.directory, base + "." + config.format, c.screenshot);
    if imagePath.Err? {
      return CaptureExited(1, "Failed to upload: " + imagePath.msg);
    }
    var htmlPath := b.put(f.directory, base + ".html", c.html);
    if htmlPath.Err? {
      return CaptureExited(1, "Failed to upload: " + htmlPath.msg);
    }
    end := Wrote(SnapshotResult(imagePath.value, htmlPath.value));
  }

  // ---------------------------------------------------------------- properties

  /**
   * A run that prints its result has stored the captured screenshot and HTML under keys of the
   * captured URL, and prints exactly the two paths storage gave back.
   */
  lemma WroteStoresBoth(args: seq<string>, env: CaptureEnv, b: CaptureBackends)
    requires CaptureRun(args, env, b).Wrote?
    ensures CaptureInvoke(args, env).Capturing?
    ensures var inv := CaptureInvoke(args, env).inv;
            var keys := CaptureKeys(inv.url, inv.config.format, b);
            var r := CaptureRun(args, env, b).result;
            b.browser(inv.config, inv.options, inv.url).Ok? &&
            b.put(inv.directory, keys.0, b.browser(inv.config, inv.options, inv.url).value.screenshot) == Ok(r.screenshotPath) &&
            b.put(inv.directory, keys.1, b.browser(inv.config, inv.options, inv.url).value.html) == Ok(r.htmlPath)
  {
  }
}
