/**
 * What the worker and capture commands hand to the browser: the Playwright configuration,
 * starting from its defaults and overwritten field by field from the flags, and the capture
 * options (mask selectors and extra request headers). Durations are in nanoseconds, as Go's
 * time.Duration.
 */
module CaptureConfig {
  import opened Wrappers

  const Second: int := 1000000000

  datatype PlaywrightConfig = PlaywrightConfig(
    viewportWidth: int,
    viewportHeight: int,
    fullPage: bool,
    format: string,
    quality: int,
    timeout: int,
    delay: int,
    headless: bool,
    userAgent: string,
    chromeDevtoolsProtocolURL: string)

  /** DefaultPlaywrightConfig: a 1920x1080 full-page JPEG at quality 85, 30 s timeout, 3 s delay, headless. */
  const DefaultConfig: PlaywrightConfig :=
    PlaywrightConfig(1920, 1080, true, "jpeg", 85, 30 * Second, 3 * Second, true, "", "")

  /** The flag values the commands copy into the configuration; the worker has no user agent flag. */
  datatype ConfigFlags = ConfigFlags(
    format: string,
    delay: int,
    chromeDevtoolsProtocolURL: string,
    display: string,
    viewportWidth: int,
    viewportHeight: int,
    userAgent: string)

  /**
   * The defaults with every non-empty string and every positive number from the flags written
   * over them; a set DISPLAY turns headless mode off. Full page, quality and timeout stay.
   */
  function Configured(f: ConfigFlags): (c: PlaywrightConfig)
    ensures c.format == (if f.format != "" then f.format else "jpeg")
    ensures c.delay == (if f.delay > 0 then f.delay else 3 * Second)
    ensures c.chromeDevtoolsProtocolURL == f.chromeDevtoolsProtocolURL
    ensures c.headless <==> f.display == ""
    ensures c.viewportWidth == (if f.viewportWidth > 0 then f.viewportWidth else 1920)
    ensures c.viewportHeight == (if f.viewportHeight > 0 then f.viewportHeight else 1080)
    ensures c.userAgent == f.userAgent
    ensures c.fullPage && c.quality == 85 && c.timeout == 30 * Second
  {
    DefaultConfig.(
      format := if f.format != "" then f.format else DefaultConfig.format,
      delay := if f.delay > 0 then f.delay else DefaultConfig.delay,
      chromeDevtoolsProtocolURL := if f.chromeDevtoolsProtocolURL != "" then f.chromeDevtoolsProtocolURL else DefaultConfig.chromeDevtoolsProtocolURL,
      headless := if f.display != "" then false else DefaultConfig.headless,
      viewportWidth := if f.viewportWidth > 0 then f.viewportWidth else DefaultConfig.viewportWidth,
      viewportHeight := if f.viewportHeight > 0 then f.viewportHeight else DefaultConfig.viewportHeight,
      userAgent := if f.userAgent != "" then f.userAgent else DefaultConfig.userAgent)
  }

  /** The sequence of guarded field writes both commands perform on the default configuration. */
  method Configure(f: ConfigFlags) returns (config: PlaywrightConfig)
    ensures config == Configured(f)
  {
    config := DefaultConfig;
    if f.format != "" {
      config := config.(format := f.format);
    }
    if f.delay > 0 {
      config := config.(delay := f.delay);
    }
    if f.chromeDevtoolsProtocolURL != "" {
      config := config.(chromeDevtoolsProtocolURL := f.chromeDevtoolsProtocolURL);
    }
    if f.display != "" {
      config := config.(headless := false);
    }
    if f.viewportWidth > 0 {
      config := config.(viewportWidth := f.viewportWidth);
    }
    if f.viewportHeight > 0 {
      config := config.(viewportHeight := f.viewportHeight);
    }
    if f.userAgent != "" {
      config := config.(userAgent := f.userAgent);
    }
  }

  /** Flags at their zero values change nothing: the configuration is the default one. */
  lemma ZeroFlagsKeepDefaults()
    ensures Configured(ConfigFlags("", 0, "", "", 0, 0, "")) == DefaultConfig
  {
  }

  /** A negative or zero size or delay never reaches the browser. */
  lemma ConfiguredPositive(f: ConfigFlags)
    ensures Configured(f).viewportWidth > 0 && Configured(f).viewportHeight > 0 && Configured(f).delay > 0
  {
  }

  /** Mask selectors and request headers; a nil header map is None. */
  datatype CaptureOptions = CaptureOptions(maskSelectors: seq<string>, headers: Option<map<string, string>>)
}
