/**
 * What the worker makes of the argument list the controllers build for it. Written with the
 * two URLs first, the list stops Go's flag parsing at its first element, so every flag is taken
 * for a URL and the worker exits. The corrected list puts each flag, under the name the worker
 * defines, before a "--" terminator and the URLs after it; the worker then reads back exactly
 * what the controller meant.
 */
module WorkerInvocation {
  import opened Wrappers
  import opened StringUtil
  import opened GoFlag
  import CliFlags
  import opened CaptureConfig
  import opened WorkerArgs
  import opened WorkerCli

  /** The list as the controllers write it never starts a run: the worker sees eight or more URLs. */
  lemma AsWrittenArgsRejected(first: string, second: string, screenshotDiffFormat: string, htmlDiffFormat: string,
                              callbackFlag: string, callbackURL: string, selectors: seq<string>,
                              h: map<string, string>, order: seq<string>, env: Env)
    requires IsKeyOrder(h, order) && !LooksLikeFlag(first)
    ensures Invoke(Args(first, second, screenshotDiffFormat, htmlDiffFormat, callbackFlag, callbackURL, selectors, h, order), env)
            == Stop(1, "want exactly two URLs")
  {
    var args := Args(first, second, screenshotDiffFormat, htmlDiffFormat, callbackFlag, callbackURL, selectors, h, order);
    StopsAtFirstPositional(args, FlagNames);
    assert SetAll(Defaults, [], env.conv) == Ok(Defaults);
    InvokeParsed(args, env);
  }

  /**
   * The Snapshot Job as written passes its callback URL under "--callback", a flag the worker
   * does not define: once the parser reaches it the worker stops with status 2.
   */
  lemma AsWrittenCallbackUndefined(url: string, rest: seq<string>, env: Env)
    ensures Parse(["--callback", url] + rest, FlagNames) == Err("flag provided but not defined: -callback")
    ensures Invoke(["--callback", url] + rest, env) == Stop(2, "flag provided but not defined: -callback")
  {
    var args := ["--callback", url] + rest;
    assert args[0] == "--callback";
    CallbackName();
  }

  /** "--callback" names "callback", which has no '=' and is not among the worker's flags. */
  lemma CallbackName()
    ensures "--callback"[2..] == "callback" && "--callback"[1] == '-'
    ensures SplitFirst("callback", '=') == None
    ensures "callback" !in FlagNames
  {
    var c := "callback";
    assert |c| == 8;
    assert forall i :: 0 <= i < |c| ==> c[i] != '=';
  }

  /** The names the corrected list uses are read back from "--name" and are all defined. */
  lemma WorkerNamesDefined()
    ensures PlainName("screenshot-diff-format") && PlainName("html-diff-format") && PlainName("callback-url")
    ensures PlainName("mask-selectors") && PlainName("H")
    ensures {"screenshot-diff-format", "html-diff-format", "callback-url", "mask-selectors", "H"} <= FlagNames
  {
    assert "screenshot-diff-format"[0] == 's';
  }

  /** Applying one more occurrence after a list that applied cleanly. */
  lemma SetAllSnoc(f: WorkerFlags, settings: seq<Setting>, last: Setting, conv: Conversions)
    requires SetAll(f, settings, conv).Ok?
    ensures SetAll(f, settings + [last], conv) == SetFlag(SetAll(f, settings, conv).value, last, conv)
  {
    assert (settings + [last])[..|settings|] == settings;
  }

  lemma SnocAssoc<T>(a: seq<T>, b: seq<T>, x: T)
    ensures a + (b + [x]) == (a + b) + [x]
  {
  }

  lemma LastSplit<T>(s: seq<T>)
    requires |s| > 0
    ensures s[..|s| - 1] + [s[|s| - 1]] == s
  {
  }

  lemma HeaderFlagAppends(f: WorkerFlags, line: string, conv: Conversions)
    ensures SetFlag(f, Setting("H", line), conv) == Ok(f.(headers := f.headers + [line]))
  {
  }

  /** -H occurrences only append their values to the header list. */
  lemma {:induction false} HeadersAppended(f: WorkerFlags, fixed: seq<Setting>, lines: seq<string>, conv: Conversions)
    requires SetAll(f, fixed, conv).Ok?
    ensures var g := SetAll(f, fixed, conv).value;
            SetAll(f, fixed + Repeated("H", lines), conv) == Ok(g.(headers := g.headers + lines))
  {
    var g := SetAll(f, fixed, conv).value;
    if |lines| == 0 {
      assert fixed + Repeated("H", lines) == fixed;
      assert g.headers + lines == g.headers;
    } else {
      var n := |lines| - 1;
      HeadersAppended(f, fixed, lines[..n], conv);
      RepeatedSnoc("H", lines, n);
      assert lines[..n + 1] == lines;
      SnocAssoc(fixed, Repeated("H", lines[..n]), Setting("H", lines[n]));
      SetAllSnoc(f, fixed + Repeated("H", lines[..n]), Setting("H", lines[n]), conv);
      SnocAssoc(g.headers, lines[..n], lines[n]);
      LastSplit(lines);
      HeaderFlagAppends(g.(headers := g.headers + lines[..n]), lines[n], conv);
    }
  }

  /** The flag variables the corrected list leaves behind. */
  function IntendedFlags(screenshotDiffFormat: string, htmlDiffFormat: string, callbackURL: string,
                         selectors: seq<string>, lines: seq<string>): WorkerFlags
  {
    Defaults.(screenshotDiffFormat := screenshotDiffFormat, htmlDiffFormat := htmlDiffFormat, callbackURL := callbackURL,
              maskSelectors := if |selectors| > 0 then Join(selectors, [',']) else "", headers := lines)
  }

  lemma SetScreenshotDiffFormat(f: WorkerFlags, v: string, conv: Conversions)
    ensures SetFlag(f, Setting("screenshot-diff-format", v), conv) == Ok(f.(screenshotDiffFormat := v))
  {
  }

  lemma SetHtmlDiffFormat(f: WorkerFlags, v: string, conv: Conversions)
    ensures SetFlag(f, Setting("html-diff-format", v), conv) == Ok(f.(htmlDiffFormat := v))
  {
  }

  lemma SetCallbackURL(f: WorkerFlags, v: string, conv: Conversions)
    ensures SetFlag(f, Setting("callback-url", v), conv) == Ok(f.(callbackURL := v))
  {
  }

  lemma SetMaskSelectors(f: WorkerFlags, v: string, conv: Conversions)
    ensures SetFlag(f, Setting("mask-selectors", v), conv) == Ok(f.(maskSelectors := v))
  {
  }

  /** The fixed flags of the corrected list: the two formats, the callback URL, the selectors. */
  lemma FixedFlags(screenshotDiffFormat: string, htmlDiffFormat: string, callbackURL: string,
                   selectors: seq<string>, conv: Conversions)
    ensures var fixed := [Setting("screenshot-diff-format", screenshotDiffFormat), Setting("html-diff-format", htmlDiffFormat),
                          Setting("callback-url", callbackURL)] +
                         (if |selectors| > 0 then [Setting("mask-selectors", Join(selectors, [',']))] else []);
            SetAll(Defaults, fixed, conv) == Ok(IntendedFlags(screenshotDiffFormat, htmlDiffFormat, callbackURL, selectors, []))
  {
    var s0, s1, s2 := Setting("screenshot-diff-format", screenshotDiffFormat), Setting("html-diff-format", htmlDiffFormat),
                      Setting("callback-url", callbackURL);
    var f0 := Defaults.(screenshotDiffFormat := screenshotDiffFormat);
    var f1 := f0.(htmlDiffFormat := htmlDiffFormat);
    var f2 := f1.(callbackURL := callbackURL);
    assert SetAll(Defaults, [s0], conv) == Ok(f0) by {
      SetAllSnoc(Defaults, [], s0, conv);
      SetScreenshotDiffFormat(Defaults, screenshotDiffFormat, conv);
    }
    assert SetAll(Defaults, [s0, s1], conv) == Ok(f1) by {
      SetAllSnoc(Defaults, [s0], s1, conv);
      SetHtmlDiffFormat(f0, htmlDiffFormat, conv);
      assert [s0] + [s1] == [s0, s1];
    }
    assert SetAll(Defaults, [s0, s1, s2], conv) == Ok(f2) by {
      SetAllSnoc(Defaults, [s0, s1], s2, conv);
      SetCallbackURL(f1, callbackURL, conv);
      assert [s0, s1] + [s2] == [s0, s1, s2];
    }
    if |selectors| > 0 {
      SetAllSnoc(Defaults, [s0, s1, s2], Setting("mask-selectors", Join(selectors, [','])), conv);
      SetMaskSelectors(f2, Join(selectors, [',']), conv);
      assert f2.(maskSelectors := Join(selectors, [','])) ==
             IntendedFlags(screenshotDiffFormat, htmlDiffFormat, callbackURL, selectors, []);
    } else {
      assert [s0, s1, s2] + [] == [s0, s1, s2];
      assert f2 == IntendedFlags(screenshotDiffFormat, htmlDiffFormat, callbackURL, selectors, []);
    }
  }

  /** The flags the corrected list sets: the three strings, the joined selectors when any, the -H lines. */
  lemma CorrectedFlags(screenshotDiffFormat: string, htmlDiffFormat: string, callbackURL: string,
                       selectors: seq<string>, h: map<string, string>, order: seq<string>, conv: Conversions)
    requires IsKeyOrder(h, order)
    ensures SetAll(Defaults, WorkerSettings(screenshotDiffFormat, htmlDiffFormat, callbackURL, selectors, h, order), conv)
            == Ok(IntendedFlags(screenshotDiffFormat, htmlDiffFormat, callbackURL, selectors, CliFlags.HeaderLines(h, order)))
  {
    var fixed := [Setting("screenshot-diff-format", screenshotDiffFormat), Setting("html-diff-format", htmlDiffFormat),
                  Setting("callback-url", callbackURL)] +
                 (if |selectors| > 0 then [Setting("mask-selectors", Join(selectors, [',']))] else []);
    var lines := CliFlags.HeaderLines(h, order);
    assert WorkerSettings(screenshotDiffFormat, htmlDiffFormat, callbackURL, selectors, h, order) == fixed + Repeated("H", lines);
    FixedFlags(screenshotDiffFormat, htmlDiffFormat, callbackURL, selectors, conv);
    HeadersAppended(Defaults, fixed, lines, conv);
    var g := IntendedFlags(screenshotDiffFormat, htmlDiffFormat, callbackURL, selectors, []);
    assert g.headers + lines == lines;
    assert g.(headers := lines) == IntendedFlags(screenshotDiffFormat, htmlDiffFormat, callbackURL, selectors, lines);
  }

  /** Every name in the corrected list is plain and defined, so the list parses back to its settings. */
  lemma CorrectedParse(first: string, second: string, screenshotDiffFormat: string, htmlDiffFormat: string,
                       callbackURL: string, selectors: seq<string>, h: map<string, string>, order: seq<string>)
    requires IsKeyOrder(h, order)
    ensures Parse(CorrectedArgs(first, second, screenshotDiffFormat, htmlDiffFormat, callbackURL, selectors, h, order), FlagNames)
            == Ok(Outcome(WorkerSettings(screenshotDiffFormat, htmlDiffFormat, callbackURL, selectors, h, order), [first, second]))
  {
    var settings := WorkerSettings(screenshotDiffFormat, htmlDiffFormat, callbackURL, selectors, h, order);
    WorkerNamesDefined();
    assert forall i :: 0 <= i < |settings| ==>
      settings[i].name in {"screenshot-diff-format", "html-diff-format", "callback-url", "mask-selectors", "H"};
    EncodeParse(settings, [first, second], FlagNames);
  }

  /** What main gathers from the intended flag variables and the two URLs. */
  lemma IntendedInvocation(first: string, second: string, screenshotDiffFormat: string, htmlDiffFormat: string,
                           callbackURL: string, selectors: seq<string>,
                           h: map<string, string>, order: seq<string>, env: Env)
    requires IsKeyOrder(h, order)
    requires forall k :: k in h ==> CliFlags.HeaderSafe(k, h[k])
    requires forall i :: 0 <= i < |selectors| ==> CliFlags.SelectorSafe(selectors[i])
    requires env.headersJSON.None?
    ensures FlagsInvocation(IntendedFlags(screenshotDiffFormat, htmlDiffFormat, callbackURL, selectors, CliFlags.HeaderLines(h, order)),
                            [first, second], env)
            == Invocation(first, second,
                          Configured(ConfigFlags("jpeg", 3 * Second, "", env.display, 1920, 1080, "")),
                          CaptureOptions(selectors, Some(h)),
                          screenshotDiffFormat, htmlDiffFormat, "file", callbackURL)
  {
    CliFlags.SelectorsRoundTrip(selectors);
    CliFlags.HeaderRoundTrip(h, order);
  }

  /**
   * The corrected list starts a run with the two URLs, the formats, the callback URL, the
   * selectors and the headers the controller was given; the storage backend is the default.
   */
  lemma CorrectedArgsAccepted(first: string, second: string, screenshotDiffFormat: string, htmlDiffFormat: string,
                              callbackURL: string, selectors: seq<string>,
                              h: map<string, string>, order: seq<string>, env: Env)
    requires IsKeyOrder(h, order)
    requires forall k :: k in h ==> CliFlags.HeaderSafe(k, h[k])
    requires forall i :: 0 <= i < |selectors| ==> CliFlags.SelectorSafe(selectors[i])
    requires env.headersJSON.None?
    ensures Invoke(CorrectedArgs(first, second, screenshotDiffFormat, htmlDiffFormat, callbackURL, selectors, h, order), env)
            == Run(Invocation(first, second,
                              Configured(ConfigFlags("jpeg", 3 * Second, "", env.display, 1920, 1080, "")),
                              CaptureOptions(selectors, Some(h)),
                              screenshotDiffFormat, htmlDiffFormat, "file", callbackURL))
  {
    CorrectedParse(first, second, screenshotDiffFormat, htmlDiffFormat, callbackURL, selectors, h, order);
    CorrectedFlags(screenshotDiffFormat, htmlDiffFormat, callbackURL, selectors, h, order, env.conv);
    IntendedInvocation(first, second, screenshotDiffFormat, htmlDiffFormat, callbackURL, selectors, h, order, env);
    InvokeParsed(CorrectedArgs(first, second, screenshotDiffFormat, htmlDiffFormat, callbackURL, selectors, h, order), env);
  }
}
