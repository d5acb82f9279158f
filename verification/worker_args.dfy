/**
 * The argument list both controllers hand to the worker container in distributed mode: two
 * URLs, the two diff formats, a callback flag and URL, the comma-joined mask selectors when
 * there are any, and one "-H" pair per header. Go visits the header map in an unspecified
 * order; the model takes that order as a parameter listing every key once.
 */
module WorkerArgs {
  import opened StringUtil
  import opened GoFlag
  import CliFlags

  /** An iteration order over a map: every key exactly once. */
  predicate IsKeyOrder(h: map<string, string>, order: seq<string>)
  {
    (forall k :: k in h ==> k in order) &&
    (forall i :: 0 <= i < |order| ==> order[i] in h) &&
    (forall i, j :: 0 <= i < j < |order| ==> order[i] != order[j])
  }

  /** "--mask-selectors a,b,c", only for a non-empty selector list. */
  function MaskArgs(selectors: seq<string>): (args: seq<string>)
    ensures |selectors| == 0 <==> args == []
  {
    if |selectors| > 0 then ["--mask-selectors", Join(selectors, [','])] else []
  }

  /** One "-H", "key: value" pair per key, in iteration order. */
  function HeaderArgs(h: map<string, string>, order: seq<string>): (args: seq<string>)
    requires forall i :: 0 <= i < |order| ==> order[i] in h
    ensures |args| == 2 * |order|
    ensures forall i :: 0 <= i < |order| ==> args[2 * i] == "-H" && args[2 * i + 1] == CliFlags.HeaderLine(order[i], h[order[i]])
  {
    if |order| == 0 then []
    else
      var n := |order| - 1;
      HeaderArgs(h, order[..n]) + ["-H", CliFlags.HeaderLine(order[n], h[order[n]])]
  }

  /** The full list: positionals first, as both controllers write it. */
  function Args(first: string, second: string, screenshotDiffFormat: string, htmlDiffFormat: string,
                callbackFlag: string, callbackURL: string, selectors: seq<string>,
                h: map<string, string>, order: seq<string>): (args: seq<string>)
    requires IsKeyOrder(h, order)
    ensures |args| == 8 + |MaskArgs(selectors)| + 2 * |h|
    ensures args[..2] == [first, second]
    ensures args[2..6] == ["--screenshot-diff-format", screenshotDiffFormat, "--html-diff-format", htmlDiffFormat]
    ensures args[6..8] == [callbackFlag, callbackURL]
  {
    KeyOrderLength(h, order);
    [first, second, "--screenshot-diff-format", screenshotDiffFormat, "--html-diff-format", htmlDiffFormat,
     callbackFlag, callbackURL] + MaskArgs(selectors) + HeaderArgs(h, order)
  }

  /** A key order is as long as the map has keys. */
  lemma KeyOrderLength(h: map<string, string>, order: seq<string>)
    requires IsKeyOrder(h, order)
    ensures |order| == |h|
  {
    var keys := set i | 0 <= i < |order| :: order[i];
    assert keys == h.Keys;
    DistinctCardinality(order);
  }

  /** A sequence of distinct elements has as many elements as its set. */
  lemma {:induction false} DistinctCardinality<T>(s: seq<T>)
    requires forall i, j :: 0 <= i < j < |s| ==> s[i] != s[j]
    ensures |set i | 0 <= i < |s| :: s[i]| == |s|
  {
    if |s| > 0 {
      var n := |s| - 1;
      DistinctCardinality(s[..n]);
      var front := set i | 0 <= i < n :: s[..n][i];
      assert (set i | 0 <= i < |s| :: s[i]) == front + {s[n]};
      assert s[n] !in front;
    }
  }

  /** The args loop of createJob and createOrUpdateCronJob: fixed part, mask flag, then headers. */
  method BuildArgs(first: string, second: string, screenshotDiffFormat: string, htmlDiffFormat: string,
                   callbackFlag: string, callbackURL: string, selectors: seq<string>,
                   h: map<string, string>, order: seq<string>) returns (args: seq<string>)
    requires IsKeyOrder(h, order)
    ensures args == Args(first, second, screenshotDiffFormat, htmlDiffFormat, callbackFlag, callbackURL, selectors, h, order)
  {
    args := [first, second, "--screenshot-diff-format", screenshotDiffFormat, "--html-diff-format", htmlDiffFormat,
             callbackFlag, callbackURL];
    if |selectors| > 0 {
      args := args + ["--mask-selectors", Join(selectors, [','])];
    }
    ghost var fixed := args;
    for i := 0 to |order|
      invariant args == fixed + HeaderArgs(h, order[..i])
    {
      HeaderArgsSnoc(h, order, i);
      args := args + ["-H", CliFlags.HeaderLine(order[i], h[order[i]])];
    }
    assert order[..|order|] == order;
    assert fixed == [first, second, "--screenshot-diff-format", screenshotDiffFormat, "--html-diff-format", htmlDiffFormat,
                     callbackFlag, callbackURL] + MaskArgs(selectors);
  }

  lemma HeaderArgsSnoc(h: map<string, string>, order: seq<string>, i: nat)
    requires forall i :: 0 <= i < |order| ==> order[i] in h
    requires i < |order|
    ensures HeaderArgs(h, order[..i + 1]) == HeaderArgs(h, order[..i]) + ["-H", CliFlags.HeaderLine(order[i], h[order[i]])]
  {
    assert order[..i + 1][..i] == order[..i];
  }

  /** "http://<host>/api/<namespace>/<group>/<version>/<kind>/<name>/artifacts". */
  function CallbackURL(host: string, namespace: string, group: string, version: string, kind: string, name: string): string
  {
    "http://" + host + "/api/" + namespace + "/" + group + "/" + version + "/" + kind + "/" + name + "/artifacts"
  }

  // ---------------------------------------------------------------- corrected list

  /** One occurrence of the same flag per value, in order. */
  function Repeated(name: string, values: seq<string>): (settings: seq<Setting>)
    ensures |settings| == |values|
    ensures forall i :: 0 <= i < |values| ==> settings[i] == Setting(name, values[i])
  {
    seq(|values|, i requires 0 <= i < |values| => Setting(name, values[i]))
  }

  lemma RepeatedSnoc(name: string, values: seq<string>, i: nat)
    requires i < |values|
    ensures Repeated(name, values[..i + 1]) == Repeated(name, values[..i]) + [Setting(name, values[i])]
  {
    var a, b := Repeated(name, values[..i + 1]), Repeated(name, values[..i]) + [Setting(name, values[i])];
    assert |a| == |b|;
    forall j | 0 <= j < |a|
      ensures a[j] == b[j]
    {
    }
  }

  /**
   * The flags of the worker list, under the names the worker defines: the diff formats, the
   * callback URL, the joined mask selectors when there are any, and one -H per header.
   */
  function WorkerSettings(screenshotDiffFormat: string, htmlDiffFormat: string, callbackURL: string,
                          selectors: seq<string>, h: map<string, string>, order: seq<string>): seq<Setting>
    requires IsKeyOrder(h, order)
  {
    [Setting("screenshot-diff-format", screenshotDiffFormat), Setting("html-diff-format", htmlDiffFormat),
     Setting("callback-url", callbackURL)] +
    (if |selectors| > 0 then [Setting("mask-selectors", Join(selectors, [',']))] else []) +
    Repeated("H", CliFlags.HeaderLines(h, order))
  }

  /** The corrected list: every flag as "--name value", then "--", then the two URLs. */
  function CorrectedArgs(first: string, second: string, screenshotDiffFormat: string, htmlDiffFormat: string,
                         callbackURL: string, selectors: seq<string>, h: map<string, string>, order: seq<string>): (args: seq<string>)
    requires IsKeyOrder(h, order)
    ensures |args| >= 3 && args[|args| - 3..] == ["--", first, second]
  {
    Encode(WorkerSettings(screenshotDiffFormat, htmlDiffFormat, callbackURL, selectors, h, order)) + ["--"] + [first, second]
  }

  /** The args loop with the flags first and the URLs last, behind the "--" terminator. */
  method BuildCorrectedArgs(first: string, second: string, screenshotDiffFormat: string, htmlDiffFormat: string,
                            callbackURL: string, selectors: seq<string>,
                            h: map<string, string>, order: seq<string>) returns (args: seq<string>)
    requires IsKeyOrder(h, order)
    ensures args == CorrectedArgs(first, second, screenshotDiffFormat, htmlDiffFormat, callbackURL, selectors, h, order)
  {
    var fixed := [Setting("screenshot-diff-format", screenshotDiffFormat), Setting("html-diff-format", htmlDiffFormat),
                  Setting("callback-url", callbackURL)] +
                 (if |selectors| > 0 then [Setting("mask-selectors", Join(selectors, [',']))] else []);
    args := Encode(fixed);
    var lines := CliFlags.HeaderLines(h, order);
    assert fixed + Repeated("H", lines[..0]) == fixed;
    for i := 0 to |order|
      invariant args == Encode(fixed + Repeated("H", lines[..i]))
    {
      RepeatedSnoc("H", lines, i);
      assert fixed + Repeated("H", lines[..i + 1]) == (fixed + Repeated("H", lines[..i])) + [Setting("H", lines[i])];
      EncodeAppend(fixed + Repeated("H", lines[..i]), [Setting("H", lines[i])]);
      args := args + ["--" + "H", lines[i]];
    }
    assert lines[..|order|] == lines;
    args := args + ["--"] + [first, second];
  }
}
