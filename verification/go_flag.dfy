/**
 * The part of Go's flag package that the worker and capture commands rely on: FlagSet.Parse
 * over flags that all take a value (none of the two commands defines a boolean flag).
 * Parsing stops before the first argument that is not a flag, or after a "--" terminator;
 * what is left is flag.Args(), the positional arguments.
 */
module GoFlag {
  import opened Wrappers
  import opened StringUtil

  /** One flag occurrence, in command-line order. */
  datatype Setting = Setting(name: string, value: string)

  /** The flag occurrences and the positional arguments left after them. */
  datatype Outcome = Outcome(settings: seq<Setting>, positionals: seq<string>)

  /** An argument the parser treats as a flag: two characters or more, starting with '-'. */
  predicate LooksLikeFlag(s: string)
  {
    |s| >= 2 && s[0] == '-'
  }

  function Prepend(setting: Setting, rest: Result<Outcome>): (r: Result<Outcome>)
    ensures r.Ok? <==> rest.Ok?
    ensures r.Ok? ==> r.value.settings == [setting] + rest.value.settings && r.value.positionals == rest.value.positionals
  {
    match rest
    case Ok(o) => Ok(Outcome([setting] + o.settings, o.positionals))
    case Err(msg) => Err(msg)
  }

  /** The text conversions flag.IntVar and flag.DurationVar apply to a value. */
  datatype Conversions = Conversions(parseInt: string -> Result<int>, parseDuration: string -> Result<int>)

  /** The error of -h and -help, after which a command exits with status 0 instead of 2. */
  const HelpRequested: string := "flag: help requested"

  /** An unknown flag: -h and -help ask for the usage text, anything else is an error. */
  function Undefined(name: string): string
  {
    if name == "help" || name == "h" then HelpRequested
    else "flag provided but not defined: -" + name
  }

  /**
   * The error FlagSet.Parse reports when a flag's Set method rejects the value it was given;
   * it never equals the help request, so a rejected value ends the command with status 2.
   */
  function InvalidValue(s: Setting, cause: string): (m: string)
    ensures m != HelpRequested
    ensures |m| > 15 && m[..15] == "invalid value \""
  {
    "invalid value \"" + s.value + "\" for flag -" + s.name + ": " + cause
  }

  /** One step of the parser: stop with the outcome, fail, or take a flag spanning one or two arguments. */
  datatype Step = Halt(outcome: Outcome) | Bad(msg: string) | Flag(setting: Setting, width: nat)

  /**
   * The step FlagSet.Parse takes on the first argument: one or two leading dashes, then the
   * name; the value follows an '=' in the same argument or is the next argument, whatever it
   * looks like.
   */
  function Head(args: seq<string>, defined: set<string>): (h: Step)
    ensures !(|args| > 0 && LooksLikeFlag(args[0])) ==> h == Halt(Outcome([], args))
    ensures h.Halt? ==> h.outcome.settings == [] && |h.outcome.positionals| <= |args| &&
                        h.outcome.positionals == args[|args| - |h.outcome.positionals|..]
    ensures h.Flag? ==> 1 <= h.width <= 2 && h.width <= |args| && h.setting.name in defined
  {
    if |args| == 0 then Halt(Outcome([], []))
    else
      var s := args[0];
      if !LooksLikeFlag(s) then Halt(Outcome([], args))
      else if s == "--" then Halt(Outcome([], args[1..]))
      else
        var name := if s[1] == '-' then s[2..] else s[1..];
        if |name| == 0 || name[0] == '-' || name[0] == '=' then Bad("bad flag syntax: " + s)
        else
          match SplitFirst(name, '=')
          case Some(p) =>
            if p.0 !in defined then Bad(Undefined(p.0)) else Flag(Setting(p.0, p.1), 1)
          case None =>
            if name !in defined then Bad(Undefined(name))
            else if |args| < 2 then Bad("flag needs an argument: -" + name)
            else Flag(Setting(name, args[1]), 2)
  }

  /** FlagSet.Parse: steps until one stops or fails. */
  function Parse(args: seq<string>, defined: set<string>): (r: Result<Outcome>)
    decreases |args|
  {
    match Head(args, defined)
    case Halt(o) => Ok(o)
    case Bad(msg) => Err(msg)
    case Flag(setting, width) => Prepend(setting, Parse(args[width..], defined))
  }

  /** Every setting the parser returns names a defined flag. */
  lemma {:induction false} ParseNamesDefined(args: seq<string>, defined: set<string>)
    ensures var r := Parse(args, defined);
            r.Ok? ==> forall i :: 0 <= i < |r.value.settings| ==> r.value.settings[i].name in defined
    decreases |args|
  {
    var h := Head(args, defined);
    if h.Flag? {
      ParseNamesDefined(args[h.width..], defined);
      NamesDefinedPrepend(h.setting, Parse(args[h.width..], defined), defined);
    }
  }

  lemma NamesDefinedPrepend(setting: Setting, rest: Result<Outcome>, defined: set<string>)
    requires setting.name in defined
    requires rest.Ok? ==> forall i :: 0 <= i < |rest.value.settings| ==> rest.value.settings[i].name in defined
    ensures var r := Prepend(setting, rest);
            r.Ok? ==> forall i :: 0 <= i < |r.value.settings| ==> r.value.settings[i].name in defined
  {
    if rest.Ok? {
      var r := Prepend(setting, rest);
      forall i | 0 <= i < |r.value.settings|
        ensures r.value.settings[i].name in defined
      {
        if i > 0 {
          assert r.value.settings[i] == rest.value.settings[i - 1];
        }
      }
    }
  }

  /** The positionals the parser returns are a suffix of the arguments. */
  lemma {:induction false} ParsePositionalsSuffix(args: seq<string>, defined: set<string>)
    ensures var r := Parse(args, defined);
            r.Ok? ==> |r.value.positionals| <= |args| && r.value.positionals == args[|args| - |r.value.positionals|..]
    decreases |args|
  {
    var h := Head(args, defined);
    if h.Flag? {
      var k := h.width;
      ParsePositionalsSuffix(args[k..], defined);
      var r := Parse(args[k..], defined);
      if r.Ok? {
        var n := |r.value.positionals|;
        assert args[k..][|args| - k - n..] == args[|args| - n..];
      }
    }
  }

  /** A flag step reads at most the first two arguments: more arguments after them change nothing. */
  lemma HeadFlagExtends(args: seq<string>, extra: seq<string>, defined: set<string>)
    requires Head(args, defined).Flag?
    ensures Head(args + extra, defined) == Head(args, defined)
  {
    assert (args + extra)[0] == args[0];
    if |args| > 1 {
      assert (args + extra)[1] == args[1];
    }
  }

  /** A step that stops with positionals left keeps every argument appended after them. */
  lemma HeadHaltExtends(args: seq<string>, extra: seq<string>, defined: set<string>)
    requires Head(args, defined).Halt? && |Head(args, defined).outcome.positionals| > 0
    ensures Head(args + extra, defined) == Halt(Outcome([], Head(args, defined).outcome.positionals + extra))
  {
    var s := args[0];
    assert (args + extra)[0] == s;
    if LooksLikeFlag(s) {
      assert s == "--";
      assert (args + extra)[1..] == args[1..] + extra;
    }
  }

  /** Once a positional argument is reached, whatever is appended after it is positional too. */
  lemma {:induction false} ParseExtendsPositionals(args: seq<string>, extra: seq<string>, defined: set<string>)
    requires Parse(args, defined).Ok? && |Parse(args, defined).value.positionals| > 0
    ensures Parse(args + extra, defined) ==
            Ok(Outcome(Parse(args, defined).value.settings, Parse(args, defined).value.positionals + extra))
    decreases |args|
  {
    var h := Head(args, defined);
    if h.Flag? {
      var w := h.width;
      HeadFlagExtends(args, extra, defined);
      DropAppend(args, extra, w);
      ParseExtendsPositionals(args[w..], extra, defined);
    } else {
      HeadHaltExtends(args, extra, defined);
    }
  }

  lemma DropAppend<T>(a: seq<T>, b: seq<T>, w: nat)
    requires w <= |a|
    ensures (a + b)[w..] == a[w..] + b
  {
  }

  /** A first argument that is not a flag ends parsing at once: everything is positional. */
  lemma StopsAtFirstPositional(args: seq<string>, defined: set<string>)
    requires |args| > 0 && !LooksLikeFlag(args[0])
    ensures Parse(args, defined) == Ok(Outcome([], args))
  {
  }

  /** A name the parser reads back from "--name": non-empty, no leading '-', no '='. */
  predicate PlainName(name: string)
  {
    |name| > 0 && name[0] != '-' && '=' !in name
  }

  /** The arguments "--name value" for each setting, in order. */
  function Encode(settings: seq<Setting>): (args: seq<string>)
    ensures |args| == 2 * |settings|
  {
    if |settings| == 0 then []
    else ["--" + settings[0].name, settings[0].value] + Encode(settings[1..])
  }

  lemma {:induction false} EncodeAppend(a: seq<Setting>, b: seq<Setting>)
    ensures Encode(a + b) == Encode(a) + Encode(b)
  {
    if |a| > 0 {
      assert (a + b)[1..] == a[1..] + b;
      EncodeAppend(a[1..], b);
    } else {
      assert a + b == b;
    }
  }

  /** Settings written as "--name value" pairs, then "--", parse back to the settings and the rest. */
  lemma {:induction false} EncodeParse(settings: seq<Setting>, positionals: seq<string>, defined: set<string>)
    requires forall i :: 0 <= i < |settings| ==> PlainName(settings[i].name) && settings[i].name in defined
    ensures Parse(Encode(settings) + ["--"] + positionals, defined) == Ok(Outcome(settings, positionals))
  {
    if |settings| == 0 {
      assert Encode(settings) + ["--"] + positionals == ["--"] + positionals;
      assert (["--"] + positionals)[1..] == positionals;
    } else {
      var head := settings[0];
      var args := Encode(settings) + ["--"] + positionals;
      var rest := Encode(settings[1..]) + ["--"] + positionals;
      assert args == ["--" + head.name, head.value] + rest;
      EncodeParse(settings[1..], positionals, defined);
      var s := args[0];
      assert s[2..] == head.name;
      assert SplitFirst(head.name, '=') == None;
      assert args[2..] == rest;
      assert [head] + settings[1..] == settings;
    }
  }

  /** The value of the last occurrence of the flag, or the default when it does not occur. */
  function LastValue(settings: seq<Setting>, name: string, default: string): (v: string)
    ensures (forall i :: 0 <= i < |settings| ==> settings[i].name != name) ==> v == default
    ensures v == default || exists i :: 0 <= i < |settings| && settings[i] == Setting(name, v)
  {
    if |settings| == 0 then default
    else
      var last := settings[|settings| - 1];
      if last.name == name then last.value else LastValue(settings[..|settings| - 1], name, default)
  }

  /** An occurrence followed by no other of the same flag decides its value. */
  lemma {:induction false} LastValueAfter(before: seq<Setting>, value: string, after: seq<Setting>, name: string, default: string)
    requires forall i :: 0 <= i < |after| ==> after[i].name != name
    ensures LastValue(before + [Setting(name, value)] + after, name, default) == value
    decreases |after|
  {
    var all := before + [Setting(name, value)] + after;
    if |after| > 0 {
      var after' := after[..|after| - 1];
      assert all[..|all| - 1] == before + [Setting(name, value)] + after';
      LastValueAfter(before, value, after', name, default);
    }
  }

  /** The values of every occurrence of the flag, in order: what a repeatable flag collects. */
  function AllValues(settings: seq<Setting>, name: string): (vs: seq<string>)
    ensures |vs| <= |settings|
  {
    if |settings| == 0 then []
    else AllValues(settings[..|settings| - 1], name) +
         (if settings[|settings| - 1].name == name then [settings[|settings| - 1].value] else [])
  }

  lemma {:induction false} AllValuesAppend(a: seq<Setting>, b: seq<Setting>, name: string)
    ensures AllValues(a + b, name) == AllValues(a, name) + AllValues(b, name)
    decreases |b|
  {
    if |b| == 0 {
      assert a + b == a;
    } else {
      var b' := b[..|b| - 1];
      assert (a + b)[..|a + b| - 1] == a + b';
      AllValuesAppend(a, b', name);
    }
  }

  lemma {:induction false} AllValuesOther(settings: seq<Setting>, name: string)
    requires forall i :: 0 <= i < |settings| ==> settings[i].name != name
    ensures AllValues(settings, name) == []
  {
    if |settings| > 0 {
      AllValuesOther(settings[..|settings| - 1], name);
    }
  }

  lemma {:induction false} AllValuesSame(values: seq<string>, name: string)
    ensures AllValues(seq(|values|, i requires 0 <= i < |values| => Setting(name, values[i])), name) == values
  {
    var s := seq(|values|, i requires 0 <= i < |values| => Setting(name, values[i]));
    if |values| > 0 {
      var init := values[..|values| - 1];
      AllValuesSame(init, name);
      assert s[..|s| - 1] == seq(|init|, i requires 0 <= i < |init| => Setting(name, init[i]));
    }
  }
}
