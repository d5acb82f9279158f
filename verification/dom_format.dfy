/**
 * The last step of the DOM diff: the changes are printed one per line below a header
 * and above a legend, each indented two spaces per level and marked with the symbol of
 * its kind; attributes are printed as key="value" pairs in ascending order.
 */
module DomFormat {
  import opened StringUtil
  import opened Wrappers
  import opened Fraction
  import opened DomTree
  import opened DomCompare

  const SymbolAdded: string := "[+]"
  const SymbolRemoved: string := "[-]"
  const SymbolModified: string := "[~]"
  const SymbolUnchanged: string := "[ ]"
  const IndentSize: nat := 2

  /**
   * What separates the two sides of a modification: the three characters U+00E2 U+2020 U+2019,
   * the UTF-8 bytes of a right arrow read back as Windows-1252 and written out again.
   */
  const Arrow: string := " \U{00E2}\U{2020}\U{2019} "

  const Header: string := "DOM Tree Diff:\n==============\n\n"

  const Legend: string :=
    "\nLegend:\n" +
    ("  " + SymbolAdded + " Added\n") +
    ("  " + SymbolRemoved + " Removed\n") +
    ("  " + SymbolModified + " Modified\n") +
    ("  " + SymbolUnchanged + " Unchanged\n")

  function Symbol(t: ChangeType): string
  {
    match t
    case Added => SymbolAdded
    case Removed => SymbolRemoved
    case Modified => SymbolModified
    case Unchanged => SymbolUnchanged
  }

  function Spaces(n: nat): (r: string)
    ensures |r| == n && forall k :: 0 <= k < n ==> r[k] == ' '
  {
    if n == 0 then "" else Spaces(n - 1) + " "
  }

  // ---------------------------------------------------------------- formatAttributes

  function AttributePair(key: string, val: string): string
  {
    key + "=\"" + val + "\""
  }

  /** The keys in ks, each once, are exactly the given keys. */
  ghost predicate Enumerates(ks: seq<string>, keys: set<string>)
  {
    (forall k :: k in ks <==> k in keys) && (forall i, j :: 0 <= i < j < |ks| ==> ks[i] != ks[j])
  }

  /** The value printed for a key; every key the formatter visits is present. */
  function ValueOf(attrs: map<string, string>, k: string): string
  {
    if k in attrs then attrs[k] else ""
  }

  /** The printed pairs of the attributes, taken in the order of ks. */
  function Pairs(attrs: map<string, string>, ks: seq<string>): (ps: seq<string>)
    ensures |ps| == |ks|
    ensures forall i :: 0 <= i < |ks| ==> ps[i] == AttributePair(ks[i], ValueOf(attrs, ks[i]))
  {
    seq(|ks|, i requires 0 <= i < |ks| => AttributePair(ks[i], ValueOf(attrs, ks[i])))
  }

  lemma PairsAppend(attrs: map<string, string>, a: seq<string>, b: seq<string>)
    ensures Pairs(attrs, a + b) == Pairs(attrs, a) + Pairs(attrs, b)
  {
    var l, r := Pairs(attrs, a + b), Pairs(attrs, a) + Pairs(attrs, b);
    forall i | 0 <= i < |l|
      ensures l[i] == r[i]
    {
      if i >= |a| {
        assert (a + b)[i] == b[i - |a|];
      }
    }
  }

  /** Some enumeration of a finite set of keys; which one does not matter, as shown below. */
  ghost function SomeOrder(keys: set<string>): (ks: seq<string>)
    ensures Enumerates(ks, keys)
    decreases keys
  {
    if keys == {} then []
    else
      var k :| k in keys;
      var rest := SomeOrder(keys - {k});
      assert forall i :: 0 <= i < |rest| ==> ([k] + rest)[i + 1] == rest[i];
      [k] + rest
  }

  /** An enumeration lists every key exactly once. */
  lemma {:induction false} EnumerationCounts(ks: seq<string>, keys: set<string>)
    requires Enumerates(ks, keys)
    ensures forall x :: multiset(ks)[x] == if x in keys then 1 else 0
    decreases |ks|
  {
    if |ks| > 0 {
      var k, rest := ks[0], ks[1..];
      assert ks == [k] + rest;
      assert k !in rest;
      assert Enumerates(rest, keys - {k}) by {
        forall x
          ensures x in rest <==> x in keys - {k}
        {
          if x in keys - {k} {
            var p :| 0 <= p < |ks| && ks[p] == x;
            assert rest[p - 1] == x;
          }
        }
      }
      EnumerationCounts(rest, keys - {k});
    }
  }

  /** Mapping keys to their pairs respects permutations. */
  lemma {:induction false} PairsOfPermutation(attrs: map<string, string>, xs: seq<string>, ys: seq<string>)
    requires multiset(xs) == multiset(ys)
    ensures multiset(Pairs(attrs, xs)) == multiset(Pairs(attrs, ys))
    decreases |xs|
  {
    if |xs| == 0 {
      assert |ys| == |multiset(ys)|;
    } else {
      var k := xs[0];
      assert k in multiset(ys);
      var i :| 0 <= i < |ys| && ys[i] == k;
      var rest := ys[..i] + ys[i + 1..];
      assert multiset(xs[1..]) == multiset(rest) by {
        assert xs == [k] + xs[1..];
        assert multiset(xs) == multiset{k} + multiset(xs[1..]);
        assert ys == ys[..i] + [k] + ys[i + 1..];
        assert multiset(ys) == multiset(ys[..i]) + multiset{k} + multiset(ys[i + 1..]);
        assert multiset(rest) == multiset(ys[..i]) + multiset(ys[i + 1..]);
        assert multiset(xs[1..]) == multiset(xs) - multiset{k};
        assert multiset(rest) == multiset(ys) - multiset{k};
      }
      PairsOfPermutation(attrs, xs[1..], rest);
      PairsRemove(attrs, xs, 0);
      PairsRemove(attrs, ys, i);
      assert xs[..0] + xs[1..] == xs[1..];
    }
  }

  /** Taking one key out of an enumeration takes its pair out of the printed pairs. */
  lemma PairsRemove(attrs: map<string, string>, ys: seq<string>, i: nat)
    requires i < |ys|
    ensures multiset(Pairs(attrs, ys))
         == multiset(Pairs(attrs, ys[..i] + ys[i + 1..])) + multiset{AttributePair(ys[i], ValueOf(attrs, ys[i]))}
  {
    var front, back := ys[..i], ys[i + 1..];
    assert ys == front + [ys[i]] + back;
    PairsAppend(attrs, front, [ys[i]]);
    PairsAppend(attrs, front + [ys[i]], back);
    PairsAppend(attrs, front, back);
    var p, q, r := Pairs(attrs, front), Pairs(attrs, [ys[i]]), Pairs(attrs, back);
    assert q == [AttributePair(ys[i], ValueOf(attrs, ys[i]))];
    assert multiset(p + q + r) == multiset(p) + multiset(q) + multiset(r);
    assert multiset(p + r) == multiset(p) + multiset(r);
  }

  /** Any two enumerations of the same keys print the same pairs, up to order. */
  lemma PairsPermutation(attrs: map<string, string>, xs: seq<string>, ys: seq<string>, keys: set<string>)
    requires Enumerates(xs, keys) && Enumerates(ys, keys)
    ensures multiset(Pairs(attrs, xs)) == multiset(Pairs(attrs, ys))
  {
    EnumerationCounts(xs, keys);
    EnumerationCounts(ys, keys);
    assert multiset(xs) == multiset(ys);
    PairsOfPermutation(attrs, xs, ys);
  }

  /** The attributes as printed: the pairs in ascending order, separated by single spaces. */
  ghost function AttributesText(attrs: map<string, string>): string
  {
    Join(Sort(Pairs(attrs, SomeOrder(attrs.Keys))), " ")
  }

  /** Map iteration order cannot change the printed attributes. */
  lemma AttributesOrderIndependent(attrs: map<string, string>, ks: seq<string>)
    requires Enumerates(ks, attrs.Keys)
    ensures AttributesText(attrs) == Join(Sort(Pairs(attrs, ks)), " ")
  {
    PairsPermutation(attrs, SomeOrder(attrs.Keys), ks, attrs.Keys);
    SortOrderIndependent(Pairs(attrs, SomeOrder(attrs.Keys)), Pairs(attrs, ks));
  }

  /** Walks the attributes in whatever order the map yields them, then sorts and joins the pairs. */
  method FormatAttributes(attrs: map<string, string>) returns (r: string)
    ensures r == AttributesText(attrs)
  {
    var formatted: seq<string> := [];
    var remaining := attrs.Keys;
    ghost var order: seq<string> := [];
    while remaining != {}
      invariant remaining <= attrs.Keys
      invariant forall k :: k in order <==> k in attrs.Keys && k !in remaining
      invariant forall i, j :: 0 <= i < j < |order| ==> order[i] != order[j]
      invariant formatted == Pairs(attrs, order)
      decreases remaining
    {
      var k :| k in remaining;
      PairsAppend(attrs, order, [k]);
      formatted := formatted + [AttributePair(k, attrs[k])];
      order := order + [k];
      remaining := remaining - {k};
    }
    AttributesOrderIndependent(attrs, order);
    r := Join(Sort(formatted), " ");
  }

  // ---------------------------------------------------------------- formatNode and writeChange

  /** A node as printed: quoted text, an element tag with its attributes, or "unknown". */
  ghost function NodeText(n: TreeNode): string
  {
    if n.kind == TextNode then "text: \"" + n.text + "\""
    else if n.kind == ElementNode then
      if |n.attrs| == 0 then "<" + n.tag + ">"
      else "<" + n.tag + " " + AttributesText(n.attrs) + ">"
    else "unknown"
  }

  method FormatNode(n: TreeNode) returns (s: string)
    ensures s == NodeText(n)
  {
    if n.kind == TextNode {
      return "text: \"" + n.text + "\"";
    }
    if n.kind == ElementNode {
      if |n.attrs| == 0 {
        return "<" + n.tag + ">";
      }
      var attrs := FormatAttributes(n.attrs);
      return "<" + n.tag + " " + attrs + ">";
    }
    return "unknown";
  }

  /** One change as printed, without its line break. */
  ghost function ChangeLine(c: Change): string
    requires WellFormedChange(c)
  {
    var prefix := Spaces(c.indent * IndentSize) + Symbol(c.changeType) + " ";
    match c.changeType
    case Added => prefix + NodeText(c.target.value)
    case Removed => prefix + NodeText(c.baseline.value)
    case Modified => prefix + NodeText(c.baseline.value) + Arrow + NodeText(c.target.value)
    case Unchanged => prefix + NodeText(c.baseline.value)
  }

  method WriteChange(c: Change) returns (line: string)
    requires WellFormedChange(c)
    ensures line == ChangeLine(c) + "\n"
  {
    var indent := Spaces(c.indent * IndentSize);
    match c.changeType {
      case Added =>
        var t := FormatNode(c.target.value);
        line := indent + SymbolAdded + " " + t + "\n";
      case Removed =>
        var b := FormatNode(c.baseline.value);
        line := indent + SymbolRemoved + " " + b + "\n";
      case Modified =>
        var b := FormatNode(c.baseline.value);
        var t := FormatNode(c.target.value);
        line := indent + SymbolModified + " " + b + Arrow + t + "\n";
      case Unchanged =>
        var b := FormatNode(c.baseline.value);
        line := indent + SymbolUnchanged + " " + b + "\n";
    }
  }

  // ---------------------------------------------------------------- format

  predicate AllWellFormed(changes: seq<Change>)
  {
    forall k :: 0 <= k < |changes| ==> WellFormedChange(changes[k])
  }

  /** The printed changes, one line each, in order. */
  ghost function ChangeLines(changes: seq<Change>): (lines: seq<string>)
    requires AllWellFormed(changes)
    ensures |lines| == |changes|
  {
    seq(|changes|, k requires 0 <= k < |changes| && AllWellFormed(changes) => ChangeLine(changes[k]))
  }

  lemma ChangeLineAt(changes: seq<Change>, k: nat)
    requires AllWellFormed(changes) && k < |changes|
    ensures ChangeLines(changes)[k] == ChangeLine(changes[k])
  {
  }

  /** Every line followed by a line break. */
  function Concat(lines: seq<string>): string
  {
    if |lines| == 0 then "" else lines[0] + "\n" + Concat(lines[1..])
  }

  lemma {:induction false} ConcatAppend(a: seq<string>, b: seq<string>)
    ensures Concat(a + b) == Concat(a) + Concat(b)
  {
    if |a| > 0 {
      ConcatAppend(a[1..], b);
      assert (a + b)[1..] == a[1..] + b;
    } else {
      assert a + b == b;
    }
  }

  /** The whole report: header, one line per change, legend. */
  ghost function FormatSpec(changes: seq<Change>): string
    requires AllWellFormed(changes)
  {
    Header + Concat(ChangeLines(changes)) + Legend
  }

  lemma ChangeLinesSnoc(changes: seq<Change>, i: nat)
    requires AllWellFormed(changes) && i < |changes|
    ensures AllWellFormed(changes[..i]) && AllWellFormed(changes[..i + 1])
    ensures Concat(ChangeLines(changes[..i + 1])) == Concat(ChangeLines(changes[..i])) + ChangeLine(changes[i]) + "\n"
  {
    assert ChangeLines(changes[..i + 1]) == ChangeLines(changes[..i]) + [ChangeLine(changes[i])];
    ConcatAppend(ChangeLines(changes[..i]), [ChangeLine(changes[i])]);
  }

  lemma AppendAssoc(a: string, b: string, c: string)
    ensures (a + b) + c == a + (b + c)
  {
  }

  method Format(changes: seq<Change>) returns (out: string)
    requires AllWellFormed(changes)
    ensures out == FormatSpec(changes)
  {
    out := Header;
    for i := 0 to |changes|
      invariant AllWellFormed(changes[..i])
      invariant out == Header + Concat(ChangeLines(changes[..i]))
    {
      var line := WriteChange(changes[i]);
      ChangeLinesSnoc(changes, i);
      AppendAssoc(Header, Concat(ChangeLines(changes[..i])), line);
      out := out + line;
    }
    assert changes[..|changes|] == changes;
    out := out + Legend;
  }

  // ---------------------------------------------------------------- reading the report back

  /**
   * Each line starts with two spaces per level, then the symbol of its kind, then a
   * space: the nesting and the kind of every change can be read back from its line.
   */
  lemma ChangeLineReadBack(c: Change)
    requires WellFormedChange(c)
    ensures var line, d := ChangeLine(c), c.indent * IndentSize;
            |line| >= d + 4 && line[..d] == Spaces(d) && line[d..d + 3] == Symbol(c.changeType) && line[d + 3] == ' '
  {
    var d := c.indent * IndentSize;
    var rest := match c.changeType
      case Added => NodeText(c.target.value)
      case Removed => NodeText(c.baseline.value)
      case Modified => NodeText(c.baseline.value) + Arrow + NodeText(c.target.value)
      case Unchanged => NodeText(c.baseline.value);
    assert ChangeLine(c) == Spaces(d) + Symbol(c.changeType) + [' '] + rest;
    PartsReadBack(Spaces(d), Symbol(c.changeType), ' ', rest);
  }

  /** The pieces of a + b + [x] + rest sit at their offsets. */
  lemma PartsReadBack<T>(a: seq<T>, b: seq<T>, x: T, rest: seq<T>)
    ensures var s := a + b + [x] + rest;
            |s| >= |a| + |b| + 1 && s[..|a|] == a && s[|a|..|a| + |b|] == b && s[|a| + |b|] == x
  {
    var s := a + b + [x] + rest;
    assert s[..|a|] == a;
    assert s[|a|..|a| + |b|] == b;
  }

  /** Different kinds of change have different symbols. */
  lemma SymbolsDistinct(x: ChangeType, y: ChangeType)
    ensures x != y ==> Symbol(x) != Symbol(y)
  {
    if x != y {
      assert Symbol(x)[1] != Symbol(y)[1];
    }
  }

  const HeaderLines: seq<string> := ["DOM Tree Diff:", "==============", ""]
  const LegendLines: seq<string> :=
    ["", "Legend:", "  [+] Added", "  [-] Removed", "  [~] Modified", "  [ ] Unchanged"]

  lemma {:induction false} SplitLines(lines: seq<string>, tail: string)
    requires forall k :: 0 <= k < |lines| ==> '\n' !in lines[k]
    ensures Split(Concat(lines) + tail, '\n') == lines + Split(tail, '\n')
  {
    if |lines| > 0 {
      var rest := Concat(lines[1..]) + tail;
      assert Split(rest, '\n') == lines[1..] + Split(tail, '\n') by {
        SplitLines(lines[1..], tail);
      }
      assert Concat(lines) + tail == lines[0] + ['\n'] + rest;
      SplitAfterPart(lines[0], rest, '\n');
      ConsAppend(lines, Split(tail, '\n'));
    } else {
      assert Concat(lines) + tail == tail;
      assert lines + Split(tail, '\n') == Split(tail, '\n');
    }
  }

  lemma ConsAppend<T>(s: seq<T>, t: seq<T>)
    requires |s| > 0
    ensures s + t == [s[0]] + (s[1..] + t)
  {
    assert s == [s[0]] + s[1..];
  }

  lemma HeaderConcat()
    ensures Header == Concat(HeaderLines)
  {
    assert Concat(HeaderLines[2..]) == "\n";
    assert Concat(HeaderLines[1..]) == "==============\n\n";
  }

  lemma LegendLinesConcat()
    ensures Concat(LegendLines)
         == "\n" + ("Legend:\n" + ("  [+] Added\n" + ("  [-] Removed\n" + ("  [~] Modified\n" + "  [ ] Unchanged\n"))))
  {
    var l := LegendLines;
    assert Concat(l[5..]) == "  [ ] Unchanged\n";
    assert Concat(l[4..]) == "  [~] Modified\n" + Concat(l[5..]);
    assert Concat(l[3..]) == "  [-] Removed\n" + Concat(l[4..]);
    assert Concat(l[2..]) == "  [+] Added\n" + Concat(l[3..]);
    assert Concat(l[1..]) == "Legend:\n" + Concat(l[2..]);
  }

  lemma LegendText()
    ensures Legend == "\nLegend:\n" + "  [+] Added\n" + "  [-] Removed\n" + "  [~] Modified\n" + "  [ ] Unchanged\n"
  {
    assert "  " + SymbolAdded + " Added\n" == "  [+] Added\n";
    assert "  " + SymbolRemoved + " Removed\n" == "  [-] Removed\n";
    assert "  " + SymbolModified + " Modified\n" == "  [~] Modified\n";
    assert "  " + SymbolUnchanged + " Unchanged\n" == "  [ ] Unchanged\n";
  }

  lemma LegendConcat()
    ensures Legend == Concat(LegendLines)
  {
    var a, b, c, d := "  [+] Added\n", "  [-] Removed\n", "  [~] Modified\n", "  [ ] Unchanged\n";
    LegendLinesConcat();
    LegendText();
    AppendAssoc("\nLegend:\n" + a + b, c, d);
    AppendAssoc("\nLegend:\n" + a, b, c + d);
    AppendAssoc("\nLegend:\n", a, b + (c + d));
    AppendAssoc("\n", "Legend:\n", a + (b + (c + d)));
  }

  lemma LinesHaveNoBreak()
    ensures forall k :: 0 <= k < |HeaderLines| ==> '\n' !in HeaderLines[k]
    ensures forall k :: 0 <= k < |LegendLines| ==> '\n' !in LegendLines[k]
  {
  }

  /**
   * When no printed change contains a line break, the report splits at line breaks into
   * the header lines, exactly one line per change in order, the legend lines and the
   * empty rest after the final line break.
   */
  lemma FormatLines(changes: seq<Change>)
    requires AllWellFormed(changes)
    requires forall k :: 0 <= k < |changes| ==> '\n' !in ChangeLine(changes[k])
    ensures Split(FormatSpec(changes), '\n') == HeaderLines + ChangeLines(changes) + LegendLines + [""]
  {
    var all := HeaderLines + ChangeLines(changes) + LegendLines;
    FormatConcat(changes);
    ReportLinesHaveNoBreak(changes);
    SplitLines(all, "");
    assert Concat(all) + "" == Concat(all);
  }

  lemma FormatConcat(changes: seq<Change>)
    requires AllWellFormed(changes)
    ensures Concat(HeaderLines + ChangeLines(changes) + LegendLines) == FormatSpec(changes)
  {
    HeaderConcat();
    LegendConcat();
    ConcatAppend(HeaderLines, ChangeLines(changes));
    ConcatAppend(HeaderLines + ChangeLines(changes), LegendLines);
  }

  lemma ReportLinesHaveNoBreak(changes: seq<Change>)
    requires AllWellFormed(changes)
    requires forall k :: 0 <= k < |changes| ==> '\n' !in ChangeLine(changes[k])
    ensures var all := HeaderLines + ChangeLines(changes) + LegendLines;
            forall k :: 0 <= k < |all| ==> '\n' !in all[k]
  {
    var lines := ChangeLines(changes);
    forall k | 0 <= k < |lines|
      ensures '\n' !in lines[k]
    {
      ChangeLineAt(changes, k);
    }
    LinesHaveNoBreak();
    NoBreakAppend(HeaderLines, lines);
    NoBreakAppend(HeaderLines + lines, LegendLines);
  }

  lemma NoBreakAppend(a: seq<string>, b: seq<string>)
    requires forall k :: 0 <= k < |a| ==> '\n' !in a[k]
    requires forall k :: 0 <= k < |b| ==> '\n' !in b[k]
    ensures forall k :: 0 <= k < |a + b| ==> '\n' !in (a + b)[k]
  {
  }

  // ---------------------------------------------------------------- Calculate

  datatype DomDiffResult = DomDiffResult(diff: string, amount: Fraction)

  /** The comparison of two parsed documents, as a value. */
  function DocumentChanges(baseline: HtmlNode, target: HtmlNode): seq<Change>
  {
    CompareForests(BuildTreeSpec(baseline).children, BuildTreeSpec(target).children, 0)
  }

  /**
   * Builds both trees, compares them, prints the report and scores the share of changed
   * paths. Parsing is not part of this model: the documents come in parsed.
   */
  method Calculate(baseline: HtmlNode, target: HtmlNode) returns (result: DomDiffResult)
    ensures AllWellFormed(DocumentChanges(baseline, target))
    ensures result.diff == FormatSpec(DocumentChanges(baseline, target))
    ensures result.amount == DiffRatio(DocumentChanges(baseline, target), |DocumentChanges(baseline, target)|)
  {
    var baselineTree := BuildTree(baseline);
    var targetTree := BuildTree(target);
    var comparison := Compare(baselineTree, targetTree);
    ComparisonNested(baselineTree.children, targetTree.children, 0);
    var formatted := Format(comparison.changes);
    var amount := comparison.DiffRatioOf();
    result := DomDiffResult(formatted, amount);
  }

  /** A document compared with itself scores 0. */
  lemma SelfDiffScoresZero(doc: HtmlNode)
    ensures DiffRatio(DocumentChanges(doc, doc), |DocumentChanges(doc, doc)|).num == 0
  {
    DiffRatioOfComparison(BuildTreeSpec(doc), BuildTreeSpec(doc));
  }
}
