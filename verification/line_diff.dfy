/**
 * The line-oriented text diff: both inputs are split into lines, a longest-common-subsequence
 * table is filled, and a backtrack through the table emits "  ", "+ " and "- " prefixed lines
 * while counting additions and removals.
 */
module LineDiff {
  import opened StringUtil
  import opened Fraction

  newtype Byte = b: int | 0 <= b < 256

  type Line = seq<Byte>

  const NL: Byte := 10
  const Space: Byte := 32
  const Plus: Byte := 43
  const Minus: Byte := 45

  // ---------------------------------------------------------------- splitLines

  /** No lines for empty input, otherwise one line per newline-separated piece. */
  function SplitLines(data: seq<Byte>): (lines: seq<Line>)
    ensures data == [] <==> lines == []
    ensures forall i :: 0 <= i < |lines| ==> NL !in lines[i]
    ensures data != [] ==> Join(lines, [NL]) == data
  {
    if |data| == 0 then []
    else
      JoinSplit(data, NL);
      Split(data, NL)
  }

  /** A newline at the very end of the input yields a final empty line. */
  lemma TrailingNewline(data: seq<Byte>)
    requires |data| > 0 && data[|data| - 1] == NL
    ensures |SplitLines(data)| >= 2 && SplitLines(data)[|SplitLines(data)| - 1] == []
  {
    var lines := SplitLines(data);
    JoinEndsWithLast(lines, NL);
  }

  lemma {:induction false} JoinEndsWithLast(parts: seq<Line>, sep: Byte)
    requires |parts| >= 1
    ensures |Join(parts, [sep])| >= |parts[|parts| - 1]|
    ensures Join(parts, [sep])[|Join(parts, [sep])| - |parts[|parts| - 1]|..] == parts[|parts| - 1]
    ensures |parts| >= 2 && parts[|parts| - 1] == [] ==> Join(parts, [sep])[|Join(parts, [sep])| - 1] == sep
  {
    if |parts| >= 2 {
      JoinEndsWithLast(parts[1..], sep);
      var rest := Join(parts[1..], [sep]);
      assert Join(parts, [sep]) == parts[0] + [sep] + rest;
      if |parts| == 2 && parts[1] == [] {
        assert rest == [];
      }
    }
  }

  // ---------------------------------------------------------------- LCS specification

  function Max(x: nat, y: nat): nat { if x >= y then x else y }

  /** The longest-common-subsequence length, by the recurrence on prefixes. */
  function LcsLen(a: seq<Line>, b: seq<Line>): (r: nat)
    ensures r <= |a| && r <= |b|
    decreases |a| + |b|
  {
    if |a| == 0 || |b| == 0 then 0
    else if a[|a| - 1] == b[|b| - 1] then LcsLen(a[..|a| - 1], b[..|b| - 1]) + 1
    else Max(LcsLen(a[..|a| - 1], b), LcsLen(a, b[..|b| - 1]))
  }

  /** s is a subsequence of a. */
  predicate IsSubseq(s: seq<Line>, a: seq<Line>)
    decreases |a|
  {
    |s| == 0 ||
    (|a| > 0 &&
     ((s[|s| - 1] == a[|a| - 1] && IsSubseq(s[..|s| - 1], a[..|a| - 1])) ||
      IsSubseq(s, a[..|a| - 1])))
  }

  lemma {:induction false} SubseqDropLast(s: seq<Line>, a: seq<Line>)
    requires |s| > 0 && IsSubseq(s, a)
    ensures |a| > 0 && IsSubseq(s[..|s| - 1], a[..|a| - 1])
    decreases |a|
  {
    var a' := a[..|a| - 1];
    if s[|s| - 1] == a[|a| - 1] && IsSubseq(s[..|s| - 1], a') {
    } else {
      SubseqDropLast(s, a');
      assert a'[..|a'| - 1] == a[..|a| - 2];
      var s' := s[..|s| - 1];
      assert IsSubseq(s', a') by {
        if |s'| > 0 {
          assert IsSubseq(s', a'[..|a'| - 1]);
        }
      }
    }
  }

  lemma {:induction false} SubseqSkipLast(s: seq<Line>, a: seq<Line>)
    requires |s| > 0 && |a| > 0 && IsSubseq(s, a) && s[|s| - 1] != a[|a| - 1]
    ensures IsSubseq(s, a[..|a| - 1])
  {
  }

  /** No common subsequence is longer than LcsLen. */
  lemma {:induction false} LcsUpperBound(s: seq<Line>, a: seq<Line>, b: seq<Line>)
    requires IsSubseq(s, a) && IsSubseq(s, b)
    ensures |s| <= LcsLen(a, b)
    decreases |a| + |b|
  {
    if |s| > 0 {
      SubseqDropLast(s, a);
      SubseqDropLast(s, b);
      var a', b' := a[..|a| - 1], b[..|b| - 1];
      if a[|a| - 1] == b[|b| - 1] {
        LcsUpperBound(s[..|s| - 1], a', b');
      } else if s[|s| - 1] != a[|a| - 1] {
        SubseqSkipLast(s, a);
        LcsUpperBound(s, a', b);
      } else {
        SubseqSkipLast(s, b);
        LcsUpperBound(s, a, b');
      }
    }
  }

  /** A common subsequence of length LcsLen, so the bound is attained. */
  function LcsWitness(a: seq<Line>, b: seq<Line>): (w: seq<Line>)
    ensures IsSubseq(w, a) && IsSubseq(w, b)
    ensures |w| == LcsLen(a, b)
    decreases |a| + |b|
  {
    if |a| == 0 || |b| == 0 then []
    else if a[|a| - 1] == b[|b| - 1] then
      var w := LcsWitness(a[..|a| - 1], b[..|b| - 1]) + [a[|a| - 1]];
      assert w[..|w| - 1] == LcsWitness(a[..|a| - 1], b[..|b| - 1]);
      w
    else if LcsLen(a[..|a| - 1], b) >= LcsLen(a, b[..|b| - 1]) then
      var w := LcsWitness(a[..|a| - 1], b);
      assert a == a[..|a| - 1] + [a[|a| - 1]];
      w
    else
      var w := LcsWitness(a, b[..|b| - 1]);
      assert b == b[..|b| - 1] + [b[|b| - 1]];
      w
  }

  // ---------------------------------------------------------------- calculateLCS

  /** Fills the (m+1)×(n+1) table of prefix LCS lengths, row by row. */
  method CalculateLCS(before: seq<Line>, after: seq<Line>) returns (lcs: array2<int>)
    ensures fresh(lcs)
    ensures lcs.Length0 == |before| + 1 && lcs.Length1 == |after| + 1
    ensures forall i, j :: 0 <= i <= |before| && 0 <= j <= |after| ==>
              lcs[i, j] == LcsLen(before[..i], after[..j])
  {
    var m, n := |before|, |after|;
    lcs := new int[m + 1, n + 1]((i, j) => 0);
    for i := 1 to m + 1
      invariant forall ii, jj :: 0 <= ii < i && 0 <= jj <= n ==> lcs[ii, jj] == LcsLen(before[..ii], after[..jj])
      invariant forall ii :: i <= ii <= m ==> lcs[ii, 0] == 0
    {
      FillRow(before, after, lcs, i);
    }
  }

  /** Fills row i of the table from row i - 1, left to right. */
  method FillRow(before: seq<Line>, after: seq<Line>, lcs: array2<int>, i: nat)
    requires lcs.Length0 == |before| + 1 && lcs.Length1 == |after| + 1
    requires 0 < i <= |before|
    requires forall jj :: 0 <= jj <= |after| ==> lcs[i - 1, jj] == LcsLen(before[..i - 1], after[..jj])
    requires lcs[i, 0] == 0
    modifies lcs
    ensures forall jj :: 0 <= jj <= |after| ==> lcs[i, jj] == LcsLen(before[..i], after[..jj])
    ensures forall ii, jj :: 0 <= ii < lcs.Length0 && 0 <= jj < lcs.Length1 && ii != i ==>
              lcs[ii, jj] == old(lcs[ii, jj])
  {
    for j := 1 to |after| + 1
      invariant forall jj :: 0 <= jj < j ==> lcs[i, jj] == LcsLen(before[..i], after[..jj])
      invariant forall ii, jj :: 0 <= ii < lcs.Length0 && 0 <= jj < lcs.Length1 && ii != i ==>
                  lcs[ii, jj] == old(lcs[ii, jj])
    {
      LcsPrefixStep(before, after, i, j);
      if before[i - 1] == after[j - 1] {
        lcs[i, j] := lcs[i - 1, j - 1] + 1;
      } else {
        lcs[i, j] := if lcs[i - 1, j] >= lcs[i, j - 1] then lcs[i - 1, j] else lcs[i, j - 1];
      }
    }
  }

  /** The recurrence read on prefixes, as the table is filled. */
  lemma LcsPrefixStep(a: seq<Line>, b: seq<Line>, i: nat, j: nat)
    requires 0 < i <= |a| && 0 < j <= |b|
    ensures LcsLen(a[..i], b[..j]) ==
              if a[i - 1] == b[j - 1] then LcsLen(a[..i - 1], b[..j - 1]) + 1
              else Max(LcsLen(a[..i - 1], b[..j]), LcsLen(a[..i], b[..j - 1]))
  {
    assert a[..i][..i - 1] == a[..i - 1];
    assert b[..j][..j - 1] == b[..j - 1];
  }

  /** Every line is common to a sequence and itself. */
  lemma {:induction false} LcsSelf(a: seq<Line>)
    ensures LcsLen(a, a) == |a|
  {
    if |a| > 0 {
      LcsSelf(a[..|a| - 1]);
    }
  }

  // ---------------------------------------------------------------- generateDiff

  datatype Op = Keep | Add | Del

  /** One output line before rendering: what happened to which input line. */
  datatype Edit = Edit(op: Op, line: Line)

  /**
   * The backtrack's choice at (i, j) other than (0, 0): a common last line is kept,
   * otherwise an added target line is preferred whenever dropping the target line loses no
   * more common lines than dropping the baseline line. It names the edit and the next
   * position.
   */
  function StepOf(a: seq<Line>, b: seq<Line>, i: nat, j: nat): (r: (Edit, nat, nat))
    requires i <= |a| && j <= |b| && (i > 0 || j > 0)
    ensures r.1 <= i && r.2 <= j
    ensures r.0.op == Keep ==> r.1 == i - 1 && r.2 == j - 1 && r.0.line == a[i - 1] == b[j - 1]
    ensures r.0.op == Add ==> r.1 == i && r.2 == j - 1 && r.0.line == b[j - 1]
    ensures r.0.op == Del ==> r.1 == i - 1 && r.2 == j && r.0.line == a[i - 1]
  {
    if i > 0 && j > 0 && a[i - 1] == b[j - 1] then (Edit(Keep, a[i - 1]), i - 1, j - 1)
    else if j > 0 && (i == 0 || LcsLen(a[..i], b[..j - 1]) >= LcsLen(a[..i - 1], b[..j])) then (Edit(Add, b[j - 1]), i, j - 1)
    else (Edit(Del, a[i - 1]), i - 1, j)
  }

  /** The prefix LCS length drops by one exactly on a kept line, so each step follows a longest common subsequence. */
  lemma StepLcs(a: seq<Line>, b: seq<Line>, i: nat, j: nat)
    requires i <= |a| && j <= |b| && (i > 0 || j > 0)
    ensures var r := StepOf(a, b, i, j);
            LcsLen(a[..i], b[..j]) == LcsLen(a[..r.1], b[..r.2]) + (if r.0.op == Keep then 1 else 0)
  {
    if i > 0 {
      assert a[..i][..i - 1] == a[..i - 1];
    }
    if j > 0 {
      assert b[..j][..j - 1] == b[..j - 1];
    }
  }

  /** The edit script the backtrack emits for the first i baseline and first j target lines. */
  function Trace(a: seq<Line>, b: seq<Line>, i: nat, j: nat): seq<Edit>
    requires i <= |a| && j <= |b|
    decreases i + j
  {
    if i == 0 && j == 0 then []
    else
      var r := StepOf(a, b, i, j);
      Trace(a, b, r.1, r.2) + [r.0]
  }

  /** The script for the whole of both inputs. */
  function Backtrack(a: seq<Line>, b: seq<Line>): seq<Edit>
  {
    Trace(a, b, |a|, |b|)
  }

  /** The lines an edit script says were in the baseline: kept and removed ones. */
  function BaselineOf(s: seq<Edit>): seq<Line>
  {
    if |s| == 0 then []
    else BaselineOf(s[..|s| - 1]) + (if s[|s| - 1].op == Add then [] else [s[|s| - 1].line])
  }

  /** The lines an edit script says are in the target: kept and added ones. */
  function TargetOf(s: seq<Edit>): seq<Line>
  {
    if |s| == 0 then []
    else TargetOf(s[..|s| - 1]) + (if s[|s| - 1].op == Del then [] else [s[|s| - 1].line])
  }

  lemma BaselineSnoc(s: seq<Edit>, e: Edit)
    ensures BaselineOf(s + [e]) == BaselineOf(s) + (if e.op == Add then [] else [e.line])
  {
    assert (s + [e])[..|s|] == s;
  }

  lemma TargetSnoc(s: seq<Edit>, e: Edit)
    ensures TargetOf(s + [e]) == TargetOf(s) + (if e.op == Del then [] else [e.line])
  {
    assert (s + [e])[..|s|] == s;
  }

  function Count(s: seq<Edit>, op: Op): nat
  {
    if |s| == 0 then 0
    else Count(s[..|s| - 1], op) + (if s[|s| - 1].op == op then 1 else 0)
  }

  lemma {:induction false} CountAppend(s: seq<Edit>, t: seq<Edit>, op: Op)
    ensures Count(s + t, op) == Count(s, op) + Count(t, op)
  {
    if |t| == 0 {
      assert s + t == s;
    } else {
      CountAppend(s, t[..|t| - 1], op);
      assert (s + t)[..|s + t| - 1] == s + t[..|t| - 1];
      assert (s + t)[|s + t| - 1] == t[|t| - 1];
    }
  }

  /** Dropping the additions from the script for (i, j) gives the first i baseline lines. */
  lemma {:induction false} TraceBaseline(a: seq<Line>, b: seq<Line>, i: nat, j: nat)
    requires i <= |a| && j <= |b|
    ensures BaselineOf(Trace(a, b, i, j)) == a[..i]
    decreases i + j
  {
    if i > 0 || j > 0 {
      var r := StepOf(a, b, i, j);
      var e, i' := r.0, r.1;
      var prev := Trace(a, b, r.1, r.2);
      assert Trace(a, b, i, j) == prev + [e];
      assert BaselineOf(prev + [e]) == BaselineOf(prev) + (if e.op == Add then [] else [e.line]) by {
        BaselineSnoc(prev, e);
      }
      assert BaselineOf(prev) == a[..i'] by {
        TraceBaseline(a, b, r.1, r.2);
      }
      assert a[..i'] + (if e.op == Add then [] else [e.line]) == a[..i] by {
        if e.op != Add {
          assert a[..i] == a[..i - 1] + [a[i - 1]];
        }
      }
    }
  }

  /** Dropping the removals from the script for (i, j) gives the first j target lines. */
  lemma {:induction false} TraceTarget(a: seq<Line>, b: seq<Line>, i: nat, j: nat)
    requires i <= |a| && j <= |b|
    ensures TargetOf(Trace(a, b, i, j)) == b[..j]
    decreases i + j
  {
    if i > 0 || j > 0 {
      var r := StepOf(a, b, i, j);
      var e, j' := r.0, r.2;
      var prev := Trace(a, b, r.1, r.2);
      assert Trace(a, b, i, j) == prev + [e];
      assert TargetOf(prev + [e]) == TargetOf(prev) + (if e.op == Del then [] else [e.line]) by {
        TargetSnoc(prev, e);
      }
      assert TargetOf(prev) == b[..j'] by {
        TraceTarget(a, b, r.1, r.2);
      }
      assert b[..j'] + (if e.op == Del then [] else [e.line]) == b[..j] by {
        if e.op != Del {
          assert b[..j] == b[..j - 1] + [b[j - 1]];
        }
      }
    }
  }


  lemma BacktrackRoundTrip(a: seq<Line>, b: seq<Line>)
    ensures BaselineOf(Backtrack(a, b)) == a
    ensures TargetOf(Backtrack(a, b)) == b
  {
    TraceBaseline(a, b, |a|, |b|);
    TraceTarget(a, b, |a|, |b|);
    assert a[..|a|] == a && b[..|b|] == b;
  }

  /** Unchanged lines number the prefix LCS length; the rest of each prefix is added or removed. */
  lemma {:induction false} TraceCounts(a: seq<Line>, b: seq<Line>, i: nat, j: nat)
    requires i <= |a| && j <= |b|
    ensures Count(Trace(a, b, i, j), Keep) == LcsLen(a[..i], b[..j])
    ensures Count(Trace(a, b, i, j), Add) == j - LcsLen(a[..i], b[..j])
    ensures Count(Trace(a, b, i, j), Del) == i - LcsLen(a[..i], b[..j])
    decreases i + j
  {
    if i > 0 || j > 0 {
      var r := StepOf(a, b, i, j);
      var e, i', j' := r.0, r.1, r.2;
      StepLcs(a, b, i, j);
      TraceCounts(a, b, i', j');
      var s := Trace(a, b, i, j);
      assert s[..|s| - 1] == Trace(a, b, i', j') && s[|s| - 1] == e;
    }
  }

  /** Unchanged lines number LcsLen; the rest of each input is added or removed. */
  lemma BacktrackCounts(a: seq<Line>, b: seq<Line>)
    ensures Count(Backtrack(a, b), Keep) == LcsLen(a, b)
    ensures Count(Backtrack(a, b), Add) == |b| - LcsLen(a, b)
    ensures Count(Backtrack(a, b), Del) == |a| - LcsLen(a, b)
  {
    TraceCounts(a, b, |a|, |b|);
    assert a[..|a|] == a && b[..|b|] == b;
  }

  /** A rendered line: the two-byte marker, then the input line. */
  function Render(e: Edit): (r: Line)
    ensures |r| == |e.line| + 2 && r[2..] == e.line && r[1] == Space
    ensures r[0] == (match e.op case Keep => Space case Add => Plus case Del => Minus)
  {
    match e.op
    case Keep => [Space, Space] + e.line
    case Add => [Plus, Space] + e.line
    case Del => [Minus, Space] + e.line
  }

  function RenderAll(s: seq<Edit>): (r: seq<Line>)
    ensures |r| == |s|
    ensures forall k :: 0 <= k < |s| ==> r[k] == Render(s[k])
  {
    seq(|s|, k requires 0 <= k < |s| => Render(s[k]))
  }

  /** The diff text: rendered lines separated by single newlines, none after the last. */
  function DiffText(s: seq<Edit>): seq<Byte>
  {
    Join(RenderAll(s), [NL])
  }

  /** Reading a rendered diff back: drop the lines marked `drop`, strip the marker of the rest. */
  function Unprefix(lines: seq<Line>, drop: Byte): seq<Line>
  {
    if |lines| == 0 then []
    else
      var last := lines[|lines| - 1];
      Unprefix(lines[..|lines| - 1], drop)
      + (if |last| > 0 && last[0] == drop then [] else if |last| >= 2 then [last[2..]] else [[]])
  }

  /** Dropping "+ " lines gives the baseline lines, dropping "- " lines the target lines. */
  lemma {:induction false} UnprefixRender(s: seq<Edit>)
    ensures Unprefix(RenderAll(s), Plus) == BaselineOf(s)
    ensures Unprefix(RenderAll(s), Minus) == TargetOf(s)
  {
    if |s| > 0 {
      UnprefixRender(s[..|s| - 1]);
      assert RenderAll(s)[..|s| - 1] == RenderAll(s[..|s| - 1]);
    }
  }

  /**
   * The whole round trip on bytes: splitting the diff text at newlines and dropping
   * the "+ " (resp. "- ") lines gives back the split baseline (resp. target).
   */
  lemma DiffTextRoundTrip(baseline: seq<Byte>, target: seq<Byte>)
    requires baseline != [] || target != []
    ensures Unprefix(Split(DiffText(Backtrack(SplitLines(baseline), SplitLines(target))), NL), Plus) == SplitLines(baseline)
    ensures Unprefix(Split(DiffText(Backtrack(SplitLines(baseline), SplitLines(target))), NL), Minus) == SplitLines(target)
  {
    var a, b := SplitLines(baseline), SplitLines(target);
    var s := Backtrack(a, b);
    BacktrackRoundTrip(a, b);
    UnprefixRender(s);
    var lines := RenderAll(s);
    forall k | 0 <= k < |lines| ensures NL !in lines[k] {
      ScriptLinesFromInputs(s, k);
      RenderNoNewline(s[k]);
    }
    SplitJoin(lines, NL);
  }

  lemma RenderNoNewline(e: Edit)
    requires NL !in e.line
    ensures NL !in Render(e)
  {
    var r := Render(e);
    assert r == r[..2] + e.line;
  }

  /** Every line of a script is a line of its baseline or of its target. */
  lemma {:induction false} ScriptLinesFromInputs(s: seq<Edit>, k: nat)
    requires k < |s|
    requires forall q :: 0 <= q < |BaselineOf(s)| ==> NL !in BaselineOf(s)[q]
    requires forall q :: 0 <= q < |TargetOf(s)| ==> NL !in TargetOf(s)[q]
    ensures NL !in s[k].line
  {
    var init := s[..|s| - 1];
    if k < |s| - 1 {
      assert forall q :: 0 <= q < |BaselineOf(init)| ==> BaselineOf(init)[q] == BaselineOf(s)[q];
      assert forall q :: 0 <= q < |TargetOf(init)| ==> TargetOf(init)[q] == TargetOf(s)[q];
      ScriptLinesFromInputs(init, k);
    } else if s[k].op == Add {
      assert TargetOf(s)[|TargetOf(s)| - 1] == s[k].line;
    } else {
      assert BaselineOf(s)[|BaselineOf(s)| - 1] == s[k].line;
    }
  }

  lemma Prepend(e: Edit, done: seq<Edit>)
    ensures RenderAll([e] + done) == [Render(e)] + RenderAll(done)
    ensures Count([e] + done, Add) == Count(done, Add) + (if e.op == Add then 1 else 0)
    ensures Count([e] + done, Del) == Count(done, Del) + (if e.op == Del then 1 else 0)
  {
    PrependRender(e, done);
    CountAppend([e], done, Add);
    CountAppend([e], done, Del);
    assert [e][..0] == [];
  }

  lemma PrependRender(e: Edit, done: seq<Edit>)
    ensures RenderAll([e] + done) == [Render(e)] + RenderAll(done)
  {
    var l, r := RenderAll([e] + done), [Render(e)] + RenderAll(done);
    assert |l| == |r|;
    forall k | 0 <= k < |l|
      ensures l[k] == r[k]
    {
      if k > 0 {
        assert ([e] + done)[k] == done[k - 1];
      }
    }
  }

  lemma Reassociate(x: seq<Edit>, e: Edit, done: seq<Edit>)
    ensures (x + [e]) + done == x + ([e] + done)
  {
  }

  /**
   * One iteration of the backtrack loop: exactly one of the three branches applies at any
   * (i, j) other than (0, 0), and it lowers i + j by one or two while emitting the last
   * edit of the script for the current prefixes.
   */
  method BacktrackStep(before: seq<Line>, after: seq<Line>, lcs: array2<int>, i: nat, j: nat)
      returns (e: Edit, i': nat, j': nat)
    requires lcs.Length0 == |before| + 1 && lcs.Length1 == |after| + 1
    requires forall i, j :: 0 <= i <= |before| && 0 <= j <= |after| ==>
               lcs[i, j] == LcsLen(before[..i], after[..j])
    requires i <= |before| && j <= |after| && (i > 0 || j > 0)
    ensures (e, i', j') == StepOf(before, after, i, j)
  {
    if i > 0 && j > 0 && before[i - 1] == after[j - 1] {
      e, i', j' := Edit(Keep, before[i - 1]), i - 1, j - 1;
    } else if j > 0 && (i == 0 || lcs[i, j - 1] >= lcs[i - 1, j]) {
      e, i', j' := Edit(Add, after[j - 1]), i, j - 1;
    } else if i > 0 && (j == 0 || lcs[i, j - 1] < lcs[i - 1, j]) {
      e, i', j' := Edit(Del, before[i - 1]), i - 1, j;
    } else {
      assert false;
    }
  }

  /**
   * The backtrack over a filled table: walks i, j down from the bottom-right corner,
   * prepending one rendered line per step and counting additions and removals.
   */
  method GenerateDiff(before: seq<Line>, after: seq<Line>, lcs: array2<int>)
      returns (diff: seq<Byte>, addedCount: nat, removedCount: nat)
    requires lcs.Length0 == |before| + 1 && lcs.Length1 == |after| + 1
    requires forall i, j :: 0 <= i <= |before| && 0 <= j <= |after| ==>
               lcs[i, j] == LcsLen(before[..i], after[..j])
    ensures diff == DiffText(Backtrack(before, after))
    ensures addedCount == |after| - LcsLen(before, after)
    ensures removedCount == |before| - LcsLen(before, after)
  {
    var i, j := |before|, |after|;
    var lines: seq<Line> := [];
    ghost var done: seq<Edit> := [];
    addedCount, removedCount := 0, 0;
    while i > 0 || j > 0
      invariant 0 <= i <= |before| && 0 <= j <= |after|
      invariant Backtrack(before, after) == Trace(before, after, i, j) + done
      invariant lines == RenderAll(done)
      invariant addedCount == Count(done, Add) && removedCount == Count(done, Del)
      decreases i + j
    {
      var e, i', j' := BacktrackStep(before, after, lcs, i, j);
      assert Trace(before, after, i, j) == Trace(before, after, i', j') + [e];
      addedCount := addedCount + (if e.op == Add then 1 else 0);
      removedCount := removedCount + (if e.op == Del then 1 else 0);
      i, j := i', j';
      Prepend(e, done);
      Reassociate(Trace(before, after, i, j), e, done);
      lines := [Render(e)] + lines;
      done := [e] + done;
    }
    assert Trace(before, after, i, j) == [];
    assert done == Backtrack(before, after);
    diff := Join(lines, [NL]);
    BacktrackCounts(before, after);
  }

  // ---------------------------------------------------------------- Calculate

  datatype DiffResult = DiffResult(diff: seq<Byte>, amount: Fraction)

  /** Lines that are not common to both inputs: the added plus the removed ones. */
  function ChangedLines(a: seq<Line>, b: seq<Line>): (c: nat)
    ensures c <= |a| + |b|
  {
    |a| + |b| - 2 * LcsLen(a, b)
  }

  /**
   * Splits both inputs, fills the table, backtracks, and reports the changed-line share of
   * all lines; as added plus removed never exceeds the line total, the 1.0 cap never applies.
   */
  method Calculate(baseline: seq<Byte>, target: seq<Byte>) returns (result: DiffResult)
    ensures result.diff == DiffText(Backtrack(SplitLines(baseline), SplitLines(target)))
    ensures var a, b := SplitLines(baseline), SplitLines(target);
            result.amount == if |a| + |b| == 0 then Zero else Fraction(ChangedLines(a, b), |a| + |b|)
  {
    var beforeLines := SplitLines(baseline);
    var afterLines := SplitLines(target);
    var lcs := CalculateLCS(beforeLines, afterLines);
    var diff, addedCount, removedCount := GenerateDiff(beforeLines, afterLines, lcs);
    var totalLines := |beforeLines| + |afterLines|;
    result := DiffResult(diff, CappedRatio(addedCount + removedCount, totalLines));
  }

  /** Identical inputs, including two empty ones, have no changed lines. */
  lemma IdenticalInputs(data: seq<Byte>)
    ensures ChangedLines(SplitLines(data), SplitLines(data)) == 0
  {
    LcsSelf(SplitLines(data));
  }
}
