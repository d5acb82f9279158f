/**
 * The second half of the DOM diff: the children of two trees are matched by path, the
 * union of their paths is visited in ascending order, and every path is classified as
 * added, removed, modified or unchanged before the comparison descends into it.
 */
module DomCompare {
  import opened StringUtil
  import opened Wrappers
  import opened Fraction
  import opened DomTree

  datatype ChangeType = Added | Removed | Modified | Unchanged

  datatype Change = Change(
    changeType: ChangeType,
    path: string,
    baseline: Option<TreeNode>,
    target: Option<TreeNode>,
    indent: nat)

  /** The childless node the comparison uses in place of a missing side. */
  const EmptyNode: TreeNode := TreeNode("", 0, ErrorNode, "", map[], "", [])

  // ---------------------------------------------------------------- buildNodeMap

  /** Nodes keyed by path; of two nodes with the same path the later one stays. */
  function NodeMap(nodes: seq<TreeNode>): (m: map<string, TreeNode>)
    ensures forall i :: 0 <= i < |nodes| ==> nodes[i].path in m
    ensures forall p :: p in m ==> m[p] in nodes && m[p].path == p
  {
    if |nodes| == 0 then map[]
    else
      var last := nodes[|nodes| - 1];
      NodeMap(nodes[..|nodes| - 1])[last.path := last]
  }

  /** The node stored for a path is its last occurrence. */
  lemma {:induction false} NodeMapLastWins(nodes: seq<TreeNode>, i: nat)
    requires i < |nodes|
    requires forall j :: i < j < |nodes| ==> nodes[j].path != nodes[i].path
    ensures NodeMap(nodes)[nodes[i].path] == nodes[i]
  {
    if i < |nodes| - 1 {
      NodeMapLastWins(nodes[..|nodes| - 1], i);
    }
  }

  function Lookup(m: map<string, TreeNode>, path: string): Option<TreeNode>
  {
    if path in m then Some(m[path]) else None
  }

  function SizeOpt(n: Option<TreeNode>): nat
  {
    match n
    case None => 0
    case Some(t) => Size(t)
  }

  /** The node a path finds is no larger than the forest it was found in. */
  lemma LookupSize(nodes: seq<TreeNode>, path: string)
    ensures SizeOpt(Lookup(NodeMap(nodes), path)) <= SizeAll(nodes)
  {
    var m := NodeMap(nodes);
    if path in m {
      var i :| 0 <= i < |nodes| && nodes[i] == m[path];
      SizeOfMember(nodes, i);
    }
  }

  function Paths(nodes: seq<TreeNode>): seq<string>
  {
    seq(|nodes|, i requires 0 <= i < |nodes| => nodes[i].path)
  }

  lemma PathsAreKeys(nodes: seq<TreeNode>)
    ensures forall p :: p in Paths(nodes) <==> p in NodeMap(nodes)
  {
    var m := NodeMap(nodes);
    forall p | p in m
      ensures p in Paths(nodes)
    {
      var i :| 0 <= i < |nodes| && nodes[i] == m[p];
      assert Paths(nodes)[i] == p;
    }
  }

  // ---------------------------------------------------------------- collectAllPaths

  /** Every path of either side once, in ascending string order. */
  function CollectAllPaths(baseline: seq<TreeNode>, target: seq<TreeNode>): (paths: seq<string>)
    ensures forall p :: p in paths <==> p in NodeMap(baseline) || p in NodeMap(target)
    ensures StrictlySorted(paths)
  {
    PathsAreKeys(baseline);
    PathsAreKeys(target);
    SortedUnique(Paths(baseline) + Paths(target))
  }

  // ---------------------------------------------------------------- nodesEqual

  /**
   * nodesEqual: the types must match; elements are compared by the attribute check below,
   * text by its text, and any other two nodes of one type are equal.
   */
  predicate NodesEqual(a: TreeNode, b: TreeNode)
  {
    if a.kind != b.kind then false
    else
      match a.kind
      case ElementNode => ElementNodesEqualAsWritten(a, b)
      case TextNode => a.text == b.text
      case _ => true
  }

  /**
   * elementNodesEqual: same tag, as many attributes, and every attribute of a read back from b,
   * where a key missing from b reads as the empty string.
   */
  predicate ElementNodesEqualAsWritten(a: TreeNode, b: TreeNode)
  {
    a.tag == b.tag && |a.attrs| == |b.attrs| &&
    forall k :: k in a.attrs ==> (if k in b.attrs then b.attrs[k] else "") == a.attrs[k]
  }

  /** The intended match: same type and, for elements, the same tag and exactly the same attributes. */
  predicate NodesMatch(a: TreeNode, b: TreeNode)
  {
    if a.kind != b.kind then false
    else
      match a.kind
      case ElementNode => a.tag == b.tag && a.attrs == b.attrs
      case TextNode => a.text == b.text
      case _ => true
  }

  /** The intended match is an equivalence: reflexive, symmetric and transitive. */
  lemma NodesMatchEquivalence(a: TreeNode, b: TreeNode, c: TreeNode)
    ensures NodesMatch(a, a)
    ensures NodesMatch(a, b) ==> NodesMatch(b, a)
    ensures NodesMatch(a, b) && NodesMatch(b, c) ==> NodesMatch(a, c)
  {
  }

  /** Every node is equal to itself under the check as written. */
  lemma NodesEqualReflexive(a: TreeNode)
    ensures NodesEqual(a, a)
  {
  }

  /** Two nodes that match also pass the check as written. */
  lemma EqualElementsPassAsWritten(a: TreeNode, b: TreeNode)
    requires NodesMatch(a, b)
    ensures NodesEqual(a, b)
  {
  }

  lemma SubsetSameSize(x: set<string>, y: set<string>)
    requires x <= y && |x| == |y|
    ensures x == y
  {
    if x != y {
      var e :| e in y && e !in x;
      assert x <= y - {e};
      assert |x| <= |y - {e}| by {
        SubsetSize(x, y - {e});
      }
    }
  }

  lemma {:induction false} SubsetSize(x: set<string>, y: set<string>)
    requires x <= y
    ensures |x| <= |y|
    decreases |y|
  {
    if x != {} {
      var e :| e in x;
      SubsetSize(x - {e}, y - {e});
    }
  }

  /** Without empty attribute values the check as written agrees with the intended match. */
  lemma AsWrittenExactWithoutEmptyValues(a: TreeNode, b: TreeNode)
    requires forall k :: k in a.attrs ==> a.attrs[k] != ""
    ensures NodesEqual(a, b) <==> NodesMatch(a, b)
  {
    if a.kind == b.kind && a.kind == ElementNode && ElementNodesEqualAsWritten(a, b) {
      assert a.attrs.Keys <= b.attrs.Keys;
      assert |a.attrs.Keys| == |b.attrs.Keys|;
      SubsetSameSize(a.attrs.Keys, b.attrs.Keys);
      assert a.attrs == b.attrs;
    }
  }

  /** `<div x="">` and `<div y="">` pass the check as written although their attributes differ. */
  lemma AsWrittenCounterexample()
    ensures var a := TreeNode("/div[0]", 0, ElementNode, "div", map["x" := ""], "", []);
            var b := TreeNode("/div[0]", 0, ElementNode, "div", map["y" := ""], "", []);
            NodesEqual(a, b) && !NodesMatch(a, b)
  {
    var a := TreeNode("/div[0]", 0, ElementNode, "div", map["x" := ""], "", []);
    var b := TreeNode("/div[0]", 0, ElementNode, "div", map["y" := ""], "", []);
    assert a.attrs.Keys == {"x"};
    assert b.attrs.Keys == {"y"};
    assert "x" !in b.attrs;
    assert a.attrs != b.attrs by {
      assert "x" in a.attrs;
    }
  }

  /**
   * The check as written is not symmetric: `<p a="" b="1">` passes against `<p b="1" c="2">`,
   * but not the other way round, so swapping baseline and target can turn Unchanged into Modified.
   */
  lemma AsWrittenAsymmetric()
    ensures var a := TreeNode("/p[0]", 0, ElementNode, "p", map["a" := "", "b" := "1"], "", []);
            var b := TreeNode("/p[0]", 0, ElementNode, "p", map["b" := "1", "c" := "2"], "", []);
            NodesEqual(a, b) && !NodesEqual(b, a)
  {
    var a := TreeNode("/p[0]", 0, ElementNode, "p", map["a" := "", "b" := "1"], "", []);
    var b := TreeNode("/p[0]", 0, ElementNode, "p", map["b" := "1", "c" := "2"], "", []);
    assert a.attrs.Keys == {"a", "b"};
    assert b.attrs.Keys == {"b", "c"};
    assert |a.attrs| == 2 && |b.attrs| == 2;
    assert "a" !in b.attrs && "c" !in a.attrs;
    assert !ElementNodesEqualAsWritten(b, a) by {
      assert "c" in b.attrs;
    }
  }

  // ---------------------------------------------------------------- the comparison as a value

  /** The changes for every path of the two child lists, in path order, each followed by its subtree's. */
  function CompareForests(baseline: seq<TreeNode>, target: seq<TreeNode>, indent: nat): seq<Change>
    decreases SizeAll(baseline) + SizeAll(target), 2, 0
  {
    ComparePathsFrom(CollectAllPaths(baseline, target), 0, baseline, target, indent)
  }

  function ComparePathsFrom(paths: seq<string>, i: nat, baseline: seq<TreeNode>, target: seq<TreeNode>, indent: nat): seq<Change>
    requires i <= |paths|
    decreases SizeAll(baseline) + SizeAll(target), 1, |paths| - i
  {
    if i == |paths| then []
    else
      LookupSize(baseline, paths[i]);
      LookupSize(target, paths[i]);
      PathChanges(paths[i], Lookup(NodeMap(baseline), paths[i]), Lookup(NodeMap(target), paths[i]), indent)
      + ComparePathsFrom(paths, i + 1, baseline, target, indent)
  }

  /**
   * One path: target-only is Added and its subtree is compared against nothing,
   * baseline-only is Removed likewise, and a path on both sides is Unchanged or Modified
   * and its children are compared; all one level deeper.
   */
  function PathChanges(path: string, b: Option<TreeNode>, t: Option<TreeNode>, indent: nat): seq<Change>
    decreases SizeOpt(b) + SizeOpt(t), 0, 0
  {
    match (b, t)
    case (None, Some(tn)) =>
      [Change(Added, path, None, t, indent)]
      + (if |tn.children| > 0 then CompareForests([], tn.children, indent + 1) else [])
    case (Some(bn), None) =>
      [Change(Removed, path, b, None, indent)]
      + (if |bn.children| > 0 then CompareForests(bn.children, [], indent + 1) else [])
    case (Some(bn), Some(tn)) =>
      (if NodesEqual(bn, tn) then [Change(Unchanged, path, b, None, indent)]
       else [Change(Modified, path, b, t, indent)])
      + CompareForests(bn.children, tn.children, indent + 1)
    case (None, None) => []
  }

  // ---------------------------------------------------------------- the comparator

  /** The comparison result the comparator fills: the changes so far and the number of paths visited. */
  class ComparisonResult {
    var changes: seq<Change>
    var totalNodes: int

    /** Every visited path appended exactly one change. */
    ghost predicate Valid()
      reads this
    {
      totalNodes == |changes|
    }

    constructor ()
      ensures Valid() && changes == [] && totalNodes == 0
    {
      changes := [];
      totalNodes := 0;
    }

    /** The share of visited paths that changed: counts the changes that are not Unchanged. */
    method DiffRatioOf() returns (ratio: Fraction)
      requires Valid()
      ensures ratio == DiffRatio(changes, totalNodes)
    {
      if totalNodes == 0 {
        return Zero;
      }
      var changedCount := 0;
      for i := 0 to |changes|
        invariant changedCount == ChangedCount(changes[..i])
      {
        assert changes[..i + 1][..i] == changes[..i];
        if changes[i].changeType != Unchanged {
          changedCount := changedCount + 1;
        }
      }
      assert changes[..|changes|] == changes;
      ratio := CappedRatio(changedCount, totalNodes);
    }

    /** Appends the changes for the children of the two nodes. */
    method CompareNodes(baseline: TreeNode, target: TreeNode, indent: nat)
      modifies this
      ensures changes == old(changes) + CompareForests(baseline.children, target.children, indent)
      ensures totalNodes == old(totalNodes) + |CompareForests(baseline.children, target.children, indent)|
      decreases SizeAll(baseline.children) + SizeAll(target.children), 2, 0
    {
      ghost var bs, ts := baseline.children, target.children;
      var baselineMap := NodeMap(baseline.children);
      var targetMap := NodeMap(target.children);
      var allPaths := CollectAllPaths(baseline.children, target.children);
      ghost var changes0, total0 := changes, totalNodes;
      for i := 0 to |allPaths|
        invariant changes + ComparePathsFrom(allPaths, i, bs, ts, indent)
                  == changes0 + CompareForests(bs, ts, indent)
        invariant totalNodes - total0 + |ComparePathsFrom(allPaths, i, bs, ts, indent)|
                  == |CompareForests(bs, ts, indent)|
      {
        ghost var step := PathChanges(allPaths[i], Lookup(baselineMap, allPaths[i]), Lookup(targetMap, allPaths[i]), indent);
        ghost var rest := ComparePathsFrom(allPaths, i + 1, bs, ts, indent);
        ghost var before := changes;
        assert ComparePathsFrom(allPaths, i, bs, ts, indent) == step + rest;
        LookupSize(bs, allPaths[i]);
        LookupSize(ts, allPaths[i]);
        ProcessNodeComparison(allPaths[i], baselineMap, targetMap, indent);
        Reassociate(before, step, rest);
      }
      Reassociate(changes, [], []);
    }

    /** Appends the change for one path, then the changes below it. */
    method ProcessNodeComparison(path: string, baselineMap: map<string, TreeNode>, targetMap: map<string, TreeNode>, indent: nat)
      requires path in baselineMap || path in targetMap
      modifies this
      ensures changes == old(changes) + PathChanges(path, Lookup(baselineMap, path), Lookup(targetMap, path), indent)
      ensures totalNodes == old(totalNodes) + |PathChanges(path, Lookup(baselineMap, path), Lookup(targetMap, path), indent)|
      decreases SizeOpt(Lookup(baselineMap, path)) + SizeOpt(Lookup(targetMap, path)), 0, 0
    {
      totalNodes := totalNodes + 1;
      ghost var before := changes;
      if path !in baselineMap && path in targetMap {
        var targetNode := targetMap[path];
        var change := Change(Added, path, None, Some(targetNode), indent);
        changes := changes + [change];
        if |targetNode.children| > 0 {
          CompareNodes(EmptyNode, targetNode, indent + 1);
          Reassociate(before, [change], CompareForests([], targetNode.children, indent + 1));
        }
      } else if path in baselineMap && path !in targetMap {
        var baseNode := baselineMap[path];
        var change := Change(Removed, path, Some(baseNode), None, indent);
        changes := changes + [change];
        if |baseNode.children| > 0 {
          CompareNodes(baseNode, EmptyNode, indent + 1);
          Reassociate(before, [change], CompareForests(baseNode.children, [], indent + 1));
        }
      } else {
        var baseNode, targetNode := baselineMap[path], targetMap[path];
        var change;
        if NodesEqual(baseNode, targetNode) {
          change := Change(Unchanged, path, Some(baseNode), None, indent);
        } else {
          change := Change(Modified, path, Some(baseNode), Some(targetNode), indent);
        }
        changes := changes + [change];
        CompareNodes(baseNode, targetNode, indent + 1);
        Reassociate(before, [change], CompareForests(baseNode.children, targetNode.children, indent + 1));
      }
    }
  }

  lemma Reassociate(a: seq<Change>, b: seq<Change>, c: seq<Change>)
    ensures (a + b) + c == a + (b + c)
  {
  }

  /** Builds a fresh result and compares the children of the two roots at indent 0. */
  method Compare(baseline: TreeNode, target: TreeNode) returns (result: ComparisonResult)
    ensures fresh(result) && result.Valid()
    ensures result.changes == CompareForests(baseline.children, target.children, 0)
  {
    result := new ComparisonResult();
    result.CompareNodes(baseline, target, 0);
  }

  // ---------------------------------------------------------------- properties

  /** A change carries the nodes its kind speaks of: the target of an addition, the baseline of the others, both for a modification. */
  predicate WellFormedChange(c: Change)
  {
    match c.changeType
    case Added => c.target.Some?
    case Removed => c.baseline.Some?
    case Modified => c.baseline.Some? && c.target.Some?
    case Unchanged => c.baseline.Some?
  }

  /** Every change is well formed and at the given indent or deeper. */
  predicate Nested(changes: seq<Change>, indent: nat)
  {
    forall k :: 0 <= k < |changes| ==> changes[k].indent >= indent && WellFormedChange(changes[k])
  }

  lemma NestedAppend(a: seq<Change>, b: seq<Change>, indent: nat)
    requires Nested(a, indent) && Nested(b, indent)
    ensures Nested(a + b, indent)
  {
  }

  lemma NestedDeeper(changes: seq<Change>, indent: nat)
    requires Nested(changes, indent + 1)
    ensures Nested(changes, indent)
  {
  }

  /** Every change of a comparison at indent d is well formed and at indent d or deeper. */
  lemma {:induction false} ComparisonNested(baseline: seq<TreeNode>, target: seq<TreeNode>, indent: nat)
    ensures Nested(CompareForests(baseline, target, indent), indent)
    decreases SizeAll(baseline) + SizeAll(target), 2, 0
  {
    PathsNested(CollectAllPaths(baseline, target), 0, baseline, target, indent);
  }

  lemma {:induction false} PathsNested(paths: seq<string>, i: nat, baseline: seq<TreeNode>, target: seq<TreeNode>, indent: nat)
    requires i <= |paths|
    ensures Nested(ComparePathsFrom(paths, i, baseline, target, indent), indent)
    decreases SizeAll(baseline) + SizeAll(target), 1, |paths| - i
  {
    if i < |paths| {
      var b, t := Lookup(NodeMap(baseline), paths[i]), Lookup(NodeMap(target), paths[i]);
      var step := PathChanges(paths[i], b, t, indent);
      var rest := ComparePathsFrom(paths, i + 1, baseline, target, indent);
      assert ComparePathsFrom(paths, i, baseline, target, indent) == step + rest;
      assert Nested(step, indent) by {
        LookupSize(baseline, paths[i]);
        LookupSize(target, paths[i]);
        PathNested(paths[i], b, t, indent);
      }
      assert Nested(rest, indent) by {
        PathsNested(paths, i + 1, baseline, target, indent);
      }
      NestedAppend(step, rest, indent);
    }
  }

  lemma {:induction false} PathNested(path: string, b: Option<TreeNode>, t: Option<TreeNode>, indent: nat)
    ensures Nested(PathChanges(path, b, t, indent), indent)
    decreases SizeOpt(b) + SizeOpt(t), 0, 0
  {
    match (b, t) {
      case (None, Some(tn)) =>
        var sub := if |tn.children| > 0 then CompareForests([], tn.children, indent + 1) else [];
        if |tn.children| > 0 {
          ComparisonNested([], tn.children, indent + 1);
        }
        NestedDeeper(sub, indent);
        NestedAppend([Change(Added, path, None, t, indent)], sub, indent);
      case (Some(bn), None) =>
        var sub := if |bn.children| > 0 then CompareForests(bn.children, [], indent + 1) else [];
        if |bn.children| > 0 {
          ComparisonNested(bn.children, [], indent + 1);
        }
        NestedDeeper(sub, indent);
        NestedAppend([Change(Removed, path, b, None, indent)], sub, indent);
      case (Some(bn), Some(tn)) =>
        var sub := CompareForests(bn.children, tn.children, indent + 1);
        ComparisonNested(bn.children, tn.children, indent + 1);
        NestedDeeper(sub, indent);
        var head := if NodesEqual(bn, tn) then Change(Unchanged, path, b, None, indent)
                    else Change(Modified, path, b, t, indent);
        NestedAppend([head], sub, indent);
      case (None, None) =>
    }
  }

  /** The paths of the changes at exactly the given indent, in order. */
  function AtIndent(changes: seq<Change>, indent: nat): seq<string>
  {
    if |changes| == 0 then []
    else AtIndent(changes[..|changes| - 1], indent)
         + (if changes[|changes| - 1].indent == indent then [changes[|changes| - 1].path] else [])
  }

  lemma {:induction false} AtIndentAppend(a: seq<Change>, b: seq<Change>, indent: nat)
    ensures AtIndent(a + b, indent) == AtIndent(a, indent) + AtIndent(b, indent)
  {
    if |b| == 0 {
      assert a + b == a;
    } else {
      AtIndentAppend(a, b[..|b| - 1], indent);
      assert (a + b)[..|a + b| - 1] == a + b[..|b| - 1];
    }
  }

  lemma {:induction false} AtIndentDeeper(changes: seq<Change>, indent: nat)
    requires Nested(changes, indent + 1)
    ensures AtIndent(changes, indent) == []
  {
    if |changes| > 0 {
      AtIndentDeeper(changes[..|changes| - 1], indent);
    }
  }

  /**
   * At its own level a comparison lists every path of either side exactly once, in
   * ascending order; everything else it lists is deeper.
   */
  lemma TopLevelIsPathUnion(baseline: seq<TreeNode>, target: seq<TreeNode>, indent: nat)
    ensures AtIndent(CompareForests(baseline, target, indent), indent) == CollectAllPaths(baseline, target)
  {
    var paths := CollectAllPaths(baseline, target);
    TopLevelFrom(paths, 0, baseline, target, indent);
    assert paths[0..] == paths;
  }

  lemma {:induction false} TopLevelFrom(paths: seq<string>, i: nat, baseline: seq<TreeNode>, target: seq<TreeNode>, indent: nat)
    requires i <= |paths|
    requires forall p :: p in paths ==> p in NodeMap(baseline) || p in NodeMap(target)
    ensures AtIndent(ComparePathsFrom(paths, i, baseline, target, indent), indent) == paths[i..]
    decreases |paths| - i
  {
    if i < |paths| {
      var b, t := Lookup(NodeMap(baseline), paths[i]), Lookup(NodeMap(target), paths[i]);
      var step := PathChanges(paths[i], b, t, indent);
      var rest := ComparePathsFrom(paths, i + 1, baseline, target, indent);
      assert ComparePathsFrom(paths, i, baseline, target, indent) == step + rest;
      assert AtIndent(step, indent) == [paths[i]] by {
        TopLevelOfPath(paths[i], b, t, indent);
      }
      assert AtIndent(rest, indent) == paths[i + 1..] by {
        TopLevelFrom(paths, i + 1, baseline, target, indent);
      }
      AtIndentAppend(step, rest, indent);
      assert paths[i..] == [paths[i]] + paths[i + 1..];
    }
  }

  lemma TopLevelOfPath(path: string, b: Option<TreeNode>, t: Option<TreeNode>, indent: nat)
    requires b.Some? || t.Some?
    ensures AtIndent(PathChanges(path, b, t, indent), indent) == [path]
  {
    match (b, t) {
      case (None, Some(tn)) =>
        var sub := if |tn.children| > 0 then CompareForests([], tn.children, indent + 1) else [];
        if |tn.children| > 0 {
          ComparisonNested([], tn.children, indent + 1);
        }
        HeadThenDeeper(Change(Added, path, None, t, indent), sub, indent);
      case (Some(bn), None) =>
        var sub := if |bn.children| > 0 then CompareForests(bn.children, [], indent + 1) else [];
        if |bn.children| > 0 {
          ComparisonNested(bn.children, [], indent + 1);
        }
        HeadThenDeeper(Change(Removed, path, b, None, indent), sub, indent);
      case (Some(bn), Some(tn)) =>
        var sub := CompareForests(bn.children, tn.children, indent + 1);
        ComparisonNested(bn.children, tn.children, indent + 1);
        var head := if NodesEqual(bn, tn) then Change(Unchanged, path, b, None, indent)
                    else Change(Modified, path, b, t, indent);
        HeadThenDeeper(head, sub, indent);
    }
  }

  /** A change at the given indent followed only by deeper ones shows one path at that indent. */
  lemma HeadThenDeeper(c: Change, sub: seq<Change>, indent: nat)
    requires c.indent == indent
    requires Nested(sub, indent + 1)
    ensures AtIndent([c] + sub, indent) == [c.path]
  {
    AtIndentDeeper(sub, indent);
    AtIndentAppend([c], sub, indent);
    assert AtIndent([c], indent) == [c.path] by {
      assert [c][..0] == [];
    }
  }

  /** A tree compared with itself has no change other than Unchanged. */
  lemma {:induction false} SelfComparisonUnchanged(nodes: seq<TreeNode>, indent: nat)
    ensures AllUnchanged(CompareForests(nodes, nodes, indent))
    decreases SizeAll(nodes) + SizeAll(nodes), 2, 0
  {
    SelfComparisonFrom(CollectAllPaths(nodes, nodes), 0, nodes, indent);
  }

  predicate AllUnchanged(changes: seq<Change>)
  {
    forall k :: 0 <= k < |changes| ==> changes[k].changeType == Unchanged
  }

  lemma {:induction false} SelfComparisonFrom(paths: seq<string>, i: nat, nodes: seq<TreeNode>, indent: nat)
    requires i <= |paths|
    ensures AllUnchanged(ComparePathsFrom(paths, i, nodes, nodes, indent))
    decreases SizeAll(nodes) + SizeAll(nodes), 1, |paths| - i
  {
    if i < |paths| {
      var path := paths[i];
      var n := Lookup(NodeMap(nodes), path);
      var step := PathChanges(path, n, n, indent);
      var rest := ComparePathsFrom(paths, i + 1, nodes, nodes, indent);
      assert ComparePathsFrom(paths, i, nodes, nodes, indent) == step + rest;
      assert AllUnchanged(step) by {
        LookupSize(nodes, path);
        SelfPath(path, n, indent);
      }
      assert AllUnchanged(rest) by {
        SelfComparisonFrom(paths, i + 1, nodes, indent);
      }
      UnchangedAppend(step, rest);
    }
  }

  lemma {:induction false} SelfPath(path: string, n: Option<TreeNode>, indent: nat)
    ensures AllUnchanged(PathChanges(path, n, n, indent))
    decreases SizeOpt(n) + SizeOpt(n), 0, 0
  {
    if n.Some? {
      var t := n.value;
      var head := Change(Unchanged, path, n, None, indent);
      var sub := CompareForests(t.children, t.children, indent + 1);
      NodesEqualReflexive(t);
      assert PathChanges(path, n, n, indent) == [head] + sub;
      SelfComparisonUnchanged(t.children, indent + 1);
      UnchangedAppend([head], sub);
    }
  }

  lemma UnchangedAppend(a: seq<Change>, b: seq<Change>)
    requires AllUnchanged(a) && AllUnchanged(b)
    ensures AllUnchanged(a + b)
  {
  }

  // ---------------------------------------------------------------- diffRatio

  function ChangedCount(changes: seq<Change>): (n: nat)
    ensures n <= |changes|
  {
    if |changes| == 0 then 0
    else ChangedCount(changes[..|changes| - 1]) + (if changes[|changes| - 1].changeType != Unchanged then 1 else 0)
  }

  /** The changed share of the visited paths: 0 when nothing was visited, capped at 1. */
  function DiffRatio(changes: seq<Change>, totalNodes: nat): Fraction
  {
    CappedRatio(ChangedCount(changes), totalNodes)
  }

  /** As every visited path adds one change, the cap never applies and identical trees score 0. */
  lemma DiffRatioOfComparison(baseline: TreeNode, target: TreeNode)
    ensures var cs := CompareForests(baseline.children, target.children, 0);
            DiffRatio(cs, |cs|) == if |cs| == 0 then Zero else Fraction(ChangedCount(cs), |cs|)
    ensures baseline == target ==> DiffRatio(CompareForests(baseline.children, target.children, 0),
                                             |CompareForests(baseline.children, target.children, 0)|).num == 0
  {
    if baseline == target {
      var cs := CompareForests(baseline.children, target.children, 0);
      SelfComparisonUnchanged(baseline.children, 0);
      NoChangedCount(cs);
    }
  }

  lemma {:induction false} NoChangedCount(changes: seq<Change>)
    requires AllUnchanged(changes)
    ensures ChangedCount(changes) == 0
  {
    if |changes| > 0 {
      NoChangedCount(changes[..|changes| - 1]);
    }
  }
}
