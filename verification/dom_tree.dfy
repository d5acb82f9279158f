/**
 * The first half of the DOM diff: an already-parsed HTML document is turned into a tree of
 * path-named nodes. Elements and non-blank text nodes are kept; every other node (the
 * document itself, comments, doctypes, white-space-only text) is dropped and its children
 * are attached to the nearest kept ancestor.
 */
module DomTree {
  import opened StringUtil
  import opened Wrappers

  /** The node types of the parsed HTML document, in the parser's own order. */
  datatype NodeKind = ErrorNode | TextNode | DocumentNode | ElementNode | CommentNode | DoctypeNode | RawNode

  datatype Attribute = Attribute(key: string, val: string)

  /** A parsed HTML node: its kind, its tag name or text, its attributes and its children in document order. */
  datatype HtmlNode = HtmlNode(kind: NodeKind, data: string, attr: seq<Attribute>, children: seq<HtmlNode>)

  datatype TreeNode = TreeNode(
    path: string,
    depth: int,
    kind: NodeKind,
    tag: string,
    attrs: map<string, string>,
    text: string,
    children: seq<TreeNode>)

  /** Number of nodes in a tree, and in a forest. */
  function Size(t: TreeNode): nat
    decreases t
  {
    1 + SizeAll(t.children)
  }

  function SizeAll(ts: seq<TreeNode>): nat
    decreases ts
  {
    if |ts| == 0 then 0 else SizeAll(ts[..|ts| - 1]) + Size(ts[|ts| - 1])
  }

  lemma {:induction false} SizeAllAppend(a: seq<TreeNode>, b: seq<TreeNode>)
    ensures SizeAll(a + b) == SizeAll(a) + SizeAll(b)
  {
    if |b| == 0 {
      assert a + b == a;
    } else {
      SizeAllAppend(a, b[..|b| - 1]);
      assert (a + b)[..|a + b| - 1] == a + b[..|b| - 1];
    }
  }

  /** A member of a forest is no larger than the forest. */
  lemma {:induction false} SizeOfMember(ts: seq<TreeNode>, i: nat)
    requires i < |ts|
    ensures Size(ts[i]) <= SizeAll(ts)
    decreases ts
  {
    if i < |ts| - 1 {
      SizeOfMember(ts[..|ts| - 1], i);
    }
  }

  // ---------------------------------------------------------------- createTreeNode

  /** Attributes as a map: a key that occurs twice keeps its last value. */
  function ExtractAttributes(attr: seq<Attribute>): (m: map<string, string>)
    ensures m.Keys == set a | a in attr :: a.key
  {
    if |attr| == 0 then map[]
    else ExtractAttributes(attr[..|attr| - 1])[attr[|attr| - 1].key := attr[|attr| - 1].val]
  }

  /** The value of a key is the one of its last occurrence. */
  lemma {:induction false} AttributeLastWins(attr: seq<Attribute>, i: nat)
    requires i < |attr|
    requires forall j :: i < j < |attr| ==> attr[j].key != attr[i].key
    ensures ExtractAttributes(attr)[attr[i].key] == attr[i].val
  {
    if i < |attr| - 1 {
      AttributeLastWins(attr[..|attr| - 1], i);
    }
  }

  /** Elements and text that is not all white space become tree nodes; nothing else does. */
  predicate Kept(n: HtmlNode)
  {
    n.kind == ElementNode || (n.kind == TextNode && TrimSpace(n.data) != "")
  }

  function CreateTreeNode(n: HtmlNode, path: string, depth: int): (r: Option<TreeNode>)
    ensures r.Some? <==> Kept(n)
  {
    match n.kind
    case ElementNode => Some(TreeNode(path, depth, ElementNode, n.data, ExtractAttributes(n.attr), "", []))
    case TextNode =>
      var text := TrimSpace(n.data);
      if text != "" then Some(TreeNode(path, depth, TextNode, "", map[], text, [])) else None
    case _ => None
  }

  // ---------------------------------------------------------------- buildChildPath

  function CountElements(cs: seq<HtmlNode>): nat
  {
    if |cs| == 0 then 0
    else CountElements(cs[..|cs| - 1]) + (if cs[|cs| - 1].kind == ElementNode then 1 else 0)
  }

  function CountTexts(cs: seq<HtmlNode>): nat
  {
    if |cs| == 0 then 0
    else CountTexts(cs[..|cs| - 1]) + (if cs[|cs| - 1].kind == TextNode && Kept(cs[|cs| - 1]) then 1 else 0)
  }

  /**
   * The path of the i-th child of an HTML node: an element is named by its tag and the
   * number of element siblings before it, a non-blank text by the number of non-blank text
   * siblings before it, and any other child keeps its parent's path.
   */
  function ChildPath(cs: seq<HtmlNode>, i: nat, parentPath: string): string
    requires i < |cs|
  {
    var c := cs[i];
    if c.kind == ElementNode then parentPath + "/" + c.data + "[" + Itoa(CountElements(cs[..i])) + "]"
    else if c.kind == TextNode && Kept(c) then parentPath + "/text[" + Itoa(CountTexts(cs[..i])) + "]"
    else parentPath
  }

  // ---------------------------------------------------------------- the tree as a value

  /**
   * What building the subtree of `n` appends to its tree parent: the node itself carrying
   * its built children when it is kept, otherwise those children directly.
   */
  function Contribute(n: HtmlNode, path: string, depth: int): seq<TreeNode>
    decreases n, |n.children| + 1
  {
    var kids := ChildrenFrom(n, path, depth, 0);
    match CreateTreeNode(n, path, depth)
    case Some(t) => [t.(children := kids)]
    case None => kids
  }

  /** What the children of `n` from index i on append, in document order. */
  function ChildrenFrom(n: HtmlNode, path: string, depth: int, i: nat): seq<TreeNode>
    requires i <= |n.children|
    decreases n, |n.children| - i
  {
    if i == |n.children| then []
    else Contribute(n.children[i], ChildPath(n.children, i, path), depth + 1) + ChildrenFrom(n, path, depth, i + 1)
  }

  /** The root: empty path, depth -1, and whatever the document contributes as its children. */
  function BuildTreeSpec(doc: HtmlNode): TreeNode
  {
    TreeNode("", -1, ErrorNode, "", map[], "", Contribute(doc, "", -1))
  }

  // ---------------------------------------------------------------- the builder

  method BuildTree(doc: HtmlNode) returns (root: TreeNode)
    ensures root == BuildTreeSpec(doc)
  {
    var kids := BuildTreeRecursive(doc, "", -1);
    root := TreeNode("", -1, ErrorNode, "", map[], "", kids);
  }

  /** Builds the subtree of `n` and returns what it appends to the tree parent. */
  method BuildTreeRecursive(n: HtmlNode, path: string, depth: int) returns (appended: seq<TreeNode>)
    ensures appended == Contribute(n, path, depth)
    decreases n, |n.children| + 1
  {
    var node := CreateTreeNode(n, path, depth);
    var children := ProcessChildren(n, path, depth);
    if node.Some? {
      appended := [node.value.(children := children)];
    } else {
      appended := children;
    }
  }

  /**
   * Walks the children in order with one counter for element children and one for
   * non-blank text children, naming each child before building it.
   */
  method ProcessChildren(n: HtmlNode, path: string, depth: int) returns (appended: seq<TreeNode>)
    ensures appended == ChildrenFrom(n, path, depth, 0)
    decreases n, |n.children|
  {
    var childIndex, textIndex := 0, 0;
    appended := [];
    for i := 0 to |n.children|
      invariant childIndex == CountElements(n.children[..i])
      invariant textIndex == CountTexts(n.children[..i])
      invariant appended + ChildrenFrom(n, path, depth, i) == ChildrenFrom(n, path, depth, 0)
    {
      var childPath;
      childPath, childIndex, textIndex := BuildChildPath(n.children, i, path, childIndex, textIndex);
      var sub := BuildTreeRecursive(n.children[i], childPath, depth + 1);
      assert ChildrenFrom(n, path, depth, i) == sub + ChildrenFrom(n, path, depth, i + 1);
      assert (appended + sub) + ChildrenFrom(n, path, depth, i + 1)
          == appended + (sub + ChildrenFrom(n, path, depth, i + 1));
      appended := appended + sub;
    }
  }

  /**
   * Names the i-th child and advances whichever sibling counter it belongs to; the
   * counters hold the number of element and non-blank text siblings before it.
   */
  method BuildChildPath(cs: seq<HtmlNode>, i: nat, parentPath: string, childIndex: nat, textIndex: nat)
      returns (path: string, childIndex': nat, textIndex': nat)
    requires i < |cs|
    requires childIndex == CountElements(cs[..i]) && textIndex == CountTexts(cs[..i])
    ensures path == ChildPath(cs, i, parentPath)
    ensures childIndex' == CountElements(cs[..i + 1]) && textIndex' == CountTexts(cs[..i + 1])
  {
    var c := cs[i];
    CountStep(cs, i);
    path, childIndex', textIndex' := parentPath, childIndex, textIndex;
    if c.kind == ElementNode {
      path := parentPath + "/" + c.data + "[" + Itoa(childIndex) + "]";
      childIndex' := childIndex + 1;
    } else if c.kind == TextNode && TrimSpace(c.data) != "" {
      path := parentPath + "/text[" + Itoa(textIndex) + "]";
      textIndex' := textIndex + 1;
    }
  }

  lemma CountStep(cs: seq<HtmlNode>, i: nat)
    requires i < |cs|
    ensures CountElements(cs[..i + 1]) == CountElements(cs[..i]) + (if cs[i].kind == ElementNode then 1 else 0)
    ensures CountTexts(cs[..i + 1]) == CountTexts(cs[..i]) + (if cs[i].kind == TextNode && Kept(cs[i]) then 1 else 0)
  {
    assert cs[..i + 1][..i] == cs[..i];
  }

  // ---------------------------------------------------------------- properties

  /** Only elements and non-blank, already trimmed text appear in a built tree. */
  predicate WellFormed(t: TreeNode)
    decreases t
  {
    (t.kind == ElementNode || (t.kind == TextNode && t.text != "" && TrimSpace(t.text) == t.text))
    && forall i :: 0 <= i < |t.children| ==> WellFormed(t.children[i])
  }

  /** The number of HTML nodes that the builder keeps. */
  function KeptCount(n: HtmlNode): nat
    decreases n, |n.children| + 1
  {
    (if Kept(n) then 1 else 0) + KeptFrom(n, 0)
  }

  function KeptFrom(n: HtmlNode, i: nat): nat
    requires i <= |n.children|
    decreases n, |n.children| - i
  {
    if i == |n.children| then 0 else KeptCount(n.children[i]) + KeptFrom(n, i + 1)
  }

  /** TrimSpace leaves nothing more to trim. */
  lemma TrimSpaceIdempotent(s: string)
    ensures TrimSpace(TrimSpace(s)) == TrimSpace(s)
  {
    var r := TrimSpace(s);
    TrimSpaceSpec(s);
    if r != [] {
      assert TrimLeft(r) == r;
      assert TrimRight(r) == r;
    }
  }

  /**
   * Building is faithful to the document: every built node is an element or trimmed
   * non-blank text, and there is exactly one built node per kept HTML node.
   */
  lemma {:induction false} ContributeKept(n: HtmlNode, path: string, depth: int)
    ensures forall k :: 0 <= k < |Contribute(n, path, depth)| ==> WellFormed(Contribute(n, path, depth)[k])
    ensures SizeAll(Contribute(n, path, depth)) == KeptCount(n)
    decreases n, |n.children| + 1
  {
    ChildrenKept(n, path, depth, 0);
    var kids := ChildrenFrom(n, path, depth, 0);
    match CreateTreeNode(n, path, depth)
    case Some(t) =>
      var t' := t.(children := kids);
      if t.kind == TextNode {
        TrimSpaceIdempotent(n.data);
      }
      assert WellFormed(t');
      assert [t'][..0] == [];
    case None =>
  }

  lemma {:induction false} ChildrenKept(n: HtmlNode, path: string, depth: int, i: nat)
    requires i <= |n.children|
    ensures forall k :: 0 <= k < |ChildrenFrom(n, path, depth, i)| ==> WellFormed(ChildrenFrom(n, path, depth, i)[k])
    ensures SizeAll(ChildrenFrom(n, path, depth, i)) == KeptFrom(n, i)
    decreases n, |n.children| - i
  {
    if i < |n.children| {
      var c := n.children[i];
      var p := ChildPath(n.children, i, path);
      ContributeKept(c, p, depth + 1);
      ChildrenKept(n, path, depth, i + 1);
      SizeAllAppend(Contribute(c, p, depth + 1), ChildrenFrom(n, path, depth, i + 1));
    }
  }

  /** A built tree has one node per kept HTML node, plus its root. */
  lemma BuildTreeSize(doc: HtmlNode)
    ensures Size(BuildTreeSpec(doc)) == 1 + KeptCount(doc)
  {
    ContributeKept(doc, "", -1);
  }
}
