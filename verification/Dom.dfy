/** The walk from a document to numbered nodes with selectors. */
module Dom {
  import opened Wrappers

  /** Text, comments and the doctype are `Other`. */
  datatype Node = Element(tag: string, children: seq<Node>) | Other

  /** One step of a selector path: a tag with an index, counted from one. */
  datatype Step = Step(tag: string, index: nat)

  datatype SemanticNode = SemanticNode(id: nat, parentId: Option<nat>, tag: string, xpath: seq<Step>, css: seq<Step>)

  /** Where a node is: its position among its siblings, below those of its ancestors. */
  type Address = seq<nat>

  /** There is an element at this address of the forest. */
  predicate IsElement(f: seq<Node>, a: Address) {
    a != [] && a[0] < |f| && f[a[0]].Element? && (|a| > 1 ==> IsElement(f[a[0]].children, a[1..]))
  }

  function TagAt(f: seq<Node>, a: Address): string
    requires IsElement(f, a)
  {
    if |a| == 1 then f[a[0]].tag else TagAt(f[a[0]].children, a[1..])
  }

  /** The elements among the first `k` siblings. */
  function ElementsBefore(f: seq<Node>, k: nat): nat
    requires k <= |f|
  {
    if k == 0 then 0 else ElementsBefore(f, k - 1) + if f[k - 1].Element? then 1 else 0
  }

  /** The elements with this tag among the first `k` siblings. */
  function TagsBefore(f: seq<Node>, k: nat, tag: string): nat
    requires k <= |f|
  {
    if k == 0 then 0 else TagsBefore(f, k - 1, tag) + if f[k - 1].Element? && f[k - 1].tag == tag then 1 else 0
  }

  /** What `tag:nth-child(index)` asks of a sibling (Selectors Level 3, section 6.6.5.2). */
  predicate NthChild(f: seq<Node>, k: nat, step: Step) {
    k < |f| && f[k].Element? && f[k].tag == step.tag && ElementsBefore(f, k) + 1 == step.index
  }

  /** What the location step `tag[index]` asks of one (XPath 1.0, section 2.5). */
  predicate NthOfTag(f: seq<Node>, k: nat, step: Step) {
    k < |f| && f[k].Element? && f[k].tag == step.tag && TagsBefore(f, k, step.tag) + 1 == step.index
  }

  /** The path of child combinators, followed from the top, selects this address. */
  predicate CssSelects(f: seq<Node>, steps: seq<Step>, a: Address) {
    && |a| == |steps| && steps != [] && NthChild(f, a[0], steps[0])
    && (|a| > 1 ==> CssSelects(f[a[0]].children, steps[1..], a[1..]))
  }

  /** The absolute location path selects this address. */
  predicate XPathSelects(f: seq<Node>, steps: seq<Step>, a: Address) {
    && |a| == |steps| && steps != [] && NthOfTag(f, a[0], steps[0])
    && (|a| > 1 ==> XPathSelects(f[a[0]].children, steps[1..], a[1..]))
  }

  /** A selector is not anchored: it matches an element whose last ancestors match it. */
  predicate CssMatches(f: seq<Node>, steps: seq<Step>, a: Address)
    requires IsElement(f, a)
  {
    CssSelects(f, steps, a) || (|a| > 1 && CssMatches(f[a[0]].children, steps, a[1..]))
  }

  /** All elements from the `k`-th sibling on, in document order. */
  function Preorder(f: seq<Node>, k: nat, prefix: Address): seq<Address>
    requires k <= |f|
    decreases f, |f| - k
  {
    if k == |f| then []
    else
      (if f[k].Element? then [prefix + [k]] + Preorder(f[k].children, 0, prefix + [k]) else [])
      + Preorder(f, k + 1, prefix)
  }

  lemma {:induction false} CountsGrow(f: seq<Node>, j: nat, k: nat, tag: string)
    requires j <= k <= |f|
    ensures ElementsBefore(f, j) <= ElementsBefore(f, k) && TagsBefore(f, j, tag) <= TagsBefore(f, k, tag)
    decreases k - j
  {
    if j < k { CountsGrow(f, j, k - 1, tag); }
  }

  /** Among siblings a step is satisfied by at most one. */
  lemma SiblingUnique(f: seq<Node>, j: nat, k: nat, step: Step)
    ensures NthChild(f, j, step) && NthChild(f, k, step) ==> j == k
    ensures NthOfTag(f, j, step) && NthOfTag(f, k, step) ==> j == k
  {
    if j < k < |f| { CountsGrow(f, j + 1, k, step.tag); }
    if k < j < |f| { CountsGrow(f, k + 1, j, step.tag); }
  }

  lemma {:induction false} CssUnique(f: seq<Node>, steps: seq<Step>, a: Address, b: Address)
    requires CssSelects(f, steps, a) && CssSelects(f, steps, b)
    ensures a == b
  {
    SiblingUnique(f, a[0], b[0], steps[0]);
    if |a| > 1 { CssUnique(f[a[0]].children, steps[1..], a[1..], b[1..]); }
    assert a == [a[0]] + a[1..] && b == [b[0]] + b[1..];
  }

  lemma {:induction false} XPathUnique(f: seq<Node>, steps: seq<Step>, a: Address, b: Address)
    requires XPathSelects(f, steps, a) && XPathSelects(f, steps, b)
    ensures a == b
  {
    SiblingUnique(f, a[0], b[0], steps[0]);
    if |a| > 1 { XPathUnique(f[a[0]].children, steps[1..], a[1..], b[1..]); }
    assert a == [a[0]] + a[1..] && b == [b[0]] + b[1..];
  }

  /** The siblings of the node at this address. */
  function Siblings(f: seq<Node>, a: Address): seq<Node>
    requires |a| > 1 ==> IsElement(f, a[..|a| - 1])
    decreases |a|
  {
    if |a| <= 1 then f
    else
      assert a[..|a| - 1][0] == a[0] && (|a| > 2 ==> a[..|a| - 1][1..] == a[1..][..|a| - 2]);
      Siblings(f[a[0]].children, a[1..])
  }

  lemma {:induction false} LastIsSibling(f: seq<Node>, a: Address)
    requires a != [] && (|a| > 1 ==> IsElement(f, a[..|a| - 1]))
    ensures var k := a[|a| - 1];
      && (IsElement(f, a) <==> k < |Siblings(f, a)| && Siblings(f, a)[k].Element?)
      && (IsElement(f, a) ==> TagAt(f, a) == Siblings(f, a)[k].tag)
    decreases |a|
  {
    if |a| > 1 {
      assert a[..|a| - 1][0] == a[0] && (|a| > 2 ==> a[..|a| - 1][1..] == a[1..][..|a| - 2]);
      LastIsSibling(f[a[0]].children, a[1..]);
    }
  }

  lemma {:induction false} SiblingsOfChild(f: seq<Node>, a: Address, k: nat)
    requires IsElement(f, a)
    ensures (a + [k])[..|a + [k]| - 1] == a
    ensures (if |a| > 1 then IsElement(f, a[..|a| - 1]) else true) && a[|a| - 1] < |Siblings(f, a)|
    ensures Siblings(f, a)[a[|a| - 1]].Element?
    ensures Siblings(f, a + [k]) == Siblings(f, a)[a[|a| - 1]].children
    decreases |a|
  {
    var b := a + [k];
    assert b[..|b| - 1] == a;
    if |a| > 1 {
      assert a == [a[0]] + a[1..] && b[1..] == a[1..] + [k];
      SiblingsOfChild(f[a[0]].children, a[1..], k);
      assert a[..|a| - 1][0] == a[0] && (|a| > 2 ==> a[..|a| - 1][1..] == a[1..][..|a| - 2]);
      assert a[1..][|a[1..]| - 1] == a[|a| - 1];
    } else {
      assert b[1..] == [k];
    }
  }

  /** Extending a path that selects the parent by a step that fits the child. */
  lemma {:induction false} PathExtends(f: seq<Node>, css: seq<Step>, xpath: seq<Step>, a: Address, cssStep: Step,
                                       xpathStep: Step)
    requires |a| > 1 && IsElement(f, a[..|a| - 1])
    requires CssSelects(f, css, a[..|a| - 1]) && XPathSelects(f, xpath, a[..|a| - 1])
    requires NthChild(Siblings(f, a), a[|a| - 1], cssStep) && NthOfTag(Siblings(f, a), a[|a| - 1], xpathStep)
    ensures CssSelects(f, css + [cssStep], a) && XPathSelects(f, xpath + [xpathStep], a)
    decreases |a|
  {
    var parent := a[..|a| - 1];
    assert parent[0] == a[0] && (css + [cssStep])[0] == css[0] && (xpath + [xpathStep])[0] == xpath[0];
    assert (css + [cssStep])[1..] == css[1..] + [cssStep] && (xpath + [xpathStep])[1..] == xpath[1..] + [xpathStep];
    if |a| > 2 {
      assert parent[1..] == a[1..][..|a| - 2];
      PathExtends(f[a[0]].children, css[1..], xpath[1..], a[1..], cssStep, xpathStep);
    } else {
      assert css[1..] + [cssStep] == [cssStep] && xpath[1..] + [xpathStep] == [xpathStep] && a[1..] == [a[1]];
      assert Siblings(f, a) == f[a[0]].children;
    }
  }

  /** The record of the element at `order[i]`: numbered `i`, after its parent, with selectors
      that select it. */
  predicate NodeOk(top: seq<Node>, order: seq<Address>, nodes: seq<SemanticNode>, i: nat)
    requires i < |order| == |nodes|
  {
    var n, a := nodes[i], order[i];
    && n.id == i && IsElement(top, a) && n.tag == TagAt(top, a)
    && CssSelects(top, n.css, a) && XPathSelects(top, n.xpath, a)
    && ParentOk(order, i, n.parentId)
  }

  /** The parent's record comes before. */
  predicate ParentOk(order: seq<Address>, i: nat, parentId: Option<nat>)
    requires i < |order|
  {
    if |order[i]| <= 1 then parentId.None?
    else parentId.Some? && parentId.value < i && order[parentId.value] == order[i][..|order[i]| - 1]
  }

  lemma NodeStaysOk(top: seq<Node>, order: seq<Address>, nodes: seq<SemanticNode>, i: nat, a: Address, n: SemanticNode)
    requires i < |order| == |nodes| && NodeOk(top, order, nodes, i)
    ensures NodeOk(top, order + [a], nodes + [n], i)
  {
  }

  class Walker {
    ghost const top: seq<Node>
    var nodes: seq<SemanticNode>
    var nextId: nat
    ghost var order: seq<Address>

    ghost predicate Valid()
      reads this
    {
      nextId == |nodes| == |order| && forall i | 0 <= i < |order| :: NodeOk(top, order, nodes, i)
    }

    constructor (ghost top: seq<Node>)
      ensures Valid() && nodes == [] && order == [] && this.top == top
    {
      this.top := top;
      nodes, nextId, order := [], 0, [];
    }

    /** `sibling_index_by_tag`, which counts backwards. */
    static method SiblingIndexByTag(siblings: seq<Node>, k: nat) returns (idx: nat)
      requires k < |siblings| && siblings[k].Element?
      ensures NthOfTag(siblings, k, Step(siblings[k].tag, idx))
    {
      idx := 1;
      var i := k;
      while i > 0
        invariant 0 <= i <= k
        invariant idx + TagsBefore(siblings, i, siblings[k].tag) == 1 + TagsBefore(siblings, k, siblings[k].tag)
      {
        i := i - 1;
        if siblings[i].Element? && siblings[i].tag == siblings[k].tag { idx := idx + 1; }
      }
    }

    /** `sibling_index_all`. */
    static method SiblingIndexAll(siblings: seq<Node>, k: nat) returns (idx: nat)
      requires k < |siblings| && siblings[k].Element?
      ensures NthChild(siblings, k, Step(siblings[k].tag, idx))
    {
      idx := 1;
      var i := k;
      while i > 0
        invariant 0 <= i <= k
        invariant idx + ElementsBefore(siblings, i) == 1 + ElementsBefore(siblings, k)
      {
        i := i - 1;
        if siblings[i].Element? { idx := idx + 1; }
      }
    }

    /** `walk`: visits the `k`-th of these siblings and everything below it. */
    method Walk(siblings: seq<Node>, k: nat, parentId: Option<nat>, parentXpath: seq<Step>, parentCss: seq<Step>,
                ghost a: Address)
      requires Valid() && a != [] && a[|a| - 1] == k < |siblings| && siblings[k].Element?
      requires |a| == 1 ==> siblings == top && parentId.None? && parentXpath == [] && parentCss == []
      requires |a| > 1 ==> IsElement(top, a[..|a| - 1]) && siblings == Siblings(top, a)
      requires |a| > 1 ==> CssSelects(top, parentCss, a[..|a| - 1]) && XPathSelects(top, parentXpath, a[..|a| - 1])
      requires |a| > 1 ==> parentId.Some? && parentId.value < |order| && order[parentId.value] == a[..|a| - 1]
      modifies this
      ensures Valid() && order == old(order) + [a] + Preorder(siblings[k].children, 0, a)
      ensures old(nodes) <= nodes
      decreases siblings[k], 1
    {
      var id := nextId;
      nextId := nextId + 1;
      var xpathIndex := SiblingIndexByTag(siblings, k);
      var cssIndex := SiblingIndexAll(siblings, k);
      var tag := siblings[k].tag;
      var xpath, css := parentXpath + [Step(tag, xpathIndex)], parentCss + [Step(tag, cssIndex)];
      LastIsSibling(top, a);
      SelectorsFit(top, siblings, k, parentXpath, parentCss, a, Step(tag, xpathIndex), Step(tag, cssIndex));
      var n := SemanticNode(id, parentId, tag, xpath, css);
      NewNodeOk(top, order, nodes, a, n);
      nodes := nodes + [n];
      order := order + [a];
      SiblingsOfChild(top, a, 0);
      WalkChildren(siblings[k].children, id, xpath, css, a);
    }

    method WalkChildren(children: seq<Node>, id: nat, xpath: seq<Step>, css: seq<Step>, ghost a: Address)
      requires Valid() && IsElement(top, a) && children == Siblings(top, a + [0])
      requires CssSelects(top, css, a) && XPathSelects(top, xpath, a) && id < |order| && order[id] == a
      modifies this
      ensures Valid() && order == old(order) + Preorder(children, 0, a)
      ensures old(nodes) <= nodes
      decreases children, 0
    {
      for i := 0 to |children|
        invariant Valid() && id < |order| && order[id] == a
        invariant old(nodes) <= nodes
        invariant order + Preorder(children, i, a) == old(order) + Preorder(children, 0, a)
      {
        if children[i].Element? {
          SiblingsOfChild(top, a, i);
          SiblingsOfChild(top, a, 0);
          Walk(children, i, Some(id), xpath, css, a + [i]);
        }
      }
    }
  }

  lemma SelectorsFit(top: seq<Node>, siblings: seq<Node>, k: nat, parentXpath: seq<Step>, parentCss: seq<Step>,
                     a: Address, xpathStep: Step, cssStep: Step)
    requires a != [] && a[|a| - 1] == k && NthOfTag(siblings, k, xpathStep) && NthChild(siblings, k, cssStep)
    requires |a| == 1 ==> siblings == top && parentXpath == [] && parentCss == []
    requires |a| > 1 ==> IsElement(top, a[..|a| - 1]) && siblings == Siblings(top, a)
    requires |a| > 1 ==> CssSelects(top, parentCss, a[..|a| - 1]) && XPathSelects(top, parentXpath, a[..|a| - 1])
    ensures CssSelects(top, parentCss + [cssStep], a) && XPathSelects(top, parentXpath + [xpathStep], a)
  {
    if |a| > 1 { PathExtends(top, parentCss, parentXpath, a, cssStep, xpathStep); }
  }

  lemma NewNodeOk(top: seq<Node>, order: seq<Address>, nodes: seq<SemanticNode>, a: Address, n: SemanticNode)
    requires |order| == |nodes| && forall i | 0 <= i < |order| :: NodeOk(top, order, nodes, i)
    requires n.id == |nodes| && IsElement(top, a) && n.tag == TagAt(top, a)
    requires CssSelects(top, n.css, a) && XPathSelects(top, n.xpath, a)
    requires if |a| <= 1 then n.parentId.None?
      else n.parentId.Some? && n.parentId.value < |order| && order[n.parentId.value] == a[..|a| - 1]
    ensures forall i | 0 <= i < |order| + 1 :: NodeOk(top, order + [a], nodes + [n], i)
  {
    forall i | 0 <= i < |order| + 1
      ensures NodeOk(top, order + [a], nodes + [n], i)
    {
      if i < |order| { NodeStaysOk(top, order, nodes, i, a, n); }
    }
  }

  lemma {:induction false} PreorderElements(f: seq<Node>, k: nat, prefix: Address, a: Address)
    requires k <= |f|
    ensures a in Preorder(f, k, prefix) <==>
      |a| > |prefix| && a[..|prefix|] == prefix && a[|prefix|] >= k && IsElement(f, a[|prefix|..])
    decreases f, |f| - k
  {
    if k < |f| {
      PreorderElements(f, k + 1, prefix, a);
      if f[k].Element? {
        PreorderElements(f[k].children, 0, prefix + [k], a);
        PrefixSplits(prefix, k, a);
      }
    }
  }

  lemma PrefixSplits(prefix: Address, k: nat, a: Address)
    ensures |a| > |prefix| + 1 && a[..|prefix| + 1] == prefix + [k] <==>
      |a| > |prefix| + 1 && a[..|prefix|] == prefix && a[|prefix|] == k
    ensures |a| > |prefix| ==>
      (a == prefix + [k] <==> |a| == |prefix| + 1 && a[..|prefix|] == prefix && a[|prefix|] == k)
    ensures |a| > |prefix| + 1 ==> a[|prefix|..][1..] == a[|prefix| + 1..]
  {
    if |a| > |prefix| + 1 { assert a[..|prefix| + 1] == a[..|prefix|] + [a[|prefix|]]; }
    if |a| == |prefix| + 1 { assert a == a[..|prefix|] + [a[|prefix|]]; }
  }

  /** Document order: an ancestor before its descendants, earlier siblings' trees first. */
  predicate Before(a: Address, b: Address) {
    b != [] && (a == [] || a[0] < b[0] || (a[0] == b[0] && Before(a[1..], b[1..])))
  }

  lemma {:induction false} BeforeCommon(prefix: Address, a: Address, b: Address)
    ensures Before(prefix + a, prefix + b) == Before(a, b)
  {
    if prefix == [] {
      assert prefix + a == a && prefix + b == b;
    } else {
      assert (prefix + a)[1..] == prefix[1..] + a && (prefix + b)[1..] == prefix[1..] + b;
      BeforeCommon(prefix[1..], a, b);
    }
  }

  lemma {:induction false} BeforeIrreflexive(a: Address)
    ensures !Before(a, a)
  {
    if a != [] { BeforeIrreflexive(a[1..]); }
  }

  predicate Ordered(order: seq<Address>) {
    forall i, j | 0 <= i < j < |order| :: Before(order[i], order[j])
  }

  lemma {:induction false} PreorderOrdered(f: seq<Node>, k: nat, prefix: Address)
    requires k <= |f|
    ensures Ordered(Preorder(f, k, prefix))
    decreases f, |f| - k
  {
    if k < |f| {
      PreorderOrdered(f, k + 1, prefix);
      if f[k].Element? {
        PreorderOrdered(f[k].children, 0, prefix + [k]);
        SubtreeFirst(f, k, prefix);
        OrderedJoin([prefix + [k]] + Preorder(f[k].children, 0, prefix + [k]), Preorder(f, k + 1, prefix));
      }
    }
  }

  lemma OrderedJoin(first: seq<Address>, second: seq<Address>)
    requires Ordered(first) && Ordered(second) && forall a, b | a in first && b in second :: Before(a, b)
    ensures Ordered(first + second)
  {
  }

  lemma SubtreeFirst(f: seq<Node>, k: nat, prefix: Address)
    requires k < |f| && f[k].Element? && Ordered(Preorder(f[k].children, 0, prefix + [k]))
    ensures Ordered([prefix + [k]] + Preorder(f[k].children, 0, prefix + [k]))
    ensures forall a, b | a in [prefix + [k]] + Preorder(f[k].children, 0, prefix + [k])
      && b in Preorder(f, k + 1, prefix) :: Before(a, b)
  {
    var below := Preorder(f[k].children, 0, prefix + [k]);
    forall a | a in below
      ensures Before(prefix + [k], a)
    {
      PreorderElements(f[k].children, 0, prefix + [k], a);
      BeforeCommon(prefix + [k], [], a[|prefix| + 1..]);
      assert (prefix + [k]) + [] == prefix + [k] && (prefix + [k]) + a[|prefix| + 1..] == a;
    }
    forall a, b | a in [prefix + [k]] + below && b in Preorder(f, k + 1, prefix)
      ensures Before(a, b)
    {
      PreorderElements(f[k].children, 0, prefix + [k], a);
      PreorderElements(f, k + 1, prefix, b);
      PrefixSplits(prefix, k, a);
      BeforeCommon(prefix, a[|prefix|..], b[|prefix|..]);
      assert prefix + a[|prefix|..] == a && prefix + b[|prefix|..] == b;
    }
  }

  predicate UnderRoot(document: seq<Node>, r: nat, a: Address) { IsElement(document, a) && a[0] == r }

  /** The graph of a document whose root element is the `r`-th top-level node. */
  ghost predicate IsGraph(document: seq<Node>, r: nat, order: seq<Address>, nodes: seq<SemanticNode>) {
    && |order| == |nodes| && order != [] && order[0] == [r] && Ordered(order)
    && (forall a :: a in order <==> UnderRoot(document, r, a))
    && (forall i | 0 <= i < |order| :: NodeOk(document, order, nodes, i))
  }

  /** `parse_html` of a document with a root element: every element below the root exactly
      once, in document order, numbered from zero. */
  method ParseHtml(document: seq<Node>) returns (nodes: seq<SemanticNode>, r: nat, ghost order: seq<Address>)
    requires exists k | 0 <= k < |document| :: document[k].Element?
    ensures r < |document| && document[r].Element? && forall k | 0 <= k < r :: !document[k].Element?
    ensures IsGraph(document, r, order, nodes)
  {
    r := 0;
    while !document[r].Element?
      invariant r < |document| && forall k | 0 <= k < r :: !document[k].Element?
      decreases |document| - r
    {
      r := r + 1;
    }
    var walker := new Walker(document);
    walker.Walk(document, r, None, [], [], [r]);
    nodes, order := walker.nodes, walker.order;
    assert order == [[r]] + Preorder(document[r].children, 0, [r]);
    RootSubtree(document, r, order);
  }

  lemma RootSubtree(document: seq<Node>, r: nat, order: seq<Address>)
    requires r < |document| && document[r].Element? && order == [[r]] + Preorder(document[r].children, 0, [r])
    ensures Ordered(order) && forall a :: a in order <==> UnderRoot(document, r, a)
  {
    hide Ordered, UnderRoot, Preorder, IsElement;
    PreorderOrdered(document[r].children, 0, [r]);
    assert [] + [r] == [r];
    SubtreeFirst(document, r, []);
    forall a
      ensures a in order <==> UnderRoot(document, r, a)
    {
      RootSubtreeMember(document, r, a);
    }
  }

  lemma RootSubtreeMember(document: seq<Node>, r: nat, a: Address)
    requires r < |document| && document[r].Element?
    ensures a == [r] || a in Preorder(document[r].children, 0, [r]) <==> UnderRoot(document, r, a)
  {
    PreorderElements(document[r].children, 0, [r], a);
    if |a| > 1 {
      assert a[..1] == [a[0]];
    } else if |a| == 1 {
      assert a == [a[0]];
    }
  }

  /** Each selector path, followed from the top, reaches its element and no other. */
  lemma SelectorsAddress(document: seq<Node>, r: nat, order: seq<Address>, nodes: seq<SemanticNode>, i: nat, b: Address)
    requires IsGraph(document, r, order, nodes) && i < |nodes|
    ensures CssSelects(document, nodes[i].css, b) <==> b == order[i]
    ensures XPathSelects(document, nodes[i].xpath, b) <==> b == order[i]
  {
    assert NodeOk(document, order, nodes, i);
    if CssSelects(document, nodes[i].css, b) { CssUnique(document, nodes[i].css, order[i], b); }
    if XPathSelects(document, nodes[i].xpath, b) { XPathUnique(document, nodes[i].xpath, order[i], b); }
  }

  /** So no two nodes share a selector of either kind. */
  lemma SelectorsInjective(document: seq<Node>, r: nat, order: seq<Address>, nodes: seq<SemanticNode>, i: nat, j: nat)
    requires IsGraph(document, r, order, nodes) && i < |nodes| && j < |nodes|
    ensures nodes[i].css == nodes[j].css <==> i == j
    ensures nodes[i].xpath == nodes[j].xpath <==> i == j
  {
    SelectorsAddress(document, r, order, nodes, i, order[j]);
    SelectorsAddress(document, r, order, nodes, j, order[j]);
    BeforeIrreflexive(order[i]);
    if i < j { assert Before(order[i], order[j]); }
    if j < i { assert Before(order[j], order[i]); }
  }

  lemma {:induction false} PrefixIsElement(f: seq<Node>, a: Address, d: nat)
    requires IsElement(f, a) && 0 < d <= |a|
    ensures IsElement(f, a[..d])
  {
    if d > 1 {
      PrefixIsElement(f[a[0]].children, a[1..], d - 1);
      assert a[..d][1..] == a[1..][..d - 1];
    }
  }

  /** Used without an anchor, a selector can also match where one of its element's would-be
      ancestors starts: some deeper element then fits the selector's first step. */
  lemma {:induction false} StrayMatch(f: seq<Node>, steps: seq<Step>, b: Address) returns (d: nat)
    requires IsElement(f, b) && CssMatches(f, steps, b) && !CssSelects(f, steps, b)
    ensures 1 < d <= |b| && steps != [] && IsElement(f, b[..d]) && CssMatches(f, [steps[0]], b[..d])
    decreases |b|
  {
    var rest := f[b[0]].children;
    if CssSelects(rest, steps, b[1..]) {
      d := 2;
      assert b[..2][1..] == [b[1]] && b[..2][0] == b[0];
      assert CssSelects(rest, [steps[0]], [b[1]]);
      assert CssMatches(rest, [steps[0]], [b[1]]);
    } else {
      d := StrayMatch(rest, steps, b[1..]);
      d := d + 1;
      assert b[..d][1..] == b[1..][..d - 1] && b[..d][0] == b[0];
    }
    PrefixIsElement(f, b, d);
  }

  /** Node `i`'s selector, matched anywhere in the document, matches its element only. */
  ghost predicate Unambiguous(document: seq<Node>, order: seq<Address>, nodes: seq<SemanticNode>, i: nat)
    requires i < |order| == |nodes|
  {
    forall b | IsElement(document, b) :: CssMatches(document, nodes[i].css, b) <==> b == order[i]
  }

  /** The element at `b` has the root's tag and as many element siblings before it. */
  predicate LooksLikeRoot(document: seq<Node>, r: nat, b: Address)
    requires r < |document| && document[r].Element?
    requires IsElement(document, b) && (|b| > 1 ==> IsElement(document, b[..|b| - 1]))
  {
    var siblings, k := Siblings(document, b), b[|b| - 1];
    && TagAt(document, b) == document[r].tag
    && k <= |siblings| && ElementsBefore(siblings, k) == ElementsBefore(document, r)
  }

  /** A selector of one step, not anchored, matches by the element's place among its siblings
      alone. */
  lemma {:induction false} OneStepMatches(f: seq<Node>, step: Step, b: Address)
    requires IsElement(f, b)
    ensures |b| > 1 ==> IsElement(f, b[..|b| - 1])
    ensures CssMatches(f, [step], b) <==> NthChild(Siblings(f, b), b[|b| - 1], step)
  {
    if |b| > 1 {
      PrefixIsElement(f, b, |b| - 1);
      OneStepMatches(f[b[0]].children, step, b[1..]);
    }
  }

  lemma RootMatches(document: seq<Node>, r: nat, order: seq<Address>, nodes: seq<SemanticNode>, b: Address)
    requires IsGraph(document, r, order, nodes) && IsElement(document, b)
    ensures r < |document| && document[r].Element? && (|b| > 1 ==> IsElement(document, b[..|b| - 1]))
    ensures CssMatches(document, nodes[0].css, b) <==> LooksLikeRoot(document, r, b)
  {
    assert NodeOk(document, order, nodes, 0) && order[0] == [r] && order[0] in order;
    var step := nodes[0].css[0];
    assert nodes[0].css == [step] && CssSelects(document, [step], [r]);
    OneStepMatches(document, step, b);
    LastIsSibling(document, b);
  }

  /** As ordinary, unanchored selectors the paths all match their own element only, exactly
      when no other element of the document has the root's tag and the root's place among its
      siblings. */
  lemma SelectorsUnambiguousIff(document: seq<Node>, r: nat, order: seq<Address>, nodes: seq<SemanticNode>)
    requires IsGraph(document, r, order, nodes)
    ensures r < |document| && document[r].Element?
    ensures forall b | IsElement(document, b) && |b| > 1 :: IsElement(document, b[..|b| - 1])
    ensures (forall i | 0 <= i < |nodes| :: Unambiguous(document, order, nodes, i)) <==>
            (forall b | IsElement(document, b) && b != [r] :: !LooksLikeRoot(document, r, b))
  {
    forall b | IsElement(document, b)
      ensures r < |document| && document[r].Element? && (|b| > 1 ==> IsElement(document, b[..|b| - 1]))
      ensures CssMatches(document, nodes[0].css, b) <==> LooksLikeRoot(document, r, b)
    {
      RootMatches(document, r, order, nodes, b);
    }
    assert order[0] in order && IsElement(document, [r]);
    hide CssMatches, LooksLikeRoot, Siblings, NodeOk, Ordered;
    RootMatchesItself(document, r, order, nodes);
    if Unambiguous(document, order, nodes, 0) {
      forall i, b | 0 <= i < |nodes| && IsElement(document, b)
        ensures CssMatches(document, nodes[i].css, b) <==> b == order[i]
      {
        UnambiguousBelow(document, r, order, nodes, i, b);
      }
    }
  }

  lemma RootMatchesItself(document: seq<Node>, r: nat, order: seq<Address>, nodes: seq<SemanticNode>)
    requires IsGraph(document, r, order, nodes)
    ensures IsElement(document, [r]) && CssMatches(document, nodes[0].css, [r])
  {
    assert order[0] in order;
    SelectorsAddress(document, r, order, nodes, 0, [r]);
  }

  lemma UnambiguousBelow(document: seq<Node>, r: nat, order: seq<Address>, nodes: seq<SemanticNode>, i: nat, b: Address)
    requires IsGraph(document, r, order, nodes) && i < |nodes| && IsElement(document, b)
    requires Unambiguous(document, order, nodes, 0)
    ensures CssMatches(document, nodes[i].css, b) <==> b == order[i]
  {
    SelectorsAddress(document, r, order, nodes, i, b);
    if CssMatches(document, nodes[i].css, b) && !CssSelects(document, nodes[i].css, b) {
      assert NodeOk(document, order, nodes, i) && NodeOk(document, order, nodes, 0);
      assert order[i] in order;
      assert nodes[0].css == [nodes[i].css[0]];
      var d := StrayMatch(document, nodes[i].css, b);
    }
  }

  /** A document in which they are not: inside `svg`, which is foreign content, the parser keeps
      an `html` start tag as an element, and as a first child that element also matches the
      root's selector. */
  lemma HtmlInSvgIsAmbiguous()
    ensures var document :=
      [Element("html", [Element("head", []), Element("body", [Element("svg", [Element("html", [])])])])];
      && IsElement(document, [0]) && IsElement(document, [0, 1, 0, 0]) && LooksLikeRoot(document, 0, [0, 1, 0, 0])
      && CssMatches(document, [Step("html", 1)], [0]) && CssMatches(document, [Step("html", 1)], [0, 1, 0, 0])
  {
    var inner := [Element("html", [])];
    var body := [Element("svg", inner)];
    var root := [Element("head", []), Element("body", body)];
    var document := [Element("html", root)];
    var a := [0, 1, 0, 0];
    assert a[1..] == [1, 0, 0] && [1, 0, 0][1..] == [0, 0] && [0, 0][1..] == [0];
    assert IsElement(inner, [0]) && IsElement(body, [0, 0]) && IsElement(root, [1, 0, 0]) && IsElement(document, a);
    OneStepMatches(document, Step("html", 1), a);
    OneStepMatches(document, Step("html", 1), [0]);
    LastIsSibling(document, a);
    assert a[..3] == [0, 1, 0];
    assert Siblings(document, a) == inner by {
      assert Siblings(inner, [0]) == inner && Siblings(body, [0, 0]) == inner && Siblings(root, [1, 0, 0]) == inner;
    }
    assert ElementsBefore(inner, 0) == 0 == ElementsBefore(document, 0);
  }
}
