/** The page as the scanner sees it: an abstract node tree (the top document,
    same-origin frame documents and shadow roots laid out side by side) and the
    browser services the scanner queries about it. */
module Dom {
  import opened Util
  import opened Visibility

  /** Node identity: a position in the tree's node sequence. */
  type NodeId = nat

  /** `nodeType` 1, 9 and 11. Only a document has no `ownerDocument`. */
  datatype NodeKind = ElementNode | DocumentNode | FragmentNode

  /** One node with the attributes and properties the scanner reads. Absent
      string attributes are "" where the source only tests truthiness, and
      `None` where it tests presence (`[data-tech]`, `input[autocomplete]`). */
  datatype Node = Node(
    kind: NodeKind,
    tagName: string,             // as the DOM reports it (upper case for HTML)
    id: string,
    name: string,
    classList: seq<string>,
    parent: Option<NodeId>,      // parentNode
    children: seq<NodeId>,       // element children, in order
    autocomplete: Option<string>,
    value: string,
    inputType: string,
    dataTech: Option<string>,
    dataProvenance: Option<string>,
    dataInjectedBy: Option<string>)

  /** Nodes are listed so that a parent comes before its children (tree order),
      which makes every walk up the parent chain finite. */
  datatype Tree = Tree(nodes: seq<Node>, documentElement: NodeId)

  /** Every parent precedes its child; `children` lists existing element
      nodes whose parent is this node; and an element is among its parent's
      `children`. */
  predicate Valid(t: Tree) {
    && t.documentElement < |t.nodes|
    && forall n :: 0 <= n < |t.nodes| ==>
         && (t.nodes[n].parent.Some? ==> t.nodes[n].parent.value < n)
         && (forall c :: c in t.nodes[n].children ==>
               c < |t.nodes| && t.nodes[c].kind == ElementNode && t.nodes[c].parent == Some(n))
         && (t.nodes[n].kind == ElementNode && t.nodes[n].parent.Some? ==>
               n in t.nodes[t.nodes[n].parent.value].children)
  }

  predicate IsElement(t: Tree, n: NodeId)
    requires n < |t.nodes|
  {
    t.nodes[n].kind == ElementNode
  }

  /** `a` is `n` or an element ancestor of `n` reached through element parents
      only: the nodes `Element.closest` visits. */
  ghost predicate InclusiveElementAncestor(t: Tree, a: NodeId, n: NodeId)
    requires Valid(t) && n < |t.nodes|
    decreases n
  {
    && a <= n
    && IsElement(t, n)
    && (a == n ||
        (t.nodes[n].parent.Some? && InclusiveElementAncestor(t, a, t.nodes[n].parent.value)))
  }

  lemma {:induction false} AncestorIsNotBelow(t: Tree, a: NodeId, n: NodeId)
    requires Valid(t) && n < |t.nodes|
    requires InclusiveElementAncestor(t, a, n)
    ensures a <= n && IsElement(t, a)
    decreases n
  {
    if a != n {
      AncestorIsNotBelow(t, a, t.nodes[n].parent.value);
    }
  }

  /** `Element.closest(selector)`: the nearest element among `n` and its element
      ancestors that matches. Ancestors precede descendants, so "nearest" is
      "largest position". */
  function Closest(t: Tree, n: NodeId, matches: Node -> bool): (r: Option<NodeId>)
    requires Valid(t) && n < |t.nodes|
    ensures r.Some? ==> r.value <= n && InclusiveElementAncestor(t, r.value, n) && matches(t.nodes[r.value])
    ensures r.Some? ==> forall a: NodeId :: InclusiveElementAncestor(t, a, n) && a > r.value ==> !matches(t.nodes[a])
    ensures r.None? ==> forall a: NodeId :: InclusiveElementAncestor(t, a, n) ==> !matches(t.nodes[a])
    decreases n
  {
    var node := t.nodes[n];
    if node.kind != ElementNode then None
    else if matches(node) then Some(n)
    else if node.parent.None? then None
    else
      var r := Closest(t, node.parent.value, matches);
      assert r.Some? ==> r.value <= n by {
        if r.Some? { AncestorIsNotBelow(t, r.value, node.parent.value); }
      }
      r
  }

  // ---------------------------------------------------------------------------
  // The page

  /** What reading `iframe.contentDocument` or `host.shadowRoot` gives: it
      throws, it is null, or it is a tree whose elements are listed in tree
      order. */
  datatype Access = Denied | Missing | Open(elements: seq<NodeId>)

  datatype Location = Location(hostname: string, origin: string, href: string)

  datatype Page = Page(
    tree: Tree,
    docElements: seq<NodeId>,              // the top document's elements, in tree order
    contentDocument: map<NodeId, Access>,  // per iframe element; no entry is null
    shadowRoot: map<NodeId, Access>,       // per element; no entry is null
    measure: map<NodeId, Measure>,         // no entry: measuring the element throws
    location: Location,
    referrer: string,                      // document.referrer
    cspContent: Option<string>,            // content of the CSP meta element, if any
    userAgent: string)

  predicate AllIn(t: Tree, ns: seq<NodeId>) {
    forall i :: 0 <= i < |ns| ==> ns[i] < |t.nodes|
  }

  predicate AccessIn(t: Tree, a: Access) {
    a.Open? ==> AllIn(t, a.elements)
  }

  predicate WellFormed(p: Page) {
    && Valid(p.tree)
    && AllIn(p.tree, p.docElements)
    && (forall f :: f in p.contentDocument ==> AccessIn(p.tree, p.contentDocument[f]))
    && (forall h :: h in p.shadowRoot ==> AccessIn(p.tree, p.shadowRoot[h]))
  }

  /** The elements an access lists: those of an open document or root, and
      none otherwise. */
  function Elements(a: Access): seq<NodeId> {
    if a.Open? then a.elements else []
  }

  /** What the DOM guarantees of a real page: no document or shadow root lists
      an element twice, and an element lives in exactly one of the top
      document, the frame documents and the shadow roots. */
  predicate Distinct(p: Page) {
    && NoDup(p.docElements)
    && (forall f :: f in p.contentDocument ==>
          NoDup(Elements(p.contentDocument[f])) && Disjoint(p.docElements, Elements(p.contentDocument[f])))
    && (forall h :: h in p.shadowRoot ==>
          NoDup(Elements(p.shadowRoot[h])) && Disjoint(p.docElements, Elements(p.shadowRoot[h])))
    && (forall f, g :: f in p.contentDocument && g in p.contentDocument && f != g ==>
          Disjoint(Elements(p.contentDocument[f]), Elements(p.contentDocument[g])))
    && (forall h, k :: h in p.shadowRoot && k in p.shadowRoot && h != k ==>
          Disjoint(Elements(p.shadowRoot[h]), Elements(p.shadowRoot[k])))
    && (forall f, h :: f in p.contentDocument && h in p.shadowRoot ==>
          Disjoint(Elements(p.contentDocument[f]), Elements(p.shadowRoot[h])))
  }

  function ContentDocument(p: Page, frame: NodeId): (a: Access)
    requires WellFormed(p)
    ensures AccessIn(p.tree, a)
  {
    if frame in p.contentDocument then p.contentDocument[frame] else Missing
  }

  function ShadowRootOf(p: Page, host: NodeId): (a: Access)
    requires WellFormed(p)
    ensures AccessIn(p.tree, a)
  {
    if host in p.shadowRoot then p.shadowRoot[host] else Missing
  }

  function MeasureOf(p: Page, n: NodeId): Option<Measure> {
    if n in p.measure then Some(p.measure[n]) else None
  }
}
