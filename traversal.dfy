/** Candidate collection (`collectAllInputs`): the autocomplete inputs of the
    top document, then those of every accessible same-origin frame document,
    then those of every open shadow root hosted by one of the known host tags.
    Inputs found inside a frame or a shadow root are tagged with the frame or
    host they were found through; the tags live in a side map from element to
    container, as the element properties `___in_iframe` and `___shadow_host`. */
module Traversal {
  import opened Util
  import opened Dom

  /** The three selectors the collector runs. */
  datatype Query =
    | AutocompleteInputs   // `input[autocomplete]`
    | Iframes              // `iframe`
    | ShadowHosts          // `x-shadow-host, x-tp-shadow, x-shadow-host-thirdparty-cdn`

  /** Whether node `x` matches the selector `q`. HTML tag names match
      regardless of case. */
  predicate Matches(t: Tree, q: Query, x: NodeId) {
    && x < |t.nodes|
    && t.nodes[x].kind == ElementNode
    && var tag := Lower(t.nodes[x].tagName);
       match q
       case AutocompleteInputs => tag == "input" && t.nodes[x].autocomplete.Some?
       case Iframes => tag == "iframe"
       case ShadowHosts =>
         tag == "x-shadow-host" || tag == "x-tp-shadow" || tag == "x-shadow-host-thirdparty-cdn"
  }

  /** `scope.querySelectorAll(q)` over a scope whose elements are `els`, in
      tree order: exactly the matching elements, in the scope's order. */
  function QueryAll(t: Tree, q: Query, els: seq<NodeId>): (r: seq<NodeId>)
    ensures |r| <= |els|
  {
    if |els| == 0 then []
    else
      var last := els[|els| - 1];
      var front := QueryAll(t, q, els[..|els| - 1]);
      if Matches(t, q, last) then front + [last] else front
  }

  /** The query result holds exactly the matching elements of the scope. */
  lemma {:induction false} QueryAllHolds(t: Tree, q: Query, els: seq<NodeId>, x: NodeId)
    ensures x in QueryAll(t, q, els) <==> x in els && Matches(t, q, x)
  {
    if |els| > 0 {
      var front := els[..|els| - 1];
      QueryAllHolds(t, q, front, x);
      assert x in els <==> x in front || x == els[|els| - 1];
    }
  }

  // ---------------------------------------------------------------------------
  // Frames and shadow roots

  /** The two kinds of container the collector looks into. */
  datatype Container = Frame | Host

  /** The selector that finds the containers of a kind in the top document. */
  function ContainerQuery(kind: Container): Query {
    match kind
    case Frame => Iframes
    case Host => ShadowHosts
  }

  /** `fr.contentDocument` or `host.shadowRoot`. */
  function Inner(p: Page, kind: Container, x: NodeId): (a: Access)
    requires WellFormed(p)
    ensures AccessIn(p.tree, a)
  {
    match kind
    case Frame => ContentDocument(p, x)
    case Host => ShadowRootOf(p, x)
  }

  /** The inputs one container contributes: none when reading its document or
      root throws or gives null; otherwise the autocomplete inputs inside it. */
  function InnerScope(p: Page, kind: Container, x: NodeId): (r: seq<NodeId>)
    requires WellFormed(p)
  {
    match Inner(p, kind, x)
    case Open(els) => QueryAll(p.tree, AutocompleteInputs, els)
    case _ => []
  }

  /** What the containers `xs` contribute, in container order. */
  function InnerInputs(p: Page, kind: Container, xs: seq<NodeId>): (r: seq<NodeId>)
    requires WellFormed(p)
  {
    if |xs| == 0 then []
    else InnerInputs(p, kind, xs[..|xs| - 1]) + InnerScope(p, kind, xs[|xs| - 1])
  }

  /** An input is contributed exactly when some container of `xs` holds it. */
  lemma {:induction false} InnerInputsHolds(p: Page, kind: Container, xs: seq<NodeId>, v: NodeId)
    requires WellFormed(p)
    ensures v in InnerInputs(p, kind, xs) <==> exists x :: x in xs && v in InnerScope(p, kind, x)
  {
    if |xs| > 0 {
      var front := xs[..|xs| - 1];
      InnerInputsHolds(p, kind, front, v);
      assert forall x :: x in xs <==> x in front || x == xs[|xs| - 1];
    }
  }

  /** Every contributed input is an autocomplete input. */
  lemma {:induction false} InnerInputsMatch(p: Page, kind: Container, xs: seq<NodeId>, v: NodeId)
    requires WellFormed(p) && v in InnerInputs(p, kind, xs)
    ensures Matches(p.tree, AutocompleteInputs, v)
  {
    InnerInputsHolds(p, kind, xs, v);
    var x :| x in xs && v in InnerScope(p, kind, x);
    var a := Inner(p, kind, x);
    QueryAllHolds(p.tree, AutocompleteInputs, a.elements, v);
  }

  /** The containers of a kind in the top document, in tree order. */
  function Containers(p: Page, kind: Container): (r: seq<NodeId>)
    requires WellFormed(p)
  {
    QueryAll(p.tree, ContainerQuery(kind), p.docElements)
  }

  /** Every element of `s` matches `q`. */
  predicate AllMatch(t: Tree, q: Query, s: seq<NodeId>) {
    forall i :: 0 <= i < |s| ==> Matches(t, q, s[i])
  }

  lemma QueryAllMatch(t: Tree, q: Query, els: seq<NodeId>)
    ensures AllMatch(t, q, QueryAll(t, q, els))
  {
    var r := QueryAll(t, q, els);
    forall i | 0 <= i < |r| ensures Matches(t, q, r[i]) {
      QueryAllHolds(t, q, els, r[i]);
    }
  }

  lemma InnerInputsAllMatch(p: Page, kind: Container, xs: seq<NodeId>)
    requires WellFormed(p)
    ensures AllMatch(p.tree, AutocompleteInputs, InnerInputs(p, kind, xs))
  {
    var r := InnerInputs(p, kind, xs);
    forall i | 0 <= i < |r| ensures Matches(p.tree, AutocompleteInputs, r[i]) {
      InnerInputsMatch(p, kind, xs, r[i]);
    }
  }

  lemma AllMatchConcat(t: Tree, q: Query, a: seq<NodeId>, b: seq<NodeId>, c: seq<NodeId>)
    requires AllMatch(t, q, a) && AllMatch(t, q, b) && AllMatch(t, q, c)
    ensures AllMatch(t, q, a + b + c)
  {
    var s := a + b + c;
    forall i | 0 <= i < |s| ensures Matches(t, q, s[i]) {
      if i < |a| { assert s[i] == a[i]; }
      else if i < |a| + |b| { assert s[i] == b[i - |a|]; }
      else { assert s[i] == c[i - |a| - |b|]; }
    }
  }

  // ---------------------------------------------------------------------------
  // Distinctness: no input is collected twice

  /** A query over a duplicate-free scope returns no element twice. */
  lemma {:induction false} QueryAllNoDup(t: Tree, q: Query, els: seq<NodeId>)
    requires NoDup(els)
    ensures NoDup(QueryAll(t, q, els))
    decreases |els|
  {
    if |els| > 0 {
      var front := els[..|els| - 1];
      var last := els[|els| - 1];
      NoDupFront(els);
      QueryAllNoDup(t, q, front);
      if Matches(t, q, last) {
        QueryAllHolds(t, q, front, last);
        NoDupConcat(QueryAll(t, q, front), [last]);
      }
    }
  }

  /** What one container contributes lies within its document or root. */
  lemma ScopeWithin(p: Page, kind: Container, x: NodeId, v: NodeId)
    requires WellFormed(p) && v in InnerScope(p, kind, x)
    ensures v in Elements(Inner(p, kind, x))
  {
    QueryAllHolds(p.tree, AutocompleteInputs, Elements(Inner(p, kind, x)), v);
  }

  /** A container contributes no input twice. */
  lemma ScopeNoDup(p: Page, kind: Container, x: NodeId)
    requires WellFormed(p) && Distinct(p)
    ensures NoDup(InnerScope(p, kind, x))
  {
    var a := Inner(p, kind, x);
    if a.Open? {
      assert NoDup(Elements(a));
      QueryAllNoDup(p.tree, AutocompleteInputs, a.elements);
    }
  }

  /** Two different containers of a kind contribute disjoint inputs. */
  lemma ScopesDisjoint(p: Page, kind: Container, x: NodeId, y: NodeId)
    requires WellFormed(p) && Distinct(p) && x != y
    ensures Disjoint(InnerScope(p, kind, x), InnerScope(p, kind, y))
  {
    forall v | v in InnerScope(p, kind, x) ensures v !in InnerScope(p, kind, y) {
      ScopeWithin(p, kind, x, v);
      if v in InnerScope(p, kind, y) {
        ScopeWithin(p, kind, y, v);
      }
    }
  }

  /** Distinct containers contribute no input twice. */
  lemma {:induction false} InnerInputsNoDup(p: Page, kind: Container, xs: seq<NodeId>)
    requires WellFormed(p) && Distinct(p) && NoDup(xs)
    ensures NoDup(InnerInputs(p, kind, xs))
    decreases |xs|
  {
    if |xs| > 0 {
      var front := xs[..|xs| - 1];
      var last := xs[|xs| - 1];
      NoDupFront(xs);
      InnerInputsNoDup(p, kind, front);
      ScopeNoDup(p, kind, last);
      forall v | v in InnerInputs(p, kind, front) ensures v !in InnerScope(p, kind, last) {
        InnerInputsHolds(p, kind, front, v);
        var x :| x in front && v in InnerScope(p, kind, x);
        ScopesDisjoint(p, kind, x, last);
      }
      NoDupConcat(InnerInputs(p, kind, front), InnerScope(p, kind, last));
    }
  }

  /** An input contributed by containers lies in one of their documents or
      roots, so not in the top document. */
  lemma InnerInputsOutsideDocument(p: Page, kind: Container, xs: seq<NodeId>, v: NodeId)
    requires WellFormed(p) && Distinct(p) && v in InnerInputs(p, kind, xs)
    ensures v !in p.docElements
    ensures exists x :: x in xs && v in Elements(Inner(p, kind, x))
  {
    InnerInputsHolds(p, kind, xs, v);
    var x :| x in xs && v in InnerScope(p, kind, x);
    ScopeWithin(p, kind, x, v);
  }

  /** `collectAllInputs()`: document inputs first, then each accessible frame's
      inputs in frame order, then each open shadow root's inputs in host order.
      Everything collected is an `input` element with an autocomplete
      attribute. */
  function AllInputs(p: Page): (r: seq<NodeId>)
    requires WellFormed(p)
    ensures AllMatch(p.tree, AutocompleteInputs, r)
    ensures |r| == |QueryAll(p.tree, AutocompleteInputs, p.docElements)|
                   + |InnerInputs(p, Frame, Containers(p, Frame))|
                   + |InnerInputs(p, Host, Containers(p, Host))|
  {
    var doc := QueryAll(p.tree, AutocompleteInputs, p.docElements);
    var frames := InnerInputs(p, Frame, Containers(p, Frame));
    var hosts := InnerInputs(p, Host, Containers(p, Host));
    QueryAllMatch(p.tree, AutocompleteInputs, p.docElements);
    InnerInputsAllMatch(p, Frame, Containers(p, Frame));
    InnerInputsAllMatch(p, Host, Containers(p, Host));
    AllMatchConcat(p.tree, AutocompleteInputs, doc, frames, hosts);
    doc + frames + hosts
  }

  /** On a page with the DOM's distinctness, no input is collected twice: the
      top document's, the frames' and the shadow roots' inputs are each
      duplicate-free and share no element. */
  lemma AllInputsNoDup(p: Page)
    requires WellFormed(p) && Distinct(p)
    ensures NoDup(AllInputs(p))
  {
    var doc := QueryAll(p.tree, AutocompleteInputs, p.docElements);
    var fs, hs := Containers(p, Frame), Containers(p, Host);
    var frames, hosts := InnerInputs(p, Frame, fs), InnerInputs(p, Host, hs);
    QueryAllNoDup(p.tree, AutocompleteInputs, p.docElements);
    QueryAllNoDup(p.tree, Iframes, p.docElements);
    QueryAllNoDup(p.tree, ShadowHosts, p.docElements);
    InnerInputsNoDup(p, Frame, fs);
    InnerInputsNoDup(p, Host, hs);
    forall v | v in doc ensures v !in frames {
      QueryAllHolds(p.tree, AutocompleteInputs, p.docElements, v);
      if v in frames { InnerInputsOutsideDocument(p, Frame, fs, v); }
    }
    NoDupConcat(doc, frames);
    forall v | v in doc + frames ensures v !in hosts {
      if v in hosts {
        InnerInputsOutsideDocument(p, Host, hs, v);
        var h :| h in hs && v in Elements(Inner(p, Host, h));
        if v in doc {
          QueryAllHolds(p.tree, AutocompleteInputs, p.docElements, v);
        } else {
          InnerInputsOutsideDocument(p, Frame, fs, v);
        }
      }
    }
    NoDupConcat(doc + frames, hosts);
  }

  // ---------------------------------------------------------------------------
  // Provenance tags

  /** The tags after `inputs.forEach(inp => inp.___in_iframe = fr)` (or
      `___shadow_host = host`) for each container `x` of `xs` in turn. */
  function Tag(p: Page, kind: Container, xs: seq<NodeId>, m: map<NodeId, NodeId>): map<NodeId, NodeId>
    requires WellFormed(p)
  {
    if |xs| == 0 then m
    else
      var x := xs[|xs| - 1];
      Tag(p, kind, xs[..|xs| - 1], m) + map v | v in InnerScope(p, kind, x) :: x
  }

  /** An element is tagged afterwards exactly when it was tagged before or some
      container of `xs` holds it; a container's inputs are tagged with a
      container of `xs` that holds them (the last one); other tags are kept. */
  lemma {:induction false} TagAt(p: Page, kind: Container, xs: seq<NodeId>, m: map<NodeId, NodeId>, v: NodeId)
    requires WellFormed(p)
    ensures var r := Tag(p, kind, xs, m);
      && (v in r <==> v in m || v in InnerInputs(p, kind, xs))
      && (v in InnerInputs(p, kind, xs) ==> r[v] in xs && v in InnerScope(p, kind, r[v]))
      && (v in m && v !in InnerInputs(p, kind, xs) ==> r[v] == m[v])
  {
    if |xs| > 0 {
      var front := xs[..|xs| - 1];
      TagAt(p, kind, front, m, v);
      assert forall y :: y in front ==> y in xs;
    }
  }

  // ---------------------------------------------------------------------------
  // What collection promises

  /** An element is collected exactly when it is an autocomplete input of the
      top document, or of a frame document or shadow root the collector can
      open. */
  lemma CollectedExactly(p: Page, v: NodeId)
    requires WellFormed(p)
    ensures v in AllInputs(p) <==>
              || (v in p.docElements && Matches(p.tree, AutocompleteInputs, v))
              || (exists f :: f in Containers(p, Frame) && v in InnerScope(p, Frame, f))
              || (exists h :: h in Containers(p, Host) && v in InnerScope(p, Host, h))
  {
    QueryAllHolds(p.tree, AutocompleteInputs, p.docElements, v);
    InnerInputsHolds(p, Frame, Containers(p, Frame), v);
    InnerInputsHolds(p, Host, Containers(p, Host), v);
  }

  /** A container whose document or root cannot be read adds nothing and tags
      nothing. */
  lemma UnreadableContainerSkipped(p: Page, kind: Container, xs: seq<NodeId>, x: NodeId, m: map<NodeId, NodeId>)
    requires WellFormed(p) && !Inner(p, kind, x).Open?
    ensures InnerInputs(p, kind, xs + [x]) == InnerInputs(p, kind, xs)
    ensures Tag(p, kind, xs + [x], m) == Tag(p, kind, xs, m)
  {
    assert (xs + [x])[..|xs|] == xs;
    assert InnerScope(p, kind, x) == [];
  }

  // ---------------------------------------------------------------------------
  // The loops

  /** Going one container further along `xs`. */
  lemma CollectStep(p: Page, kind: Container, xs: seq<NodeId>, i: nat, m: map<NodeId, NodeId>)
    requires WellFormed(p) && i < |xs|
    ensures Inner(p, kind, xs[i]).Open? ==>
              && InnerInputs(p, kind, xs[..i + 1]) == InnerInputs(p, kind, xs[..i]) + InnerScope(p, kind, xs[i])
              && Tag(p, kind, xs[..i + 1], m) == Tag(p, kind, xs[..i], m) + map v | v in InnerScope(p, kind, xs[i]) :: xs[i]
    ensures !Inner(p, kind, xs[i]).Open? ==>
              && InnerInputs(p, kind, xs[..i + 1]) == InnerInputs(p, kind, xs[..i])
              && Tag(p, kind, xs[..i + 1], m) == Tag(p, kind, xs[..i], m)
  {
    assert xs[..i + 1] == xs[..i] + [xs[i]];
    if !Inner(p, kind, xs[i]).Open? {
      UnreadableContainerSkipped(p, kind, xs[..i], xs[i], m);
    } else {
      assert xs[..i + 1][..i] == xs[..i];
    }
  }

  /** `inputs.forEach(inp => inp.___in_iframe = x)`. */
  method TagEach(tags: map<NodeId, NodeId>, inputs: seq<NodeId>, x: NodeId) returns (r: map<NodeId, NodeId>)
    ensures r == tags + map v | v in inputs :: x
  {
    r := tags;
    for j := 0 to |inputs|
      invariant r == tags + map v | v in inputs[..j] :: x
    {
      assert forall v :: v in inputs[..j + 1] <==> v in inputs[..j] || v == inputs[j];
      r := r[inputs[j] := x];
    }
    assert inputs[..|inputs|] == inputs;
  }

  /** One of the two container loops of `collectAllInputs`: for each container,
      read its document or root (skipping it when that throws or is null), tag
      its inputs with the container and append them. */
  method CollectFrom(p: Page, kind: Container, xs: seq<NodeId>, m: map<NodeId, NodeId>)
    returns (found: seq<NodeId>, tags: map<NodeId, NodeId>)
    requires WellFormed(p)
    ensures found == InnerInputs(p, kind, xs)
    ensures tags == Tag(p, kind, xs, m)
  {
    found := [];
    tags := m;
    for i := 0 to |xs|
      invariant found == InnerInputs(p, kind, xs[..i])
      invariant tags == Tag(p, kind, xs[..i], m)
    {
      var x := xs[i];
      CollectStep(p, kind, xs, i, m);
      match Inner(p, kind, x)
      case Denied =>
      case Missing =>
      case Open(els) =>
        var inputs := QueryAll(p.tree, AutocompleteInputs, els);
        tags := TagEach(tags, inputs, x);
        found := found + inputs;
    }
    assert xs[..|xs|] == xs;
  }
}
