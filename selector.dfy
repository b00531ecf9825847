/** The selector synthesiser `simpleCssPath`: a short, human-readable path from
    an element up towards the document root, used to identify a reported field. */
module Selector {
  import opened Util
  import opened Dom

  /** The upward walk stops at a node that is not an element, and at the top
      document's `<html>` element. */
  predicate StopsWalk(t: Tree, n: NodeId)
    requires n < |t.nodes|
  {
    !IsElement(t, n) || n == t.documentElement
  }

  /** The nodes that contribute one part each, outermost first: `n` and its
      ancestors up to the first one with an id, or up to where the walk stops. */
  function Chain(t: Tree, n: NodeId): (c: seq<NodeId>)
    requires Valid(t) && n < |t.nodes|
    ensures c == [] <==> StopsWalk(t, n)
    ensures Levels(t, c)
    decreases n
  {
    var node := t.nodes[n];
    if StopsWalk(t, n) then []
    else if node.id != "" then [n]
    else if node.parent.None? then [n]
    else Chain(t, node.parent.value) + [n]
  }

  /** `[name="…"]` when the element has a name, else its first two classes. */
  function Qualifier(node: Node): string {
    if node.name != "" then "[name=\"" + node.name + "\"]"
    else if |node.classList| > 0 then "." + Join(node.classList[..Min(2, |node.classList|)], ".")
    else ""
  }

  /** How many of `kids` have tag name `tag`. */
  function SameTagCount(t: Tree, kids: seq<NodeId>, tag: string): nat
  {
    if |kids| == 0 then 0
    else
      var last := kids[|kids| - 1];
      SameTagCount(t, kids[..|kids| - 1], tag)
        + (if last < |t.nodes| && t.nodes[last].tagName == tag then 1 else 0)
  }

  /** `k` is the first position of `n` among `kids`. */
  predicate FirstAt(kids: seq<NodeId>, n: NodeId, k: int) {
    0 <= k < |kids| && kids[k] == n && n !in kids[..k]
  }

  /** `:nth-child(i)` when more than one child of the parent has the same tag;
      `i` is the element's 1-based position among all of the parent's children. */
  function NthChild(t: Tree, n: NodeId): (r: string)
    requires Valid(t) && n < |t.nodes| && IsElement(t, n)
    ensures r != "" <==>
              (t.nodes[n].parent.Some? &&
               SameTagCount(t, t.nodes[t.nodes[n].parent.value].children, t.nodes[n].tagName) > 1)
    ensures r != "" ==>
              exists k :: FirstAt(t.nodes[t.nodes[n].parent.value].children, n, k)
                          && r == ":nth-child(" + NatToString(k + 1) + ")"
  {
    match t.nodes[n].parent
    case None => ""
    case Some(p) =>
      var kids := t.nodes[p].children;
      if SameTagCount(t, kids, t.nodes[n].tagName) > 1 then
        var k := IndexOf(kids, n);
        assert FirstAt(kids, n, k);
        ":nth-child(" + NatToString(k + 1) + ")"
      else ""
  }

  /** The part one level of the walk contributes. */
  function Part(t: Tree, n: NodeId): string
    requires Valid(t) && n < |t.nodes| && IsElement(t, n)
  {
    var node := t.nodes[n];
    if node.id != "" then Lower(node.tagName) + "#" + node.id
    else Lower(node.tagName) + Qualifier(node) + NthChild(t, n)
  }

  /** The parts of the given levels, in the same order. */
  function PartsOf(t: Tree, c: seq<NodeId>): (parts: seq<string>)
    requires Valid(t)
    requires Levels(t, c)
    ensures |parts| == |c|
  {
    if |c| == 0 then [] else [Part(t, c[0])] + PartsOf(t, c[1..])
  }

  lemma {:induction false} PartsOfSnoc(t: Tree, c: seq<NodeId>, n: NodeId)
    requires Valid(t) && n < |t.nodes| && IsElement(t, n)
    requires Levels(t, c)
    ensures PartsOf(t, c + [n]) == PartsOf(t, c) + [Part(t, n)]
  {
    if |c| > 0 {
      assert (c + [n])[1..] == c[1..] + [n];
      PartsOfSnoc(t, c[1..], n);
    }
  }

  function PathParts(t: Tree, n: NodeId): (parts: seq<string>)
    requires Valid(t) && n < |t.nodes|
  {
    PartsOf(t, Chain(t, n))
  }

  /** `simpleCssPath(el)`: null for a node without an owner document and when
      the walk produces no part; otherwise the parts joined by " > ". */
  function CssPath(t: Tree, el: NodeId): (r: Option<string>)
    requires Valid(t) && el < |t.nodes|
    ensures r.None? <==> t.nodes[el].kind == DocumentNode || StopsWalk(t, el)
  {
    if t.nodes[el].kind == DocumentNode then None
    else
      var parts := PathParts(t, el);
      if |parts| == 0 then None else Some(Join(parts, " > "))
  }

  // ---------------------------------------------------------------------------
  // What the path says

  /** The chain is an unbroken run of element parents ending at `n`; it never
      holds the top `<html>`; only its outermost node may carry an id; and it
      ends exactly where the source's loop ends: at the first id, or where the
      next parent is missing, not an element, or the top `<html>`. */
  lemma {:induction false} ChainShape(t: Tree, n: NodeId)
    requires Valid(t) && n < |t.nodes|
    ensures var c := Chain(t, n);
      && (c != [] ==> c[|c| - 1] == n)
      && (forall i :: 0 <= i < |c| ==> !StopsWalk(t, c[i]))
      && (forall i :: 0 <= i < |c| - 1 ==> t.nodes[c[i + 1]].parent == Some(c[i]))
      && (forall i :: 1 <= i < |c| ==> t.nodes[c[i]].id == "")
      && (c != [] ==>
            || t.nodes[c[0]].id != ""
            || t.nodes[c[0]].parent.None?
            || StopsWalk(t, t.nodes[c[0]].parent.value))
    decreases n
  {
    var node := t.nodes[n];
    if !StopsWalk(t, n) && node.id == "" && node.parent.Some? {
      ChainShape(t, node.parent.value);
    }
  }

  /** An element with an id is named by its tag and id alone. */
  lemma IdTerminatesPath(t: Tree, n: NodeId)
    requires Valid(t) && n < |t.nodes|
    requires IsElement(t, n) && n != t.documentElement && t.nodes[n].id != ""
    ensures CssPath(t, n) == Some(Lower(t.nodes[n].tagName) + "#" + t.nodes[n].id)
  {
    assert Chain(t, n) == [n];
  }

  /** Below an id-less element the path is the parent's path, " > ", and the
      element's own part; at the top of the walk it is that part alone. */
  lemma PathExtendsParent(t: Tree, n: NodeId)
    requires Valid(t) && n < |t.nodes|
    requires IsElement(t, n) && n != t.documentElement && t.nodes[n].id == ""
    ensures t.nodes[n].parent.Some? && !StopsWalk(t, t.nodes[n].parent.value) ==>
              CssPath(t, n) == Some(CssPath(t, t.nodes[n].parent.value).value + " > " + Part(t, n))
    ensures t.nodes[n].parent.None? || StopsWalk(t, t.nodes[n].parent.value) ==>
              CssPath(t, n) == Some(Part(t, n))
  {
    var node := t.nodes[n];
    if node.parent.Some? && !StopsWalk(t, node.parent.value) {
      var p := node.parent.value;
      var cp := Chain(t, p);
      assert Chain(t, n) == cp + [n];
      PartsOfSnoc(t, cp, n);
      JoinSnoc(PathParts(t, p), Part(t, n), " > ");
    } else if node.parent.Some? {
      assert Chain(t, node.parent.value) == [];
      assert Chain(t, n) == [n];
    }
  }

  lemma JoinSnoc(parts: seq<string>, last: string, sep: string)
    requires parts != []
    ensures Join(parts + [last], sep) == Join(parts, sep) + sep + last
  {
    assert (parts + [last])[..|parts|] == parts;
  }

  /** The top document's `<html>` element is never part of a path. */
  lemma HtmlNeverInPath(t: Tree, n: NodeId)
    requires Valid(t) && n < |t.nodes|
    ensures t.documentElement !in Chain(t, n)
  {
    ChainShape(t, n);
  }

  // ---------------------------------------------------------------------------
  // The loop

  /** The qualifier in its own terms: `[name="…"]` when the element has a
      name; otherwise a `.` before each of its first (at most two) classes;
      nothing when it has neither. */
  lemma QualifierShape(node: Node)
    ensures node.name != "" ==> Qualifier(node) == "[name=\"" + node.name + "\"]"
    ensures node.name == "" && |node.classList| == 0 ==> Qualifier(node) == ""
    ensures node.name == "" && |node.classList| == 1 ==>
              Qualifier(node) == "." + node.classList[0]
    ensures node.name == "" && |node.classList| >= 2 ==>
              Qualifier(node) == "." + node.classList[0] + "." + node.classList[1]
  {
    if node.name == "" && |node.classList| >= 2 {
      var two := node.classList[..2];
      assert two[..1] == [node.classList[0]];
      assert Join(two, ".") == node.classList[0] + "." + node.classList[1];
    } else if node.name == "" && |node.classList| == 1 {
      assert node.classList[..1] == [node.classList[0]];
    }
  }

  /** What one level contributes: it starts with the lower-cased tag; an
      element with an id contributes `tag#id` and nothing else; any other
      element contributes the tag, its qualifier and its position suffix. */
  lemma PartShape(t: Tree, n: NodeId)
    requires Valid(t) && n < |t.nodes| && IsElement(t, n)
    ensures StartsWith(Part(t, n), Lower(t.nodes[n].tagName))
    ensures t.nodes[n].id != "" ==> Part(t, n) == Lower(t.nodes[n].tagName) + "#" + t.nodes[n].id
    ensures t.nodes[n].id == "" ==>
              Part(t, n) == Lower(t.nodes[n].tagName) + Qualifier(t.nodes[n]) + NthChild(t, n)
  {
    var tag := Lower(t.nodes[n].tagName);
    var r := Part(t, n);
    if t.nodes[n].id != "" {
      assert r == tag + ("#" + t.nodes[n].id);
    } else {
      assert r == tag + (Qualifier(t.nodes[n]) + NthChild(t, n));
    }
  }

  /** All of `c` are elements of the tree. */
  predicate Levels(t: Tree, c: seq<NodeId>) {
    forall i :: 0 <= i < |c| ==> c[i] < |t.nodes| && IsElement(t, c[i])
  }

  /** One step of the walk at an element `n` below which the levels `rest` are
      done: `n` joins them, and either the walk ends there (an id, or no
      parent) or the chain continues at the parent. */
  lemma WalkStep(t: Tree, whole: seq<NodeId>, n: NodeId, rest: seq<NodeId>)
    requires Valid(t) && n < |t.nodes| && !StopsWalk(t, n)
    requires whole == Chain(t, n) + rest && Levels(t, rest)
    ensures Levels(t, [n] + rest)
    ensures PartsOf(t, [n] + rest) == [Part(t, n)] + PartsOf(t, rest)
    ensures t.nodes[n].id != "" || t.nodes[n].parent.None? ==> whole == [n] + rest
    ensures t.nodes[n].id == "" && t.nodes[n].parent.Some? ==>
              whole == Chain(t, t.nodes[n].parent.value) + ([n] + rest)
  {
    assert ([n] + rest)[1..] == rest;
    if t.nodes[n].id == "" && t.nodes[n].parent.Some? {
      ConcatAssoc(Chain(t, t.nodes[n].parent.value), [n], rest);
    }
  }

  /** Where the walk stops, nothing is left to add. */
  lemma WalkEnd(t: Tree, whole: seq<NodeId>, n: NodeId, done: seq<NodeId>)
    requires Valid(t) && n < |t.nodes| && StopsWalk(t, n)
    requires whole == Chain(t, n) + done
    ensures whole == done
  {
    assert Chain(t, n) == [];
    assert [] + done == done;
  }

  method SimpleCssPath(t: Tree, el: NodeId) returns (path: Option<string>)
    requires Valid(t) && el < |t.nodes|
    ensures path == CssPath(t, el)
  {
    if t.nodes[el].kind == DocumentNode {
      return None;
    }
    var parts: seq<string> := [];
    var node: Option<NodeId> := Some(el);
    ghost var done: seq<NodeId> := [];
    ghost var whole := Chain(t, el);
    assert whole == Chain(t, el) + done;
    while node.Some? && t.nodes[node.value].kind == ElementNode && node.value != t.documentElement
      invariant node.Some? ==> node.value < |t.nodes|
      invariant node.Some? ==> whole == Chain(t, node.value) + done
      invariant node.None? ==> whole == done
      invariant Levels(t, done)
      invariant parts == PartsOf(t, done)
      decreases if node.Some? then node.value + 1 else 0
    {
      var n := node.value;
      var cur := t.nodes[n];
      var part := Lower(cur.tagName);
      if cur.id != "" {
        part := part + "#" + cur.id;
      } else {
        var qualifier := "";
        if cur.name != "" {
          qualifier := "[name=\"" + cur.name + "\"]";
        } else if |cur.classList| > 0 {
          qualifier := "." + Join(cur.classList[..Min(2, |cur.classList|)], ".");
        }
        var position := "";
        if cur.parent.Some? {
          var kids := t.nodes[cur.parent.value].children;
          if SameTagCount(t, kids, cur.tagName) > 1 {
            var idx := IndexOf(kids, n) + 1;
            position := ":nth-child(" + NatToString(idx) + ")";
          }
        }
        assert qualifier == Qualifier(cur);
        assert position == NthChild(t, n);
        part := part + qualifier + position;
      }
      assert part == Part(t, n);
      WalkStep(t, whole, n, done);
      parts := [part] + parts;
      done := [n] + done;
      if t.nodes[n].id != "" {
        break;
      }
      node := t.nodes[n].parent;
    }
    if node.Some? && whole != done {
      WalkEnd(t, whole, node.value, done);
    }
    path := if |parts| > 0 then Some(Join(parts, " > ")) else None;
  }
}
