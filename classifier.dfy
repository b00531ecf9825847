/** The autofill classifier (`findAutofilledInputs`): which collected inputs
    count as autofilled right now, and the record reported for each. */
module Classifier {
  import opened Util
  import opened Visibility
  import opened Dom
  import opened Technique
  import opened Traversal

  /** `USER_TYPE_GRACE_MS`: no field counts as autofilled until this many
      milliseconds have passed since the user last typed. */
  const GraceMs: int := 2000

  /** The autocomplete tokens the scanner watches, matched as substrings. */
  predicate Watched(ac: string) {
    Contains(ac, "username") || Contains(ac, "current-password")
    || Contains(ac, "new-password") || Contains(ac, "cc-")
  }

  /** A watched token counts wherever it occurs in the attribute, not only as
      the whole attribute or its prefix: `off cc-number` and `section-x
      username` are both watched. */
  lemma WatchedAnywhere(before: string, token: string, after: string)
    requires token in {"username", "current-password", "new-password", "cc-"}
    ensures Watched(before + token + after)
  {
    var s := before + token + after;
    assert OccursAt(s, token, |before|) by {
      assert s[|before|..|before| + |token|] == token;
    }
  }

  /** `(inp.getAttribute('autocomplete') || '').toLowerCase()`. */
  function AutocompleteOf(node: Node): string {
    Lower(node.autocomplete.GetOr(""))
  }

  /** What a scan cycle knows besides the page: the clock, the time of the last
      `input` event, the elements already marked `data-exfiltrated="1"`, and
      the frame and shadow-host tags left by collection. */
  datatype Context = Context(
    now: int,
    lastUserTypeAt: int,
    marked: set<NodeId>,
    frameOf: map<NodeId, NodeId>,
    hostOf: map<NodeId, NodeId>)

  predicate InGrace(ctx: Context) {
    ctx.now - ctx.lastUserTypeAt < GraceMs
  }

  /** The four filters, in the source's order: a watched token, a non-empty
      value, outside the typing grace window, not yet marked. */
  predicate Candidate(p: Page, v: NodeId, ctx: Context)
    requires v < |p.tree.nodes|
  {
    var node := p.tree.nodes[v];
    && Watched(AutocompleteOf(node))
    && node.value != ""
    && !InGrace(ctx)
    && v !in ctx.marked
  }

  // ---------------------------------------------------------------------------
  // Technique

  /** The selector `[data-tech], .card, .tp-card`. */
  predicate IsCard(node: Node) {
    node.dataTech.Some? || "card" in node.classList || "tp-card" in node.classList
  }

  /** A non-empty `data-tech` value, the only kind the source treats as set. */
  predicate HasTech(node: Node) {
    node.dataTech.Some? && node.dataTech.value != ""
  }

  /** The raw technique label, in priority order: the field's own `data-tech`,
      `iframe` for a frame-tagged field, `shadow-dom` for a host-tagged one,
      the `data-tech` of the nearest card around it, and `in-document`. */
  function RawTechnique(p: Page, v: NodeId, ctx: Context): (r: string)
    requires WellFormed(p) && v < |p.tree.nodes|
    ensures r != ""
    ensures || (HasTech(p.tree.nodes[v]) && r == p.tree.nodes[v].dataTech.value)
            || r == "iframe" || r == "shadow-dom" || r == "in-document"
            || (exists c: NodeId :: InclusiveElementAncestor(p.tree, c, v) && HasTech(p.tree.nodes[c])
                                    && r == p.tree.nodes[c].dataTech.value)
  {
    var node := p.tree.nodes[v];
    if HasTech(node) then node.dataTech.value
    else if v in ctx.frameOf then "iframe"
    else if v in ctx.hostOf then "shadow-dom"
    else
      match Closest(p.tree, v, IsCard)
      case Some(c) => if HasTech(p.tree.nodes[c]) then p.tree.nodes[c].dataTech.value else "in-document"
      case None => "in-document"
  }

  // ---------------------------------------------------------------------------
  // Records

  /** One result record of `findAutofilledInputs`. */
  datatype Found = Found(
    node: NodeId,
    name: string,               // name, else id, else "?"
    value: string,
    hidden: bool,
    tech: string,               // normalised technique tag
    inputType: Option<string>,  // `inp.type || null`
    autocomplete: string)       // lower-cased autocomplete attribute

  function Describe(p: Page, v: NodeId, ctx: Context): (f: Found)
    requires WellFormed(p) && v < |p.tree.nodes|
    ensures f.node == v && f.value == p.tree.nodes[v].value
    ensures f.name != ""
    ensures p.tree.nodes[v].name != "" ==> f.name == p.tree.nodes[v].name
    ensures p.tree.nodes[v].name == "" && p.tree.nodes[v].id != "" ==> f.name == p.tree.nodes[v].id
    ensures p.tree.nodes[v].name == "" && p.tree.nodes[v].id == "" ==> f.name == "?"
    ensures f.hidden == IsHidden(MeasureOf(p, v))
    ensures f.tech == NormalizeTechnique(RawTechnique(p, v, ctx)) && IsSlug(f.tech)
    ensures f.autocomplete == AutocompleteOf(p.tree.nodes[v])
    ensures f.inputType.Some? <==> p.tree.nodes[v].inputType != ""
    ensures f.inputType.Some? ==> f.inputType.value == p.tree.nodes[v].inputType
  {
    var node := p.tree.nodes[v];
    Found(
      v,
      if node.name != "" then node.name else if node.id != "" then node.id else "?",
      node.value,
      IsHidden(MeasureOf(p, v)),
      NormalizeTechnique(RawTechnique(p, v, ctx)),
      if node.inputType != "" then Some(node.inputType) else None,
      AutocompleteOf(node))
  }

  /** The result of `findAutofilledInputs` over the collected `inputs`: one
      record per candidate, in collection order. */
  function Classify(p: Page, inputs: seq<NodeId>, ctx: Context): (r: seq<Found>)
    requires WellFormed(p) && AllIn(p.tree, inputs)
    ensures |r| <= |inputs|
  {
    if |inputs| == 0 then []
    else
      var v := inputs[|inputs| - 1];
      Classify(p, inputs[..|inputs| - 1], ctx) + RecordOf(p, v, ctx)
  }

  /** Some record of `r` is about `v`. */
  predicate Reports(r: seq<Found>, v: NodeId) {
    exists i :: 0 <= i < |r| && r[i].node == v
  }

  /** The nodes of the records in `r`. */
  function ReportedNodes(r: seq<Found>): set<NodeId> {
    set i | 0 <= i < |r| :: r[i].node
  }

  /** Every record is about a node of the tree. */
  lemma ClassifiedNodesIn(p: Page, inputs: seq<NodeId>, ctx: Context)
    requires WellFormed(p) && AllIn(p.tree, inputs)
    ensures var r := Classify(p, inputs, ctx);
      forall i :: 0 <= i < |r| ==> r[i].node < |p.tree.nodes|
  {
    var r := Classify(p, inputs, ctx);
    forall i | 0 <= i < |r| ensures r[i].node < |p.tree.nodes| {
      ClassifySound(p, inputs, ctx, i);
    }
  }

  /** Reporting one more record adds exactly its node. */
  lemma ReportedNodesSnoc(r: seq<Found>, i: nat)
    requires i < |r|
    ensures ReportedNodes(r[..i + 1]) == ReportedNodes(r[..i]) + {r[i].node}
  {
    assert forall j :: 0 <= j < i ==> r[..i + 1][j] == r[..i][j];
  }

  // ---------------------------------------------------------------------------
  // What the classifier promises

  /** The one record an input can contribute is its description, and only a
      candidate contributes one. */
  lemma RecordOfSound(p: Page, v: NodeId, ctx: Context, k: nat)
    requires WellFormed(p) && v < |p.tree.nodes|
    requires k < |RecordOf(p, v, ctx)|
    ensures RecordOf(p, v, ctx)[k].node == v
    ensures Candidate(p, v, ctx) && RecordOf(p, v, ctx)[k] == Describe(p, v, ctx)
  {
  }

  lemma InFront(s: seq<NodeId>, x: NodeId)
    requires |s| > 0 && x in s[..|s| - 1]
    ensures x in s
  {
    var j :| 0 <= j < |s| - 1 && s[..|s| - 1][j] == x;
    assert s[j] == x;
  }

  /** The records of all inputs but the last come first, then the last input's. */
  lemma ClassifyLast(p: Page, inputs: seq<NodeId>, ctx: Context, i: nat)
    requires WellFormed(p) && AllIn(p.tree, inputs) && |inputs| > 0
    requires i < |Classify(p, inputs, ctx)|
    ensures AllIn(p.tree, inputs[..|inputs| - 1])
    ensures var head := Classify(p, inputs[..|inputs| - 1], ctx);
      && (i < |head| ==> Classify(p, inputs, ctx)[i] == head[i])
      && (i >= |head| ==> i - |head| < |RecordOf(p, inputs[|inputs| - 1], ctx)|
                          && Classify(p, inputs, ctx)[i] == RecordOf(p, inputs[|inputs| - 1], ctx)[i - |head|])
  {
  }

  /** Every record is about a collected input that passes all four filters, and
      carries that input's description. */
  lemma {:induction false} ClassifySound(p: Page, inputs: seq<NodeId>, ctx: Context, i: nat)
    requires WellFormed(p) && AllIn(p.tree, inputs)
    requires i < |Classify(p, inputs, ctx)|
    ensures var f := Classify(p, inputs, ctx)[i];
      && f.node in inputs
      && Candidate(p, f.node, ctx)
      && f == Describe(p, f.node, ctx)
  {
    var front := inputs[..|inputs| - 1];
    var v := inputs[|inputs| - 1];
    ClassifyLast(p, inputs, ctx, i);
    var head := Classify(p, front, ctx);
    if i < |head| {
      ClassifySound(p, front, ctx, i);
      InFront(inputs, head[i].node);
    } else {
      RecordOfSound(p, v, ctx, i - |head|);
    }
  }

  /** A candidate among the inputs is always reported. */
  lemma {:induction false} ClassifyComplete(p: Page, inputs: seq<NodeId>, ctx: Context, v: NodeId)
    requires WellFormed(p) && AllIn(p.tree, inputs)
    requires v in inputs && v < |p.tree.nodes| && Candidate(p, v, ctx)
    ensures Reports(Classify(p, inputs, ctx), v)
  {
    var front := inputs[..|inputs| - 1];
    var r := Classify(p, inputs, ctx);
    if inputs[|inputs| - 1] == v {
      assert r[|r| - 1].node == v;
    } else {
      assert v in front;
      ClassifyComplete(p, front, ctx, v);
      var k :| 0 <= k < |Classify(p, front, ctx)| && Classify(p, front, ctx)[k].node == v;
      assert r[k].node == v;
    }
  }

  /** Reported exactly when collected and a candidate. */
  lemma ReportedExactly(p: Page, inputs: seq<NodeId>, ctx: Context, v: NodeId)
    requires WellFormed(p) && AllIn(p.tree, inputs)
    ensures Reports(Classify(p, inputs, ctx), v) <==>
              v in inputs && v < |p.tree.nodes| && Candidate(p, v, ctx)
  {
    var r := Classify(p, inputs, ctx);
    if Reports(r, v) {
      var i :| 0 <= i < |r| && r[i].node == v;
      ClassifySound(p, inputs, ctx, i);
    }
    if v in inputs && v < |p.tree.nodes| && Candidate(p, v, ctx) {
      ClassifyComplete(p, inputs, ctx, v);
    }
  }

  /** No two records of `r` are about the same node. */
  predicate OneRecordEach(r: seq<Found>) {
    forall i, j :: 0 <= i < j < |r| ==> r[i].node != r[j].node
  }

  /** Inputs listed once give at most one record per node. */
  lemma {:induction false} ClassifyOneRecordEach(p: Page, inputs: seq<NodeId>, ctx: Context)
    requires WellFormed(p) && AllIn(p.tree, inputs) && NoDup(inputs)
    ensures OneRecordEach(Classify(p, inputs, ctx))
    decreases |inputs|
  {
    if |inputs| > 0 {
      var front := inputs[..|inputs| - 1];
      var v := inputs[|inputs| - 1];
      NoDupFront(inputs);
      assert AllIn(p.tree, front);
      ClassifyOneRecordEach(p, front, ctx);
      var head := Classify(p, front, ctx);
      var r := Classify(p, inputs, ctx);
      forall i, j | 0 <= i < j < |r| ensures r[i].node != r[j].node {
        ClassifyLast(p, inputs, ctx, i);
        ClassifyLast(p, inputs, ctx, j);
        if j >= |head| {
          RecordOfSound(p, v, ctx, j - |head|);
          if i < |head| {
            ClassifySound(p, front, ctx, i);
          }
        }
      }
    }
  }

  lemma AllInAppend(t: Tree, a: seq<NodeId>, b: seq<NodeId>)
    requires AllIn(t, a) && AllIn(t, b)
    ensures AllIn(t, a + b)
  {
    var ab := a + b;
    forall i | 0 <= i < |ab| ensures ab[i] < |t.nodes| {
      if i >= |a| { assert ab[i] == b[i - |a|]; }
    }
  }

  /** The record (if any) that the input `v` contributes. */
  function RecordOf(p: Page, v: NodeId, ctx: Context): seq<Found>
    requires WellFormed(p) && v < |p.tree.nodes|
  {
    if Candidate(p, v, ctx) then [Describe(p, v, ctx)] else []
  }

  /** Classification keeps collection order: the records for a prefix of the
      inputs come first, followed by those for the rest. */
  lemma {:induction false} ClassifyAppend(p: Page, a: seq<NodeId>, b: seq<NodeId>, ctx: Context)
    requires WellFormed(p) && AllIn(p.tree, a) && AllIn(p.tree, b)
    ensures AllIn(p.tree, a + b)
    ensures Classify(p, a + b, ctx) == Classify(p, a, ctx) + Classify(p, b, ctx)
    decreases |b|
  {
    AllInAppend(p.tree, a, b);
    if |b| == 0 {
      assert a + b == a;
    } else {
      var bf, last := b[..|b| - 1], b[|b| - 1];
      assert AllIn(p.tree, bf);
      var ab := a + b;
      assert ab[..|ab| - 1] == a + bf;
      assert ab[|ab| - 1] == last;
      ClassifyAppend(p, a, bf, ctx);
      var tail := RecordOf(p, last, ctx);
      assert Classify(p, ab, ctx) == Classify(p, a + bf, ctx) + tail;
      assert Classify(p, b, ctx) == Classify(p, bf, ctx) + tail;
      ConcatAssoc(Classify(p, a, ctx), Classify(p, bf, ctx), tail);
    }
  }

  /** Inputs none of which is a candidate produce no record. */
  lemma {:induction false} NoCandidateNoRecord(p: Page, inputs: seq<NodeId>, ctx: Context)
    requires WellFormed(p) && AllIn(p.tree, inputs)
    requires forall i :: 0 <= i < |inputs| ==> !Candidate(p, inputs[i], ctx)
    ensures Classify(p, inputs, ctx) == []
  {
    if |inputs| > 0 {
      NoCandidateNoRecord(p, inputs[..|inputs| - 1], ctx);
    }
  }

  /** Within 2000 ms of the last keystroke nothing is reported. */
  lemma GraceSuppressesAll(p: Page, inputs: seq<NodeId>, ctx: Context)
    requires WellFormed(p) && AllIn(p.tree, inputs)
    requires ctx.now - ctx.lastUserTypeAt < 2000
    ensures Classify(p, inputs, ctx) == []
  {
    NoCandidateNoRecord(p, inputs, ctx);
  }

  /** Once every reported element is marked, classifying the same inputs again
      at the same time yields nothing, whatever the tags are then and however
      many more elements have been marked. */
  lemma RescanAfterMarking(p: Page, inputs: seq<NodeId>, ctx: Context, later: Context)
    requires WellFormed(p) && AllIn(p.tree, inputs)
    requires later.now == ctx.now && later.lastUserTypeAt == ctx.lastUserTypeAt
    requires ctx.marked + ReportedNodes(Classify(p, inputs, ctx)) <= later.marked
    ensures Classify(p, inputs, later) == []
  {
    var r := Classify(p, inputs, ctx);
    forall i | 0 <= i < |inputs| ensures !Candidate(p, inputs[i], later) {
      var v := inputs[i];
      if Candidate(p, v, ctx) {
        ClassifyComplete(p, inputs, ctx, v);
        var k :| 0 <= k < |r| && r[k].node == v;
        assert v in ReportedNodes(r);
      }
    }
    NoCandidateNoRecord(p, inputs, later);
  }

  /** The technique priority. A field's own non-empty `data-tech` beats
      everything; a frame-tagged field without one is `iframe` even inside a
      card or when it also carries a shadow-host tag; and an empty `data-tech`
      on the field itself hides any card around it, since the field is then
      its own nearest match for `[data-tech]`. */
  lemma TechniquePriority(p: Page, v: NodeId, ctx: Context)
    requires WellFormed(p) && v < |p.tree.nodes| && IsElement(p.tree, v)
    ensures HasTech(p.tree.nodes[v]) ==> RawTechnique(p, v, ctx) == p.tree.nodes[v].dataTech.value
    ensures !HasTech(p.tree.nodes[v]) && v in ctx.frameOf ==> RawTechnique(p, v, ctx) == "iframe"
    ensures !HasTech(p.tree.nodes[v]) && v !in ctx.frameOf && v in ctx.hostOf ==>
              RawTechnique(p, v, ctx) == "shadow-dom"
    ensures p.tree.nodes[v].dataTech == Some("") && v !in ctx.frameOf && v !in ctx.hostOf ==>
              RawTechnique(p, v, ctx) == "in-document"
  {
  }

  /** A plain field inside a tagged card, outside any frame or shadow root,
      takes the card's tag when no nearer card intervenes. */
  lemma CardTechnique(p: Page, v: NodeId, c: NodeId, ctx: Context)
    requires WellFormed(p) && v < |p.tree.nodes|
    requires !IsCard(p.tree.nodes[v]) && v !in ctx.frameOf && v !in ctx.hostOf
    requires InclusiveElementAncestor(p.tree, c, v) && IsCard(p.tree.nodes[c]) && HasTech(p.tree.nodes[c])
    requires forall a: NodeId :: InclusiveElementAncestor(p.tree, a, v) && a > c ==> !IsCard(p.tree.nodes[a])
    ensures RawTechnique(p, v, ctx) == p.tree.nodes[c].dataTech.value
  {
    assert Closest(p.tree, v, IsCard) == Some(c);
  }

  /** A plain field outside any frame or shadow root with no card around it
      is `in-document`. */
  lemma NoCardInDocument(p: Page, v: NodeId, ctx: Context)
    requires WellFormed(p) && v < |p.tree.nodes|
    requires !HasTech(p.tree.nodes[v]) && v !in ctx.frameOf && v !in ctx.hostOf
    requires forall a: NodeId :: InclusiveElementAncestor(p.tree, a, v) ==> !IsCard(p.tree.nodes[a])
    ensures RawTechnique(p, v, ctx) == "in-document"
  {
  }

  /** When the nearest card around such a field has no non-empty `data-tech`
      (a bare `.card`, or `data-tech=""`), the field is `in-document` even if a
      card further out is tagged. */
  lemma NearestCardWithoutTech(p: Page, v: NodeId, c: NodeId, ctx: Context)
    requires WellFormed(p) && v < |p.tree.nodes|
    requires !HasTech(p.tree.nodes[v]) && v !in ctx.frameOf && v !in ctx.hostOf
    requires InclusiveElementAncestor(p.tree, c, v) && IsCard(p.tree.nodes[c]) && !HasTech(p.tree.nodes[c])
    requires forall a: NodeId :: InclusiveElementAncestor(p.tree, a, v) && a > c ==> !IsCard(p.tree.nodes[a])
    ensures RawTechnique(p, v, ctx) == "in-document"
  {
    assert Closest(p.tree, v, IsCard) == Some(c);
  }

  // ---------------------------------------------------------------------------
  // The loop

  /** Classifying one more input. */
  lemma ClassifyStep(p: Page, inputs: seq<NodeId>, ctx: Context, i: nat)
    requires WellFormed(p) && AllIn(p.tree, inputs) && i < |inputs|
    ensures AllIn(p.tree, inputs[..i]) && AllIn(p.tree, inputs[..i + 1])
    ensures Classify(p, inputs[..i + 1], ctx)
              == Classify(p, inputs[..i], ctx) + RecordOf(p, inputs[i], ctx)
  {
    assert inputs[..i + 1][..i] == inputs[..i];
  }

  /** The loop of `findAutofilledInputs`: each collected input in turn, skipped
      at the first filter it fails, and described otherwise. */
  method ClassifyInputs(p: Page, inputs: seq<NodeId>, ctx: Context) returns (found: seq<Found>)
    requires WellFormed(p) && AllIn(p.tree, inputs)
    ensures found == Classify(p, inputs, ctx)
  {
    found := [];
    for i := 0 to |inputs|
      invariant AllIn(p.tree, inputs[..i])
      invariant found == Classify(p, inputs[..i], ctx)
    {
      ClassifyStep(p, inputs, ctx, i);
      var v := inputs[i];
      var node := p.tree.nodes[v];
      if !Watched(AutocompleteOf(node)) { continue; }
      if node.value == "" { continue; }
      if ctx.now - ctx.lastUserTypeAt < GraceMs { continue; }
      if v in ctx.marked { continue; }
      found := found + [Describe(p, v, ctx)];
    }
    assert inputs[..|inputs|] == inputs;
  }
}
