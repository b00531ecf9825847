/** The report a scan cycle sends for one found field, and the small helpers
    that feed it: value truncation, the browser label and the active test id. */
module Payload {
  import opened Util
  import opened Dom
  import opened Selector
  import opened Classifier

  // ---------------------------------------------------------------------------
  // Value truncation

  /** The longest value sample the scanner sends. */
  const MaxSample: nat := 200

  /** `redactValue(v)`: `None` stands for `undefined`/`null`, which give "";
      any other value is cut to its first 200 characters. */
  function RedactValue(v: Option<string>): (r: string)
    ensures v.None? ==> r == ""
    ensures v.Some? ==> |r| == Min(|v.value|, MaxSample) && r == v.value[..|r|]
  {
    match v
    case None => ""
    case Some(s) => if |s| > MaxSample then s[..MaxSample] else s
  }

  /** Truncating twice is truncating once; a short value passes unchanged. */
  lemma RedactIdempotent(s: string)
    ensures RedactValue(Some(RedactValue(Some(s)))) == RedactValue(Some(s))
    ensures |s| <= MaxSample ==> RedactValue(Some(s)) == s
  {
  }

  // ---------------------------------------------------------------------------
  // Browser label

  predicate IsDigit(c: char) { '0' <= c <= '9' }

  /** `\d+\.\d+` matches at position `j`: digits, a dot, and a digit. */
  predicate DottedNumberAt(s: string, j: nat) {
    exists k | j < k < |s| - 1 :: (forall m | j <= m < k :: IsDigit(s[m])) && s[k] == '.' && IsDigit(s[k + 1])
  }

  /** The user agent matches `<token>\d+\.\d+`, e.g. `Edg/120.0`. */
  predicate HasVersion(ua: string, token: string) {
    exists i | 0 <= i <= |ua| - |token| :: OccursAt(ua, token, i) && DottedNumberAt(ua, i + |token|)
  }

  datatype Browser = Edge | Chrome | Firefox | Safari | UnknownBrowser

  function BrowserName(b: Browser): string {
    match b
    case Edge => "Edge"
    case Chrome => "Chrome"
    case Firefox => "Firefox"
    case Safari => "Safari"
    case UnknownBrowser => "unknown"
  }

  /** `parseUserAgent().browser`: the first match in the order Edge, Chrome
      (when no `OPR/` token is present), Firefox, Safari. */
  function ParseUserAgent(ua: string): (b: Browser)
    ensures b == Edge <==> HasVersion(ua, "Edg/")
    ensures b == Chrome <==> !HasVersion(ua, "Edg/") && HasVersion(ua, "Chrome/") && !Contains(ua, "OPR/")
    ensures b == Firefox <==>
              && !HasVersion(ua, "Edg/") && (!HasVersion(ua, "Chrome/") || Contains(ua, "OPR/"))
              && HasVersion(ua, "Firefox/")
    ensures b == Safari <==>
              && !HasVersion(ua, "Edg/") && (!HasVersion(ua, "Chrome/") || Contains(ua, "OPR/"))
              && !HasVersion(ua, "Firefox/") && HasVersion(ua, "Safari/")
    ensures b == UnknownBrowser <==>
              && !HasVersion(ua, "Edg/") && !HasVersion(ua, "Firefox/") && !HasVersion(ua, "Safari/")
              && (!HasVersion(ua, "Chrome/") || Contains(ua, "OPR/"))
  {
    if HasVersion(ua, "Edg/") then Edge
    else if HasVersion(ua, "Chrome/") && !Contains(ua, "OPR/") then Chrome
    else if HasVersion(ua, "Firefox/") then Firefox
    else if HasVersion(ua, "Safari/") then Safari
    else UnknownBrowser
  }

  /** Every Chromium browser also reports `Chrome/` and `Safari/`: Edge wins
      over both, while Opera, whose `OPR/` token vetoes Chrome, is labelled
      Safari unless it also reports Firefox. */
  lemma BrowserPrecedence(ua: string)
    ensures HasVersion(ua, "Edg/") ==> ParseUserAgent(ua) == Edge
    ensures (!HasVersion(ua, "Edg/") && Contains(ua, "OPR/") && !HasVersion(ua, "Firefox/")
             && HasVersion(ua, "Safari/")) ==> ParseUserAgent(ua) == Safari
  {
  }

  // ---------------------------------------------------------------------------
  // Test id

  /** `input.value.trim() || (window.TEST_ID || '')`: the trimmed field value,
      or the page's test id when the field holds only white space. */
  function ActiveTestId(inputValue: string, windowTestId: Option<string>): (id: string)
    ensures Trim(inputValue) != "" ==> id == Trim(inputValue) && !IsJsSpace(id[0]) && !IsJsSpace(id[|id| - 1])
    ensures Trim(inputValue) == "" ==> id == windowTestId.GetOr("")
  {
    var typed := Trim(inputValue);
    if typed != "" then typed else windowTestId.GetOr("")
  }

  // ---------------------------------------------------------------------------
  // The payload

  /** The page-level settings the script reads once: `TP_SEND_VALUE_SAMPLE`
      (already resolved to a boolean) and `PWD_MANAGER` ("" when unset). */
  datatype Config = Config(sendValueSample: bool, passwordManager: string)

  datatype Scenario = Iframe | InDocument

  /** The payload fields that depend on the page, the field or the cycle. */
  datatype Report = Report(
    testId: string,
    trial: nat,
    scenario: Scenario,
    injectedBy: string,
    browser: string,
    passwordManager: string,
    fieldName: Option<string>,
    inputType: Option<string>,
    autocompleteAttr: Option<string>,
    hidden: bool,
    visibilityTechnique: Option<string>,
    domSelector: Option<string>,
    value: Option<string>,
    valueSample: Option<string>,
    referrer: string,
    csp: Option<string>,
    scriptOrigin: string)

  /** `s || null`. */
  function OrNull(s: string): (r: Option<string>)
    ensures r.None? <==> s == ""
    ensures r.Some? ==> r.value == s
  {
    if s == "" then None else Some(s)
  }

  predicate HasInjectedBy(node: Node) {
    node.dataInjectedBy.Some?
  }

  /** `injected_by`: the field's non-empty `data-provenance`, else the
      `data-injected-by` of the nearest element carrying one (even ""), else
      `static-html`. */
  function InjectedBy(p: Page, v: NodeId): (r: string)
    requires WellFormed(p) && v < |p.tree.nodes|
    ensures p.tree.nodes[v].dataProvenance.GetOr("") != "" ==> r == p.tree.nodes[v].dataProvenance.value
    ensures || r == p.tree.nodes[v].dataProvenance.GetOr("")
            || r == "static-html"
            || exists a: NodeId :: InclusiveElementAncestor(p.tree, a, v) && HasInjectedBy(p.tree.nodes[a])
                                   && r == p.tree.nodes[a].dataInjectedBy.value
  {
    var node := p.tree.nodes[v];
    if node.dataProvenance.Some? && node.dataProvenance.value != "" then node.dataProvenance.value
    else
      match Closest(p.tree, v, HasInjectedBy)
      case Some(c) => p.tree.nodes[c].dataInjectedBy.value
      case None => "static-html"
  }

  /** `dom_selector: simpleCssPath(f.node) || null`. */
  function DomSelector(p: Page, v: NodeId): Option<string>
    requires WellFormed(p) && v < |p.tree.nodes|
  {
    match CssPath(p.tree, v)
    case Some(s) => OrNull(s)
    case None => None
  }

  /** `dom_selector` is the element's CSS path, a missing or empty one being
      sent as null. */
  lemma DomSelectorPath(p: Page, v: NodeId)
    requires WellFormed(p) && v < |p.tree.nodes|
    ensures var r := DomSelector(p, v);
      && (r.Some? <==> CssPath(p.tree, v).Some? && CssPath(p.tree, v).value != "")
      && (r.Some? ==> Some(r.value) == CssPath(p.tree, v))
  {
  }

  /** The payload of one found field `f` in a cycle with test id `testId` and
      trial number `trial`, where `frameOf` holds the frame tags. */
  function BuildPayload(p: Page, cfg: Config, testId: string, trial: nat, browser: Browser,
                        f: Found, frameOf: map<NodeId, NodeId>): (r: Report)
    requires WellFormed(p) && f.node < |p.tree.nodes|
    ensures r.testId == testId && r.trial == trial && r.hidden == f.hidden
  {
    var sample := if cfg.sendValueSample then Some(RedactValue(Some(f.value))) else None;
    Report(
      testId,
      trial,
      if f.node in frameOf then Iframe else InDocument,
      InjectedBy(p, f.node),
      BrowserName(browser),
      if cfg.passwordManager != "" then cfg.passwordManager else "unknown",
      OrNull(f.name),
      if f.inputType.Some? then OrNull(f.inputType.value) else None,
      OrNull(f.autocomplete),
      f.hidden,
      OrNull(f.tech),
      DomSelector(p, f.node),
      sample,
      sample,
      if p.referrer != "" then p.referrer else p.location.href,
      if p.cspContent.Some? then OrNull(p.cspContent.value) else None,
      p.location.origin)
  }

  /** Every record of `found` is about a node of the page. */
  predicate NodesIn(p: Page, found: seq<Found>) {
    forall i :: 0 <= i < |found| ==> found[i].node < |p.tree.nodes|
  }

  /** The payloads of a cycle's records, in record order. */
  function Payloads(p: Page, cfg: Config, testId: string, trial: nat, browser: Browser,
                    found: seq<Found>, frameOf: map<NodeId, NodeId>): (r: seq<Report>)
    requires WellFormed(p) && NodesIn(p, found)
    ensures |r| == |found|
  {
    if |found| == 0 then []
    else
      Payloads(p, cfg, testId, trial, browser, found[..|found| - 1], frameOf)
        + [BuildPayload(p, cfg, testId, trial, browser, found[|found| - 1], frameOf)]
  }

  /** The `i`-th payload is the payload of the `i`-th record. */
  lemma {:induction false} PayloadsAt(p: Page, cfg: Config, testId: string, trial: nat, browser: Browser,
                                      found: seq<Found>, frameOf: map<NodeId, NodeId>, i: nat)
    requires WellFormed(p) && NodesIn(p, found) && i < |found|
    ensures Payloads(p, cfg, testId, trial, browser, found, frameOf)[i]
              == BuildPayload(p, cfg, testId, trial, browser, found[i], frameOf)
  {
    var front := found[..|found| - 1];
    if i < |front| {
      PayloadsFront(p, cfg, testId, trial, browser, found, frameOf, i);
      PayloadsAt(p, cfg, testId, trial, browser, front, frameOf, i);
    }
  }

  /** Below the last record, the payloads of `found` are those of its front. */
  lemma PayloadsFront(p: Page, cfg: Config, testId: string, trial: nat, browser: Browser,
                      found: seq<Found>, frameOf: map<NodeId, NodeId>, i: nat)
    requires WellFormed(p) && NodesIn(p, found) && i + 1 < |found|
    ensures NodesIn(p, found[..|found| - 1]) && found[i] == found[..|found| - 1][i]
    ensures Payloads(p, cfg, testId, trial, browser, found, frameOf)[i]
              == Payloads(p, cfg, testId, trial, browser, found[..|found| - 1], frameOf)[i]
  {
  }
  // ---------------------------------------------------------------------------
  // What a payload promises

  /** The value is sent only when sampling is on, and then both `value` and
      `value_sample` hold the first at most 200 characters of the field value. */
  lemma ValueSampleGate(p: Page, cfg: Config, testId: string, trial: nat, browser: Browser,
                        f: Found, frameOf: map<NodeId, NodeId>)
    requires WellFormed(p) && f.node < |p.tree.nodes|
    ensures var r := BuildPayload(p, cfg, testId, trial, browser, f, frameOf);
      && (r.value.Some? <==> cfg.sendValueSample)
      && r.valueSample == r.value
      && (r.value.Some? ==> |r.value.value| == Min(|f.value|, 200) && r.value.value == f.value[..|r.value.value|])
  {
  }

  /** Only a frame-tagged field is reported as `iframe`; a field found through a
      shadow root, and any other, is `in-document`. */
  lemma ScenarioOnlyFromFrameTag(p: Page, cfg: Config, testId: string, trial: nat, browser: Browser,
                                 f: Found, frameOf: map<NodeId, NodeId>)
    requires WellFormed(p) && f.node < |p.tree.nodes|
    ensures BuildPayload(p, cfg, testId, trial, browser, f, frameOf).scenario == Iframe <==> f.node in frameOf
  {
  }

  /** A classifier record always has a field name (`name || id || '?'` is never
      empty), so `field_name` is never null; and a technique tag that
      normalises to "" is reported as null. */
  lemma RecordFields(p: Page, v: NodeId, ctx: Context, cfg: Config, testId: string, trial: nat,
                     browser: Browser, frameOf: map<NodeId, NodeId>)
    requires WellFormed(p) && v < |p.tree.nodes|
    ensures var f := Describe(p, v, ctx);
      var r := BuildPayload(p, cfg, testId, trial, browser, f, frameOf);
      && r.fieldName.Some?
      && (r.visibilityTechnique.None? <==> f.tech == "")
  {
  }

  /** The field descriptors come from the record, an empty one becoming null. */
  lemma FieldDescriptors(p: Page, cfg: Config, testId: string, trial: nat, browser: Browser,
                         f: Found, frameOf: map<NodeId, NodeId>)
    requires WellFormed(p) && f.node < |p.tree.nodes|
    ensures var r := BuildPayload(p, cfg, testId, trial, browser, f, frameOf);
      && r.fieldName == (if f.name == "" then None else Some(f.name))
      && r.autocompleteAttr == (if f.autocomplete == "" then None else Some(f.autocomplete))
      && r.visibilityTechnique == (if f.tech == "" then None else Some(f.tech))
      && (r.inputType.Some? <==> f.inputType.Some? && f.inputType.value != "")
      && (r.inputType.Some? ==> r.inputType == f.inputType)
      && r.browser == BrowserName(browser) && r.scriptOrigin == p.location.origin
  {
  }

  /** The referrer falls back to the page URL, and the password-manager label
      to `unknown`. */
  lemma Fallbacks(p: Page, cfg: Config, testId: string, trial: nat, browser: Browser,
                  f: Found, frameOf: map<NodeId, NodeId>)
    requires WellFormed(p) && f.node < |p.tree.nodes|
    ensures var r := BuildPayload(p, cfg, testId, trial, browser, f, frameOf);
      && (p.referrer == "" ==> r.referrer == p.location.href)
      && (cfg.passwordManager == "" ==> r.passwordManager == "unknown")
      && r.passwordManager != ""
  {
  }

  /** The page-derived fields come from their sources: `injected_by` from the
      provenance rule, `dom_selector` from the element's CSS path, `csp` from
      the policy meta element (an empty one becoming null), and a non-empty
      referrer or password-manager label as given. */
  lemma ReportSources(p: Page, cfg: Config, testId: string, trial: nat, browser: Browser,
                      f: Found, frameOf: map<NodeId, NodeId>)
    requires WellFormed(p) && f.node < |p.tree.nodes|
    ensures var r := BuildPayload(p, cfg, testId, trial, browser, f, frameOf);
      && r.injectedBy == InjectedBy(p, f.node)
      && r.domSelector == DomSelector(p, f.node)
      && r.csp == (if p.cspContent.Some? && p.cspContent.value != "" then p.cspContent else None)
      && (p.referrer != "" ==> r.referrer == p.referrer)
      && (cfg.passwordManager != "" ==> r.passwordManager == cfg.passwordManager)
  {
  }

  /** `injected_by` prefers the field's own non-empty provenance; otherwise it
      is the `data-injected-by` value of an element around the field (the
      nearest), and `static-html` when no such element exists. */
  lemma InjectedByChoice(p: Page, v: NodeId)
    requires WellFormed(p) && v < |p.tree.nodes| && IsElement(p.tree, v)
    ensures p.tree.nodes[v].dataProvenance.GetOr("") != "" ==>
              InjectedBy(p, v) == p.tree.nodes[v].dataProvenance.value
    ensures p.tree.nodes[v].dataProvenance.GetOr("") == "" ==>
              if exists a: NodeId :: InclusiveElementAncestor(p.tree, a, v) && HasInjectedBy(p.tree.nodes[a])
              then exists a: NodeId :: InclusiveElementAncestor(p.tree, a, v) && HasInjectedBy(p.tree.nodes[a])
                                       && InjectedBy(p, v) == p.tree.nodes[a].dataInjectedBy.value
                                       && forall b: NodeId :: InclusiveElementAncestor(p.tree, b, v) && b > a ==>
                                                                !HasInjectedBy(p.tree.nodes[b])
              else InjectedBy(p, v) == "static-html"
  {
  }

  /** All payloads of one cycle carry the cycle's test id and trial number. */
  lemma EnvelopesShareTrial(p: Page, cfg: Config, testId: string, trial: nat, browser: Browser,
                            found: seq<Found>, frameOf: map<NodeId, NodeId>)
    requires WellFormed(p) && NodesIn(p, found)
    ensures var rs := Payloads(p, cfg, testId, trial, browser, found, frameOf);
      forall i :: 0 <= i < |rs| ==> rs[i].trial == trial && rs[i].testId == testId
  {
    var rs := Payloads(p, cfg, testId, trial, browser, found, frameOf);
    forall i | 0 <= i < |rs| ensures rs[i].trial == trial && rs[i].testId == testId {
      PayloadsAt(p, cfg, testId, trial, browser, found, frameOf, i);
    }
  }
}
