/** The scan cycle (`exfiltrateOnce`) and the state the script keeps between
    cycles: the elements it has marked `data-exfiltrated="1"`, the per-test-id
    trial counters of `window._POC_TRIALS`, the frame and shadow-host tags it
    has attached to elements, and the time of the last `input` event. */
module Scan {
  import opened Util
  import opened Dom
  import opened Traversal
  import opened Classifier
  import opened Transport
  import opened Payload

  /** `(window._POC_TRIALS[testId] || 0) + 1`. */
  function NextTrial(trials: map<string, nat>, testId: string): (n: nat)
    ensures n >= 1
    ensures testId !in trials ==> n == 1
    ensures testId in trials ==> n == trials[testId] + 1
  {
    (if testId in trials then trials[testId] else 0) + 1
  }

  /** A cycle's trial bump touches only its own test id. */
  lemma BumpOnlyOwnId(trials: map<string, nat>, testId: string, other: string)
    requires other != testId
    ensures var after := trials[testId := NextTrial(trials, testId)];
      (other in after <==> other in trials) && (other in trials ==> after[other] == trials[other])
  {
  }

  class Session {
    var marked: set<NodeId>
    var trials: map<string, nat>
    var frameOf: map<NodeId, NodeId>
    var hostOf: map<NodeId, NodeId>
    var lastUserTypeAt: int

    /** The script's state on load: `premarked` are the elements that already
        carry `data-exfiltrated="1"`. */
    constructor(premarked: set<NodeId>)
      ensures marked == premarked && trials == map[]
      ensures frameOf == map[] && hostOf == map[] && lastUserTypeAt == 0
    {
      marked := premarked;
      trials := map[];
      frameOf := map[];
      hostOf := map[];
      lastUserTypeAt := 0;
    }

    /** What the classifier sees at time `now`. */
    function ContextAt(now: int): Context
      reads this
    {
      Context(now, lastUserTypeAt, marked, frameOf, hostOf)
    }

    /** The capturing `input` listener: `lastUserTypeAt = Date.now()`. */
    method OnUserInput(now: int)
      modifies this
      ensures lastUserTypeAt == now
      ensures marked == old(marked) && trials == old(trials)
      ensures frameOf == old(frameOf) && hostOf == old(hostOf)
    {
      lastUserTypeAt := now;
    }

    /** `collectAllInputs()`: the collected inputs, and the frame and
        shadow-host tags of the inputs found inside containers. */
    method CollectAllInputs(p: Page) returns (out: seq<NodeId>)
      requires WellFormed(p)
      modifies this
      ensures out == AllInputs(p)
      ensures frameOf == Tag(p, Frame, Containers(p, Frame), old(frameOf))
      ensures hostOf == Tag(p, Host, Containers(p, Host), old(hostOf))
      ensures marked == old(marked) && trials == old(trials) && lastUserTypeAt == old(lastUserTypeAt)
    {
      out := QueryAll(p.tree, AutocompleteInputs, p.docElements);
      var fromFrames, fromHosts;
      fromFrames, frameOf := CollectFrom(p, Frame, Containers(p, Frame), frameOf);
      out := out + fromFrames;
      fromHosts, hostOf := CollectFrom(p, Host, Containers(p, Host), hostOf);
      out := out + fromHosts;
    }

    /** `findAutofilledInputs()` at time `now`: collect, then classify with the
        tags collection has just left. */
    method FindAutofilledInputs(p: Page, now: int) returns (found: seq<Found>)
      requires WellFormed(p)
      modifies this
      ensures frameOf == Tag(p, Frame, Containers(p, Frame), old(frameOf))
      ensures hostOf == Tag(p, Host, Containers(p, Host), old(hostOf))
      ensures marked == old(marked) && trials == old(trials) && lastUserTypeAt == old(lastUserTypeAt)
      ensures AllIn(p.tree, AllInputs(p))
      ensures found == Classify(p, AllInputs(p), ContextAt(now))
    {
      var inputs := CollectAllInputs(p);
      AllInputsIn(p);
      found := ClassifyInputs(p, inputs, ContextAt(now));
    }

    /** The send loop of `exfiltrateOnce()`: for each found field in order,
        mark it `data-exfiltrated="1"`, build its payload and post it to `url`. */
    method SendAll(p: Page, cfg: Config, testId: string, trial: nat, browser: Browser,
                   found: seq<Found>, url: string, network: nat -> FetchOutcome)
      returns (reports: seq<Report>, results: seq<PostResult>)
      requires WellFormed(p) && NodesIn(p, found)
      modifies this
      ensures marked == old(marked) + ReportedNodes(found)
      ensures trials == old(trials) && frameOf == old(frameOf) && hostOf == old(hostOf)
      ensures lastUserTypeAt == old(lastUserTypeAt)
      ensures reports == Payloads(p, cfg, testId, trial, browser, found, frameOf)
      ensures results == Posts(p.location.hostname, url, network, |found|)
    {
      reports, results := [], [];
      for i := 0 to |found|
        invariant marked == old(marked) + ReportedNodes(found[..i])
        invariant trials == old(trials) && frameOf == old(frameOf) && hostOf == old(hostOf)
        invariant lastUserTypeAt == old(lastUserTypeAt)
        invariant reports == Payloads(p, cfg, testId, trial, browser, found[..i], frameOf)
        invariant results == Posts(p.location.hostname, url, network, i)
      {
        var f := found[i];
        ReportedNodesSnoc(found, i);
        assert found[..i + 1][..i] == found[..i];
        marked := marked + {f.node};
        var report := BuildPayload(p, cfg, testId, trial, browser, f, frameOf);
        var result := SafePostLocal(p.location.hostname, url, network(i));
        reports := reports + [report];
        results := results + [result];
      }
      assert found[..|found|] == found;
    }

    /** `exfiltrateOnce()`: find the autofilled fields; if there are none, stop.
        Otherwise bump the trial counter of the active test id once, then send
        every field in order to the collector. `network(k)` is the outcome of
        the `k`-th fetch; `reports` and `results` are what was sent and what
        the gate answered, in sending order. */
    method ExfiltrateOnce(p: Page, cfg: Config, now: int, testIdInput: string,
                          windowTestId: Option<string>, network: nat -> FetchOutcome)
      returns (found: seq<Found>, reports: seq<Report>, results: seq<PostResult>)
      requires WellFormed(p)
      modifies this
      ensures AllIn(p.tree, AllInputs(p))
      ensures frameOf == Tag(p, Frame, Containers(p, Frame), old(frameOf))
      ensures hostOf == Tag(p, Host, Containers(p, Host), old(hostOf))
      ensures lastUserTypeAt == old(lastUserTypeAt)
      ensures found == Classify(p, AllInputs(p), Context(now, old(lastUserTypeAt), old(marked), frameOf, hostOf))
      ensures NodesIn(p, found)
      ensures found == [] ==> trials == old(trials)
      ensures found != [] ==>
                trials == old(trials)[ActiveTestId(testIdInput, windowTestId) :=
                                        NextTrial(old(trials), ActiveTestId(testIdInput, windowTestId))]
      ensures marked == old(marked) + ReportedNodes(found)
      ensures reports == Payloads(p, cfg, ActiveTestId(testIdInput, windowTestId),
                                  NextTrial(old(trials), ActiveTestId(testIdInput, windowTestId)),
                                  ParseUserAgent(p.userAgent), found, frameOf)
      ensures results == Posts(p.location.hostname, LocalCollector, network, |found|)
    {
      found := FindAutofilledInputs(p, now);
      ClassifiedNodesIn(p, AllInputs(p), ContextAt(now));
      if |found| == 0 {
        reports, results := [], [];
        return;
      }
      var browser := ParseUserAgent(p.userAgent);
      var testId := ActiveTestId(testIdInput, windowTestId);
      var trial := NextTrial(trials, testId);
      trials := trials[testId := trial];
      reports, results := SendAll(p, cfg, testId, trial, browser, found, LocalCollector, network);
    }
  }

  /** Every collected input is a node of the tree. */
  lemma AllInputsIn(p: Page)
    requires WellFormed(p)
    ensures AllIn(p.tree, AllInputs(p))
  {
    var all := AllInputs(p);
    forall i | 0 <= i < |all| ensures all[i] < |p.tree.nodes| {
      assert Matches(p.tree, AutocompleteInputs, all[i]);
    }
  }

  /** Within one cycle no field is found twice: on a page with the DOM's
      distinctness, the classification of the collected inputs has at most one
      record per element, and a cycle posts one report per record. */
  lemma OneRecordPerField(p: Page, ctx: Context)
    requires WellFormed(p) && Distinct(p)
    ensures AllIn(p.tree, AllInputs(p))
    ensures OneRecordEach(Classify(p, AllInputs(p), ctx))
  {
    AllInputsIn(p);
    AllInputsNoDup(p);
    ClassifyOneRecordEach(p, AllInputs(p), ctx);
  }

  /** Nothing is sent twice: a cycle that follows another on the same page,
      with no typing in between and the clock unchanged, finds nothing, since
      the first cycle marked every field it reported. */
  lemma SecondCycleFindsNothing(p: Page, now: int, typedAt: int, marked: set<NodeId>,
                                tags1: map<NodeId, NodeId>, hosts1: map<NodeId, NodeId>,
                                tags2: map<NodeId, NodeId>, hosts2: map<NodeId, NodeId>)
    requires WellFormed(p)
    ensures AllIn(p.tree, AllInputs(p))
    ensures var first := Classify(p, AllInputs(p), Context(now, typedAt, marked, tags1, hosts1));
      Classify(p, AllInputs(p), Context(now, typedAt, marked + ReportedNodes(first), tags2, hosts2)) == []
  {
    AllInputsIn(p);
    var ctx := Context(now, typedAt, marked, tags1, hosts1);
    var first := Classify(p, AllInputs(p), ctx);
    RescanAfterMarking(p, AllInputs(p), ctx, Context(now, typedAt, marked + ReportedNodes(first), tags2, hosts2));
  }

  /** Every input of a query result is a node of the tree. */
  lemma QueryAllIn(t: Tree, q: Query, els: seq<NodeId>)
    ensures AllIn(t, QueryAll(t, q, els))
  {
    var r := QueryAll(t, q, els);
    forall i | 0 <= i < |r| ensures r[i] < |t.nodes| {
      QueryAllHolds(t, q, els, r[i]);
    }
  }

  lemma InnerInputsIn(p: Page, kind: Container, xs: seq<NodeId>)
    requires WellFormed(p)
    ensures AllIn(p.tree, InnerInputs(p, kind, xs))
  {
    var r := InnerInputs(p, kind, xs);
    forall i | 0 <= i < |r| ensures r[i] < |p.tree.nodes| {
      InnerInputsMatch(p, kind, xs, r[i]);
    }
  }

  /** The found fields keep collection order: first the records of the top
      document's inputs, then those of the frame documents' inputs, then those
      of the shadow roots' inputs. */
  lemma FoundInCollectionOrder(p: Page, ctx: Context)
    requires WellFormed(p)
    ensures AllIn(p.tree, AllInputs(p))
    ensures var doc := QueryAll(p.tree, AutocompleteInputs, p.docElements);
      var frames := InnerInputs(p, Frame, Containers(p, Frame));
      var hosts := InnerInputs(p, Host, Containers(p, Host));
      && AllIn(p.tree, doc) && AllIn(p.tree, frames) && AllIn(p.tree, hosts)
      && Classify(p, AllInputs(p), ctx) == Classify(p, doc, ctx) + Classify(p, frames, ctx) + Classify(p, hosts, ctx)
  {
    var doc := QueryAll(p.tree, AutocompleteInputs, p.docElements);
    var frames := InnerInputs(p, Frame, Containers(p, Frame));
    var hosts := InnerInputs(p, Host, Containers(p, Host));
    QueryAllIn(p.tree, AutocompleteInputs, p.docElements);
    InnerInputsIn(p, Frame, Containers(p, Frame));
    InnerInputsIn(p, Host, Containers(p, Host));
    ClassifyAppend(p, doc, frames, ctx);
    ClassifyAppend(p, doc + frames, hosts, ctx);
  }
}
