# Third-party autofill probe: a verified Dafny model

The modelled script is the detection-and-reporting pipeline of a
loopback-only test harness. The harness measures whether a browser's
credential autofill fills form fields that the page hides by some
concealment technique. On each scan cycle the script does the following:

- collects every `input[autocomplete]` of the page, of each same-origin
  frame and of each open shadow root on three known host tags;
- keeps the fields that look autofilled: a watched autocomplete token, a
  non-empty value, no keystroke in the last 2000 ms, not reported before;
- tags each field with a hidden flag, a normalised technique slug and a
  CSS path;
- marks it as reported, builds a report for it, and posts the report
  through a gate that only lets requests to the local collector
  `http://127.0.0.1:8088/collect` leave a loopback page;
- bumps a per-test-id trial counter once per non-empty cycle.

A scheduler runs cycles on a single `setInterval` while the enable box is
checked.

Modules, leaf first:

- `Util`: the JavaScript string helpers the script relies on: `toLowerCase`,
  `includes`, `startsWith`, `indexOf`, `join`, `trim`.
- `Technique`: `normalizeTechnique`, its four replacement steps and the
  slug shape.
- `Visibility`: `isHiddenEl` over one `Option<Measure>`, where `None` is a
  measurement that threw.
- `Dom`: the abstract page. Nodes are listed with parents first, and
  `Element.closest` works over that list. Frame documents, shadow roots
  and measurements are maps. `Distinct` states what the DOM guarantees of
  a real page: no document or root lists an element twice, and an element
  lives in only one of them.
- `Selector`: `simpleCssPath`, as a specification function and as the
  source's loop.
- `Traversal`: `collectAllInputs`, with the frame and shadow-host tags kept
  in side maps.
- `Classifier`: `findAutofilledInputs`, with the technique priority.
- `Transport`: `isLocalHost` and `safePostLocal`. The fetch outcome is an
  input.
- `Payload`: `redactValue`, `parseUserAgent`, the test id and the report
  record.
- `Scan`: the `Session` class. It holds the marks, the trial map, the
  provenance tags and the last-typing time. `exfiltrateOnce` is a method
  of it.
- `Scheduling`: the `Scheduler` class, with `startScanning`, `stopScanning`
  and the event handlers.

The model follows what the code does, including these behaviours, which a
reader might not expect (the fixture labels back the technique and
shadow-root points):

- Autocomplete tokens are matched as substrings. `cc-` may appear anywhere,
  not only as a prefix (`Classifier.WatchedAnywhere`).
- The trial counter rises once per non-empty cycle, not once per field.
- Technique tags are free-form slugs, not a closed vocabulary. The
  fixtures' `opacity:0` is reported as `opacity-0`.
- A field found through a shadow root is reported with scenario
  `in-document`.
- The path walk stops only at the top document's `<html>`. A frame
  document's own `<html>` can appear in a path.
- Hiding the page stops scanning, and nothing restarts it on return. A
  later interval change restarts scanning whenever the box is still
  checked, even after such a stop.
- Opera's `OPR/` token vetoes the Chrome label, so an Opera user agent is
  labelled Safari (`Payload.BrowserPrecedence`).

## Model

| member | source | states |
|---|---|---|
| Technique.NormalizeTechnique | login/js/thirdparty_poc_controls.js:163-170 | an empty label gives `unknown`; every result uses only `a-z`, `0-9`, `-`, `(`, `)`, has no `--` and no `-` at either end |
| Technique.KeepSlugChars | login/js/thirdparty_poc_controls.js:167 | the result uses only slug characters, each taken from the input, and is no longer than the input; a single character is kept exactly when it is a slug character and dropped otherwise |
| Technique.KeepSlugCharsAppend | login/js/thirdparty_poc_controls.js:167 | filtering works character by character: filtering `a + b` is filtering `a` followed by filtering `b`, so the kept characters stay in input order |
| Technique.CollapseDashesNoDouble | login/js/thirdparty_poc_controls.js:168 | after collapsing dash runs no `--` remains |
| Technique.ReplaceRuns | login/js/thirdparty_poc_controls.js:166-168 | every output character is either `-` or an input character outside the replaced class, and the output is no longer than the input; the value itself is fixed by the next two rows |
| Technique.ReplaceRunsAfterRun | login/js/thirdparty_poc_controls.js:166-168 | a maximal run of the class at the front becomes exactly one `-` |
| Technique.ReplaceRunsAfterPlainPrefix | login/js/thirdparty_poc_controls.js:166-168 | characters outside the class pass through unchanged and in order |
| Technique.TrimDashes | login/js/thirdparty_poc_controls.js:169 | the result is a slice of the input with no `-` at either end, and everything cut off on either side is `-` |
| Technique.NormalizeFixedPoints | login/js/thirdparty_poc_controls.js:163-170 | a non-empty string is left unchanged by the normaliser exactly when it is already a slug |
| Technique.NormalizeIdempotent | login/js/thirdparty_poc_controls.js:163-170 | normalising a non-empty tag again changes nothing |
| Technique.SeparatorRunBecomesDash | login/js/thirdparty_poc_controls.js:166-168 | between two slug words any non-empty run of `:`, `/`, `,`, `+` and white space becomes exactly one `-` |
| Technique.NormalizeOpacityZero | login/js/thirdparty_poc_controls.js:163-170 | `opacity:0` normalises to `opacity-0` |
| Technique.NormalizeDisplayNone | login/js/thirdparty_poc_controls.js:163-170 | `display:none` normalises to `display-none` |
| Visibility.IsHidden | login/js/thirdparty_poc_controls.js:146-160 | a measurement that threw is not hidden; otherwise hidden exactly when one of the nine reasons applies (hidden visibility, zero opacity, display none, zero width, zero height, no offset parent, no client rects, left < -1000, top < -1000) |
| Visibility.HiddenScenarios | login/js/thirdparty_poc_controls.js:146-160 | a box with zero area is hidden; positive area with default style is not; zero opacity hides a box of positive area |
| Dom.Closest | login/js/thirdparty_poc_controls.js:219 | the result is a matching inclusive element ancestor and no nearer one matches; `None` only when none matches |
| Selector.Chain | login/js/thirdparty_poc_controls.js:115-138 | the levels visited are elements, and there are none exactly when the start node stops the walk |
| Selector.ChainShape | login/js/thirdparty_poc_controls.js:115-138 | the levels form an unbroken parent chain ending at the element; the top `<html>` is never among them; only the outermost level may have an id; the walk ends at the first id, a missing parent, a non-element or the top `<html>` |
| Selector.NthChild | login/js/thirdparty_poc_controls.js:127-134 | a position suffix appears only for an element with a parent, and then it is `:nth-child(k+1)` where `k` is the element's first index among all of the parent's children |
| Selector.CssPath | login/js/thirdparty_poc_controls.js:111-140 | null exactly for a document node and for a start node that stops the walk (no parts) |
| Selector.IdTerminatesPath | login/js/thirdparty_poc_controls.js:117-120 | an element with an id is named by `tag#id` alone |
| Selector.PathExtendsParent | login/js/thirdparty_poc_controls.js:121-137 | below an id-less element the path is the parent's path, ` > `, then the element's own part; at the top of the walk it is that part alone |
| Selector.HtmlNeverInPath | login/js/thirdparty_poc_controls.js:115 | the top document's `<html>` is never a level of a path |
| Selector.QualifierShape | login/js/thirdparty_poc_controls.js:122-125 | the qualifier is `[name="…"]` for a named element; otherwise `.c1` or `.c1.c2` from the first one or two classes; empty when there is neither |
| Selector.PartShape | login/js/thirdparty_poc_controls.js:116-135 | a level's part starts with the lower-cased tag; with an id it is `tag#id` and nothing else; otherwise the tag, the qualifier and the position suffix |
| Selector.SimpleCssPath | login/js/thirdparty_poc_controls.js:111-140 | the loop's result equals the specification `CssPath` |
| Traversal.AllInputs | login/js/thirdparty_poc_controls.js:173-198 | everything collected is an `input` with an autocomplete attribute, and the list is exactly as long as the top document's, the frames' and the shadow roots' inputs together (which inputs, and in what order, is in `CollectedExactly` and `Scan.FoundInCollectionOrder`) |
| Traversal.QueryAllHolds | login/js/thirdparty_poc_controls.js:175 | a query result holds exactly the matching elements of its scope |
| Traversal.InnerInputsHolds | login/js/thirdparty_poc_controls.js:177-196 | an input comes from the containers exactly when one of them holds it |
| Traversal.CollectedExactly | login/js/thirdparty_poc_controls.js:173-198 | an element is collected exactly when it is a matching input of the top document, of a readable frame document, or of an open shadow root on a known host tag |
| Traversal.AllInputsNoDup | login/js/thirdparty_poc_controls.js:175-196 | on a page with the DOM's distinctness no input is collected twice: `querySelectorAll` repeats no element, each frame and host is visited once, and the top document, frame documents and shadow roots share no element |
| Traversal.UnreadableContainerSkipped | login/js/thirdparty_poc_controls.js:178-195 | a frame or host whose document or root throws or is null adds no input and no tag |
| Traversal.TagAt | login/js/thirdparty_poc_controls.js:182-193 | an element is tagged exactly when it was tagged before or a container holds it; the tag names a container that holds it; other tags are kept |
| Traversal.TagEach | login/js/thirdparty_poc_controls.js:182 | every input of the list is tagged with the container, other tags are kept |
| Traversal.CollectFrom | login/js/thirdparty_poc_controls.js:177-196 | the container loop returns exactly the inputs and tags of the specification |
| Classifier.WatchedAnywhere | login/js/thirdparty_poc_controls.js:207 | a watched token counts wherever it occurs in the attribute |
| Classifier.RawTechnique | login/js/thirdparty_poc_controls.js:214-221 | the raw technique is never empty and is the field's tag, `iframe`, `shadow-dom`, `in-document` or the tag of an enclosing element |
| Classifier.TechniquePriority | login/js/thirdparty_poc_controls.js:214-221 | the field's own non-empty `data-tech` wins, then the frame tag (`iframe`), then the host tag (`shadow-dom`); an empty own `data-tech` yields `in-document` |
| Classifier.NoCardInDocument | login/js/thirdparty_poc_controls.js:219-220 | an untagged field outside frames and shadow roots with no card or `data-tech` element around it gets `in-document` |
| Classifier.NearestCardWithoutTech | login/js/thirdparty_poc_controls.js:219-220 | when the nearest card around such a field has no `data-tech`, the field gets `in-document` |
| Classifier.Describe | login/js/thirdparty_poc_controls.js:212-231 | the record names the field by `name`, else `id`, else `?` (never empty); it keeps the field's value and autocomplete token; its hidden flag is the visibility verdict of the field's measurement; its technique is the normalised raw technique, hence a slug; its input type is present exactly when the field has one, and is then that type |
| Classifier.Classify | login/js/thirdparty_poc_controls.js:201-235 | never more records than inputs; its soundness, completeness and order are the rows below |
| Classifier.CardTechnique | login/js/thirdparty_poc_controls.js:218-221 | an untagged field outside frames and shadow roots takes the tag of its nearest card |
| Classifier.ClassifySound | login/js/thirdparty_poc_controls.js:201-235 | every record is about a collected input with a watched token, a non-empty value, outside the grace window and unmarked, and carries that input's description |
| Classifier.ClassifyComplete | login/js/thirdparty_poc_controls.js:201-235 | every collected input passing the four filters is reported |
| Classifier.ReportedExactly | login/js/thirdparty_poc_controls.js:201-235 | an input is reported exactly when it is collected and passes the four filters |
| Classifier.ClassifyAppend | login/js/thirdparty_poc_controls.js:204-233 | the records keep input order: classifying `a + b` gives the records of `a` followed by those of `b` |
| Classifier.ClassifyOneRecordEach | login/js/thirdparty_poc_controls.js:204-233 | inputs listed once give at most one record per element |
| Classifier.NoCandidateNoRecord | login/js/thirdparty_poc_controls.js:204-233 | inputs of which none passes the filters yield no record |
| Classifier.GraceSuppressesAll | login/js/thirdparty_poc_controls.js:210 | fewer than 2000 ms after the last input event nothing is reported |
| Classifier.RescanAfterMarking | login/js/thirdparty_poc_controls.js:211 | once every reported element is marked, classifying the same inputs again at the same time yields nothing |
| Classifier.ClassifyInputs | login/js/thirdparty_poc_controls.js:204-233 | the classifier loop returns exactly the specification `Classify` |
| Transport.SafePostLocal | login/js/thirdparty_poc_controls.js:239-258 | a fetch happens exactly when the host is loopback and the URL starts with the collector; `ok` only after a fetch |
| Transport.GateOrder | login/js/thirdparty_poc_controls.js:240-241 | `blocked-host` exactly off the loopback host, whatever the URL; `bad-url` exactly on the loopback host for a URL outside the collector |
| Transport.SendOutcome | login/js/thirdparty_poc_controls.js:244-257 | past the gate, `ok` exactly for a 2xx answer, the answer's own status for any response, `network-error` exactly when the fetch throws |
| Transport.RejectionIgnoresNetwork | login/js/thirdparty_poc_controls.js:240-241 | a rejected request's answer does not depend on the network |
| Transport.CollectorPassesGate | login/js/thirdparty_poc_controls.js:316 | the scanner's own posts to the collector always pass the gate on the loopback host |
| Transport.PostsAt | login/js/thirdparty_poc_controls.js:275-317 | the k-th answer of a cycle is the gate's answer for the k-th fetch |
| Payload.RedactValue | login/js/thirdparty_poc_controls.js:260-263 | null gives ""; any other value gives its prefix of length min(length, 200) |
| Payload.RedactIdempotent | login/js/thirdparty_poc_controls.js:260-263 | truncating twice is truncating once; values of at most 200 characters pass unchanged |
| Payload.ParseUserAgent | login/js/thirdparty_poc_controls.js:100-108 | each of the five labels is characterised exactly: Edge when `Edg/x.y` is present; Chrome when not Edge, `Chrome/x.y` present and no `OPR/`; Firefox when neither of those and `Firefox/x.y` is present; Safari when none of those and `Safari/x.y` is present; unknown when no rule fires |
| Payload.BrowserPrecedence | login/js/thirdparty_poc_controls.js:103-106 | Edge beats every other rule; an Opera agent without Firefox is labelled Safari |
| Payload.ActiveTestId | login/js/thirdparty_poc_controls.js:270 | the trimmed box value when that is non-empty (with no white space at either end), else the page's `TEST_ID` or "" |
| Payload.ValueSampleGate | login/js/thirdparty_poc_controls.js:304-305 | `value` is present exactly when sampling is on, `value_sample` equals it, and it is the field value's prefix of at most 200 characters |
| Payload.ScenarioOnlyFromFrameTag | login/js/thirdparty_poc_controls.js:290 | the scenario is `iframe` exactly for a frame-tagged field, so shadow-root fields are `in-document` |
| Payload.RecordFields | login/js/thirdparty_poc_controls.js:224-300 | `field_name` is never null; the technique is null exactly when the slug is empty |
| Payload.Fallbacks | login/js/thirdparty_poc_controls.js:295-307 | an empty referrer falls back to the page URL; the password-manager label falls back to `unknown` and is never empty |
| Payload.InjectedBy | login/js/thirdparty_poc_controls.js:291-293 | a non-empty provenance is returned as is; any result is the provenance, `static-html`, or the `data-injected-by` of an enclosing element that carries one |
| Payload.InjectedByChoice | login/js/thirdparty_poc_controls.js:291-293 | the field's non-empty provenance wins; else the `data-injected-by` of the nearest enclosing element that carries one; else `static-html` |
| Payload.DomSelectorPath | login/js/thirdparty_poc_controls.js:301 | `dom_selector` is present exactly when the CSS path exists and is non-empty, and then it is that path |
| Payload.ReportSources | login/js/thirdparty_poc_controls.js:291-308 | `injected_by` is the provenance rule's value; `dom_selector` is the CSS-path value; `csp` is the policy meta element's content, empty or missing becoming null; a non-empty referrer and a non-empty password-manager label are sent as given |
| Payload.BuildPayload | login/js/thirdparty_poc_controls.js:285-313 | a report carries the cycle's test id and trial and the field's hidden flag; its other fields are stated by the `ValueSampleGate`, `ScenarioOnlyFromFrameTag`, `FieldDescriptors`, `ReportSources` and `Fallbacks` rows |
| Payload.FieldDescriptors | login/js/thirdparty_poc_controls.js:296-300 | `field_name`, `autocomplete_attr` and `visibility_technique` are null exactly when the record's `name`, `autocomplete` or `tech` entry is empty, and that entry otherwise; `input_type` is present exactly for a non-empty type; the browser label and script origin are those of the page |
| Payload.PayloadsAt | login/js/thirdparty_poc_controls.js:275-317 | the i-th report of a cycle is the report built for the i-th found field |
| Payload.EnvelopesShareTrial | login/js/thirdparty_poc_controls.js:288-289 | every report of a cycle carries the cycle's test id and trial number |
| Scan.NextTrial | login/js/thirdparty_poc_controls.js:271-273 | the new trial is 1 for an unseen test id and one more than the stored count otherwise |
| Scan.BumpOnlyOwnId | login/js/thirdparty_poc_controls.js:272 | a cycle's bump leaves every other test id's count as it was |
| Scan.Session.constructor | login/js/thirdparty_poc_controls.js:143 | load state: nothing typed (time 0), no trials, no tags, only pre-existing marks |
| Scan.Session.OnUserInput | login/js/thirdparty_poc_controls.js:144 | an input event records the time and changes nothing else |
| Scan.Session.CollectAllInputs | login/js/thirdparty_poc_controls.js:173-198 | returns exactly the specification's collected inputs and leaves exactly the specification's tags |
| Scan.Session.FindAutofilledInputs | login/js/thirdparty_poc_controls.js:201-235 | returns the classification of the collected inputs under the tags collection just left, changing only the tags |
| Scan.Session.SendAll | login/js/thirdparty_poc_controls.js:275-317 | every found field is marked whatever the send outcome; the reports and answers are those of the found fields, in found order |
| Scan.Session.ExfiltrateOnce | login/js/thirdparty_poc_controls.js:265-318 | an empty scan leaves the trials unchanged; otherwise the active test id's count rises by exactly one and every report carries it; all found fields are marked; reports and answers follow found order |
| Scan.SecondCycleFindsNothing | login/js/thirdparty_poc_controls.js:211-276 | a cycle following another at the same time with no typing in between finds nothing |
| Scan.OneRecordPerField | login/js/thirdparty_poc_controls.js:173-235 | within one cycle a field is found at most once, so a cycle posts at most one report per field; later cycles skip it because it is then marked (`ClassifySound`, `SecondCycleFindsNothing`) |
| Scan.FoundInCollectionOrder | login/js/thirdparty_poc_controls.js:173-235 | the found fields are those of the top document, then those of the frames, then those of the shadow roots |
| Scheduling.Scheduler.constructor | login/js/thirdparty_poc_controls.js:80-82 | scanning starts on load exactly when it is enabled by default |
| Scheduling.Scheduler.StopScanning | login/js/thirdparty_poc_controls.js:329-331 | afterwards no interval runs; with no timer nothing changes |
| Scheduling.Scheduler.StartScanning | login/js/thirdparty_poc_controls.js:321-328 | afterwards exactly one interval runs: the new one, at the given period |
| Scheduling.Scheduler.Tick | login/js/thirdparty_poc_controls.js:323-326 | a tick scans exactly when its interval is live and the box is checked at tick time |
| Scheduling.Scheduler.OnEnableChange | login/js/thirdparty_poc_controls.js:339-341 | checking starts one fresh interval at the selected period, using up one handle; unchecking leaves none and issues no handle |
| Scheduling.Scheduler.OnIntervalChange | login/js/thirdparty_poc_controls.js:342-344 | a new period restarts scanning with one fresh handle only while the box is checked, and otherwise changes nothing |
| Scheduling.Scheduler.OnVisibilityChange | login/js/thirdparty_poc_controls.js:347 | hiding the page leaves no interval and issues no handle; showing it changes nothing |
| Scheduling.AtMostOneInterval | login/js/thirdparty_poc_controls.js:320-331 | at most one interval runs, and it is the one `timer` holds |

## Left out

- The control panel, the log surface and `log`, `updateTestIdLabel`, the
  element builder `h` and the mount (lines 25-97). The mount's one decision
  is kept: scanning starts on load when enabled by default.
- The real `fetch`, `res.text()`, `JSON.stringify` and `keepalive`. A send
  is an abstract outcome: an HTTP status, or a throw. The response body
  text and the log lines are not modelled.
- The `timestamp_utc` and `local_ts` fields. They depend on the clock and
  on the time-zone database.
- `iframe_origin`. It needs a URL parser.
- The constant report fields (`autofill_triggered`, `detected_by_poc`,
  `exfil_method`, `injection_time_ms`, `user_interaction_required`) and the
  `{ payload }` envelope wrapper.
- Opacity parsing. The measurement records only whether `parseFloat` of the
  opacity is zero.
- Interleaving of overlapping cycles on the host event loop. Each cycle is
  one atomic method. The stale-state race between two cycles is therefore
  not represented.
- Classifier.ClassifyInputs: the clock is read once per cycle, while the
  source calls `Date.now()` again for every input.
- Classifier.ClassifyInputs: only the measurement can throw. The per-input
  `try` of the source, which would silently skip an input whose attribute
  reads throw, has no effect here.
- Scan.Session.SendAll: marking a field always succeeds. The source's
  `try` around `dataset.exfiltrated = '1'` can swallow a failure.
- Util.Lower: lower-casing covers ASCII letters only. JavaScript's
  `toLowerCase` is full Unicode.
- `parseInt` of the interval selector's value. The handlers take the
  parsed period as an integer parameter.
- Interval handles are natural numbers issued in increasing order by the
  host. The host's own timing of ticks is not modelled.
- Payload.RedactValue: lengths count code points, not UTF-16 code units.
  A string with characters outside the Basic Multilingual Plane is cut at
  a different place by the source's `slice(0, 200)`.
- Scan.NextTrial: the trial store is a clean map. The source's
  `window._POC_TRIALS` is a plain object, so a test id that names an
  inherited property (`constructor`, `toString`, `__proto__`) does not
  start at 1, and a pre-existing global of that name is reused as is.
- login/js/thirdparty_sameorigin.js is not part of this model. It is a
  fixture generator that only builds the labelled demo cards.
