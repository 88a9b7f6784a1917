# NSFW detector core and visit history, modelled in Dafny

This project models the two pieces of self-contained logic in the browser
extension:

* **`NSFWDetector`** (`Browsers/nsfw-detector.js`). It turns the classifier's five-score vector
  into labelled predictions: a stable sort by descending probability, then a
  truncation to `topK`. It applies the flagging rule: the top class is one of Porn,
  Hentai or Sexy, and its score reaches the threshold, inclusively. It also covers the
  load lifecycle over `(model, isLoading, isLoaded)` with `loadModel`,
  `isModelReady`, the guard in `classifyImage`, and `dispose`. Finally it covers the image
  selection and counting loop of `analyzePageImages`.
* **The background worker's visit log** (`Browsers/background.js`). Each domain keeps a
  FIFO of its last ten visits (`storeVisitInfo`). A domain never written reads as
  empty (`getVisitHistory`). `clearVisitHistory` empties the store. The `tabs.onUpdated` filter
  and the message dispatch are modelled too.

Modules:

| file | module | models |
|---|---|---|
| `outcomes.dfy` | `Outcomes` | `Option` (null/undefined), `Result` (return or throw) |
| `numbers.dfy` | `Numbers` | `Min`/`Max` for lengths and `slice` bounds |
| `ranking.dfy` | `Ranking` | class table, `Prediction`, stable insertion sort, `getTopPredictions`, first-maximum reference |
| `detector.dfy` | `Detector` | detector state machine, `classifyImage`, `isImageNSFW` threshold rule |
| `page_scan.dfy` | `PageScan` | `analyzePageImages` selection loop and counting |
| `visit_history.dfy` | `VisitHistory` | `storeVisitInfo`, `getVisitHistory`, `clearVisitHistory`, `onUpdated`, `onMessage` |

Some things are passed in as parameters rather than modelled:

* The ML runtime (preprocessing, `model.predict`, `logits.data()`) is the
  function `infer: (Handle, Image) -> Result<seq<real>, string>`. A `Failure`
  stands for a runtime exception.
* The result of `tf.loadLayersModel` is the argument `fetched`.
* The page's `<img>` list is the sequence `images`.
* `new URL(url).hostname` is the function `hostname`. It returns `None` where the
  constructor throws.
* `Date.now()` is the integer `now`.

Probabilities are `real`. The code only compares them.

Three behaviours of the code are easy to misread. The model follows the code each time:

* `dispose()` is not a reset to a fresh detector. It acts only when a model is
  present, and it leaves `isLoading` as it was. The force-reload path
  (`Browsers/content-simple.js:156-180`) calls `dispose()` and then sets
  `window.nsfwDetector` to `null`. Its reinitialisation goes through
  `loadNSFWDetector`, whose guard `typeof window.nsfwDetector !== "undefined"`
  (line 96) holds for `null`, so no new detector is injected. Nothing in the
  code returns a detector to the unloaded state. `Detector.Dispose` models
  `dispose()` itself.
* The ranking is non-increasing, not strictly descending. The code sorts with a
  stable sort, so tied scores keep class-table order.
  `Ranking.SortIsStable` and `Ranking.GetTopPredictions` state that.
* A second `loadModel()` does not wait for a load already in flight. It
  resolves at once and does nothing. So an `analyzePageImages` that
  starts during a load analyses no images. `Detector.InFlightLoadIsNotDuplicated`,
  `PageScan.NotReadyFindsNothing` and `PageScan.AnalyzePageImages` state this.

The class table has no entry past index 4. An index beyond it gets the label
`Undefined`, which is what JavaScript yields there. So score vectors of any
length are accepted. An empty score vector makes `isImageNSFW` throw while
reading `predictions[0].className`. That is `Failure(NoTopPrediction)`.

## Model

| member | source | states |
|---|---|---|
| `Ranking.Pairs` | Browsers/nsfw-detector.js:86-91 | one prediction per score, in score order, the `i`-th labelled `classes[i]` and carrying `values[i]` |
| `Ranking.Insert` | Browsers/nsfw-detector.js:94 | inserting into a non-increasing sequence keeps it non-increasing, adds exactly the one prediction (multiset), and the head is the new element or the old head |
| `Ranking.SortDescending` | Browsers/nsfw-detector.js:94 | the sort result is non-increasing by probability and a permutation (same multiset) of its input |
| `Ranking.SortIsStable` | Browsers/nsfw-detector.js:94 | the sort is stable: for input in class-table order, predictions with equal probability come out in class-table order |
| `Ranking.SliceEnd` | Browsers/nsfw-detector.js:96 | `slice(0, k)` on length `n` keeps `min(k, n)` elements for `k >= 0` and `max(n + k, 0)` for negative `k`, never more than `n` |
| `Ranking.GetTopPredictions` | Browsers/nsfw-detector.js:82-96 | `min(topK, n)` predictions for `topK >= 0`, JavaScript `slice` length for negative `topK`; non-increasing; ties in class order; a sub-multiset of the labelled pairs `(classes[i], values[i])`, and all of them, nothing lost, duplicated or relabelled, when `topK >= n` |
| `Ranking.KeptDominateDropped` | Browsers/nsfw-detector.js:94-96 | every labelled score with a copy left out of the top-K is at most every score kept, and copies are counted, so a duplicate `Undefined` pair dropped while another copy is kept is covered; and a dropped score tied with a kept one belongs to a class no earlier in the class table (the stable sort keeps the earlier class of a tie) |
| `Ranking.SortHeadIsFirstMaximum` | Browsers/nsfw-detector.js:94 | the head of the stable sort is the first prediction carrying the largest probability |
| `Ranking.TopIsFirstMaximum` | Browsers/nsfw-detector.js:86-96 | the top prediction is `(classes[i], values[i])` for the first index `i` of the largest score |
| `Detector.IsModelReady` | Browsers/nsfw-detector.js:51-53 | ready only with a model present; on every coherent state ready exactly when loaded |
| `Detector.BeginLoad` | Browsers/nsfw-detector.js:29-30 | the synchronous start of a load marks the detector loading and touches neither the model nor the loaded flag |
| `Detector.CompleteLoad` | Browsers/nsfw-detector.js:34-45 | after the runtime settles `isLoading` is false; success stores the model and sets `isLoaded`; failure keeps model and `isLoaded` and rejects with the error |
| `Detector.LoadModel` | Browsers/nsfw-detector.js:24-46 | no-op that resolves and acquires nothing when already loaded or loading; otherwise one acquisition, ending with `isLoading = false`, ready on success, not loaded with the error propagated on failure |
| `Detector.Dispose` | Browsers/nsfw-detector.js:226-233 | with a model present: model cleared and `isLoaded` false; with none: nothing changes; never ready afterwards |
| `Detector.TransitionsPreserveCoherence` | Browsers/nsfw-detector.js:7-53 | the constructor's state is coherent; load, dispose and both halves of a load keep "model present iff loaded, never loaded while loading", under which readiness is the loaded flag |
| `Detector.InFlightLoadIsNotDuplicated` | Browsers/nsfw-detector.js:25-30 | a second `loadModel()` during an in-flight load changes nothing and starts no acquisition; the first call finishes as if alone |
| `Detector.ClassifyImage` | Browsers/nsfw-detector.js:102-129 | fails with "Model not loaded" exactly when `isModelReady()` is false; runtime errors propagate; otherwise `min(5, n)` predictions, non-increasing, drawn from the labelled scores |
| `Detector.Assess` | Browsers/nsfw-detector.js:134-154 | throws exactly on an empty classification; otherwise reports `predictions[0]` as the top prediction along with all predictions |
| `Detector.IsImageNSFW` | Browsers/nsfw-detector.js:134-135 | an unready detector rejects with "Model not loaded"; a result exists only when the runtime produced scores |
| `Detector.FlagRule` | Browsers/nsfw-detector.js:136-141 | flagged iff the top class is Porn, Hentai or Sexy and its probability is at least the threshold, equality included |
| `Detector.SafeTopNeverFlagged` | Browsers/nsfw-detector.js:138-141 | a Drawing, Neutral or unlabelled top class is never flagged, for any threshold |
| `Detector.FlagMonotoneInThreshold` | Browsers/nsfw-detector.js:139-141 | lowering the threshold never clears a flag |
| `Detector.FlaggedIffFirstMaximumSensitive` | Browsers/nsfw-detector.js:134-141 | end to end, for a ready detector: flagged iff the first largest score sits at index 1, 3 or 4 (Hentai, Porn, Sexy) and reaches the threshold; empty scores throw |
| `Detector.PornAtEightyIsFlagged` | Browsers/nsfw-detector.js:134-141 | scores [0.05, 0.02, 0.10, 0.80, 0.03] give top prediction Porn at 0.80, flagged at the default 0.6 |
| `PageScan.AnalyzeOne` | Browsers/nsfw-detector.js:180-208 | one turn of the loop keeps an image exactly when it passes the size and decode filters and `isImageNSFW` resolves on it; a rejection is dropped |
| `PageScan.SelectSound` | Browsers/nsfw-detector.js:180-203 | whatever one image contributes is that image, past both filters, with the analysis `isImageNSFW` gives it |
| `PageScan.Findings` | Browsers/nsfw-detector.js:177-209 | never more findings than images on the page |
| `PageScan.FindingsSound` | Browsers/nsfw-detector.js:180-203 | every image analysed is on the page, passes the size and decode filters, and carries the analysis `isImageNSFW` gives it |
| `PageScan.FindingsStep` | Browsers/nsfw-detector.js:177-209 | walking one image further appends that image's finding, if any, and changes nothing before it |
| `PageScan.FindingsAppend` | Browsers/nsfw-detector.js:177-209 | the walk is in page order: the findings of a page split in two are the findings of the first part followed by those of the second |
| `PageScan.FindingsComplete` | Browsers/nsfw-detector.js:180-205 | nothing is missed: every eligible image whose `isImageNSFW` succeeds has its finding among the page's findings |
| `PageScan.CountFlagged` | Browsers/nsfw-detector.js:211 | the flagged count is at most the number of results, equals it iff all are flagged and is zero iff none is |
| `PageScan.CountFlaggedIsExact` | Browsers/nsfw-detector.js:211 | the flagged count is exactly the number of `true` flags among the results |
| `PageScan.FindingsOfPrefix` | Browsers/nsfw-detector.js:177-178 | stopping early yields a prefix of the full selection |
| `PageScan.StoppedScanIsTake` | Browsers/nsfw-detector.js:177-178 | where the loop stops, at the end of the page or at `maxImages` results, it holds the first `maxImages` findings of the whole page |
| `PageScan.NotReadyFindsNothing` | Browsers/nsfw-detector.js:167-209 | with no ready model, every classification rejects and nothing is analysed |
| `PageScan.KeptImagesAreEligible` | Browsers/nsfw-detector.js:177-191 | every image among the first `maxImages` findings is on the page and passes the size and decode filters |
| `PageScan.SelectAndAnalyze` | Browsers/nsfw-detector.js:173-209 | the loop keeps exactly the first `maxImages` successful analyses of eligible images, in document order |
| `PageScan.AnalyzePageImages` | Browsers/nsfw-detector.js:159-221 | loads when not ready and rejects when that load fails; otherwise `totalAnalyzed <= maxImages`; each result is on the page, complete, `naturalWidth != 0`, and not too small when `skipSmallImages` is set; `nsfwFound` counts the flagged results and is at most `totalAnalyzed` |
| `PageScan.DefaultScanBounds` | Browsers/nsfw-detector.js:160-165 | with no options, a scan keeps at most 10 results, each at least 100 by 100 and flagged by the rule at threshold 0.6 |
| `VisitHistory.GetVisitHistory` | Browsers/background.js:83-91 | a domain with no stored entry reads as the empty list; otherwise the stored list |
| `VisitHistory.StoreVisit` | Browsers/background.js:35-62 | the domain's history is non-empty, holds at most 10 visits and ends with the new visit; under 10 before: exactly `old + [visit]`; otherwise the last 10 of `old + [visit]`, oldest dropped first; every other domain's history is unchanged |
| `VisitHistory.StoreVisitKeepsBound` | Browsers/background.js:52-55 | storing a visit keeps every domain within 10 entries |
| `VisitHistory.HistoryIsLastTenOfAllVisits` | Browsers/background.js:43-58 | after any run of visits to a domain, stored one after another, its history is exactly the last 10 of everything recorded there |
| `VisitHistory.OverlappingStoresLoseAVisit` | Browsers/background.js:42-58 | two stores for one domain whose `get`/`set` interleave lose the first visit, even with room below the cap |
| `VisitHistory.SerializedStoresKeepBothVisits` | Browsers/background.js:42-58 | two stores run one after the other keep both visits, in order, when the history has room for them |
| `VisitHistory.ClearVisitHistory` | Browsers/background.js:94-102 | afterwards every domain's history is empty |
| `VisitHistory.OnTabUpdated` | Browsers/background.js:27-32 | a visit is recorded only for status "complete" on a tab with a URL whose host name parses; then the domain's history becomes the last 10 of its old history plus the visit, which ends it, and other domains are untouched |
| `VisitHistory.HandleMessage` | Browsers/background.js:65-80 | "getVisitHistory" answers the domain's history without changing the store; "clearHistory" empties it; other actions get no answer and change nothing |

## Left out

- `preprocessImage` and every `tf.*` call (resize, normalisation, `predict`, tensor `dispose`): these are external ML-runtime float work. They are one opaque `infer` parameter.
- `tf.loadLayersModel` and `model.dispose()`: these are foreign calls. The load's outcome is the `fetched` argument, and disposing the runtime object is not modelled.
- NaN and floating-point artefacts in the sort comparator `b.probability - a.probability`: probabilities are reals.
- Interleavings of concurrent `loadModel()` calls: JavaScript runs them one at a time. A load is split at its `await` into `BeginLoad` and `CompleteLoad`, and other calls may be placed between the two.
- The DOM: `document.querySelectorAll("img")` is the `images` argument. Each image is an immutable snapshot of the attributes the loop reads. A result keeps that snapshot, not the separate `src`, `alt`, `width` and `height` fields the code copies. The `img.alt || ""` defaulting is not modelled.
- `console` logging throughout.
- `chrome.storage` I/O failures: the `catch` in `getVisitHistory` that answers `[]` and the rethrow in `clearVisitHistory` are not modelled. Storage is a map that is always available.
- `new URL(...).hostname` and `Date.now()`: these are parameters.
- `onInstalled` defaults (`enableIndicator`, `autoAnalyze`), the context menu and the action-click handler: these are stored settings and UI wiring.
- The asynchronous `sendResponse` channel: `HandleMessage` returns the response value.
- Browsers/content-simple.js: script injection, the 20 s timeout, the 1 s polling of `window.tf`, event dispatch and global status objects. These are timers and DOM glue around a third-party library. The status-poller and timeout contract lives there and is not part of this model.
- Browsers/popup.js, Browsers/content.js and the React Native library and example apps: DOM and UI rendering, injection and messaging glue.
- `Detector.ClassifyImage`: states the length, order and provenance of the predictions, not their exact sequence. The tie order inside the result comes from `Ranking.GetTopPredictions`, and which of several tied scores survives the cut comes from `Ranking.KeptDominateDropped`.
- `PageScan.AnalyzePageImages`: the scan holds the detector state fixed between its `await`s. In the code each image's `isImageNSFW` awaits, and `classifyImage` re-checks `isModelReady()` per image. So a `dispose()` during a scan, for example from the force-reload path, makes the remaining images throw "Model not loaded" and be skipped. The contract `results == Take(Findings(after, ..), maxImages)` covers only scans during which the state does not change. Each image is also a snapshot taken when the loop reaches it. The code reads `width`, `height`, `complete` and `naturalWidth` in the filters (lines 183 and 189). It re-reads `src`, `alt`, `width` and `height` from the live element after the `await` (lines 198-201). A re-layout or a lazy loader swapping `src` during that `await` can therefore give a result a `width` below `minImageSize`, or a `src` other than the one analysed. The contract's size and decode facts hold for the values the filters tested.
- Overlapping `storeVisitInfo` calls: the model applies each store atomically, one after another. In the code, `onUpdated` starts `storeVisitInfo` without awaiting it, and each call awaits `get` before its `set`. So two stores for one domain can both read the same list, and the later `set` drops the other visit. A `clearVisitHistory` that lands between a `get` and its `set` is undone by that `set`. `VisitHistory.HistoryIsLastTenOfAllVisits` holds only for stores that do not overlap. The lost visit is recorded under Findings.

## Findings

| source | as written | input that shows it | evidently intended | confidence | as-written member | corrected member |
|---|---|---|---|---|---|---|
| Browsers/background.js:27-58 | `onUpdated` starts `storeVisitInfo` without awaiting it, and each call reads the domain's list (`get`) and later writes it back (`set`) | two tabs of the same domain finish loading together with visits `v1`, `v2` and fewer than 9 stored visits: both calls read the same list, so the second `set` writes the list without `v1` | every completed load is kept, up to the last 10 per domain | medium, not executed | `VisitHistory.OverlappingStoresLoseAVisit` | `VisitHistory.SerializedStoresKeepBothVisits` |
