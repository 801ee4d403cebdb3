/**
 * The main GLANCE page: which data set's UMAP projection is shown and cached, the reset
 * when a new data set and model are loaded, the test rows labelled with the action
 * their instance chose, and the features offered to the comparative view.
 */
module GlanceComponent {
  import opened Wrappers
  import opened Js
  import Seqs
  import GlanceSlice

  /** The data set behind each view: `data` is the raw data, `affected` the affected instances, anything else the test set. */
  function DatasetIdentifier(view: string): (id: string)
    ensures id == "rawData" <==> view == "data"
    ensures id == "affectedData" <==> view == "affected"
    ensures id == "rawData" || id == "affectedData" || id == "testData"
  {
    if view == "data" then "rawData" else if view == "affected" then "affectedData" else "testData"
  }

  /**
   * The UMAP effect: a request for the view's data set is sent only when a view is
   * chosen, UMAP is switched on and the cache holds nothing truthy for that data set.
   */
  function UmapRequest(view: string, showUmap: bool, cache: Object): (r: Option<string>)
    ensures r.Some? <==> view != "" && showUmap && !Truthy(Get(cache, DatasetIdentifier(view)))
    ensures r.Some? ==> r.value == DatasetIdentifier(view)
  {
    if view != "" && showUmap && !Truthy(Get(cache, DatasetIdentifier(view))) then Some(DatasetIdentifier(view))
    else None
  }

  /**
   * The cache after the request for `id` settles: a fulfilled request carries a payload
   * and stores its `data` under `id`; a failed one has no payload and changes nothing.
   */
  function CacheAfter(cache: Object, id: string, outcome: GlanceSlice.StepOutcome): (c: Object)
    ensures outcome.StepFailed? ==> c == cache
    ensures outcome.Responded? ==> Get(c, id) == outcome.data
    ensures forall k :: k != id ==> Get(c, k) == Get(cache, k)
  {
    match outcome
    case Responded(data) => Put(cache, id, data)
    case StepFailed(_) => cache
  }

  /** Only the requested entry changes, and only on success; once it holds truthy data the view asks no more. */
  lemma CacheAfterFields(cache: Object, view: string, showUmap: bool, outcome: GlanceSlice.StepOutcome, k: string)
    ensures var id := DatasetIdentifier(view);
      var c := CacheAfter(cache, id, outcome);
      (k != id ==> Get(c, k) == Get(cache, k)) &&
      (outcome.StepFailed? ==> c == cache) &&
      (outcome.Responded? ==> Get(c, id) == outcome.data) &&
      (outcome.Responded? && Truthy(outcome.data) ==> UmapRequest(view, showUmap, c).None?)
  {
  }

  datatype ViewState = ViewState(cache: Object, selectedTab: int, activeStep: int)

  /** A truthy dataset/model result empties the cache and moves the stepper and tabs to step 1. */
  function OnLoadResult(s: ViewState, loadResult: Value): (r: ViewState)
    ensures Truthy(loadResult) ==> r.cache == [] && r.selectedTab == 1 && r.activeStep == 1
    ensures !Truthy(loadResult) ==> r == s
  {
    if Truthy(loadResult) then ViewState([], 1, 1) else s
  }

  /** After a new data set and model, every view asks for its projection again. */
  lemma ReloadRequestsAgain(s: ViewState, loadResult: Value, view: string)
    requires Truthy(loadResult) && view != ""
    ensures UmapRequest(view, true, OnLoadResult(s, loadResult).cache) == Some(DatasetIdentifier(view))
  {
  }

  /** `{ ...item, action: v }`; spreading `null` or `undefined` copies nothing. */
  function WithAction(item: Value, v: Value): Object {
    var fs := match Entries(item) case None => [] case Some(fs) => fs;
    Put(Assign([], fs), "action", v)
  }

  /** The action recorded for test row `idx`: the chosen action at the first position of `idx` among the affected indices, else "-1". */
  function ActionLabel(idx: nat, indices: seq<Value>, chosen: Value): Value
    requires Num(idx) in indices ==> !Nullish(chosen)
  {
    if Num(idx) in indices then At(chosen, Seqs.FirstIndex(indices, Num(idx))).value else Str("-1")
  }

  /**
   * `processedDataset`: every test row with an `action` field. `None` is the TypeError of
   * a missing `affected_clusters.index`, or of a missing `Chosen_Action` once a row is affected.
   */
  function ProcessedDataset(xTest: seq<Value>, index: Value, chosen: Value): (r: Option<seq<Object>>)
    ensures r.None? <==>
      (Nullish(index) ||
       (Nullish(chosen) && exists idx :: 0 <= idx < |xTest| && Num(idx) in Values(Entries(index).value)))
    ensures r.Some? ==> |r.value| == |xTest|
  {
    match Entries(index)
    case None => None
    case Some(fs) =>
      var indices := Values(fs);
      if Nullish(chosen) && exists idx :: 0 <= idx < |xTest| && Num(idx) in indices then None
      else Some(seq(|xTest|, idx requires 0 <= idx < |xTest| => WithAction(xTest[idx], ActionLabel(idx, indices, chosen))))
  }

  /**
   * Test row `idx` keeps every field of its item except `action`, which is the chosen
   * action at the first position of `idx` among the affected indices, or "-1" when the
   * row is not affected.
   */
  lemma ProcessedRow(xTest: seq<Value>, index: Value, chosen: Value, idx: nat, k: string)
    requires ProcessedDataset(xTest, index, chosen).Some?
    requires idx < |xTest| && xTest[idx].Obj? && WellFormed(xTest[idx].fields)
    ensures var indices := Values(Entries(index).value);
      var row := ProcessedDataset(xTest, index, chosen).value[idx];
      (Num(idx) in indices ==> !Nullish(chosen)) &&
      Get(row, "action") ==
        (if Num(idx) in indices then At(chosen, Seqs.FirstIndex(indices, Num(idx))).value else Str("-1")) &&
      (k != "action" ==> Get(row, k) == Get(xTest[idx].fields, k))
  {
    var indices := Values(Entries(index).value);
    CopyOfWellFormed(xTest[idx].fields);
    assert ProcessedDataset(xTest, index, chosen).value[idx] ==
      WithAction(xTest[idx], ActionLabel(idx, indices, chosen));
  }

  /** `availableFeatures.slice(0, -1)`: every feature but the last. */
  function ComparativeFeatures(available: seq<string>): (r: seq<string>)
    ensures |r| == if available == [] then 0 else |available| - 1
    ensures r <= available
  {
    if available == [] then [] else available[..|available| - 1]
  }

  /** With distinct feature names, the last one (the target) is never offered and every other one is. */
  lemma ComparativeFeaturesExcludeLast(available: seq<string>, f: string)
    requires Seqs.Distinct(available) && available != []
    ensures f in ComparativeFeatures(available) <==> f in available && f != available[|available| - 1]
  {
    var r := ComparativeFeatures(available);
    if f in available && f != available[|available| - 1] {
      var i :| 0 <= i < |available| && available[i] == f;
      assert r[i] == f;
    }
  }
}
