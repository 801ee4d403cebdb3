# GLoVE: the GLANCE counterfactual-explanation workflow, modelled in Dafny

GLoVE is a web tool for GLANCE, a method that explains a classifier globally with a small set of counterfactual *actions*. An action is a set of feature changes. The method clusters the instances the model rejects (the *affected* instances), finds one action per cluster and reports how effective and how costly each action is.

This project models the core of that workflow, on both sides of its HTTP boundary.

- **The FastAPI back end.**
  - `/run-c_glance` (module `CGlance`):
    - strategy-name normalisation and the features to vary;
    - the clusters sorted by cost and the clean-up of the returned actions;
    - the per-row cluster numbers and chosen actions;
    - the mapping of algorithm failures to HTTP errors;
    - the response cache.
  - `/apply_affected_actions` (module `ApplyActions`): rows are grouped by chosen action, each group gets its action, and `sort_index` restores the row order.
  - The data preparation in `utils_data.py` (module `UtilsData`):
    - the train/test split;
    - the COMPAS row filter and time served;
    - the label encodings and the affected/unaffected partition;
    - the protected features that are never varied;
    - the target column of each data set.
- **The Redux slice** (module `GlanceSlice`):
  - `runCGlanceComparative`, the comparative sweep over action counts, counterfactual methods or action-choice strategies, including its per-candidate error handling and downstream calls;
  - the reducer cases around it.
- **The React views:**
  - the comparative panel (`ComparativeGlance`);
  - the metric summary with its per-action populations (`MetricSummary`);
  - the actions table (`ActionsTable`);
  - the cluster scatter plots (`ActionScatter`);
  - the two UMAP plots (`UmapScatter`, `UmapScatterGlance`);
  - the action-coloured last plot (`LastUmap`) and its container (`UmapGlanceComponent`);
  - the main page's caching and labelling (`GlanceComponent`).

Shared modules:

- `Js` models JavaScript values. Objects are ordered field lists. Property reads, assignment and spread are modelled, as are `Object.keys`, `Object.entries`, truthiness and `||`. `None` stands for a thrown TypeError.
- `PyData` models pandas cells and Python list indexing.
- `ActionNames` models the `Action<N>_Prediction` column names and the regular expressions that take them apart.
- `Seqs`, `Sorting` and `Decimal` supply sequence, stable-sort and decimal-text facts.

Everything outside the modelled code is a parameter of the model rather than a hidden assumption:

- the HTTP back end (`GlanceSlice.Backend`);
- the C-GLANCE algorithm (`CGlance.RunCGlance`'s `algorithm`);
- `apply_action_pandas` (`apply`);
- date parsing (`elapsedDays`);
- the classifier's predictions.

Each operation comes with a partner property:

- a reference definition: `ApplyActions.Reference`, and the first-appearance order of `Seqs.Dedup`;
- an invariant: `GlanceSlice.LoopAborts`, `ComparativeGlance.ViewDetailsToggles`;
- a round trip: `UtilsData.GetSplitCovers`, `ApplyActions.ChosenActionRoundTrip`, `ActionNames.ActionNumberOfPrediction`;
- idempotence: `ActionsTable.HeaderNameIdempotent`, `CGlance.NormaliseStrategyIdempotent`, `GlanceSlice.AddSizeIdempotent`.

## Model

Four functions that compute a source expression have no row of their own; the lemma named after each states what it computes: `UmapScatter.Reshape` (UmapScatter.ReshapeRows), `ApplyActions.Process` (ApplyActions.ProcessGroupsResult), `CGlance.ReturnedAction` (CGlance.ReturnedActionEntries) and `ActionScatter.Point` (ActionScatter.PointFields).

| member | source | states |
|---|---|---|
| GlanceSlice.DimensionOf | GLoVE_UI/src/store/slices/glanceSlice.ts:327-419 | the three mode names select the size, method and strategy sweeps, each exactly on its own name; any other name selects none |
| GlanceSlice.NumValues | GLoVE_UI/src/store/slices/glanceSlice.ts:329 | `sizes || []`: no list sweeps nothing, otherwise one number per size in order |
| GlanceSlice.ListValues | GLoVE_UI/src/store/slices/glanceSlice.ts:359 | `methods || []` and `strategies || []`: no list sweeps nothing, otherwise the list itself |
| GlanceSlice.Body | GLoVE_UI/src/store/slices/glanceSlice.ts:318 | a request body is sent only for a non-empty feature list, and it is that list |
| GlanceSlice.PlanOf | GLoVE_UI/src/store/slices/glanceSlice.ts:326-419 | an unknown mode has no plan; otherwise the plan sweeps the mode's list, with the first element of each list fixed and the shared body |
| GlanceSlice.MergedFields | GLoVE_UI/src/store/slices/glanceSlice.ts:347-351 | the merged entry holds the apply result and the UMAP payload under their keys and the generation response under every other key |
| GlanceSlice.Iteration | GLoVE_UI/src/store/slices/glanceSlice.ts:329-355 | every iteration starts with one generation request, and it rethrows exactly when that request fails other than with a 400 |
| GlanceSlice.IterationThrows | GLoVE_UI/src/store/slices/glanceSlice.ts:306-325 | a rethrown failure carries the request's own error and no later call is made |
| GlanceSlice.IterationRejected | GLoVE_UI/src/store/slices/glanceSlice.ts:306-314 | a 400 is recorded as its `detail`, or "Unknown error occurred." without one, with no downstream call |
| GlanceSlice.IterationReportedError | GLoVE_UI/src/store/slices/glanceSlice.ts:336-338 | a response reporting an error is recorded as `{error: message}` with no downstream call |
| GlanceSlice.IterationDownstreamFailure | GLoVE_UI/src/store/slices/glanceSlice.ts:341-354 | when applying or reducing fails, the entry is the fixed "Error in downstream processing." |
| GlanceSlice.IterationSuccess | GLoVE_UI/src/store/slices/glanceSlice.ts:341-351 | a full success calls generate, apply and reduce once each, in order, and records the merged entry |
| GlanceSlice.IterationRequests | GLoVE_UI/src/store/slices/glanceSlice.ts:330-345 | an iteration issues no generation request other than its own |
| GlanceSlice.Steps | GLoVE_UI/src/store/slices/glanceSlice.ts:329-355 | one step per candidate, each the iteration for that candidate |
| GlanceSlice.KeysOf | GLoVE_UI/src/store/slices/glanceSlice.ts:337 | one results key per candidate, in loop order |
| GlanceSlice.RunCGlanceComparative | GLoVE_UI/src/store/slices/glanceSlice.ts:418-422 | an unknown mode is rejected with "Invalid caseType" before any call; an empty sweep fulfils with `{}` |
| GlanceSlice.LoopAborts | GLoVE_UI/src/store/slices/glanceSlice.ts:329-355 | the loop runs through exactly when no step throws; otherwise the first thrower's error escapes |
| GlanceSlice.Loop | GLoVE_UI/src/store/slices/glanceSlice.ts:328-416 | a loop that ran through has written one field per step, under each step's key in loop order |
| GlanceSlice.LoopWrites | GLoVE_UI/src/store/slices/glanceSlice.ts:336-354 | a loop that ran through wrote every step's entry under its key, in loop order |
| GlanceSlice.LoopResultKeys | GLoVE_UI/src/store/slices/glanceSlice.ts:304-422 | the results object has one key per distinct candidate key, in first-appearance order |
| GlanceSlice.LoopResultEntry | GLoVE_UI/src/store/slices/glanceSlice.ts:336-354 | under a key the results hold the entry of the last candidate with that key |
| GlanceSlice.LoopCalls | GLoVE_UI/src/store/slices/glanceSlice.ts:329-355 | every call of the loop was made by one of the iterations it ran |
| GlanceSlice.KeyForInjective | GLoVE_UI/src/store/slices/glanceSlice.ts:337 | two numbers, or two strings, give the same key exactly when they are equal |
| GlanceSlice.SizePlansUniform | GLoVE_UI/src/store/slices/glanceSlice.ts:329-331 | a size sweep's candidates are all numbers |
| GlanceSlice.UniformKeysDistinct | GLoVE_UI/src/store/slices/glanceSlice.ts:337 | among uniform candidates a later key repeats an earlier one exactly when the value repeats |
| GlanceSlice.ComparativeOutcome | GLoVE_UI/src/store/slices/glanceSlice.ts:298-424 | the sweep is fulfilled exactly when no candidate throws; otherwise it is the first thrower's error |
| GlanceSlice.ComparativeKeys | GLoVE_UI/src/store/slices/glanceSlice.ts:304-422 | a fulfilled sweep is a well-formed object keyed by the distinct candidate keys in first-appearance order |
| GlanceSlice.ComparativeEntry | GLoVE_UI/src/store/slices/glanceSlice.ts:336-354 | in a fulfilled sweep a candidate's key holds its own step's entry when no later candidate shares the key |
| GlanceSlice.ComparativeRequests | GLoVE_UI/src/store/slices/glanceSlice.ts:328-416 | every generation request is for a candidate: the fixed parameters with only the swept one replaced, always with the same body |
| GlanceSlice.ParamsForKeepsOthers | GLoVE_UI/src/store/slices/glanceSlice.ts:330-334 | the swept parameter takes the candidate's value and the other two keep their first list elements |
| GlanceSlice.AddSize | GLoVE_UI/src/store/slices/glanceSlice.ts:436-441 | the size is listed afterwards, nothing else is added, the old list is a prefix, and a repetition-free list stays so |
| GlanceSlice.AddSizeIdempotent | GLoVE_UI/src/store/slices/glanceSlice.ts:436-441 | adding a size twice is adding it once; a listed size changes nothing; a new one is appended |
| GlanceSlice.Reduce | GLoVE_UI/src/store/slices/glanceSlice.ts:430-584 | each reducer case's effect on the sizes, the comparative results and loader, the error and the UMAP results, and that other slices stay unchanged |
| GlanceSlice.UmapActions | GLoVE_UI/src/store/slices/glanceSlice.ts:343-345 | the nested dispatches of a sweep produce only UMAP actions |
| GlanceSlice.UmapActionsKeepComparative | GLoVE_UI/src/store/slices/glanceSlice.ts:531-539 | the UMAP reducer cases leave the comparative results and loader alone |
| GlanceSlice.DispatchComparativeSettles | GLoVE_UI/src/store/slices/glanceSlice.ts:573-584 | after a dispatched sweep the loader is off; success replaces the results and clears the error; failure keeps the results and sets an error |
| GlanceSlice.Settle | GLoVE_UI/src/store/slices/glanceSlice.ts:418-422 | the sweep is fulfilled exactly when the thunk returned its results, which become the payload; `rejectWithValue` settles as a rejection whose message is "Rejected" |
| GlanceSlice.DispatchComparative | GLoVE_UI/src/store/slices/glanceSlice.ts:573-584 | after a dispatched sweep the loader is off, and a fulfilled sweep's results are stored with the error cleared |
| CGlance.NormaliseStrategy | GlanceDemoPaper-main/app/routers/c_glance.py:67-72 | the three page names map to the algorithm's names; any other name passes unchanged |
| CGlance.NormaliseStrategyIdempotent | GlanceDemoPaper-main/app/routers/c_glance.py:67-72 | normalising a normalised name changes nothing |
| CGlance.FeaturesToVary | GlanceDemoPaper-main/app/routers/c_glance.py:63-65 | fails exactly when the target is not a column; a non-empty request is used as given |
| CGlance.FeaturesToVaryDefault | GlanceDemoPaper-main/app/routers/c_glance.py:63-65 | without a request the features are the columns minus the target, in order, without repetition |
| CGlance.ByCost | GlanceDemoPaper-main/app/routers/c_glance.py:97 | the clusters sorted by cost: ascending, a permutation of the input |
| CGlance.ByCostStable | GlanceDemoPaper-main/app/routers/c_glance.py:97 | clusters of equal cost keep their original order |
| CGlance.ActionsByCost | GlanceDemoPaper-main/app/routers/c_glance.py:98 | the i-th action is the action of the i-th cheapest cluster |
| CGlance.ReturnedActions | GlanceDemoPaper-main/app/routers/c_glance.py:142-151 | one returned action per cluster |
| CGlance.ReturnedActionEntries | GlanceDemoPaper-main/app/routers/c_glance.py:142-151 | the i-th returned action holds exactly the i-th cheapest action's entries that are neither 0 nor '-', and cleaning again removes nothing |
| CGlance.ClusterColumn | GlanceDemoPaper-main/app/routers/c_glance.py:104-110 | one cluster number per row, each between 1 and the cluster count, non-decreasing |
| CGlance.ClusterColumnCounts | GlanceDemoPaper-main/app/routers/c_glance.py:104-110 | cluster k is the number on exactly as many rows as that cluster has |
| CGlance.ChosenAction | GlanceDemoPaper-main/app/routers/c_glance.py:137-139 | a chosen action is numbered from 1; no action becomes '-' and only it does |
| CGlance.FailureReply | GlanceDemoPaper-main/app/routers/c_glance.py:178-183 | only DiCE's configuration error is a 400, with the no-counterfactuals message reworded and others passed on; anything else is an error reply other than 400 |
| CGlance.MiddleCancel | GlanceDemoPaper-main/app/routers/c_glance.py:21 | two keys that differ only in the middle field differ in that field |
| CGlance.CacheKeyKeepsRawStrategy | GlanceDemoPaper-main/app/routers/c_glance.py:21 | the cache key holds the strategy as sent, so names that normalise alike are cached apart |
| CGlance.CacheKey | GlanceDemoPaper-main/app/routers/c_glance.py:21 | the key starts with `run-c_glance:` and ends with Python's `str` of the feature list |
| CGlance.RunCGlance | GlanceDemoPaper-main/app/routers/c_glance.py:19-183 | a cached key is answered from the cache; an error caches nothing; a success is stored under its key; no other key changes |
| CGlance.RerunServedFromCache | GlanceDemoPaper-main/app/routers/c_glance.py:21-48 | a request that succeeded is answered from the cache the next time, with the same body, whatever the algorithm would do |
| CGlance.RunFailureMapped | GlanceDemoPaper-main/app/routers/c_glance.py:90-183 | an uncached request whose run raises inside the `try` gets the mapped error and caches nothing |
| ApplyActions.AppliedRow | GlanceDemoPaper-main/app/routers/apply_actions.py:29-45 | a processed row keeps its label and chosen value |
| ApplyActions.Labelled | GlanceDemoPaper-main/app/routers/apply_actions.py:20-22 | the rows carry their positions as labels |
| ApplyActions.Reference | GlanceDemoPaper-main/app/routers/apply_actions.py:29-47 | row i of the reference is row i with its own chosen action applied |
| ApplyActions.GroupIsSelection | GlanceDemoPaper-main/app/routers/apply_actions.py:30-45 | processing the group of a value selects exactly the reference rows with that value, in order |
| ApplyActions.ProcessGroupsResult | GlanceDemoPaper-main/app/routers/apply_actions.py:29-45 | the loop succeeds exactly when every value's group does, and then it yields the reference rows grouped by value |
| ApplyActions.ReferenceSorted | GlanceDemoPaper-main/app/routers/apply_actions.py:47 | the reference rows are in label order with distinct labels |
| ApplyActions.ChosenValuesApplicable | GlanceDemoPaper-main/app/routers/apply_actions.py:29 | the unique values are repetition-free, include every row's value, and all name an action exactly when every row's value does |
| ApplyActions.SortedGroupsAreReference | GlanceDemoPaper-main/app/routers/apply_actions.py:40-47 | concatenating the groups and sorting by index gives every row once, in its place |
| ApplyActions.ApplyAffectedActionsRows | GlanceDemoPaper-main/app/routers/apply_actions.py:15-50 | the endpoint fails exactly when some row's value names no action; otherwise row i is row i with its action applied, its chosen value and its saved index |
| ApplyActions.ApplyAffectedActions | GlanceDemoPaper-main/app/routers/apply_actions.py:15-50 | the endpoint fails exactly when some row's chosen value names no action; otherwise it returns one row per affected row |
| ApplyActions.ChosenActionRoundTrip | GlanceDemoPaper-main/app/routers/apply_actions.py:23-34 | the number written for a chosen action names that same action in the cost-sorted list; '-' names none |
| ComparativeGlance.LastPiece | GLoVE_UI/src/app/Tasks/GlanceTask/CGLANCE/ComparativeGlance.tsx:60 | `split('_').pop()` is the longest suffix without an underscore |
| ComparativeGlance.GetSuffix | GLoVE_UI/src/app/Tasks/GlanceTask/CGLANCE/ComparativeGlance.tsx:60 | a key without an underscore, or ending in one, shows as itself; otherwise it shows its non-empty text after the last underscore |
| ComparativeGlance.GetSuffixOfJoined | GLoVE_UI/src/app/Tasks/GlanceTask/CGLANCE/ComparativeGlance.tsx:60 | `prefix_x` shows as `x` when `x` is non-empty and has no underscore |
| ComparativeGlance.IntToStrNoUnderscore | GLoVE_UI/src/app/Tasks/GlanceTask/CGLANCE/ComparativeGlance.tsx:60 | a number prints without underscores |
| ComparativeGlance.DisplayKeyOfSweepKey | GLoVE_UI/src/app/Tasks/GlanceTask/CGLANCE/ComparativeGlance.tsx:137-144 | the displayed key of a sweep entry is the swept value itself |
| ComparativeGlance.RowLabelKey | GLoVE_UI/src/app/Tasks/GlanceTask/CGLANCE/ComparativeGlance.tsx:121-132 | the label column is "key" exactly for an unknown mode, and it never clashes with the other chart columns |
| ComparativeGlance.ScatterRow | GLoVE_UI/src/app/Tasks/GlanceTask/CGLANCE/ComparativeGlance.tsx:138-143 | a chart row has the four columns in order, holding the entry's cost and effectiveness, the raw key and its display form |
| ComparativeGlance.ScatterPlotData | GLoVE_UI/src/app/Tasks/GlanceTask/CGLANCE/ComparativeGlance.tsx:137-144 | one chart row per results entry, errors included, in key order |
| ComparativeGlance.ValidResults | GLoVE_UI/src/app/Tasks/GlanceTask/CGLANCE/ComparativeGlance.tsx:236-238 | exactly the entries with a falsy `error` (order in ComparativeGlance.ResultsOrder) |
| ComparativeGlance.ErrorResults | GLoVE_UI/src/app/Tasks/GlanceTask/CGLANCE/ComparativeGlance.tsx:239-241 | exactly the entries with a truthy `error` (order in ComparativeGlance.ResultsOrder) |
| ComparativeGlance.ResultsOrder | GLoVE_UI/src/app/Tasks/GlanceTask/CGLANCE/ComparativeGlance.tsx:236-241 | both lists keep the entries' order (the entries of a prefix come first), and neither repeats an entry when the entries are distinct |
| ComparativeGlance.ResultsPartition | GLoVE_UI/src/app/Tasks/GlanceTask/CGLANCE/ComparativeGlance.tsx:236-241 | the valid and error lists together are the entries, each entry in exactly one |
| ComparativeGlance.HasErrorsIff | GLoVE_UI/src/app/Tasks/GlanceTask/CGLANCE/ComparativeGlance.tsx:232-241 | `hasErrors` holds exactly when the error list is non-empty |
| ComparativeGlance.FailureEntryIsError | GLoVE_UI/src/app/Tasks/GlanceTask/CGLANCE/ComparativeGlance.tsx:239-241 | an entry the sweep recorded for a failure is listed as an error |
| ComparativeGlance.MergedEntryIsValid | GLoVE_UI/src/app/Tasks/GlanceTask/CGLANCE/ComparativeGlance.tsx:236-238 | a merged success entry is listed as valid |
| ComparativeGlance.ViewDetails | GLoVE_UI/src/app/Tasks/GlanceTask/CGLANCE/ComparativeGlance.tsx:76-91 | clicking the selected row clears the details and shows the plots; another row is selected and the plots hide |
| ComparativeGlance.ViewDetailsToggles | GLoVE_UI/src/app/Tasks/GlanceTask/CGLANCE/ComparativeGlance.tsx:76-91 | plots show exactly when no row is selected, and clicking one row twice returns to the cleared state |
| ComparativeGlance.FirstAsList | GLoVE_UI/src/app/Tasks/GlanceTask/CGLANCE/ComparativeGlance.tsx:263-264 | `[list[0]]` has one element: the first entry, or undefined for an empty list |
| ComparativeGlance.RunParams | GLoVE_UI/src/app/Tasks/GlanceTask/CGLANCE/ComparativeGlance.tsx:96-105 | the sweep gets the form's mode, sizes, methods, strategies and selected features, each list as it stands |
| ComparativeGlance.RunDisabled | GLoVE_UI/src/app/Tasks/GlanceTask/CGLANCE/ComparativeGlance.tsx:400-405 | Run is disabled exactly while loading or when the swept list is empty |
| ComparativeGlance.EnabledRunSweeps | GLoVE_UI/src/app/Tasks/GlanceTask/CGLANCE/ComparativeGlance.tsx:396-405 | an enabled Run in a known mode starts a sweep with at least one candidate |
| ComparativeGlance.ChangeModeResets | GLoVE_UI/src/app/Tasks/GlanceTask/CGLANCE/ComparativeGlance.tsx:257-266 | a mode change resets sizes to `[3]`, methods and strategies to `[first available]` (`[undefined]` when none is available) and offers every feature; Run is then enabled unless loading |
| ComparativeGlance.ChangeMode | GLoVE_UI/src/app/Tasks/GlanceTask/CGLANCE/ComparativeGlance.tsx:257-266 | a mode change leaves the loader alone, and Run is enabled afterwards exactly when no sweep is loading |
| ComparativeGlance.RunFeedback | GLoVE_UI/src/app/Tasks/GlanceTask/CGLANCE/ComparativeGlance.tsx:106-117 | success keeps the results; any rejection clears them |
| ComparativeGlance.RunFeedbackGeneric | GLoVE_UI/src/app/Tasks/GlanceTask/CGLANCE/ComparativeGlance.tsx:110-116 | every rejected run shows the same generic message, since neither rejection has a `detail` |
| MetricSummary.InstanceValues | GLoVE_UI/src/app/Tasks/GlanceTask/MetricSummary.tsx:18-19 | `for...in` reads an object's values in key order, an array's items, and nothing for null or undefined |
| MetricSummary.Tally | GLoVE_UI/src/app/Tasks/GlanceTask/MetricSummary.tsx:17-21 | the counts object is well-formed |
| MetricSummary.TallyCounts | GLoVE_UI/src/app/Tasks/GlanceTask/MetricSummary.tsx:17-21 | each counter holds exactly the number of instances whose value spells its key; a key no value spells is absent |
| MetricSummary.DerivedGet | GLoVE_UI/src/app/Tasks/GlanceTask/MetricSummary.tsx:25-26 | before the spread a row holds `Action: index + 1` and `Population: counts[index + 1] \|\| 0` and nothing else |
| MetricSummary.ActionRows | GLoVE_UI/src/app/Tasks/GlanceTask/MetricSummary.tsx:24-38 | the rows exist exactly when no item is null or undefined, and there is one per action |
| MetricSummary.RowAt | GLoVE_UI/src/app/Tasks/GlanceTask/MetricSummary.tsx:24-38 | row i is built from item i, its index and the shared counts |
| MetricSummary.ActionRow | GLoVE_UI/src/app/Tasks/GlanceTask/MetricSummary.tsx:24-38 | a row's keys are `Action`, `Population`, then the item's other keys in order |
| MetricSummary.RowKeys | GLoVE_UI/src/app/Tasks/GlanceTask/MetricSummary.tsx:24-38 | row i's keys are `Action`, `Population`, then item i's other keys in order |
| MetricSummary.RowFields | GLoVE_UI/src/app/Tasks/GlanceTask/MetricSummary.tsx:24-38 | row i holds item i's fields, which win over the derived ones; otherwise `Action` is i + 1 and `Population` is the number of instances that chose action i + 1 |
| MetricSummary.PopulationTotalBound | GLoVE_UI/src/app/Tasks/GlanceTask/MetricSummary.tsx:17-26 | whatever the number of actions, the populations add up to at most the number of instances |
| MetricSummary.UnrankedCountsNowhere | GLoVE_UI/src/app/Tasks/GlanceTask/MetricSummary.tsx:17-26 | an instance marked '-' or choosing a number outside 1..n adds to no row's population |
| MetricSummary.Render | GLoVE_UI/src/app/Tasks/GlanceTask/MetricSummary.tsx:24-44 | rendering throws exactly when building the rows does; "No data" shows exactly for a null or undefined cost or effectiveness; otherwise the table shows the rows |
| ActionScatter.Options | GLoVE_UI/src/app/Tasks/GlanceTask/PLOTS/ActionScatter.tsx:52-55 | no options for missing data; otherwise exactly the columns that are neither bookkeeping columns nor `Action<N>_Prediction` |
| ActionScatter.ColorOptions | GLoVE_UI/src/app/Tasks/GlanceTask/PLOTS/ActionScatter.tsx:38-41 | no colours for missing data; otherwise exactly the `Action<N>_Prediction` columns |
| ActionScatter.OptionsOrder | GLoVE_UI/src/app/Tasks/GlanceTask/PLOTS/ActionScatter.tsx:52-55 | the axis options keep the column order (the columns of a leading part of the table come first) and never repeat a column |
| ActionScatter.ColorOptionsOrder | GLoVE_UI/src/app/Tasks/GlanceTask/PLOTS/ActionScatter.tsx:38-41 | the colour options keep the column order and never repeat a column |
| ActionScatter.OptionsPartition | GLoVE_UI/src/app/Tasks/GlanceTask/PLOTS/ActionScatter.tsx:32-55 | axis and colour options never share a column, and together they cover every column but `index`, `Cluster` and `Chosen_Action` |
| ActionScatter.SelectAxes | GLoVE_UI/src/app/Tasks/GlanceTask/PLOTS/ActionScatter.tsx:58-68 | the options are the longer of the two lists; the colour options come from the first data set |
| ActionScatter.AxesDefaults | GLoVE_UI/src/app/Tasks/GlanceTask/PLOTS/ActionScatter.tsx:58-68 | ties go to the second data set; the default axes are the first two options, distinct when there are two; the default colour is a prediction column or empty |
| ActionScatter.CellFields | GLoVE_UI/src/app/Tasks/GlanceTask/PLOTS/ActionScatter.tsx:79-81 | one field per column, in column order |
| ActionScatter.TransformData | GLoVE_UI/src/app/Tasks/GlanceTask/PLOTS/ActionScatter.tsx:72-84 | no points for missing data; otherwise one point per row key of the first column |
| ActionScatter.PointKeys | GLoVE_UI/src/app/Tasks/GlanceTask/PLOTS/ActionScatter.tsx:77-82 | a point is well-formed and has the key `id` and one key per column |
| ActionScatter.PointFields | GLoVE_UI/src/app/Tasks/GlanceTask/PLOTS/ActionScatter.tsx:77-82 | every column holds `clusters[column][key]`; `id` is the row key unless a column is named `id` |
| ActionScatter.TransformDataPoint | GLoVE_UI/src/app/Tasks/GlanceTask/PLOTS/ActionScatter.tsx:75-83 | point i is the point of the i-th row key of the first column |
| ActionScatter.DetermineType | GLoVE_UI/src/app/Tasks/GlanceTask/PLOTS/ActionScatter.tsx:90-93 | nominal exactly when there is no first point or it lacks the field; ordinal exactly for a string there |
| ActionScatter.TransformedTypes | GLoVE_UI/src/app/Tasks/GlanceTask/PLOTS/ActionScatter.tsx:87-93 | a column's type is decided by its value in the first row key; `id` is ordinal when there is a point and no column is named `id` |
| ActionScatter.EffCostForColorField | GLoVE_UI/src/app/Tasks/GlanceTask/PLOTS/ActionScatter.tsx:166-173 | a prediction column looks up its captured digits in `eff_cost_actions`, throwing when that is missing; any other field gives null |
| ActionScatter.EffCostOfAction | GLoVE_UI/src/app/Tasks/GlanceTask/PLOTS/ActionScatter.tsx:166-176 | the colour column of action n looks up key n; the empty colour field gives null |
| ActionScatter.TableRows | GLoVE_UI/src/app/Tasks/GlanceTask/PLOTS/ActionScatter.tsx:17-21 | the table throws exactly when `eff_cost_actions` is missing, or one of its entries is missing or has a `cost` that is not a number (`toFixed` on a non-number); otherwise one row per key |
| ActionScatter.TableRowFields | GLoVE_UI/src/app/Tasks/GlanceTask/PLOTS/ActionScatter.tsx:17-21 | row i holds `id`, `eff` and `cost` in that order: the i-th key, and that entry's `eff` and numeric `cost` |
| ActionScatter.TableRowIds | GLoVE_UI/src/app/Tasks/GlanceTask/PLOTS/ActionScatter.tsx:17-21 | row ids are the keys in order, so no two rows share an id |
| ActionNames.ActionDigits | GLoVE_UI/src/app/Tasks/GlanceTask/PLOTS/ActionScatter.tsx:167-169 | the captured group is a non-empty digit string, and the column is `Action` + it + `_Prediction` |
| ActionNames.PredictionKeyMatches | GLoVE_UI/src/app/Tasks/GlanceTask/PLOTS/ActionScatter.tsx:34 | the column of every printed action number matches the pattern, and its captured group is that number |
| ActionNames.IsActionPrediction | GLoVE_UI/src/app/Tasks/GlanceTask/PLOTS/ActionScatter.tsx:34 | `/^Action\d+_Prediction$/` holds exactly for `Action`, one or more digits, `_Prediction` |
| ActionNames.DisplayName | GLoVE_UI/src/app/Tasks/GlanceTask/LastUmap.tsx:135 | a prediction column shows as `Action` and its digits; any other key is unchanged |
| ActionNames.DisplayNameOfPrediction | GLoVE_UI/src/app/Tasks/GlanceTask/LastUmap.tsx:135 | distinct prediction columns get distinct labels, and action n shows as `Action` and n |
| ActionNames.FirstDigitRun | GLoVE_UI/src/app/Tasks/GlanceTask/UmapGlanceComponent.tsx:53 | the result is the leftmost maximal run of digits: it starts at the first digit and stops before the next non-digit; there is none exactly when the key has no digit |
| ActionNames.ActionNumberOfPrediction | GLoVE_UI/src/app/Tasks/GlanceTask/UmapGlanceComponent.tsx:53 | the number read from a prediction column is the value of its captured digits; for the column of action n it is n |
| ActionNames.ActionNumber | GLoVE_UI/src/app/Tasks/GlanceTask/UmapGlanceComponent.tsx:53 | `parseInt` of the first digit run gives `NaN` exactly when the key has no digit |
| LastUmap.InitialSelectionIsFirstAction | GLoVE_UI/src/app/Tasks/GlanceTask/LastUmap.tsx:16 | the selector starts on the prediction column of action 1, which matches the pattern and shows as "Action1" |
| LastUmap.Find | GLoVE_UI/src/app/Tasks/GlanceTask/LastUmap.tsx:22 | `find` gives nothing exactly when no action has the key, and otherwise the first action with it |
| LastUmap.PointFields | GLoVE_UI/src/app/Tasks/GlanceTask/LastUmap.tsx:19-23 | a point has exactly the fields x, y and the selected column; the selected one is written last and wins |
| LastUmap.FormattedData | GLoVE_UI/src/app/Tasks/GlanceTask/LastUmap.tsx:19-23 | throws exactly when `data` or `data[0]` is missing, or `data[0]` has a key and `data[1]` is missing or the matching action has no `value`; otherwise one point per key of `data[0]` |
| LastUmap.FormattedPointAt | GLoVE_UI/src/app/Tasks/GlanceTask/LastUmap.tsx:19-23 | point i is built from key i of `data[0]`, and `data[1]` is present |
| LastUmap.FormattedPoints | GLoVE_UI/src/app/Tasks/GlanceTask/LastUmap.tsx:19-23 | point i has only x, y and the selected column, holding `data[0][key]`, `data[1][key]` and the first matching action's `value[key]` (undefined when none matches) |
| UmapGlanceComponent.LastUmapActions | GLoVE_UI/src/app/Tasks/GlanceTask/UmapGlanceComponent.tsx:50-55 | building the list throws exactly when `actions` is null or undefined |
| UmapGlanceComponent.LastUmapActionsEntries | GLoVE_UI/src/app/Tasks/GlanceTask/UmapGlanceComponent.tsx:50-55 | exactly the prediction columns are passed on, in column order; each entry's value is `actions[key]` and its number is the value of the key's digits |
| UmapGlanceComponent.Panels | GLoVE_UI/src/app/Tasks/GlanceTask/UmapGlanceComponent.tsx:24-39 | the first panel shows `aff_data.affectedData.reduced_data` and the second `applied_aff_data.reduced_data`, both coloured by the latter's own `Chosen_Action`; it throws exactly when the first projection or that column is missing |
| UmapGlanceComponent.OwnColumnLabel | GLoVE_UI/src/app/Tasks/GlanceTask/UmapGlanceComponent.tsx:34-38 | colouring the applied data by its own `Chosen_Action` writes back the same label on every row whose cell is truthy |
| UmapScatter.Pivot | GLoVE_UI/src/app/Tasks/GlanceTask/PLOTS/UmapScatter.tsx:25-30 | the pivot throws exactly when the first column is missing, or a column is missing once there is a row; otherwise one row per key of the first column |
| UmapScatter.RowCells | GLoVE_UI/src/app/Tasks/GlanceTask/PLOTS/UmapScatter.tsx:26-29 | row i has exactly the columns, once each, and column c holds `columns[c][i]` |
| UmapScatter.PivotRow | GLoVE_UI/src/app/Tasks/GlanceTask/PLOTS/UmapScatter.tsx:25-30 | every row of a successful pivot is the positional row i |
| UmapScatter.Zeros | GLoVE_UI/src/app/Tasks/GlanceTask/PLOTS/UmapScatter.tsx:22 | `Array(n).fill(0)` is n zeros |
| UmapScatter.ProcessedData | GLoVE_UI/src/app/Tasks/GlanceTask/PLOTS/UmapScatter.tsx:18-23 | missing data throws |
| UmapScatter.LabelBackFill | GLoVE_UI/src/app/Tasks/GlanceTask/PLOTS/UmapScatter.tsx:18-23 | the copy differs from the data only in `label`: an existing one is kept, a missing one becomes as many zeros as the first column has keys |
| UmapScatter.ProcessedKeys | GLoVE_UI/src/app/Tasks/GlanceTask/PLOTS/UmapScatter.tsx:18-23 | the copy keeps the data's column order, with a made-up `label` last |
| UmapScatter.ReshapeRows | GLoVE_UI/src/app/Tasks/GlanceTask/PLOTS/UmapScatter.tsx:18-30 | one row per key of the first column; row i has the copy's columns, and column c holds `processedData[c][i]` |
| UmapScatterGlance.ChosenLabel | GLoVE_UI/src/app/Tasks/GlanceTask/PLOTS/UmapScatterGlance.tsx:26 | the label is `actions[index]` when both are truthy and "-" otherwise; it is always truthy |
| UmapScatterGlance.Reshape | GLoVE_UI/src/app/Tasks/GlanceTask/PLOTS/UmapScatterGlance.tsx:18-29 | missing data throws; otherwise the reshape succeeds exactly when the pivot does |
| UmapScatterGlance.ReshapeRows | GLoVE_UI/src/app/Tasks/GlanceTask/PLOTS/UmapScatterGlance.tsx:18-29 | one row per key of the first column; row i has every data column plus `Chosen_Action`, the data cells positionally, and the label written last |
| GlanceComponent.DatasetIdentifier | GLoVE_UI/src/app/Tasks/GlanceTask/GlanceComponent.tsx:97-102 | the view "data" is the raw data and "affected" the affected instances, each exactly; anything else is the test data |
| GlanceComponent.UmapRequest | GLoVE_UI/src/app/Tasks/GlanceTask/GlanceComponent.tsx:95-117 | a projection is requested exactly when a view is chosen, UMAP is on and the cache holds nothing truthy for that data set, and it is that data set's |
| GlanceComponent.CacheAfterFields | GLoVE_UI/src/app/Tasks/GlanceTask/GlanceComponent.tsx:104-114 | only the requested entry changes, and only on success; once it holds truthy data the view requests no more |
| GlanceComponent.CacheAfter | GLoVE_UI/src/app/Tasks/GlanceTask/GlanceComponent.tsx:107-112 | a failed request leaves the cache as it was; a payload is stored under the requested identifier and no other entry changes |
| GlanceComponent.OnLoadResult | GLoVE_UI/src/app/Tasks/GlanceTask/GlanceComponent.tsx:119-126 | a truthy load result empties the cache and moves tabs and stepper to 1; anything else changes nothing |
| GlanceComponent.ReloadRequestsAgain | GLoVE_UI/src/app/Tasks/GlanceTask/GlanceComponent.tsx:95-126 | after a new data set and model, every chosen view requests its projection again |
| GlanceComponent.ProcessedDataset | GLoVE_UI/src/app/Tasks/GlanceTask/GlanceComponent.tsx:128-144 | labelling throws exactly when the saved index is missing, or the chosen actions are missing once a row is affected; otherwise one row per test row |
| GlanceComponent.ProcessedRow | GLoVE_UI/src/app/Tasks/GlanceTask/GlanceComponent.tsx:130-139 | a test row keeps its fields except `action`, which is the chosen action at the first position of its index among the affected rows, or "-1" |
| GlanceComponent.ComparativeFeatures | GLoVE_UI/src/app/Tasks/GlanceTask/GlanceComponent.tsx:402 | `slice(0, -1)` drops exactly the last feature and keeps the order |
| GlanceComponent.ComparativeFeaturesExcludeLast | GLoVE_UI/src/app/Tasks/GlanceTask/GlanceComponent.tsx:402 | with distinct names, the last feature (the target) is never offered and every other one is |
| ActionsTable.AllKeys | GLoVE_UI/src/app/Tasks/GlanceTask/PLOTS/ActionsTable.tsx:16-18 | a key is read exactly when some row has it |
| ActionsTable.UniqueKeys | GLoVE_UI/src/app/Tasks/GlanceTask/PLOTS/ActionsTable.tsx:14-20 | the set holds each key once, and exactly the keys some row has |
| ActionsTable.UniqueKeysOrder | GLoVE_UI/src/app/Tasks/GlanceTask/PLOTS/ActionsTable.tsx:14-20 | the unique keys keep the order of their first occurrence across the rows |
| ActionsTable.WithoutPopulationLength | GLoVE_UI/src/app/Tasks/GlanceTask/PLOTS/ActionsTable.tsx:27 | among distinct keys, the filter drops one key exactly when `Population` is there |
| ActionsTable.ReorderedKeys | GLoVE_UI/src/app/Tasks/GlanceTask/PLOTS/ActionsTable.tsx:26-30 | the reordering is a rearrangement without repetition; `Population` is last when present; the other keys keep their order; without it nothing moves |
| ActionsTable.HeaderName | GLoVE_UI/src/app/Tasks/GlanceTask/PLOTS/ActionsTable.tsx:34 | the header has the key's length, its first letter upper-cased and the rest unchanged |
| ActionsTable.HeaderNameIdempotent | GLoVE_UI/src/app/Tasks/GlanceTask/PLOTS/ActionsTable.tsx:34 | capitalising a header again changes nothing |
| ActionsTable.Columns | GLoVE_UI/src/app/Tasks/GlanceTask/PLOTS/ActionsTable.tsx:23-35 | one column per unique key, each headed by its capitalised name, with `Population` last when present |
| ActionsTable.GridRows | GLoVE_UI/src/app/Tasks/GlanceTask/PLOTS/ActionsTable.tsx:79 | one grid row per data row |
| ActionsTable.GridRowFields | GLoVE_UI/src/app/Tasks/GlanceTask/PLOTS/ActionsTable.tsx:79 | the grid id is the position unless the row has its own `id`; every other field is copied |
| UtilsData.TrainSize | GlanceDemoPaper-main/src/glance/utils/utils_data.py:37 | `int(n * 0.8)` is the largest t with 5t <= 4n, so never more than n |
| UtilsData.GetSplit | GlanceDemoPaper-main/src/glance/utils/utils_data.py:34-39 | a frame without columns raises; otherwise the first `int(0.8 n)` rows train and the rest test, features and labels of equal length |
| UtilsData.GetSplitCovers | GlanceDemoPaper-main/src/glance/utils/utils_data.py:36-39 | putting each row's label after its features gives the row back, train rows first, test rows after, in order; features are all columns but the last |
| UtilsData.ClampServed | GlanceDemoPaper-main/src/glance/utils/utils_data.py:95 | negative times served become 0, others are kept |
| UtilsData.KeptIndices | GlanceDemoPaper-main/src/glance/utils/utils_data.py:123-124 | a mask keeps only positions where it is true |
| UtilsData.KeptIndicesExactly | GlanceDemoPaper-main/src/glance/utils/utils_data.py:123-124 | a mask keeps exactly the positions where it is true, each once, in increasing order |
| UtilsData.Select | GlanceDemoPaper-main/src/glance/utils/utils_data.py:123-124 | boolean indexing yields the kept positions' values in order |
| UtilsData.KeptIndicesComplement | GlanceDemoPaper-main/src/glance/utils/utils_data.py:172-173 | a mask and its negation keep between them as many rows as there are |
| UtilsData.KeepCompasRow | GlanceDemoPaper-main/src/glance/utils/utils_data.py:104-120 | the comparison raises exactly for a non-numeric days value; a row is kept exactly when days are within ±30, `is_recid` is not -1, the charge is not "O" and the score is not "NA" |
| UtilsData.CompasMask | GlanceDemoPaper-main/src/glance/utils/utils_data.py:104-120 | the filter raises exactly when some days value is not numeric; otherwise it is the row test applied to every row |
| UtilsData.TimeServed | GlanceDemoPaper-main/src/glance/utils/utils_data.py:86-96 | the column exists exactly when every row's two jail dates parse, and then holds one non-negative number of days per row |
| UtilsData.MaskColumns | GlanceDemoPaper-main/src/glance/utils/utils_data.py:123-124 | every column is masked and no column is added or lost |
| UtilsData.MaskColumnsUniform | GlanceDemoPaper-main/src/glance/utils/utils_data.py:123-124 | after masking all columns have the number of kept rows |
| UtilsData.ProcessCompas | GlanceDemoPaper-main/src/glance/utils/utils_data.py:75-125 | it succeeds exactly when the jail and filter columns exist, every jail date parses and no days value is non-numeric; the result has the input's columns plus `time_served` |
| UtilsData.CompasKept | GlanceDemoPaper-main/src/glance/utils/utils_data.py:104-124 | the kept rows are exactly those the row test accepts |
| UtilsData.ProcessCompasRows | GlanceDemoPaper-main/src/glance/utils/utils_data.py:82-125 | every column has the kept-row count; row j of each input column is the j-th kept row; no time served is negative |
| UtilsData.PredictedMask | GlanceDemoPaper-main/src/glance/utils/utils_data.py:172 | the mask is true exactly where the prediction equals the value |
| UtilsData.AffectedPartition | GlanceDemoPaper-main/src/glance/utils/utils_data.py:172-173 | with binary predictions every test row is either affected or unaffected, never both, and the two counts add up to the test set |
| UtilsData.LabelFlips | GlanceDemoPaper-main/src/glance/utils/utils_data.py:214 | German `2 - s` and COMPAS `1 - s` map the file's labels onto 1 (favourable) and 0 and undo themselves; the default-credit swap (lines 415-417) undoes itself and leaves other values; HELOC (lines 355-357) encodes Bad as 0 and Good as 1 |
| UtilsData.RemoveEachDistinct | GlanceDemoPaper-main/src/glance/utils/utils_data.py:278-280 | removing distinct present names from distinct features leaves exactly the other features, once each |
| UtilsData.FeatToVaryExcludesProtected | GlanceDemoPaper-main/src/glance/utils/utils_data.py:278-280 | `feat_to_vary` exists exactly when every protected feature is a column (German lines 278-280, COMPAS 349, default credit 550), and then it is every other column, once each |
| UtilsData.RemoveEach | GlanceDemoPaper-main/src/glance/utils/utils_data.py:278-280 | each `remove` takes out one name, so a successful run is shorter by the number of names |
| UtilsData.FeatToVary | GlanceDemoPaper-main/src/glance/utils/utils_data.py:278-280 | `feat_to_vary` is shorter than the columns by the number of protected features; HELOC and the numeric German set keep every column |
| UtilsData.GermanNumericHasNoTarget | GlanceDemoPaper-main/src/glance/utils/utils_data.py:132-182 | as written, loading the numeric German data set ends without a target name |
| UtilsData.TargetNameAsWritten | GlanceDemoPaper-main/src/glance/utils/utils_data.py:132-182 | as written, the target name is missing exactly for the numeric German data set and for an unrecognised name |
| UtilsData.TargetName | GlanceDemoPaper-main/src/glance/utils/utils_data.py:138-144 | the numeric German target is the last data column; every other data set's target is as written |
| UtilsData.TargetIsLabelColumn | GlanceDemoPaper-main/src/glance/utils/utils_data.py:187-281 | the German target, the COMPAS one (lines 287-298 and 350) and the corrected numeric German one are each the last column, and the columns before it contain every protected feature |
| PyData.PyIndex | GlanceDemoPaper-main/app/routers/apply_actions.py:34 | `actions[int(val-1)]`: indices from the end count backwards, and an index outside the list is an error |
| Seqs.Dedup | GlanceDemoPaper-main/app/routers/apply_actions.py:29 | `unique()` keeps each value once, exactly the values that occur |
| Seqs.DedupFirstAppearance | GlanceDemoPaper-main/app/routers/apply_actions.py:29 | `unique()` lists the values in order of first appearance |
| Sorting.SortBy | GlanceDemoPaper-main/app/routers/apply_actions.py:47 | the sort is ascending and a permutation |
| Sorting.SortByStable | GlanceDemoPaper-main/app/routers/c_glance.py:97 | `sorted` is stable: equal keys keep their order |
| Sorting.SortedUnique | GlanceDemoPaper-main/app/routers/apply_actions.py:47 | two sorted permutations of rows with distinct keys are equal, so `sort_index` on distinct labels has one answer |
| Js.Put | GLoVE_UI/src/store/slices/glanceSlice.ts:533 | an assignment to a key replaces its value in place or appends it, leaving every other key alone |
| Js.AssignGet | GLoVE_UI/src/app/Tasks/GlanceTask/MetricSummary.tsx:24-38 | after a spread a key holds the source's value when the source has it, the target's otherwise |
| Js.AssignKeys | GLoVE_UI/src/app/Tasks/GlanceTask/MetricSummary.tsx:24-38 | a spread keeps the target's key order and appends the source's new keys in order |
| Js.At | GLoVE_UI/src/app/Tasks/GlanceTask/PLOTS/UmapScatter.tsx:27 | `v[i]` throws for null or undefined, reads an array by position and an object by the key `String(i)` |
| Js.ObjectKeys | GLoVE_UI/src/app/Tasks/GlanceTask/PLOTS/ActionScatter.tsx:74 | `Object.keys` throws exactly for null or undefined and lists an object's keys in order |
| Js.Entries | GLoVE_UI/src/app/Tasks/GlanceTask/MetricSummary.tsx:32 | `Object.entries` throws exactly for null or undefined, lists an object's own fields, and an array's items under their positions |

## Left out

- JavaScript's key order for integer-like keys (`"0"`, `"1"`, …) is not modelled: objects keep insertion order throughout, and the pivots index columns by `String(i)`.
- Floating point is not modelled. This covers `Math.round(x*100)/100` in `MetricSummary.tsx:33`, `toFixed` in the tables, `round(...,2)` against `round(...,3)` (`c_glance.py:166` and `:174`), the effectiveness/cost divisions, and the values inside `eff_cost_actions`. Costs and cells are integers.
- HTTP, axios, FastAPI routing and Redis are not modelled. The backend is an outcome oracle (`GlanceSlice.Backend`). The cache is a map without expiry or JSON serialisation. The cache-hit body's `int32` casts and its writes to `shared_resources` (`c_glance.py:22-48`) are left out.
- Back-end response bodies and sweep result entries are taken to be JSON objects. A `null` or non-object body (`data.error` in the sweep) or a `null` result entry (`result.error`, `data.TotalCost` in the comparative view) throws in the code; the model reads `undefined` from it instead.
- The Redux thunk machinery is not modelled: a rejected thunk carries a fixed message, and action creators are plain values.
- Concurrency and effect scheduling are not modelled. `Promise.all` and React's effect order are sequential steps here.
- `toUpperCase` in `ActionsTable.HeaderName` is modelled for ASCII letters only.
- CGlance.CacheKey: Python's `repr` escaping of quotes and backslashes inside feature names is not modelled; each name is put between single quotes as it is.
- `apply_action_pandas`, `C_GLANCE` (fit and `explain_group`), `cumulative`, the classifier's `predict` and pandas `merge`/`groupby`/`cumcount` are parameters. `apply_action_pandas` is assumed to work row by row and to keep the row labels.
- `replace(np.inf, '-')` (`c_glance.py:139`) is modelled on the chosen-action column only. The other columns hold features, predictions and cluster numbers, which are assumed finite.
- Index labels in `apply_actions.py` are assumed distinct. Duplicate labels would collapse when pandas builds dicts from them.
- Shuffling before the split, and all other randomness, are not modelled. `datetime.strptime` and the date subtraction become the parameter `elapsedDays`, which answers `None` where `strptime` would raise; which texts parse is not modelled.
- HELOC's row filter and median imputation (`utils_data.py:353`, `364-367`) are not modelled. `dropna` on the COMPAS day counts and default-credit's unused `cols` list are left out too.
- Model training, accuracy reporting, `load_models`, `dnn_with_preprocess_module.py` and `umap.py` are not modelled; they are numeric library code.
- `renderCell` (`ActionsTable.tsx:36-63`) and every Vega-Lite chart definition are not modelled; they are presentation only.
- The `_Prediction` suffix rewrite inside the ActionScatter chart (`ActionScatter.tsx:373`) is not modelled.
- LastUmap's table rows (`LastUmap.tsx:25-29`) are the same computation as `ActionScatter.TableRows` and are not modelled a second time.
- GlanceComponent's initial dispatches (`GlanceComponent.tsx:85-93`) and the slice's other thunks and reducer cases (the uploads, `fetchGetData`, the initial data load) are not modelled.
- `handleCfMethodChange` (`ComparativeGlance.tsx:64-71`) is not modelled, because the method selector never calls it.
- ActionsTable.Columns: its own contract states the count, the headers and `Population` last. That the columns are the unique keys in their original order, with `Population` moved, is stated by `ActionsTable.ReorderedKeys`.
- UmapScatter.ProcessedData: its own contract states only the missing-data error. The label back-fill and the unchanged key set are stated by `UmapScatter.LabelBackFill` and `UmapScatter.ProcessedKeys`.
- UtilsData.LabelFlips: it states the label encodings as facts about the flip functions, which are the model of lines 214, 298, 355-357 and 415-417.

## Findings

| source | as written | input that shows it | evidently intended | confidence | as-written member | corrected member |
|---|---|---|---|---|---|---|
| GlanceDemoPaper-main/src/glance/utils/utils_data.py:132-182 | the numeric German branch never assigns `target_name`, and the separate `if`/`elif` chain after it matches no branch, so the return on line 565 reads an unbound name | `preprocess_datasets("germannumeric_credit", ...)` raises `UnboundLocalError` after the model has been trained | `target_name` is the last column of the loaded data, as for the other data sets | medium; not executed | UtilsData.TargetNameAsWritten (exhibited by UtilsData.GermanNumericHasNoTarget) | UtilsData.TargetName (with UtilsData.TargetIsLabelColumn) |
