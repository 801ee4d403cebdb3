/**
 * The comparative-analysis panel: how sweep results are labelled, split into successes
 * and errors and turned into chart rows, and the small pieces of form state around the
 * Run button.
 */
module ComparativeGlance {
  import opened Wrappers
  import opened Js
  import Decimal
  import GlanceSlice
  import Seqs

  const UnexpectedError: string := "An unexpected error occurred."
  const NearestNeighbors: string := "NearestNeighbors"

  // ---------------------------------------------------------------------------
  // Suffix of a result key

  /** What `s.split('_').pop()` returns: the longest suffix of `s` without an underscore. */
  function LastPiece(s: string): (r: string)
    ensures |r| <= |s| && r == s[|s| - |r|..]
    ensures '_' !in r
    ensures |r| < |s| ==> s[|s| - |r| - 1] == '_'
  {
    if s == [] then []
    else if s[|s| - 1] == '_' then []
    else
      var init := s[..|s| - 1];
      var r := LastPiece(init);
      assert init[|init| - |r|..] == s[|s| - 1 - |r|..|s| - 1];
      r + [s[|s| - 1]]
  }

  /** `getSuffix`: the text after the last underscore, or the whole key when that text is empty. */
  function GetSuffix(s: string): (r: string)
    ensures '_' !in s ==> r == s
    ensures |s| > 0 && s[|s| - 1] == '_' ==> r == s
    ensures r != s ==> r != [] && '_' !in r && |r| < |s| && s == s[..|s| - |r| - 1] + "_" + r
  {
    var piece := LastPiece(s);
    if piece != [] then piece else s
  }

  /** A key built as `prefix_x` shows as `x` when `x` is non-empty and has no underscore. */
  lemma GetSuffixOfJoined(prefix: string, x: string)
    requires x != [] && '_' !in x
    ensures GetSuffix(prefix + "_" + x) == x
  {
    var s := prefix + "_" + x;
    var r := LastPiece(s);
    assert s[|prefix|] == '_';
    assert forall i :: |prefix| < i < |s| ==> s[i] == x[i - |prefix| - 1];
    assert r == s[|s| - |x|..] == x;
  }

  /** Number keys print without underscores. */
  lemma IntToStrNoUnderscore(n: int)
    ensures '_' !in Decimal.IntToStr(n)
  {
    var t := Decimal.IntToStr(n);
    var digits := Decimal.NatToStr(if n < 0 then -n else n);
    assert forall i :: 0 <= i < |digits| ==> digits[i] != '_';
    if n < 0 {
      assert t == "-" + digits;
    }
  }

  /** The displayed label of a sweep entry is the swept value: a size, or a method/strategy name without `_`. */
  lemma DisplayKeyOfSweepKey(d: GlanceSlice.Dimension, v: Value)
    requires v.Num? || (v.Str? && v.s != [] && '_' !in v.s)
    ensures GetSuffix(GlanceSlice.KeyFor(d, v)) == ToStr(v)
  {
    if v.Num? {
      IntToStrNoUnderscore(v.n);
    }
    GetSuffixOfJoined(GlanceSlice.Prefix(d), ToStr(v));
  }

  // ---------------------------------------------------------------------------
  // Result views

  /** `getRowLabelKey`: the column naming the swept value. */
  function RowLabelKey(mode: string): (name: string)
    ensures GlanceSlice.DimensionOf(mode).None? <==> name == "key"
    ensures name !in ["TotalCost", "TotalEffectiveness", "DisplayKey"]
  {
    if mode == GlanceSlice.SizeMode then "Counterfactual Actions"
    else if mode == GlanceSlice.MethodMode then "Local Counterfactual Methods"
    else if mode == GlanceSlice.StrategyMode then "Action Choice Strategy"
    else "key"
  }

  /** One chart row: cost, effectiveness, the raw key under the mode's label and its display form. */
  function ScatterRow(mode: string, entry: Field): (row: Object)
    ensures WellFormed(row)
    ensures Keys(row) == ["TotalCost", "TotalEffectiveness", RowLabelKey(mode), "DisplayKey"]
    ensures Get(row, RowLabelKey(mode)) == Str(entry.key)
    ensures Get(row, "DisplayKey") == Str(GetSuffix(entry.key))
    ensures Get(row, "TotalCost") == OptMember(entry.val, "TotalCost")
    ensures Get(row, "TotalEffectiveness") == OptMember(entry.val, "TotalEffectiveness")
  {
    var cost := Field("TotalCost", OptMember(entry.val, "TotalCost"));
    var effectiveness := Field("TotalEffectiveness", OptMember(entry.val, "TotalEffectiveness"));
    var shown := Field(RowLabelKey(mode), Str(entry.key));
    var display := Field("DisplayKey", Str(GetSuffix(entry.key)));
    FourFields(cost, effectiveness, shown, display);
    [cost, effectiveness, shown, display]
  }

  /** `scatterPlotData`: one row per result entry, error entries included, in key order. */
  function ScatterPlotData(mode: string, results: Object): (rows: seq<Object>)
    ensures |rows| == |results|
    ensures forall i :: 0 <= i < |rows| ==>
      Get(rows[i], "DisplayKey") == Str(GetSuffix(results[i].key)) && Get(rows[i], RowLabelKey(mode)) == Str(results[i].key)
  {
    seq(|results|, i requires 0 <= i < |results| => ScatterRow(mode, results[i]))
  }

  /** `result.error` is truthy. */
  predicate IsError(entry: Field) {
    Truthy(OptMember(entry.val, "error"))
  }

  /** `!result.error` */
  predicate IsValid(entry: Field) {
    !IsError(entry)
  }

  /** `validResults`: the entries whose `error` is falsy, in order. */
  function ValidResults(entries: seq<Field>): (r: seq<Field>)
    ensures forall f :: f in r <==> f in entries && !IsError(f)
    ensures |r| <= |entries|
  {
    Seqs.Filter(entries, IsValid)
  }

  /** `errorResults`: the entries whose `error` is truthy, in order. */
  function ErrorResults(entries: seq<Field>): (r: seq<Field>)
    ensures forall f :: f in r <==> f in entries && IsError(f)
    ensures |r| <= |entries|
  {
    Seqs.Filter(entries, IsError)
  }

  /** `hasErrors`: some entry has a truthy `error`. */
  predicate HasErrors(entries: seq<Field>) {
    exists i :: 0 <= i < |entries| && IsError(entries[i])
  }

  /** Successes and errors split the entries: together they are the entries, each entry in exactly one. */
  lemma {:induction false} ResultsPartition(entries: seq<Field>)
    ensures multiset(ValidResults(entries)) + multiset(ErrorResults(entries)) == multiset(entries)
    ensures |ValidResults(entries)| + |ErrorResults(entries)| == |entries|
  {
    if entries != [] {
      var init, last := entries[..|entries| - 1], entries[|entries| - 1];
      ResultsPartition(init);
      assert entries == init + [last];
      Seqs.FilterSnoc(init, last, IsValid);
      Seqs.FilterSnoc(init, last, IsError);
    }
  }

  /**
   * Both lists keep the entries' order: the entries of a prefix come first, before those
   * of the rest. Entries of one object have distinct keys, so neither list repeats one.
   */
  lemma ResultsOrder(a: seq<Field>, b: seq<Field>)
    ensures ValidResults(a + b) == ValidResults(a) + ValidResults(b)
    ensures ErrorResults(a + b) == ErrorResults(a) + ErrorResults(b)
    ensures Seqs.Distinct(a) ==> Seqs.Distinct(ValidResults(a)) && Seqs.Distinct(ErrorResults(a))
  {
    Seqs.FilterAppend(a, b, IsValid);
    Seqs.FilterAppend(a, b, IsError);
    if Seqs.Distinct(a) {
      Seqs.FilterDistinct(a, IsValid);
      Seqs.FilterDistinct(a, IsError);
    }
  }

  /** The error table shows exactly when `hasErrors` holds. */
  lemma HasErrorsIff(entries: seq<Field>)
    ensures HasErrors(entries) <==> ErrorResults(entries) != []
  {
    if HasErrors(entries) {
      var i :| 0 <= i < |entries| && IsError(entries[i]);
      assert entries[i] in ErrorResults(entries);
    }
    if ErrorResults(entries) != [] {
      var f := ErrorResults(entries)[0];
      assert f in entries;
      var i :| 0 <= i < |entries| && entries[i] == f;
      assert IsError(entries[i]);
    }
  }

  /** A sweep entry recorded for a failure is listed as an error. */
  lemma FailureEntryIsError(message: string, key: string)
    requires message != []
    ensures IsError(Field(key, Obj(GlanceSlice.ErrorEntry(Str(message)))))
  {
  }

  /** A merged success entry is listed as a valid result. */
  lemma MergedEntryIsValid(response: Object, applied: Value, reduced: Value, key: string)
    requires WellFormed(response) && !Truthy(Get(response, "error"))
    ensures !IsError(Field(key, Obj(GlanceSlice.Merged(response, applied, reduced))))
  {
    var m := GlanceSlice.Merged(response, applied, reduced);
    GlanceSlice.MergedFields(response, applied, reduced);
    assert Get(m, "error") == Get(response, "error");
    assert OptMember(Obj(m), "error") == Get(m, "error");
  }

  // ---------------------------------------------------------------------------
  // Details toggle

  datatype Details = Details(selectedRowKey: Option<string>, selectedDetails: Value, showPlots: bool)

  /** `clearDetails` */
  const Cleared: Details := Details(None, Null, true)

  /** `handleViewDetails(key, data)` */
  function ViewDetails(d: Details, key: string, data: Value): (r: Details)
    ensures d.selectedRowKey == Some(key) ==> r.selectedRowKey.None? && r.showPlots
    ensures d.selectedRowKey != Some(key) ==> r.selectedRowKey == Some(key) && r.selectedDetails == data && !r.showPlots
  {
    if d.selectedRowKey == Some(key) then Cleared else Details(Some(key), data, false)
  }

  /** Plots show exactly when no row is selected. */
  predicate Consistent(d: Details) {
    d.showPlots <==> d.selectedRowKey.None?
  }

  /** Viewing keeps plots and selection consistent, and clicking the same row twice returns to the cleared state. */
  lemma ViewDetailsToggles(d: Details, key: string, x: Value, y: Value)
    requires Consistent(d)
    ensures Consistent(ViewDetails(d, key, x))
    ensures d.selectedRowKey != Some(key) ==> ViewDetails(ViewDetails(d, key, x), key, y) == Cleared
  {
  }

  // ---------------------------------------------------------------------------
  // Form state

  datatype Form = Form(
    mode: string,
    sizes: seq<int>,
    methods: seq<Value>,
    strategies: seq<Value>,
    features: seq<string>,
    comparativeLoading: bool)

  /** `[list[0]]`: a one-element list holding the first entry, `undefined` when the list is empty. */
  function FirstAsList(available: seq<string>): (r: seq<Value>)
    ensures |r| == 1
    ensures available != [] ==> r == [Str(available[0])]
    ensures available == [] ==> r == [Undefined]
  {
    [if available != [] then Str(available[0]) else Undefined]
  }

  /** The execution-mode select: switch the mode and reset every list to its default. */
  function ChangeMode(f: Form, mode: string, cfMethods: seq<string>, strategies: seq<string>, features: seq<string>): (g: Form)
    ensures g.comparativeLoading == f.comparativeLoading
    ensures RunDisabled(g) <==> f.comparativeLoading
  {
    f.(mode := mode, sizes := [3], methods := FirstAsList(cfMethods), strategies := FirstAsList(strategies), features := features)
  }

  /** The candidate list the current mode sweeps over, as sizes/methods/strategies; `None` for an unknown mode. */
  function SweptLength(f: Form): Option<nat> {
    match GlanceSlice.DimensionOf(f.mode)
    case None => None
    case Some(Size) => Some(|f.sizes|)
    case Some(Method) => Some(|f.methods|)
    case Some(Strategy) => Some(|f.strategies|)
  }

  /** The Run button's `disabled` condition: a sweep is running or the swept list is empty. */
  function RunDisabled(f: Form): (disabled: bool)
    ensures disabled <==> f.comparativeLoading || SweptLength(f) == Some(0)
  {
    f.comparativeLoading
    || (f.mode == GlanceSlice.SizeMode && |f.sizes| == 0)
    || (f.mode == GlanceSlice.MethodMode && |f.methods| == 0)
    || (f.mode == GlanceSlice.StrategyMode && |f.strategies| == 0)
  }

  /** `isNearestNeighborsSelected`: the feature select is disabled. */
  predicate FeaturesDisabled(f: Form) {
    Str(NearestNeighbors) in f.methods
  }

  /** The arguments `handleRun` passes to the sweep. */
  function RunParams(f: Form): (p: GlanceSlice.ComparativeParams)
    ensures p.caseType == f.mode && p.methods == Some(f.methods) && p.strategies == Some(f.strategies)
    ensures p.sizes == Some(f.sizes) && p.selectedFeatures == Some(f.features)
  {
    GlanceSlice.ComparativeParams(Some(f.sizes), Some(f.methods), Some(f.strategies), Some(f.features), f.mode)
  }

  /** An enabled Run in a known mode starts a sweep with at least one candidate. */
  lemma EnabledRunSweeps(f: Form)
    requires !RunDisabled(f) && GlanceSlice.DimensionOf(f.mode).Some?
    ensures GlanceSlice.PlanOf(RunParams(f)).Some?
    ensures |GlanceSlice.PlanOf(RunParams(f)).value.values| > 0
  {
  }

  /**
   * After a mode change Run is enabled unless a sweep is loading or the new mode is
   * unknown-and-irrelevant; the lists hold one default each and features are all offered.
   */
  lemma ChangeModeResets(f: Form, mode: string, cfMethods: seq<string>, strategies: seq<string>, features: seq<string>)
    ensures var g := ChangeMode(f, mode, cfMethods, strategies, features);
      && g.mode == mode && g.sizes == [3] && |g.methods| == 1 && |g.strategies| == 1 && g.features == features
      && g.methods == FirstAsList(cfMethods) && g.strategies == FirstAsList(strategies)
      && (RunDisabled(g) <==> f.comparativeLoading)
      && (FeaturesDisabled(g) <==> cfMethods != [] && cfMethods[0] == NearestNeighbors)
  {
  }

  // ---------------------------------------------------------------------------
  // Run feedback

  /**
   * What `handleRun` does with the settled sweep: keep the results on success; on any
   * rejection clear them and show an error. `unwrap()` rethrows either the `rejectWithValue`
   * payload (a string) or a serialized error, neither of which has a `detail`.
   */
  function RunFeedback(result: GlanceSlice.ThunkResult, message: Option<string>): (r: (Option<Object>, Option<string>))
    ensures result.Fulfilled? ==> r == (Some(result.results), message)
    ensures !result.Fulfilled? ==> r.0.None?
  {
    match result
    case Fulfilled(res) => (Some(res), message)
    case RejectedWithValue(_) => (None, Some(UnexpectedError))
    case Thrown(_) => (None, Some(UnexpectedError))
  }

  /** Every failed run shows the same generic message, whatever caused it. */
  lemma RunFeedbackGeneric(a: GlanceSlice.ThunkResult, b: GlanceSlice.ThunkResult, m: Option<string>, n: Option<string>)
    requires !a.Fulfilled? && !b.Fulfilled?
    ensures RunFeedback(a, m) == RunFeedback(b, n)
  {
  }
}
