/**
 * The comparative parameter sweep of the glance store slice (`runCGlanceComparative`)
 * and the reducer cases that go with it.
 *
 * The back end is an oracle. Because the server keeps per-run state, each answer may
 * depend on how far the sweep has got, so every oracle function takes the iteration
 * number. A sweep run yields the thunk's outcome together with the ordered trace of
 * the HTTP calls it issued.
 */
module GlanceSlice {
  import opened Wrappers
  import opened Js
  import Decimal
  import Seqs

  const SizeMode: string := "Number of Counterfactual Actions"
  const MethodMode: string := "Local Counterfactual Method"
  const StrategyMode: string := "Action Choice Strategy"

  const UnknownError: string := "Unknown error occurred."
  const DownstreamError: string := "Error in downstream processing."
  const InvalidCaseType: string := "Invalid caseType"
  const AppliedAffected: string := "appliedAffected"
  /** The `error.message` Redux Toolkit puts on an action rejected through `rejectWithValue`. */
  const RejectedMessage: string := "Rejected"

  /** The thunk argument: candidate lists (each optional) and the sweep mode. */
  datatype ComparativeParams = ComparativeParams(
    sizes: Option<seq<int>>,
    methods: Option<seq<Value>>,
    strategies: Option<seq<Value>>,
    selectedFeatures: Option<seq<string>>,
    caseType: string)

  /** Query parameters of one `run-c_glance` request. */
  datatype GenParams = GenParams(gcfSize: Value, cfMethod: Value, strategy: Value)

  /** What the generation endpoint does: a JSON body, a 400 with an optional `detail`, or any other failure. */
  datatype GenOutcome =
    | Generated(data: Object)
    | Rejected400(detail: Value)
    | GenFailed(message: string)

  /** What `apply_affected_actions` or `umap-reduce` does. */
  datatype StepOutcome = Responded(data: Value) | StepFailed(message: string)

  datatype Backend = Backend(
    generate: (nat, GenParams, Option<seq<string>>) -> GenOutcome,
    applyAffected: nat -> StepOutcome,
    umapReduce: nat -> StepOutcome)

  /** One HTTP call issued by the sweep, in issue order. */
  datatype Call =
    | Generate(params: GenParams, body: Option<seq<string>>)
    | ApplyAffected
    | UmapReduce(identifier: string, nComponents: int, outcome: StepOutcome)

  datatype Dimension = Size | Method | Strategy

  function DimensionOf(caseType: string): (d: Option<Dimension>)
    ensures d == Some(Size) <==> caseType == SizeMode
    ensures d == Some(Method) <==> caseType == MethodMode
    ensures d == Some(Strategy) <==> caseType == StrategyMode
  {
    if caseType == SizeMode then Some(Size)
    else if caseType == MethodMode then Some(Method)
    else if caseType == StrategyMode then Some(Strategy)
    else None
  }

  function Prefix(d: Dimension): string {
    match d
    case Size => "size"
    case Method => "method"
    case Strategy => "strategy"
  }

  /** `list?.[0]` */
  function FirstNum(l: Option<seq<int>>): Value {
    if l.Some? && |l.value| > 0 then Num(l.value[0]) else Undefined
  }

  function FirstOf(l: Option<seq<Value>>): Value {
    if l.Some? && |l.value| > 0 then l.value[0] else Undefined
  }

  /** `list || []`, as values. */
  function NumValues(l: Option<seq<int>>): (vs: seq<Value>)
    ensures l.None? ==> vs == []
    ensures l.Some? ==> |vs| == |l.value| && forall i :: 0 <= i < |vs| ==> vs[i] == Num(l.value[i])
  {
    if l.None? then [] else seq(|l.value|, i requires 0 <= i < |l.value| => Num(l.value[i]))
  }

  function ListValues(l: Option<seq<Value>>): (vs: seq<Value>)
    ensures l.None? ==> vs == []
    ensures l.Some? ==> vs == l.value
  {
    if l.None? then [] else l.value
  }

  /** The parameters every iteration shares: the first element of each list. */
  function Fixed(p: ComparativeParams): GenParams {
    GenParams(FirstNum(p.sizes), FirstOf(p.methods), FirstOf(p.strategies))
  }

  /** The request body: the selected features, or `null` when there are none. */
  function Body(p: ComparativeParams): (b: Option<seq<string>>)
    ensures b.Some? ==> |b.value| > 0 && p.selectedFeatures == b
  {
    if p.selectedFeatures.Some? && |p.selectedFeatures.value| > 0 then p.selectedFeatures else None
  }

  /** The fixed parameters with the swept one replaced by the candidate `v`. */
  function ParamsFor(fixed: GenParams, d: Dimension, v: Value): GenParams {
    match d
    case Size => fixed.(gcfSize := v)
    case Method => fixed.(cfMethod := v)
    case Strategy => fixed.(strategy := v)
  }

  /** The results key of a candidate: `size_3`, `method_DiCE`, `strategy_Min Cost`. */
  function KeyFor(d: Dimension, v: Value): string {
    Prefix(d) + "_" + ToStr(v)
  }

  datatype Plan = Plan(dim: Dimension, values: seq<Value>, fixed: GenParams, body: Option<seq<string>>)

  /** The switch on `caseType`: which list is swept; `None` for an unknown mode. */
  function PlanOf(p: ComparativeParams): (r: Option<Plan>)
    ensures r.None? <==> DimensionOf(p.caseType).None?
    ensures r.Some? ==> r.value.dim == DimensionOf(p.caseType).value && r.value.fixed == Fixed(p) && r.value.body == Body(p)
    ensures r.Some? && r.value.dim == Size ==> r.value.values == NumValues(p.sizes)
    ensures r.Some? && r.value.dim == Method ==> r.value.values == ListValues(p.methods)
    ensures r.Some? && r.value.dim == Strategy ==> r.value.values == ListValues(p.strategies)
  {
    match DimensionOf(p.caseType)
    case None => None
    case Some(d) =>
      var vs := match d
        case Size => NumValues(p.sizes)
        case Method => ListValues(p.methods)
        case Strategy => ListValues(p.strategies);
      Some(Plan(d, vs, Fixed(p), Body(p)))
  }

  /** One iteration of the loop: the entry it records, or the error it rethrows. */
  datatype Step = Entry(entry: Object, calls: seq<Call>) | Throw(message: string, calls: seq<Call>)

  /** What `handleRunCGlanceError` returns for a 400 response. */
  function RejectionMarker(detail: Value): Object {
    [Field("error", Bool(true)), Field("message", Or(detail, Str(UnknownError)))]
  }

  function ErrorEntry(message: Value): Object {
    [Field("error", message)]
  }

  /** The `umapReduce` thunk's payload, as `unwrap()` hands it back. */
  function UmapPayload(reduced: Value): Object {
    [Field("data", reduced), Field("datasetIdentifier", Str(AppliedAffected))]
  }

  /** `{...response, applyAffectedActions, umapOfAppliedAffected}`: the fields of the literal, written left to right. */
  function Merged(response: Object, applied: Value, reduced: Value): Object {
    Assign([], response + [Field("applyAffectedActions", applied), Field("umapOfAppliedAffected", Obj(UmapPayload(reduced)))])
  }

  /** The merged entry carries the two downstream results and, under every other key, the generation response. */
  lemma MergedFields(response: Object, applied: Value, reduced: Value)
    requires WellFormed(response)
    ensures Get(Merged(response, applied, reduced), "applyAffectedActions") == applied
    ensures Get(Merged(response, applied, reduced), "umapOfAppliedAffected") == Obj(UmapPayload(reduced))
    ensures forall k :: k != "applyAffectedActions" && k != "umapOfAppliedAffected" ==>
      Get(Merged(response, applied, reduced), k) == Get(response, k)
  {
    var payload := Obj(UmapPayload(reduced));
    var first := response + [Field("applyAffectedActions", applied)];
    var src := first + [Field("umapOfAppliedAffected", payload)];
    assert response + [Field("applyAffectedActions", applied), Field("umapOfAppliedAffected", payload)] == src;
    assert src[..|src| - 1] == first && first[..|first| - 1] == response;
    CopyOfWellFormed(response);
    assert Assign([], src) == Put(Put(response, "applyAffectedActions", applied), "umapOfAppliedAffected", payload);
  }

  /** The loop body after `runAndHandleErrors` returned `response` without throwing. */
  function AfterGeneration(b: Backend, i: nat, response: Object, calls: seq<Call>): Step {
    if Truthy(Get(response, "error")) then Entry(ErrorEntry(Get(response, "message")), calls)
    else
      match b.applyAffected(i)
      case StepFailed(_) => Entry(ErrorEntry(Str(DownstreamError)), calls + [ApplyAffected])
      case Responded(applied) =>
        var u := b.umapReduce(i);
        var calls' := calls + [ApplyAffected, UmapReduce(AppliedAffected, 2, u)];
        match u
        case StepFailed(_) => Entry(ErrorEntry(Str(DownstreamError)), calls')
        case Responded(reduced) => Entry(Merged(response, applied, reduced), calls')
  }

  /** Iteration `i` of the sweep loop, for the candidate parameters `params`. */
  function Iteration(b: Backend, i: nat, params: GenParams, body: Option<seq<string>>): (s: Step)
    // every iteration starts with exactly one generation request
    ensures |s.calls| >= 1 && s.calls[0] == Generate(params, body)
    // only a non-400 failure of the generation request is rethrown
    ensures b.generate(i, params, body).GenFailed? <==> s.Throw?
  {
    var gen := Generate(params, body);
    match b.generate(i, params, body)
    case GenFailed(m) => Throw(m, [gen])
    case Rejected400(d) => AfterGeneration(b, i, RejectionMarker(d), [gen])
    case Generated(data) => AfterGeneration(b, i, data, [gen])
  }

  /** A rethrown failure carries the request's own error, and nothing after the request is called. */
  lemma IterationThrows(b: Backend, i: nat, params: GenParams, body: Option<seq<string>>)
    requires Iteration(b, i, params, body).Throw?
    ensures Iteration(b, i, params, body).message == b.generate(i, params, body).message
    ensures Iteration(b, i, params, body).calls == [Generate(params, body)]
  {
  }

  /** A 400 records its `detail` (or the fallback text) and issues no downstream call. */
  lemma IterationRejected(b: Backend, i: nat, params: GenParams, body: Option<seq<string>>)
    requires b.generate(i, params, body).Rejected400?
    ensures Iteration(b, i, params, body)
      == Entry([Field("error", Or(b.generate(i, params, body).detail, Str(UnknownError)))], [Generate(params, body)])
  {
    var m := RejectionMarker(b.generate(i, params, body).detail);
    assert Get(m, "error") == Bool(true);
    assert Get(m, "message") == Or(b.generate(i, params, body).detail, Str(UnknownError));
  }

  /** A response that itself reports an error is recorded as that error's message, with no downstream call. */
  lemma IterationReportedError(b: Backend, i: nat, params: GenParams, body: Option<seq<string>>)
    requires b.generate(i, params, body).Generated? && Truthy(Get(b.generate(i, params, body).data, "error"))
    ensures Iteration(b, i, params, body)
      == Entry([Field("error", Get(b.generate(i, params, body).data, "message"))], [Generate(params, body)])
  {
  }

  /** When applying or reducing fails after a good response, only the fixed error text is kept. */
  lemma IterationDownstreamFailure(b: Backend, i: nat, params: GenParams, body: Option<seq<string>>)
    requires b.generate(i, params, body).Generated? && !Truthy(Get(b.generate(i, params, body).data, "error"))
    requires b.applyAffected(i).StepFailed? || b.umapReduce(i).StepFailed?
    ensures Iteration(b, i, params, body).Entry?
    ensures Iteration(b, i, params, body).entry == [Field("error", Str(DownstreamError))]
  {
  }

  /** A full success merges the three responses and calls each endpoint once, in order. */
  lemma IterationSuccess(b: Backend, i: nat, params: GenParams, body: Option<seq<string>>)
    requires b.generate(i, params, body).Generated? && !Truthy(Get(b.generate(i, params, body).data, "error"))
    requires b.applyAffected(i).Responded? && b.umapReduce(i).Responded?
    ensures Iteration(b, i, params, body)
      == Entry(Merged(b.generate(i, params, body).data, b.applyAffected(i).data, b.umapReduce(i).data),
               [Generate(params, body), ApplyAffected, UmapReduce(AppliedAffected, 2, b.umapReduce(i))])
  {
  }

  /** Within one iteration the only generation request is the first call. */
  lemma IterationRequests(b: Backend, i: nat, params: GenParams, body: Option<seq<string>>)
    ensures forall c :: c in Iteration(b, i, params, body).calls && c.Generate? ==> c == Generate(params, body)
  {
  }

  function StepAt(b: Backend, plan: Plan, i: nat): Step
    requires i < |plan.values|
  {
    Iteration(b, i, ParamsFor(plan.fixed, plan.dim, plan.values[i]), plan.body)
  }

  function KeyAt(plan: Plan, i: nat): string
    requires i < |plan.values|
  {
    KeyFor(plan.dim, plan.values[i])
  }

  /**
   * Every iteration of a plan. Iteration `i` depends only on `i` and its candidate, so the
   * steps can be listed up front; the loop below consumes them until the first throw.
   */
  function Steps(b: Backend, plan: Plan): (ss: seq<Step>)
    ensures |ss| == |plan.values| && forall i :: 0 <= i < |ss| ==> ss[i] == StepAt(b, plan, i)
  {
    seq(|plan.values|, i requires 0 <= i < |plan.values| => StepAt(b, plan, i))
  }

  /** The key of every candidate, in loop order. */
  function KeysOf(plan: Plan): (ks: seq<string>)
    ensures |ks| == |plan.values| && forall i :: 0 <= i < |ks| ==> ks[i] == KeyAt(plan, i)
  {
    seq(|plan.values|, i requires 0 <= i < |plan.values| => KeyAt(plan, i))
  }

  /**
   * The loop state after some iterations: the writes `results[key] = entry` made so far,
   * in order, or the rethrown error.
   */
  datatype Progress = Running(writes: Object, calls: seq<Call>) | Aborted(message: string, calls: seq<Call>)

  /** The `for` loop over the first `n` steps: write each entry under its key, stop at a throw. */
  function Loop(steps: seq<Step>, keys: seq<string>, n: nat): (p: Progress)
    requires n <= |steps| == |keys|
    ensures p.Running? ==> |p.writes| == n && forall j :: 0 <= j < n ==> p.writes[j].key == keys[j]
  {
    if n == 0 then Running([], [])
    else
      match Loop(steps, keys, n - 1)
      case Aborted(m, c) => Aborted(m, c)
      case Running(w, c) =>
        match steps[n - 1]
        case Throw(m, c2) => Aborted(m, c + c2)
        case Entry(e, c2) => Running(w + [Field(keys[n - 1], Obj(e))], c + c2)
  }

  datatype ThunkResult = Fulfilled(results: Object) | RejectedWithValue(payload: string) | Thrown(message: string)

  datatype Run = Run(result: ThunkResult, calls: seq<Call>)

  /** `runCGlanceComparative`: the results object is `{}` after the loop's writes. */
  function RunCGlanceComparative(b: Backend, p: ComparativeParams): (r: Run)
    ensures DimensionOf(p.caseType).None? ==> r == Run(RejectedWithValue(InvalidCaseType), [])
    ensures PlanOf(p).Some? && PlanOf(p).value.values == [] ==> r == Run(Fulfilled([]), [])
    ensures r.result.RejectedWithValue? ==> r.result.payload == InvalidCaseType
  {
    match PlanOf(p)
    case None => Run(RejectedWithValue(InvalidCaseType), [])
    case Some(plan) =>
      match Loop(Steps(b, plan), KeysOf(plan), |plan.values|)
      case Running(w, c) => Run(Fulfilled(Assign([], w)), c)
      case Aborted(m, c) => Run(Thrown(m), c)
  }

  /** The loop survives exactly as long as no step throws; when one does, the first thrower's error wins. */
  lemma {:induction false} LoopAborts(steps: seq<Step>, keys: seq<string>, n: nat)
    requires n <= |steps| == |keys|
    ensures Loop(steps, keys, n).Running? <==> forall j :: 0 <= j < n ==> steps[j].Entry?
    ensures Loop(steps, keys, n).Aborted? ==>
      exists j :: 0 <= j < n && steps[j].Throw? && Loop(steps, keys, n).message == steps[j].message
        && forall j' :: 0 <= j' < j ==> steps[j'].Entry?
  {
    if n > 0 {
      LoopAborts(steps, keys, n - 1);
    }
  }

  /** A loop that ran through has written every step's entry under its key, in loop order. */
  lemma {:induction false} LoopWrites(steps: seq<Step>, keys: seq<string>, n: nat)
    requires n <= |steps| == |keys|
    requires Loop(steps, keys, n).Running?
    ensures |Loop(steps, keys, n).writes| == n
    ensures forall j :: 0 <= j < n ==>
      steps[j].Entry? && Loop(steps, keys, n).writes[j] == Field(keys[j], Obj(steps[j].entry))
  {
    if n > 0 {
      LoopWrites(steps, keys, n - 1);
    }
  }

  /** The results of a loop that ran through have one key per distinct key, in first-appearance order. */
  lemma LoopResultKeys(steps: seq<Step>, keys: seq<string>)
    requires |steps| == |keys|
    requires Loop(steps, keys, |steps|).Running?
    ensures Keys(Assign([], Loop(steps, keys, |steps|).writes)) == Seqs.Dedup(keys)
    ensures WellFormed(Assign([], Loop(steps, keys, |steps|).writes))
  {
    var w := Loop(steps, keys, |steps|).writes;
    LoopWrites(steps, keys, |steps|);
    assert Keys(w) == keys;
    assert WellFormed([]);
    AssignKeys([], w);
    assert Keys([]) + Keys(w) == keys;
    AssignWellFormed([], w);
  }

  /** Under a key, the results hold the entry of the last step with that key. */
  lemma LoopResultEntry(steps: seq<Step>, keys: seq<string>, j: nat)
    requires |steps| == |keys| && j < |steps|
    requires Loop(steps, keys, |steps|).Running?
    requires forall j' :: j < j' < |steps| ==> keys[j'] != keys[j]
    ensures steps[j].Entry?
    ensures Get(Assign([], Loop(steps, keys, |steps|).writes), keys[j]) == Obj(steps[j].entry)
  {
    var w := Loop(steps, keys, |steps|).writes;
    LoopWrites(steps, keys, |steps|);
    assert forall j' :: j < j' < |w| ==> w[j'].key != w[j].key;
    LastGetAt(w, j);
    AssignGetLast([], w, keys[j]);
  }

  /** Every call the loop made was made by one of the steps it ran. */
  lemma {:induction false} LoopCalls(steps: seq<Step>, keys: seq<string>, n: nat)
    requires n <= |steps| == |keys|
    ensures forall c :: c in Loop(steps, keys, n).calls ==> exists j :: 0 <= j < n && c in steps[j].calls
  {
    if n > 0 {
      var prev := Loop(steps, keys, n - 1);
      LoopCalls(steps, keys, n - 1);
      if prev.Running? {
        var now := Loop(steps, keys, n);
        assert now.calls == prev.calls + steps[n - 1].calls;
        forall c | c in now.calls ensures exists j :: 0 <= j < n && c in steps[j].calls {
          if c in prev.calls {
            var j :| 0 <= j < n - 1 && c in steps[j].calls;
          } else {
            assert c in steps[n - 1].calls;
          }
        }
      }
    }
  }

  /** Two candidates of one sweep share a key exactly when they are the same value. */
  lemma KeyForInjective(d: Dimension, v: Value, w: Value)
    requires (v.Num? && w.Num?) || (v.Str? && w.Str?)
    ensures KeyFor(d, v) == KeyFor(d, w) <==> v == w
  {
    var pre := Prefix(d) + "_";
    if KeyFor(d, v) == KeyFor(d, w) {
      assert ToStr(v) == KeyFor(d, v)[|pre|..];
      assert ToStr(w) == KeyFor(d, w)[|pre|..];
      if v.Num? {
        Decimal.IntToStrInjective(v.n, w.n);
      }
    }
  }

  /** A plan's candidates are uniform when they are all numbers or all strings (always so for sizes). */
  predicate Uniform(plan: Plan) {
    forall i :: 0 <= i < |plan.values| ==> if plan.dim == Size then plan.values[i].Num? else plan.values[i].Str?
  }

  lemma SizePlansUniform(p: ComparativeParams)
    requires PlanOf(p).Some? && PlanOf(p).value.dim == Size
    ensures Uniform(PlanOf(p).value)
  {
  }

  /** Among uniform candidates, later ones repeat an earlier key exactly when they repeat its value. */
  lemma UniformKeysDistinct(plan: Plan, j: nat)
    requires Uniform(plan) && j < |plan.values|
    ensures (forall j' :: j < j' < |plan.values| ==> plan.values[j'] != plan.values[j])
        <==> (forall j' :: j < j' < |plan.values| ==> KeyAt(plan, j') != KeyAt(plan, j))
  {
    forall j' | j < j' < |plan.values| ensures KeyAt(plan, j') == KeyAt(plan, j) <==> plan.values[j'] == plan.values[j] {
      KeyForInjective(plan.dim, plan.values[j'], plan.values[j]);
    }
  }

  /**
   * The sweep is fulfilled exactly when no candidate hit a non-400 failure; otherwise the
   * first such failure is rethrown and no results object is returned.
   */
  lemma ComparativeOutcome(b: Backend, p: ComparativeParams)
    requires PlanOf(p).Some?
    ensures var plan := PlanOf(p).value; var r := RunCGlanceComparative(b, p);
      && (r.result.Fulfilled? <==> forall j :: 0 <= j < |plan.values| ==> Steps(b, plan)[j].Entry?)
      && (!r.result.Fulfilled? ==> r.result.Thrown?)
      && (r.result.Thrown? ==>
            exists j :: 0 <= j < |plan.values| && Steps(b, plan)[j].Throw? && r.result.message == Steps(b, plan)[j].message
              && forall j' :: 0 <= j' < j ==> Steps(b, plan)[j'].Entry?)
  {
    var plan := PlanOf(p).value;
    LoopAborts(Steps(b, plan), KeysOf(plan), |plan.values|);
  }

  /** A fulfilled sweep has one key per distinct candidate, in first-appearance order. */
  lemma ComparativeKeys(b: Backend, p: ComparativeParams)
    requires PlanOf(p).Some? && RunCGlanceComparative(b, p).result.Fulfilled?
    ensures Keys(RunCGlanceComparative(b, p).result.results) == Seqs.Dedup(KeysOf(PlanOf(p).value))
    ensures WellFormed(RunCGlanceComparative(b, p).result.results)
  {
    var plan := PlanOf(p).value;
    LoopResultKeys(Steps(b, plan), KeysOf(plan));
  }

  /** In a fulfilled sweep, a candidate's key holds the entry of the last candidate with the same key. */
  lemma ComparativeEntry(b: Backend, p: ComparativeParams, j: nat)
    requires PlanOf(p).Some? && RunCGlanceComparative(b, p).result.Fulfilled?
    requires j < |PlanOf(p).value.values|
    requires var plan := PlanOf(p).value; forall j' :: j < j' < |plan.values| ==> KeyAt(plan, j') != KeyAt(plan, j)
    ensures Steps(b, PlanOf(p).value)[j].Entry?
    ensures Get(RunCGlanceComparative(b, p).result.results, KeyAt(PlanOf(p).value, j))
      == Obj(Steps(b, PlanOf(p).value)[j].entry)
  {
    var plan := PlanOf(p).value;
    LoopResultEntry(Steps(b, plan), KeysOf(plan), j);
  }

  /**
   * Every generation request of a sweep is for one of its candidates: the fixed parameters
   * with only the swept one replaced, and always the same body.
   */
  lemma ComparativeRequests(b: Backend, p: ComparativeParams)
    requires PlanOf(p).Some?
    ensures var plan := PlanOf(p).value;
      forall c :: c in RunCGlanceComparative(b, p).calls && c.Generate? ==>
        c.body == plan.body && exists j :: 0 <= j < |plan.values| && c.params == ParamsFor(plan.fixed, plan.dim, plan.values[j])
  {
    var plan := PlanOf(p).value;
    var n := |plan.values|;
    var steps := Steps(b, plan);
    LoopCalls(steps, KeysOf(plan), n);
    forall c | c in RunCGlanceComparative(b, p).calls && c.Generate?
      ensures c.body == plan.body && exists j :: 0 <= j < n && c.params == ParamsFor(plan.fixed, plan.dim, plan.values[j])
    {
      var j :| 0 <= j < n && c in steps[j].calls;
      IterationRequests(b, j, ParamsFor(plan.fixed, plan.dim, plan.values[j]), plan.body);
    }
  }

  /** The swept parameter is the only one that differs from the first element of its list. */
  lemma ParamsForKeepsOthers(fixed: GenParams, d: Dimension, v: Value)
    ensures d != Size ==> ParamsFor(fixed, d, v).gcfSize == fixed.gcfSize
    ensures d != Method ==> ParamsFor(fixed, d, v).cfMethod == fixed.cfMethod
    ensures d != Strategy ==> ParamsFor(fixed, d, v).strategy == fixed.strategy
    ensures d == Size ==> ParamsFor(fixed, d, v).gcfSize == v
    ensures d == Method ==> ParamsFor(fixed, d, v).cfMethod == v
    ensures d == Strategy ==> ParamsFor(fixed, d, v).strategy == v
  {
  }

  // ---------------------------------------------------------------------------
  // Reducers

  datatype State = State(
    selectedFeatures: seq<string>,
    processedSizes: seq<int>,
    runGlanceResult: Value,
    loadDatasetAndModelResult: Value,
    loading: bool,
    datasetLoading: bool,
    error: Value,
    comparativeResults: Object,
    comparativeLoading: bool,
    umapReduceResults: Object)

  const Initial: State := State([], [], Null, Null, false, false, Null, [], false, [])

  datatype Action =
    | SetSelectedFeatures(features: seq<string>)
    | SetProcessedSizes(sizes: seq<int>)
    | AddProcessedSize(size: int)
    | LoadPending
    | LoadFulfilled(payload: Value)
    | LoadRejected(message: string)
    | UmapPending
    | UmapFulfilled(identifier: string, data: Value)
    | UmapRejected(message: string)
    | ComparativePending
    | ComparativeFulfilled(results: Object)
    | ComparativeRejected(message: string)

  /** `action.error.message || fallback` */
  function ErrorText(message: string, fallback: string): Value {
    Str(if message != "" then message else fallback)
  }

  /** `addProcessedSize`: append the size unless it is already listed. */
  function AddSize(sizes: seq<int>, v: int): (r: seq<int>)
    ensures v in r
    ensures forall x :: x in r <==> x in sizes || x == v
    ensures |sizes| <= |r| <= |sizes| + 1 && r[..|sizes|] == sizes
    ensures Seqs.Distinct(sizes) ==> Seqs.Distinct(r)
  {
    if v in sizes then sizes else sizes + [v]
  }

  /** Adding a size twice is the same as adding it once; adding a listed size changes nothing. */
  lemma AddSizeIdempotent(sizes: seq<int>, v: int)
    ensures AddSize(AddSize(sizes, v), v) == AddSize(sizes, v)
    ensures v in sizes ==> AddSize(sizes, v) == sizes
    ensures v !in sizes ==> AddSize(sizes, v) == sizes + [v]
  {
  }

  function Reduce(s: State, a: Action): (r: State)
    ensures a.AddProcessedSize? ==> r.processedSizes == AddSize(s.processedSizes, a.size)
    ensures !(a.AddProcessedSize? || a.SetProcessedSizes?) ==> r.processedSizes == s.processedSizes
    ensures a.LoadFulfilled? ==>
      r.comparativeResults == [] && r.runGlanceResult == Null && r.error == Null
      && r.loadDatasetAndModelResult == a.payload && !r.datasetLoading
    ensures a.ComparativePending? ==> r == s.(comparativeLoading := true)
    ensures a.ComparativeFulfilled? ==> !r.comparativeLoading && r.comparativeResults == a.results && r.error == Null
    ensures a.ComparativeRejected? ==>
      !r.comparativeLoading && r.comparativeResults == s.comparativeResults && Truthy(r.error)
    ensures !(a.ComparativePending? || a.ComparativeFulfilled? || a.ComparativeRejected?) ==>
      r.comparativeLoading == s.comparativeLoading
    ensures !(a.ComparativeFulfilled? || a.LoadFulfilled?) ==> r.comparativeResults == s.comparativeResults
    ensures a.UmapFulfilled? ==>
      Get(r.umapReduceResults, a.identifier) == a.data
      && forall k :: k != a.identifier ==> Get(r.umapReduceResults, k) == Get(s.umapReduceResults, k)
  {
    match a
    case SetSelectedFeatures(f) => s.(selectedFeatures := f)
    case SetProcessedSizes(z) => s.(processedSizes := z)
    case AddProcessedSize(v) => s.(processedSizes := AddSize(s.processedSizes, v))
    case LoadPending => s.(datasetLoading := true)
    case LoadFulfilled(payload) =>
      s.(datasetLoading := false, loadDatasetAndModelResult := payload, runGlanceResult := Null,
         comparativeResults := [], error := Null)
    case LoadRejected(m) => s.(datasetLoading := false, error := ErrorText(m, "Error loading dataset and model"))
    case UmapPending => s.(loading := true)
    case UmapFulfilled(id, data) =>
      s.(loading := false, umapReduceResults := Put(s.umapReduceResults, id, data), error := Null)
    case UmapRejected(m) => s.(loading := false, error := ErrorText(m, "Error reducing UMAP"))
    case ComparativePending => s.(comparativeLoading := true)
    case ComparativeFulfilled(res) => s.(comparativeLoading := false, comparativeResults := res, error := Null)
    case ComparativeRejected(m) => s.(comparativeLoading := false, error := ErrorText(m, "Error in comparative analysis"))
  }

  function ReduceAll(s: State, actions: seq<Action>): State
    decreases |actions|
  {
    if actions == [] then s else ReduceAll(Reduce(s, actions[0]), actions[1..])
  }

  /** The actions the nested `umapReduce` dispatches of a sweep produce, in order. */
  function UmapActions(calls: seq<Call>): (acts: seq<Action>)
    ensures forall a :: a in acts ==> a.UmapPending? || a.UmapFulfilled? || a.UmapRejected?
  {
    if calls == [] then []
    else
      var rest := UmapActions(calls[1..]);
      match calls[0]
      case UmapReduce(id, _, Responded(data)) => [UmapPending, UmapFulfilled(id, data)] + rest
      case UmapReduce(_, _, StepFailed(m)) => [UmapPending, UmapRejected(m)] + rest
      case _ => rest
  }

  /** The action the thunk settles with. */
  function Settle(result: ThunkResult): (a: Action)
    ensures a.ComparativeFulfilled? <==> result.Fulfilled?
    ensures result.Fulfilled? ==> a.results == result.results
    ensures !result.Fulfilled? ==> a.ComparativeRejected?
    ensures result.RejectedWithValue? ==> a.message == RejectedMessage
  {
    match result
    case Fulfilled(res) => ComparativeFulfilled(res)
    case RejectedWithValue(_) => ComparativeRejected(RejectedMessage)
    case Thrown(m) => ComparativeRejected(m)
  }

  lemma {:induction false} UmapActionsKeepComparative(s: State, acts: seq<Action>)
    requires forall a :: a in acts ==> a.UmapPending? || a.UmapFulfilled? || a.UmapRejected?
    ensures ReduceAll(s, acts).comparativeResults == s.comparativeResults
    ensures ReduceAll(s, acts).comparativeLoading == s.comparativeLoading
    decreases |acts|
  {
    if acts != [] {
      assert acts[0] in acts;
      UmapActionsKeepComparative(Reduce(s, acts[0]), acts[1..]);
    }
  }

  /** Dispatching the sweep: pending, the nested UMAP actions, then fulfilled or rejected. */
  function DispatchComparative(s: State, b: Backend, p: ComparativeParams): (t: State)
    ensures !t.comparativeLoading
    ensures RunCGlanceComparative(b, p).result.Fulfilled? ==>
      t.comparativeResults == RunCGlanceComparative(b, p).result.results && t.error == Null
  {
    var run := RunCGlanceComparative(b, p);
    var mid := ReduceAll(Reduce(s, ComparativePending), UmapActions(run.calls));
    Reduce(mid, Settle(run.result))
  }

  /**
   * After a dispatched sweep the loader is off. A fulfilled sweep replaces the stored
   * results wholesale and clears the error; a rejected one sets an error and leaves the
   * previous results in place.
   */
  lemma DispatchComparativeSettles(s: State, b: Backend, p: ComparativeParams)
    ensures var r := RunCGlanceComparative(b, p); var t := DispatchComparative(s, b, p);
      && !t.comparativeLoading
      && (r.result.Fulfilled? ==> t.comparativeResults == r.result.results && t.error == Null)
      && (!r.result.Fulfilled? ==> t.comparativeResults == s.comparativeResults && Truthy(t.error))
      && (r.result.RejectedWithValue? ==> t.error == Str(RejectedMessage))
  {
    var run := RunCGlanceComparative(b, p);
    UmapActionsKeepComparative(Reduce(s, ComparativePending), UmapActions(run.calls));
  }
}
