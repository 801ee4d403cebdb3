/**
 * The `/run-c_glance` endpoint around the C-GLANCE algorithm: the strategy names the
 * page sends, the features to vary, the cost ordering of the cluster actions, the
 * clean-up of the returned actions, the per-row cluster numbers and chosen actions,
 * the mapping of failures to HTTP errors, and the response cache.
 *
 * The algorithm itself (`fit`, `explain_group`, `cumulative`) is a parameter.
 */
module CGlance {
  import opened Wrappers
  import opened PyData
  import Seqs
  import Sorting
  import Decimal

  /** The page's strategy names become the algorithm's; any other name is passed on as it is. */
  function NormaliseStrategy(name: string): (algo: string)
    ensures name == "Max Effectiveness" ==> algo == "max-eff"
    ensures name == "Min Cost" ==> algo == "low-cost"
    ensures name == "Mean Action" ==> algo == "mean-act"
    ensures name != "Max Effectiveness" && name != "Min Cost" && name != "Mean Action" ==> algo == name
  {
    if name == "Max Effectiveness" then "max-eff"
    else if name == "Min Cost" then "low-cost"
    else if name == "Mean Action" then "mean-act"
    else name
  }

  /** Normalising an already normalised name changes nothing: the algorithm's names are not page names. */
  lemma NormaliseStrategyIdempotent(name: string)
    ensures NormaliseStrategy(NormaliseStrategy(name)) == NormaliseStrategy(name)
  {
  }

  /**
   * `feat_to_vary`: the requested features when the list is non-empty, otherwise every
   * column but the target. The target is removed first, so a data set without it fails
   * (ValueError) whatever was requested.
   */
  function FeaturesToVary(columns: seq<string>, target: string, requested: Option<seq<string>>): (r: Option<seq<string>>)
    ensures r.None? <==> target !in columns
    ensures r.Some? && requested.Some? && requested.value != [] ==> r.value == requested.value
  {
    if target !in columns then None
    else
      var features := Seqs.RemoveFirst(columns, target);
      if requested.Some? && requested.value != [] then Some(requested.value) else Some(features)
  }

  /** With no request the features are exactly the other columns, in their order, without repetitions. */
  lemma FeaturesToVaryDefault(columns: seq<string>, target: string, requested: Option<seq<string>>)
    requires Seqs.Distinct(columns) && target in columns
    requires requested.None? || requested.value == []
    ensures var r := FeaturesToVary(columns, target, requested).value;
      r == columns[..Seqs.FirstIndex(columns, target)] + columns[Seqs.FirstIndex(columns, target) + 1..] &&
      Seqs.Distinct(r) &&
      (forall f :: f in r <==> f in columns && f != target)
  {
    assert FeaturesToVary(columns, target, requested) == Some(Seqs.RemoveFirst(columns, target));
    Seqs.RemoveFirstDistinct(columns, target);
  }

  /** One feature change of a cluster action; `-` marks a feature the action leaves alone. */
  datatype ActionEntry = ActionEntry(feature: string, change: Cell)

  datatype ClusterStats = ClusterStats(action: seq<ActionEntry>, effectiveness: int, cost: int, size: int)

  /** One item of `clusters_res`: the cluster's id and its statistics. */
  datatype ClusterResult = ClusterResult(id: int, stats: ClusterStats)

  function CostOf(r: ClusterResult): int {
    r.stats.cost
  }

  function ActionOf(r: ClusterResult): seq<ActionEntry> {
    r.stats.action
  }

  /** `dict(sorted(clusters_res.items(), key=lambda item: item[1]['cost']))` */
  function ByCost(results: seq<ClusterResult>): (r: seq<ClusterResult>)
    ensures Sorting.SortedBy(r, CostOf)
    ensures multiset(r) == multiset(results)
    ensures |r| == |results|
  {
    Sorting.SortBy(results, CostOf)
  }

  /** Clusters of equal cost keep the order `clusters_res` gave them. */
  lemma ByCostStable(results: seq<ClusterResult>, c: int)
    ensures Seqs.Having(ByCost(results), CostOf, c) == Seqs.Having(results, CostOf, c)
  {
    Sorting.SortByStable(results, CostOf, c);
  }

  /** `[stats["action"] for i, stats in sorted_actions_dict.items()]`: the list the chosen action indexes. */
  function ActionsByCost(results: seq<ClusterResult>): (actions: seq<seq<ActionEntry>>)
    ensures |actions| == |results|
    ensures forall i :: 0 <= i < |actions| ==> actions[i] == ByCost(results)[i].stats.action
  {
    Seqs.Map(ByCost(results), ActionOf)
  }

  /** A feature entry the response keeps: neither `0` nor `'-'`. */
  predicate Kept(e: ActionEntry) {
    e.change != Number(0) && e.change != Text("-")
  }

  /** `{ak: av for ak, av in v['action'].items() if av != 0 and av != '-'}` */
  function ReturnedAction(action: seq<ActionEntry>): seq<ActionEntry> {
    Seqs.Filter(action, Kept)
  }

  /** `actions_returned`: every cluster action, cheapest first, without its unchanged features. */
  function ReturnedActions(results: seq<ClusterResult>): (actions: seq<seq<ActionEntry>>)
    ensures |actions| == |results|
  {
    Seqs.Map(ActionsByCost(results), ReturnedAction)
  }

  /**
   * The i-th returned action holds exactly the entries of the i-th cheapest cluster's
   * action that are neither `0` nor `'-'`, and cleaning it again removes nothing.
   */
  lemma ReturnedActionEntries(results: seq<ClusterResult>, i: nat, e: ActionEntry)
    requires i < |results|
    ensures e in ReturnedActions(results)[i] <==>
      (e in ByCost(results)[i].stats.action && e.change != Number(0) && e.change != Text("-"))
    ensures ReturnedAction(ReturnedActions(results)[i]) == ReturnedActions(results)[i]
  {
    var r := ReturnedActions(results)[i];
    Seqs.FilterAll(r, Kept);
  }

  function Sum(sizes: seq<nat>): nat {
    if sizes == [] then 0 else Sum(sizes[..|sizes| - 1]) + sizes[|sizes| - 1]
  }

  /**
   * The `Cluster` column of the concatenated clusters: the k-th cluster, in iteration
   * order, is numbered k (from 1) on each of its rows.
   */
  function ClusterColumn(sizes: seq<nat>): (column: seq<int>)
    ensures |column| == Sum(sizes)
    ensures forall i :: 0 <= i < |column| ==> 1 <= column[i] <= |sizes|
    ensures forall i, j :: 0 <= i <= j < |column| ==> column[i] <= column[j]
  {
    if sizes == [] then []
    else
      var k := |sizes|;
      ClusterColumn(sizes[..k - 1]) + seq(sizes[k - 1], _ => k)
  }

  lemma RepeatCount(n: nat, v: int, k: int)
    ensures multiset(seq(n, _ => v))[k] == if k == v then n else 0
  {
    if n > 0 {
      RepeatCount(n - 1, v, k);
      assert seq(n, _ => v) == seq(n - 1, _ => v) + [v];
    }
  }

  /** Cluster k labels exactly as many rows as it has. */
  lemma {:induction false} ClusterColumnCounts(sizes: seq<nat>, k: int)
    requires 1 <= k <= |sizes|
    ensures multiset(ClusterColumn(sizes))[k] == sizes[k - 1]
  {
    var n := |sizes|;
    var init := sizes[..n - 1];
    RepeatCount(sizes[n - 1], n, k);
    if k < n {
      ClusterColumnCounts(init, k);
    } else {
      assert multiset(ClusterColumn(init))[k] == 0;
    }
  }

  /** What `cumulative` chose for an instance: an action's 0-based position, or none (`inf`). */
  datatype Choice = Picked(index: nat) | NoAction

  /** `Chosen_Action + 1` with infinity replaced by `'-'`: actions are numbered from 1. */
  function ChosenAction(c: Choice): (cell: Cell)
    ensures cell == Text("-") <==> c.NoAction?
    ensures c.Picked? ==> cell == Number(c.index + 1)
  {
    match c
    case Picked(i) => Number(i + 1)
    case NoAction => Text("-")
  }

  const NoCounterfactualsMessage := "No counterfactuals found for any of the query points! Kindly check your configuration."
  const NoCounterfactualsDetail := "No counterfactuals found for any of the query points! Please select different features."

  /** An exception raised by the algorithm: DiCE's configuration error, or anything else. */
  datatype Failure = ConfigError(message: string) | OtherError(message: string)

  datatype Reply<B> = Answer(body: B) | HttpError(status: int, detail: string)

  /** What FastAPI answers for an exception nobody catches. */
  function InternalError<B>(): Reply<B> {
    HttpError(500, "Internal Server Error")
  }

  /**
   * A failure inside the `try`: DiCE's configuration errors are the client's fault (400),
   * with the "no counterfactuals" message reworded; anything else escapes as a 500.
   */
  function FailureReply<B>(f: Failure): (r: Reply<B>)
    ensures r.HttpError?
    ensures r.status == 400 <==> f.ConfigError?
    ensures f.ConfigError? && f.message == NoCounterfactualsMessage ==> r.detail == NoCounterfactualsDetail
    ensures f.ConfigError? && f.message != NoCounterfactualsMessage ==> r.detail == f.message
  {
    match f
    case ConfigError(m) => HttpError(400, if m == NoCounterfactualsMessage then NoCounterfactualsDetail else m)
    case OtherError(_) => InternalError()
  }

  datatype Request = Request(dataset: string, model: string, gcfSize: int, cfMethod: string, strategy: string,
                             features: Option<seq<string>>)

  /** Python's `str` of a list of plain names: `['a', 'b']`. */
  function Quoted(fs: seq<string>): string {
    if fs == [] then ""
    else if |fs| == 1 then "'" + fs[0] + "'"
    else Quoted(fs[..|fs| - 1]) + ", '" + fs[|fs| - 1] + "'"
  }

  function Repr(features: Option<seq<string>>): string {
    match features
    case None => "None"
    case Some(fs) => "[" + Quoted(fs) + "]"
  }

  /** Everything in the cache key before the strategy. */
  function KeyHead(req: Request): string {
    "run-c_glance:" + req.dataset + ":" + req.model + ":" + Decimal.IntToStr(req.gcfSize) + ":" + req.cfMethod + ":"
  }

  /** `run-c_glance:{dataset}:{model}:{gcf_size}:{cf_method}:{action_choice_strategy}:{features_to_change}` */
  function CacheKey(req: Request): (key: string)
    ensures "run-c_glance:" <= key
    ensures |Repr(req.features)| <= |key| && key[|key| - |Repr(req.features)|..] == Repr(req.features)
  {
    KeyHead(req) + req.strategy + ":" + Repr(req.features)
  }

  lemma MiddleCancel(p: string, s: string, t: string, q: string)
    requires p + s + q == p + t + q
    ensures s == t
  {
    assert |s| == |t|;
    assert s == (p + s + q)[|p|..|p| + |s|];
    assert t == (p + t + q)[|p|..|p| + |t|];
  }

  /**
   * The key holds the strategy as the page sent it, before normalisation: two
   * requests that differ only in the strategy name are cached apart, even when both
   * names stand for the same algorithm setting.
   */
  lemma CacheKeyKeepsRawStrategy(req: Request, other: string)
    requires other != req.strategy
    ensures CacheKey(req.(strategy := other)) != CacheKey(req)
    ensures NormaliseStrategy("Max Effectiveness") == NormaliseStrategy("max-eff")
  {
    var q := ":" + Repr(req.features);
    assert CacheKey(req) == KeyHead(req) + req.strategy + q;
    assert CacheKey(req.(strategy := other)) == KeyHead(req) + other + q;
    if CacheKey(req.(strategy := other)) == CacheKey(req) {
      MiddleCancel(KeyHead(req), other, req.strategy, q);
    }
  }

  /** What the algorithm is run with. */
  datatype AlgorithmInput = AlgorithmInput(gcfSize: int, cfMethod: string, strategy: string, features: seq<string>)

  /** The part of the run inside the `try`: it gives the response or raises. */
  datatype Explained<B> = Explained(body: B) | Raised(failure: Failure)

  /** What running the algorithm does: `fit` may raise, and then the rest of the run. */
  datatype Attempt<B> = Attempt(fitFailure: Option<Failure>, explained: Explained<B>)

  /** The input the request runs the algorithm with, once the features are known. */
  function InputOf(req: Request, features: seq<string>): AlgorithmInput {
    AlgorithmInput(req.gcfSize, req.cfMethod, NormaliseStrategy(req.strategy), features)
  }

  /**
   * `run_glance`: the reply and the cache afterwards. A cached key is answered from the
   * cache without running anything. Otherwise a failure of the feature list or of `fit`
   * (outside the `try`) is a 500; a failure later in the run goes through `FailureReply`;
   * a success is answered and stored under the key.
   */
  function RunCGlance<B>(store: map<string, B>, req: Request, columns: seq<string>, target: string,
                         algorithm: AlgorithmInput -> Attempt<B>): (out: (Reply<B>, map<string, B>))
    ensures CacheKey(req) in store ==> out == (Answer(store[CacheKey(req)]), store)
    ensures out.0.HttpError? ==> out.1 == store
    ensures out.0.Answer? ==> CacheKey(req) in out.1 && out.1[CacheKey(req)] == out.0.body
    ensures forall k :: k in out.1 && k != CacheKey(req) ==> k in store && out.1[k] == store[k]
    ensures forall k :: k in store ==> k in out.1
  {
    var key := CacheKey(req);
    if key in store then (Answer(store[key]), store)
    else
      match FeaturesToVary(columns, target, req.features)
      case None => (InternalError(), store)
      case Some(features) =>
        var attempt := algorithm(InputOf(req, features));
        if attempt.fitFailure.Some? then (InternalError(), store)
        else
          match attempt.explained
          case Raised(f) => (FailureReply(f), store)
          case Explained(body) => (Answer(body), store[key := body])
  }

  /**
   * A request that succeeded is answered from the cache the next time, with the same
   * body, whatever the algorithm would do then; a failed run leaves no trace.
   */
  lemma RerunServedFromCache<B>(store: map<string, B>, req: Request, columns: seq<string>, target: string,
                                first: AlgorithmInput -> Attempt<B>, later: AlgorithmInput -> Attempt<B>)
    requires RunCGlance(store, req, columns, target, first).0.Answer?
    ensures var (reply, cache) := RunCGlance(store, req, columns, target, first);
      RunCGlance(cache, req, columns, target, later) == (reply, cache)
  {
  }

  /** A request that is not cached and whose algorithm fails in the `try` gets the mapped error and caches nothing. */
  lemma RunFailureMapped<B>(store: map<string, B>, req: Request, columns: seq<string>, target: string,
                            algorithm: AlgorithmInput -> Attempt<B>)
    requires CacheKey(req) !in store && target in columns
    requires var a := algorithm(InputOf(req, FeaturesToVary(columns, target, req.features).value));
      a.fitFailure.None? && a.explained.Raised?
    ensures var a := algorithm(InputOf(req, FeaturesToVary(columns, target, req.features).value));
      RunCGlance(store, req, columns, target, algorithm) == (FailureReply(a.explained.failure), store)
  {
  }
}
