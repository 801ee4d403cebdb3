/**
 * The `/apply_affected_actions` endpoint: every affected instance gets the action it
 * chose, numbered from 1 in the cost order of the clusters. Rows are processed in
 * groups, one per distinct `Chosen_Action` value in order of first appearance, the
 * groups are concatenated, and `sort_index` puts the rows back in their original order
 * before the saved `index` column is reattached.
 *
 * `apply_action_pandas` is the parameter `apply`, taken to act on each row of a group
 * on its own and to keep the row's label.
 */
module ApplyActions {
  import opened Wrappers
  import opened PyData
  import Seqs
  import Sorting
  import CGlance

  type Action = seq<CGlance.ActionEntry>

  /** A row of `affected_clusters` as this endpoint reads it: the instance's feature values and its chosen action. */
  datatype AffectedRow = AffectedRow(features: seq<Cell>, chosen: Cell)

  /** A row of `applied_affected` before sorting: its label (its position in `affected_clusters`), features and chosen action. */
  datatype Applied = Applied(position: nat, features: seq<Cell>, chosen: Cell)

  /** A row of the answer. */
  datatype OutputRow = OutputRow(features: seq<Cell>, chosen: Cell, index: Cell)

  /** `actions[int(val-1)]`; `None` for `'-'`, for a value that is not a number, and for an IndexError. */
  function NamedAction(chosen: Cell, actions: seq<Action>): Option<Action> {
    if chosen.Number? then PyIndex(actions, chosen.n - 1) else None
  }

  /** The group of rows that chose `v` goes through without an exception. */
  predicate Applicable(v: Cell, actions: seq<Action>) {
    v == Text("-") || NamedAction(v, actions).Some?
  }

  /** Row `i` once its group is processed: the action it names applied, the features kept for `'-'`. */
  function AppliedRow(i: nat, row: AffectedRow, actions: seq<Action>, apply: (seq<Cell>, Action) -> seq<Cell>): (a: Applied)
    ensures a.position == i && a.chosen == row.chosen
  {
    match NamedAction(row.chosen, actions)
    case Some(act) => Applied(i, apply(row.features, act), row.chosen)
    case None => Applied(i, row.features, row.chosen)
  }

  function Process(actions: seq<Action>, apply: (seq<Cell>, Action) -> seq<Cell>): ((nat, AffectedRow)) -> Applied {
    (e: (nat, AffectedRow)) => AppliedRow(e.0, e.1, actions, apply)
  }

  /** The rows with their labels. */
  function Labelled(rows: seq<AffectedRow>): (l: seq<(nat, AffectedRow)>)
    ensures |l| == |rows|
    ensures forall i :: 0 <= i < |l| ==> l[i] == (i, rows[i])
  {
    seq(|rows|, i requires 0 <= i < |rows| => (i, rows[i]))
  }

  function ChosenOf(e: (nat, AffectedRow)): Cell {
    e.1.chosen
  }

  function ChosenOfRow(row: AffectedRow): Cell {
    row.chosen
  }

  function ChosenOfApplied(a: Applied): Cell {
    a.chosen
  }

  function PositionOf(a: Applied): int {
    a.position
  }

  /** `affected_clusters[affected_clusters['Chosen_Action'] == val]` with the action applied; `None` is the exception. */
  function Group(rows: seq<AffectedRow>, v: Cell, actions: seq<Action>, apply: (seq<Cell>, Action) -> seq<Cell>): Option<seq<Applied>> {
    if Applicable(v, actions) then Some(Seqs.Map(Seqs.Having(Labelled(rows), ChosenOf, v), Process(actions, apply)))
    else None
  }

  /** The loop over the chosen values: each group is appended, and the first exception ends the request. */
  function ProcessGroups(rows: seq<AffectedRow>, vals: seq<Cell>, actions: seq<Action>, apply: (seq<Cell>, Action) -> seq<Cell>): Option<seq<Applied>> {
    if vals == [] then Some([])
    else
      match ProcessGroups(rows, vals[..|vals| - 1], actions, apply)
      case None => None
      case Some(done) =>
        match Group(rows, vals[|vals| - 1], actions, apply)
        case None => None
        case Some(g) => Some(done + g)
  }

  /** `applied_affected['index'] = index`: aligned by label, `NaN` for a label the column lacks. */
  function IndexAt(index: seq<Cell>, position: nat): Cell {
    if position < |index| then index[position] else Missing
  }

  /**
   * `apply_affected_actions`: `None` is an exception, raised exactly when some row's
   * chosen value names no action. Otherwise every affected row comes back once.
   */
  function ApplyAffectedActions(rows: seq<AffectedRow>, index: seq<Cell>, results: seq<CGlance.ClusterResult>,
                                apply: (seq<Cell>, Action) -> seq<Cell>): (r: Option<seq<OutputRow>>)
    ensures r.Some? <==> forall i :: 0 <= i < |rows| ==> Applicable(rows[i].chosen, CGlance.ActionsByCost(results))
    ensures r.Some? ==> |r.value| == |rows|
  {
    var actions := CGlance.ActionsByCost(results);
    ProcessGroupsResult(rows, ChosenValues(rows), actions, apply);
    ChosenValuesApplicable(rows, actions);
    match ProcessGroups(rows, ChosenValues(rows), actions, apply)
    case None => None
    case Some(parts) =>
      SortedGroupsAreReference(rows, actions, apply);
      var sorted := Sorting.SortBy(parts, PositionOf);
      Some(seq(|sorted|, i requires 0 <= i < |sorted| => OutputRow(sorted[i].features, sorted[i].chosen, IndexAt(index, sorted[i].position))))
  }

  /** Every row processed on its own, in order: what the grouping and sorting amount to. */
  function Reference(rows: seq<AffectedRow>, actions: seq<Action>, apply: (seq<Cell>, Action) -> seq<Cell>): (c: seq<Applied>)
    ensures |c| == |rows|
    ensures forall i :: 0 <= i < |c| ==> c[i] == AppliedRow(i, rows[i], actions, apply)
  {
    Seqs.Map(Labelled(rows), Process(actions, apply))
  }

  /** Processing a group selects the reference rows with that chosen value. */
  lemma GroupIsSelection(rows: seq<AffectedRow>, v: Cell, actions: seq<Action>, apply: (seq<Cell>, Action) -> seq<Cell>)
    requires Applicable(v, actions)
    ensures Group(rows, v, actions, apply) == Some(Seqs.Having(Reference(rows, actions, apply), ChosenOfApplied, v))
  {
    var p := Seqs.KeyIs(ChosenOf, v);
    var q := Seqs.KeyIs(ChosenOfApplied, v);
    var f := Process(actions, apply);
    forall x: (nat, AffectedRow) ensures q(f(x)) == p(x) {
      var a := AppliedRow(x.0, x.1, actions, apply);
      assert f(x) == a;
      assert q(a) == (a.chosen == v);
      assert p(x) == (x.1.chosen == v);
    }
    Seqs.MapFilter(Labelled(rows), p, f, q);
  }

  /** The loop succeeds iff every value's group does, and then it yields the reference rows grouped by value. */
  lemma {:induction false} ProcessGroupsResult(rows: seq<AffectedRow>, vals: seq<Cell>, actions: seq<Action>,
                                               apply: (seq<Cell>, Action) -> seq<Cell>)
    ensures ProcessGroups(rows, vals, actions, apply).Some? <==> forall j :: 0 <= j < |vals| ==> Applicable(vals[j], actions)
    ensures ProcessGroups(rows, vals, actions, apply).Some? ==>
      ProcessGroups(rows, vals, actions, apply).value == Seqs.Groups(Reference(rows, actions, apply), ChosenOfApplied, vals)
  {
    if vals != [] {
      var init := vals[..|vals| - 1];
      var v := vals[|vals| - 1];
      ProcessGroupsResult(rows, init, actions, apply);
      assert forall j :: 0 <= j < |init| ==> init[j] == vals[j];
      if Applicable(v, actions) {
        GroupIsSelection(rows, v, actions, apply);
      }
    }
  }

  /** The reference rows, labelled 0, 1, 2, ..., are already in `sort_index` order. */
  lemma ReferenceSorted(rows: seq<AffectedRow>, actions: seq<Action>, apply: (seq<Cell>, Action) -> seq<Cell>)
    ensures Sorting.SortedBy(Reference(rows, actions, apply), PositionOf)
    ensures Sorting.KeysDistinct(Reference(rows, actions, apply), PositionOf)
  {
  }

  /** The chosen values, each once, in order of first appearance: `Chosen_Action.unique()`. */
  function ChosenValues(rows: seq<AffectedRow>): seq<Cell> {
    Seqs.Dedup(Seqs.Map(rows, ChosenOfRow))
  }

  /** Every group goes through exactly when every row's chosen value names an action or is `'-'`. */
  lemma ChosenValuesApplicable(rows: seq<AffectedRow>, actions: seq<Action>)
    ensures (forall j :: 0 <= j < |ChosenValues(rows)| ==> Applicable(ChosenValues(rows)[j], actions)) <==>
            (forall i :: 0 <= i < |rows| ==> Applicable(rows[i].chosen, actions))
    ensures Seqs.Distinct(ChosenValues(rows))
    ensures forall i :: 0 <= i < |rows| ==> rows[i].chosen in ChosenValues(rows)
  {
    var chosen := Seqs.Map(rows, ChosenOfRow);
    var vals := ChosenValues(rows);
    forall i | 0 <= i < |rows| ensures rows[i].chosen in vals {
      assert chosen[i] == rows[i].chosen;
    }
    if forall j :: 0 <= j < |vals| ==> Applicable(vals[j], actions) {
      forall i | 0 <= i < |rows| ensures Applicable(rows[i].chosen, actions) {
        var j :| 0 <= j < |vals| && vals[j] == rows[i].chosen;
      }
    }
    if forall i :: 0 <= i < |rows| ==> Applicable(rows[i].chosen, actions) {
      forall j | 0 <= j < |vals| ensures Applicable(vals[j], actions) {
        assert vals[j] in chosen;
        var i :| 0 <= i < |chosen| && chosen[i] == vals[j];
        assert chosen[i] == rows[i].chosen;
      }
    }
  }

  /** Concatenating the groups and sorting by position gives back every row once, in its place. */
  lemma SortedGroupsAreReference(rows: seq<AffectedRow>, actions: seq<Action>, apply: (seq<Cell>, Action) -> seq<Cell>)
    requires ProcessGroups(rows, ChosenValues(rows), actions, apply).Some?
    ensures Sorting.SortBy(ProcessGroups(rows, ChosenValues(rows), actions, apply).value, PositionOf) == Reference(rows, actions, apply)
  {
    var vals := ChosenValues(rows);
    var reference := Reference(rows, actions, apply);
    var parts := ProcessGroups(rows, vals, actions, apply).value;
    ProcessGroupsResult(rows, vals, actions, apply);
    ChosenValuesApplicable(rows, actions);
    assert forall i :: 0 <= i < |reference| ==> ChosenOfApplied(reference[i]) == rows[i].chosen;
    Seqs.GroupsPermutation(reference, ChosenOfApplied, vals);
    ReferenceSorted(rows, actions, apply);
    Sorting.SortedUnique(reference, Sorting.SortBy(parts, PositionOf), PositionOf);
  }

  /**
   * The answer has one row per affected row, in the original order: rows that chose
   * `'-'` keep their features and `'-'`, rows that chose `v` get the `v`-th cheapest
   * action applied and keep `v`, and each row gets back its own `index`. The request
   * fails exactly when some row's chosen value names no action.
   */
  lemma ApplyAffectedActionsRows(rows: seq<AffectedRow>, index: seq<Cell>, results: seq<CGlance.ClusterResult>,
                                 apply: (seq<Cell>, Action) -> seq<Cell>)
    ensures var actions := CGlance.ActionsByCost(results);
      var r := ApplyAffectedActions(rows, index, results, apply);
      (r.Some? <==> forall i :: 0 <= i < |rows| ==> Applicable(rows[i].chosen, actions)) &&
      (r.Some? ==> (
        |r.value| == |rows| &&
        forall i :: 0 <= i < |rows| ==> (
          r.value[i].chosen == rows[i].chosen &&
          r.value[i].index == IndexAt(index, i) &&
          (rows[i].chosen == Text("-") ==> r.value[i].features == rows[i].features) &&
          (rows[i].chosen.Number? ==>
            r.value[i].features == apply(rows[i].features, PyIndex(actions, rows[i].chosen.n - 1).value)))))
  {
    var actions := CGlance.ActionsByCost(results);
    ProcessGroupsResult(rows, ChosenValues(rows), actions, apply);
    ChosenValuesApplicable(rows, actions);
    var r := ApplyAffectedActions(rows, index, results, apply);
    if r.Some? {
      SortedGroupsAreReference(rows, actions, apply);
      var reference := Reference(rows, actions, apply);
      forall i | 0 <= i < |rows|
        ensures r.value[i] == OutputRow(reference[i].features, reference[i].chosen, IndexAt(index, i))
      {
      }
    }
  }

  /**
   * The numbering the generation step hands out is the one this step reads: an
   * instance for which `cumulative` picked the k-th cheapest action gets that action.
   */
  lemma ChosenActionRoundTrip(results: seq<CGlance.ClusterResult>, c: CGlance.Choice)
    requires c.Picked? ==> c.index < |results|
    ensures var actions := CGlance.ActionsByCost(results);
      Applicable(CGlance.ChosenAction(c), actions) &&
      (c.Picked? ==> NamedAction(CGlance.ChosenAction(c), actions) == Some(actions[c.index])) &&
      (c.NoAction? ==> NamedAction(CGlance.ChosenAction(c), actions).None?)
  {
  }
}
