/**
 * The last plot of the affected population: one point per instance at its UMAP
 * coordinates, carrying the prediction of the action chosen in the selector.
 */
module LastUmap {
  import opened Wrappers
  import opened Js
  import Decimal
  import ActionNames
  import UmapGlanceComponent

  type ActionEntry = UmapGlanceComponent.ActionEntry

  /** The selector starts on the first action's prediction column. */
  const InitialSelection := "Action1_Prediction"

  lemma InitialSelectionIsFirstAction()
    ensures InitialSelection == ActionNames.PredictionKey(1)
    ensures ActionNames.IsActionPrediction(InitialSelection)
    ensures ActionNames.DisplayName(InitialSelection) == "Action1"
  {
    assert Decimal.NatToStr(1) == "1";
    assert InitialSelection == ActionNames.PredictionKey(1);
    ActionNames.PredictionKeyMatches(1);
    assert ActionNames.ActionDigits(InitialSelection) == "1";
  }

  /** `actions.find((action) => action.key === selected)` */
  function Find(actions: seq<ActionEntry>, selected: string): (r: Option<ActionEntry>)
    ensures r.None? <==> forall i :: 0 <= i < |actions| ==> actions[i].key != selected
    ensures r.Some? ==>
      exists i :: (0 <= i < |actions| && actions[i] == r.value &&
        actions[i].key == selected && forall j :: 0 <= j < i ==> actions[j].key != selected)
  {
    if actions == [] then None
    else if actions[0].key == selected then Some(actions[0])
    else
      var r := Find(actions[1..], selected);
      assert forall i :: 1 <= i < |actions| ==> actions[i] == actions[1..][i - 1];
      r
  }

  /** The object literal `{x, y, [selected]: v}`: a computed key equal to `x` or `y` overwrites it in place. */
  function Point(x: Value, y: Value, selected: string, v: Value): Object {
    Put(Put(Put([], "x", x), "y", y), selected, v)
  }

  /** A point has the fields `x`, `y` and the selected column; the selected one is written last and wins. */
  lemma PointFields(x: Value, y: Value, selected: string, v: Value, k: string)
    ensures Has(Point(x, y, selected, v), k) <==> k == "x" || k == "y" || k == selected
    ensures Get(Point(x, y, selected, v), selected) == v
    ensures selected != "x" ==> Get(Point(x, y, selected, v), "x") == x
    ensures selected != "y" ==> Get(Point(x, y, selected, v), "y") == y
  {
    var p1 := Put([], "x", x);
    var p2 := Put(p1, "y", y);
    PutHas([], "x", x, k);
    PutHas(p1, "y", y, k);
    PutHas(p2, selected, v, k);
  }

  /**
   * The point for one key. The selected column holds `actions.find(...)?.value[key]`:
   * `undefined` when no action matches (a match without a `value` is rejected before).
   */
  function KeyPoint(d0: Value, d1: Value, found: Option<ActionEntry>, selected: string, key: string): Object {
    Point(OptMember(d0, key), OptMember(d1, key), selected, if found.Some? then OptMember(found.value.value, key) else Undefined)
  }

  /**
   * `formattedData`: one point per key of `data[0]`. `None` is the TypeError of missing
   * data, a missing `data[0]`, or (once there is a point) a missing `data[1]` or a
   * matching action without a `value`.
   */
  function FormattedData(data: Value, actions: seq<ActionEntry>, selected: string): (r: Option<seq<Object>>)
    ensures Nullish(data) ==> r.None?
    ensures r.None? <==>
      Nullish(data) || Nullish(At(data, 0).value) ||
      (ObjectKeys(At(data, 0).value).value != [] &&
       (Nullish(At(data, 1).value) ||
        (Find(actions, selected).Some? && Nullish(Find(actions, selected).value.value))))
    ensures r.Some? ==> !Nullish(At(data, 0).value) && |r.value| == |ObjectKeys(At(data, 0).value).value|
  {
    match At(data, 0)
    case None => None
    case Some(d0) =>
      match ObjectKeys(d0)
      case None => None
      case Some(keys) =>
        if keys == [] then Some([])
        else
          var d1 := At(data, 1).value;
          var found := Find(actions, selected);
          if Nullish(d1) || (found.Some? && Nullish(found.value.value)) then None
          else
            Some(seq(|keys|, i requires 0 <= i < |keys| => KeyPoint(d0, d1, found, selected, keys[i])))
  }

  /** Point `i` is built from key `i` of `data[0]`. */
  lemma FormattedPointAt(data: Value, actions: seq<ActionEntry>, selected: string, i: nat)
    requires FormattedData(data, actions, selected).Some?
    requires i < |FormattedData(data, actions, selected).value|
    ensures !Nullish(At(data, 1).value)
    ensures var d0 := At(data, 0).value;
      var key := ObjectKeys(d0).value[i];
      var found := Find(actions, selected);
      FormattedData(data, actions, selected).value[i] ==
        Point(OptMember(d0, key), OptMember(At(data, 1).value, key), selected,
              if found.Some? then OptMember(found.value.value, key) else Undefined)
  {
    var d0 := At(data, 0).value;
    var keys := ObjectKeys(d0).value;
    assert keys != [];
    assert FormattedData(data, actions, selected).value[i] == KeyPoint(d0, At(data, 1).value, Find(actions, selected), selected, keys[i]);
  }

  /**
   * One point per key of `data[0]`, with only the fields `x`, `y` and the selected
   * column: `x = data[0][key]`, `y = data[1][key]` (unless the selection is named `x`
   * or `y`), and the selected column holds the first matching action's `value[key]`,
   * `undefined` if no action matches.
   */
  lemma FormattedPoints(data: Value, actions: seq<ActionEntry>, selected: string, i: nat, k: string)
    requires FormattedData(data, actions, selected).Some?
    requires i < |FormattedData(data, actions, selected).value|
    ensures !Nullish(At(data, 1).value)
    ensures var key := ObjectKeys(At(data, 0).value).value[i];
      var p := FormattedData(data, actions, selected).value[i];
      var found := Find(actions, selected);
      (Has(p, k) <==> k == "x" || k == "y" || k == selected) &&
      Get(p, selected) == (if found.Some? then OptMember(found.value.value, key) else Undefined) &&
      (selected != "x" ==> Get(p, "x") == OptMember(At(data, 0).value, key)) &&
      (selected != "y" ==> Get(p, "y") == OptMember(At(data, 1).value, key))
  {
    FormattedPointAt(data, actions, selected, i);
    var d0 := At(data, 0).value;
    var key := ObjectKeys(d0).value[i];
    var found := Find(actions, selected);
    PointFields(OptMember(d0, key), OptMember(At(data, 1).value, key), selected,
                if found.Some? then OptMember(found.value.value, key) else Undefined, k);
  }
}
