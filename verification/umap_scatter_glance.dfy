/**
 * The UMAP scatter plot of the affected population, coloured by the action each
 * instance chose: the positional pivot of the reduced data, with a `Chosen_Action`
 * label written onto every row afterwards.
 */
module UmapScatterGlance {
  import opened Wrappers
  import opened Js
  import UmapScatter

  /** `actions ? actions[index] || "-" : "-"` */
  function ChosenLabel(actions: Value, i: nat): (r: Value)
    ensures !Truthy(actions) ==> r == Str("-")
    ensures Truthy(actions) && Truthy(At(actions, i).value) ==> r == At(actions, i).value
    ensures Truthy(r)
  {
    if Truthy(actions) then Or(At(actions, i).value, Str("-")) else Str("-")
  }

  /** `reshapedData`; `None` is the TypeError of missing data or a missing column. */
  function Reshape(data: Value, actions: Value): (r: Option<seq<Object>>)
    ensures Nullish(data) ==> r.None?
    ensures !Nullish(data) ==> (r.Some? <==> UmapScatter.Pivot(data).Some?)
  {
    if Nullish(data) then None
    else
      match UmapScatter.Pivot(data)
      case None => None
      case Some(rows) =>
        Some(seq(|rows|, i requires 0 <= i < |rows| => Put(rows[i], "Chosen_Action", ChosenLabel(actions, i))))
  }

  /**
   * One row per key of the first column. Row `i` has every data column plus
   * `Chosen_Action`; a data column `c` holds `data[c][i]`; `Chosen_Action` is written
   * last, so it is `actions[i]` when that is truthy and "-" otherwise, whatever column
   * of that name the data carried.
   */
  lemma ReshapeRows(data: Value, actions: Value, i: nat, c: string)
    requires WellFormedValue(data)
    requires Reshape(data, actions).Some?
    ensures !Nullish(data) && !Nullish(UmapScatter.FirstColumn(data))
    ensures |Reshape(data, actions).value| == |ObjectKeys(UmapScatter.FirstColumn(data)).value|
    ensures i < |Reshape(data, actions).value| ==>
      var row := Reshape(data, actions).value[i];
      var chosen := if Truthy(actions) && Truthy(At(actions, i).value) then At(actions, i).value else Str("-");
      (Has(row, c) <==> c == "Chosen_Action" || c in ObjectKeys(data).value) &&
      Get(row, "Chosen_Action") == chosen &&
      (c != "Chosen_Action" && c in ObjectKeys(data).value ==> Get(row, c) == At(OptMember(data, c), i).value)
  {
    var rows := UmapScatter.Pivot(data).value;
    if i < |rows| {
      UmapScatter.PivotRow(data, i);
      UmapScatter.RowCells(data, i, c);
      assert Reshape(data, actions).value[i] == Put(rows[i], "Chosen_Action", ChosenLabel(actions, i));
    }
  }
}
