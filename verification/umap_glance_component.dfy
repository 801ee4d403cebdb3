/**
 * The affected-population view: two UMAP panels, before and after the chosen actions
 * are applied, and the list of per-action prediction columns handed to the last plot.
 */
module UmapGlanceComponent {
  import opened Wrappers
  import opened Js
  import Decimal
  import Seqs
  import ActionNames
  import UmapScatterGlance

  /** One entry of the `actions` list LastUmap receives: `{key, value, number}`. */
  datatype ActionEntry = ActionEntry(key: string, value: Value, number: Option<nat>)

  /**
   * `Object.keys(actions).filter(key => /^Action\d+_Prediction$/.test(key)).map(...)`;
   * `None` is the TypeError of missing `actions`.
   */
  function LastUmapActions(actions: Value): (r: Option<seq<ActionEntry>>)
    ensures r.None? <==> Nullish(actions)
  {
    match ObjectKeys(actions)
    case None => None
    case Some(ks) =>
      var keys := Seqs.Filter(ks, ActionNames.IsActionPrediction);
      Some(seq(|keys|, i requires 0 <= i < |keys| =>
        ActionEntry(keys[i], OptMember(actions, keys[i]), ActionNames.ActionNumber(keys[i]))))
  }

  /**
   * Exactly the prediction columns are passed on, in column order; each entry's `value`
   * is `actions[key]` and its `number` is the value of the digits in its key.
   */
  lemma LastUmapActionsEntries(actions: Value)
    requires !Nullish(actions)
    ensures var es := LastUmapActions(actions).value;
      var keys := Seqs.Filter(ObjectKeys(actions).value, ActionNames.IsActionPrediction);
      |es| == |keys| && (forall i :: 0 <= i < |es| ==> es[i].key == keys[i]) &&
      forall i :: 0 <= i < |es| ==>
        ActionNames.IsActionPrediction(es[i].key) &&
        es[i].value == OptMember(actions, es[i].key) &&
        es[i].number == Some(Decimal.ParseDigits(ActionNames.ActionDigits(es[i].key)))
  {
    var es := LastUmapActions(actions).value;
    var keys := Seqs.Filter(ObjectKeys(actions).value, ActionNames.IsActionPrediction);
    forall i | 0 <= i < |es|
      ensures ActionNames.IsActionPrediction(es[i].key)
      ensures es[i].number == Some(Decimal.ParseDigits(ActionNames.ActionDigits(es[i].key)))
    {
      assert es[i].key == keys[i] && keys[i] in keys;
      ActionNames.ActionNumberOfPrediction(es[i].key, 0);
    }
  }

  /** What one `UmapScatterGlance` panel is given. */
  datatype PanelInput = PanelInput(data: Value, actions: Value)

  /** `v.name`; `None` is the TypeError of reading from `null`/`undefined`. */
  function Prop(v: Option<Value>, name: string): Option<Value> {
    match v
    case None => None
    case Some(x) => Member(x, name)
  }

  /**
   * The two panels: the affected data's projection before the actions, and the applied
   * data's projection after them, both coloured by the applied data's `Chosen_Action`
   * column. `None` is the TypeError of a missing projection or a missing column.
   */
  function Panels(appliedAffData: Value, affData: Value): (r: Option<(PanelInput, PanelInput)>)
    ensures r.Some? ==> r.value.0.actions == r.value.1.actions
    ensures r.Some? ==> Prop(Some(r.value.1.data), "Chosen_Action") == Some(r.value.1.actions)
    ensures r.Some? ==> Some(r.value.0.data) == Prop(Prop(Some(affData), "affectedData"), "reduced_data")
    ensures r.Some? ==> Some(r.value.1.data) == Prop(Some(appliedAffData), "reduced_data")
    ensures r.None? <==> Prop(Prop(Some(affData), "affectedData"), "reduced_data").None? ||
                         Prop(Prop(Some(appliedAffData), "reduced_data"), "Chosen_Action").None?
  {
    var before := Prop(Prop(Some(affData), "affectedData"), "reduced_data");
    var after := Prop(Some(appliedAffData), "reduced_data");
    var chosen := Prop(after, "Chosen_Action");
    if before.None? || chosen.None? then None
    else Some((PanelInput(before.value, chosen.value), PanelInput(after.value, chosen.value)))
  }

  /**
   * When a panel is coloured by the data's own `Chosen_Action` column, the label written
   * onto row `i` is that column's cell whenever the cell is truthy: the overwrite
   * changes nothing.
   */
  lemma OwnColumnLabel(fs: Object, i: nat)
    requires WellFormed(fs)
    requires UmapScatterGlance.Reshape(Obj(fs), Get(fs, "Chosen_Action")).Some?
    requires i < |UmapScatterGlance.Reshape(Obj(fs), Get(fs, "Chosen_Action")).value|
    requires !Nullish(Get(fs, "Chosen_Action")) && Truthy(At(Get(fs, "Chosen_Action"), i).value)
    ensures Get(UmapScatterGlance.Reshape(Obj(fs), Get(fs, "Chosen_Action")).value[i], "Chosen_Action") ==
      At(Get(fs, "Chosen_Action"), i).value
  {
    AtTruthy(Get(fs, "Chosen_Action"), i);
    UmapScatterGlance.ReshapeRows(Obj(fs), Get(fs, "Chosen_Action"), i, "Chosen_Action");
  }
}
