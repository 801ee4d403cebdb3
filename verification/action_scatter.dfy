/**
 * The cluster scatter plots: which columns are offered as axes and which as colours,
 * the column-major to row-major pivot of a cluster table, the Vega-Lite type of a
 * column, and the effectiveness/cost entry that goes with a colour column.
 */
module ActionScatter {
  import opened Wrappers
  import opened Js
  import Decimal
  import Seqs
  import ActionNames

  /** Columns never offered as axes: bookkeeping columns and the per-action predictions. */
  const BookkeepingFields: seq<string> := ["index", "Cluster", "Chosen_Action"]

  predicate IsExcludedField(field: string) {
    field in BookkeepingFields || ActionNames.IsActionPrediction(field)
  }

  predicate IsAxisOption(field: string) {
    !IsExcludedField(field)
  }

  /** `getOptions(clusters)`: the columns that can be an axis, in column order; none for missing data. */
  function Options(clusters: Value): (r: seq<string>)
    ensures !Truthy(clusters) ==> r == []
    ensures Truthy(clusters) ==> forall k :: k in r <==> k in ObjectKeys(clusters).value && !IsExcludedField(k)
  {
    if !Truthy(clusters) then [] else Seqs.Filter(ObjectKeys(clusters).value, IsAxisOption)
  }

  /** `getColorOptions(clusters)`: the `Action<N>_Prediction` columns, in column order; none for missing data. */
  function ColorOptions(clusters: Value): (r: seq<string>)
    ensures !Truthy(clusters) ==> r == []
    ensures Truthy(clusters) ==>
      forall k :: k in r <==> k in ObjectKeys(clusters).value && ActionNames.IsActionPrediction(k)
  {
    if !Truthy(clusters) then [] else Seqs.Filter(ObjectKeys(clusters).value, ActionNames.IsActionPrediction)
  }

  /**
   * Axis options and colour options never share a column, and every column is one of
   * the two unless it is `index`, `Cluster` or `Chosen_Action`.
   */
  lemma OptionsPartition(clusters: Value, k: string)
    ensures !(k in Options(clusters) && k in ColorOptions(clusters))
    ensures Truthy(clusters) && k in ObjectKeys(clusters).value ==>
      (k in Options(clusters) || k in ColorOptions(clusters) <==> k !in BookkeepingFields)
  {
    var axis := IsAxisOption(k);
    var colour := ActionNames.IsActionPrediction(k);
    assert axis ==> !colour;
    assert k in Options(clusters) ==> axis;
    assert k in ColorOptions(clusters) ==> colour;
  }

  /**
   * The axis options keep the column order: the columns of a leading part of the table
   * come first. A table's keys are distinct, so no column is offered twice.
   */
  lemma OptionsOrder(a: Object, b: Object)
    ensures Options(Obj(a + b)) == Options(Obj(a)) + Options(Obj(b))
    ensures WellFormed(a) ==> Seqs.Distinct(Options(Obj(a)))
  {
    KeysAppend(a, b);
    FilterKeys(a, b, IsAxisOption);
  }

  /** The colour options keep the column order too, and never repeat a column. */
  lemma ColorOptionsOrder(a: Object, b: Object)
    ensures ColorOptions(Obj(a + b)) == ColorOptions(Obj(a)) + ColorOptions(Obj(b))
    ensures WellFormed(a) ==> Seqs.Distinct(ColorOptions(Obj(a)))
  {
    KeysAppend(a, b);
    FilterKeys(a, b, ActionNames.IsActionPrediction);
  }

  /** Filtering the keys of a split table, one predicate at a time. */
  lemma FilterKeys(a: Object, b: Object, p: string -> bool)
    requires Keys(a + b) == Keys(a) + Keys(b)
    ensures Seqs.Filter(Keys(a + b), p) == Seqs.Filter(Keys(a), p) + Seqs.Filter(Keys(b), p)
    ensures WellFormed(a) ==> Seqs.Distinct(Seqs.Filter(Keys(a), p))
  {
    Seqs.FilterAppend(Keys(a), Keys(b), p);
    if WellFormed(a) {
      Seqs.FilterDistinct(Keys(a), p);
    }
  }

  /** `combinedOptions[i] || ''` */
  function NthOrEmpty(s: seq<string>, i: nat): string {
    if i < |s| then s[i] else ""
  }

  datatype Axes = Axes(options: seq<string>, x: string, y: string, colorOptions: seq<string>, colorField: string)

  /** The state the effect sets when the data change. */
  function SelectAxes(data1: Value, data2: Value): (a: Axes)
    ensures a.options == Options(data1) || a.options == Options(data2)
    ensures |a.options| == if |Options(data1)| > |Options(data2)| then |Options(data1)| else |Options(data2)|
    ensures a.colorOptions == ColorOptions(data1)
  {
    var o1 := Options(data1);
    var o2 := Options(data2);
    var combined := if |o1| > |o2| then o1 else o2;
    Axes(combined, NthOrEmpty(combined, 0), NthOrEmpty(combined, 1), ColorOptions(data1), NthOrEmpty(ColorOptions(data1), 0))
  }

  /**
   * Ties go to `data2`; the default axes are the first two options, distinct when there
   * are two; the default colour is the first prediction column of `data1`, or none.
   */
  lemma AxesDefaults(data1: Value, data2: Value)
    requires WellFormedValue(data1) && WellFormedValue(data2)
    ensures var a := SelectAxes(data1, data2);
      (|Options(data1)| == |Options(data2)| ==> a.options == Options(data2)) &&
      (a.x == "" || a.x in a.options) &&
      (a.y == "" || a.y in a.options) &&
      (|a.options| >= 2 ==> a.x != a.y) &&
      (a.colorField == "" || ActionNames.IsActionPrediction(a.colorField))
  {
    var a := SelectAxes(data1, data2);
    if Truthy(data1) {
      ObjectKeysDistinct(data1);
      Seqs.FilterDistinct(ObjectKeys(data1).value, IsAxisOption);
    }
    if Truthy(data2) {
      ObjectKeysDistinct(data2);
      Seqs.FilterDistinct(ObjectKeys(data2).value, IsAxisOption);
    }
    if a.colorField != "" {
      assert a.colorField in ColorOptions(data1);
    }
  }

  /** `clusters[field]?.[key]` */
  function Cell(clusters: Value, field: string, key: string): Value {
    OptMember(OptMember(clusters, field), key)
  }

  /** `Object.keys(clusters[fields[0]] || {})`: the row keys, taken from the first column. */
  function SampleKeys(clusters: Value): seq<string>
    requires Truthy(clusters)
  {
    var fields := ObjectKeys(clusters).value;
    var first := Or(OptMember(clusters, if |fields| > 0 then fields[0] else "undefined"), Obj([]));
    ObjectKeys(first).value
  }

  /** One field per column, each holding that column's value for `key`. */
  function CellFields(clusters: Value, fields: seq<string>, key: string): (fs: Object)
    ensures Keys(fs) == fields
  {
    var fs := seq(|fields|, j requires 0 <= j < |fields| => Field(fields[j], Cell(clusters, fields[j], key)));
    assert Keys(fs) == fields;
    fs
  }

  /** The point for row key `key`: `{id: key}`, then `point[field] = clusters[field]?.[key]` for every column. */
  function Point(clusters: Value, key: string): Object
    requires !Nullish(clusters)
  {
    Assign([Field("id", Str(key))], CellFields(clusters, ObjectKeys(clusters).value, key))
  }

  /** `transformData(clusters)`: one point per row key; no points for missing data. */
  function TransformData(clusters: Value): (rows: seq<Object>)
    ensures !Truthy(clusters) ==> rows == []
    ensures Truthy(clusters) ==> |rows| == |SampleKeys(clusters)|
  {
    if !Truthy(clusters) then []
    else
      var keys := SampleKeys(clusters);
      seq(|keys|, i requires 0 <= i < |keys| => Point(clusters, keys[i]))
  }

  /** A point has the key `id` and one key per column, each once. */
  lemma PointKeys(clusters: Value, key: string, k: string)
    requires !Nullish(clusters) && WellFormedValue(clusters)
    ensures WellFormed(Point(clusters, key))
    ensures Has(Point(clusters, key), k) <==> k == "id" || k in ObjectKeys(clusters).value
  {
    var src := CellFields(clusters, ObjectKeys(clusters).value, key);
    AssignKeys([Field("id", Str(key))], src);
    assert Keys([Field("id", Str(key))]) == ["id"];
  }

  /** A point's `id` is its row key unless a column is itself named `id`; every column holds `clusters[column][key]`. */
  lemma PointFields(clusters: Value, key: string, f: string)
    requires !Nullish(clusters) && WellFormedValue(clusters)
    ensures Get(Point(clusters, key), f) ==
      if f in ObjectKeys(clusters).value then Cell(clusters, f, key) else if f == "id" then Str(key) else Undefined
  {
    var fields := ObjectKeys(clusters).value;
    var src := CellFields(clusters, fields, key);
    ObjectKeysDistinct(clusters);
    assert WellFormed(src);
    AssignGet([Field("id", Str(key))], src, f);
    if f in fields {
      var j := Seqs.FirstIndex(fields, f);
      assert Keys(src)[j] == f;
      assert Get(src, f) == src[j].val;
    }
  }

  /** Point `i` of the transformed data is the point of the `i`-th row key of the first column. */
  lemma TransformDataPoint(clusters: Value, i: nat)
    requires Truthy(clusters)
    requires i < |SampleKeys(clusters)|
    ensures TransformData(clusters)[i] == Point(clusters, SampleKeys(clusters)[i])
  {
  }

  datatype Encoding = Nominal | Ordinal | Quantitative

  /** `determineType(field, data)`: the Vega-Lite type, decided by the first point alone. */
  function DetermineType(field: string, data: seq<Object>): (t: Encoding)
    ensures t == Nominal <==> data == [] || Get(data[0], field) == Undefined
    ensures t == Ordinal <==> data != [] && Get(data[0], field).Str?
  {
    if data == [] || Get(data[0], field) == Undefined then Nominal
    else if Get(data[0], field).Str? then Ordinal
    else Quantitative
  }

  /**
   * On transformed data a column's type is that of its value in the first row key;
   * `id` is ordinal whenever there is a point and no column is named `id`.
   */
  lemma TransformedTypes(clusters: Value, f: string)
    requires Truthy(clusters) && WellFormedValue(clusters)
    ensures var keys := SampleKeys(clusters);
      var data := TransformData(clusters);
      (f in ObjectKeys(clusters).value ==>
        DetermineType(f, data) ==
          if keys == [] || Cell(clusters, f, keys[0]) == Undefined then Nominal
          else if Cell(clusters, f, keys[0]).Str? then Ordinal
          else Quantitative) &&
      (keys != [] && "id" !in ObjectKeys(clusters).value ==> DetermineType("id", data) == Ordinal)
  {
    var keys := SampleKeys(clusters);
    if keys != [] {
      TransformDataPoint(clusters, 0);
      PointFields(clusters, keys[0], f);
      PointFields(clusters, keys[0], "id");
    }
  }

  /**
   * `getEffCostForColorField(field)`: for `Action<N>_Prediction` the entry of
   * `eff_cost_actions` under the digits N as written, otherwise `null`. `None` is the
   * TypeError of reading from a missing `eff_cost_actions`.
   */
  function EffCostForColorField(field: string, effCostActions: Value): (r: Option<Value>)
    ensures !ActionNames.IsActionPrediction(field) ==> r == Some(Null)
    ensures ActionNames.IsActionPrediction(field) ==> r == Member(effCostActions, ActionNames.ActionDigits(field))
  {
    if ActionNames.IsActionPrediction(field) then Member(effCostActions, ActionNames.ActionDigits(field))
    else Some(Null)
  }

  /** The colour column of action n looks up key n; no colour column (`''`) gives `null`. */
  lemma EffCostOfAction(n: nat, fs: Object)
    ensures EffCostForColorField(ActionNames.PredictionKey(n), Obj(fs)) == Some(Get(fs, Decimal.NatToStr(n)))
    ensures EffCostForColorField("", Obj(fs)) == Some(Null)
  {
    ActionNames.PredictionKeyMatches(n);
  }

  /**
   * Reading one entry of `eff_cost_actions` for the table throws when the entry is
   * missing (`.eff` of `undefined`) or its `cost` is not a number (`toFixed` is then
   * not a method). `eff * 100` is always a number, so `eff` itself never throws.
   */
  predicate EntryThrows(effCostActions: Value, k: string) {
    var entry := OptMember(effCostActions, k);
    Nullish(entry) || !OptMember(entry, "cost").Num?
  }

  /**
   * The effectiveness/cost table: one row per key of `eff_cost_actions`, `id` = the
   * key, with the entry's `eff` and `cost`. `None` is the TypeError of a missing table,
   * a missing entry or a cost that is not a number.
   */
  function TableRows(effCostActions: Value): (r: Option<seq<Object>>)
    ensures r.None? <==>
      (Nullish(effCostActions) ||
       exists k :: k in ObjectKeys(effCostActions).value && EntryThrows(effCostActions, k))
    ensures r.Some? ==> |r.value| == |ObjectKeys(effCostActions).value|
  {
    match ObjectKeys(effCostActions)
    case None => None
    case Some(ks) =>
      if exists k :: k in ks && EntryThrows(effCostActions, k) then None
      else
        Some(seq(|ks|, i requires 0 <= i < |ks| =>
          var entry := OptMember(effCostActions, ks[i]);
          [Field("id", Str(ks[i])), Field("eff", OptMember(entry, "eff")), Field("cost", OptMember(entry, "cost"))]))
  }

  /** Row `i` is `{id, eff, cost}` of the `i`-th key's entry, and its cost is a number. */
  lemma TableRowFields(effCostActions: Value, i: nat)
    requires TableRows(effCostActions).Some? && i < |TableRows(effCostActions).value|
    ensures var row := TableRows(effCostActions).value[i];
      var k := ObjectKeys(effCostActions).value[i];
      var entry := OptMember(effCostActions, k);
      Keys(row) == ["id", "eff", "cost"] &&
      Get(row, "id") == Str(k) && Get(row, "eff") == OptMember(entry, "eff") &&
      Get(row, "cost") == OptMember(entry, "cost") && Get(row, "cost").Num?
  {
    var ks := ObjectKeys(effCostActions).value;
    var entry := OptMember(effCostActions, ks[i]);
    assert ks[i] in ks;
    ThreeFields(Field("id", Str(ks[i])), Field("eff", OptMember(entry, "eff")), Field("cost", OptMember(entry, "cost")));
  }

  /** Row ids are the table's keys in order, so no two rows share an id. */
  lemma TableRowIds(effCostActions: Value)
    requires WellFormedValue(effCostActions)
    requires TableRows(effCostActions).Some?
    ensures var rows := TableRows(effCostActions).value;
      var ks := ObjectKeys(effCostActions).value;
      (forall i :: 0 <= i < |rows| ==> Get(rows[i], "id") == Str(ks[i])) &&
      (forall i, j :: 0 <= i < j < |rows| ==> Get(rows[i], "id") != Get(rows[j], "id"))
  {
    ObjectKeysDistinct(effCostActions);
  }
}
