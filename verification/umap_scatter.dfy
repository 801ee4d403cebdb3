/**
 * The UMAP scatter plot of a data set. The back end sends the reduced data column by
 * column (`{column: {row: value}}`); the plot needs one object per row. Rows are
 * numbered by position: row `i` reads `column[i]`, that is the key `String(i)` of each
 * column, whatever the first column's own keys are.
 */
module UmapScatter {
  import opened Wrappers
  import opened Js
  import Seqs

  /** `v[Object.keys(v)[0]]`; with no keys at all the read is `v[undefined]`, the key "undefined". */
  function FirstColumn(columns: Value): Value
    requires !Nullish(columns)
  {
    var names := ObjectKeys(columns).value;
    OptMember(columns, if |names| > 0 then names[0] else "undefined")
  }

  /** No column is `null`/`undefined`, so `columns[c][i]` can be read for every column `c`. */
  predicate ColumnsPresent(columns: Value)
    requires !Nullish(columns)
  {
    forall c :: c in ObjectKeys(columns).value ==> !Nullish(OptMember(columns, c))
  }

  /** The `reduce` that builds row `i`: `acc[c] = columns[c][i]` for every column, in column order. */
  function Row(columns: Value, i: nat): Object
    requires !Nullish(columns) && ColumnsPresent(columns)
  {
    var names := ObjectKeys(columns).value;
    Assign([], seq(|names|, j requires 0 <= j < |names| => Field(names[j], At(OptMember(columns, names[j]), i).value)))
  }

  /**
   * `Object.keys(columns[first]).map((key, index) => row index)`: one row per key of the
   * first column. `None` is the TypeError of a missing first column, or of a missing
   * column once there is a row to fill.
   */
  function Pivot(columns: Value): (r: Option<seq<Object>>)
    requires !Nullish(columns)
    ensures r.Some? <==>
      (!Nullish(FirstColumn(columns)) &&
       (ObjectKeys(FirstColumn(columns)).value == [] || ColumnsPresent(columns)))
    ensures r.Some? ==> |r.value| == |ObjectKeys(FirstColumn(columns)).value|
  {
    var first := FirstColumn(columns);
    if Nullish(first) then None
    else
      var n := |ObjectKeys(first).value|;
      if n == 0 then Some([])
      else if !ColumnsPresent(columns) then None
      else Some(seq(n, i requires 0 <= i < n => Row(columns, i)))
  }

  /** Row `i` has exactly the columns, once each, and column `c` holds `columns[c][i]`. */
  lemma RowCells(columns: Value, i: nat, c: string)
    requires !Nullish(columns) && WellFormedValue(columns) && ColumnsPresent(columns)
    ensures WellFormed(Row(columns, i))
    ensures Has(Row(columns, i), c) <==> c in ObjectKeys(columns).value
    ensures c in ObjectKeys(columns).value ==> Get(Row(columns, i), c) == At(OptMember(columns, c), i).value
  {
    var names := ObjectKeys(columns).value;
    var src := seq(|names|, j requires 0 <= j < |names| => Field(names[j], At(OptMember(columns, names[j]), i).value));
    assert Keys(src) == names;
    ObjectKeysDistinct(columns);
    CopyKeys(src);
    AssignGet([], src, c);
    if c in names {
      var j := Seqs.FirstIndex(names, c);
      assert Keys(src)[j] == c;
    }
  }

  /** Every row of a successful pivot is `Row(columns, i)`. */
  lemma PivotRow(columns: Value, i: nat)
    requires !Nullish(columns)
    requires Pivot(columns).Some? && i < |Pivot(columns).value|
    ensures ColumnsPresent(columns)
    ensures Pivot(columns).value[i] == Row(columns, i)
  {
  }

  /** `Array(n).fill(0)` */
  function Zeros(n: nat): (z: Value)
    ensures z.Arr? && |z.items| == n
    ensures forall i :: 0 <= i < n ==> z.items[i] == Num(0)
  {
    Arr(seq(n, _ => Num(0)))
  }

  /**
   * `processedData`: a shallow copy of `data` that gets a `label` column of zeros, as
   * long as the first column has keys, when `data` has none. `None` is the TypeError of
   * missing data, or of a missing first column when the label must be made up.
   */
  function ProcessedData(data: Value): (r: Option<Object>)
    ensures Nullish(data) ==> r.None?
  {
    match Entries(data)
    case None => None
    case Some(fs) =>
      var copy := Assign([], fs);
      if "label" in Keys(fs) then Some(copy)
      else
        match ObjectKeys(FirstColumn(data))
        case None => None
        case Some(ks) => Some(Put(copy, "label", Zeros(|ks|)))
  }

  /** `reshapedData` */
  function Reshape(data: Value): Option<seq<Object>> {
    match ProcessedData(data)
    case None => None
    case Some(p) => Pivot(Obj(p))
  }

  /**
   * The copy differs from the caller's data only in `label`: an existing `label` column
   * is kept as it is, a missing one becomes as many zeros as the first column has keys.
   */
  lemma LabelBackFill(fs: Object, k: string)
    requires WellFormed(fs)
    requires Has(fs, "label") || !Nullish(FirstColumn(Obj(fs)))
    ensures ProcessedData(Obj(fs)).Some?
    ensures var p := ProcessedData(Obj(fs)).value;
      WellFormed(p) &&
      (Has(fs, "label") ==> Get(p, "label") == Get(fs, "label")) &&
      (!Has(fs, "label") ==> Get(p, "label") == Zeros(|ObjectKeys(FirstColumn(Obj(fs))).value|)) &&
      (k != "label" ==> Get(p, k) == Get(fs, k))
  {
    CopyOfWellFormed(fs);
    var p := ProcessedData(Obj(fs)).value;
    assert Entries(Obj(fs)) == Some(fs);
    if Has(fs, "label") {
      assert p == fs;
    } else {
      var z := Zeros(|ObjectKeys(FirstColumn(Obj(fs))).value|);
      assert p == Put(fs, "label", z);
      assert Keys(p) == Keys(fs) + ["label"];
    }
  }

  /** The copy keeps the column order of the data, with a made-up `label` last. */
  lemma ProcessedKeys(fs: Object)
    requires WellFormed(fs)
    requires Has(fs, "label") || !Nullish(FirstColumn(Obj(fs)))
    ensures ProcessedData(Obj(fs)).Some?
    ensures Keys(ProcessedData(Obj(fs)).value) == if Has(fs, "label") then Keys(fs) else Keys(fs) + ["label"]
  {
    CopyOfWellFormed(fs);
  }

  /**
   * The plot has one row per key of the data's first column; row `i` has the columns
   * of the copy, and column `c` holds `processedData[c][i]`.
   */
  lemma ReshapeRows(fs: Object, i: nat, c: string)
    requires WellFormed(fs)
    requires Reshape(Obj(fs)).Some?
    ensures ProcessedData(Obj(fs)).Some?
    ensures !Nullish(FirstColumn(Obj(fs)))
    ensures |Reshape(Obj(fs)).value| == |ObjectKeys(FirstColumn(Obj(fs))).value|
    ensures var p := ProcessedData(Obj(fs)).value;
      i < |Reshape(Obj(fs)).value| ==>
        (Has(Reshape(Obj(fs)).value[i], c) <==> Has(p, c)) &&
        (Has(p, c) ==> Get(Reshape(Obj(fs)).value[i], c) == At(Get(p, c), i).value)
  {
    var p := ProcessedData(Obj(fs)).value;
    ProcessedKeys(fs);
    LabelBackFill(fs, Keys(fs)[0]);
    assert Keys(p)[0] == Keys(fs)[0];
    assert FirstColumn(Obj(p)) == FirstColumn(Obj(fs));
    if i < |Reshape(Obj(fs)).value| {
      PivotRow(Obj(p), i);
      RowCells(Obj(p), i, c);
    }
  }
}
