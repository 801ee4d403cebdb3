/**
 * Data preparation for the GLANCE back end: the train/test split, the COMPAS row filter,
 * the label encodings, the affected/unaffected partition of the test rows, the
 * protected features that are never varied, and the target column of each data set.
 *
 * Reading files, training the classifier and its predictions are parameters.
 */
module UtilsData {
  import opened Wrappers
  import opened PyData
  import Seqs

  /** `int(n * 0.8)`: the number of training rows for the default ratio. */
  function TrainSize(n: nat): (t: nat)
    ensures t <= n
    ensures 5 * t <= 4 * n < 5 * (t + 1)
  {
    n * 4 / 5
  }

  /** A data set as `data.values` gives it: rows of one width. */
  predicate Rectangular(rows: seq<seq<Cell>>, width: nat) {
    forall i :: 0 <= i < |rows| ==> |rows[i]| == width
  }

  datatype Split = Split(xTrain: seq<seq<Cell>>, yTrain: seq<Cell>, xTest: seq<seq<Cell>>, yTest: seq<Cell>)

  /** `rows[:, :-1]` */
  function FeatureColumns(rows: seq<seq<Cell>>, width: nat): seq<seq<Cell>>
    requires width > 0 && Rectangular(rows, width)
  {
    seq(|rows|, i requires 0 <= i < |rows| => rows[i][..width - 1])
  }

  /** `rows[:, -1]` */
  function LabelColumn(rows: seq<seq<Cell>>, width: nat): seq<Cell>
    requires width > 0 && Rectangular(rows, width)
  {
    seq(|rows|, i requires 0 <= i < |rows| => rows[i][width - 1])
  }

  /** `get_split(data)` without shuffling; `None` is the IndexError of a frame without columns. */
  function GetSplit(rows: seq<seq<Cell>>, width: nat): (r: Option<Split>)
    requires Rectangular(rows, width)
    ensures r.None? <==> width == 0
    ensures r.Some? ==> |r.value.xTrain| == |r.value.yTrain| == TrainSize(|rows|)
    ensures r.Some? ==> |r.value.xTest| == |r.value.yTest| == |rows| - TrainSize(|rows|)
  {
    if width == 0 then None
    else
      var t := TrainSize(|rows|);
      Some(Split(FeatureColumns(rows[..t], width), LabelColumn(rows[..t], width),
                 FeatureColumns(rows[t..], width), LabelColumn(rows[t..], width)))
  }

  /**
   * The first rows train, the rest test, in order; putting each row's label back after
   * its features gives the row again, so the split loses and repeats nothing.
   */
  lemma GetSplitCovers(rows: seq<seq<Cell>>, width: nat)
    requires Rectangular(rows, width) && width > 0
    ensures var s := GetSplit(rows, width).value;
      var t := TrainSize(|rows|);
      (forall i :: 0 <= i < t ==> s.xTrain[i] + [s.yTrain[i]] == rows[i]) &&
      (forall i :: t <= i < |rows| ==> s.xTest[i - t] + [s.yTest[i - t]] == rows[i]) &&
      (forall i :: 0 <= i < |rows| ==> |(s.xTrain + s.xTest)[i]| == width - 1)
  {
    var s := GetSplit(rows, width).value;
    var t := TrainSize(|rows|);
    forall i | 0 <= i < |rows|
      ensures i < t ==> s.xTrain[i] + [s.yTrain[i]] == rows[i]
      ensures t <= i ==> s.xTest[i - t] + [s.yTest[i - t]] == rows[i]
    {
      assert rows[i] == rows[i][..width - 1] + [rows[i][width - 1]];
      if i < t {
        assert rows[..t][i] == rows[i];
      } else {
        assert rows[t..][i - t] == rows[i];
      }
    }
  }

  /** `time_served[time_served < 0] = 0` */
  function ClampServed(days: int): (d: nat)
    ensures days >= 0 ==> d == days
    ensures days < 0 ==> d == 0
  {
    if days < 0 then 0 else days
  }

  /** The positions a boolean mask selects, in order. */
  function KeptIndices(mask: seq<bool>): (ks: seq<nat>)
    ensures |ks| <= |mask|
    ensures forall j :: 0 <= j < |ks| ==> ks[j] < |mask| && mask[ks[j]]
  {
    if mask == [] then []
    else
      var n := |mask| - 1;
      var init := KeptIndices(mask[..n]);
      assert forall j :: 0 <= j < |init| ==> mask[..n][init[j]] == mask[init[j]];
      if mask[n] then init + [n] else init
  }

  /** A mask keeps exactly the positions where it is true, each once, in increasing order. */
  lemma {:induction false} KeptIndicesExactly(mask: seq<bool>)
    ensures forall i :: i in KeptIndices(mask) <==> 0 <= i < |mask| && mask[i]
    ensures forall j, k :: 0 <= j < k < |KeptIndices(mask)| ==> KeptIndices(mask)[j] < KeptIndices(mask)[k]
  {
    if mask != [] {
      var n := |mask| - 1;
      var init := KeptIndices(mask[..n]);
      KeptIndicesExactly(mask[..n]);
      assert forall i :: 0 <= i < n ==> mask[..n][i] == mask[i];
      assert KeptIndices(mask) == if mask[n] then init + [n] else init;
    }
  }

  /** numpy's `xs[mask]` */
  function Select<T>(xs: seq<T>, mask: seq<bool>): (r: seq<T>)
    requires |xs| == |mask|
    ensures |r| == |KeptIndices(mask)|
    ensures forall j :: 0 <= j < |r| ==> r[j] == xs[KeptIndices(mask)[j]]
  {
    if xs == [] then []
    else
      var n := |xs| - 1;
      var init := Select(xs[..n], mask[..n]);
      if mask[n] then init + [xs[n]] else init
  }

  /** Each position is selected by exactly one of a mask and its negation, so the two selections share out the rows. */
  lemma {:induction false} KeptIndicesComplement(mask: seq<bool>, other: seq<bool>)
    requires |other| == |mask|
    requires forall i :: 0 <= i < |mask| ==> other[i] == !mask[i]
    ensures |KeptIndices(mask)| + |KeptIndices(other)| == |mask|
  {
    if mask != [] {
      var n := |mask| - 1;
      assert forall i :: 0 <= i < n ==> other[..n][i] == !mask[..n][i];
      KeptIndicesComplement(mask[..n], other[..n]);
    }
  }

  /** The ProPublica row filter of COMPAS. A days value that is not a number cannot be compared (TypeError). */
  function KeepCompasRow(days: Cell, isRecid: Cell, chargeDegree: Cell, scoreText: Cell): (r: Option<bool>)
    ensures r.None? <==> days.Text?
    ensures r == Some(true) <==>
      (days.Number? && -30 <= days.n <= 30 && isRecid != Number(-1) && chargeDegree != Text("O") && scoreText != Text("NA"))
  {
    match days
    case Text(_) => None
    case Number(d) => Some(-30 <= d <= 30 && isRecid != Number(-1) && chargeDegree != Text("O") && scoreText != Text("NA"))
    case _ => Some(false)
  }

  /** A data frame as `to_dict("list")` gives it: a list per column name. */
  type Columns = map<string, seq<Cell>>

  predicate Uniform(columns: Columns, n: nat) {
    forall k :: k in columns ==> |columns[k]| == n
  }

  /** The four columns the filter reads. */
  const FilterColumns := {"days_b_screening_arrest", "is_recid", "c_charge_degree", "score_text"}

  /** The filter over all rows; `None` is a days value that cannot be compared. */
  function CompasMask(days: seq<Cell>, recid: seq<Cell>, degree: seq<Cell>, score: seq<Cell>): (r: Option<seq<bool>>)
    requires |recid| == |degree| == |score| == |days|
    ensures r.None? <==> exists i :: 0 <= i < |days| && days[i].Text?
    ensures r.Some? ==> |r.value| == |days|
    ensures r.Some? ==> forall i :: 0 <= i < |days| ==> Some(r.value[i]) == KeepCompasRow(days[i], recid[i], degree[i], score[i])
  {
    if exists i :: 0 <= i < |days| && days[i].Text? then None
    else Some(seq(|days|, i requires 0 <= i < |days| => KeepCompasRow(days[i], recid[i], degree[i], score[i]).value))
  }

  /**
   * `time_served`: the days between the two jail dates, negatives clamped to 0. `None`
   * is the exception `strptime` raises on a date it cannot parse, in any row.
   */
  function TimeServed(jailIn: seq<Cell>, jailOut: seq<Cell>, elapsedDays: (Cell, Cell) -> Option<int>): (served: Option<seq<Cell>>)
    requires |jailOut| == |jailIn|
    ensures served.Some? <==> forall i :: 0 <= i < |jailIn| ==> elapsedDays(jailIn[i], jailOut[i]).Some?
    ensures served.Some? ==> |served.value| == |jailIn|
    ensures served.Some? ==> forall i :: 0 <= i < |served.value| ==> served.value[i].Number? && served.value[i].n >= 0
  {
    if exists i :: 0 <= i < |jailIn| && elapsedDays(jailIn[i], jailOut[i]).None? then None
    else
      var served := seq(|jailIn|, i requires 0 <= i < |jailIn| => Number(ClampServed(elapsedDays(jailIn[i], jailOut[i]).value)));
      assert forall i :: 0 <= i < |served| ==> served[i] == Number(ClampServed(elapsedDays(jailIn[i], jailOut[i]).value));
      Some(served)
  }

  /** `df[col] = df[col][mask]` for every column. */
  function MaskColumns(columns: Columns, mask: seq<bool>): (r: Columns)
    requires Uniform(columns, |mask|)
    ensures r.Keys == columns.Keys
    ensures forall k :: k in r ==> r[k] == Select(columns[k], mask)
  {
    map k | k in columns :: Select(columns[k], mask)
  }

  lemma MaskColumnsUniform(columns: Columns, mask: seq<bool>)
    requires Uniform(columns, |mask|)
    ensures Uniform(MaskColumns(columns, mask), |KeptIndices(mask)|)
  {
  }

  /**
   * `process_compas`: adds `time_served` and keeps the rows the filter accepts, in every
   * column. `None` is a missing column (KeyError), a jail date that does not parse, or
   * an uncomparable days value. `elapsedDays` stands for the parsing and subtraction of
   * the two jail dates, `None` when `strptime` raises.
   */
  function ProcessCompas(columns: Columns, n: nat, elapsedDays: (Cell, Cell) -> Option<int>): (r: Option<Columns>)
    requires Uniform(columns, n)
    ensures r.Some? ==> r.value.Keys == columns.Keys + {"time_served"}
    ensures r.Some? <==> "c_jail_in" in columns && "c_jail_out" in columns && FilterColumns <= columns.Keys &&
                         (forall i :: 0 <= i < n ==> elapsedDays(columns["c_jail_in"][i], columns["c_jail_out"][i]).Some?) &&
                         forall i :: 0 <= i < n ==> !columns["days_b_screening_arrest"][i].Text?
  {
    if "c_jail_in" !in columns || "c_jail_out" !in columns || !(FilterColumns <= columns.Keys) then None
    else
      match TimeServed(columns["c_jail_in"], columns["c_jail_out"], elapsedDays)
      case None => None
      case Some(served) =>
        var withServed := columns["time_served" := served];
        match CompasMask(columns["days_b_screening_arrest"], columns["is_recid"], columns["c_charge_degree"], columns["score_text"])
        case None => None
        case Some(mask) => Some(MaskColumns(withServed, mask))
  }

  /** The rows of COMPAS that the filter accepts, once the columns are known to be there. */
  function CompasKept(columns: Columns, n: nat): (kept: seq<nat>)
    requires Uniform(columns, n) && FilterColumns <= columns.Keys
    requires forall i :: 0 <= i < n ==> !columns["days_b_screening_arrest"][i].Text?
    ensures forall i :: i in kept <==> 0 <= i < n && KeepCompasRow(columns["days_b_screening_arrest"][i], columns["is_recid"][i],
                                                                 columns["c_charge_degree"][i], columns["score_text"][i]) == Some(true)
  {
    var mask := CompasMask(columns["days_b_screening_arrest"], columns["is_recid"], columns["c_charge_degree"], columns["score_text"]).value;
    KeptIndicesExactly(mask);
    KeptIndices(mask)
  }

  /**
   * After the filter every column has one length, the number of accepted rows; row j
   * of each column is the j-th accepted row of the input; and no time served is negative.
   */
  lemma ProcessCompasRows(columns: Columns, n: nat, elapsedDays: (Cell, Cell) -> Option<int>)
    requires Uniform(columns, n)
    requires ProcessCompas(columns, n, elapsedDays).Some?
    ensures Uniform(ProcessCompas(columns, n, elapsedDays).value, |CompasKept(columns, n)|)
    ensures forall k, j :: k in columns && k != "time_served" && 0 <= j < |CompasKept(columns, n)| ==>
      CompasKept(columns, n)[j] < n && ProcessCompas(columns, n, elapsedDays).value[k][j] == columns[k][CompasKept(columns, n)[j]]
    ensures forall j :: 0 <= j < |CompasKept(columns, n)| ==>
      ProcessCompas(columns, n, elapsedDays).value["time_served"][j].Number? && ProcessCompas(columns, n, elapsedDays).value["time_served"][j].n >= 0
  {
    var served := TimeServed(columns["c_jail_in"], columns["c_jail_out"], elapsedDays).value;
    var withServed := columns["time_served" := served];
    var mask := CompasMask(columns["days_b_screening_arrest"], columns["is_recid"], columns["c_charge_degree"], columns["score_text"]).value;
    var r := ProcessCompas(columns, n, elapsedDays).value;
    assert r == MaskColumns(withServed, mask);
    MaskColumnsUniform(withServed, mask);
    var kept := CompasKept(columns, n);
    assert kept == KeptIndices(mask);
    forall k, j | k in columns && k != "time_served" && 0 <= j < |kept|
      ensures kept[j] < n && r[k][j] == columns[k][kept[j]]
    {
      assert r[k] == Select(columns[k], mask);
    }
    assert r["time_served"] == Select(served, mask);
  }

  /** `predictions == v` */
  function PredictedMask(predictions: seq<int>, v: int): (mask: seq<bool>)
    ensures |mask| == |predictions|
    ensures forall i :: 0 <= i < |mask| ==> (mask[i] <==> predictions[i] == v)
  {
    seq(|predictions|, i requires 0 <= i < |predictions| => predictions[i] == v)
  }

  /** `X_test[predictions == v]`, re-indexed from 0. */
  function Predicted<T>(rows: seq<T>, predictions: seq<int>, v: int): seq<T>
    requires |predictions| == |rows|
  {
    Select(rows, PredictedMask(predictions, v))
  }

  /**
   * With binary predictions the affected (predicted 0) and unaffected (predicted 1)
   * rows share out the test set: every test row is in exactly one of them, in order.
   */
  lemma AffectedPartition<T>(rows: seq<T>, predictions: seq<int>)
    requires |predictions| == |rows|
    requires forall i :: 0 <= i < |rows| ==> predictions[i] == 0 || predictions[i] == 1
    ensures |Predicted(rows, predictions, 0)| + |Predicted(rows, predictions, 1)| == |rows|
    ensures forall i :: 0 <= i < |rows| ==>
      ((i in KeptIndices(PredictedMask(predictions, 0))) != (i in KeptIndices(PredictedMask(predictions, 1))))
  {
    KeptIndicesComplement(PredictedMask(predictions, 0), PredictedMask(predictions, 1));
    KeptIndicesExactly(PredictedMask(predictions, 0));
    KeptIndicesExactly(PredictedMask(predictions, 1));
  }

  /** German credit: `2 - status` turns the file's good (1) and bad (2) into 1 and 0. */
  function GermanLabel(status: int): int {
    2 - status
  }

  /** COMPAS: `1 - status` swaps reoffended and not. */
  function CompasLabel(status: int): int {
    1 - status
  }

  /** Default credit: `replace({0: 1, 1: 0})` swaps 0 and 1 and leaves every other value alone. */
  function DefaultLabel(v: Cell): Cell {
    if v == Number(0) then Number(1) else if v == Number(1) then Number(0) else v
  }

  /** HELOC: `replace(["Bad", "Good"], [0, 1])` encodes the two outcomes and leaves every other value alone. */
  function HelocLabel(v: Cell): Cell {
    if v == Text("Bad") then Number(0) else if v == Text("Good") then Number(1) else v
  }

  /** The German and COMPAS flips map the file's two labels onto {0, 1} with the favourable outcome 1, and undo themselves; HELOC encodes its two outcome names. */
  lemma LabelFlips(status: int, v: Cell)
    ensures GermanLabel(1) == 1 && GermanLabel(2) == 0
    ensures CompasLabel(0) == 1 && CompasLabel(1) == 0
    ensures GermanLabel(GermanLabel(status)) == status && CompasLabel(CompasLabel(status)) == status
    ensures DefaultLabel(DefaultLabel(v)) == v
    ensures v != Number(0) && v != Number(1) ==> DefaultLabel(v) == v
    ensures HelocLabel(Text("Bad")) == Number(0) && HelocLabel(Text("Good")) == Number(1)
    ensures v != Text("Bad") && v != Text("Good") ==> HelocLabel(v) == v
  {
  }

  datatype Dataset = GermanNumeric | German | Compas | Heloc | DefaultCredit | Unrecognised

  function DatasetOf(name: string): Dataset {
    if name == "germannumeric_credit" then GermanNumeric
    else if name == "german_credit" then German
    else if name == "compas" then Compas
    else if name == "heloc" then Heloc
    else if name == "default_credit" then DefaultCredit
    else Unrecognised
  }

  /** The features each data set removes from `feat_to_vary`: the protected attributes. */
  function Protected(d: Dataset): seq<string> {
    match d
    case German => ["Sex", "Foreign-Worker"]
    case Compas => ["Sex"]
    case DefaultCredit => ["SEX"]
    case _ => []
  }

  /** `feat_to_vary.remove(f)` for each protected `f` in turn; `None` is the ValueError of a missing one. */
  function RemoveEach(features: seq<string>, names: seq<string>): (r: Option<seq<string>>)
    ensures r.Some? ==> |r.value| + |names| == |features|
    ensures names == [] ==> r == Some(features)
  {
    if names == [] then Some(features)
    else if names[0] !in features then None
    else RemoveEach(Seqs.RemoveFirst(features, names[0]), names[1..])
  }

  /** `feat_to_vary` of `preprocess_datasets`: the affected data's columns without the protected ones. */
  function FeatToVary(d: Dataset, columns: seq<string>): (r: Option<seq<string>>)
    ensures r.Some? ==> |r.value| == |columns| - |Protected(d)|
    ensures d == Heloc || d == GermanNumeric ==> r == Some(columns)
  {
    RemoveEach(columns, Protected(d))
  }

  lemma {:induction false} RemoveEachDistinct(features: seq<string>, names: seq<string>)
    requires Seqs.Distinct(features) && Seqs.Distinct(names)
    requires forall k :: 0 <= k < |names| ==> names[k] in features
    ensures RemoveEach(features, names).Some?
    ensures Seqs.Distinct(RemoveEach(features, names).value)
    ensures forall f :: f in RemoveEach(features, names).value <==> f in features && f !in names
  {
    if names != [] {
      var rest := Seqs.RemoveFirst(features, names[0]);
      Seqs.RemoveFirstDistinct(features, names[0]);
      forall k | 0 <= k < |names| - 1 ensures names[1..][k] in rest {
        assert names[1..][k] == names[k + 1] != names[0];
      }
      RemoveEachDistinct(rest, names[1..]);
      assert forall f :: f in names <==> f == names[0] || f in names[1..];
    }
  }

  /** Removing `x` keeps every other element, duplicates or not. */
  lemma {:induction false} RemoveFirstKeeps(s: seq<string>, x: string, y: string)
    requires x in s && y in s && y != x
    ensures y in Seqs.RemoveFirst(s, x)
  {
    if s[0] != x {
      if y != s[0] {
        assert y in s[1..];
        RemoveFirstKeeps(s[1..], x, y);
      }
    }
  }

  lemma {:induction false} RemoveEachMissing(features: seq<string>, names: seq<string>, k: nat)
    requires Seqs.Distinct(features) && Seqs.Distinct(names)
    requires k < |names| && names[k] !in features
    ensures RemoveEach(features, names).None?
  {
    if names[0] in features {
      var rest := Seqs.RemoveFirst(features, names[0]);
      Seqs.RemoveFirstDistinct(features, names[0]);
      assert names[1..][k - 1] == names[k];
      RemoveEachMissing(rest, names[1..], k - 1);
    }
  }

  /**
   * Protected features are never varied: when the data has them, `feat_to_vary` is
   * every other column, once each; a data set lacking one fails instead.
   */
  lemma FeatToVaryExcludesProtected(d: Dataset, columns: seq<string>, f: string)
    requires Seqs.Distinct(columns)
    ensures FeatToVary(d, columns).Some? <==> forall k :: 0 <= k < |Protected(d)| ==> Protected(d)[k] in columns
    ensures FeatToVary(d, columns).Some? ==>
      Seqs.Distinct(FeatToVary(d, columns).value) &&
      (f in FeatToVary(d, columns).value <==> f in columns && f !in Protected(d))
  {
    var ps := Protected(d);
    if forall k :: 0 <= k < |ps| ==> ps[k] in columns {
      RemoveEachDistinct(columns, ps);
    } else {
      var k :| 0 <= k < |ps| && ps[k] !in columns;
      RemoveEachMissing(columns, ps, k);
    }
  }

  const GermanColumns := [
    "Existing-Account-Status", "Month-Duration", "Credit-History", "Purpose", "Credit-Amount",
    "Savings-Account", "Present-Employment", "Instalment-Rate", "Sex", "Guarantors", "Residence",
    "Property", "Age", "Installment", "Housing", "Existing-Credits", "Job", "Num-People", "Telephone",
    "Foreign-Worker", "Status"]

  const CompasColumns := ["Sex", "Age_Cat", "Race", "C_Charge_Degree", "Priors_Count", "Time_Served", "Status"]

  /** `target_name` as written: the numeric German branch never sets it, so returning it raises. */
  function TargetNameAsWritten(d: Dataset): (r: Result<string>)
    ensures r.Err? <==> d == GermanNumeric || d == Unrecognised
  {
    match d
    case German => Ok("Status")
    case Compas => Ok("Status")
    case Heloc => Ok("RiskPerformance")
    case DefaultCredit => Ok("target")
    case GermanNumeric => Err("UnboundLocalError: target_name")
    case Unrecognised => Err("UnboundLocalError: train_dataset")
  }

  /** Loading the numeric German data set fails at the very end, after the model is trained. */
  lemma GermanNumericHasNoTarget()
    ensures TargetNameAsWritten(DatasetOf("germannumeric_credit")).Err?
  {
  }

  /**
   * `target_name` as evidently intended: the label column, which `get_split` takes as
   * the last column of `data`; for the numeric German data that is its last column.
   */
  function TargetName(d: Dataset, dataColumns: seq<string>): (r: Result<string>)
    ensures d != GermanNumeric ==> r == TargetNameAsWritten(d)
  {
    if d == GermanNumeric then (if dataColumns == [] then Err("IndexError") else Ok(dataColumns[|dataColumns| - 1]))
    else TargetNameAsWritten(d)
  }

  /** Every German and COMPAS target is the label column, the last one, which is never a feature to vary. */
  lemma TargetIsLabelColumn(d: Dataset, dataColumns: seq<string>)
    requires d == German ==> dataColumns == GermanColumns
    requires d == Compas ==> dataColumns == CompasColumns
    requires d == German || d == Compas || (d == GermanNumeric && dataColumns != [])
    ensures TargetName(d, dataColumns) == Ok(dataColumns[|dataColumns| - 1])
    ensures d != GermanNumeric ==> FeatToVary(d, dataColumns[..|dataColumns| - 1]).Some?
  {
    if d == German {
      var features := dataColumns[..|dataColumns| - 1];
      assert features[8] == "Sex" && features[19] == "Foreign-Worker";
      var rest := Seqs.RemoveFirst(features, "Sex");
      RemoveFirstKeeps(features, "Sex", "Foreign-Worker");
      assert ["Sex", "Foreign-Worker"][1..] == ["Foreign-Worker"] && ["Foreign-Worker"][1..] == [];
      assert RemoveEach(features, ["Sex", "Foreign-Worker"]) == RemoveEach(rest, ["Foreign-Worker"]);
      assert RemoveEach(rest, ["Foreign-Worker"]) == RemoveEach(Seqs.RemoveFirst(rest, "Foreign-Worker"), []);
    } else if d == Compas {
      var features := dataColumns[..|dataColumns| - 1];
      assert features[0] == "Sex";
      assert ["Sex"][1..] == [];
      assert RemoveEach(features, ["Sex"]) == RemoveEach(Seqs.RemoveFirst(features, "Sex"), []);
    }
  }
}
