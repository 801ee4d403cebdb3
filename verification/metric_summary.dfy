/**
 * The metric summary panel: how many affected instances chose each action, and the
 * table rows that number the actions from 1 and attach those populations.
 *
 * `counts` is keyed the way JavaScript keys an object: by the text of the value, so
 * the number 2 and the string "2" land on the same counter.
 */
module MetricSummary {
  import opened Wrappers
  import opened Js
  import Decimal
  import Seqs

  /** The values a `for (const key in instances)` loop reads; none at all for `null`/`undefined`. */
  function InstanceValues(instances: Value): (vs: seq<Value>)
    ensures instances.Obj? ==> vs == Values(instances.fields)
    ensures instances.Arr? ==> vs == instances.items
    ensures Nullish(instances) ==> vs == []
  {
    match Entries(instances)
    case None => []
    case Some(fs) => Values(fs)
  }

  /** How many of `vs` are spelled `k` when used as a property key. */
  function Count(vs: seq<Value>, k: string): nat {
    if vs == [] then 0
    else Count(vs[..|vs| - 1], k) + (if ToStr(vs[|vs| - 1]) == k then 1 else 0)
  }

  /**
   * The `counts` object after the loop has read `vs` in order. `(counts[value] || 0) + 1`:
   * a stored count is a positive number and an absent one reads as `undefined`, which
   * `|| 0` turns into 0.
   */
  function Tally(vs: seq<Value>): (t: Object)
    ensures WellFormed(t)
  {
    if vs == [] then []
    else
      var t := Tally(vs[..|vs| - 1]);
      var key := ToStr(vs[|vs| - 1]);
      var previous := Or(Get(t, key), Num(0));
      var r := Put(t, key, Num((if previous.Num? then previous.n else 0) + 1));
      assert !Has(t, key) ==> Keys(r) == Keys(t) + [key] && key !in Keys(t);
      r
  }

  /** Every counter holds exactly the number of values spelled like its key; other keys are absent. */
  lemma {:induction false} TallyCounts(vs: seq<Value>, k: string)
    ensures Get(Tally(vs), k) == if Count(vs, k) == 0 then Undefined else Num(Count(vs, k))
  {
    if vs != [] {
      var init := vs[..|vs| - 1];
      var last := ToStr(vs[|vs| - 1]);
      TallyCounts(init, last);
      assert Or(Get(Tally(init), last), Num(0)) == Num(Count(init, last));
      assert Count(vs, k) == Count(init, k) + (if last == k then 1 else 0);
      if k != last {
        TallyCounts(init, k);
      }
    }
  }

  function Counts(instances: Value): Object {
    Tally(InstanceValues(instances))
  }

  /** `Action: index + 1` and `Population: counts[index + 1] || 0`, before the item is spread over them. */
  function DerivedFields(i: nat, counts: Object): Object {
    [Field("Action", Num(i + 1)), Field("Population", Or(Get(counts, Decimal.NatToStr(i + 1)), Num(0)))]
  }

  /**
   * Row `i` of `actionsWithAction` for an item whose entries are `fs`. The rounding of
   * numeric entries to two decimals leaves integers as they are.
   */
  function ActionRow(i: nat, fs: Object, counts: Object): (row: Object)
    ensures WellFormed(fs) ==> Keys(row) == Seqs.Dedup(["Action", "Population"] + Keys(fs))
  {
    var row := Assign(DerivedFields(i, counts), Assign([], fs));
    assert WellFormed(fs) ==> Keys(row) == Seqs.Dedup(["Action", "Population"] + Keys(fs)) by {
      if WellFormed(fs) {
        SpreadKeys(i, fs, counts);
      }
    }
    row
  }

  /** Spreading an item over the derived fields puts its new keys after `Action` and `Population`. */
  lemma SpreadKeys(i: nat, fs: Object, counts: Object)
    requires WellFormed(fs)
    ensures Keys(Assign(DerivedFields(i, counts), Assign([], fs))) == Seqs.Dedup(["Action", "Population"] + Keys(fs))
  {
    var base := DerivedFields(i, counts);
    assert Keys(base) == ["Action", "Population"];
    CopyKeys(fs);
    AssignKeys(base, Assign([], fs));
  }

  /** The fields a row starts from, before the item is spread over them. */
  lemma DerivedGet(i: nat, counts: Object, k: string)
    ensures Get(DerivedFields(i, counts), k) ==
      if k == "Action" then Num(i + 1)
      else if k == "Population" then Or(Get(counts, Decimal.NatToStr(i + 1)), Num(0))
      else Undefined
  {
    var base := DerivedFields(i, counts);
    assert Keys(base) == ["Action", "Population"];
    GetAt(base, 0);
    GetAt(base, 1);
  }

  /** `actions.map(...)`; `None` is the TypeError `Object.entries` throws on a `null`/`undefined` item. */
  function ActionRows(actions: seq<Value>, instances: Value): (r: Option<seq<Object>>)
    ensures r.Some? <==> forall i :: 0 <= i < |actions| ==> !Nullish(actions[i])
    ensures r.Some? ==> |r.value| == |actions|
  {
    if forall i :: 0 <= i < |actions| ==> !Nullish(actions[i]) then
      var counts := Counts(instances);
      Some(seq(|actions|, i requires 0 <= i < |actions| => ActionRow(i, Entries(actions[i]).value, counts)))
    else None
  }

  lemma RowAt(actions: seq<Value>, instances: Value, i: nat)
    requires ActionRows(actions, instances).Some?
    requires i < |actions|
    ensures ActionRows(actions, instances).value[i] == ActionRow(i, Entries(actions[i]).value, Counts(instances))
  {
  }

  /** Row keys: `Action` and `Population` first, then the item's own keys in order. */
  lemma RowKeys(actions: seq<Value>, instances: Value, i: nat)
    requires ActionRows(actions, instances).Some?
    requires i < |actions|
    requires WellFormed(Entries(actions[i]).value)
    ensures Keys(ActionRows(actions, instances).value[i]) == Seqs.Dedup(["Action", "Population"] + Keys(Entries(actions[i]).value))
  {
    RowAt(actions, instances, i);
  }

  /**
   * Row `i` numbers its action `i + 1` and carries the number of instances that chose
   * it (0 if none); every field of the item is copied and, because the spread comes
   * last, an item field named `Action` or `Population` wins.
   */
  lemma RowFields(actions: seq<Value>, instances: Value, i: nat, k: string)
    requires ActionRows(actions, instances).Some?
    requires i < |actions|
    requires WellFormed(Entries(actions[i]).value)
    ensures var fs := Entries(actions[i]).value;
      Get(ActionRows(actions, instances).value[i], k) ==
        if Has(fs, k) then Get(fs, k)
        else if k == "Action" then Num(i + 1)
        else if k == "Population" then Num(Count(InstanceValues(instances), Decimal.NatToStr(i + 1)))
        else Undefined
  {
    RowAt(actions, instances, i);
    var fs := Entries(actions[i]).value;
    var base := DerivedFields(i, Counts(instances));
    CopyOfWellFormed(fs);
    AssignGet(base, fs, k);
    DerivedGet(i, Counts(instances), k);
    TallyCounts(InstanceValues(instances), Decimal.NatToStr(i + 1));
  }

  /** How many of the first `n` action numbers spell `s`: at most one, since numbers print distinctly. */
  function Hits(s: string, n: nat): nat {
    if n == 0 then 0 else Hits(s, n - 1) + (if Decimal.NatToStr(n) == s then 1 else 0)
  }

  /** Sum of the populations of rows 1 .. n. */
  function PopulationTotal(vs: seq<Value>, n: nat): nat {
    if n == 0 then 0 else PopulationTotal(vs, n - 1) + Count(vs, Decimal.NatToStr(n))
  }

  lemma {:induction false} HitsNone(s: string, n: nat)
    requires forall m :: 1 <= m <= n ==> Decimal.NatToStr(m) != s
    ensures Hits(s, n) == 0
  {
    if n > 0 {
      HitsNone(s, n - 1);
    }
  }

  lemma {:induction false} HitsAtMostOne(s: string, n: nat)
    ensures Hits(s, n) <= 1
  {
    if n > 0 {
      if Decimal.NatToStr(n) == s {
        forall m | 1 <= m <= n - 1
          ensures Decimal.NatToStr(m) != s
        {
          Decimal.NatToStrInjective(m, n);
        }
        HitsNone(s, n - 1);
      } else {
        HitsAtMostOne(s, n - 1);
      }
    }
  }

  /** One more instance adds to the total exactly the number of rows its value names. */
  lemma {:induction false} PopulationTotalSnoc(vs: seq<Value>, v: Value, n: nat)
    ensures PopulationTotal(vs + [v], n) == PopulationTotal(vs, n) + Hits(ToStr(v), n)
  {
    if n > 0 {
      PopulationTotalSnoc(vs, v, n - 1);
      assert (vs + [v])[..|vs + [v]| - 1] == vs;
    }
  }

  lemma {:induction false} NoInstancesNoPopulation(n: nat)
    ensures PopulationTotal([], n) == 0
  {
    if n > 0 {
      NoInstancesNoPopulation(n - 1);
    }
  }

  /** However many actions there are, the populations add up to at most the instance count. */
  lemma {:induction false} PopulationTotalBound(vs: seq<Value>, n: nat)
    ensures PopulationTotal(vs, n) <= |vs|
  {
    if vs != [] {
      var init := vs[..|vs| - 1];
      assert vs == init + [vs[|vs| - 1]];
      PopulationTotalBound(init, n);
      PopulationTotalSnoc(init, vs[|vs| - 1], n);
      HitsAtMostOne(ToStr(vs[|vs| - 1]), n);
      assert PopulationTotal(vs, n) == PopulationTotal(init, n) + Hits(ToStr(vs[|vs| - 1]), n);
    } else {
      NoInstancesNoPopulation(n);
    }
  }

  /** An instance marked '-' or choosing a number outside 1 .. n adds to no row's population. */
  lemma UnrankedCountsNowhere(vs: seq<Value>, v: Value, n: nat)
    requires v == Str("-") || (v.Num? && (v.n < 1 || v.n > n))
    ensures PopulationTotal(vs + [v], n) == PopulationTotal(vs, n)
  {
    PopulationTotalSnoc(vs, v, n);
    forall m | 1 <= m <= n
      ensures Decimal.NatToStr(m) != ToStr(v)
    {
      if v.Num? {
        if v.n >= 0 {
          Decimal.NatToStrInjective(m, v.n);
        } else {
          assert ToStr(v)[0] == '-';
        }
      } else {
        assert ToStr(v)[0] == '-';
      }
    }
    HitsNone(ToStr(v), n);
  }

  datatype Panel = NoData | Summary(cost: Value, eff: Value, rows: seq<Object>)

  /**
   * What the component renders. The rows are built before the `null` check, so a
   * `null` item throws even when the panel would say "No data available". The check is
   * loose equality with `null`: a cost or effectiveness of 0 is data.
   */
  function Render(cost: Value, eff: Value, actions: seq<Value>, instances: Value): (r: Option<Panel>)
    ensures r.None? <==> ActionRows(actions, instances).None?
    ensures r.Some? ==> (r.value.NoData? <==> Nullish(cost) || Nullish(eff))
    ensures r.Some? && r.value.Summary? ==> r.value.rows == ActionRows(actions, instances).value
  {
    match ActionRows(actions, instances)
    case None => None
    case Some(rows) => Some(if Nullish(cost) || Nullish(eff) then NoData else Summary(cost, eff, rows))
  }
}
