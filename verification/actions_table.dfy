/**
 * The actions table: its columns are the keys found in any row, each once, with
 * `Population` moved to the end; headers capitalise the first letter; grid rows get a
 * positional `id` that the row's own `id` overrides.
 */
module ActionsTable {
  import opened Js
  import Seqs

  /** The keys of every row, row after row, repetitions included. */
  function AllKeys(data: seq<Object>): (ks: seq<string>)
    ensures forall k :: k in ks <==> exists i :: 0 <= i < |data| && Has(data[i], k)
  {
    if data == [] then []
    else
      var ks := AllKeys(data[..|data| - 1]) + Keys(data[|data| - 1]);
      assert forall i :: 0 <= i < |data| - 1 ==> data[..|data| - 1][i] == data[i];
      ks
  }

  /** `getUniqueKeys`: a `Set` filled row by row, read back in insertion order. */
  function UniqueKeys(data: seq<Object>): (ks: seq<string>)
    ensures Seqs.Distinct(ks)
    ensures forall k :: k in ks <==> exists i :: 0 <= i < |data| && Has(data[i], k)
  {
    Seqs.Dedup(AllKeys(data))
  }

  /** The unique keys appear in the order their first occurrence has among all rows' keys. */
  lemma UniqueKeysOrder(data: seq<Object>)
    ensures var ks := UniqueKeys(data);
      forall i, j :: 0 <= i < j < |ks| ==>
        Seqs.FirstIndex(AllKeys(data), ks[i]) < Seqs.FirstIndex(AllKeys(data), ks[j])
  {
    Seqs.DedupFirstAppearance(AllKeys(data));
  }

  predicate NotPopulation(key: string) {
    key != "Population"
  }

  /** `keys.filter((key) => key !== "Population")` */
  function WithoutPopulation(ks: seq<string>): seq<string> {
    Seqs.Filter(ks, NotPopulation)
  }

  /** The column order: every other key in its place, then `Population` if it was there. */
  function Reordered(ks: seq<string>): seq<string> {
    WithoutPopulation(ks) + (if "Population" in ks then ["Population"] else [])
  }

  /** Among distinct keys, dropping `Population` shortens the list by one exactly when it was there. */
  lemma {:induction false} WithoutPopulationLength(ks: seq<string>)
    requires Seqs.Distinct(ks)
    ensures |WithoutPopulation(ks)| == if "Population" in ks then |ks| - 1 else |ks|
  {
    if ks != [] {
      var init := ks[..|ks| - 1];
      assert Seqs.Distinct(init);
      WithoutPopulationLength(init);
      assert "Population" in ks <==> "Population" in init || ks[|ks| - 1] == "Population";
    }
  }

  /**
   * With distinct keys the reordering is a rearrangement: same keys, same count, no
   * repetitions; `Population`, when present, is last; the other keys keep their order;
   * without `Population` nothing moves.
   */
  lemma ReorderedKeys(ks: seq<string>)
    requires Seqs.Distinct(ks)
    ensures var r := Reordered(ks);
      |r| == |ks| &&
      Seqs.Distinct(r) &&
      (forall k :: k in r <==> k in ks) &&
      ("Population" in ks ==> r[|r| - 1] == "Population") &&
      WithoutPopulation(r) == WithoutPopulation(ks) &&
      ("Population" !in ks ==> r == ks)
  {
    var w := WithoutPopulation(ks);
    WithoutPopulationLength(ks);
    Seqs.FilterDistinct(ks, NotPopulation);
    Seqs.FilterAll(w, NotPopulation);
    if "Population" in ks {
      Seqs.FilterAppend(w, ["Population"], NotPopulation);
      assert WithoutPopulation(["Population"]) == [] by {
        assert ["Population"][..0] == [];
      }
    } else {
      Seqs.FilterAll(ks, NotPopulation);
      assert Reordered(ks) == w;
    }
  }

  /** ASCII upper-casing of one character (`toUpperCase` on a letter a-z). */
  function UpperAscii(c: char): char {
    if 'a' <= c <= 'z' then (c as int - 32) as char else c
  }

  /** `key.charAt(0).toUpperCase() + key.slice(1)` */
  function HeaderName(key: string): (h: string)
    ensures |h| == |key|
    ensures key != [] ==> h[0] == UpperAscii(key[0])
    ensures key != [] ==> h[1..] == key[1..]
  {
    if key == [] then [] else [UpperAscii(key[0])] + key[1..]
  }

  /** Capitalising a capitalised header changes nothing. */
  lemma HeaderNameIdempotent(key: string)
    ensures HeaderName(HeaderName(key)) == HeaderName(key)
  {
    if key != [] {
      var h := HeaderName(key);
      assert h == [h[0]] + h[1..];
    }
  }

  datatype Column = Column(field: string, headerName: string)

  /** `getColumns(data)` */
  function Columns(data: seq<Object>): (cols: seq<Column>)
    ensures |cols| == |UniqueKeys(data)|
    ensures forall j :: 0 <= j < |cols| ==> cols[j].field in UniqueKeys(data)
    ensures forall j :: 0 <= j < |cols| ==> cols[j].headerName == HeaderName(cols[j].field)
    ensures |cols| > 0 && "Population" in UniqueKeys(data) ==> cols[|cols| - 1].field == "Population"
  {
    var ks := Reordered(UniqueKeys(data));
    ReorderedKeys(UniqueKeys(data));
    seq(|ks|, j requires 0 <= j < |ks| => Column(ks[j], HeaderName(ks[j])))
  }

  /** `data.map((item, index) => ({ id: index, ...item }))` */
  function GridRows(data: seq<Object>): (rows: seq<Object>)
    ensures |rows| == |data|
  {
    seq(|data|, i requires 0 <= i < |data| => Assign([Field("id", Num(i))], data[i]))
  }

  /** The grid id is the position unless the row has an `id` of its own; all other fields are copied. */
  lemma GridRowFields(data: seq<Object>, i: nat, k: string)
    requires i < |data| && WellFormed(data[i])
    ensures Get(GridRows(data)[i], k) ==
      if Has(data[i], k) then Get(data[i], k) else if k == "id" then Num(i) else Undefined
  {
    assert GridRows(data)[i] == Assign([Field("id", Num(i))], data[i]);
    AssignGet([Field("id", Num(i))], data[i], k);
  }
}
