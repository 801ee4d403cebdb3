/**
 * JavaScript values as the front end sees decoded JSON, and the few object operations
 * the adapters rely on.
 *
 * An object is the ordered list of its own properties, in the order `Object.keys`
 * enumerates them. Reading a property takes the first field with that key; writing
 * `o[k] = v` replaces that field in place or appends a new one, which is why a
 * property keeps its position when it is overwritten. Objects built by JavaScript
 * never repeat a key (`WellFormed`). Numbers are integers here.
 */
module Js {
  import opened Wrappers
  import Decimal
  import Seqs

  datatype Value =
    | Undefined
    | Null
    | Bool(b: bool)
    | Num(n: int)
    | Str(s: string)
    | Arr(items: seq<Value>)
    | Obj(fields: seq<Field>)

  datatype Field = Field(key: string, val: Value)

  type Object = seq<Field>

  /** JavaScript truthiness (`if (v)`, `v || d`, `!v`). */
  predicate Truthy(v: Value) {
    match v
    case Undefined => false
    case Null => false
    case Bool(b) => b
    case Num(n) => n != 0
    case Str(s) => s != []
    case Arr(_) => true
    case Obj(_) => true
  }

  /** `v || d` */
  function Or(v: Value, d: Value): (r: Value)
    ensures Truthy(v) ==> r == v
    ensures !Truthy(v) ==> r == d
  {
    if Truthy(v) then v else d
  }

  /** `v == null` (loose equality): true exactly for `null` and `undefined`. */
  predicate Nullish(v: Value) {
    v.Undefined? || v.Null?
  }

  /** `Object.keys(o)` */
  function Keys(o: Object): (ks: seq<string>)
    ensures |ks| == |o|
    ensures forall i :: 0 <= i < |o| ==> ks[i] == o[i].key
  {
    seq(|o|, i requires 0 <= i < |o| => o[i].key)
  }

  predicate Has(o: Object, k: string) {
    k in Keys(o)
  }

  /** Every object JavaScript builds has pairwise distinct keys. */
  predicate WellFormed(o: Object) {
    Seqs.Distinct(Keys(o))
  }

  /** `o[k]`: the value of the property named `k`, `undefined` when there is none. */
  function Get(o: Object, k: string): (v: Value)
    ensures !Has(o, k) ==> v == Undefined
    ensures Has(o, k) ==> v == o[Seqs.FirstIndex(Keys(o), k)].val
  {
    if o == [] then Undefined
    else if o[0].key == k then o[0].val
    else
      assert Keys(o[1..]) == Keys(o)[1..];
      Get(o[1..], k)
  }

  /** `o[k] = v` on a copy: an existing property keeps its place, a new one goes last. */
  function Put(o: Object, k: string, v: Value): (r: Object)
    ensures Keys(r) == if Has(o, k) then Keys(o) else Keys(o) + [k]
    ensures Get(r, k) == v
    ensures forall k' :: k' != k ==> Get(r, k') == Get(o, k')
  {
    if Has(o, k) then
      var r := o[Seqs.FirstIndex(Keys(o), k) := Field(k, v)];
      assert Keys(r) == Keys(o);
      r
    else
      var r := o + [Field(k, v)];
      assert Keys(r) == Keys(o) + [k] && Keys(r)[..|o|] == Keys(o);
      forall k' | Has(o, k') ensures Seqs.FirstIndex(Keys(r), k') == Seqs.FirstIndex(Keys(o), k') {
        Seqs.FirstIndexPrefix(Keys(r), |o|, k');
      }
      r
  }

  /** In a well-formed object, reading a field's key gives that field's value. */
  lemma GetAt(o: Object, i: nat)
    requires WellFormed(o) && i < |o|
    ensures Get(o, o[i].key) == o[i].val
  {
    assert Keys(o)[i] == o[i].key;
  }

  /** An object literal with three distinct keys reads back each field. */
  lemma ThreeFields(a: Field, b: Field, c: Field)
    requires a.key != b.key && a.key != c.key && b.key != c.key
    ensures Keys([a, b, c]) == [a.key, b.key, c.key]
    ensures Get([a, b, c], a.key) == a.val && Get([a, b, c], b.key) == b.val && Get([a, b, c], c.key) == c.val
  {
    var o := [a, b, c];
    assert Keys(o) == [a.key, b.key, c.key];
    GetAt(o, 0);
    GetAt(o, 1);
    GetAt(o, 2);
  }

  /** An object literal with four distinct keys reads back each field. */
  lemma FourFields(a: Field, b: Field, c: Field, d: Field)
    requires a.key != b.key && a.key != c.key && a.key != d.key && b.key != c.key && b.key != d.key && c.key != d.key
    ensures Keys([a, b, c, d]) == [a.key, b.key, c.key, d.key]
    ensures WellFormed([a, b, c, d])
    ensures Get([a, b, c, d], a.key) == a.val && Get([a, b, c, d], b.key) == b.val
    ensures Get([a, b, c, d], c.key) == c.val && Get([a, b, c, d], d.key) == d.val
  {
    var o := [a, b, c, d];
    assert Keys(o) == [a.key, b.key, c.key, d.key];
    GetAt(o, 0);
    GetAt(o, 1);
    GetAt(o, 2);
    GetAt(o, 3);
  }

  /** After a write the object has the keys it had and the written one. */
  lemma PutHas(o: Object, k: string, v: Value, k': string)
    ensures Has(Put(o, k, v), k') <==> Has(o, k') || k' == k
  {
    if !Has(o, k) {
      assert Keys(o) + [k] == Keys(Put(o, k, v));
    }
  }

  lemma KeysAppend(a: Object, b: Object)
    ensures Keys(a + b) == Keys(a) + Keys(b)
  {
  }

  /** The value of the LAST field named `k` (the one a left-to-right copy leaves behind). */
  function LastGet(o: Object, k: string): Value {
    if o == [] then Undefined
    else if o[|o| - 1].key == k then o[|o| - 1].val
    else LastGet(o[..|o| - 1], k)
  }

  /**
   * `Object.assign(t, src)` / `{...t, ...src}`: the fields of `src` written onto `t`
   * one by one, left to right.
   */
  function Assign(t: Object, src: Object): Object {
    if src == [] then t
    else Put(Assign(t, src[..|src| - 1]), src[|src| - 1].key, src[|src| - 1].val)
  }

  /** After a copy, a key of `src` reads as its last value in `src`; any other key as in `t`. */
  lemma {:induction false} AssignGetLast(t: Object, src: Object, k: string)
    ensures Get(Assign(t, src), k) == if Has(src, k) then LastGet(src, k) else Get(t, k)
  {
    if src != [] {
      var init := src[..|src| - 1];
      var f := src[|src| - 1];
      KeysAppend(init, [f]);
      assert src == init + [f];
      assert Has(src, k) <==> Has(init, k) || f.key == k;
      AssignGetLast(t, init, k);
    }
  }

  /** The keys after a copy: those of `t`, then the new keys of `src` in first-appearance order. */
  lemma {:induction false} AssignKeys(t: Object, src: Object)
    requires WellFormed(t)
    ensures Keys(Assign(t, src)) == Seqs.Dedup(Keys(t) + Keys(src))
  {
    if src == [] {
      assert Keys(t) + Keys(src) == Keys(t);
      Seqs.DedupOfDistinct(Keys(t));
    } else {
      var init := src[..|src| - 1];
      var f := src[|src| - 1];
      KeysAppend(init, [f]);
      assert src == init + [f];
      AssignKeys(t, init);
      var a := Assign(t, init);
      var all := Keys(t) + Keys(src);
      var pre := Keys(t) + Keys(init);
      assert all == pre + [f.key];
      Seqs.DedupSnoc(pre, f.key);
      assert Keys(a) == Seqs.Dedup(pre);
      assert Assign(t, src) == Put(a, f.key, f.val);
    }
  }

  /** The field at `j` is the last one named its key when no later field repeats that key. */
  lemma {:induction false} LastGetAt(o: Object, j: nat)
    requires j < |o|
    requires forall j' :: j < j' < |o| ==> o[j'].key != o[j].key
    ensures Has(o, o[j].key)
    ensures LastGet(o, o[j].key) == o[j].val
    decreases |o|
  {
    assert Keys(o)[j] == o[j].key;
    if j < |o| - 1 {
      LastGetAt(o[..|o| - 1], j);
    }
  }

  /** In an object without repeated keys the last field named `k` is the only one. */
  lemma {:induction false} LastGetWellFormed(o: Object, k: string)
    requires WellFormed(o)
    ensures LastGet(o, k) == Get(o, k)
  {
    if o != [] {
      var init := o[..|o| - 1];
      KeysAppend(init, [o[|o| - 1]]);
      assert o == init + [o[|o| - 1]];
      assert WellFormed(init);
      LastGetWellFormed(init, k);
      if o[|o| - 1].key == k {
        assert Seqs.FirstIndex(Keys(o), k) == |o| - 1;
      } else {
        if Has(init, k) {
          var i := Seqs.FirstIndex(Keys(init), k);
          assert Keys(o)[i] == k;
          assert Seqs.FirstIndex(Keys(o), k) == i;
        } else {
          assert !Has(o, k);
        }
      }
    }
  }

  /** Spreading a well-formed object: a field of `src` wins over a field of `t` with the same key. */
  lemma AssignGet(t: Object, src: Object, k: string)
    requires WellFormed(src)
    ensures Get(Assign(t, src), k) == if Has(src, k) then Get(src, k) else Get(t, k)
  {
    AssignGetLast(t, src, k);
    LastGetWellFormed(src, k);
  }

  /** Property keys of a well-formed object after a copy stay distinct. */
  lemma AssignWellFormed(t: Object, src: Object)
    requires WellFormed(t)
    ensures WellFormed(Assign(t, src))
  {
    AssignKeys(t, src);
  }

  /** Copying a well-formed object field by field into an empty one rebuilds it exactly. */
  lemma {:induction false} CopyOfWellFormed(src: Object)
    requires WellFormed(src)
    ensures Assign([], src) == src
  {
    if src != [] {
      var init := src[..|src| - 1];
      var f := src[|src| - 1];
      assert src == init + [f];
      KeysAppend(init, [f]);
      assert Keys(src) == Keys(init) + [f.key];
      assert WellFormed(init) && !Has(init, f.key) by {
        forall i | 0 <= i < |init| ensures Keys(init)[i] != f.key {
          assert Keys(src)[i] == Keys(init)[i];
        }
      }
      CopyOfWellFormed(init);
    }
  }

  /** Copying a well-formed object into an empty one reproduces its keys in order. */
  lemma CopyKeys(src: Object)
    requires WellFormed(src)
    ensures Keys(Assign([], src)) == Keys(src)
    ensures WellFormed(Assign([], src))
  {
    AssignKeys([], src);
    assert [] + Keys(src) == Keys(src);
    Seqs.DedupOfDistinct(Keys(src));
  }

  /** Canonical array-index spelling of a property key, if it is one ("0", "17", not "07"). */
  function CanonicalIndex(key: string): (r: Option<nat>)
    ensures r.Some? ==> Decimal.NatToStr(r.value) == key
  {
    if |key| >= 1 && Decimal.AllDigits(key) && (|key| == 1 || key[0] != '0') then
      var n := Decimal.ParseDigits(key);
      CanonicalRoundTrip(key);
      Some(n)
    else None
  }

  lemma {:induction false} CanonicalRoundTrip(key: string)
    requires |key| >= 1 && Decimal.AllDigits(key) && (|key| == 1 || key[0] != '0')
    ensures Decimal.NatToStr(Decimal.ParseDigits(key)) == key
    decreases |key|
  {
    var n := Decimal.ParseDigits(key);
    var last := key[|key| - 1];
    if |key| == 1 {
      assert key == [last];
    } else {
      var init := key[..|key| - 1];
      assert init[0] == key[0];
      CanonicalRoundTrip(init);
      var m := Decimal.ParseDigits(init);
      assert Decimal.NatToStr(0) == "0";
      assert m >= 1;
      assert n / 10 == m && n % 10 == Decimal.DigitValue(last);
      assert key == init + [last];
    }
  }

  /** Every printed index reads back as that index. */
  lemma CanonicalIndexOf(i: nat)
    ensures CanonicalIndex(Decimal.NatToStr(i)) == Some(i)
  {
    Decimal.ParseNatToStr(i);
  }

  /**
   * Property read `v[key]` on any value. `None` is the TypeError thrown when `v` is
   * `null` or `undefined`; arrays and strings answer to their canonical index keys only.
   */
  function Member(v: Value, key: string): Option<Value> {
    match v
    case Undefined => None
    case Null => None
    case Obj(fs) => Some(Get(fs, key))
    case Arr(items) =>
      var i := CanonicalIndex(key);
      Some(if i.Some? && i.value < |items| then items[i.value] else Undefined)
    case Str(s) =>
      var i := CanonicalIndex(key);
      Some(if i.Some? && i.value < |s| then Str([s[i.value]]) else Undefined)
    case _ => Some(Undefined)
  }

  /** `v?.[key]`: a read through optional chaining, `undefined` on a nullish base. */
  function OptMember(v: Value, key: string): (r: Value)
    ensures Nullish(v) ==> r == Undefined
  {
    match Member(v, key)
    case Some(x) => x
    case None => Undefined
  }

  /** `v[i]` with a numeric position `i`, which JavaScript looks up under the key `String(i)`. */
  function At(v: Value, i: nat): (r: Option<Value>)
    ensures r.None? <==> Nullish(v)
    ensures v.Arr? ==> r == Some(if i < |v.items| then v.items[i] else Undefined)
    ensures v.Obj? ==> r == Some(Get(v.fields, Decimal.NatToStr(i)))
  {
    CanonicalIndexOf(i);
    Member(v, Decimal.NatToStr(i))
  }

  /** Only arrays, objects and non-empty strings have truthy positions. */
  lemma AtTruthy(v: Value, i: nat)
    requires !Nullish(v) && Truthy(At(v, i).value)
    ensures Truthy(v)
  {
  }

  /** The index keys "0" .. "n-1" that `Object.keys` lists for an array or a string of length n. */
  function IndexKeys(n: nat): (ks: seq<string>)
    ensures |ks| == n
    ensures forall i :: 0 <= i < n ==> ks[i] == Decimal.NatToStr(i)
  {
    seq(n, i requires 0 <= i => Decimal.NatToStr(i))
  }

  /** `Object.keys(v)` on any value; `None` is the TypeError for `null`/`undefined`. */
  function ObjectKeys(v: Value): (r: Option<seq<string>>)
    ensures r.None? <==> Nullish(v)
    ensures v.Obj? ==> r == Some(Keys(v.fields))
  {
    match v
    case Undefined => None
    case Null => None
    case Obj(fs) => Some(Keys(fs))
    case Arr(items) => Some(IndexKeys(|items|))
    case Str(s) => Some(IndexKeys(|s|))
    case _ => Some([])
  }

  /** A value whose own keys are distinct: a well-formed object, or anything that is not an object. */
  predicate WellFormedValue(v: Value) {
    v.Obj? ==> WellFormed(v.fields)
  }

  /** `Object.keys` never repeats a key. */
  lemma ObjectKeysDistinct(v: Value)
    requires WellFormedValue(v) && !Nullish(v)
    ensures Seqs.Distinct(ObjectKeys(v).value)
  {
    if v.Arr? || v.Str? {
      var n := if v.Arr? then |v.items| else |v.s|;
      forall i, j | 0 <= i < j < n
        ensures IndexKeys(n)[i] != IndexKeys(n)[j]
      {
        Decimal.NatToStrInjective(i, j);
      }
    }
  }

  /**
   * `Object.entries(v)` (and the properties a `for…in` loop visits) as fields;
   * `None` is the TypeError for `null`/`undefined`.
   */
  function Entries(v: Value): (r: Option<Object>)
    ensures r.None? <==> Nullish(v)
    ensures r.Some? ==> Some(Keys(r.value)) == ObjectKeys(v)
    ensures v.Obj? ==> r == Some(v.fields)
    ensures v.Arr? ==> r.Some? && Values(r.value) == v.items
  {
    match v
    case Undefined => None
    case Null => None
    case Obj(fs) => Some(fs)
    case Arr(items) =>
      var fs := seq(|items|, i requires 0 <= i < |items| => Field(Decimal.NatToStr(i), items[i]));
      assert Keys(fs) == IndexKeys(|items|);
      Some(fs)
    case Str(s) =>
      var fs := seq(|s|, i requires 0 <= i < |s| => Field(Decimal.NatToStr(i), Str([s[i]])));
      assert Keys(fs) == IndexKeys(|s|);
      Some(fs)
    case _ => Some([])
  }

  /** `Object.values(o)` */
  function Values(o: Object): (vs: seq<Value>)
    ensures |vs| == |o|
    ensures forall i :: 0 <= i < |o| ==> vs[i] == o[i].val
  {
    seq(|o|, i requires 0 <= i < |o| => o[i].val)
  }

  /**
   * `String(v)`, as used for computed property keys and template literals. Arrays are
   * not stringified element by element here: no array value ever reaches a key.
   */
  function ToStr(v: Value): string {
    match v
    case Undefined => "undefined"
    case Null => "null"
    case Bool(b) => if b then "true" else "false"
    case Num(n) => Decimal.IntToStr(n)
    case Str(s) => s
    case Arr(_) => ""
    case Obj(_) => "[object Object]"
  }
}
