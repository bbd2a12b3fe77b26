/** The JSON values the file-backed stores read and write. Numbers are modelled as
    integers; arrays and nested objects as field values are not modelled. */
module JsValues {
  import opened Wrappers
  import opened JsText

  datatype Value = JNull | JBool(b: bool) | JNum(n: int) | JStr(s: JsString)

  /** A parsed JSON object: field names to values. */
  type Record = map<string, Value>

  /** JavaScript truthiness of a value. */
  predicate Truthy(v: Value): (t: bool)
    ensures !t <==> v in {JNull, JBool(false), JNum(0), JStr([])}
  {
    match v
    case JNull => false
    case JBool(b) => b
    case JNum(n) => n != 0
    case JStr(s) => s != []
  }

  /** The field `f` of `r`, or `None` where JavaScript reads `undefined`. */
  function Get(r: Record, f: string): (v: Option<Value>)
    ensures v.Some? <==> f in r
    ensures v.Some? ==> v.value == r[f]
  {
    if f in r then Some(r[f]) else None
  }

  /** JavaScript `x + 1` on a field value, as the sum is written back by
      `JSON.stringify`: a string gets the digit 1 appended, `null` and booleans convert
      to numbers, and `undefined + 1` is `NaN`, which is written as `null`. */
  function PlusOne(x: Option<Value>): (r: Value)
    ensures x.None? ==> r == JNull
    ensures x == Some(JNull) ==> r == JNum(1)
    ensures x.Some? && x.value.JBool? ==> r == JNum(if x.value.b then 2 else 1)
    ensures x.Some? && x.value.JNum? ==> r == JNum(x.value.n + 1)
    ensures x.Some? && x.value.JStr? ==> r == JStr(x.value.s + ['1' as int])
  {
    match x
    case None => JNull
    case Some(JNull) => JNum(1)
    case Some(JBool(b)) => JNum(if b then 2 else 1)
    case Some(JNum(n)) => JNum(n + 1)
    case Some(JStr(s)) => JStr(s + ['1' as int])
  }
}

/** Operations shared by the JSON-file stores: locating a record by a field the way
    `Array.prototype.find`/`findIndex` do, merging with object spread, and removal
    with `splice`. */
module Records {
  import opened Wrappers
  import opened JsValues

  /** `r[field] === v` for a value read from JSON (no `NaN` can be read from JSON). */
  predicate Matches(r: Record, field: string, v: Value) {
    field in r && r[field] == v
  }

  predicate IsFirstMatch(rs: seq<Record>, i: nat, field: string, v: Value) {
    i < |rs| && Matches(rs[i], field, v) && forall j :: 0 <= j < i ==> !Matches(rs[j], field, v)
  }

  /** `rs.findIndex(r => r[field] === v)`, with `None` for -1. */
  function FindIndex(rs: seq<Record>, field: string, v: Value): (i: Option<nat>)
    ensures i.Some? ==> IsFirstMatch(rs, i.value, field, v)
    ensures i.None? <==> forall j :: 0 <= j < |rs| ==> !Matches(rs[j], field, v)
  {
    IndexWhere(rs, (r: Record) => Matches(r, field, v))
  }

  /** The edited fields handed to a store: an own field of the object whose value is
      `None` holds `undefined`. */
  type Patch = map<string, Option<Value>>

  /** `{...base, ...patch}` as it is stored by `JSON.stringify`: every field of the
      patch overwrites, every other field of the base is kept, and a patch field that
      holds `undefined` is copied by the spread and then dropped when the object is
      written, so it removes that field from the stored record. */
  function Merge(base: Record, patch: Patch): (m: Record)
    ensures forall f :: f in patch ==> (f in m <==> patch[f].Some?)
    ensures forall f :: f in patch && patch[f].Some? ==> m[f] == patch[f].value
    ensures forall f :: f !in patch ==> (f in m <==> f in base)
    ensures forall f :: f in base && f !in patch ==> m[f] == base[f]
  {
    map f | f in base.Keys + patch.Keys && (f in patch ==> patch[f].Some?) ::
      if f in patch then patch[f].value else base[f]
  }

  /** A patch without `undefined` fields merges as plain map union, the right side
      winning. */
  lemma MergeDefinedIsUnion(base: Record, patch: Patch, values: Record)
    requires patch.Keys == values.Keys
    requires forall f :: f in patch ==> patch[f] == Some(values[f])
    ensures Merge(base, patch) == base + values
  {
  }

  /** `rs.splice(i, 1)`: exactly the element at `i` is removed and the others keep
      their order. */
  function RemoveAt(rs: seq<Record>, i: nat): (r: seq<Record>)
    requires i < |rs|
    ensures |r| == |rs| - 1
    ensures forall j :: 0 <= j < i ==> r[j] == rs[j]
    ensures forall j :: i <= j < |r| ==> r[j] == rs[j + 1]
    ensures multiset(r) + multiset{rs[i]} == multiset(rs)
  {
    assert rs == rs[..i] + [rs[i]] + rs[i + 1..];
    rs[..i] + rs[i + 1..]
  }
}
