/**
 * Records as the two in-memory stores hold them: a row is a dictionary from
 * column names to JavaScript values, and the store maps table names to the
 * rows of each table, in insertion order.
 */
module Rows {
  import opened Wrappers
  import opened Text

  /** The JavaScript values a row can hold. Numbers are modelled as integers. */
  datatype Value = Str(s: string) | Num(n: int) | Bool(b: bool) | Null | Undefined | Arr(items: seq<Value>)

  type Row = map<string, Value>

  /** The store: table name to rows. */
  type Tables = map<string, seq<Row>>

  /** `row[key]`: a missing column reads as `undefined`. */
  function Get(row: Row, key: string): (v: Value)
    ensures key !in row ==> v == Undefined
  {
    if key in row then row[key] else Undefined
  }

  /**
   * `a === b`. Scalars compare by value; arrays are objects and compare by
   * identity, and two arrays built separately are never identical.
   */
  predicate StrictEquals(a: Value, b: Value)
    ensures StrictEquals(a, b) ==> a == b
    ensures !a.Arr? && !b.Arr? ==> (StrictEquals(a, b) <==> a == b)
    ensures a.Arr? || b.Arr? ==> !StrictEquals(a, b)
  {
    !a.Arr? && !b.Arr? && a == b
  }

  /** `values.includes(v)` (SameValueZero, which agrees with `===` on these values). */
  predicate Includes(values: seq<Value>, v: Value) {
    exists x :: x in values && StrictEquals(x, v)
  }

  /** JavaScript truthiness. */
  predicate Truthy(v: Value) {
    match v
    case Str(s) => s != ""
    case Num(n) => n != 0
    case Bool(b) => b
    case Null => false
    case Undefined => false
    case Arr(_) => true
  }

  /** `String(v)`; arrays print as their elements joined with commas. */
  function ToJsString(v: Value): string
    decreases v, 1
  {
    match v
    case Str(s) => s
    case Num(n) => IntToString(n)
    case Bool(b) => if b then "true" else "false"
    case Null => "null"
    case Undefined => "undefined"
    case Arr(items) => JoinValues(items)
  }

  /** `items.join(',')`: `null` and `undefined` elements print as empty strings. */
  function JoinValues(items: seq<Value>): string
    decreases items, 0
  {
    if items == [] then ""
    else
      var head := if items[0].Null? || items[0].Undefined? then "" else ToJsString(items[0]);
      if |items| == 1 then head else head + "," + JoinValues(items[1..])
  }

  /** `String(v || '')`: the text of a column, empty when the value is falsy. */
  function TextOf(v: Value): (t: string)
    ensures !Truthy(v) ==> t == ""
    ensures v.Str? ==> t == v.s
  {
    if Truthy(v) then ToJsString(v) else ""
  }

  /** `store[table] || []`: a table that does not exist reads as empty, one that does as itself. */
  function TableOf(tables: Tables, table: string): (rows: seq<Row>)
    ensures table !in tables ==> rows == []
    ensures table in tables ==> rows == tables[table]
  {
    if table in tables then tables[table] else []
  }

  /** The id both stores generate for a row inserted without one: `` `${table}-${n}` ``. */
  function DefaultId(table: string, n: nat): (id: string)
    ensures |id| > |table| + 1 && id[..|table| + 1] == table + "-"
    ensures forall k :: |table| + 1 <= k < |id| ==> '0' <= id[k] <= '9'
    ensures DecimalValue(id[|table| + 1..]) == n
  {
    var id := table + "-" + NatToString(n);
    assert id[|table| + 1..] == NatToString(n);
    NatToStringRoundTrip(n);
    id
  }

  /**
   * `{ id: payload.id || fallback, ...payload }`. Because the spread comes last,
   * a payload that has an `id` column keeps it, even a falsy one; the fallback
   * is used only when the column is absent.
   */
  function WithDefaultId(payload: Row, fallback: string): (row: Row)
    ensures row.Keys == payload.Keys + {"id"}
    ensures forall k :: k in payload ==> row[k] == payload[k]
    ensures "id" !in payload ==> row["id"] == Str(fallback)
  {
    var id := Get(payload, "id");
    map["id" := if Truthy(id) then id else Str(fallback)] + payload
  }

  /** `{ ...row, ...payload }`: the payload's columns win. */
  function Merge(row: Row, payload: Row): (r: Row)
    ensures r.Keys == row.Keys + payload.Keys
    ensures forall k :: k in payload ==> r[k] == payload[k]
    ensures forall k :: k in row && k !in payload ==> r[k] == row[k]
  {
    row + payload
  }

  /** The mutable table map both stores share by reference. */
  class Store {
    var tables: Tables

    constructor (initial: Tables)
      ensures tables == initial
    {
      tables := initial;
    }
  }
}
