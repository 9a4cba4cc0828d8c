/**
 * The query-builder mock of the hosted database client: a `MockQuery` on one
 * table of a shared table map accumulates predicates (`eq`, `in`, a parsed
 * `or` expression, `ilike`) and a limit, and applies them in `select`,
 * `single`, `update` and `delete`; `insert` appends rows with default ids.
 *
 * The source keeps the predicates as closures; here each is a `Predicate`
 * value holding what its closure captures, and `Evaluate` runs it on a row.
 * An `ilike` closure calls `toLowerCase` on the column, which throws a
 * `TypeError` when the column holds a truthy value that is not a string;
 * that outcome is `Throws`, and an operation that meets it yields `TypeError`.
 */
module MockSupabase {
  import opened Wrappers
  import opened Seqs
  import opened Text
  import opened Rows
  import MockDb

  /** The error message of `single`, `update` and `delete` when nothing is found. */
  const NotFound: string := "not_found"

  /** What an operation resolves to: `{ data, error: null }`, `{ error: { message } }`, or a thrown `TypeError`. */
  datatype Response<T> = Ok(data: T) | Err(message: string) | TypeError

  /** An accumulated predicate: what each kind of closure captures. */
  datatype Predicate =
    | FieldEquals(field: string, value: Value)
    | FieldIn(field: string, values: seq<Value>)
    | AnyTerm(terms: seq<string>)
    | FieldLike(field: string, search: string)

  /** The outcome of running one predicate on a row. */
  datatype Verdict = Holds | Fails | Throws

  /** `const [lhs, val] = term.split('.eq.')`: `val`, or `undefined` when there is no `.eq.`. */
  function OrTermValue(term: string): Value {
    var sides := Split(term, ".eq.");
    if |sides| > 1 then Str(sides[1]) else Undefined
  }

  /**
   * `lhs.split('.')[1]`: the second `.`-segment of the part before `.eq.`.
   * When `lhs` has no `.` the index reads `undefined`, and `row[undefined]`
   * looks up the key `"undefined"`.
   */
  function OrTermField(term: string): string {
    var path := Split(Split(term, ".eq.")[0], ".");
    if |path| > 1 then path[1] else "undefined"
  }

  /** One term of an `or` expression holds of a row: `row[field] === val`. */
  predicate OrTermHolds(term: string, row: Row) {
    StrictEquals(Get(row, OrTermField(term)), OrTermValue(term))
  }

  /** `expr.split(',').map((p) => p.trim())`: the terms of an `or` expression. */
  function OrTerms(expr: string): (terms: seq<string>)
    ensures |terms| == |Split(expr, ",")|
    ensures forall i :: 0 <= i < |terms| ==> terms[i] == Trim(Split(expr, ",")[i])
  {
    MapSeq(Split(expr, ","), Trim)
  }

  /** Runs one predicate on a row. Only an `ilike` on a truthy non-string column throws. */
  function Evaluate(p: Predicate, row: Row): (v: Verdict)
    ensures v == Throws <==> p.FieldLike? && Truthy(Get(row, p.field)) && !Get(row, p.field).Str?
  {
    match p
    case FieldEquals(f, value) => if StrictEquals(Get(row, f), value) then Holds else Fails
    case FieldIn(f, values) => if Includes(values, Get(row, f)) then Holds else Fails
    case AnyTerm(terms) => if exists t :: t in terms && OrTermHolds(t, row) then Holds else Fails
    case FieldLike(f, search) =>
      var v := Get(row, f);
      if !Truthy(v) then (if Contains("", search) then Holds else Fails)
      else if v.Str? then (if Contains(Lower(v.s), search) then Holds else Fails)
      else Throws
  }

  /**
   * An `or` predicate holds of a row exactly when one of its terms (the
   * trimmed comma-separated pieces of the expression) has its field `===`
   * its value; it never throws.
   */
  lemma OrPredicateHolds(expr: string, row: Row)
    ensures var terms := OrTerms(expr);
            Evaluate(AnyTerm(terms), row) != Throws
            && (Evaluate(AnyTerm(terms), row) == Holds <==> exists i :: 0 <= i < |terms| && OrTermHolds(terms[i], row))
  {
    var terms := OrTerms(expr);
    if exists t :: t in terms && OrTermHolds(t, row) {
      var t :| t in terms && OrTermHolds(t, row);
      var i :| 0 <= i < |terms| && terms[i] == t;
    }
  }

  /** Every predicate holds of the row. */
  predicate Satisfies(ps: seq<Predicate>, row: Row) {
    forall i :: 0 <= i < |ps| ==> Evaluate(ps[i], row) == Holds
  }

  /**
   * `filters.every((f) => f(row))`: runs the predicates in order and stops
   * at the first that does not hold, so a throwing predicate after a failing
   * one is never reached.
   */
  function EvalAll(ps: seq<Predicate>, row: Row): (v: Verdict)
    ensures v == Holds <==> Satisfies(ps, row)
    ensures v == Throws <==>
              exists i :: 0 <= i < |ps| && Evaluate(ps[i], row) == Throws
                          && forall j :: 0 <= j < i ==> Evaluate(ps[j], row) == Holds
    decreases |ps|
  {
    if ps == [] then Holds
    else
      var head := Evaluate(ps[0], row);
      if head != Holds then
        assert !Satisfies(ps, row);
        head
      else
        var v := EvalAll(ps[1..], row);
        assert Satisfies(ps, row) <==> Satisfies(ps[1..], row) by {
          assert forall i :: 0 < i < |ps| ==> ps[i] == ps[1..][i - 1];
        }
        assert v == Throws ==> exists i :: 0 <= i < |ps| && Evaluate(ps[i], row) == Throws
                                            && forall j :: 0 <= j < i ==> Evaluate(ps[j], row) == Holds by {
          if v == Throws {
            var i :| 0 <= i < |ps[1..]| && Evaluate(ps[1..][i], row) == Throws
                     && forall j :: 0 <= j < i ==> Evaluate(ps[1..][j], row) == Holds;
            assert Evaluate(ps[i + 1], row) == Throws;
            assert forall j :: 0 <= j < i + 1 ==> Evaluate(ps[j], row) == Holds by {
              forall j | 0 <= j < i + 1 ensures Evaluate(ps[j], row) == Holds {
                if j > 0 { assert ps[j] == ps[1..][j - 1]; }
              }
            }
          }
        }
        assert (exists i :: 0 <= i < |ps| && Evaluate(ps[i], row) == Throws
                            && forall j :: 0 <= j < i ==> Evaluate(ps[j], row) == Holds) ==> v == Throws by {
          if exists i :: 0 <= i < |ps| && Evaluate(ps[i], row) == Throws
                         && forall j :: 0 <= j < i ==> Evaluate(ps[j], row) == Holds {
            var i :| 0 <= i < |ps| && Evaluate(ps[i], row) == Throws
                     && forall j :: 0 <= j < i ==> Evaluate(ps[j], row) == Holds;
            assert i > 0;
            assert Evaluate(ps[1..][i - 1], row) == Throws;
            assert forall j :: 0 <= j < i - 1 ==> Evaluate(ps[1..][j], row) == Holds by {
              forall j | 0 <= j < i - 1 ensures Evaluate(ps[1..][j], row) == Holds {
                assert ps[1..][j] == ps[j + 1];
              }
            }
          }
        }
        v
  }

  /** Some row makes the predicates throw: `rows.filter`/`rows.map` over them throws. */
  predicate ThrowsOn(ps: seq<Predicate>, rows: seq<Row>) {
    exists row :: row in rows && EvalAll(ps, row) == Throws
  }

  /** The rows every predicate holds of, in table order. */
  function Selected(ps: seq<Predicate>, rows: seq<Row>): (r: seq<Row>)
    ensures forall row :: row in r <==> row in rows && Satisfies(ps, row)
    ensures forall row :: multiset(r)[row] == if Satisfies(ps, row) then multiset(rows)[row] else 0
    ensures IsSubseq(r, rows)
  {
    FilterIsSubseq(rows, row => EvalAll(ps, row) == Holds);
    FilterCounts(rows, row => EvalAll(ps, row) == Holds);
    Filter(rows, row => EvalAll(ps, row) == Holds)
  }

  /** The first selected row is the first row of the table every predicate holds of. */
  lemma SelectedHead(ps: seq<Predicate>, rows: seq<Row>)
    requires Selected(ps, rows) != []
    ensures exists i :: 0 <= i < |rows| && rows[i] == Selected(ps, rows)[0]
                        && forall j :: 0 <= j < i ==> !Satisfies(ps, rows[j])
  {
    FilterHead(rows, row => EvalAll(ps, row) == Holds);
  }

  /**
   * The table after `update`'s `map`: each row every predicate holds of merged
   * with the payload, the others unchanged; `TypeError` when a row throws,
   * in which case nothing is written.
   */
  function MergeMatching(ps: seq<Predicate>, rows: seq<Row>, payload: Row): (r: Response<seq<Row>>)
    ensures !r.Err?
    ensures r.TypeError? <==> ThrowsOn(ps, rows)
    ensures r.Ok? ==> |r.data| == |rows|
    ensures r.Ok? ==> forall i :: 0 <= i < |rows| && Satisfies(ps, rows[i]) ==> r.data[i] == Merge(rows[i], payload)
    ensures r.Ok? ==> forall i :: 0 <= i < |rows| && !Satisfies(ps, rows[i]) ==> r.data[i] == rows[i]
  {
    if ThrowsOn(ps, rows) then TypeError
    else Ok(MapSeq(rows, row => if EvalAll(ps, row) == Holds then Merge(row, payload) else row))
  }

  /** The rows `delete` keeps: those some predicate does not hold of; `TypeError` when a row throws. */
  function RemoveMatching(ps: seq<Predicate>, rows: seq<Row>): (r: Response<seq<Row>>)
    ensures !r.Err?
    ensures r.TypeError? <==> ThrowsOn(ps, rows)
    ensures r.Ok? ==> forall row :: row in r.data <==> row in rows && !Satisfies(ps, row)
    ensures r.Ok? ==> forall row :: multiset(r.data)[row] == if Satisfies(ps, row) then 0 else multiset(rows)[row]
    ensures r.Ok? ==> IsSubseq(r.data, rows)
    ensures r.Ok? ==> (|r.data| == |rows| <==> forall row :: row in rows ==> !Satisfies(ps, row))
  {
    if ThrowsOn(ps, rows) then TypeError
    else
      FilterIsSubseq(rows, row => EvalAll(ps, row) != Holds);
      FilterCounts(rows, row => EvalAll(ps, row) != Holds);
      FilterKeepsAll(rows, row => EvalAll(ps, row) != Holds);
      Ok(Filter(rows, row => EvalAll(ps, row) != Holds))
  }

  /** What `select` would return and what `delete` keeps split the table between them, copy for copy. */
  lemma SelectAndDeletePartition(ps: seq<Predicate>, rows: seq<Row>)
    requires !ThrowsOn(ps, rows)
    ensures multiset(Selected(ps, rows)) + multiset(RemoveMatching(ps, rows).data) == multiset(rows)
  {
    var a := Selected(ps, rows);
    var b := RemoveMatching(ps, rows).data;
    forall x: Row ensures multiset(a)[x] + multiset(b)[x] == multiset(rows)[x] {
      FilterCount(rows, row => EvalAll(ps, row) == Holds, x);
      FilterCount(rows, row => EvalAll(ps, row) != Holds, x);
    }
    assert multiset(a) + multiset(b) == multiset(rows);
  }

  /** `rows[0]` of a result, with `not_found` for an empty result: how `single` and `update` answer. */
  function FirstOf(r: Response<seq<Row>>): Response<Row> {
    match r
    case Ok(rows) => if rows == [] then Err(NotFound) else Ok(rows[0])
    case Err(m) => Err(m)
    case TypeError => TypeError
  }

  /**
   * What `single` answers, given what `applyFilters` returned: its first row,
   * which is the first row of the table every predicate holds of.
   */
  lemma FirstOfFiltered(ps: seq<Predicate>, limit: Option<int>, rows: seq<Row>, found: Response<seq<Row>>)
    requires !found.Err? && (found.TypeError? <==> ThrowsOn(ps, rows))
    requires found.Ok? ==> found.data <= Selected(ps, rows)
    requires found.Ok? && limit.None? ==> found.data == Selected(ps, rows)
    requires found.Ok? && limit.Some? && limit.value >= 0 ==>
               |found.data| == if limit.value <= |Selected(ps, rows)| then limit.value else |Selected(ps, rows)|
    ensures FirstOf(found).TypeError? <==> ThrowsOn(ps, rows)
    ensures FirstOf(found).Err? ==> FirstOf(found).message == NotFound
    ensures FirstOf(found).Err? <==> found == Ok([])
    ensures FirstOf(found).Ok? ==>
              Satisfies(ps, FirstOf(found).data)
              && exists i :: 0 <= i < |rows| && rows[i] == FirstOf(found).data
                             && forall j :: 0 <= j < i ==> !Satisfies(ps, rows[j])
    ensures !ThrowsOn(ps, rows) && (limit.None? || limit.value > 0) ==>
              (FirstOf(found).Ok? <==> exists row :: row in rows && Satisfies(ps, row))
  {
    var kept := Selected(ps, rows);
    if found.Ok? && found.data != [] {
      assert found.data[0] == kept[0] && kept[0] in kept;
      SelectedHead(ps, rows);
    }
    if !ThrowsOn(ps, rows) && (limit.None? || limit.value > 0) && exists row :: row in rows && Satisfies(ps, row) {
      var row :| row in rows && Satisfies(ps, row);
      assert row in kept;
    }
  }

  /** The payload of `insert`: one row or an array of rows. */
  datatype Payload = OneRow(row: Row) | ManyRows(rows: seq<Row>)

  /** What `insert` returns: the stored row for one row, the stored rows for an array. */
  datatype Inserted = InsertedRow(row: Row) | InsertedRows(rows: seq<Row>)

  function PayloadRows(payload: Payload): (rows: seq<Row>)
    ensures payload.OneRow? ==> rows == [payload.row]
    ensures payload.ManyRows? ==> rows == payload.rows
  {
    match payload
    case OneRow(row) => [row]
    case ManyRows(rows) => rows
  }

  /** `rows.map((r) => ({ id: r.id || fallback, ...r }))`: the same fallback for every row. */
  function WithIds(rows: seq<Row>, fallback: string): (r: seq<Row>)
    ensures |r| == |rows|
    ensures forall i :: 0 <= i < |rows| ==> r[i] == WithDefaultId(rows[i], fallback)
  {
    MapSeq(rows, row => WithDefaultId(row, fallback))
  }

  /** A query on one table of the shared table map. */
  class MockQuery {
    const store: Store
    const table: string
    var filters: seq<Predicate>
    var limitValue: Option<int>

    constructor (store: Store, table: string)
      ensures this.store == store && this.table == table
      ensures filters == [] && limitValue == None
    {
      this.store := store;
      this.table := table;
      filters := [];
      limitValue := None;
    }

    /**
     * `applyFilters`: the rows every accumulated predicate holds of, then cut
     * to `slice(0, limitValue)` when a limit is set; the limit counts
     * matching rows, not table rows.
     */
    function ApplyFilters(rows: seq<Row>): (r: Response<seq<Row>>)
      reads this
      ensures !r.Err?
      ensures r.TypeError? <==> ThrowsOn(filters, rows)
      ensures r.Ok? ==> forall row :: row in r.data ==> row in rows && Satisfies(filters, row)
      ensures r.Ok? ==> IsSubseq(r.data, rows)
      ensures r.Ok? ==> r.data <= Selected(filters, rows)
      ensures r.Ok? && limitValue.None? ==> forall row :: row in rows && Satisfies(filters, row) ==> row in r.data
      ensures r.Ok? && limitValue.None? ==> r.data == Selected(filters, rows)
      ensures r.Ok? && limitValue.Some? && limitValue.value >= 0 ==>
                |r.data| == if limitValue.value <= |Selected(filters, rows)| then limitValue.value
                            else |Selected(filters, rows)|
      ensures r.Ok? && limitValue.Some? && limitValue.value < 0 ==>
                |r.data| == if |Selected(filters, rows)| + limitValue.value >= 0
                            then |Selected(filters, rows)| + limitValue.value else 0
    {
      if ThrowsOn(filters, rows) then TypeError
      else
        var kept := Selected(filters, rows);
        var r := if limitValue.Some? then SliceTo(kept, limitValue.value) else kept;
        PrefixIsSubseq(r, kept);
        SubseqTrans(r, kept, rows);
        Ok(r)
    }

    /** `select`: the filtered rows of the table. */
    method Select() returns (r: Response<seq<Row>>)
      ensures r == ApplyFilters(TableOf(store.tables, table))
    {
      r := ApplyFilters(TableOf(store.tables, table));
    }

    /**
     * `single`: the first filtered row of the table, or `not_found` when the
     * filtered (and limited) result is empty.
     */
    method Single() returns (r: Response<Row>)
      ensures r.TypeError? <==> ThrowsOn(filters, TableOf(store.tables, table))
      ensures r.Err? ==> r.message == NotFound
      ensures r.Err? <==> ApplyFilters(TableOf(store.tables, table)) == Ok([])
      ensures r.Ok? ==> Satisfies(filters, r.data)
                        && exists i :: 0 <= i < |TableOf(store.tables, table)| && TableOf(store.tables, table)[i] == r.data
                                       && forall j :: 0 <= j < i ==> !Satisfies(filters, TableOf(store.tables, table)[j])
      ensures !ThrowsOn(filters, TableOf(store.tables, table)) && (limitValue.None? || limitValue.value > 0) ==>
                (r.Ok? <==> exists row :: row in TableOf(store.tables, table) && Satisfies(filters, row))
    {
      var rows := TableOf(store.tables, table);
      var found := ApplyFilters(rows);
      r := FirstOf(found);
      FirstOfFiltered(filters, limitValue, rows, found);
    }

    /** `eq(field, value)`: adds `row[field] === value`. */
    method Eq(field: string, value: Value) returns (q: MockQuery)
      modifies this
      ensures q == this
      ensures filters == old(filters) + [FieldEquals(field, value)]
      ensures limitValue == old(limitValue)
    {
      filters := filters + [FieldEquals(field, value)];
      q := this;
    }

    /** `in(field, values)`: adds `values.includes(row[field])`. */
    method In(field: string, values: seq<Value>) returns (q: MockQuery)
      modifies this
      ensures q == this
      ensures filters == old(filters) + [FieldIn(field, values)]
      ensures limitValue == old(limitValue)
    {
      filters := filters + [FieldIn(field, values)];
      q := this;
    }

    /** `or(expr)`: adds "some comma-separated term holds". */
    method Or(expr: string) returns (q: MockQuery)
      modifies this
      ensures q == this
      ensures filters == old(filters) + [AnyTerm(OrTerms(expr))]
      ensures limitValue == old(limitValue)
    {
      filters := filters + [AnyTerm(OrTerms(expr))];
      q := this;
    }

    /** `ilike(field, pattern)`: adds "the lower-cased column contains the pattern without `%`". */
    method Ilike(field: string, pattern: string) returns (q: MockQuery)
      modifies this
      ensures q == this
      ensures filters == old(filters) + [FieldLike(field, SearchTerm(pattern))]
      ensures limitValue == old(limitValue)
    {
      filters := filters + [FieldLike(field, SearchTerm(pattern))];
      q := this;
    }

    /** `order(field, { ascending })`: ignored; the query is returned as it is. */
    method Order(field: string, ascending: bool) returns (q: MockQuery)
      ensures q == this
    {
      q := this;
    }

    /** `limit(n)`: sets the limit, replacing any earlier one. */
    method Limit(n: int) returns (q: MockQuery)
      modifies this
      ensures q == this
      ensures limitValue == Some(n)
      ensures filters == old(filters)
    {
      limitValue := Some(n);
      q := this;
    }

    /**
     * `insert(payload)`: appends the payload rows after the existing ones, each
     * with its id defaulted to `` `${table}-${length}` `` (the length before the
     * insert, the same for every row of an array), and returns what it stored.
     */
    method Insert(payload: Payload) returns (r: Response<Inserted>)
      modifies store
      ensures var before := TableOf(old(store.tables), table);
              var added := WithIds(PayloadRows(payload), DefaultId(table, |before|));
              store.tables == old(store.tables)[table := before + added]
              && r == Ok(if payload.OneRow? then InsertedRow(added[0]) else InsertedRows(added))
    {
      var before := TableOf(store.tables, table);
      var added := WithIds(PayloadRows(payload), DefaultId(table, |before|));
      store.tables := store.tables[table := before + added];
      r := Ok(if payload.OneRow? then InsertedRow(added[0]) else InsertedRows(added));
    }

    /**
     * `update(payload)`: merges the payload into every row all predicates hold
     * of, then answers with the first row the predicates (and limit) select
     * from the NEW table, or `not_found`. A throw in the first pass leaves the
     * table as it was; a throw in the second pass comes after the write.
     */
    method Update(payload: Row) returns (r: Response<Row>)
      modifies store
      ensures var merged := MergeMatching(filters, TableOf(old(store.tables), table), payload);
              if merged.TypeError? then store.tables == old(store.tables) && r == TypeError
              else store.tables == old(store.tables)[table := merged.data] && r == FirstOf(ApplyFilters(merged.data))
      ensures r.Ok? ==> Satisfies(filters, r.data) && r.data in store.tables[table]
      ensures r.Err? ==> r.message == NotFound
    {
      var merged := MergeMatching(filters, TableOf(store.tables, table), payload);
      if merged.TypeError? {
        r := TypeError;
      } else {
        store.tables := store.tables[table := merged.data];
        r := FirstOf(ApplyFilters(merged.data));
      }
    }

    /**
     * `delete()`: removes every row all predicates hold of, whatever the
     * limit, and answers `not_found` exactly when none did.
     */
    method Delete() returns (r: Response<()>)
      modifies store
      ensures var kept := RemoveMatching(filters, TableOf(old(store.tables), table));
              if kept.TypeError? then store.tables == old(store.tables) && r == TypeError
              else store.tables == old(store.tables)[table := kept.data]
                   && (r == Err(NotFound) <==> forall row :: row in TableOf(old(store.tables), table) ==> !Satisfies(filters, row))
                   && (r.Ok? || r == Err(NotFound))
    {
      var before := TableOf(store.tables, table);
      var kept := RemoveMatching(filters, before);
      if kept.TypeError? {
        r := TypeError;
      } else {
        store.tables := store.tables[table := kept.data];
        r := if |before| != |kept.data| then Ok(()) else Err(NotFound);
      }
    }
  }

  /** The client: every `from(table)` starts a fresh query on the shared table map. */
  class MockSupabaseClient {
    const store: Store

    constructor (store: Store)
      ensures this.store == store
    {
      this.store := store;
    }

    /** `from(table)`: a new query on `table` with no predicates and no limit. */
    method From(table: string) returns (q: MockQuery)
      ensures fresh(q)
      ensures q.store == store && q.table == table
      ensures q.filters == [] && q.limitValue == None
    {
      q := new MockQuery(store, table);
    }
  }

  /**
   * `buildStore()`: the seed of the record store plus an empty `campanhas`
   * table. `now` stands for `new Date().toISOString()`.
   */
  function BuildStore(now: string): Tables {
    map[
      "campanhas" := [],
      "sistemas" := [map["id" := Str("sys1"), "user_id" := Str(MockDb.BaseUser), "campaign_id" := Str(MockDb.SeedCampaign),
                         "name" := Str("sys"), "description" := Str("desc")]],
      "regras" := [map["id" := Str("rule1"), "user_id" := Str(MockDb.BaseUser), "campaign_id" := Str(MockDb.SeedCampaign),
                       "system_id" := Str("sys1"), "title" := Str("r"), "description" := Str("d")]],
      "locais" := [map["id" := Str("loc1"), "user_id" := Str(MockDb.BaseUser), "campaign_id" := Str(MockDb.SeedCampaign),
                       "name" := Str("Lugunica"), "description" := Str("capital"), "region" := Str("Lugunica"),
                       "tags" := Arr([])]],
      "npcs" := [map["id" := Str("npc1"), "user_id" := Str(MockDb.BaseUser), "campaign_id" := Str(MockDb.SeedCampaign),
                     "name" := Str("Emilia"), "moral_alignment" := Str("good"), "local_id" := Str("loc1")]],
      "jogador" := [map["id" := Str("player1"), "user_id" := Str(MockDb.BaseUser), "campaign_id" := Str(MockDb.SeedCampaign),
                        "name" := Str("Player"), "background" := Str("bg")]],
      "grupos" := [map["id" := Str("group1"), "user_id" := Str(MockDb.BaseUser), "campaign_id" := Str(MockDb.SeedCampaign),
                       "name" := Str("Group"), "description" := Str("d"), "faction" := Str("f")]],
      "habilidades" := [map["id" := Str("skill1"), "user_id" := Str(MockDb.BaseUser), "campaign_id" := Str(MockDb.SeedCampaign),
                            "name" := Str("Skill"), "description" := Str("d"), "power_level" := Num(5)]],
      "eventos_canonicos" := [map["id" := Str("canon1"), "campaign_id" := Str(MockDb.SeedCampaign), "title" := Str("Lore"),
                                  "summary" := Str("s"), "happened_at" := Str(now)]],
      "timeline" := [],
      "arcos" := [map["id" := Str("arc1"), "user_id" := Str(MockDb.BaseUser), "campaign_id" := Str(MockDb.SeedCampaign),
                      "name" := Str("Arc"), "status" := Str("active")]],
      "eventos_atuais" := [map["id" := Str("now1"), "user_id" := Str(MockDb.BaseUser), "campaign_id" := Str(MockDb.SeedCampaign),
                               "title" := Str("Now"), "state" := Str("ongoing"), "severity" := Str("low"),
                               "arc_id" := Str("arc1")]],
      "npc_relationships" := [map["id" := Str("rel1"), "campaign_id" := Str(MockDb.SeedCampaign), "user_id" := Str(MockDb.BaseUser),
                                  "npc_id_a" := Str("npc1"), "npc_id_b" := Str("npc1"), "relation_type" := Str("ally"),
                                  "intensity" := Num(1), "notes" := Str("")]],
      "memories" := [map["id" := Str("mem1"), "campaign_id" := Str(MockDb.SeedCampaign), "user_id" := Str(MockDb.BaseUser),
                         "entity_type" := Str("npc"), "entity_id" := Str("npc1"), "kind" := Str("dialogue"),
                         "text" := Str("hi"), "happened_at" := Str(now), "visibility_scope" := Str("public")]]
    ]
  }

  /** The two test stores are seeded alike: the query mock's adds only the empty `campanhas` table. */
  lemma BuildStoreExtendsDefault(now: string)
    ensures BuildStore(now) == MockDb.DefaultStore(now)["campanhas" := []]
  {
  }

  /**
   * A fully qualified `or` term `table.field.eq.value` (no `.` inside the
   * pieces, and a field other than `eq`) compares `row[field]` with `value`.
   */
  lemma OrTermQualified(t: string, f: string, v: string)
    requires '.' !in t && '.' !in f && '.' !in v && f != "eq"
    ensures OrTermField(t + "." + f + ".eq." + v) == f
    ensures OrTermValue(t + "." + f + ".eq." + v) == Str(v)
  {
    var lhs := t + "." + f;
    var term := lhs + ".eq." + v;
    assert t + "." + f + ".eq." + v == term;
    assert OccursAt(term, ".eq.", |lhs|) by {
      assert term[|lhs|..|lhs| + 4] == ".eq.";
    }
    forall j | 0 <= j < |lhs| ensures !OccursAt(term, ".eq.", j) {
      NoEqBefore(t, f, v, j);
    }
    SplitAtFirst(term, ".eq.", |lhs|);
    assert term[..|lhs|] == lhs;
    assert term[|lhs| + 4..] == v;
    NoDotNoOccurrence(v, ".eq.");
    SplitWithout(v, ".eq.");
    assert Split(term, ".eq.") == [lhs, v];
    assert OccursAt(lhs, ".", |t|) by {
      assert lhs[|t|..|t| + 1] == ".";
    }
    forall j | 0 <= j < |t| ensures !OccursAt(lhs, ".", j) {
      assert lhs[j] == t[j];
    }
    SplitAtFirst(lhs, ".", |t|);
    assert lhs[..|t|] == t;
    assert lhs[|t| + 1..] == f;
    NoDotNoOccurrence(f, ".");
    SplitWithout(f, ".");
    assert Split(lhs, ".") == [t, f];
  }

  /**
   * What `split('.eq.')` is not fooled by: inside `table.field` no `.eq.`
   * starts, because the only `.` is the separator and `field` is not `eq`.
   */
  lemma NoEqBefore(t: string, f: string, v: string, j: nat)
    requires '.' !in t && '.' !in f && f != "eq"
    requires j < |t| + 1 + |f|
    ensures !OccursAt(t + "." + f + ".eq." + v, ".eq.", j)
  {
    var head := t + "." + f;
    var term := head + ".eq." + v;
    assert term == t + "." + f + ".eq." + v;
    assert |head| == |t| + 1 + |f|;
    assert forall k :: 0 <= k < |head| ==> term[k] == head[k];
    assert term[|head|] == '.';
    if j + 4 <= |term| {
      var w := term[j..j + 4];
      assert w[0] == term[j];
      if j < |t| {
        assert term[j] == head[j] == t[j];
      } else if j > |t| {
        assert term[j] == head[j] == f[j - |t| - 1];
      } else if |f| == 0 {
        assert w[1] == term[|head|];
      } else if |f| == 1 {
        assert w[2] == term[|head|];
      } else if |f| == 2 {
        assert w[1] == head[|t| + 1] == f[0];
        assert w[2] == head[|t| + 2] == f[1];
        assert f == [f[0], f[1]];
      } else {
        assert w[3] == head[|t| + 3] == f[2];
      }
    }
  }

  /** A separator that starts with `.` never occurs in a string without `.`. */
  lemma NoDotNoOccurrence(s: string, sep: string)
    requires '.' !in s && |sep| > 0 && sep[0] == '.'
    ensures forall j :: !OccursAt(s, sep, j)
  {
    forall j | 0 <= j && j + |sep| <= |s| ensures !OccursAt(s, sep, j) {
      assert s[j..j + |sep|][0] == s[j];
    }
  }

  /**
   * As written, a term without a table prefix, `field.eq.value`, does not read
   * `field`: `lhs.split('.')[1]` is `undefined`, so the key looked up is
   * `"undefined"`.
   */
  lemma OrTermUnqualified(f: string, v: string)
    requires '.' !in f && '.' !in v
    ensures OrTermField(f + ".eq." + v) == "undefined"
    ensures OrTermValue(f + ".eq." + v) == Str(v)
  {
    var term := f + ".eq." + v;
    assert OccursAt(term, ".eq.", |f|) by {
      assert term[|f|..|f| + 4] == ".eq.";
    }
    forall j | 0 <= j < |f| ensures !OccursAt(term, ".eq.", j) {
      if j + 4 <= |term| {
        assert term[j..j + 4][0] == f[j];
      }
    }
    SplitAtFirst(term, ".eq.", |f|);
    assert term[..|f|] == f;
    assert term[|f| + 4..] == v;
    NoDotNoOccurrence(v, ".eq.");
    SplitWithout(v, ".eq.");
    NoDotNoOccurrence(f, ".");
    SplitWithout(f, ".");
  }

  /** An `ilike` whose pattern is only wildcards holds of every row it does not throw on. */
  lemma WildcardLikeHoldsEverywhere(field: string, pattern: string, row: Row)
    requires WithoutPercent(pattern) == ""
    requires Evaluate(FieldLike(field, SearchTerm(pattern)), row) != Throws
    ensures Evaluate(FieldLike(field, SearchTerm(pattern)), row) == Holds
  {
    assert SearchTerm(pattern) == "";
    assert forall s: string :: OccursAt(s, "", 0);
  }

  /**
   * As written, `update` can write a row and still answer `not_found`: the
   * answer re-runs the predicates on the new table, and a payload that
   * changes a filtered column makes the merged row fail them.
   */
  lemma UpdateCanMissItsOwnRow()
    ensures var ps := [FieldEquals("id", Str("a"))];
            var rows := [map["id" := Str("a")]];
            var merged := MergeMatching(ps, rows, map["id" := Str("b")]);
            merged == Ok([map["id" := Str("b")]]) && Selected(ps, merged.data) == []
  {
    var ps := [FieldEquals("id", Str("a"))];
    var rows: seq<Row> := [map["id" := Str("a")]];
    var row := rows[0];
    assert EvalAll(ps, row) == Holds by {
      assert Satisfies(ps, row);
    }
    assert !ThrowsOn(ps, rows);
    var merged := MergeMatching(ps, rows, map["id" := Str("b")]);
    assert merged.Ok? && |merged.data| == 1;
    assert merged.data[0] == Merge(row, map["id" := Str("b")]) == map["id" := Str("b")];
    assert merged.data == [map["id" := Str("b")]];
    var m: Row := map["id" := Str("b")];
    assert !Satisfies(ps, m) by {
      assert Evaluate(ps[0], m) == Fails;
    }
  }

  /** A batch insert without ids gives every row the same default id. */
  lemma BatchInsertRepeatsId(rows: seq<Row>, fallback: string, i: nat, j: nat)
    requires i < |rows| && j < |rows| && "id" !in rows[i] && "id" !in rows[j]
    ensures WithIds(rows, fallback)[i]["id"] == WithIds(rows, fallback)[j]["id"] == Str(fallback)
  {
  }
}
