/**
 * The in-memory record store that stands in for the database in the HTTP
 * tests: equality / membership filtering, listing with a limit, first-match
 * lookup, case-insensitive substring search, and the table mutations
 * insert, update-by-id, delete-by-id and reset to the seeded contents.
 *
 * The module-level mutable `store` of the source is a `Store` object passed
 * to the mutating methods; the reading operations are functions of its
 * table map.
 */
module MockDb {
  import opened Wrappers
  import opened Seqs
  import opened Text
  import opened Rows

  const BaseUser: string := "test-user"
  const SeedCampaign: string := "camp-1"

  /** `ilikeRows` returns at most this many rows unless told otherwise. */
  const DefaultSearchLimit: int := 10

  /** A filter object: column name to the required value; an array value means "one of these". */
  type Filters = map<string, Value>

  /** One filter entry holds of a row: membership for an array value, `===` otherwise. */
  predicate EntryHolds(row: Row, key: string, value: Value) {
    if value.Arr? then Includes(value.items, Get(row, key)) else StrictEquals(Get(row, key), value)
  }

  /** A row satisfies every entry of the filter object. */
  predicate Matches(row: Row, filters: Filters) {
    forall key :: key in filters ==> EntryHolds(row, key, filters[key])
  }

  /** `applyFilters`: the rows satisfying every filter entry, every copy of each, in table order. */
  function ApplyFilters(rows: seq<Row>, filters: Filters): (r: seq<Row>)
    ensures forall row :: row in r <==> row in rows && Matches(row, filters)
    ensures forall row :: multiset(r)[row] == if Matches(row, filters) then multiset(rows)[row] else 0
    ensures IsSubseq(r, rows)
  {
    FilterIsSubseq(rows, row => Matches(row, filters));
    FilterCounts(rows, row => Matches(row, filters));
    Filter(rows, row => Matches(row, filters))
  }

  /**
   * `listRows`: the filtered rows of a table, cut to `slice(0, limit)` when
   * the limit is truthy; an absent or zero limit returns all of them.
   */
  function ListRows(tables: Tables, table: string, filters: Filters, limit: Option<int>): (r: seq<Row>)
    ensures r <= ApplyFilters(TableOf(tables, table), filters)
    ensures forall row :: row in r ==> row in TableOf(tables, table) && Matches(row, filters)
    ensures limit.None? || limit == Some(0) ==> r == ApplyFilters(TableOf(tables, table), filters)
    ensures limit.Some? && limit.value > 0 ==>
              |r| == if limit.value <= |ApplyFilters(TableOf(tables, table), filters)| then limit.value
                     else |ApplyFilters(TableOf(tables, table), filters)|
    ensures limit.Some? && limit.value < 0 ==>
              |r| == if |ApplyFilters(TableOf(tables, table), filters)| + limit.value >= 0
                     then |ApplyFilters(TableOf(tables, table), filters)| + limit.value else 0
  {
    var rows := ApplyFilters(TableOf(tables, table), filters);
    if limit.Some? && limit.value != 0 then SliceTo(rows, limit.value) else rows
  }

  /** The returned rows of `listRows` keep the table's order. */
  lemma ListRowsKeepsOrder(tables: Tables, table: string, filters: Filters, limit: Option<int>)
    ensures IsSubseq(ListRows(tables, table, filters, limit), TableOf(tables, table))
  {
    var all := ApplyFilters(TableOf(tables, table), filters);
    var r := ListRows(tables, table, filters, limit);
    PrefixIsSubseq(r, all);
    SubseqTrans(r, all, TableOf(tables, table));
  }

  /** `getRow`: the first row of the table satisfying the filters, or `undefined`. */
  function GetRow(tables: Tables, table: string, filters: Filters): (r: Option<Row>)
    ensures r.None? <==> forall row :: row in TableOf(tables, table) ==> !Matches(row, filters)
    ensures r.Some? ==> exists i :: 0 <= i < |TableOf(tables, table)| && TableOf(tables, table)[i] == r.value
                          && Matches(r.value, filters)
                          && forall j :: 0 <= j < i ==> !Matches(TableOf(tables, table)[j], filters)
  {
    var rows := ListRows(tables, table, filters, Some(1));
    if rows == [] then None
    else
      FilterHead(TableOf(tables, table), row => Matches(row, filters));
      Some(rows[0])
  }

  /** The row's column, as text and lower-cased, contains `search`. */
  predicate ColumnContains(row: Row, column: string, search: string) {
    Contains(Lower(TextOf(Get(row, column))), search)
  }

  /**
   * `ilikeRows`: filtered rows whose column contains the pattern (with `%`
   * removed) regardless of letter case, cut to `slice(0, limit)`, the limit
   * defaulting to ten.
   */
  function IlikeRows(tables: Tables, table: string, filters: Filters, column: string, pattern: string,
                     limit: Option<int>): (r: seq<Row>)
    ensures forall row :: row in r ==>
              row in TableOf(tables, table) && Matches(row, filters) && ColumnContains(row, column, SearchTerm(pattern))
    ensures var hits := Filter(ApplyFilters(TableOf(tables, table), filters),
                               row => ColumnContains(row, column, SearchTerm(pattern)));
            r <= hits && |r| == SliceEnd(|hits|, limit.GetOr(DefaultSearchLimit))
    ensures IsSubseq(r, TableOf(tables, table))
    ensures limit.GetOr(DefaultSearchLimit) >= 0 ==> |r| <= limit.GetOr(DefaultSearchLimit)
    ensures limit == Some(0) ==> r == []
  {
    var rows := ListRows(tables, table, filters, None);
    var search := SearchTerm(pattern);
    var found := Filter(rows, row => ColumnContains(row, column, search));
    var r := SliceTo(found, limit.GetOr(DefaultSearchLimit));
    FilterIsSubseq(rows, row => ColumnContains(row, column, search));
    PrefixIsSubseq(r, found);
    SubseqTrans(r, found, rows);
    SubseqTrans(r, rows, TableOf(tables, table));
    r
  }

  /** The search ignores the letter case of the pattern. */
  lemma IlikeIgnoresPatternCase(tables: Tables, table: string, filters: Filters, column: string, pattern: string,
                                limit: Option<int>)
    ensures IlikeRows(tables, table, filters, column, Lower(pattern), limit)
         == IlikeRows(tables, table, filters, column, pattern, limit)
  {
    LowerWithoutPercent(pattern);
    LowerIdempotent(WithoutPercent(pattern));
    assert SearchTerm(Lower(pattern)) == SearchTerm(pattern);
  }

  /** Wrapping the query in `%…%`, as the memory search route does, searches for the query itself. */
  lemma IlikeWildcardsAreIgnored(tables: Tables, table: string, filters: Filters, column: string, query: string,
                                 limit: Option<int>)
    ensures IlikeRows(tables, table, filters, column, "%" + query + "%", limit)
         == IlikeRows(tables, table, filters, column, query, limit)
  {
    FilterConcat("%" + query, "%", c => c != '%');
    FilterConcat("%", query, c => c != '%');
    assert WithoutPercent("%") == "";
    assert WithoutPercent("%" + query + "%") == WithoutPercent(query);
    assert SearchTerm("%" + query + "%") == SearchTerm(query);
  }

  /** `row.id === id`. */
  predicate HasId(row: Row, id: string) {
    StrictEquals(Get(row, "id"), Str(id))
  }

  /** The id `insertRow` gives a row without one in a table of `count` rows. */
  function InsertId(table: string, count: nat): string {
    DefaultId(table, count + 1)
  }

  /**
   * `insertRow`: appends one row, the payload with its id defaulted to
   * `` `${table}-${length + 1}` ``, and returns it. The table is created if absent.
   */
  method InsertRow(db: Store, table: string, payload: Row) returns (row: Row)
    modifies db
    ensures row == WithDefaultId(payload, InsertId(table, |TableOf(old(db.tables), table)|))
    ensures db.tables == old(db.tables)[table := TableOf(old(db.tables), table) + [row]]
  {
    var rows := TableOf(db.tables, table);
    row := WithDefaultId(payload, InsertId(table, |rows|));
    db.tables := db.tables[table := rows + [row]];
  }

  /** The table after `updateRow`: every row carrying the id merged with the payload, the rest as they were. */
  ghost function MergeById(rows: seq<Row>, id: string, payload: Row): (r: seq<Row>)
    ensures |r| == |rows|
    ensures forall i :: 0 <= i < |rows| && HasId(rows[i], id) ==> r[i] == Merge(rows[i], payload)
    ensures forall i :: 0 <= i < |rows| && !HasId(rows[i], id) ==> r[i] == rows[i]
  {
    MapSeq(rows, row => if HasId(row, id) then Merge(row, payload) else row)
  }

  /**
   * What `updateRow` returns: the merged form of the LAST row carrying the id
   * (each match overwrites the captured variable), or `undefined` if none does.
   */
  ghost function LastMerged(rows: seq<Row>, id: string, payload: Row): (r: Option<Row>)
    ensures r.None? <==> forall i :: 0 <= i < |rows| ==> !HasId(rows[i], id)
    ensures r.Some? ==> exists i :: 0 <= i < |rows| && HasId(rows[i], id) && r.value == Merge(rows[i], payload)
                          && forall j :: i < j < |rows| ==> !HasId(rows[j], id)
    decreases |rows|
  {
    if rows == [] then None
    else
      var last := rows[|rows| - 1];
      if HasId(last, id) then Some(Merge(last, payload))
      else
        var init := rows[..|rows| - 1];
        var r := LastMerged(init, id, payload);
        assert forall i :: 0 <= i < |init| ==> init[i] == rows[i];
        match r
        case None => r
        case Some(v) =>
          var i :| 0 <= i < |init| && HasId(init[i], id) && v == Merge(init[i], payload)
                   && forall j :: i < j < |init| ==> !HasId(init[j], id);
          assert forall j :: i < j < |rows| ==> !HasId(rows[j], id) by {
            forall j | i < j < |rows| ensures !HasId(rows[j], id) {
              if j < |init| { assert rows[j] == init[j]; }
            }
          }
          r
  }

  /** Mapping one more row appends its image. */
  lemma MergeByIdSnoc(rows: seq<Row>, row: Row, id: string, payload: Row)
    ensures MergeById(rows + [row], id, payload)
         == MergeById(rows, id, payload) + [if HasId(row, id) then Merge(row, payload) else row]
  {
    var a, b := MergeById(rows + [row], id, payload), MergeById(rows, id, payload);
    forall k | 0 <= k < |rows| ensures a[k] == b[k] {
      assert (rows + [row])[k] == rows[k];
    }
    assert (rows + [row])[|rows|] == row;
  }

  /** One more row: its merge if it carries the id, else what the rows before gave. */
  lemma LastMergedSnoc(rows: seq<Row>, row: Row, id: string, payload: Row)
    ensures LastMerged(rows + [row], id, payload)
         == if HasId(row, id) then Some(Merge(row, payload)) else LastMerged(rows, id, payload)
  {
    assert (rows + [row])[..|rows|] == rows;
  }

  /** The row `updateRow` returns is one of the rows it wrote. */
  lemma UpdatedRowIsStored(rows: seq<Row>, id: string, payload: Row)
    requires LastMerged(rows, id, payload).Some?
    ensures LastMerged(rows, id, payload).value in MergeById(rows, id, payload)
  {
    var i :| 0 <= i < |rows| && HasId(rows[i], id) && LastMerged(rows, id, payload).value == Merge(rows[i], payload)
             && forall j :: i < j < |rows| ==> !HasId(rows[j], id);
    assert MergeById(rows, id, payload)[i] == Merge(rows[i], payload);
  }

  /**
   * The `rows.map` of `updateRow`: each row carrying `id` merged with the
   * payload, and the captured `updated` overwritten by each merge.
   */
  method MergeRows(rows: seq<Row>, id: string, payload: Row) returns (mapped: seq<Row>, updated: Option<Row>)
    ensures mapped == MergeById(rows, id, payload)
    ensures updated == LastMerged(rows, id, payload)
  {
    mapped := [];
    updated := None;
    var i := 0;
    while i < |rows|
      invariant 0 <= i <= |rows|
      invariant mapped == MergeById(rows[..i], id, payload)
      invariant updated == LastMerged(rows[..i], id, payload)
    {
      var row := rows[i];
      var next: Row;
      if HasId(row, id) {
        updated := Some(Merge(row, payload));
        next := Merge(row, payload);
      } else {
        next := row;
      }
      PrefixSnoc(rows, i);
      MergeByIdSnoc(rows[..i], row, id, payload);
      LastMergedSnoc(rows[..i], row, id, payload);
      mapped := mapped + [next];
      i := i + 1;
    }
    assert rows[..|rows|] == rows;
  }

  /**
   * `updateRow`: rewrites the table with every row carrying `id` merged with
   * the payload and returns the last merged row. The table is created (empty)
   * if absent.
   */
  method UpdateRow(db: Store, table: string, id: string, payload: Row) returns (updated: Option<Row>)
    modifies db
    ensures db.tables == old(db.tables)[table := MergeById(TableOf(old(db.tables), table), id, payload)]
    ensures updated == LastMerged(TableOf(old(db.tables), table), id, payload)
  {
    var mapped;
    mapped, updated := MergeRows(TableOf(db.tables, table), id, payload);
    db.tables := db.tables[table := mapped];
  }

  /** The table after `deleteRow`: the rows not carrying the id, every copy of each, in their order. */
  function WithoutId(rows: seq<Row>, id: string): (r: seq<Row>)
    ensures forall row :: row in r <==> row in rows && !HasId(row, id)
    ensures forall row :: multiset(r)[row] == if HasId(row, id) then 0 else multiset(rows)[row]
    ensures IsSubseq(r, rows)
  {
    FilterIsSubseq(rows, row => !HasId(row, id));
    FilterCounts(rows, row => !HasId(row, id));
    Filter(rows, row => !HasId(row, id))
  }

  /**
   * `deleteRow`: removes every row carrying `id` and reports whether the
   * table got shorter, that is, whether any row carried it.
   */
  method DeleteRow(db: Store, table: string, id: string) returns (deleted: bool)
    modifies db
    ensures db.tables == old(db.tables)[table := WithoutId(TableOf(old(db.tables), table), id)]
    ensures deleted <==> exists row :: row in TableOf(old(db.tables), table) && HasId(row, id)
  {
    var before := TableOf(db.tables, table);
    var remaining := WithoutId(before, id);
    db.tables := db.tables[table := remaining];
    FilterKeepsAll(before, row => !HasId(row, id));
    deleted := |before| != |remaining|;
  }

  /** The tables of the seeded store, in the order the source lists them. */
  const DefaultTableNames: seq<string> :=
    ["sistemas", "regras", "locais", "npcs", "jogador", "grupos", "habilidades", "eventos_canonicos",
     "timeline", "arcos", "eventos_atuais", "npc_relationships", "memories"]

  /**
   * `defaultStore()`: one seeded row per table (none in `timeline`). `now`
   * stands for `new Date().toISOString()`.
   */
  function DefaultStore(now: string): (t: Tables)
    ensures t.Keys == set name | name in DefaultTableNames
  {
    map[
      "sistemas" := [map["id" := Str("sys1"), "user_id" := Str(BaseUser), "campaign_id" := Str(SeedCampaign),
                         "name" := Str("sys"), "description" := Str("desc")]],
      "regras" := [map["id" := Str("rule1"), "user_id" := Str(BaseUser), "campaign_id" := Str(SeedCampaign),
                       "system_id" := Str("sys1"), "title" := Str("r"), "description" := Str("d")]],
      "locais" := [map["id" := Str("loc1"), "user_id" := Str(BaseUser), "campaign_id" := Str(SeedCampaign),
                       "name" := Str("Lugunica"), "description" := Str("capital"), "region" := Str("Lugunica"),
                       "tags" := Arr([])]],
      "npcs" := [map["id" := Str("npc1"), "user_id" := Str(BaseUser), "campaign_id" := Str(SeedCampaign),
                     "name" := Str("Emilia"), "moral_alignment" := Str("good"), "local_id" := Str("loc1")]],
      "jogador" := [map["id" := Str("player1"), "user_id" := Str(BaseUser), "campaign_id" := Str(SeedCampaign),
                        "name" := Str("Player"), "background" := Str("bg")]],
      "grupos" := [map["id" := Str("group1"), "user_id" := Str(BaseUser), "campaign_id" := Str(SeedCampaign),
                       "name" := Str("Group"), "description" := Str("d"), "faction" := Str("f")]],
      "habilidades" := [map["id" := Str("skill1"), "user_id" := Str(BaseUser), "campaign_id" := Str(SeedCampaign),
                            "name" := Str("Skill"), "description" := Str("d"), "power_level" := Num(5)]],
      "eventos_canonicos" := [map["id" := Str("canon1"), "campaign_id" := Str(SeedCampaign), "title" := Str("Lore"),
                                  "summary" := Str("s"), "happened_at" := Str(now)]],
      "timeline" := [],
      "arcos" := [map["id" := Str("arc1"), "user_id" := Str(BaseUser), "campaign_id" := Str(SeedCampaign),
                      "name" := Str("Arc"), "status" := Str("active")]],
      "eventos_atuais" := [map["id" := Str("now1"), "user_id" := Str(BaseUser), "campaign_id" := Str(SeedCampaign),
                               "title" := Str("Now"), "state" := Str("ongoing"), "severity" := Str("low"),
                               "arc_id" := Str("arc1")]],
      "npc_relationships" := [map["id" := Str("rel1"), "campaign_id" := Str(SeedCampaign), "user_id" := Str(BaseUser),
                                  "npc_id_a" := Str("npc1"), "npc_id_b" := Str("npc1"), "relation_type" := Str("ally"),
                                  "intensity" := Num(1), "notes" := Str("")]],
      "memories" := [map["id" := Str("mem1"), "campaign_id" := Str(SeedCampaign), "user_id" := Str(BaseUser),
                         "entity_type" := Str("npc"), "entity_id" := Str("npc1"), "kind" := Str("dialogue"),
                         "text" := Str("hi"), "happened_at" := Str(now), "visibility_scope" := Str("public")]]
    ]
  }

  /**
   * `resetStore`: puts every seeded table back to its seeded contents; tables
   * the seed does not name are left as they are.
   */
  method ResetStore(db: Store, now: string)
    modifies db
    ensures db.tables == old(db.tables) + DefaultStore(now)
  {
    OverwriteTables(db, DefaultStore(now), DefaultTableNames);
  }

  /** The `forEach` of `resetStore`: `store[key] = fresh[key]` for each listed key of the fresh seed. */
  method OverwriteTables(db: Store, seed: Tables, names: seq<string>)
    modifies db
    requires seed.Keys == set k | k in names
    ensures db.tables == old(db.tables) + seed
  {
    var i := 0;
    while i < |names|
      invariant 0 <= i <= |names|
      invariant forall k :: k in names[..i] ==> k in db.tables && db.tables[k] == seed[k]
      invariant forall k :: k !in names[..i] ==> (k in db.tables <==> k in old(db.tables))
      invariant forall k :: k !in names[..i] && k in old(db.tables) ==> db.tables[k] == old(db.tables)[k]
    {
      PrefixSnoc(names, i);
      db.tables := db.tables[names[i] := seed[names[i]]];
      i := i + 1;
    }
    assert names[..|names|] == names;
    var want := old(db.tables) + seed;
    assert db.tables.Keys == want.Keys;
    assert forall k :: k in want ==> db.tables[k] == want[k];
  }
}
