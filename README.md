# Context assembly and the test record stores of a tabletop-campaign API

This project models three parts of a campaign-management HTTP API:

- **The context handlers** (`POST /context/npc`, `POST /context/player`) build a read-only bundle for an NPC or a player.
  - They look up the entity by id and campaign, and answer not-found when it is absent.
  - They fetch its memories: twenty at most, cut *before* anything else is done.
  - They keep the memories the viewer may see and sort them newest first.
  - For an NPC they add the edges at that NPC. For a player they add the arcs the request names.
  - They add the current events in arc scope. With arc ids, that means the events of those arcs. Without, it means only the events outside every arc. NPC events are fetched fifty at most.
  - For an NPC they also copy six voice fields.
- **The in-memory record store** that replaces the database module in the HTTP tests. It supports:
  - equality / membership filtering;
  - listing with a truthy limit, and first-match look-up;
  - insert with a default id, update-by-id as a merge, delete-by-id;
  - case-insensitive substring search;
  - reset to the seeded contents.
- **The query-builder mock.** Each query holds a list of accumulated predicates (`eq`, `in`, a parsed `or`, `ilike`) and a limit. It runs them in `select` / `single` / `update` / `delete` on a shared table map.

Layout, one module per file:

- `wrappers.dfy` (`Option`);
- `seqs.dfy`: order-preserving filter, prefix and subsequence facts;
- `text.dfy`: the JavaScript string operations used (`indexOf`, `split`, `trim`, `toLowerCase`, `replace(/%/g, '')`, number formatting);
- `rows.dfy`: JavaScript values, rows, `===`, truthiness, the `{ id: … || d, ...payload }` and `{ ...row, ...payload }` object builders, and the shared `Store` object;
- `mock_db.dfy`: the record store;
- `mock_supabase.dfy`: the query builder;
- `records.dfy`: typed records and their vocabularies;
- `context.dfy`: the handlers, over typed tables;
- `context_store.dfy`: what connects the typed handlers to the record store.
  - How each typed record is stored as a row.
  - That every store call the handlers make returns exactly the stored form of the typed fetch.
  - That each JavaScript filter the handlers apply to fetched rows agrees with its typed form.
  - The seeded test scenarios.

The mutating record-store operations are methods on a `Store` object; its `tables` field is the module-level mutable map of the source. `MockQuery` is a class: its predicate list and limit are fields its builder methods update, and its writes replace one table of the shared `Store`. The handlers are pure functions over the tables passed in.

Behaviour modelled as written:

- A term of an `or` expression without a `.` before `.eq.` reads the row key `"undefined"` (`OrTermUnqualified`).
- `update` answers with the first row the predicates select from the table *after* the write. A payload that changes a filtered column makes the answer `not_found` even though the row was written (`UpdateCanMissItsOwnRow`).
- A batch `insert` gives every row without an id the same default id (`BatchInsertRepeatsId`).
- The two mocks number default ids differently. The record store uses the table length plus one (`InsertId`). The query builder uses the length before the insert (`DefaultId(table, |before|)`).
- An `ilike` predicate on a truthy non-string column throws a `TypeError` (`Evaluate`, modelled as the `TypeError` response). `every` stops at the first predicate that does not hold, so a failing predicate before it hides the throw (`EvalAll`).

## Model

| member | source | states |
|---|---|---|
| Context.ScopeGate | src/routes/context.ts:20-21 | game-master memories reach no viewer; public ones reach both; npc-only only the NPC; player-only only the player |
| Context.FetchMemories | src/routes/context.ts:15-19 | the fetch is a prefix of the entity's memories in store order, of length exactly min(20, their number), every one of the entity in the campaign |
| Context.VisibleTo | src/routes/context.ts:20-21 | exactly the memories whose scope the viewer may see, every stored copy of each, in order |
| Context.SortByRecency | src/routes/context.ts:22 | the result is non-increasing in `happened_at` and a permutation of the input |
| Context.SortIsStable | src/routes/context.ts:22 | the sort is stable: the memories of any one instant keep their relative order |
| Context.RetrieveMemories | src/routes/context.ts:15-22 | at most twenty, all of the entity and of an allowed scope, newest first, a permutation of the visible part of the first twenty fetched, ties in fetch order |
| Context.RetrievedScopes | src/routes/context.ts:20-21 | retrieved memories are public or of the viewer's own scope |
| Context.NpcRelationships | src/routes/context.ts:24-25 | exactly the campaign's edges with either endpoint the NPC, in store order |
| Context.RelationshipCopies | src/routes/context.ts:24-25 | an edge appears as many times as it is stored, so a self-edge appears once |
| Context.ScopeEvents | src/routes/context.ts:28-30 | with non-empty arc ids, exactly the events whose arc id is one of them; otherwise exactly those without an arc id; every copy of an in-scope event kept; store order kept |
| Context.FetchEvents | src/routes/context.ts:27 | a prefix of the campaign's events: exactly the first min(`limit`, their number) when there is a limit, all when not |
| Context.CampaignEvents | src/routes/context.ts:27-30 | the fetched events in arc scope, each as often as it was fetched, in the fetch's order (a subsequence of the fetch); all the campaign's events in scope without a limit |
| Context.UnlimitedEventCopies | src/routes/context.ts:71-74 | without a limit, the events section holds every stored copy of each campaign event in arc scope, and no other event |
| Context.SelectArcs | src/routes/context.ts:68-69 | no arc without arc ids; otherwise exactly the campaign's arcs whose id is named, in store order, unknown ids dropped |
| Context.LookupNpc | src/routes/context.ts:12-13 | none iff no NPC has the id in the campaign; otherwise the first such NPC in store order |
| Context.LookupPlayer | src/routes/context.ts:56-57 | none iff no player has the id in the campaign; otherwise the first such player in store order |
| Context.BuildNpcContext | src/routes/context.ts:12-44 | not-found iff no NPC matches id and campaign; otherwise the bundle's NPC is the first stored match (the look-up's answer) and all six voice fields equal the NPC's |
| Context.NpcBundleMemories | src/routes/context.ts:15-22 | NPC bundle memories are public or npc-only, of this NPC in this campaign, at most twenty, newest first, a permutation of the visible part of the first twenty fetched |
| Context.NpcMemoriesSection | src/routes/context.ts:32-34 | the bundle's memories are exactly the retrieved, gated and sorted memories |
| Context.NpcBundleRelationships | src/routes/context.ts:24-25 | NPC bundle relationships are exactly the campaign's edges at the NPC, in store order |
| Context.NpcBundleEvents | src/routes/context.ts:27-30 | NPC bundle events are exactly the in-scope events among the first fifty campaign events, each as often as fetched, in the order of that fetch |
| Context.NpcEventsSection | src/routes/context.ts:27-36 | the bundle's events are the campaign events fetched with the limit of fifty, in arc scope |
| Context.BuildPlayerContext | src/routes/context.ts:56-81 | not-found iff no player matches id and campaign; otherwise the bundle's player is the first stored match (the look-up's answer) |
| Context.PlayerBundleMemories | src/routes/context.ts:59-66 | player bundle memories are public or player-only, of this player, at most twenty, newest first, a permutation of the visible part of the first twenty fetched |
| Context.PlayerMemoriesSection | src/routes/context.ts:76-78 | the bundle's memories are exactly the retrieved, gated and sorted memories |
| Context.PlayerBundleArcs | src/routes/context.ts:68-69 | player bundle arcs are empty without arc ids, else exactly the campaign's named arcs, every stored copy, in store order |
| Context.PlayerArcsSection | src/routes/context.ts:68-79 | the bundle's arcs are the selected arcs |
| Context.PlayerBundleEvents | src/routes/context.ts:71-74 | player bundle events are exactly the campaign's events in arc scope (no limit), every stored copy, in store order |
| Context.PlayerEventsSection | src/routes/context.ts:71-80 | the bundle's events are the campaign events fetched without a limit, in arc scope |
| Records.NamesAreDistinct | src/utils/validators.ts:82-103 | each vocabulary (scope, entity type, memory kind, arc status, severity) is stored under pairwise distinct spellings |
| ContextStore.MemoryFilterAgrees | src/routes/context.ts:15-19 | a stored memory matches the filter `{ campaign_id, entity_type, entity_id }` iff it belongs to that entity |
| ContextStore.MemoryFetchOnStore | src/routes/context.ts:15-19 | `listRows('memories', …, { limit: 20 })` returns the stored form of the typed fetch |
| ContextStore.VisibilityAgrees | src/routes/context.ts:21 | `['public', 'npc_only'].includes(visibility_scope)` (resp. player-only) on a stored memory is the typed scope gate |
| ContextStore.NpcLookupOnStore | src/routes/context.ts:12-13 | `getRow('npcs', { id, campaign_id })` is the stored form of the typed NPC look-up, undefined when not found |
| ContextStore.PlayerLookupOnStore | src/routes/context.ts:56-57 | `getRow('jogador', { id, campaign_id })` is the stored form of the typed player look-up |
| ContextStore.RelationshipFetchOnStore | src/routes/context.ts:24 | `listRows('npc_relationships', { campaign_id })` returns the stored form of the campaign's edges |
| ContextStore.TouchesAgrees | src/routes/context.ts:25 | `npc_id_a === npc_id \|\| npc_id_b === npc_id` on a stored edge is the typed endpoint test |
| ContextStore.EventFetchOnStore | src/routes/context.ts:27 | `listRows('eventos_atuais', { campaign_id }, { limit })` returns the stored form of the typed event fetch, with or without a limit |
| ContextStore.ArcScopeAgrees | src/routes/context.ts:28-30 | `arc_ids.includes(e.arc_id)` / `!e.arc_id` on a stored event is the typed arc scope, an empty arc id counting as none |
| ContextStore.ArcFetchOnStore | src/routes/context.ts:68 | `listRows('arcos', { campaign_id })` returns the stored form of the campaign's arcs |
| ContextStore.ArcIdAgrees | src/routes/context.ts:69 | `arc_ids.includes(a.id)` on a stored arc holds iff the arc's id is one of the arc ids |
| ContextStore.ArcSelectionOnStore | src/routes/context.ts:68-69 | the campaign's stored arcs kept by `arc_ids.includes(a.id)` are exactly the stored form of the typed arc selection, in order |
| ContextStore.SeedViewIsDefaultStore | tests/mockDb.ts:11-20 | the seeded NPC, player, memory, edge, event and arc tables are the stored form of the typed seed |
| ContextStore.SeededNpcContext | tests/app.test.ts:79-85 | the seeded NPC's bundle holds its one memory (so at least one), its self-edge once, no event (the seeded one is in an arc), and alignment "good" as voice |
| ContextStore.SeededPlayerContext | tests/app.test.ts:87-92 | the seeded player is found; no memory, arc or event |
| ContextStore.SeededPlayerArcContext | src/routes/context.ts:68-74 | naming the seeded arc brings that arc and its event into the player's bundle |
| ContextStore.UnknownNpcNotFound | src/routes/context.ts:12-13 | an NPC id the seed does not hold gives not-found |
| MockDb.ApplyFilters | tests/mockDb.ts:26-31 | a row is kept iff every filter entry holds (membership for an array, `===` otherwise), every copy of a matching row kept; the result is a subsequence of the table |
| MockDb.ListRows | tests/mockDb.ts:33-37 | a prefix of the filtered rows; all of them for an absent or zero limit; exactly min(limit, count) for a positive limit; max(0, count + limit) for a negative one, as `slice` counts from the back |
| MockDb.ListRowsKeepsOrder | tests/mockDb.ts:33-37 | the listed rows keep table order |
| MockDb.GetRow | tests/mockDb.ts:39-42 | undefined iff no row matches; otherwise the first matching row of the table |
| MockDb.IlikeRows | tests/mockDb.ts:70-74 | exactly the first `slice(0, limit)` (default 10) of the filtered rows whose column text, lower-cased, contains the pattern without `%`, lower-cased; table order |
| MockDb.IlikeIgnoresPatternCase | tests/mockDb.ts:72 | the search gives the same rows for a pattern and its lower-cased form |
| MockDb.IlikeWildcardsAreIgnored | tests/mockDb.ts:72 | wrapping a `%`-free query in `%…%` searches for the query itself |
| MockDb.InsertRow | tests/mockDb.ts:44-48 | exactly one row is appended, the rest of the store unchanged; it keeps every payload field and defaults the id to table-(length+1) |
| MockDb.MergeById | tests/mockDb.ts:53-59 | same length; rows with the id merged with the payload, the others as they were |
| MockDb.LastMerged | tests/mockDb.ts:52-56 | undefined iff no row has the id; otherwise the merge of a row that has it |
| MockDb.UpdatedRowIsStored | tests/mockDb.ts:50-61 | the row `updateRow` returns is one of the rows it stored |
| MockDb.MergeRows | tests/mockDb.ts:52-59 | the loop over the table yields exactly the id-merged table and the last merged row |
| MockDb.UpdateRow | tests/mockDb.ts:50-61 | the table becomes the merged table, nothing else changes, and the answer is the last merged row or undefined |
| MockDb.WithoutId | tests/mockDb.ts:65 | exactly the rows without the id, every copy of each, in order |
| MockDb.DeleteRow | tests/mockDb.ts:63-68 | the table loses exactly the rows with the id, nothing else changes; the answer is true iff such a row existed |
| MockDb.DefaultStore | tests/mockDb.ts:6-22 | the seed holds exactly the thirteen named tables |
| MockDb.OverwriteTables | tests/mockDb.ts:78-80 | copying each listed key of a seed into the store gives the old store overridden by the seed |
| MockDb.ResetStore | tests/mockDb.ts:76-81 | every seeded table equals its seed again; other tables are untouched |
| Rows.StrictEquals | tests/mockDb.ts:29 | `===` is equality on scalar values and never holds when either side is an array |
| Rows.TableOf | tests/mockDb.ts:34 | `store[table] \|\| []`: a missing table reads as empty, an existing one as its rows |
| Rows.DefaultId | tests/mockSupabase.ts:55 | `${table}-${n}`: the table name, a dash, then decimal digits whose value is n |
| Rows.WithDefaultId | tests/mockDb.ts:45 | every payload field is kept (the spread wins), and a payload without an id gets the default one |
| Rows.Merge | tests/mockDb.ts:55 | payload fields win, row fields not in the payload stay, no other key appears |
| Text.JoinSplit | tests/mockSupabase.ts:33 | joining the parts of `split(sep)` with `sep` gives back the string |
| Text.SplitPartsFree | tests/mockSupabase.ts:33 | no part of `split(sep)` contains `sep` |
| Text.Trim | tests/mockSupabase.ts:33 | `trim()` gives a contiguous piece of the string with only whitespace cut from both ends, and it neither starts nor ends with whitespace |
| Text.LowerIdempotent | tests/mockSupabase.ts:42 | lower-casing twice is lower-casing once |
| Text.LowerWithoutPercent | tests/mockSupabase.ts:42 | removing `%` and lower-casing commute |
| Text.SearchTerm | tests/mockSupabase.ts:42 | the search term holds no `%` |
| Text.NatToStringRoundTrip | tests/mockDb.ts:45 | the decimal text of a number reads back as that number |
| MockSupabase.OrTerms | tests/mockSupabase.ts:33 | the terms are the comma-separated pieces of the expression, each trimmed |
| MockSupabase.OrPredicateHolds | tests/mockSupabase.ts:32-40 | an `or` predicate holds iff some term has `row[field] === val`; it never throws |
| MockSupabase.OrTermQualified | tests/mockSupabase.ts:35-37 | a term `t.f.eq.v` tests field `f` against value `v` |
| MockSupabase.OrTermUnqualified | tests/mockSupabase.ts:35-37 | a term `f.eq.v` with no `.` in `f` tests the key "undefined" |
| MockSupabase.Evaluate | tests/mockSupabase.ts:25-43 | running a predicate throws iff it is an `ilike` on a truthy non-string column |
| MockSupabase.WildcardLikeHoldsEverywhere | tests/mockSupabase.ts:41-44 | an `ilike` with only `%` holds on every row where it does not throw |
| MockSupabase.EvalAll | tests/mockSupabase.ts:11 | all predicates hold iff `Satisfies`; it throws iff the first predicate that does not hold throws |
| MockSupabase.Selected | tests/mockSupabase.ts:11 | exactly the rows every predicate holds of, every copy of each, as a subsequence of the table |
| MockSupabase.SelectedHead | tests/mockSupabase.ts:20 | the first selected row is the first table row every predicate holds of |
| MockSupabase.MergeMatching | tests/mockSupabase.ts:60-63 | throws iff some row throws; otherwise same length, selected rows merged with the payload, the others unchanged |
| MockSupabase.RemoveMatching | tests/mockSupabase.ts:71-72 | throws iff some row throws; otherwise exactly the unselected rows, every copy of each, in order, and the length is unchanged iff nothing was selected |
| MockSupabase.SelectAndDeletePartition | tests/mockSupabase.ts:69-76 | selected rows and the rows `delete` keeps together are the table, as a multiset |
| MockSupabase.WithIds | tests/mockSupabase.ts:55 | each payload row gets its default id and keeps its fields |
| MockSupabase.BatchInsertRepeatsId | tests/mockSupabase.ts:55 | two id-less rows of one batch get the same default id |
| MockSupabase.UpdateCanMissItsOwnRow | tests/mockSupabase.ts:59-68 | an update that changes the filtered column writes the row, yet answers `not_found` |
| MockSupabase.BuildStoreExtendsDefault | tests/mockSupabase.ts:86-105 | the query builder's seed is the record store's seed plus an empty `campanhas` table |
| MockSupabase.MockQuery.constructor | tests/mockSupabase.ts:3-9 | a query starts with no predicates and no limit on its table and store |
| MockSupabase.MockQuery.ApplyFilters | tests/mockSupabase.ts:10-14 | no `not_found`; throws iff a row throws; otherwise a prefix of the selected rows, exactly the selected rows without a limit, the first min(limit, count) with a non-negative limit, all but the last -limit with a negative one (`slice(0, limit)`), the limit applied after filtering |
| MockSupabase.MockQuery.Select | tests/mockSupabase.ts:15-18 | the filtered rows of the query's table |
| MockSupabase.FirstOfFiltered | tests/mockSupabase.ts:19-23 | the first row of a filtered result is the first table row every predicate holds of; `not_found` exactly for an empty result |
| MockSupabase.MockQuery.Single | tests/mockSupabase.ts:19-23 | throws iff a row throws; `not_found` iff the filtered rows are empty; otherwise the first selected row; without a throw and with no or a positive limit, a row iff some row is selected |
| MockSupabase.MockQuery.Eq | tests/mockSupabase.ts:24-27 | appends one equality predicate and returns the same query, the limit unchanged |
| MockSupabase.MockQuery.In | tests/mockSupabase.ts:28-31 | appends one membership predicate and returns the same query |
| MockSupabase.MockQuery.Or | tests/mockSupabase.ts:32-40 | appends one predicate over the trimmed terms of the expression and returns the same query |
| MockSupabase.MockQuery.Ilike | tests/mockSupabase.ts:41-45 | appends one substring predicate with the lower-cased `%`-free pattern and returns the same query |
| MockSupabase.MockQuery.Order | tests/mockSupabase.ts:46-48 | returns the same query and changes nothing |
| MockSupabase.MockQuery.Limit | tests/mockSupabase.ts:49-52 | sets the limit, keeps the predicates, returns the same query |
| MockSupabase.MockQuery.Insert | tests/mockSupabase.ts:53-58 | the old rows stay as a prefix and the payload rows, given default ids from the old length, follow; the answer is what was appended (one row or the array) |
| MockSupabase.MockQuery.Update | tests/mockSupabase.ts:59-68 | a throw in the first pass leaves the store unchanged; otherwise the table is merged and the answer is the first row selected from the new table, or `not_found`; a returned row satisfies the filters and is stored |
| MockSupabase.MockQuery.Delete | tests/mockSupabase.ts:69-76 | removes exactly the selected rows whatever the limit; `not_found` iff no row was selected |
| MockSupabase.MockSupabaseClient.From | tests/mockSupabase.ts:81-83 | a fresh query on the table over the shared store, with no predicates and no limit |

## Left out

- The Express routing, request validation (zod schemas, UUID and ISO-date checks), status codes and JSON bodies. Request bodies are the already validated `NpcRequest` / `PlayerRequest`. The seeded scenarios (`ContextStore.Seeded*`, `ContextStore.UnknownNpcNotFound`) use the seed's ids such as `camp-1` and `npc1`, which are not UUIDs; over HTTP the schemas of src/utils/validators.ts would answer 400 before the handler runs, so these scenarios describe the handler bodies only. The fields `time`, `local_id` and `player_state_hint` are accepted by the schemas and never read by the handlers.
- The 500 path of the handlers (an exception from the database call). The record store the tests install never throws on these calls.
- The PostgreSQL implementation of `listRows` / `getRow` in src/utils/supabaseClient.ts: it is a call into a foreign library over a network connection. The tests replace that module with the record store. Its `buildWhere` (an AND of `=` and `= ANY`) means what `MockDb.ApplyFilters` means, so the handlers are connected to the record store only.
- JWT authentication, the CRUD and events routes, and the application wiring. None of them is part of this model.
- Promises and `await`: each awaited call is an ordinary call in sequence.
- `new Date(...).getTime()`: `happened_at` is the instant already parsed to an integer, and the sort compares integers. An unparsable timestamp (NaN in the comparator) is not modelled. The stored text is an uninterpreted `iso: int -> string` when records are stored. `new Date().toISOString()` in the seed is the parameter `now`, one value for both seeded timestamps.
- The comparator sort: JavaScript's `sort` is specified only as some stable ordering under the comparator. The model is one stable insertion sort, and its contract states what any stable newest-first sort does (sorted, a permutation, ties in input order).
- `toLowerCase` folds only ASCII letters; wider Unicode case mapping is not modelled.
- Floating-point numbers: numeric columns are integers.
- Rows.Get: `row[key]` in JavaScript also finds keys inherited through the prototype chain (`constructor`, `toString`, ...); the model reads every key a row does not own as `undefined`. Every column name the handlers and the record store read is an own data column, so this matters only for a filter key that names an `Object.prototype` member.
- `null` column values in typed records: an optional column is `None` whether absent or `null`. The row-level model keeps `Null` and `Undefined` apart.
- The vocabulary-free columns `summary_short`, `summary_long` and `embedding` of memories, and `hooks`, `clues` and `stakes` of arcs: the handlers pass them through to the response unchanged inside the whole memory and arc rows; the typed bundle omits them.
- The key order of JavaScript objects (a map has none), and object identity: `===` on arrays is always false, since a filter value is never the stored array itself.

