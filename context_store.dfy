/**
 * The context handlers against the record store the tests run them on: how
 * each typed record is stored as a row, that each fetch the handlers make
 * through the store returns exactly the stored form of the typed fetch, that
 * each JavaScript filter the handlers apply to the fetched rows agrees with
 * its typed counterpart, and the seeded test scenarios.
 */
module ContextStore {
  import opened Wrappers
  import opened Seqs
  import opened Rows
  import MockDb
  import opened Records
  import opened Context

  /** A row with an optional text column, left out when absent. */
  function WithOptional(row: Row, key: string, v: Option<string>): (r: Row)
    ensures v.None? ==> r == row
    ensures v.Some? ==> r == row[key := Str(v.value)]
  {
    if v.Some? then row[key := Str(v.value)] else row
  }

  /** A memory as stored; `iso` renders an instant as its ISO-8601 text. */
  function EncodeMemory(m: Memory, iso: int -> string): Row {
    map["id" := Str(m.id), "campaign_id" := Str(m.campaignId), "user_id" := Str(m.userId),
        "entity_type" := Str(EntityTypeName(m.entityType)), "entity_id" := Str(m.entityId),
        "kind" := Str(MemoryKindName(m.kind)), "text" := Str(m.text), "happened_at" := Str(iso(m.happenedAt)),
        "visibility_scope" := Str(ScopeName(m.scope))]
  }

  function EncodeRelationship(e: Relationship): Row {
    map["id" := Str(e.id), "campaign_id" := Str(e.campaignId), "user_id" := Str(e.userId),
        "npc_id_a" := Str(e.npcA), "npc_id_b" := Str(e.npcB), "relation_type" := Str(e.relationType),
        "intensity" := Num(e.intensity), "notes" := Str(e.notes)]
  }

  function EncodeArc(a: Arc): Row {
    map["id" := Str(a.id), "user_id" := Str(a.userId), "campaign_id" := Str(a.campaignId),
        "name" := Str(a.name), "status" := Str(ArcStatusName(a.status))]
  }

  function EncodeEvent(e: CurrentEvent): Row {
    WithOptional(map["id" := Str(e.id), "user_id" := Str(e.userId), "campaign_id" := Str(e.campaignId),
                     "title" := Str(e.title), "state" := Str(e.state), "severity" := Str(SeverityName(e.severity))],
                 "arc_id", e.arcId)
  }

  /** The optional columns of a stored NPC. */
  function NpcOptionalColumns(n: Npc): Row {
    var r1 := WithOptional(WithOptional(WithOptional(map[], "role", n.role), "speech_style", n.speechStyle), "quirks", n.quirks);
    var r2 := WithOptional(WithOptional(WithOptional(r1, "goals", n.goals), "fears", n.fears), "secrets", n.secrets);
    WithOptional(WithOptional(r2, "moral_alignment", n.moralAlignment), "local_id", n.localId)
  }

  function EncodeNpc(n: Npc): Row {
    NpcOptionalColumns(n)
    + map["id" := Str(n.id), "user_id" := Str(n.userId), "campaign_id" := Str(n.campaignId), "name" := Str(n.name)]
  }

  function EncodePlayer(p: Player): Row {
    WithOptional(map["id" := Str(p.id), "user_id" := Str(p.userId), "campaign_id" := Str(p.campaignId),
                     "name" := Str(p.name)], "background", p.background)
  }

  /** A filter object of one string column. */
  function CampaignFilter(campaign: string): MockDb.Filters {
    map["campaign_id" := Str(campaign)]
  }

  /** The filter object of an entity look-up `{ id, campaign_id }`. */
  function LookupFilter(id: string, campaign: string): MockDb.Filters {
    map["id" := Str(id), "campaign_id" := Str(campaign)]
  }

  /** The filter object of the memory fetch `{ campaign_id, entity_type, entity_id }`. */
  function MemoryFilter(campaign: string, entityType: EntityType, entityId: string): MockDb.Filters {
    map["campaign_id" := Str(campaign), "entity_type" := Str(EntityTypeName(entityType)), "entity_id" := Str(entityId)]
  }

  /** A stored memory matches the memory filter exactly when the memory belongs to the entity. */
  lemma MemoryFilterAgrees(m: Memory, iso: int -> string, campaign: string, entityType: EntityType, entityId: string)
    ensures MockDb.Matches(EncodeMemory(m, iso), MemoryFilter(campaign, entityType, entityId))
        == IsMemoryOf(m, campaign, entityType, entityId)
  {
    var row, f := EncodeMemory(m, iso), MemoryFilter(campaign, entityType, entityId);
    NamesAreDistinct();
    assert f.Keys == {"campaign_id", "entity_type", "entity_id"};
    assert MockDb.EntryHolds(row, "campaign_id", f["campaign_id"]) == (m.campaignId == campaign);
    assert MockDb.EntryHolds(row, "entity_type", f["entity_type"]) == (m.entityType == entityType);
    assert MockDb.EntryHolds(row, "entity_id", f["entity_id"]) == (m.entityId == entityId);
  }

  /**
   * The memory fetch through the store (`listRows` with limit twenty) returns
   * the stored form of the typed fetch.
   */
  lemma MemoryFetchOnStore(tables: Tables, ms: seq<Memory>, iso: int -> string, campaign: string,
                           entityType: EntityType, entityId: string)
    requires "memories" in tables && tables["memories"] == MapSeq(ms, (m: Memory) => EncodeMemory(m, iso))
    ensures MockDb.ListRows(tables, "memories", MemoryFilter(campaign, entityType, entityId), Some(MemoryFetchLimit as int))
         == MapSeq(FetchMemories(ms, campaign, entityType, entityId), (m: Memory) => EncodeMemory(m, iso))
  {
    var f := MemoryFilter(campaign, entityType, entityId);
    forall m ensures MockDb.Matches(EncodeMemory(m, iso), f) == IsMemoryOf(m, campaign, entityType, entityId) {
      MemoryFilterAgrees(m, iso, campaign, entityType, entityId);
    }
    FilterMap(ms, (m: Memory) => EncodeMemory(m, iso), (row: Row) => MockDb.Matches(row, f),
              (m: Memory) => IsMemoryOf(m, campaign, entityType, entityId));
    var kept := Filter(ms, (m: Memory) => IsMemoryOf(m, campaign, entityType, entityId));
    SliceToMap(kept, (m: Memory) => EncodeMemory(m, iso), MemoryFetchLimit as int);
    TakeIsSliceTo(kept, MemoryFetchLimit);
  }

  /** `['public', 'npc_only'].includes(m.visibility_scope)` on a stored memory is the typed visibility gate. */
  lemma VisibilityAgrees(m: Memory, iso: int -> string, viewer: Viewer)
    ensures var names := if viewer == NpcViewer then [Str("public"), Str("npc_only")] else [Str("public"), Str("player_only")];
            Includes(names, Get(EncodeMemory(m, iso), "visibility_scope")) == (m.scope in AllowedScopes(viewer))
  {
    var names := if viewer == NpcViewer then [Str("public"), Str("npc_only")] else [Str("public"), Str("player_only")];
    var allowed := AllowedScopes(viewer);
    var v := Get(EncodeMemory(m, iso), "visibility_scope");
    assert v == Str(ScopeName(m.scope));
    assert names == [Str(ScopeName(allowed[0])), Str(ScopeName(allowed[1]))];
    NamesAreDistinct();
    if m.scope in allowed {
      var k :| 0 <= k < 2 && allowed[k] == m.scope;
      assert StrictEquals(names[k], v);
    }
    if Includes(names, v) {
      var x :| x in names && StrictEquals(x, v);
      var k :| 0 <= k < 2 && names[k] == x;
      assert ScopeName(allowed[k]) == ScopeName(m.scope);
    }
  }

  /** A stored entity matches the look-up filter exactly when its id and campaign are the requested ones. */
  lemma LookupFilterAgrees(row: Row, id: string, campaign: string, rowId: string, rowCampaign: string)
    requires Get(row, "id") == Str(rowId) && Get(row, "campaign_id") == Str(rowCampaign)
    ensures MockDb.Matches(row, LookupFilter(id, campaign)) == (rowId == id && rowCampaign == campaign)
  {
    var f := LookupFilter(id, campaign);
    assert f.Keys == {"id", "campaign_id"};
    assert MockDb.EntryHolds(row, "id", f["id"]) == (rowId == id);
    assert MockDb.EntryHolds(row, "campaign_id", f["campaign_id"]) == (rowCampaign == campaign);
  }

  /** A stored NPC keeps its id and campaign columns. */
  lemma NpcColumns(n: Npc)
    ensures Get(EncodeNpc(n), "id") == Str(n.id) && Get(EncodeNpc(n), "campaign_id") == Str(n.campaignId)
  {
  }

  /** The NPC look-up through the store (`getRow`) finds the stored form of the typed look-up. */
  lemma NpcLookupOnStore(tables: Tables, npcs: seq<Npc>, npcId: string, campaign: string)
    requires "npcs" in tables && tables["npcs"] == MapSeq(npcs, EncodeNpc)
    ensures MockDb.GetRow(tables, "npcs", LookupFilter(npcId, campaign))
         == match LookupNpc(npcs, npcId, campaign) case None => None case Some(n) => Some(EncodeNpc(n))
  {
    var f := LookupFilter(npcId, campaign);
    forall n ensures MockDb.Matches(EncodeNpc(n), f) == (n.id == npcId && n.campaignId == campaign) {
      NpcColumns(n);
      LookupFilterAgrees(EncodeNpc(n), npcId, campaign, n.id, n.campaignId);
    }
    FilterMap(npcs, EncodeNpc, (row: Row) => MockDb.Matches(row, f), (n: Npc) => n.id == npcId && n.campaignId == campaign);
    var kept := Filter(npcs, (n: Npc) => n.id == npcId && n.campaignId == campaign);
    SliceToMap(kept, EncodeNpc, 1);
  }

  /** The player look-up through the store (`getRow`) finds the stored form of the typed look-up. */
  lemma PlayerLookupOnStore(tables: Tables, players: seq<Player>, playerId: string, campaign: string)
    requires "jogador" in tables && tables["jogador"] == MapSeq(players, EncodePlayer)
    ensures MockDb.GetRow(tables, "jogador", LookupFilter(playerId, campaign))
         == match LookupPlayer(players, playerId, campaign) case None => None case Some(p) => Some(EncodePlayer(p))
  {
    var f := LookupFilter(playerId, campaign);
    forall p ensures MockDb.Matches(EncodePlayer(p), f) == (p.id == playerId && p.campaignId == campaign) {
      LookupFilterAgrees(EncodePlayer(p), playerId, campaign, p.id, p.campaignId);
    }
    FilterMap(players, EncodePlayer, (row: Row) => MockDb.Matches(row, f),
              (p: Player) => p.id == playerId && p.campaignId == campaign);
    var kept := Filter(players, (p: Player) => p.id == playerId && p.campaignId == campaign);
    SliceToMap(kept, EncodePlayer, 1);
  }

  /** A stored row matches the campaign filter exactly when its campaign is the requested one. */
  lemma CampaignFilterAgrees(row: Row, campaign: string, rowCampaign: string)
    requires Get(row, "campaign_id") == Str(rowCampaign)
    ensures MockDb.Matches(row, CampaignFilter(campaign)) == (rowCampaign == campaign)
  {
    var f := CampaignFilter(campaign);
    assert f.Keys == {"campaign_id"};
    assert MockDb.EntryHolds(row, "campaign_id", f["campaign_id"]) == (rowCampaign == campaign);
  }

  /** The relationship fetch through the store returns the stored form of the campaign's edges. */
  lemma RelationshipFetchOnStore(tables: Tables, rels: seq<Relationship>, campaign: string)
    requires "npc_relationships" in tables && tables["npc_relationships"] == MapSeq(rels, EncodeRelationship)
    ensures MockDb.ListRows(tables, "npc_relationships", CampaignFilter(campaign), None)
         == MapSeq(Filter(rels, (e: Relationship) => e.campaignId == campaign), EncodeRelationship)
  {
    var f := CampaignFilter(campaign);
    forall e ensures MockDb.Matches(EncodeRelationship(e), f) == (e.campaignId == campaign) {
      CampaignFilterAgrees(EncodeRelationship(e), campaign, e.campaignId);
    }
    FilterMap(rels, EncodeRelationship, (row: Row) => MockDb.Matches(row, f), (e: Relationship) => e.campaignId == campaign);
  }

  /** `r.npc_id_a === npc_id || r.npc_id_b === npc_id` on a stored edge is `Touches`. */
  lemma TouchesAgrees(e: Relationship, npcId: string)
    ensures (StrictEquals(Get(EncodeRelationship(e), "npc_id_a"), Str(npcId))
             || StrictEquals(Get(EncodeRelationship(e), "npc_id_b"), Str(npcId))) == Touches(e, npcId)
  {
  }

  /** A stored event keeps its campaign column; its `arc_id` column is the arc id, or absent. */
  lemma EventColumns(e: CurrentEvent)
    ensures Get(EncodeEvent(e), "campaign_id") == Str(e.campaignId)
    ensures Get(EncodeEvent(e), "arc_id") == if e.arcId.Some? then Str(e.arcId.value) else Undefined
  {
  }

  /** The event fetch through the store, with or without a limit, returns the stored form of the typed fetch. */
  lemma EventFetchOnStore(tables: Tables, events: seq<CurrentEvent>, campaign: string, limit: Option<nat>)
    requires "eventos_atuais" in tables && tables["eventos_atuais"] == MapSeq(events, EncodeEvent)
    requires limit.Some? ==> limit.value > 0
    ensures MockDb.ListRows(tables, "eventos_atuais", CampaignFilter(campaign),
                            if limit.Some? then Some(limit.value as int) else None)
         == MapSeq(FetchEvents(events, campaign, limit), EncodeEvent)
  {
    var f := CampaignFilter(campaign);
    forall e ensures MockDb.Matches(EncodeEvent(e), f) == (e.campaignId == campaign) {
      EventColumns(e);
      CampaignFilterAgrees(EncodeEvent(e), campaign, e.campaignId);
    }
    FilterMap(events, EncodeEvent, (row: Row) => MockDb.Matches(row, f), (e: CurrentEvent) => e.campaignId == campaign);
    if limit.Some? {
      var kept := Filter(events, (e: CurrentEvent) => e.campaignId == campaign);
      SliceToMap(kept, EncodeEvent, limit.value);
      TakeIsSliceTo(kept, limit.value);
    }
  }

  /**
   * The JavaScript arc scoping on a stored event — `arc_ids.includes(e.arc_id)`
   * when `arc_ids?.length`, else `!e.arc_id` — is the typed `InArcScope`.
   */
  lemma ArcScopeAgrees(e: CurrentEvent, arcIds: Option<seq<string>>)
    ensures var v := Get(EncodeEvent(e), "arc_id");
            (if HasArcIds(arcIds) then Includes(MapSeq(arcIds.value, (s: string) => Str(s)), v) else !Truthy(v))
            == InArcScope(e, arcIds)
  {
    EventColumns(e);
    if HasArcIds(arcIds) {
      var names := MapSeq(arcIds.value, (s: string) => Str(s));
      var v := Get(EncodeEvent(e), "arc_id");
      if e.arcId.Some? && e.arcId.value in arcIds.value {
        var k :| 0 <= k < |arcIds.value| && arcIds.value[k] == e.arcId.value;
        assert names[k] == v && names[k] in names && StrictEquals(names[k], v);
      }
      if Includes(names, v) {
        var x :| x in names && StrictEquals(x, v);
        var k :| 0 <= k < |names| && names[k] == x;
        assert x == Str(arcIds.value[k]) && x == v;
        assert e.arcId.Some? && arcIds.value[k] == e.arcId.value;
      }
    }
  }

  /** The arc fetch through the store returns the stored form of the campaign's arcs. */
  lemma ArcFetchOnStore(tables: Tables, arcs: seq<Arc>, campaign: string)
    requires "arcos" in tables && tables["arcos"] == MapSeq(arcs, EncodeArc)
    ensures MockDb.ListRows(tables, "arcos", CampaignFilter(campaign), None)
         == MapSeq(Filter(arcs, (a: Arc) => a.campaignId == campaign), EncodeArc)
  {
    var f := CampaignFilter(campaign);
    forall a ensures MockDb.Matches(EncodeArc(a), f) == (a.campaignId == campaign) {
      CampaignFilterAgrees(EncodeArc(a), campaign, a.campaignId);
    }
    FilterMap(arcs, EncodeArc, (row: Row) => MockDb.Matches(row, f), (a: Arc) => a.campaignId == campaign);
  }

  /** `arc_ids.includes(a.id)` on a stored arc is membership of its id among the arc ids. */
  lemma ArcIdAgrees(a: Arc, ids: seq<string>)
    ensures Includes(MapSeq(ids, (s: string) => Str(s)), Get(EncodeArc(a), "id")) == (a.id in ids)
  {
    var names := MapSeq(ids, (s: string) => Str(s));
    var v := Get(EncodeArc(a), "id");
    assert v == Str(a.id);
    if a.id in ids {
      var k :| 0 <= k < |ids| && ids[k] == a.id;
      assert names[k] == v && names[k] in names && StrictEquals(names[k], v);
    }
    if Includes(names, v) {
      var x :| x in names && StrictEquals(x, v);
      var k :| 0 <= k < |names| && names[k] == x;
      assert x == Str(ids[k]) && ids[k] == a.id;
    }
  }

  /**
   * The player's arc selection on the store: the listed campaign arcs kept by
   * `arc_ids.includes(a.id)` are the stored form of the typed selection.
   */
  lemma ArcSelectionOnStore(tables: Tables, arcs: seq<Arc>, campaign: string, ids: seq<string>)
    requires "arcos" in tables && tables["arcos"] == MapSeq(arcs, EncodeArc)
    requires |ids| > 0
    ensures Filter(MockDb.ListRows(tables, "arcos", CampaignFilter(campaign), None),
                   (row: Row) => Includes(MapSeq(ids, (s: string) => Str(s)), Get(row, "id")))
         == MapSeq(SelectArcs(arcs, campaign, Some(ids)), EncodeArc)
  {
    var names := MapSeq(ids, (s: string) => Str(s));
    var inCampaign := Filter(arcs, (a: Arc) => a.campaignId == campaign);
    ArcFetchOnStore(tables, arcs, campaign);
    forall a ensures Includes(names, Get(EncodeArc(a), "id")) == (a.id in ids) {
      ArcIdAgrees(a, ids);
    }
    FilterMap(inCampaign, EncodeArc, (row: Row) => Includes(names, Get(row, "id")), (a: Arc) => a.id in ids);
    FilterFuse(arcs, (a: Arc) => a.campaignId == campaign, (a: Arc) => a.id in ids,
               (a: Arc) => a.campaignId == campaign && a.id in ids);
  }

  /** The typed mirror of the seeded store; `t` is the seeding instant. */
  function SeedView(t: int): StoreView {
    StoreView(
      [Npc("npc1", MockDb.BaseUser, MockDb.SeedCampaign, "Emilia", None, None, None, None, None, None, Some("good"), Some("loc1"))],
      [Player("player1", MockDb.BaseUser, MockDb.SeedCampaign, "Player", Some("bg"))],
      [Memory("mem1", MockDb.SeedCampaign, MockDb.BaseUser, NpcEntity, "npc1", Dialogue, "hi", t, Public)],
      [Relationship("rel1", MockDb.SeedCampaign, MockDb.BaseUser, "npc1", "npc1", "ally", 1, "")],
      [CurrentEvent("now1", MockDb.BaseUser, MockDb.SeedCampaign, "Now", "ongoing", Low, Some("arc1"))],
      [Arc("arc1", MockDb.BaseUser, MockDb.SeedCampaign, "Arc", Active)])
  }

  /** The seeded store holds exactly the stored form of the typed seed, in every table the handlers read. */
  lemma SeedViewIsDefaultStore(now: string, iso: int -> string, t: int)
    requires iso(t) == now
    ensures var db, seed := MockDb.DefaultStore(now), SeedView(t);
            db["npcs"] == MapSeq(seed.npcs, EncodeNpc)
            && db["jogador"] == MapSeq(seed.players, EncodePlayer)
            && db["memories"] == MapSeq(seed.memories, (m: Memory) => EncodeMemory(m, iso))
            && db["npc_relationships"] == MapSeq(seed.relationships, EncodeRelationship)
            && db["eventos_atuais"] == MapSeq(seed.events, EncodeEvent)
            && db["arcos"] == MapSeq(seed.arcs, EncodeArc)
  {
    var db, seed := MockDb.DefaultStore(now), SeedView(t);
    assert EncodeNpc(seed.npcs[0]) == db["npcs"][0];
    assert EncodePlayer(seed.players[0]) == db["jogador"][0];
    assert EncodeMemory(seed.memories[0], iso) == db["memories"][0];
    assert EncodeRelationship(seed.relationships[0]) == db["npc_relationships"][0];
    assert EncodeEvent(seed.events[0]) == db["eventos_atuais"][0];
    assert EncodeArc(seed.arcs[0]) == db["arcos"][0];
  }

  /**
   * The seeded NPC's context: its one memory, its self-edge once, no events
   * (the seeded event belongs to an arc and no arc ids were given), and its
   * moral alignment as the voice.
   */
  lemma SeededNpcContext(t: int)
    ensures var seed := SeedView(t);
            BuildNpcContext(seed, NpcRequest(MockDb.SeedCampaign, "npc1", None))
            == Bundle(NpcBundle(seed.npcs[0], seed.memories, seed.relationships, [],
                                Voice(None, None, None, None, None, Some("good"))))
  {
    var seed := SeedView(t);
    var m := seed.memories[0];
    assert FetchMemories(seed.memories, MockDb.SeedCampaign, NpcEntity, "npc1") == seed.memories;
    assert VisibleTo(NpcViewer, seed.memories) == seed.memories;
    assert SortByRecency(seed.memories) == seed.memories;
    assert NpcRelationships(seed.relationships, MockDb.SeedCampaign, "npc1") == seed.relationships;
    assert FetchEvents(seed.events, MockDb.SeedCampaign, Some(NpcEventFetchLimit)) == seed.events;
    assert ScopeEvents(seed.events, None) == [];
  }

  /** The seeded player's context: no memories (the seeded one is the NPC's), no arcs, no events. */
  lemma SeededPlayerContext(t: int)
    ensures var seed := SeedView(t);
            BuildPlayerContext(seed, PlayerRequest(MockDb.SeedCampaign, "player1", None))
            == Bundle(PlayerBundle(seed.players[0], [], [], []))
  {
    var seed := SeedView(t);
    assert FetchMemories(seed.memories, MockDb.SeedCampaign, PlayerEntity, "player1") == [];
    assert FetchEvents(seed.events, MockDb.SeedCampaign, None) == seed.events;
    assert ScopeEvents(seed.events, None) == [];
  }

  /** Naming the seeded arc brings the arc and its event into the player's context. */
  lemma SeededPlayerArcContext(t: int)
    ensures var seed := SeedView(t);
            BuildPlayerContext(seed, PlayerRequest(MockDb.SeedCampaign, "player1", Some(["arc1"])))
            == Bundle(PlayerBundle(seed.players[0], [], seed.arcs, seed.events))
  {
    var seed := SeedView(t);
    assert FetchMemories(seed.memories, MockDb.SeedCampaign, PlayerEntity, "player1") == [];
    assert Filter(seed.arcs, (a: Arc) => a.campaignId == MockDb.SeedCampaign) == seed.arcs;
    assert SelectArcs(seed.arcs, MockDb.SeedCampaign, Some(["arc1"])) == seed.arcs;
    assert FetchEvents(seed.events, MockDb.SeedCampaign, None) == seed.events;
    assert ScopeEvents(seed.events, Some(["arc1"])) == seed.events;
  }

  /** An NPC id the seed does not hold is not found. */
  lemma UnknownNpcNotFound(t: int)
    ensures BuildNpcContext(SeedView(t), NpcRequest(MockDb.SeedCampaign, "nonexistent", None)).NotFound?
  {
  }
}
