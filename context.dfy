/**
 * The two context handlers: given a campaign and an NPC (or a player), they
 * assemble the read-only bundle a game master's assistant is prompted with.
 *
 * Each handler looks the entity up by `(id, campaign_id)` and answers
 * not-found when it is absent. Otherwise it fetches the entity's memories
 * (at most twenty, cut at fetch time), keeps those the viewer may see and
 * sorts them newest first; it then collects the NPC's relationships, or the
 * player's arcs, and the current events in arc scope. The tables are the
 * sequences of typed records the store holds, in store order.
 */
module Context {
  import opened Wrappers
  import opened Seqs
  import opened Records

  /** The memory fetch returns at most this many rows. */
  const MemoryFetchLimit: nat := 20

  /** The NPC handler fetches at most this many current events. */
  const NpcEventFetchLimit: nat := 50

  /** Whose context is being built. */
  datatype Viewer = NpcViewer | PlayerViewer

  /** The visibility scopes a viewer may see: `['public', 'npc_only']` or `['public', 'player_only']`. */
  function AllowedScopes(viewer: Viewer): seq<Scope> {
    match viewer
    case NpcViewer => [Public, NpcOnly]
    case PlayerViewer => [Public, PlayerOnly]
  }

  /** Game-master memories reach no one; each private scope reaches only its own viewer. */
  lemma ScopeGate(viewer: Viewer)
    ensures GmOnly !in AllowedScopes(viewer)
    ensures Public in AllowedScopes(viewer)
    ensures NpcOnly in AllowedScopes(viewer) <==> viewer == NpcViewer
    ensures PlayerOnly in AllowedScopes(viewer) <==> viewer == PlayerViewer
  {
  }

  /** The memory query `{ campaign_id, entity_type, entity_id }`. */
  predicate IsMemoryOf(m: Memory, campaign: string, entityType: EntityType, entityId: string) {
    m.campaignId == campaign && m.entityType == entityType && m.entityId == entityId
  }

  /**
   * The memory fetch: the entity's memories in store order, cut to the first
   * twenty BEFORE any visibility filtering or sorting.
   */
  function FetchMemories(ms: seq<Memory>, campaign: string, entityType: EntityType, entityId: string): (r: seq<Memory>)
    ensures r <= Filter(ms, (m: Memory) => IsMemoryOf(m, campaign, entityType, entityId))
    ensures |r| == if |Filter(ms, (m: Memory) => IsMemoryOf(m, campaign, entityType, entityId))| <= MemoryFetchLimit
                   then |Filter(ms, (m: Memory) => IsMemoryOf(m, campaign, entityType, entityId))| else MemoryFetchLimit
    ensures forall m :: m in r ==> m in ms && IsMemoryOf(m, campaign, entityType, entityId)
  {
    Take(Filter(ms, (m: Memory) => IsMemoryOf(m, campaign, entityType, entityId)), MemoryFetchLimit)
  }

  /** The memories whose scope the viewer may see, every copy of each, in their order. */
  function VisibleTo(viewer: Viewer, ms: seq<Memory>): (r: seq<Memory>)
    ensures forall m :: m in r <==> m in ms && m.scope in AllowedScopes(viewer)
    ensures forall m :: multiset(r)[m] == if m.scope in AllowedScopes(viewer) then multiset(ms)[m] else 0
    ensures IsSubseq(r, ms)
  {
    FilterIsSubseq(ms, (m: Memory) => m.scope in AllowedScopes(viewer));
    FilterCounts(ms, (m: Memory) => m.scope in AllowedScopes(viewer));
    Filter(ms, (m: Memory) => m.scope in AllowedScopes(viewer))
  }

  /** Newest first: `happened_at` never increases along the sequence. */
  ghost predicate SortedByRecency(ms: seq<Memory>) {
    forall i, j :: 0 <= i < j < |ms| ==> ms[i].happenedAt >= ms[j].happenedAt
  }

  /** The memories that happened at instant `t`, in their order. */
  function AtTime(ms: seq<Memory>, t: int): seq<Memory> {
    Filter(ms, (m: Memory) => m.happenedAt == t)
  }

  /** Inserts `x` before the first element that is not newer than it. */
  function InsertByRecency(x: Memory, s: seq<Memory>): (r: seq<Memory>)
    ensures multiset(r) == multiset(s) + multiset{x}
    decreases |s|
  {
    if s == [] then [x]
    else if s[0].happenedAt <= x.happenedAt then [x] + s
    else
      assert s == [s[0]] + s[1..];
      [s[0]] + InsertByRecency(x, s[1..])
  }

  /** Putting a memory no older than any of them in front of newest-first memories keeps them newest first. */
  lemma ConsSorted(h: Memory, s: seq<Memory>)
    requires SortedByRecency(s)
    requires forall k :: 0 <= k < |s| ==> s[k].happenedAt <= h.happenedAt
    ensures SortedByRecency([h] + s)
  {
    var r := [h] + s;
    forall i, j | 0 <= i < j < |r| ensures r[i].happenedAt >= r[j].happenedAt {
      assert r[j] == s[j - 1];
      if i > 0 {
        assert r[i] == s[i - 1];
      }
    }
  }

  /** Inserting into a newest-first sequence keeps it newest first. */
  lemma {:induction false} InsertKeepsSorted(x: Memory, s: seq<Memory>)
    requires SortedByRecency(s)
    ensures SortedByRecency(InsertByRecency(x, s))
    decreases |s|
  {
    if s != [] {
      if s[0].happenedAt <= x.happenedAt {
        ConsSorted(x, s);
      } else {
        var rest := InsertByRecency(x, s[1..]);
        InsertKeepsSorted(x, s[1..]);
        forall k | 0 <= k < |rest| ensures rest[k].happenedAt <= s[0].happenedAt {
          var y := rest[k];
          assert y in multiset(rest);
          if y != x {
            assert y in multiset(s[1..]);
            var i :| 0 <= i < |s[1..]| && s[1..][i] == y;
            assert s[i + 1] == y;
          }
        }
        ConsSorted(s[0], rest);
      }
    }
  }

  /**
   * `.sort((a, b) => b.happened_at - a.happened_at)`: newest first, and
   * stable: memories of the same instant keep their order.
   */
  function SortByRecency(ms: seq<Memory>): (r: seq<Memory>)
    ensures SortedByRecency(r)
    ensures multiset(r) == multiset(ms)
    ensures |r| == |ms|
    decreases |ms|
  {
    if ms == [] then []
    else
      assert ms == [ms[0]] + ms[1..];
      InsertKeepsSorted(ms[0], SortByRecency(ms[1..]));
      InsertByRecency(ms[0], SortByRecency(ms[1..]))
  }

  /** Inserting `x` places it ahead of every memory of its own instant. */
  lemma {:induction false} InsertAtTime(x: Memory, s: seq<Memory>, t: int)
    ensures AtTime(InsertByRecency(x, s), t) == if x.happenedAt == t then [x] + AtTime(s, t) else AtTime(s, t)
    decreases |s|
  {
    if s == [] {
    } else if s[0].happenedAt <= x.happenedAt {
      AtTimeCons(x, s, t);
    } else {
      var rest := InsertByRecency(x, s[1..]);
      assert InsertByRecency(x, s) == [s[0]] + rest;
      InsertAtTime(x, s[1..], t);
      AtTimeCons(s[0], rest, t);
      assert [s[0]] + s[1..] == s;
      AtTimeCons(s[0], s[1..], t);
      if x.happenedAt == t {
        assert AtTime(InsertByRecency(x, s), t) == AtTime(rest, t) == [x] + AtTime(s[1..], t);
        assert AtTime(s, t) == AtTime(s[1..], t);
      } else if s[0].happenedAt == t {
        assert AtTime(InsertByRecency(x, s), t) == [s[0]] + AtTime(rest, t) == [s[0]] + AtTime(s[1..], t);
      } else {
        assert AtTime(InsertByRecency(x, s), t) == AtTime(rest, t) == AtTime(s[1..], t);
      }
    }
  }

  /** The memories of instant `t` in `[h] + s`: `h` when it is of that instant, then those of `s`. */
  lemma AtTimeCons(h: Memory, s: seq<Memory>, t: int)
    ensures AtTime([h] + s, t) == if h.happenedAt == t then [h] + AtTime(s, t) else AtTime(s, t)
  {
    assert ([h] + s)[0] == h;
    assert ([h] + s)[1..] == s;
  }

  /** The sort is stable: at every instant, the memories keep their input order. */
  lemma {:induction false} SortIsStable(ms: seq<Memory>, t: int)
    ensures AtTime(SortByRecency(ms), t) == AtTime(ms, t)
    decreases |ms|
  {
    if ms != [] {
      SortIsStable(ms[1..], t);
      InsertAtTime(ms[0], SortByRecency(ms[1..]), t);
    }
  }

  /**
   * The memory section of a bundle: fetch (at most twenty), keep what the
   * viewer may see, sort newest first.
   */
  function RetrieveMemories(ms: seq<Memory>, viewer: Viewer, campaign: string, entityType: EntityType,
                            entityId: string): (r: seq<Memory>)
    ensures forall m :: m in r ==> m in ms && IsMemoryOf(m, campaign, entityType, entityId)
                                   && m.scope in AllowedScopes(viewer)
    ensures |r| <= MemoryFetchLimit
    ensures SortedByRecency(r)
    ensures multiset(r) == multiset(VisibleTo(viewer, FetchMemories(ms, campaign, entityType, entityId)))
    ensures forall t :: AtTime(r, t) == AtTime(VisibleTo(viewer, FetchMemories(ms, campaign, entityType, entityId)), t)
  {
    var fetched := FetchMemories(ms, campaign, entityType, entityId);
    var visible := VisibleTo(viewer, fetched);
    var r := SortByRecency(visible);
    assert forall m :: m in r ==> m in visible by {
      forall m | m in r ensures m in visible {
        assert m in multiset(r);
      }
    }
    assert forall t :: AtTime(r, t) == AtTime(visible, t) by {
      forall t ensures AtTime(r, t) == AtTime(visible, t) {
        SortIsStable(visible, t);
      }
    }
    r
  }

  /** Retrieved memories are of the two scopes the viewer may see. */
  lemma RetrievedScopes(ms: seq<Memory>, viewer: Viewer, campaign: string, entityType: EntityType, entityId: string,
                        own: Scope)
    requires AllowedScopes(viewer) == [Public, own]
    ensures forall m :: m in RetrieveMemories(ms, viewer, campaign, entityType, entityId) ==> m.scope == Public || m.scope == own
  {
  }

  /** The relationship is an edge at the NPC: `npc_id_a === npc_id || npc_id_b === npc_id`. */
  predicate Touches(e: Relationship, npcId: string) {
    e.npcA == npcId || e.npcB == npcId
  }

  /** The NPC's relationships: the campaign's edges at the NPC, exactly, in store order. */
  function NpcRelationships(rels: seq<Relationship>, campaign: string, npcId: string): (r: seq<Relationship>)
    ensures r == Filter(rels, (e: Relationship) => e.campaignId == campaign && Touches(e, npcId))
    ensures forall e :: e in r <==> e in rels && e.campaignId == campaign && Touches(e, npcId)
    ensures IsSubseq(r, rels)
  {
    var inCampaign := Filter(rels, (e: Relationship) => e.campaignId == campaign);
    FilterFuse(rels, (e: Relationship) => e.campaignId == campaign, (e: Relationship) => Touches(e, npcId),
               (e: Relationship) => e.campaignId == campaign && Touches(e, npcId));
    FilterIsSubseq(rels, (e: Relationship) => e.campaignId == campaign && Touches(e, npcId));
    Filter(inCampaign, (e: Relationship) => Touches(e, npcId))
  }

  /**
   * Each edge appears as often as it is stored, whichever endpoints match: in
   * particular a self-edge stored once is returned once, not twice.
   */
  lemma RelationshipCopies(rels: seq<Relationship>, campaign: string, npcId: string, e: Relationship)
    ensures multiset(NpcRelationships(rels, campaign, npcId))[e]
         == if e.campaignId == campaign && Touches(e, npcId) then multiset(rels)[e] else 0
  {
    FilterCount(rels, (e: Relationship) => e.campaignId == campaign && Touches(e, npcId), e);
  }

  /** `!e.arc_id` is false: the event belongs to an arc. */
  predicate HasArc(e: CurrentEvent) {
    e.arcId.Some? && e.arcId.value != ""
  }

  /** `arc_ids?.length` is truthy: arc ids were given and there is at least one. */
  predicate HasArcIds(arcIds: Option<seq<string>>) {
    arcIds.Some? && |arcIds.value| > 0
  }

  /**
   * Arc scoping of events, asymmetric: with arc ids, the events of those arcs;
   * without, only the events outside every arc.
   */
  predicate InArcScope(e: CurrentEvent, arcIds: Option<seq<string>>) {
    if HasArcIds(arcIds) then e.arcId.Some? && e.arcId.value in arcIds.value else !HasArc(e)
  }

  /** The events in arc scope, every copy of each, in their order. */
  function ScopeEvents(events: seq<CurrentEvent>, arcIds: Option<seq<string>>): (r: seq<CurrentEvent>)
    ensures HasArcIds(arcIds) ==>
              forall e :: e in r <==> e in events && e.arcId.Some? && e.arcId.value in arcIds.value
    ensures !HasArcIds(arcIds) ==> forall e :: e in r <==> e in events && !HasArc(e)
    ensures forall e :: multiset(r)[e] == if InArcScope(e, arcIds) then multiset(events)[e] else 0
    ensures IsSubseq(r, events)
  {
    FilterIsSubseq(events, (e: CurrentEvent) => InArcScope(e, arcIds));
    FilterCounts(events, (e: CurrentEvent) => InArcScope(e, arcIds));
    Filter(events, (e: CurrentEvent) => InArcScope(e, arcIds))
  }

  /** The event fetch `{ campaign_id }`, cut to the first `limit` rows when there is a limit. */
  function FetchEvents(events: seq<CurrentEvent>, campaign: string, limit: Option<nat>): (r: seq<CurrentEvent>)
    ensures r <= Filter(events, (e: CurrentEvent) => e.campaignId == campaign)
    ensures limit.None? ==> r == Filter(events, (e: CurrentEvent) => e.campaignId == campaign)
    ensures limit.Some? ==> |r| == if limit.value <= |Filter(events, (e: CurrentEvent) => e.campaignId == campaign)|
                                   then limit.value else |Filter(events, (e: CurrentEvent) => e.campaignId == campaign)|
    ensures forall e :: e in r ==> e in events && e.campaignId == campaign
  {
    var all := Filter(events, (e: CurrentEvent) => e.campaignId == campaign);
    if limit.Some? then Take(all, limit.value) else all
  }

  /**
   * The events section of a bundle: the fetch, then the arc scope. Every
   * fetched event in scope is kept, as often as it was fetched.
   */
  function CampaignEvents(events: seq<CurrentEvent>, campaign: string, limit: Option<nat>,
                          arcIds: Option<seq<string>>): (r: seq<CurrentEvent>)
    ensures forall e :: e in r ==> e in events && e.campaignId == campaign && InArcScope(e, arcIds)
    ensures IsSubseq(r, events)
    ensures IsSubseq(r, FetchEvents(events, campaign, limit))
    ensures limit.Some? ==> |r| <= limit.value
    ensures forall e :: multiset(r)[e] == if InArcScope(e, arcIds) then multiset(FetchEvents(events, campaign, limit))[e] else 0
    ensures limit.None? ==> forall e :: e in r <==> e in events && e.campaignId == campaign && InArcScope(e, arcIds)
  {
    var fetched := FetchEvents(events, campaign, limit);
    var r := ScopeEvents(fetched, arcIds);
    FilterIsSubseq(events, (e: CurrentEvent) => e.campaignId == campaign);
    PrefixIsSubseq(fetched, Filter(events, (e: CurrentEvent) => e.campaignId == campaign));
    SubseqTrans(fetched, Filter(events, (e: CurrentEvent) => e.campaignId == campaign), events);
    SubseqTrans(r, fetched, events);
    FilterIsSubseq(fetched, (e: CurrentEvent) => InArcScope(e, arcIds));
    r
  }

  /** Without a limit, every stored copy of a campaign event in arc scope reaches the events section. */
  lemma UnlimitedEventCopies(events: seq<CurrentEvent>, campaign: string, arcIds: Option<seq<string>>)
    ensures forall e :: multiset(CampaignEvents(events, campaign, None, arcIds))[e]
                        == if e.campaignId == campaign && InArcScope(e, arcIds) then multiset(events)[e] else 0
  {
    FilterCounts(events, (e: CurrentEvent) => e.campaignId == campaign);
  }

  /** The player's arcs: none without arc ids; otherwise the campaign's arcs named by them, in store order. */
  function SelectArcs(arcs: seq<Arc>, campaign: string, arcIds: Option<seq<string>>): (r: seq<Arc>)
    ensures !HasArcIds(arcIds) ==> r == []
    ensures HasArcIds(arcIds) ==> r == Filter(arcs, (a: Arc) => a.campaignId == campaign && a.id in arcIds.value)
    ensures forall a :: a in r <==> a in arcs && a.campaignId == campaign && HasArcIds(arcIds) && a.id in arcIds.value
    ensures IsSubseq(r, arcs)
  {
    if HasArcIds(arcIds) then
      var ids := arcIds.value;
      FilterFuse(arcs, (a: Arc) => a.campaignId == campaign, (a: Arc) => a.id in ids, (a: Arc) => a.campaignId == campaign && a.id in ids);
      FilterIsSubseq(arcs, (a: Arc) => a.campaignId == campaign && a.id in ids);
      Filter(Filter(arcs, (a: Arc) => a.campaignId == campaign), (a: Arc) => a.id in ids)
    else []
  }

  /** The NPC look-up `{ id, campaign_id }`: the first such NPC in store order. */
  function LookupNpc(npcs: seq<Npc>, npcId: string, campaign: string): (r: Option<Npc>)
    ensures r.None? <==> forall n :: n in npcs ==> !(n.id == npcId && n.campaignId == campaign)
    ensures r.Some? ==> exists i :: 0 <= i < |npcs| && npcs[i] == r.value && r.value.id == npcId
                                    && r.value.campaignId == campaign
                                    && forall j :: 0 <= j < i ==> !(npcs[j].id == npcId && npcs[j].campaignId == campaign)
  {
    FirstWhere(npcs, (n: Npc) => n.id == npcId && n.campaignId == campaign)
  }

  /** The player look-up `{ id, campaign_id }`: the first such player in store order. */
  function LookupPlayer(players: seq<Player>, playerId: string, campaign: string): (r: Option<Player>)
    ensures r.None? <==> forall p :: p in players ==> !(p.id == playerId && p.campaignId == campaign)
    ensures r.Some? ==> exists i :: 0 <= i < |players| && players[i] == r.value && r.value.id == playerId
                                    && r.value.campaignId == campaign
                                    && forall j :: 0 <= j < i ==> !(players[j].id == playerId && players[j].campaignId == campaign)
  {
    FirstWhere(players, (p: Player) => p.id == playerId && p.campaignId == campaign)
  }

  /** The `voice` section of an NPC bundle. */
  datatype Voice = Voice(speechStyle: Option<string>, quirks: Option<string>, goals: Option<string>,
                         fears: Option<string>, secrets: Option<string>, moralAlignment: Option<string>)

  function VoiceOf(npc: Npc): Voice {
    Voice(npc.speechStyle, npc.quirks, npc.goals, npc.fears, npc.secrets, npc.moralAlignment)
  }

  /** The tables the handlers read. */
  datatype StoreView = StoreView(npcs: seq<Npc>, players: seq<Player>, memories: seq<Memory>,
                                 relationships: seq<Relationship>, events: seq<CurrentEvent>, arcs: seq<Arc>)

  /** A validated request body; `arcIds` is the optional `arc_ids` array. */
  datatype NpcRequest = NpcRequest(campaignId: string, npcId: string, arcIds: Option<seq<string>>)
  datatype PlayerRequest = PlayerRequest(campaignId: string, playerId: string, arcIds: Option<seq<string>>)

  datatype NpcBundle = NpcBundle(npc: Npc, memories: seq<Memory>, relationships: seq<Relationship>,
                                 events: seq<CurrentEvent>, voice: Voice)
  datatype PlayerBundle = PlayerBundle(player: Player, memories: seq<Memory>, arcs: seq<Arc>, events: seq<CurrentEvent>)

  /** What a handler answers: `404` with no bundle, or the bundle. */
  datatype ContextResult<B> = NotFound | Bundle(value: B)

  /** The `/npc` handler: not-found when no NPC has the id in the campaign, else its bundle. */
  function BuildNpcContext(db: StoreView, req: NpcRequest): (r: ContextResult<NpcBundle>)
    ensures r.NotFound? <==> forall n :: n in db.npcs ==> !(n.id == req.npcId && n.campaignId == req.campaignId)
    ensures r.Bundle? ==> r.value.npc in db.npcs && r.value.npc.id == req.npcId && r.value.npc.campaignId == req.campaignId
    ensures r.Bundle? ==> LookupNpc(db.npcs, req.npcId, req.campaignId) == Some(r.value.npc)
    ensures r.Bundle? ==> var v, n := r.value.voice, r.value.npc;
              v.speechStyle == n.speechStyle && v.quirks == n.quirks && v.goals == n.goals
              && v.fears == n.fears && v.secrets == n.secrets && v.moralAlignment == n.moralAlignment
  {
    match LookupNpc(db.npcs, req.npcId, req.campaignId)
    case None => NotFound
    case Some(npc) =>
      var memories := RetrieveMemories(db.memories, NpcViewer, req.campaignId, NpcEntity, req.npcId);
      var rels := NpcRelationships(db.relationships, req.campaignId, req.npcId);
      var events := CampaignEvents(db.events, req.campaignId, Some(NpcEventFetchLimit), req.arcIds);
      Bundle(NpcBundle(npc, memories, rels, events, VoiceOf(npc)))
  }

  /**
   * The memories of an NPC bundle: only public and NPC-only ones, of this NPC
   * in this campaign, at most twenty, newest first, and exactly the visible
   * ones among the first twenty fetched.
   */
  lemma NpcBundleMemories(db: StoreView, req: NpcRequest)
    requires BuildNpcContext(db, req).Bundle?
    ensures var ms := BuildNpcContext(db, req).value.memories;
            (forall m :: m in ms ==> (m.scope == Public || m.scope == NpcOnly) && m in db.memories
                                     && IsMemoryOf(m, req.campaignId, NpcEntity, req.npcId))
            && |ms| <= MemoryFetchLimit && SortedByRecency(ms)
            && multiset(ms) == multiset(VisibleTo(NpcViewer, FetchMemories(db.memories, req.campaignId, NpcEntity, req.npcId)))
  {
    NpcMemoriesSection(db, req);
    RetrievedScopes(db.memories, NpcViewer, req.campaignId, NpcEntity, req.npcId, NpcOnly);
  }

  /** The memories of an NPC bundle are the retrieved ones. */
  lemma NpcMemoriesSection(db: StoreView, req: NpcRequest)
    requires BuildNpcContext(db, req).Bundle?
    ensures BuildNpcContext(db, req).value.memories
         == RetrieveMemories(db.memories, NpcViewer, req.campaignId, NpcEntity, req.npcId)
  {
    var found := LookupNpc(db.npcs, req.npcId, req.campaignId);
    var ms := RetrieveMemories(db.memories, NpcViewer, req.campaignId, NpcEntity, req.npcId);
    assert BuildNpcContext(db, req)
        == Bundle(NpcBundle(found.value, ms, NpcRelationships(db.relationships, req.campaignId, req.npcId),
                            CampaignEvents(db.events, req.campaignId, Some(NpcEventFetchLimit), req.arcIds),
                            VoiceOf(found.value)));
  }

  /** The relationships of an NPC bundle: exactly the campaign's edges at the NPC, in store order. */
  lemma NpcBundleRelationships(db: StoreView, req: NpcRequest)
    requires BuildNpcContext(db, req).Bundle?
    ensures BuildNpcContext(db, req).value.relationships
         == Filter(db.relationships, (e: Relationship) => e.campaignId == req.campaignId && Touches(e, req.npcId))
  {
  }

  /**
   * The events of an NPC bundle: of the campaign, in arc scope, in store
   * order; exactly the in-scope ones among the first fifty campaign events,
   * each as often as it was fetched.
   */
  lemma NpcBundleEvents(db: StoreView, req: NpcRequest)
    requires BuildNpcContext(db, req).Bundle?
    ensures var es := BuildNpcContext(db, req).value.events;
            (forall e :: e in es ==> e in db.events && e.campaignId == req.campaignId && InArcScope(e, req.arcIds))
            && |es| <= NpcEventFetchLimit && IsSubseq(es, db.events)
    ensures var es, fetched := BuildNpcContext(db, req).value.events,
                               Take(Filter(db.events, (e: CurrentEvent) => e.campaignId == req.campaignId), NpcEventFetchLimit);
            (forall e :: multiset(es)[e] == if InArcScope(e, req.arcIds) then multiset(fetched)[e] else 0)
            && IsSubseq(es, fetched)
  {
    NpcEventsSection(db, req);
  }

  /** The events of an NPC bundle are the campaign's events fetched with the limit of fifty, in arc scope. */
  lemma NpcEventsSection(db: StoreView, req: NpcRequest)
    requires BuildNpcContext(db, req).Bundle?
    ensures BuildNpcContext(db, req).value.events
         == CampaignEvents(db.events, req.campaignId, Some(NpcEventFetchLimit), req.arcIds)
  {
  }

  /** The `/player` handler: not-found when no player has the id in the campaign, else its bundle. */
  function BuildPlayerContext(db: StoreView, req: PlayerRequest): (r: ContextResult<PlayerBundle>)
    ensures r.NotFound? <==> forall p :: p in db.players ==> !(p.id == req.playerId && p.campaignId == req.campaignId)
    ensures r.Bundle? ==> r.value.player in db.players && r.value.player.id == req.playerId
                          && r.value.player.campaignId == req.campaignId
    ensures r.Bundle? ==> LookupPlayer(db.players, req.playerId, req.campaignId) == Some(r.value.player)
  {
    match LookupPlayer(db.players, req.playerId, req.campaignId)
    case None => NotFound
    case Some(player) =>
      var memories := RetrieveMemories(db.memories, PlayerViewer, req.campaignId, PlayerEntity, req.playerId);
      var arcs := SelectArcs(db.arcs, req.campaignId, req.arcIds);
      var events := CampaignEvents(db.events, req.campaignId, None, req.arcIds);
      Bundle(PlayerBundle(player, memories, arcs, events))
  }

  /**
   * The memories of a player bundle: only public and player-only ones, of
   * this player in this campaign, at most twenty, newest first, and exactly
   * the visible ones among the first twenty fetched.
   */
  lemma PlayerBundleMemories(db: StoreView, req: PlayerRequest)
    requires BuildPlayerContext(db, req).Bundle?
    ensures var ms := BuildPlayerContext(db, req).value.memories;
            (forall m :: m in ms ==> (m.scope == Public || m.scope == PlayerOnly) && m in db.memories
                                     && IsMemoryOf(m, req.campaignId, PlayerEntity, req.playerId))
            && |ms| <= MemoryFetchLimit && SortedByRecency(ms)
            && multiset(ms) == multiset(VisibleTo(PlayerViewer, FetchMemories(db.memories, req.campaignId, PlayerEntity, req.playerId)))
  {
    PlayerMemoriesSection(db, req);
    RetrievedScopes(db.memories, PlayerViewer, req.campaignId, PlayerEntity, req.playerId, PlayerOnly);
  }

  /** The memories of a player bundle are the retrieved ones. */
  lemma PlayerMemoriesSection(db: StoreView, req: PlayerRequest)
    requires BuildPlayerContext(db, req).Bundle?
    ensures BuildPlayerContext(db, req).value.memories
         == RetrieveMemories(db.memories, PlayerViewer, req.campaignId, PlayerEntity, req.playerId)
  {
    var found := LookupPlayer(db.players, req.playerId, req.campaignId);
    var ms := RetrieveMemories(db.memories, PlayerViewer, req.campaignId, PlayerEntity, req.playerId);
    assert BuildPlayerContext(db, req)
        == Bundle(PlayerBundle(found.value, ms, SelectArcs(db.arcs, req.campaignId, req.arcIds),
                               CampaignEvents(db.events, req.campaignId, None, req.arcIds)));
  }

  /**
   * The arcs of a player bundle: none without arc ids, else the campaign's
   * arcs they name, every copy, in store order.
   */
  lemma PlayerBundleArcs(db: StoreView, req: PlayerRequest)
    requires BuildPlayerContext(db, req).Bundle?
    ensures var arcs := BuildPlayerContext(db, req).value.arcs;
            (!HasArcIds(req.arcIds) ==> arcs == [])
            && (forall a :: a in arcs <==> a in db.arcs && a.campaignId == req.campaignId
                                           && HasArcIds(req.arcIds) && a.id in req.arcIds.value)
            && IsSubseq(arcs, db.arcs)
    ensures var arcs := BuildPlayerContext(db, req).value.arcs;
            forall a :: multiset(arcs)[a] == if a.campaignId == req.campaignId && HasArcIds(req.arcIds)
                                                && a.id in req.arcIds.value then multiset(db.arcs)[a] else 0
  {
    var arcs := SelectArcs(db.arcs, req.campaignId, req.arcIds);
    PlayerArcsSection(db, req);
    if HasArcIds(req.arcIds) {
      var ids := req.arcIds.value;
      FilterCounts(db.arcs, (a: Arc) => a.campaignId == req.campaignId && a.id in ids);
    }
  }

  /** The arcs of a player bundle are the selected ones. */
  lemma PlayerArcsSection(db: StoreView, req: PlayerRequest)
    requires BuildPlayerContext(db, req).Bundle?
    ensures BuildPlayerContext(db, req).value.arcs == SelectArcs(db.arcs, req.campaignId, req.arcIds)
  {
  }

  /**
   * The events of a player bundle: exactly the campaign's events in arc
   * scope, every copy, in store order.
   */
  lemma PlayerBundleEvents(db: StoreView, req: PlayerRequest)
    requires BuildPlayerContext(db, req).Bundle?
    ensures var es := BuildPlayerContext(db, req).value.events;
            (forall e :: e in es <==> e in db.events && e.campaignId == req.campaignId && InArcScope(e, req.arcIds))
            && IsSubseq(es, db.events)
    ensures var es := BuildPlayerContext(db, req).value.events;
            forall e :: multiset(es)[e] == if e.campaignId == req.campaignId && InArcScope(e, req.arcIds)
                                           then multiset(db.events)[e] else 0
  {
    PlayerEventsSection(db, req);
    UnlimitedEventCopies(db.events, req.campaignId, req.arcIds);
  }

  /** The events of a player bundle are the campaign's events, fetched without a limit, in arc scope. */
  lemma PlayerEventsSection(db: StoreView, req: PlayerRequest)
    requires BuildPlayerContext(db, req).Bundle?
    ensures BuildPlayerContext(db, req).value.events == CampaignEvents(db.events, req.campaignId, None, req.arcIds)
  {
  }
}
