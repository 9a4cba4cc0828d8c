/**
 * The records the context handlers read, as typed values: the closed
 * vocabularies of the request and record schemas become datatypes, optional
 * text columns become `Option<string>`, and `happened_at` is the instant
 * already parsed to an integer.
 */
module Records {
  import opened Wrappers

  /** Who may see a memory (`visibility_scope`). */
  datatype Scope = Public | NpcOnly | PlayerOnly | GmOnly

  /** What a memory is about (`entity_type`). */
  datatype EntityType = NpcEntity | PlayerEntity | WorldEntity

  /** The kind of a memory (`kind`). */
  datatype MemoryKind = Dialogue | EventMemory | Rumor | Clue

  /** The state of a story arc (`status`). */
  datatype ArcStatus = Planned | Active | Resolved | Failed

  /** How serious a current event is (`severity`). */
  datatype Severity = Low | Medium | High

  /** A row of `memories`. */
  datatype Memory = Memory(id: string, campaignId: string, userId: string, entityType: EntityType, entityId: string,
                           kind: MemoryKind, text: string, happenedAt: int, scope: Scope)

  /** A row of `npc_relationships`: an edge between two NPCs. */
  datatype Relationship = Relationship(id: string, campaignId: string, userId: string, npcA: string, npcB: string,
                                       relationType: string, intensity: int, notes: string)

  /** A row of `arcos`. */
  datatype Arc = Arc(id: string, userId: string, campaignId: string, name: string, status: ArcStatus)

  /** A row of `eventos_atuais`; `arcId` is absent for an event outside every arc. */
  datatype CurrentEvent = CurrentEvent(id: string, userId: string, campaignId: string, title: string, state: string,
                                       severity: Severity, arcId: Option<string>)

  /** A row of `npcs`. */
  datatype Npc = Npc(id: string, userId: string, campaignId: string, name: string, role: Option<string>,
                     speechStyle: Option<string>, quirks: Option<string>, goals: Option<string>,
                     fears: Option<string>, secrets: Option<string>, moralAlignment: Option<string>,
                     localId: Option<string>)

  /** A row of `jogador`. */
  datatype Player = Player(id: string, userId: string, campaignId: string, name: string, background: Option<string>)

  /** The stored spelling of each vocabulary. */
  function ScopeName(s: Scope): string {
    match s
    case Public => "public"
    case NpcOnly => "npc_only"
    case PlayerOnly => "player_only"
    case GmOnly => "gm_only"
  }

  function EntityTypeName(t: EntityType): string {
    match t
    case NpcEntity => "npc"
    case PlayerEntity => "player"
    case WorldEntity => "world"
  }

  function MemoryKindName(k: MemoryKind): string {
    match k
    case Dialogue => "dialogue"
    case EventMemory => "event"
    case Rumor => "rumor"
    case Clue => "clue"
  }

  function ArcStatusName(s: ArcStatus): string {
    match s
    case Planned => "planned"
    case Active => "active"
    case Resolved => "resolved"
    case Failed => "failed"
  }

  function SeverityName(s: Severity): string {
    match s
    case Low => "low"
    case Medium => "medium"
    case High => "high"
  }

  /** Distinct vocabulary values are stored under distinct spellings. */
  lemma NamesAreDistinct()
    ensures forall a: Scope, b: Scope :: ScopeName(a) == ScopeName(b) ==> a == b
    ensures forall a: EntityType, b: EntityType :: EntityTypeName(a) == EntityTypeName(b) ==> a == b
    ensures forall a: MemoryKind, b: MemoryKind :: MemoryKindName(a) == MemoryKindName(b) ==> a == b
    ensures forall a: ArcStatus, b: ArcStatus :: ArcStatusName(a) == ArcStatusName(b) ==> a == b
    ensures forall a: Severity, b: Severity :: SeverityName(a) == SeverityName(b) ==> a == b
  {
  }
}
