/** The audit stream: the envelope every event shares and the payloads that the
    alias projection and the template-chain oracle read. */
module AuditEvents {
  type U16 = x: int | 0 <= x < 0x1_0000
  type U32 = x: int | 0 <= x < 0x1_0000_0000

  type Id = nat
  type Tenant = string

  /** The id of a record that no template stands for. */
  const NO_TEMPLATE: Id := 0

  /** An operator identity is never empty. */
  type ActorId = s: string | s != "" witness "operator"

  /** The type tag of a masked parameter.  `Unknown` is a reader-side catch-all. */
  datatype ParamType = Ip | Uuid | Num | Hex | Ts | Path | Str | Overflow | Unknown(ordinal: int)

  datatype SlotExpansion = SlotExpansion(slotIndex: U16, addedTypes: seq<ParamType>)

  datatype TemplateChange =
    | Created(newTemplate: string)
    | Widened(oldVersion: U32, newVersion: U32, oldTemplate: string, newTemplate: string,
              positionsWidened: seq<U16>)
    | TypeExpanded(oldVersion: U32, newVersion: U32, oldTemplate: string, newTemplate: string,
                   slotsExpanded: seq<SlotExpansion>)
    | RejectedDegenerate(version: U32, currentTemplate: string, wouldBeTemplate: string,
                         wouldBePositions: seq<U16>)
    | Adopted(templateVersion: U32, newTemplate: string)

  /** `Other` stands for every kind neither fold reads: compactions, quarantined
      records, denied ingests, erased conversations and unknown ordinals. */
  datatype Payload =
    | Template(templateId: Id, change: TemplateChange)
    | AliasAsserted(representative: Id, members: seq<Id>, actor: ActorId, reason: seq<bv8>)
    | AliasRetracted(representative: Id, members: seq<Id>, actor: ActorId, reason: seq<bv8>)
    | Other(kind: nat)

  datatype AuditEvent = AuditEvent(tenant: Tenant, timestamp: int, payload: Payload)

  /** The in-memory sink: events in emission order. */
  class AuditSink {
    var events: seq<AuditEvent>

    constructor ()
      ensures events == []
    {
      events := [];
    }

    method Emit(event: AuditEvent)
      modifies this
      ensures events == old(events) + [event]
    {
      events := events + [event];
    }
  }
}
