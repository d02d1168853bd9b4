/** The one-byte set of parameter types recorded per wildcard slot. */
module SlotTypeSets {
  import opened Collections
  import opened AuditEvents

  datatype SlotTypes = SlotTypes(bits: bv8)

  /** `Unknown` has no bit: recording it changes nothing. */
  function Bit(t: ParamType): bv8 {
    match t
    case Ip => 1
    case Uuid => 2
    case Num => 4
    case Hex => 8
    case Ts => 16
    case Path => 32
    case Str => 64
    case Overflow => 128
    case Unknown(_) => 0
  }

  function Singleton(t: ParamType): SlotTypes {
    SlotTypes(Bit(t))
  }

  function Insert(s: SlotTypes, t: ParamType): SlotTypes {
    SlotTypes(s.bits | Bit(t))
  }

  predicate Contains(s: SlotTypes, t: ParamType) {
    s.bits & Bit(t) != 0
  }

  const KNOWN_TYPES: set<ParamType> := {Ip, Uuid, Num, Hex, Ts, Path, Str, Overflow}

  /** The set the byte stands for. */
  function Members(s: SlotTypes): set<ParamType> {
    set t | t in KNOWN_TYPES && Contains(s, t)
  }

  function Known(t: ParamType): set<ParamType> {
    if t.Unknown? then {} else {t}
  }

  lemma BitsApart(t: ParamType, u: ParamType)
    requires t != u && t in KNOWN_TYPES && u in KNOWN_TYPES
    ensures Bit(t) & Bit(u) == 0
  {
  }

  lemma OrThenAnd(s: bv8, b: bv8, c: bv8)
    requires b & c == 0
    ensures (s | b) & c == s & c
  {
  }

  lemma OrThenAndSame(s: bv8, b: bv8)
    ensures (s | b) & b == b
  {
  }

  lemma InsertThenContains(s: SlotTypes, t: ParamType, u: ParamType)
    requires t in KNOWN_TYPES && u in KNOWN_TYPES
    ensures Contains(Insert(s, t), u) <==> Contains(s, u) || t == u
  {
    if t == u {
      OrThenAndSame(s.bits, Bit(u));
    } else {
      BitsApart(t, u);
      OrThenAnd(s.bits, Bit(t), Bit(u));
    }
  }

  lemma OrZero(s: bv8)
    ensures s | 0 == s && s & 0 == 0
  {
  }

  /** Inserting adds exactly the type named, and `Unknown` adds nothing. */
  lemma InsertMembers(s: SlotTypes, t: ParamType)
    ensures Members(Insert(s, t)) == Members(s) + Known(t)
  {
    if t.Unknown? {
      OrZero(s.bits);
    } else {
      forall u | u in KNOWN_TYPES
        ensures u in Members(Insert(s, t)) <==> u in Members(s) + Known(t)
      {
        InsertThenContains(s, t, u);
      }
    }
  }

  lemma ContainsMembers(s: SlotTypes, t: ParamType)
    ensures Contains(s, t) <==> t in Members(s)
  {
    OrZero(s.bits);
  }

  lemma MembersBound(s: SlotTypes)
    ensures Members(s) <= KNOWN_TYPES && |Members(s)| <= 8
  {
    SubsetCardinality(Members(s), KNOWN_TYPES);
  }
}
