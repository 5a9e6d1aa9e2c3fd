/** The three flag octets of a configuration bit by bit. */
module FlagBits {
  import opened Bits
  import opened YkConfig
  import opened JsonConfig

  predicate HasBit(flags: byte, bit: byte) { flags & bit != 0 }

  function FlagsIn(f: Flags, t: Table): byte {
    match t
    case TicketFlags => f.tkt
    case ConfigFlags => f.cfg
    case ExtendedFlags => f.ext
  }

  lemma OneBit(one: byte, bit: byte)
    requires SingleBit(one) && SingleBit(bit)
    ensures HasBit(one, bit) == (one == bit)
  {
  }

  lemma NothingSet(bit: byte)
    ensures !HasBit(0, bit)
  {
  }

  lemma UnionBit(a: byte, b: byte, bit: byte)
    ensures HasBit(Union(a, b), bit) == (HasBit(a, bit) || HasBit(b, bit))
  {
  }
}
